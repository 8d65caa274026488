/**
 * What a stored row's finality is worth: over every run, a row that says finalized, safe or soft
 * confirmed really had that many blocks above it at some time; and at the time it is stored, it
 * says no less than was so.
 */
module IndexerFinality {
  import opened Prelude
  import opened Arithmetic
  import opened IndexerModel

  /** The finality is the strongest that the confirmations at hand allow. */
  lemma FinalityIsStrongest(cfg: Config, latest: int, height: nat)
    ensures var f := FinalityAt(cfg, latest, height);
      && (f == Finalized <==> latest >= height + cfg.finalityConfirmations)
      && (f == Safe <==> height + cfg.safeConfirmations <= latest < height + cfg.finalityConfirmations)
      && (f == SoftConfirmed <==>
            height < latest && latest < height + cfg.safeConfirmations && latest < height + cfg.finalityConfirmations)
      && (f == Pending <==>
            latest <= height && latest < height + cfg.safeConfirmations && latest < height + cfg.finalityConfirmations)
  {
  }

  /** The highest head that the provider has served in any state of a run. */
  ghost function HighestHead(cfg: Config, s: Sys, events: seq<Event>): int
    decreases |events|
  {
    var head := match Run(cfg, s, events) case Some(t) => Latest(t.chain) case None => -1;
    if events == [] then head else Max(head, HighestHead(cfg, s, events[..|events| - 1]))
  }

  /** With that head, the row could say what it says. */
  predicate Earned(cfg: Config, f: Finality, height: nat, head: int) {
    match f
    case Finalized => height + cfg.finalityConfirmations <= head
    case Safe => height + cfg.safeConfirmations <= head
    case SoftConfirmed => height < head
    case _ => true
  }

  ghost predicate RowsEarned(cfg: Config, rows: Table, head: int) {
    forall k :: k in rows ==> Earned(cfg, rows[k].finality, k.0, head)
  }

  /** A window in the making ends where the head makes it final. */
  predicate WindowEarned(cfg: Config, w: Worker, head: int) {
    match w.pc
    case Drain(end, got) => end + cfg.finalityConfirmations <= head && w.cursor + |got| <= end + 1
    case PersistWindow(bs) => w.cursor + |bs| - 1 + cfg.finalityConfirmations <= head
    case _ => true
  }

  ghost predicate AllEarned(cfg: Config, s: Sys, head: int) {
    RowsEarned(cfg, s.db.rows, head) && forall id :: id in s.workers ==> WindowEarned(cfg, s.workers[id], head)
  }

  lemma EarnedStays(cfg: Config, f: Finality, height: nat, head: int, later: int)
    requires Earned(cfg, f, height, head) && head <= later
    ensures Earned(cfg, f, height, later)
  {
  }

  lemma AllEarnedStays(cfg: Config, s: Sys, head: int, later: int)
    requires AllEarned(cfg, s, head) && head <= later
    ensures AllEarned(cfg, s, later)
  {
    forall k | k in s.db.rows
      ensures Earned(cfg, s.db.rows[k].finality, k.0, later)
    {
      EarnedStays(cfg, s.db.rows[k].finality, k.0, head, later);
    }
  }

  lemma {:induction false} WindowRowsEarned(cfg: Config, rows: Table, height: nat, bs: seq<Block>, head: int)
    requires RowsEarned(cfg, rows, head) && height + |bs| - 1 + cfg.finalityConfirmations <= head
    ensures RowsEarned(cfg, InsertWindow(rows, height, bs), head)
    decreases |bs|
  {
    if bs != [] {
      WindowRowsEarned(cfg, Insert(rows, height, bs[0], Finalized), height + 1, bs[1..], head);
    }
  }

  /** What an action stores, and the window it leaves the worker with. */
  lemma StepEarns(cfg: Config, db: Db, chain: Chain, id: WorkerId, w: Worker, a: Act, head: int)
    requires RowsEarned(cfg, db.rows, head) && WindowEarned(cfg, w, head) && Latest(chain) <= head
    requires Step(cfg, db, chain, id, w, a).Some?
    ensures RowsEarned(cfg, Step(cfg, db, chain, id, w, a).value.db.rows, head)
    ensures WindowEarned(cfg, Step(cfg, db, chain, id, w, a).value.w, head)
  {
    hide InsertWindow, MayFind;
    if a.DoPersistWindow? && w.pc.PersistWindow? {
      WindowRowsEarned(cfg, db.rows, w.cursor, w.pc.blocks, head);
    }
  }

  /**
   * Over every run, whatever forks, faults and crashes it has: a row's finality was true of some head
   * that the provider has served, so nothing is called final, safe or confirmed that never was.
   */
  lemma {:induction false} FinalityIsEarned(cfg: Config, s: Sys, events: seq<Event>)
    requires Initial(s) && Run(cfg, s, events).Some?
    ensures AllEarned(cfg, Run(cfg, s, events).value, HighestHead(cfg, s, events))
    decreases |events|
  {
    hide Step;
    if events != [] {
      var front, e := events[..|events| - 1], events[|events| - 1];
      FinalityIsEarned(cfg, s, front);
      var mid, head := Run(cfg, s, front).value, HighestHead(cfg, s, events);
      AllEarnedStays(cfg, mid, HighestHead(cfg, s, front), head);
      HeadIsHighest(cfg, s, front);
      if e.Does? {
        StepEarns(cfg, mid.db, mid.chain, e.id, mid.workers[e.id], e.act, head);
      }
    }
  }

  lemma HeadIsHighest(cfg: Config, s: Sys, events: seq<Event>)
    requires Run(cfg, s, events).Some?
    ensures Latest(Run(cfg, s, events).value.chain) <= HighestHead(cfg, s, events)
  {
  }

  /** A block that is stored as the tail goes along says exactly what the head allows at that moment. */
  lemma PersistSaysWhatIs(cfg: Config, db: Db, chain: Chain, id: WorkerId, w: Worker)
    requires w.pc.Persist? && (w.cursor, w.pc.block.hash) !in db.rows
    ensures var o, key := Step(cfg, db, chain, id, w, DoPersist), (w.cursor, w.pc.block.hash);
      && o.Some? && key in o.value.db.rows && o.value.db.rows[key].canonical
      && (o.value.db.rows[key].finality == Finalized <==> Latest(chain) >= w.cursor + cfg.finalityConfirmations)
      && (Latest(chain) >= w.cursor + cfg.safeConfirmations ==>
            o.value.db.rows[key].finality == Safe || o.value.db.rows[key].finality == Finalized)
  {
  }
}
