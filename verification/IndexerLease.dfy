/**
 * What the lease is for: that loops of different workers do not overlap. The row is deleted
 * without a look at its owner or its expiry, so this is not so in every run; here is exactly
 * when it is, and what then follows for the chain.
 */
module IndexerLease {
  import opened Prelude
  import opened IndexerModel
  import opened IndexerChain

  /** From the grant of the lease until the process stops. */
  predicate Holding(pc: Pc) {
    pc.ReadCheckpoint? || pc.CreateCheckpoint? || InLoop(pc)
  }

  /** Every worker that goes on as if it had the lease does have it. */
  ghost predicate HoldersOwn(s: Sys) {
    forall id :: id in s.workers && Holding(s.workers[id].pc) ==> Owns(s.db, id)
  }

  /** The row belongs to a worker that is still at it. */
  predicate InUse(s: Sys) {
    s.db.lease.Some? &&
    s.db.lease.value.owner in s.workers && Holding(s.workers[s.db.lease.value.owner].pc)
  }

  /** The two deletions that look at nothing: of a row that is in use, and by `stop` under a running loop. */
  predicate Displaces(s: Sys, e: Event) {
    e.Does? && e.id in s.workers &&
    ((e.act.DoDeleteLease? && InUse(s)) || (e.act.Stop? && Holding(s.workers[e.id].pc)))
  }

  lemma DisplacedLoses(cfg: Config, s: Sys, e: Event)
    requires HoldersOwn(s) && Next(cfg, s, e).Some? && Displaces(s, e)
    ensures !HoldersOwn(Next(cfg, s, e).value)
  {
    var t := Next(cfg, s, e).value;
    var holder := if e.act.Stop? then e.id else s.db.lease.value.owner;
    assert holder in t.workers && Holding(t.workers[holder].pc) && t.db.lease.None?;
  }

  /** What an action does to the lease row, and to who holds it. */
  lemma LeaseAfter(cfg: Config, db: Db, chain: Chain, id: WorkerId, w: Worker, a: Act)
    requires Step(cfg, db, chain, id, w, a).Some?
    ensures var o := Step(cfg, db, chain, id, w, a).value;
      && (Holding(o.w.pc) ==> Holding(w.pc) || Owns(o.db, id))
      && (o.db.lease == db.lease
          || (Owns(db, id) && Owns(o.db, id))
          || (db.lease.None? && Owns(o.db, id))
          || (o.db.lease.None? && a.DoDeleteLease? && !Holding(w.pc))
          || (o.db.lease.None? && Owns(db, id) && (a.Stop? || !Holding(o.w.pc))))
  {
    hide Insert, InsertWindow, MarkOrphaned, FinalityAt, MayFind;
  }

  lemma UndisplacedKeeps(cfg: Config, s: Sys, e: Event)
    requires HoldersOwn(s) && Next(cfg, s, e).Some? && !Displaces(s, e)
    ensures HoldersOwn(Next(cfg, s, e).value)
  {
    hide Step, Holding;
    if e.Does? {
      LeaseAfter(cfg, s.db, s.chain, e.id, s.workers[e.id], e.act);
    }
  }

  /** Exactly which events take the lease from under a worker that relies on it. */
  lemma StepKeepsHoldersIff(cfg: Config, s: Sys, e: Event)
    requires HoldersOwn(s) && Next(cfg, s, e).Some?
    ensures HoldersOwn(Next(cfg, s, e).value) <==> !Displaces(s, e)
  {
    hide HoldersOwn, Next, Displaces;
    if Displaces(s, e) {
      DisplacedLoses(cfg, s, e);
    } else {
      UndisplacedKeeps(cfg, s, e);
    }
  }

  // ---------------------------------------------------------------- whole runs

  /** No event of the run deletes the lease row of a worker that relies on it. */
  ghost predicate Undisplaced(cfg: Config, s: Sys, events: seq<Event>)
    decreases |events|
  {
    events == [] ||
    var front := events[..|events| - 1];
    Undisplaced(cfg, s, front) &&
        (Run(cfg, s, front).Some? ==> !Displaces(Run(cfg, s, front).value, events[|events| - 1]))
  }

  ghost predicate AlwaysHoldersOwn(cfg: Config, s: Sys, events: seq<Event>)
    decreases |events|
  {
    (Run(cfg, s, events).Some? ==> HoldersOwn(Run(cfg, s, events).value)) &&
    (events == [] || AlwaysHoldersOwn(cfg, s, events[..|events| - 1]))
  }

  /**
   * The lease, exactly, over every run of any workers: in all states each worker that relies on
   * the lease owns it, if and only if none of the two unguarded deletions hits such a worker.
   */
  lemma {:induction false} HoldersOwnIffUndisplaced(cfg: Config, s: Sys, events: seq<Event>)
    requires HoldersOwn(s) && Run(cfg, s, events).Some?
    ensures AlwaysHoldersOwn(cfg, s, events) <==> Undisplaced(cfg, s, events)
    decreases |events|
  {
    hide HoldersOwn, Next, Displaces;
    if events != [] {
      var front, e := events[..|events| - 1], events[|events| - 1];
      HoldersOwnIffUndisplaced(cfg, s, front);
      if HoldersOwn(Run(cfg, s, front).value) {
        StepKeepsHoldersIff(cfg, Run(cfg, s, front).value, e);
      }
    }
  }

  lemma OwnersDoNotOverlap(s: Sys)
    requires HoldersOwn(s)
    ensures OneLoop(s)
  {
  }

  lemma {:induction false} AlwaysOneLoop(cfg: Config, s: Sys, events: seq<Event>)
    requires AlwaysHoldersOwn(cfg, s, events)
    ensures NeverTwoLoops(cfg, s, events)
    decreases |events|
  {
    hide HoldersOwn, OneLoop;
    if Run(cfg, s, events).Some? {
      OwnersDoNotOverlap(Run(cfg, s, events).value);
    }
    if events != [] {
      AlwaysOneLoop(cfg, s, events[..|events| - 1]);
    }
  }

  /** From processes not yet started, loops never overlap unless a lease in use is deleted. */
  lemma LoopsDoNotOverlap(cfg: Config, s: Sys, events: seq<Event>)
    requires HoldersOwn(s) && Run(cfg, s, events).Some? && Undisplaced(cfg, s, events)
    ensures NeverTwoLoops(cfg, s, events)
  {
    hide HoldersOwn;
    HoldersOwnIffUndisplaced(cfg, s, events);
    AlwaysOneLoop(cfg, s, events);
  }

  /**
   * Chain safety from the lease: over every run of any workers in which no lease in use is
   * deleted, and whose environment is benign, the canonical rows are one parent-linked chain from
   * `start`, at most one worker is in its loop, and a position that is not stale lies on the chain.
   */
  lemma LeasedChainSafety(cfg: Config, s: Sys, events: seq<Event>)
    requires Initial(s) && Run(cfg, s, events).Some?
    requires BenignAnswers(cfg, s, events) && Undisplaced(cfg, s, events)
    ensures var t := Run(cfg, s, events).value;
            OneLoop(t) && OneChain(t.db.rows, cfg.start) &&
            forall id :: id in t.workers ==>
              var w := t.workers[id];
              InLoop(w.pc) && !Stale(t.db.rows, cfg.start, w.cursor, w.last) ==>
                (forall h: nat :: cfg.start <= h < w.cursor ==> HasCanonical(t.db.rows, h)) &&
                (w.last.Some? ==> w.cursor > 0 && Canonical(t.db.rows, w.cursor - 1, w.last.value))
  {
    LoopsDoNotOverlap(cfg, s, events);
    ChainSafety(cfg, s, events);
  }
}
