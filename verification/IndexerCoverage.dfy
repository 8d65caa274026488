/**
 * What holds for any number of workers on one stream, under every interleaving,
 * fork, provider gap, error and crash: the stored checkpoint never claims a height
 * that has no row, and the lease bounds how stale a checkpoint write can be.
 */
module IndexerCoverage {
  import opened Prelude
  import opened IndexerModel

  // ---------------------------------------------------------------- coverage

  /** Every height in [lo, hi) has at least one stored row. */
  ghost predicate Covers(rows: Table, lo: nat, hi: int) {
    forall h: nat :: lo <= h < hi ==> HasRow(rows, h)
  }

  /** How far worker `w` relies on stored rows at this point of its loop. */
  function ClaimedUpTo(w: Worker): int {
    if !InLoop(w.pc) then 0
    else if w.pc.Record? || w.pc.Publish? then w.cursor + 1
    else if w.pc.RecordWindow? || w.pc.AdoptWindow? then w.cursor + |w.pc.blocks|
    else w.cursor
  }

  /** The searched or chosen ancestor is below the cursor. */
  predicate AncestorBelow(w: Worker) {
    (w.pc.Search? || w.pc.Compare? ==> w.pc.at < w.cursor) &&
    (w.pc.MarkBlocks? ==> w.pc.ancestor < w.cursor) &&
    (w.pc.FinishReorg? ==> w.pc.ancestor < w.cursor)
  }

  ghost predicate WorkerCovered(cfg: Config, rows: Table, w: Worker) {
    Covers(rows, cfg.start, ClaimedUpTo(w)) && AncestorBelow(w)
  }

  ghost predicate CheckpointCovered(cfg: Config, db: Db) {
    db.checkpoint.Some? ==> Covers(db.rows, cfg.start, db.checkpoint.value.next)
  }

  ghost predicate Covered(cfg: Config, s: Sys) {
    CheckpointCovered(cfg, s.db) &&
    forall id :: id in s.workers ==> WorkerCovered(cfg, s.db.rows, s.workers[id])
  }

  ghost predicate KeepsRows(before: Table, after: Table) {
    forall k :: k in before ==> k in after
  }

  lemma CoversGrows(before: Table, after: Table, lo: nat, hi: int)
    requires Covers(before, lo, hi) && KeepsRows(before, after)
    ensures Covers(after, lo, hi)
  {
    forall h: nat | lo <= h < hi ensures HasRow(after, h) {
      assert HasRow(before, h);
      var hash: Hash :| (h, hash) in before;
      assert (h, hash) in after;
    }
  }

  /** A window write keeps every row and gives each of its heights one. */
  lemma {:induction false} InsertWindowRows(rows: Table, height: nat, bs: seq<Block>)
    ensures KeepsRows(rows, InsertWindow(rows, height, bs))
    ensures forall i: nat :: i < |bs| ==> (height + i, bs[i].hash) in InsertWindow(rows, height, bs)
    decreases |bs|
  {
    if bs != [] {
      InsertWindowRows(Insert(rows, height, bs[0], Finalized), height + 1, bs[1..]);
      forall i: nat | i < |bs| ensures (height + i, bs[i].hash) in InsertWindow(rows, height, bs) {
        if i > 0 {
          assert bs[i] == bs[1..][i - 1];
          assert (height + 1 + (i - 1), bs[1..][i - 1].hash) ==  (height + i, bs[i].hash);
        } else {
          assert (height, bs[0].hash) in Insert(rows, height, bs[0], Finalized);
        }
      }
    }
  }

  /** No action deletes a stored row; orphaning only flags it. */
  lemma StepKeepsRows(cfg: Config, db: Db, chain: Chain, id: WorkerId, w: Worker, a: Act)
    requires Step(cfg, db, chain, id, w, a).Some?
    ensures KeepsRows(db.rows, Step(cfg, db, chain, id, w, a).value.db.rows)
  {
    if a.DoPersistWindow? {
      InsertWindowRows(db.rows, w.cursor, w.pc.blocks);
    }
  }

  /** How far a step lets a worker or the checkpoint rely on rows, beyond what was relied on before. */
  lemma StepClaims(cfg: Config, db: Db, chain: Chain, id: WorkerId, w: Worker, a: Act)
    requires AncestorBelow(w) && Step(cfg, db, chain, id, w, a).Some?
    ensures var o := Step(cfg, db, chain, id, w, a).value;
      && AncestorBelow(o.w)
      && (ClaimedUpTo(o.w) <= ClaimedUpTo(w) || ClaimedUpTo(o.w) <= cfg.start ||
          (a.DoReadCheckpoint? && db.checkpoint.Some? && ClaimedUpTo(o.w) <= db.checkpoint.value.next) ||
          (a.DoPersist? && w.pc.Persist? && ClaimedUpTo(o.w) == w.cursor + 1) ||
          (a.DoPersistWindow? && w.pc.PersistWindow? && ClaimedUpTo(o.w) == w.cursor + |w.pc.blocks|))
      && (o.db.checkpoint == db.checkpoint ||
          (o.db.checkpoint.Some? &&
           (o.db.checkpoint.value.next <= ClaimedUpTo(w) || o.db.checkpoint.value.next <= cfg.start)))
      && (a.DoPersist? && w.pc.Persist? ==>
            ClaimedUpTo(w) == w.cursor &&
                o.db.rows == Insert(db.rows, w.cursor, w.pc.block, FinalityAt(cfg, Latest(chain), w.cursor)))
      && (a.DoPersistWindow? && w.pc.PersistWindow? ==>
            ClaimedUpTo(w) == w.cursor && o.db.rows == InsertWindow(db.rows, w.cursor, w.pc.blocks))
  {
    hide InsertWindow, Insert, MarkOrphaned, FinalityAt, MayFind;
  }

  lemma StepKeepsWorkerCovered(cfg: Config, db: Db, chain: Chain, id: WorkerId, w: Worker, a: Act)
    requires CheckpointCovered(cfg, db) && WorkerCovered(cfg, db.rows, w)
    requires Step(cfg, db, chain, id, w, a).Some?
    ensures var o := Step(cfg, db, chain, id, w, a).value;
            CheckpointCovered(cfg, o.db) && WorkerCovered(cfg, o.db.rows, o.w)
  {
    hide InsertWindow, KeepsRows, Insert, HasRow, Step, ClaimedUpTo, AncestorBelow, FinalityAt;
    var o := Step(cfg, db, chain, id, w, a).value;
    StepKeepsRows(cfg, db, chain, id, w, a);
    StepClaims(cfg, db, chain, id, w, a);
    CoversGrows(db.rows, o.db.rows, cfg.start, ClaimedUpTo(w));
    if db.checkpoint.Some? {
      CoversGrows(db.rows, o.db.rows, cfg.start, db.checkpoint.value.next);
    }
    if a.DoPersist? && w.pc.Persist? {
      InsertStores(db.rows, w.cursor, w.pc.block);
    }
    if a.DoPersistWindow? && w.pc.PersistWindow? {
      WindowStores(db.rows, w.cursor, w.pc.blocks);
    }
  }

  lemma InsertStores(rows: Table, h: nat, b: Block)
    ensures forall f: Finality :: HasRow(Insert(rows, h, b, f), h)
  {
    forall f: Finality
      ensures HasRow(Insert(rows, h, b, f), h)
    {
      assert (h, b.hash) in Insert(rows, h, b, f);
    }
  }

  lemma WindowStores(rows: Table, from: nat, bs: seq<Block>)
    ensures forall h: nat :: from <= h < from + |bs| ==> HasRow(InsertWindow(rows, from, bs), h)
  {
    InsertWindowRows(rows, from, bs);
    forall h: nat | from <= h < from + |bs|
      ensures HasRow(InsertWindow(rows, from, bs), h)
    {
      assert (from + (h - from), bs[h - from].hash) in InsertWindow(rows, from, bs);
    }
  }

  lemma NextKeepsCovered(cfg: Config, s: Sys, e: Event)
    requires Covered(cfg, s) && Next(cfg, s, e).Some?
    ensures Covered(cfg, Next(cfg, s, e).value)
  {
    if e.Does? {
      var w := s.workers[e.id];
      StepKeepsWorkerCovered(cfg, s.db, s.chain, e.id, w, e.act);
      StepKeepsRows(cfg, s.db, s.chain, e.id, w, e.act);
      var t := Next(cfg, s, e).value;
      forall id | id in t.workers ensures WorkerCovered(cfg, t.db.rows, t.workers[id]) {
        if id != e.id {
          CoversGrows(s.db.rows, t.db.rows, cfg.start, ClaimedUpTo(s.workers[id]));
        }
      }
    }
  }

  /** A stream nobody has checkpointed yet; the table may already hold anything. */
  ghost predicate Fresh(s: Sys) {
    s.db.checkpoint.None? && forall id :: id in s.workers ==> s.workers[id].pc.Stopped?
  }

  /**
   * Checkpoint coverage, over every run: whatever the workers, the provider and the
   * crashes did, a stored `next = n` means each height in [start, n) has a row.
   */
  lemma {:induction false} CheckpointCoverage(cfg: Config, s: Sys, events: seq<Event>)
    requires Fresh(s) && Run(cfg, s, events).Some?
    ensures var t := Run(cfg, s, events).value;
            t.db.checkpoint.Some? ==>
              forall h: nat :: cfg.start <= h < t.db.checkpoint.value.next ==> HasRow(t.db.rows, h)
  {
    RunCovered(cfg, s, events);
  }

  lemma {:induction false} RunCovered(cfg: Config, s: Sys, events: seq<Event>)
    requires Fresh(s) && Run(cfg, s, events).Some?
    ensures Covered(cfg, Run(cfg, s, events).value)
    decreases |events|
  {
    if events != [] {
      RunCovered(cfg, s, events[..|events| - 1]);
      NextKeepsCovered(cfg, Run(cfg, s, events[..|events| - 1]).value, events[|events| - 1]);
    }
  }

  // ---------------------------------------------------------------- the lease

  predicate WritesCheckpoint(e: Event, id: WorkerId) {
    e.Does? && e.id == id && (e.act.DoRecord? || e.act.DoRecordWindow? || e.act.DoCreateCheckpoint?)
  }

  function Writes(events: seq<Event>, id: WorkerId): nat
    decreases |events|
  {
    if events == [] then 0
    else
      Writes(events[..|events| - 1], id) + if WritesCheckpoint(events[|events| - 1], id) then 1 else 0
  }

  /** The row belongs to someone else, or to nobody, in every state of the run after the first. */
  ghost predicate NeverOwns(cfg: Config, s: Sys, events: seq<Event>, id: WorkerId)
    decreases |events|
  {
    events == [] ||
    (NeverOwns(cfg, s, events[..|events| - 1], id) &&
     (Run(cfg, s, events).Some? ==> !Owns(Run(cfg, s, events).value.db, id)))
  }

  /** From here the worker can reach a checkpoint write without another grant of the lease. */
  predicate MayStillWrite(pc: Pc) {
    pc.ReadCheckpoint? || pc.CreateCheckpoint? || pc.ReadHead? || pc.Drain? || pc.PersistWindow? ||
    pc.RecordWindow? || pc.Tail? || pc.Search? || pc.Compare? || pc.Persist? || pc.Record?
  }

  function Credit(s: Sys, id: WorkerId): nat {
    if id in s.workers && MayStillWrite(s.workers[id].pc) then 1 else 0
  }

  /** An action that hands `id` the lease row, by insert or by update. */
  ghost predicate Grants(s: Sys, e: Event, id: WorkerId) {
    e.Does? && e.id == id &&
    ((e.act.DoInsertLease? && e.act.inserted && s.db.lease.None?) ||
     ((e.act.DoRenew? || e.act.DoRenewOnAcquire?) && Owns(s.db, id)))
  }

  /** The credit rule: a write spends the worker's credit, and only a grant gives one. */
  lemma CreditStep(cfg: Config, s: Sys, e: Event, id: WorkerId)
    requires Next(cfg, s, e).Some?
    ensures var t := Next(cfg, s, e).value;
            Credit(t, id) + (if WritesCheckpoint(e, id) then 1 else 0)
              <= Credit(s, id) + (if Grants(s, e, id) then 1 else 0)
    ensures Grants(s, e, id) ==> Owns(Next(cfg, s, e).value.db, id) && !WritesCheckpoint(e, id)
  {
  }

  /**
   * A worker that has lost its row makes at most one stale checkpoint write: over any
   * stretch of any run in which it never owns the row again, it writes at most once,
   * and not at all unless it was already past its lease check when the row went.
   */
  lemma {:induction false} AtMostOneStaleWrite(cfg: Config, s: Sys, events: seq<Event>, id: WorkerId)
    requires Run(cfg, s, events).Some? && NeverOwns(cfg, s, events, id)
    ensures Writes(events, id) + Credit(Run(cfg, s, events).value, id) <= Credit(s, id) <= 1
    decreases |events|
  {
    if events != [] {
      var front, e := events[..|events| - 1], events[|events| - 1];
      AtMostOneStaleWrite(cfg, s, front, id);
      CreditStep(cfg, Run(cfg, s, front).value, e, id);
    }
  }

  /** Is the last grant to `id` more recent than its last checkpoint write? */
  ghost predicate GrantedSinceWrite(cfg: Config, s: Sys, events: seq<Event>, id: WorkerId)
    decreases |events|
  {
    events != [] &&
    var front, e := events[..|events| - 1], events[|events| - 1];
    var mid := Run(cfg, s, front);
    if mid.Some? && Grants(mid.value, e, id) then true
    else if WritesCheckpoint(e, id) then false
    else GrantedSinceWrite(cfg, s, front, id)
  }

  /**
   * Each checkpoint write follows that worker's own acquire or renew with no other
   * write by it in between, in every run from processes not yet started.
   */
  lemma {:induction false} WritesFollowGrants(cfg: Config, s: Sys, events: seq<Event>, id: WorkerId)
    requires forall i :: i in s.workers ==> s.workers[i].pc.Stopped?
    requires Run(cfg, s, events).Some? && events != [] && WritesCheckpoint(events[|events| - 1], id)
    ensures GrantedSinceWrite(cfg, s, events[..|events| - 1], id)
  {
    var front := events[..|events| - 1];
    CreditMeansGrant(cfg, s, front, id);
    CreditStep(cfg, Run(cfg, s, front).value, events[|events| - 1], id);
  }

  lemma {:induction false} CreditMeansGrant(cfg: Config, s: Sys, events: seq<Event>, id: WorkerId)
    requires forall i :: i in s.workers ==> s.workers[i].pc.Stopped?
    requires Run(cfg, s, events).Some?
    ensures Credit(Run(cfg, s, events).value, id) == 1 ==> GrantedSinceWrite(cfg, s, events, id)
    decreases |events|
  {
    if events != [] {
      var front := events[..|events| - 1];
      CreditMeansGrant(cfg, s, front, id);
      CreditStep(cfg, Run(cfg, s, front).value, events[|events| - 1], id);
    }
  }

  // ---------------------------------------------------------------- handover

  /** The event removes the lease row. */
  ghost predicate Deletes(cfg: Config, s: Sys, e: Event) {
    s.db.lease.Some? && Next(cfg, s, e).Some? && Next(cfg, s, e).value.db.lease.None?
  }

  ghost predicate NoDeletion(cfg: Config, s: Sys, events: seq<Event>)
    decreases |events|
  {
    events == [] ||
    var front := events[..|events| - 1];
    NoDeletion(cfg, s, front) &&
        (Run(cfg, s, front).Some? ==> !Deletes(cfg, Run(cfg, s, front).value, events[|events| - 1]))
  }

  /** Nobody but `id` is granted the lease by this event, and a renewal of anybody else turns it away. */
  ghost predicate ServesOnly(cfg: Config, s: Sys, e: Event, id: WorkerId) {
    e.Does? && e.id != id ==>
      !Grants(s, e, e.id) &&
      (e.act.DoRenew? && Next(cfg, s, e).Some? ==> Next(cfg, s, e).value.workers[e.id].pc.Stopped?)
  }

  /** Of all workers only `id` is granted the lease, and every renewal of another turns it away. */
  ghost predicate OnlyServes(cfg: Config, s: Sys, events: seq<Event>, id: WorkerId)
    decreases |events|
  {
    events == [] ||
    var front, e := events[..|events| - 1], events[|events| - 1];
    OnlyServes(cfg, s, front, id) && (Run(cfg, s, front).Some? ==> ServesOnly(cfg, Run(cfg, s, front).value, e, id))
  }

  lemma OwnerStays(cfg: Config, s: Sys, e: Event, id: WorkerId)
    requires Owns(s.db, id) && Next(cfg, s, e).Some? && !Deletes(cfg, s, e)
    ensures Owns(Next(cfg, s, e).value.db, id) && ServesOnly(cfg, s, e, id)
  {
    hide Insert, InsertWindow, MarkOrphaned, FinalityAt, MayFind;
  }

  /**
   * The lease changes hands only by deletion: over any stretch of any run in which the row is not
   * deleted, its owner stays the owner, nobody else is granted it, and whoever else renews stops.
   */
  lemma {:induction false} OnlyDeletionHandsOver(cfg: Config, s: Sys, events: seq<Event>, id: WorkerId)
    requires Owns(s.db, id) && Run(cfg, s, events).Some? && NoDeletion(cfg, s, events)
    ensures Owns(Run(cfg, s, events).value.db, id) && OnlyServes(cfg, s, events, id)
    decreases |events|
  {
    hide Next, Deletes, ServesOnly, Owns;
    if events != [] {
      var front, e := events[..|events| - 1], events[|events| - 1];
      OnlyDeletionHandsOver(cfg, s, front, id);
      OwnerStays(cfg, Run(cfg, s, front).value, e, id);
    }
  }
}
