/**
 * Exactly when the writes of the indexer keep the canonical rows one parent-linked chain: for each
 * kind of write a guard that looks only at the rows it is about to meet, and for whole runs of any
 * workers the statement that nothing short of those guards, and nothing more, is needed.
 */
module IndexerGuards {
  import opened Prelude
  import opened IndexerModel
  import opened IndexerChain

  // ---------------------------------------------------------------- one block

  /**
   * Before storing `b` at `h`: the very row is there and canonical; or the height is free, the row is
   * not there orphaned, and the parent is canonical just below.
   */
  ghost predicate MayStore(rows: Table, start: nat, h: nat, b: Block) {
    start <= h &&
    (Canonical(rows, h, b.hash) ||
     ((h, b.hash) !in rows && !HasCanonical(rows, h) && (h > start ==> Canonical(rows, h - 1, b.parent))))
  }

  lemma MayStoreIsFits(rows: Table, start: nat, c: seq<Block>, h: nat, b: Block)
    requires TableIs(rows, start, c)
    ensures MayStore(rows, start, h, b) <==> Fits(rows, start, c, h, b)
  {
    if start <= h < start + |c| {
      assert Canonical(rows, h, c[h - start].hash);
    }
    if start < h <= start + |c| {
      assert Canonical(rows, h - 1, c[h - 1 - start].hash);
    }
    assert Canonical(rows, h, b.hash) <==> OnChain(start, c, h, b.hash);
    if h > start + |c| {
      assert !Canonical(rows, h - 1, b.parent);
    }
  }

  /** Storing one block keeps one chain that has it exactly under its guard. */
  lemma InsertGuard(rows: Table, start: nat, h: nat, b: Block, f: Finality)
    requires OneChain(rows, start)
    ensures OneChain(Insert(rows, h, b, f), start) && Canonical(Insert(rows, h, b, f), h, b.hash)
            <==> MayStore(rows, start, h, b)
  {
    var c: seq<Block> :| TableIs(rows, start, c) && Linked(c);
    MayStoreIsFits(rows, start, c, h, b);
    InsertKeepsChainIff(rows, start, c, h, b, f);
  }

  // ---------------------------------------------------------------- a window

  /** The same guard for each block of a window, in the rows that the ones before it leave. */
  ghost predicate MayStoreWindow(rows: Table, start: nat, h: nat, bs: seq<Block>)
    decreases |bs|
  {
    bs == [] ||
    (MayStore(rows, start, h, bs[0]) && MayStoreWindow(Insert(rows, h, bs[0], Finalized), start, h + 1, bs[1..]))
  }

  ghost predicate AllCanonical(rows: Table, h: nat, bs: seq<Block>) {
    forall i: nat :: i < |bs| ==> Canonical(rows, h + i, bs[i].hash)
  }

  /** Below its first height a window changes nothing. */
  lemma {:induction false} OnlyFrom(rows: Table, h: nat, bs: seq<Block>, k: nat, x: Hash)
    requires k < h
    ensures (k, x) in InsertWindow(rows, h, bs) <==> (k, x) in rows
    ensures Canonical(InsertWindow(rows, h, bs), k, x) <==> Canonical(rows, k, x)
    decreases |bs|
  {
    if bs != [] {
      OnlyFrom(Insert(rows, h, bs[0], Finalized), h + 1, bs[1..], k, x);
    }
  }

  /** If the whole window ends up on one chain, its first block was fit to be stored. */
  lemma FirstFits(rows: Table, start: nat, h: nat, bs: seq<Block>)
    requires bs != [] && OneChain(InsertWindow(rows, h, bs), start) && AllCanonical(InsertWindow(rows, h, bs), h, bs)
    ensures MayStore(rows, start, h, bs[0])
  {
    var b, done := bs[0], InsertWindow(rows, h, bs);
    var first := Insert(rows, h, b, Finalized);
    var d: seq<Block> :| TableIs(done, start, d) && Linked(d);
    InsertWindowAdds(rows, h, bs);
    InsertWindowAdds(first, h + 1, bs[1..]);
    assert Canonical(done, h + 0, b.hash);
    assert OnChain(start, d, h, b.hash);
    if !Canonical(rows, h, b.hash) {
      assert (h, b.hash) !in rows;
      forall x: Hash
        ensures !Canonical(rows, h, x)
      {
        assert Canonical(rows, h, x) ==> Canonical(done, h, x) && OnChain(start, d, h, x);
      }
      if h > start {
        var y := d[h - 1 - start].hash;
        assert Canonical(done, h - 1, y);
        OnlyFrom(rows, h, bs, h - 1, y);
        assert done[(h, b.hash)].parent == b.parent;
      }
    }
  }

  /** Storing a window keeps one chain that has all of it exactly under its guard. */
  lemma {:induction false} WindowGuard(rows: Table, start: nat, h: nat, bs: seq<Block>)
    requires OneChain(rows, start)
    ensures OneChain(InsertWindow(rows, h, bs), start) && AllCanonical(InsertWindow(rows, h, bs), h, bs)
            <==> MayStoreWindow(rows, start, h, bs)
    decreases |bs|
  {
    hide OneChain, MayStore, Insert, Canonical;
    if bs != [] {
      var first := Insert(rows, h, bs[0], Finalized);
      InsertGuard(rows, start, h, bs[0], Finalized);
      if MayStore(rows, start, h, bs[0]) {
        WindowGuard(first, start, h + 1, bs[1..]);
        AllInTwo(first, h, bs);
      } else if OneChain(InsertWindow(rows, h, bs), start) && AllCanonical(InsertWindow(rows, h, bs), h, bs) {
        FirstFits(rows, start, h, bs);
      }
    }
  }

  lemma AllInTwo(first: Table, h: nat, bs: seq<Block>)
    requires bs != [] && Canonical(first, h, bs[0].hash)
    ensures AllCanonical(InsertWindow(first, h + 1, bs[1..]), h, bs)
            <==> AllCanonical(InsertWindow(first, h + 1, bs[1..]), h + 1, bs[1..])
  {
    var done := InsertWindow(first, h + 1, bs[1..]);
    InsertWindowAdds(first, h + 1, bs[1..]);
    if AllCanonical(done, h, bs) {
      forall i: nat | i < |bs[1..]|
        ensures Canonical(done, h + 1 + i, bs[1..][i].hash)
      {
        assert Canonical(done, h + (i + 1), bs[i + 1].hash);
      }
    }
    if AllCanonical(done, h + 1, bs[1..]) {
      forall i: nat | i < |bs|
        ensures Canonical(done, h + i, bs[i].hash)
      {
        assert i > 0 ==> Canonical(done, h + 1 + (i - 1), bs[1..][i - 1].hash);
      }
    }
  }

  // ---------------------------------------------------------------- a range mark

  /** Nothing canonical is left standing above what the mark takes away. */
  ghost predicate MayMark(rows: Table, from: int, to: int) {
    forall h: nat, k: nat :: from <= h <= to < k && HasCanonical(rows, h) ==> !HasCanonical(rows, k)
  }

  lemma MarkFromStart(rows: Table, start: nat, c: seq<Block>, from: int, to: int)
    requires TableIs(rows, start, c) && from < start
    ensures MarkOrphaned(rows, from, to) == MarkOrphaned(rows, start, to)
  {
    forall k: (nat, Hash) | k in rows && k.0 < start
      ensures !rows[k].canonical
    {
      assert !OnChain(start, c, k.0, k.1);
      assert Canonical(rows, k.0, k.1) ==> OnChain(start, c, k.0, k.1);
    }
  }

  lemma MarkNone(rows: Table, from: int, to: int)
    requires forall h: nat :: from <= h <= to ==> !HasCanonical(rows, h)
    ensures MarkOrphaned(rows, from, to) == rows
  {
    forall k: (nat, Hash) | k in rows && from <= k.0 <= to
      ensures !rows[k].canonical
    {
      assert !HasCanonical(rows, k.0) && !Canonical(rows, k.0, k.1);
    }
  }

  lemma SafeMarkKeeps(rows: Table, start: nat, from: int, to: int)
    requires OneChain(rows, start) && MayMark(rows, from, to)
    ensures OneChain(MarkOrphaned(rows, from, to), start)
  {
    var c: seq<Block> :| TableIs(rows, start, c) && Linked(c);
    if h: nat :| from <= h <= to && HasCanonical(rows, h) {
      var x: Hash :| Canonical(rows, h, x);
      assert OnChain(start, c, h, x);
      if |c| > 0 && start + |c| - 1 > to {
        var k: nat := start + |c| - 1;
        assert Canonical(rows, k, c[|c| - 1].hash) && HasCanonical(rows, k);
        assert false;
      }
      if from < start {
        MarkFromStart(rows, start, c, from, to);
        MarkCutsChain(rows, start, c, start, to);
      } else {
        MarkCutsChain(rows, start, c, from, to);
      }
    } else {
      MarkNone(rows, from, to);
    }
  }

  lemma ChainAllowedMark(rows: Table, start: nat, from: int, to: int, h: nat, k: nat)
    requires OneChain(rows, start) && OneChain(MarkOrphaned(rows, from, to), start)
    requires from <= h <= to < k && HasCanonical(rows, h)
    ensures !HasCanonical(rows, k)
  {
    var marked := MarkOrphaned(rows, from, to);
    var c: seq<Block> :| TableIs(rows, start, c);
    var d: seq<Block> :| TableIs(marked, start, d);
    var x: Hash :| Canonical(rows, h, x);
    assert OnChain(start, c, h, x);
    forall y: Hash
      ensures !Canonical(rows, k, y)
    {
      assert Canonical(rows, k, y) ==> Canonical(marked, k, y) && OnChain(start, d, k, y);
      if h - start < |d| {
        assert Canonical(marked, h, d[h - start].hash);
      }
    }
  }

  /** Orphaning a range keeps one chain exactly when nothing canonical stands above what it takes away. */
  lemma MarkGuard(rows: Table, start: nat, from: int, to: int)
    requires OneChain(rows, start)
    ensures OneChain(MarkOrphaned(rows, from, to), start) <==> MayMark(rows, from, to)
  {
    if MayMark(rows, from, to) {
      SafeMarkKeeps(rows, start, from, to);
    }
    if OneChain(MarkOrphaned(rows, from, to), start) {
      forall h: nat, k: nat | from <= h <= to < k && HasCanonical(rows, h)
        ensures !HasCanonical(rows, k)
      {
        ChainAllowedMark(rows, start, from, to, h, k);
      }
    }
  }

  // ---------------------------------------------------------------- one step

  /** The guard of whatever the action is about to write. */
  ghost predicate Guarded(start: nat, db: Db, w: Worker, a: Act) {
    (a.DoPersist? && w.pc.Persist? ==> MayStore(db.rows, start, w.cursor, w.pc.block)) &&
    (a.DoPersistWindow? && w.pc.PersistWindow? ==> MayStoreWindow(db.rows, start, w.cursor, w.pc.blocks)) &&
    (a.DoMarkBlocks? && w.pc.MarkBlocks? ==> MayMark(db.rows, w.pc.ancestor + 1, w.cursor - 1))
  }

  /** What the action has just stored is canonical. */
  ghost predicate StoredCanonical(rows: Table, w: Worker, a: Act) {
    (a.DoPersist? && w.pc.Persist? ==> Canonical(rows, w.cursor, w.pc.block.hash)) &&
    (a.DoPersistWindow? && w.pc.PersistWindow? ==> AllCanonical(rows, w.cursor, w.pc.blocks))
  }

  lemma RowsAfter(cfg: Config, db: Db, chain: Chain, id: WorkerId, w: Worker, a: Act)
    requires Step(cfg, db, chain, id, w, a).Some?
    ensures var rows := Step(cfg, db, chain, id, w, a).value.db.rows;
      && (a.DoPersist? ==>
          w.pc.Persist? && rows == Insert(db.rows, w.cursor, w.pc.block, FinalityAt(cfg, Latest(chain), w.cursor)))
      && (a.DoPersistWindow? ==> w.pc.PersistWindow? && rows == InsertWindow(db.rows, w.cursor, w.pc.blocks))
      && (a.DoMarkBlocks? ==> w.pc.MarkBlocks? && rows == MarkOrphaned(db.rows, w.pc.ancestor + 1, w.cursor - 1))
      && (!a.DoPersist? && !a.DoPersistWindow? && !a.DoMarkBlocks? ==> rows == db.rows)
  {
    hide Insert, InsertWindow, MarkOrphaned, FinalityAt, MayFind;
  }

  /** Every action keeps one chain with what it stores on it exactly under its guard. */
  lemma StepGuard(cfg: Config, db: Db, chain: Chain, id: WorkerId, w: Worker, a: Act)
    requires OneChain(db.rows, cfg.start) && Step(cfg, db, chain, id, w, a).Some?
    ensures var rows := Step(cfg, db, chain, id, w, a).value.db.rows;
            OneChain(rows, cfg.start) && StoredCanonical(rows, w, a) <==> Guarded(cfg.start, db, w, a)
  {
    hide OneChain, Step, MayStore, MayStoreWindow, MayMark, Canonical, AllCanonical, Insert, InsertWindow,
         MarkOrphaned, FinalityAt;
    RowsAfter(cfg, db, chain, id, w, a);
    if a.DoPersist? {
      InsertGuard(db.rows, cfg.start, w.cursor, w.pc.block, FinalityAt(cfg, Latest(chain), w.cursor));
    } else if a.DoPersistWindow? {
      WindowGuard(db.rows, cfg.start, w.cursor, w.pc.blocks);
    } else if a.DoMarkBlocks? {
      MarkGuard(db.rows, cfg.start, w.pc.ancestor + 1, w.cursor - 1);
    }
  }

  // ---------------------------------------------------------------- whole runs

  ghost predicate GuardedRun(cfg: Config, s: Sys, events: seq<Event>)
    decreases |events|
  {
    events == [] ||
    var front, e := events[..|events| - 1], events[|events| - 1];
    GuardedRun(cfg, s, front) &&
    var mid := Run(cfg, s, front);
    (mid.Some? && e.Does? && e.id in mid.value.workers ==>
      Guarded(cfg.start, mid.value.db, mid.value.workers[e.id], e.act))
  }

  /** In every state the canonical rows are one chain, and each block is on it once it is stored. */
  ghost predicate AlwaysOneChain(cfg: Config, s: Sys, events: seq<Event>)
    decreases |events|
  {
    (Run(cfg, s, events).Some? ==> OneChain(Run(cfg, s, events).value.db.rows, cfg.start)) &&
    (events != [] ==>
      var front, e := events[..|events| - 1], events[|events| - 1];
      AlwaysOneChain(cfg, s, front) &&
      var mid, t := Run(cfg, s, front), Run(cfg, s, events);
      (mid.Some? && t.Some? && e.Does? && e.id in mid.value.workers ==>
        StoredCanonical(t.value.db.rows, mid.value.workers[e.id], e.act)))
  }

  /**
   * Chain safety, exactly, over every run of any number of workers from any chain: it holds in all
   * states if and only if each write meets its guard, a look at the rows it touches.
   */
  lemma {:induction false} AlwaysOneChainIffGuarded(cfg: Config, s: Sys, events: seq<Event>)
    requires OneChain(s.db.rows, cfg.start) && Run(cfg, s, events).Some?
    ensures AlwaysOneChain(cfg, s, events) <==> GuardedRun(cfg, s, events)
    decreases |events|
  {
    hide OneChain, Step, Guarded, StoredCanonical;
    if events != [] {
      var front, e := events[..|events| - 1], events[|events| - 1];
      AlwaysOneChainIffGuarded(cfg, s, front);
      var mid := Run(cfg, s, front).value;
      if e.Does? && OneChain(mid.db.rows, cfg.start) {
        StepGuard(cfg, mid.db, mid.chain, e.id, mid.workers[e.id], e.act);
      }
    }
  }

  lemma NothingStored(start: nat)
    ensures OneChain(map[], start)
  {
    assert TableIs(map[], start, []) && Linked([]);
  }

  // ---------------------------------------------------------------- benign runs are guarded

  lemma OverlayHasWindow(rows: Table, start: nat, c: seq<Block>, h: nat, bs: seq<Block>)
    requires TableIs(rows, start, c) && Linked(c) && WindowFits(rows, start, c, h, bs)
    ensures OneChain(InsertWindow(rows, h, bs), start) && AllCanonical(InsertWindow(rows, h, bs), h, bs)
  {
    InsertWindowFits(rows, start, c, h, bs);
    var d := Overlay(start, c, h, bs);
    forall i: nat | i < |bs|
      ensures Canonical(InsertWindow(rows, h, bs), h + i, bs[i].hash)
    {
      assert OnChain(start, d, h + i, bs[i].hash);
    }
  }

  /** A worker whose position is in order meets the guard of its next write. */
  lemma InOrderIsGuarded(start: nat, db: Db, w: Worker, a: Act, c: seq<Block>)
    requires Inv(start, db, w, c)
    requires (a.DoPersistWindow? ==> w.pc.PersistWindow?) && (a.DoMarkBlocks? ==> w.pc.MarkBlocks?)
    ensures Guarded(start, db, w, a)
  {
    if a.DoPersist? && w.pc.Persist? {
      MayStoreIsFits(db.rows, start, c, w.cursor, w.pc.block);
    } else if a.DoPersistWindow? {
      assert OneChain(db.rows, start);
      OverlayHasWindow(db.rows, start, c, w.cursor, w.pc.blocks);
      WindowGuard(db.rows, start, w.cursor, w.pc.blocks);
    } else if a.DoMarkBlocks? {
      forall h: nat, k: nat | w.pc.ancestor + 1 <= h <= w.cursor - 1 < k && HasCanonical(db.rows, h)
        ensures !HasCanonical(db.rows, k)
      {
        forall y: Hash
          ensures !Canonical(db.rows, k, y)
        {
          assert Canonical(db.rows, k, y) ==> OnChain(start, c, k, y);
        }
      }
    }
  }

  /** So the assumptions of the sufficient theorem do imply the exact condition. */
  lemma {:induction false} BenignRunIsGuarded(cfg: Config, s: Sys, events: seq<Event>)
    requires Initial(s) && Run(cfg, s, events).Some? && BenignRun(cfg, s, events)
    ensures GuardedRun(cfg, s, events)
    decreases |events|
  {
    hide Inv, Guarded, Step, TableIs, Linked, CheckpointOk, Benign;
    if events != [] {
      var front, e := events[..|events| - 1], events[|events| - 1];
      BenignRunIsGuarded(cfg, s, front);
      RunKeepsInv(cfg, s, front);
      var mid := Run(cfg, s, front).value;
      if e.Does? {
        var c: seq<Block> :|
          TableIs(mid.db.rows, cfg.start, c) && Linked(c) && CheckpointOk(cfg.start, mid.db, c) &&
              WorkersOk(cfg.start, mid, c);
        assert Inv(cfg.start, mid.db, mid.workers[e.id], c);
        RowsAfter(cfg, mid.db, mid.chain, e.id, mid.workers[e.id], e.act);
        InOrderIsGuarded(cfg.start, mid.db, mid.workers[e.id], e.act, c);
      }
    }
  }
}
