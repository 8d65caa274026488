/**
 * When the canonical rows form one parent-linked chain. The loop checks parents only
 * for the tail, and only when it remembers a hash; a window, and the first block after
 * a reorg, are stored unchecked. The theorem is about runs of any workers whose loops do
 * not overlap, and says which facts about the provider, at the instants of those fetches,
 * make up for it.
 */
module IndexerChain {
  import opened Prelude
  import opened IndexerModel

  /** Consecutive blocks name each other as parents. */
  ghost predicate Linked(c: seq<Block>) {
    forall i: nat, j: nat {:trigger c[i], c[j]} :: i + 1 == j < |c| ==> c[j].parent == c[i].hash
  }

  predicate OnChain(start: nat, c: seq<Block>, h: int, x: Hash) {
    start <= h < start + |c| && c[h - start].hash == x
  }

  /** The canonical rows are exactly the blocks of `c`, one per height from `start` up. */
  ghost predicate TableIs(rows: Table, start: nat, c: seq<Block>) {
    forall h: nat, x: Hash {:trigger Canonical(rows, h, x)} ::
      (Canonical(rows, h, x) <==> OnChain(start, c, h, x)) &&
      (Canonical(rows, h, x) ==> rows[(h, x)].parent == c[h - start].parent)
  }

  /** The canonical rows are one linked chain from `start`. */
  ghost predicate OneChain(rows: Table, start: nat) {
    exists c: seq<Block> :: TableIs(rows, start, c) && Linked(c)
  }

  // ---------------------------------------------------------------- one insert

  /**
   * What a caller can check before storing `b` at `h`: either the very same row is
   * already canonical, or `h` is the next height, no orphaned row has that hash, and
   * the parent is the chain's tip.
   */
  ghost predicate Fits(rows: Table, start: nat, c: seq<Block>, h: nat, b: Block) {
    start <= h <= start + |c| &&
    if h < start + |c| then c[h - start].hash == b.hash
    else (h, b.hash) !in rows && (h > start ==> b.parent == c[|c| - 1].hash)
  }

  function Extended(start: nat, c: seq<Block>, h: nat, b: Block): seq<Block> {
    if h == start + |c| then c + [b] else c
  }

  lemma InsertFits(rows: Table, start: nat, c: seq<Block>, h: nat, b: Block, f: Finality)
    requires TableIs(rows, start, c) && Linked(c) && Fits(rows, start, c, h, b)
    ensures TableIs(Insert(rows, h, b, f), start, Extended(start, c, h, b))
    ensures Linked(Extended(start, c, h, b))
  {
    var rows', c' := Insert(rows, h, b, f), Extended(start, c, h, b);
    if h < start + |c| {
      assert Canonical(rows, h, c[h - start].hash);
    } else {
      forall k: nat, x: Hash
        ensures Canonical(rows', k, x) <==> OnChain(start, c', k, x)
        ensures Canonical(rows', k, x) ==> rows'[(k, x)].parent == c'[k - start].parent
      {
        assert Canonical(rows, k, x) <==> OnChain(start, c, k, x);
      }
    }
  }

  /**
   * Exactly when storing a block keeps the canonical rows one linked chain that reaches
   * its height: an insert that conflicts with an orphaned row, forks a stored height or
   * does not name the tip as its parent always breaks it.
   */
  lemma InsertKeepsChainIff(rows: Table, start: nat, c: seq<Block>, h: nat, b: Block, f: Finality)
    requires TableIs(rows, start, c) && Linked(c)
    ensures OneChain(Insert(rows, h, b, f), start) && Canonical(Insert(rows, h, b, f), h, b.hash)
            <==> Fits(rows, start, c, h, b)
  {
    var rows' := Insert(rows, h, b, f);
    if Fits(rows, start, c, h, b) {
      InsertFits(rows, start, c, h, b, f);
      assert OnChain(start, Extended(start, c, h, b), h, b.hash);
    }
    if OneChain(rows', start) && Canonical(rows', h, b.hash) {
      var d: seq<Block> :| TableIs(rows', start, d) && Linked(d);
      if (h, b.hash) in rows {
        assert Canonical(rows, h, b.hash);
      } else {
        FreshRowIsTip(rows, start, c, h, b, f, d);
      }
    }
  }

  /** A fresh canonical row that leaves a chain is that chain's new tip. */
  lemma FreshRowIsTip(rows: Table, start: nat, c: seq<Block>, h: nat, b: Block, f: Finality, d: seq<Block>)
    requires TableIs(rows, start, c) && (h, b.hash) !in rows
    requires TableIs(Insert(rows, h, b, f), start, d) && Linked(d)
    ensures h == start + |c| && (h > start ==> b.parent == c[|c| - 1].hash)
  {
    var rows' := Insert(rows, h, b, f);
    assert Canonical(rows', h, b.hash);
    if start <= h < start + |c| {
      var x := c[h - start].hash;
      assert Canonical(rows, h, x) && Canonical(rows', h, x);
      assert false;
    }
    if h > start + |c| {
      var x := d[|c|].hash;
      assert Canonical(rows', start + |c|, x);
      assert Canonical(rows, start + |c|, x);
      assert false;
    }
    if h > start {
      var x := c[|c| - 1].hash;
      assert Canonical(rows, h - 1, x) && Canonical(rows', h - 1, x);
      assert d[h - start].parent == d[h - 1 - start].hash;
    }
  }

  // ---------------------------------------------------------------- a window

  /** The window continues the chain from `h`, repeating whatever is stored already. */
  ghost predicate WindowFits(rows: Table, start: nat, c: seq<Block>, h: nat, bs: seq<Block>) {
    start <= h <= start + |c| &&
    Linked(c[..h - start] + bs) &&
    (forall i: nat {:trigger bs[i]} :: i < |bs| ==>
      if h + i < start + |c| then bs[i] == c[h + i - start] else (h + i, bs[i].hash) !in rows)
  }

  function Overlay(start: nat, c: seq<Block>, h: nat, bs: seq<Block>): seq<Block>
    requires start <= h <= start + |c|
  {
    if h + |bs| <= start + |c| then c else c[..h - start] + bs
  }

  lemma {:induction false} InsertWindowFits(rows: Table, start: nat, c: seq<Block>, h: nat, bs: seq<Block>)
    requires TableIs(rows, start, c) && Linked(c) && WindowFits(rows, start, c, h, bs)
    ensures TableIs(InsertWindow(rows, h, bs), start, Overlay(start, c, h, bs))
    ensures Linked(Overlay(start, c, h, bs))
    decreases |bs|
  {
    if bs != [] {
      var b, rest := bs[0], bs[1..];
      var rows', c' := Insert(rows, h, b, Finalized), Extended(start, c, h, b);
      var line := c[..h - start] + bs;
      assert Fits(rows, start, c, h, b) by {
        if h == start + |c| && h > start {
          assert line[h - start] == b && line[h - start - 1] == c[|c| - 1];
        }
      }
      InsertFits(rows, start, c, h, b, Finalized);
      assert c'[..h + 1 - start] + rest == line;
      WindowRest(rows, start, c, h, bs);
      InsertWindowFits(rows', start, c', h + 1, rest);
      assert Overlay(start, c', h + 1, rest) == Overlay(start, c, h, bs);
    }
  }

  lemma WindowRest(rows: Table, start: nat, c: seq<Block>, h: nat, bs: seq<Block>)
    requires WindowFits(rows, start, c, h, bs) && bs != []
    requires Fits(rows, start, c, h, bs[0])
    ensures WindowFits(Insert(rows, h, bs[0], Finalized), start, Extended(start, c, h, bs[0]), h + 1, bs[1..])
  {
    var rows', c', rest := Insert(rows, h, bs[0], Finalized), Extended(start, c, h, bs[0]), bs[1..];
    assert c'[..h + 1 - start] + rest == c[..h - start] + bs;
    forall i: nat | i < |rest|
      ensures if h + 1 + i < start + |c'| then rest[i] == c'[h + 1 + i - start] else (h + 1 + i, rest[i].hash) !in rows'
    {
      assert rest[i] == bs[i + 1];
    }
  }

  /** A window write only adds rows. */
  lemma {:induction false} InsertWindowAdds(rows: Table, h: nat, bs: seq<Block>)
    ensures Adds(rows, InsertWindow(rows, h, bs))
    decreases |bs|
  {
    if bs != [] {
      InsertWindowAdds(Insert(rows, h, bs[0], Finalized), h + 1, bs[1..]);
    }
  }

  ghost predicate Adds(rows: Table, rows': Table) {
    forall k :: k in rows ==> k in rows' && rows'[k] == rows[k]
  }

  // ---------------------------------------------------------------- marking a range

  /** Orphaning a range that starts inside the chain and reaches past its tip cuts the chain. */
  lemma MarkCutsChain(rows: Table, start: nat, c: seq<Block>, from: nat, to: int)
    requires TableIs(rows, start, c) && Linked(c)
    requires start <= from <= start + |c| <= to + 1
    ensures TableIs(MarkOrphaned(rows, from, to), start, c[..from - start]) && Linked(c[..from - start])
  {
    var rows', c' := MarkOrphaned(rows, from, to), c[..from - start];
    forall h: nat, x: Hash
      ensures Canonical(rows', h, x) <==> OnChain(start, c', h, x)
      ensures Canonical(rows', h, x) ==> rows'[(h, x)].parent == c'[h - start].parent
    {
      assert Canonical(rows, h, x) <==> OnChain(start, c, h, x);
    }
  }

  // ---------------------------------------------------------------- positions

  /** A remembered block that a reorg has orphaned: the un-rewound checkpoint of a recovery. */
  ghost predicate Stale(rows: Table, start: nat, next: nat, last: Option<Hash>) {
    next > start && last.Some? && OrphanedRow(rows, next - 1, last.value)
  }

  /** A position (cursor and remembered hash) lies on the chain, or is stale. */
  ghost predicate Position(rows: Table, start: nat, c: seq<Block>, next: nat, last: Option<Hash>) {
    (start <= next <= start + |c| && (last.Some? ==> next > start && OnChain(start, c, next - 1, last.value))) ||
    Stale(rows, start, next, last)
  }

  /** Positions survive a longer table. */
  lemma ExtendPosition(rows: Table, rows': Table, start: nat, c: seq<Block>, d: seq<Block>, next: nat,
                       last: Option<Hash>)
    requires Position(rows, start, c, next, last) && c <= d && Adds(rows, rows')
    ensures Position(rows', start, d, next, last)
  {
  }

  /** Positions survive a cut: what one remembers is kept, or orphaned with the rest. */
  lemma CutPosition(rows: Table, start: nat, c: seq<Block>, from: nat, to: int, next: nat, last: Option<Hash>)
    requires TableIs(rows, start, c) && Position(rows, start, c, next, last)
    requires start < from <= start + |c| <= to + 1
    requires last.None? ==> next <= from
    ensures Position(MarkOrphaned(rows, from, to), start, c[..from - start], next, last)
  {
    if from < next <= start + |c| && !Stale(rows, start, next, last) {
      assert Canonical(rows, next - 1, last.value);
    }
  }

  // ---------------------------------------------------------------- the invariant

  ghost predicate CheckpointOk(start: nat, db: Db, c: seq<Block>) {
    db.checkpoint.Some? ==>
      Position(db.rows, start, c, db.checkpoint.value.next, db.checkpoint.value.last) &&
      (db.checkpoint.value.last.None? ==> db.checkpoint.value.next == start)
  }

  ghost predicate PcOk(start: nat, rows: Table, c: seq<Block>, w: Worker) {
    match w.pc
    case Drain(_, got) => got != [] ==> WindowFits(rows, start, c, w.cursor, got)
    case PersistWindow(bs) => bs != [] && WindowFits(rows, start, c, w.cursor, bs)
    case RecordWindow(bs) => bs != [] && OnChain(start, c, w.cursor + |bs| - 1, bs[|bs| - 1].hash)
    case AdoptWindow(bs) => bs != [] && OnChain(start, c, w.cursor + |bs| - 1, bs[|bs| - 1].hash)
    case Persist(b) => Fits(rows, start, c, w.cursor, b)
    case Record(b) => OnChain(start, c, w.cursor, b.hash)
    case Publish(b) => OnChain(start, c, w.cursor, b.hash)
    case Search(_, at) => w.last.Some? && at < w.cursor && (start + |c| <= w.cursor || at == w.cursor - 1)
    case Compare(_, at, stored) =>
      w.last.Some? && at < w.cursor && (start + |c| <= w.cursor || at == w.cursor - 1) && OnChain(start, c, at, stored)
    case MarkBlocks(a) =>
      w.last.Some? && start <= a < start + |c| && a < w.cursor && (start + |c| <= w.cursor || a == w.cursor - 1)
    case FinishReorg(a) => start <= a < start + |c|
    case _ => true
  }

  ghost predicate WorkerOk(start: nat, rows: Table, c: seq<Block>, w: Worker) {
    InLoop(w.pc) ==> Position(rows, start, c, w.cursor, w.last) && PcOk(start, rows, c, w)
  }

  ghost predicate Inv(start: nat, db: Db, w: Worker, c: seq<Block>) {
    TableIs(db.rows, start, c) && Linked(c) && CheckpointOk(start, db, c) && WorkerOk(start, db.rows, c, w)
  }

  // ---------------------------------------------------------------- the provider

  /** Canonical rows at or above the cursor, stored but not yet passed, are still served. */
  ghost predicate AheadServed(rows: Table, chain: Chain, cursor: nat) {
    forall h: nat, x: Hash {:trigger Canonical(rows, h, x)} :: h >= cursor && Canonical(rows, h, x) ==>
      h < |chain| && chain[h] == Block(x, rows[(h, x)].parent)
  }

  ghost predicate NoOrphanServed(rows: Table, chain: Chain) {
    forall h: nat, x: Hash {:trigger OrphanedRow(rows, h, x)} ::
      OrphanedRow(rows, h, x) && h < |chain| ==> chain[h].hash != x
  }

  /** A fetch that nobody checks against a parent. */
  predicate Unchecked(w: Worker) {
    (w.pc.Drain? && w.pc.got == []) || (w.pc.Tail? && w.last.None?)
  }

  /**
   * What a fetch needs of the provider at the instant it happens: a linked chain in
   * which no orphaned block has come back and which holds still for the blocks being
   * indexed again; and below an unchecked fetch, the very block the table (or the
   * window so far) has there.
   */
  ghost predicate Calm(start: nat, rows: Table, chain: Chain, w: Worker) {
    Linked(chain) && NoOrphanServed(rows, chain) && AheadServed(rows, chain, w.cursor) &&
    (w.pc.Drain? && w.pc.got != [] ==>
      var h := w.cursor + |w.pc.got| - 1;
      h < |chain| && chain[h] == w.pc.got[|w.pc.got| - 1]) &&
    (w.cursor > start && Unchecked(w) ==>
      w.cursor <= |chain| && Canonical(rows, w.cursor - 1, chain[w.cursor - 1].hash))
  }

  /**
   * The environment of the theorem: fetches are calm; a search for the common ancestor
   * finds one; and while blocks at or above the cursor wait to be indexed again, a
   * search is answered by a provider that still serves them.
   */
  ghost predicate Benign(start: nat, db: Db, chain: Chain, w: Worker, a: Act) {
    ((a.DoFetch? && w.pc.Tail?) || (a.DoFetchNext? && w.pc.Drain?) ==> Calm(start, db.rows, chain, w)) &&
    (a.DoFind? && w.pc.Search? ==> w.pc.at > 0) &&
    (a.DoCompare? && w.pc.Compare? ==>
      HasCanonical(db.rows, w.cursor) ==> a.answered && Linked(chain) && AheadServed(db.rows, chain, w.cursor))
  }

  // ---------------------------------------------------------------- one step

  lemma FetchKeeps(cfg: Config, db: Db, chain: Chain, id: WorkerId, w: Worker, answered: bool, c: seq<Block>)
    requires Inv(cfg.start, db, w, c) && w.pc.Tail? && Calm(cfg.start, db.rows, chain, w)
    ensures var o := Step(cfg, db, chain, id, w, DoFetch(answered));
            o.Some? && Inv(cfg.start, o.value.db, o.value.w, c)
  {
    var start, rows, n := cfg.start, db.rows, w.cursor;
    if answered && n < |chain| {
      var b := chain[n];
      if n > start {
        assert b.parent == chain[n - 1].hash;
      }
      if Stale(rows, start, n, w.last) {
        assert b.parent != w.last.value;      // the remembered block is no longer served
      } else if n < start + |c| {
        var x := c[n - start].hash;
        assert Canonical(rows, n, x);         // stored already, and still served
        if n > start {
          assert c[n - start].parent == c[n - 1 - start].hash;
        }
      } else {
        NotStoredYet(rows, start, c, chain, n);
        if n > start && w.last.None? {
          assert OnChain(start, c, n - 1, chain[n - 1].hash);
        }
      }
    }
  }

  lemma FetchNextKeeps(cfg: Config, db: Db, chain: Chain, id: WorkerId, w: Worker, answered: bool, c: seq<Block>)
    requires Inv(cfg.start, db, w, c) && w.pc.Drain? && Calm(cfg.start, db.rows, chain, w)
    ensures var o := Step(cfg, db, chain, id, w, DoFetchNext(answered));
            o.Some? && Inv(cfg.start, o.value.db, o.value.w, c)
  {
    hide TableIs, Linked, Position, WindowFits, AheadServed, NoOrphanServed;
    var got := w.pc.got;
    if got == [] {
      NothingFetched(cfg.start, db, chain, w, c);
    }
    if w.cursor + |got| <= w.pc.end && answered && w.cursor + |got| < |chain| {
      WindowGrows(db.rows, cfg.start, c, chain, w.cursor, got);
    }
  }

  /** Before the first fetch of a window the block below the cursor is the table's, and still served. */
  lemma NothingFetched(start: nat, db: Db, chain: Chain, w: Worker, c: seq<Block>)
    requires Inv(start, db, w, c) && w.pc.Drain? && w.pc.got == [] && Calm(start, db.rows, chain, w)
    ensures WindowFits(db.rows, start, c, w.cursor, [])
    ensures w.cursor > start ==> w.cursor - 1 - start < |c| && w.cursor <= |chain| &&
                                 c[w.cursor - 1 - start].hash == chain[w.cursor - 1].hash
  {
    var n := w.cursor;
    if n > start {
      assert OnChain(start, c, n - 1, chain[n - 1].hash);
    }
    assert c[..n - start] + [] == c[..n - start];
  }

  /** The served block above a window that fits makes a longer one that fits. */
  lemma WindowGrows(rows: Table, start: nat, c: seq<Block>, chain: Chain, n: nat, got: seq<Block>)
    requires TableIs(rows, start, c) && WindowFits(rows, start, c, n, got)
    requires n + |got| < |chain| && Linked(chain) && NoOrphanServed(rows, chain) && AheadServed(rows, chain, n)
    requires got != [] ==> chain[n + |got| - 1] == got[|got| - 1]
    requires got == [] && n > start ==> n - 1 - start < |c| && c[n - 1 - start].hash == chain[n - 1].hash
    ensures WindowFits(rows, start, c, n, got + [chain[n + |got|]])
  {
    var h, b, line := n + |got|, chain[n + |got|], c[..n - start] + got;
    if h > start {
      assert b.parent == chain[h - 1].hash;
      assert line[|line| - 1].hash == b.parent;
    }
    assert c[..n - start] + (got + [b]) == line + [b];
    if h < start + |c| {
      assert Canonical(rows, h, c[h - start].hash);
    } else {
      NotStoredYet(rows, start, c, chain, h);
    }
  }

  /** A served block at or above the tip has no row: not a canonical one, nor an orphaned one. */
  lemma NotStoredYet(rows: Table, start: nat, c: seq<Block>, chain: Chain, h: nat)
    requires TableIs(rows, start, c) && NoOrphanServed(rows, chain) && start + |c| <= h < |chain|
    ensures (h, chain[h].hash) !in rows
  {
    assert !Canonical(rows, h, chain[h].hash) && !OrphanedRow(rows, h, chain[h].hash);
  }

  lemma FindKeeps(cfg: Config, db: Db, chain: Chain, id: WorkerId, w: Worker, a: Act, c: seq<Block>)
    requires Inv(cfg.start, db, w, c) && w.pc.Search? && a.DoFind? && Benign(cfg.start, db, chain, w, a)
    requires Step(cfg, db, chain, id, w, a).Some?
    ensures var o := Step(cfg, db, chain, id, w, a).value; Inv(cfg.start, o.db, o.w, c)
  {
    var start, n, at := cfg.start, w.cursor, w.pc.at;
    if n < start + |c| {
      assert Canonical(db.rows, n - 1, c[n - 1 - start].hash);
    }
    if a.stored.Some? {
      assert OnChain(start, c, at, a.stored.value);
    }
  }

  lemma CompareKeeps(cfg: Config, db: Db, chain: Chain, id: WorkerId, w: Worker, a: Act, c: seq<Block>)
    requires Inv(cfg.start, db, w, c) && w.pc.Compare? && a.DoCompare? && Benign(cfg.start, db, chain, w, a)
    requires Step(cfg, db, chain, id, w, a).Some?
    ensures var o := Step(cfg, db, chain, id, w, a).value; Inv(cfg.start, o.db, o.w, c)
  {
    var start, rows, n := cfg.start, db.rows, w.cursor;
    if n < start + |c| {
      // a block waits above the cursor: it is served, so the row below is the ancestor
      var x, y := c[n - start].hash, c[n - 1 - start].hash;
      assert Canonical(rows, n, x) && Canonical(rows, n - 1, y);
      assert chain[n].parent == chain[n - 1].hash;
      assert c[n - start].parent == y;
    }
  }

  lemma MarkNothing(rows: Table, from: nat, to: int)
    requires to < from
    ensures MarkOrphaned(rows, from, to) == rows
  {
  }

  lemma MarkKeeps(cfg: Config, db: Db, chain: Chain, id: WorkerId, w: Worker, c: seq<Block>)
    requires Inv(cfg.start, db, w, c) && w.pc.MarkBlocks?
    ensures var o := Step(cfg, db, chain, id, w, DoMarkBlocks);
            o.Some? && exists d :: Inv(cfg.start, o.value.db, o.value.w, d)
  {
    hide Position, TableIs, Linked, MarkOrphaned;
    var start, rows, a := cfg.start, db.rows, w.pc.ancestor;
    var o := Step(cfg, db, chain, id, w, DoMarkBlocks).value;
    if start + |c| <= w.cursor {
      var d := c[..a + 1 - start];
      MarkCutsChain(rows, start, c, a + 1, w.cursor - 1);
      CutPosition(rows, start, c, a + 1, w.cursor - 1, w.cursor, w.last);
      if db.checkpoint.Some? {
        CutPosition(rows, start, c, a + 1, w.cursor - 1, db.checkpoint.value.next, db.checkpoint.value.last);
      }
      assert Inv(start, o.db, o.w, d);
    } else {
      MarkNothing(rows, a + 1, w.cursor - 1);
      assert Inv(start, o.db, o.w, c);
    }
  }

  lemma PersistKeeps(cfg: Config, db: Db, chain: Chain, id: WorkerId, w: Worker, c: seq<Block>)
    requires Inv(cfg.start, db, w, c) && w.pc.Persist?
    ensures var o := Step(cfg, db, chain, id, w, DoPersist);
            o.Some? && exists d :: Inv(cfg.start, o.value.db, o.value.w, d)
  {
    var start, b := cfg.start, w.pc.block;
    var f := FinalityAt(cfg, Latest(chain), w.cursor);
    InsertFits(db.rows, start, c, w.cursor, b, f);
    var rows', d := Insert(db.rows, w.cursor, b, f), Extended(start, c, w.cursor, b);
    ExtendPosition(db.rows, rows', start, c, d, w.cursor, w.last);
    if db.checkpoint.Some? {
      ExtendPosition(db.rows, rows', start, c, d, db.checkpoint.value.next, db.checkpoint.value.last);
    }
    var o := Step(cfg, db, chain, id, w, DoPersist).value;
    assert Inv(start, o.db, o.w, d);
  }

  lemma OverlayExtends(rows: Table, start: nat, c: seq<Block>, h: nat, bs: seq<Block>)
    requires WindowFits(rows, start, c, h, bs) && bs != []
    ensures start <= h <= start + |c| && c <= Overlay(start, c, h, bs)
    ensures OnChain(start, Overlay(start, c, h, bs), h + |bs| - 1, bs[|bs| - 1].hash)
  {
    var d := Overlay(start, c, h, bs);
    forall i: nat | i < |c| && h + |bs| > start + |c|
      ensures c[i] == d[i]
    {
      if i >= h - start {
        assert bs[i - (h - start)] == c[i];
      }
    }
    assert bs[|bs| - 1] == d[h + |bs| - 1 - start];
  }

  lemma PersistWindowKeeps(cfg: Config, db: Db, chain: Chain, id: WorkerId, w: Worker, c: seq<Block>)
    requires Inv(cfg.start, db, w, c) && w.pc.PersistWindow?
    ensures var o := Step(cfg, db, chain, id, w, DoPersistWindow);
            o.Some? && exists d :: Inv(cfg.start, o.value.db, o.value.w, d)
  {
    hide Position, TableIs, Linked, InsertWindow, WindowFits, Overlay, Adds;
    var start, bs := cfg.start, w.pc.blocks;
    OverlayExtends(db.rows, start, c, w.cursor, bs);
    InsertWindowFits(db.rows, start, c, w.cursor, bs);
    InsertWindowAdds(db.rows, w.cursor, bs);
    var rows', d := InsertWindow(db.rows, w.cursor, bs), Overlay(start, c, w.cursor, bs);
    ExtendPosition(db.rows, rows', start, c, d, w.cursor, w.last);
    if db.checkpoint.Some? {
      ExtendPosition(db.rows, rows', start, c, d, db.checkpoint.value.next, db.checkpoint.value.last);
    }
    var o := Step(cfg, db, chain, id, w, DoPersistWindow).value;
    assert Inv(start, o.db, o.w, d);
  }

  /** Taking and leaving the lease, and reading the checkpoint. */
  predicate OutsideLoop(a: Act) {
    a.Crash? || a.Release? || a.Stop? || a.DoInsertLease? || a.DoFindOwnLease? || a.DoRenewOnAcquire? ||
    a.DoFindOtherLease? || a.DoDeleteLease? || a.DoReadCheckpoint? || a.DoCreateCheckpoint?
  }

  /** Loop actions that only move the worker or write the checkpoint. */
  predicate MovesOnly(a: Act) {
    a.Fail? || a.DoRenew? || a.DoReadHead? || a.DoRecordWindow? || a.DoAdoptWindow? ||
    a.DoFinishReorg? || a.DoRecord? || a.DoPublish?
  }

  lemma OutsideLoopKeeps(cfg: Config, db: Db, chain: Chain, id: WorkerId, w: Worker, a: Act, c: seq<Block>)
    requires Inv(cfg.start, db, w, c) && OutsideLoop(a)
    requires Step(cfg, db, chain, id, w, a).Some?
    ensures Inv(cfg.start, Step(cfg, db, chain, id, w, a).value.db, Step(cfg, db, chain, id, w, a).value.w, c)
  {
    hide TableIs, Linked, Insert, InsertWindow, MarkOrphaned, FinalityAt, MayFind, Fits, WindowFits;
  }

  lemma MovesOnlyKeeps(cfg: Config, db: Db, chain: Chain, id: WorkerId, w: Worker, a: Act, c: seq<Block>)
    requires Inv(cfg.start, db, w, c) && MovesOnly(a)
    requires Step(cfg, db, chain, id, w, a).Some?
    ensures Inv(cfg.start, Step(cfg, db, chain, id, w, a).value.db, Step(cfg, db, chain, id, w, a).value.w, c)
  {
    hide TableIs, Linked, Insert, InsertWindow, MarkOrphaned, FinalityAt, MayFind, Fits, WindowFits;
  }

  lemma ActsAt(cfg: Config, db: Db, chain: Chain, id: WorkerId, w: Worker, a: Act)
    requires Step(cfg, db, chain, id, w, a).Some?
    ensures (a.DoFetch? ==> w.pc.Tail?) && (a.DoFetchNext? ==> w.pc.Drain?) && (a.DoFind? ==> w.pc.Search?) &&
            (a.DoCompare? ==> w.pc.Compare?)
    ensures (a.DoMarkBlocks? ==> w.pc.MarkBlocks?) && (a.DoPersist? ==> w.pc.Persist?)
    ensures a.DoPersistWindow? ==> w.pc.PersistWindow?
  {
  }

  /** Every action of the loop, in a benign environment, leaves rows, checkpoint and worker in order. */
  lemma StepKeeps(cfg: Config, db: Db, chain: Chain, id: WorkerId, w: Worker, a: Act, c: seq<Block>, o: Outcome)
    requires Inv(cfg.start, db, w, c) && Benign(cfg.start, db, chain, w, a)
    requires Step(cfg, db, chain, id, w, a) == Some(o)
    ensures exists d :: Inv(cfg.start, o.db, o.w, d)
  {
    hide Inv, Calm, Step;
    ActsAt(cfg, db, chain, id, w, a);
    match a
    case DoFetch(answered) => FetchKeeps(cfg, db, chain, id, w, answered, c);
    case DoFetchNext(answered) => FetchNextKeeps(cfg, db, chain, id, w, answered, c);
    case DoFind(_) => FindKeeps(cfg, db, chain, id, w, a, c);
    case DoCompare(_) => CompareKeeps(cfg, db, chain, id, w, a, c);
    case DoMarkBlocks => MarkKeeps(cfg, db, chain, id, w, c);
    case DoPersist => PersistKeeps(cfg, db, chain, id, w, c);
    case DoPersistWindow => PersistWindowKeeps(cfg, db, chain, id, w, c);
    case _ => OthersKeep(cfg, db, chain, id, w, a, c, o);
  }

  lemma OthersKeep(cfg: Config, db: Db, chain: Chain, id: WorkerId, w: Worker, a: Act, c: seq<Block>, o: Outcome)
    requires Inv(cfg.start, db, w, c) && (OutsideLoop(a) || MovesOnly(a))
    requires Step(cfg, db, chain, id, w, a) == Some(o)
    ensures Inv(cfg.start, o.db, o.w, c)
  {
    hide Inv, Step;
    if OutsideLoop(a) {
      OutsideLoopKeeps(cfg, db, chain, id, w, a, c);
    } else {
      MovesOnlyKeeps(cfg, db, chain, id, w, a, c);
    }
  }

  // ---------------------------------------------------------------- whole runs

  /** Loops do not overlap, though any number of workers may be waiting for the lease, failing or taking over. */
  ghost predicate OneLoop(s: Sys) {
    forall i, j :: i in s.workers && j in s.workers && InLoop(s.workers[i].pc) && InLoop(s.workers[j].pc) ==> i == j
  }

  /** In no state of the run are two workers in the loop. */
  ghost predicate NeverTwoLoops(cfg: Config, s: Sys, events: seq<Event>)
    decreases |events|
  {
    (Run(cfg, s, events).Some? ==> OneLoop(Run(cfg, s, events).value)) &&
    (events == [] || NeverTwoLoops(cfg, s, events[..|events| - 1]))
  }

  /** Every action of the run finds the environment benign. */
  ghost predicate BenignAnswers(cfg: Config, s: Sys, events: seq<Event>)
    decreases |events|
  {
    events == [] ||
    var front, e := events[..|events| - 1], events[|events| - 1];
    BenignAnswers(cfg, s, front) &&
    var mid := Run(cfg, s, front);
    (mid.Some? && e.Does? && e.id in mid.value.workers ==>
      Benign(cfg.start, mid.value.db, mid.value.chain, mid.value.workers[e.id], e.act))
  }

  ghost predicate BenignRun(cfg: Config, s: Sys, events: seq<Event>) {
    BenignAnswers(cfg, s, events) && NeverTwoLoops(cfg, s, events)
  }

  ghost predicate WorkersOk(start: nat, s: Sys, c: seq<Block>) {
    forall id :: id in s.workers ==> Inv(start, s.db, s.workers[id], c)
  }

  /** The chain behind the rows, with every worker's position on it. */
  ghost predicate SysInv(start: nat, s: Sys) {
    exists c: seq<Block> ::
      TableIs(s.db.rows, start, c) && Linked(c) && CheckpointOk(start, s.db, c) && WorkersOk(start, s, c)
  }

  /** Before and after its step at most one worker is in the loop, so the others only watch. */
  lemma StepKeepsOthers(cfg: Config, s: Sys, id: WorkerId, a: Act, c: seq<Block>)
    requires OneLoop(s) && id in s.workers && WorkersOk(cfg.start, s, c)
    requires TableIs(s.db.rows, cfg.start, c) && Linked(c) && CheckpointOk(cfg.start, s.db, c)
    requires Benign(cfg.start, s.db, s.chain, s.workers[id], a)
    requires Next(cfg, s, Does(id, a)).Some? && OneLoop(Next(cfg, s, Does(id, a)).value)
    ensures SysInv(cfg.start, Next(cfg, s, Does(id, a)).value)
  {
    hide TableIs, Linked, CheckpointOk, Position, PcOk, Benign, Step;
    var start, w, t := cfg.start, s.workers[id], Next(cfg, s, Does(id, a)).value;
    assert Inv(start, s.db, w, c);
    var d := c;
    if InLoop(w.pc) {
      StepKeeps(cfg, s.db, s.chain, id, w, a, c, Step(cfg, s.db, s.chain, id, w, a).value);
      d :| Inv(start, t.db, t.workers[id], d);
    } else {
      StoppedActsOutside(cfg, s.db, s.chain, id, w, a);
      OutsideLoopKeeps(cfg, s.db, s.chain, id, w, a, c);
    }
    forall j | j in t.workers
      ensures Inv(start, t.db, t.workers[j], d)
    {
      if j != id && InLoop(t.workers[j].pc) {
        assert j in s.workers && Inv(start, s.db, s.workers[j], c);
      }
    }
    assert WorkersOk(start, t, d);
  }

  /** A worker that is not in the loop touches neither the rows nor anything but lease and checkpoint. */
  lemma StoppedActsOutside(cfg: Config, db: Db, chain: Chain, id: WorkerId, w: Worker, a: Act)
    requires !InLoop(w.pc) && Step(cfg, db, chain, id, w, a).Some?
    ensures OutsideLoop(a) && Step(cfg, db, chain, id, w, a).value.db.rows == db.rows
  {
  }

  lemma {:induction false} RunKeepsInv(cfg: Config, s: Sys, events: seq<Event>)
    requires Initial(s) && Run(cfg, s, events).Some? && BenignRun(cfg, s, events)
    ensures SysInv(cfg.start, Run(cfg, s, events).value)
    decreases |events|
  {
    if events == [] {
      assert TableIs(s.db.rows, cfg.start, []) && WorkersOk(cfg.start, s, []);
    } else {
      var front, e := events[..|events| - 1], events[|events| - 1];
      RunKeepsInv(cfg, s, front);
      var mid, t := Run(cfg, s, front).value, Run(cfg, s, events).value;
      var c: seq<Block> :|
        TableIs(mid.db.rows, cfg.start, c) && Linked(c) && CheckpointOk(cfg.start, mid.db, c) &&
            WorkersOk(cfg.start, mid, c);
      if e.Does? {
        StepKeepsOthers(cfg, mid, e.id, e.act, c);
      } else {
        assert WorkersOk(cfg.start, t, c);
      }
    }
  }

  /**
   * Chain safety, over every benign run, with forks, errors, crashes and handovers at any point:
   * the canonical rows are always one parent-linked chain from `start`, and whenever a worker in
   * the loop holds a position that is not stale, that chain has a row for every height below
   * its cursor and the remembered hash is the one just below it.
   */
  lemma ChainSafety(cfg: Config, s: Sys, events: seq<Event>)
    requires Initial(s) && Run(cfg, s, events).Some? && BenignRun(cfg, s, events)
    ensures var t := Run(cfg, s, events).value;
            OneChain(t.db.rows, cfg.start) &&
            forall id :: id in t.workers ==>
              var w := t.workers[id];
              InLoop(w.pc) && !Stale(t.db.rows, cfg.start, w.cursor, w.last) ==>
                (forall h: nat :: cfg.start <= h < w.cursor ==> HasCanonical(t.db.rows, h)) &&
                (w.last.Some? ==> w.cursor > 0 && Canonical(t.db.rows, w.cursor - 1, w.last.value))
  {
    RunKeepsInv(cfg, s, events);
    var t := Run(cfg, s, events).value;
    var c: seq<Block> :|
      TableIs(t.db.rows, cfg.start, c) && Linked(c) && CheckpointOk(cfg.start, t.db, c) && WorkersOk(cfg.start, t, c);
    forall id | id in t.workers && InLoop(t.workers[id].pc) &&
           !Stale(t.db.rows, cfg.start, t.workers[id].cursor, t.workers[id].last)
      ensures forall h: nat :: cfg.start <= h < t.workers[id].cursor ==> HasCanonical(t.db.rows, h)
      ensures t.workers[id].last.Some? ==>
                t.workers[id].cursor > 0 && Canonical(t.db.rows, t.workers[id].cursor - 1, t.workers[id].last.value)
    {
      PositionMeans(cfg.start, t.db.rows, t.workers[id], c);
    }
  }

  lemma PositionMeans(start: nat, rows: Table, w: Worker, c: seq<Block>)
    requires TableIs(rows, start, c) && WorkerOk(start, rows, c, w)
    requires InLoop(w.pc) && !Stale(rows, start, w.cursor, w.last)
    ensures forall h: nat :: start <= h < w.cursor ==> HasCanonical(rows, h)
    ensures w.last.Some? ==> w.cursor > 0 && Canonical(rows, w.cursor - 1, w.last.value)
  {
    forall h: nat | start <= h < w.cursor ensures HasCanonical(rows, h) {
      assert Canonical(rows, h, c[h - start].hash);
    }
    if w.last.Some? {
      assert Canonical(rows, w.cursor - 1, w.last.value);
    }
  }
}
