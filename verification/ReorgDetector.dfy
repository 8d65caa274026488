/**
 * Reorg recovery on its own: the search for the common ancestor, the range marks over
 * all tables, and what a crash between two marks leaves for the restarted indexer.
 */
module ReorgDetector {
  import opened Prelude
  import opened IndexerModel

  /** A derived record: the height it came from and whether it still counts. */
  datatype Fact = Fact(height: nat, canonical: bool)

  /** Records by primary key. */
  type Facts = map<nat, Fact>

  /** Transactions, logs, transfers, lots, PnL snapshots, cash flows, protocol and pricing records. */
  const FACT_TABLES: nat := 8

  datatype Tables = Tables(blocks: Table, facts: seq<Facts>)

  datatype ReorgEvent = ReorgEvent(from: int, to: int, ancestor: nat, resolved: bool)

  /** What the provider answers at each height; absent means null. */
  type Remote = map<nat, Block>

  // ---------------------------------------------------------------- the ancestor

  /** Some canonical row at `h` is the provider's block. */
  predicate Agrees(rows: Table, remote: Remote, h: nat) {
    h in remote && Canonical(rows, h, remote[h].hash)
  }

  ghost predicate OnePerHeight(rows: Table) {
    forall h: nat, x: Hash, y: Hash :: Canonical(rows, h, x) && Canonical(rows, h, y) ==> x == y
  }

  /** `a` is the greatest positive height up to `at` where table and provider agree. */
  ghost predicate IsAncestor(rows: Table, remote: Remote, at: int, a: nat) {
    0 < a <= at && Agrees(rows, remote, a) && forall h: nat :: a < h <= at ==> !Agrees(rows, remote, h)
  }

  ghost predicate NoAncestor(rows: Table, remote: Remote, at: int) {
    forall h: nat :: 0 < h <= at ==> !Agrees(rows, remote, h)
  }

  // ---------------------------------------------------------------- the marks

  function MarkFacts(facts: Facts, from: int, to: int): Facts {
    map k | k in facts :: if from <= facts[k].height <= to then facts[k].(canonical := false) else facts[k]
  }

  /** The tables after the first `done` of the range updates: blocks first, then the facts. */
  function MarkSome(t: Tables, from: int, to: int, done: nat): Tables {
    if done == 0 then t
    else
      Tables(MarkOrphaned(t.blocks, from, to),
             seq(|t.facts|, i requires 0 <= i < |t.facts| =>
               if i < done - 1 then MarkFacts(t.facts[i], from, to) else t.facts[i]))
  }

  function MarkAll(t: Tables, from: int, to: int): Tables {
    MarkSome(t, from, to, FACT_TABLES + 1)
  }

  /** What the marks do to a block row, and to every other row. */
  ghost predicate ExactlyOrphaned(before: Table, after: Table, from: int, to: int) {
    before.Keys == after.Keys &&
    forall k: (nat, Hash) :: k in before ==>
      (after[k].canonical <==> before[k].canonical && !(from <= k.0 <= to)) &&
      after[k].parent == before[k].parent &&
      (before[k].canonical == after[k].canonical ==> after[k] == before[k]) &&
      (before[k].canonical && !after[k].canonical ==> after[k].finality == Orphaned)
  }

  /** The same for the derived records of one table: each stays at its height, and loses its standing in the range. */
  ghost predicate FactsOrphaned(before: Facts, after: Facts, from: int, to: int) {
    before.Keys == after.Keys &&
    forall k :: k in before ==>
      after[k].height == before[k].height &&
      (after[k].canonical <==> before[k].canonical && !(from <= before[k].height <= to))
  }

  /** The first `done` updates have been made, and no other: blocks first, then table by table. */
  ghost predicate Updated(before: Tables, after: Tables, from: int, to: int, done: nat) {
    |after.facts| == |before.facts| &&
    (if done > 0 then ExactlyOrphaned(before.blocks, after.blocks, from, to) else after.blocks == before.blocks) &&
    (forall i :: 0 <= i < |before.facts| && i < done - 1 ==>
     FactsOrphaned(before.facts[i], after.facts[i], from, to)) &&
    (forall i :: 0 <= i < |before.facts| && i >= done - 1 ==> after.facts[i] == before.facts[i])
  }

  /** What the updates come to, row by row and record by record. */
  lemma MarkSomeUpdates(t: Tables, from: int, to: int, done: nat)
    ensures Updated(t, MarkSome(t, from, to, done), from, to, done)
  {
    MarkIsExact(t.blocks, from, to);
  }

  lemma MarkIsExact(rows: Table, from: int, to: int)
    ensures ExactlyOrphaned(rows, MarkOrphaned(rows, from, to), from, to)
  {
  }

  /** Orphaning everything above the ancestor moves neither it nor anything below. */
  lemma MarkKeepsAncestor(rows: Table, remote: Remote, at: int, a: nat)
    requires IsAncestor(rows, remote, at, a)
    ensures IsAncestor(MarkOrphaned(rows, a + 1, at), remote, at, a)
    ensures OnePerHeight(rows) ==> OnePerHeight(MarkOrphaned(rows, a + 1, at))
  {
    var rows' := MarkOrphaned(rows, a + 1, at);
    assert forall h: nat, x: Hash :: Canonical(rows', h, x) ==> Canonical(rows, h, x);
    forall h: nat | a < h <= at ensures !Agrees(rows', remote, h) {
      assert !Agrees(rows, remote, h);
    }
  }

  lemma OneAncestor(rows: Table, remote: Remote, at: int, a: nat)
    requires IsAncestor(rows, remote, at, a)
    ensures !NoAncestor(rows, remote, at) && forall b: nat :: IsAncestor(rows, remote, at, b) ==> b == a
  {
    forall b: nat | IsAncestor(rows, remote, at, b)
      ensures b == a
    {
      assert Agrees(rows, remote, a) && Agrees(rows, remote, b);
    }
  }

  lemma MarkTwice(rows: Table, facts: Facts, from: int, to: int)
    ensures MarkOrphaned(MarkOrphaned(rows, from, to), from, to) == MarkOrphaned(rows, from, to)
    ensures MarkFacts(MarkFacts(facts, from, to), from, to) == MarkFacts(facts, from, to)
  {
  }

  /**
   * A crash after any number of marks is harmless: the interrupted tables give the same
   * ancestor, hence the same range, and marking again from the start gives the very
   * tables an uninterrupted recovery would have.
   */
  lemma CrashedMarksReplay(t: Tables, remote: Remote, at: int, a: nat, done: nat)
    requires |t.facts| == FACT_TABLES && done <= FACT_TABLES + 1
    requires IsAncestor(t.blocks, remote, at, a)
    ensures IsAncestor(MarkSome(t, a + 1, at, done).blocks, remote, at, a)
    ensures MarkAll(MarkSome(t, a + 1, at, done), a + 1, at) == MarkAll(t, a + 1, at)
    ensures MarkAll(t, a + 1, at).blocks == MarkOrphaned(t.blocks, a + 1, at)
    ensures OnePerHeight(t.blocks) ==> OnePerHeight(MarkSome(t, a + 1, at, done).blocks)
  {
    MarkKeepsAncestor(t.blocks, remote, at, a);
    var part := MarkSome(t, a + 1, at, done);
    MarkTwice(t.blocks, map[], a + 1, at);
    forall i | 0 <= i < FACT_TABLES
      ensures MarkFacts(part.facts[i], a + 1, at) == MarkFacts(t.facts[i], a + 1, at)
    {
      MarkTwice(t.blocks, t.facts[i], a + 1, at);
    }
  }

  /** The served block above the checkpoint names another parent than the remembered one. */
  predicate Disagrees(cp: Checkpoint, remote: Remote) {
    cp.next in remote && cp.last.Some? && cp.last.value != remote[cp.next].parent
  }

  class Detector {
    const checkpoint: Checkpoint            // as stored; no step of a recovery writes it
    var tables: Tables
    var reorgs: seq<ReorgEvent>

    ghost predicate Valid()
      reads this
    {
      |tables.facts| == FACT_TABLES
    }

    constructor (checkpoint: Checkpoint, tables: Tables)
      requires |tables.facts| == FACT_TABLES
      ensures Valid() && this.checkpoint == checkpoint && this.tables == tables && reorgs == []
    {
      this.checkpoint, this.tables, this.reorgs := checkpoint, tables, [];
    }

    /** `findFirst`: some canonical row at the height. */
    method FindCanonical(h: nat) returns (r: Option<Hash>)
      ensures r.Some? ==> Canonical(tables.blocks, h, r.value)
      ensures r.None? ==> forall x: Hash :: !Canonical(tables.blocks, h, x)
    {
      var rows := tables.blocks;
      var found := set k | k in rows.Keys && k.0 == h && rows[k].canonical;
      if found == {} {
        forall x: Hash ensures !Canonical(rows, h, x) {
          assert (h, x) !in found;
        }
        return None;
      }
      var k :| k in found;
      return Some(k.1);
    }

    method FindCommonAncestor(startBlock: int, remote: Remote) returns (r: Option<nat>)
      ensures r.Some? ==> 0 < r.value <= startBlock && Agrees(tables.blocks, remote, r.value)
      ensures NoAncestor(tables.blocks, remote, startBlock) ==> r.None?
      ensures OnePerHeight(tables.blocks) ==>
                if r.Some? then IsAncestor(tables.blocks, remote, startBlock, r.value)
                else NoAncestor(tables.blocks, remote, startBlock)
    {
      var currentBlock := startBlock;
      while currentBlock > 0
        invariant currentBlock <= startBlock
        invariant OnePerHeight(tables.blocks) ==>
                    forall h: nat :: currentBlock < h <= startBlock ==> !Agrees(tables.blocks, remote, h)
      {
        var stored := FindCanonical(currentBlock);
        if stored.Some? && currentBlock in remote && stored.value == remote[currentBlock].hash {
          assert Agrees(tables.blocks, remote, currentBlock);
          return Some(currentBlock);
        }
        currentBlock := currentBlock - 1;
      }
      return None;
    }

    /** Null unless a remembered hash disagrees and an ancestor exists; the event is recorded. */
    method DetectReorg(blockNumber: int, expected: Option<Hash>, actual: Hash, remote: Remote) returns (r: Option<nat>)
      modifies this`reorgs
      ensures expected.None? || expected.value == actual ==> r.None?
      ensures r.None? ==> reorgs == old(reorgs)
      ensures r.Some? ==> r.value == |old(reorgs)| && |reorgs| == |old(reorgs)| + 1 && old(reorgs) < reorgs
      ensures r.Some? ==>
                reorgs[r.value] == ReorgEvent(reorgs[r.value].ancestor + 1, blockNumber - 1,
                                              reorgs[r.value].ancestor, false)
      ensures OnePerHeight(tables.blocks) && expected.Some? && expected.value != actual ==>
                if r.Some? then IsAncestor(tables.blocks, remote, blockNumber - 1, reorgs[r.value].ancestor)
                else NoAncestor(tables.blocks, remote, blockNumber - 1)
    {
      if expected.None? || expected.value == actual {
        return None;
      }
      var ancestor := FindCommonAncestor(blockNumber - 1, remote);
      if ancestor.None? {
        return None;
      }
      reorgs := reorgs + [ReorgEvent(ancestor.value + 1, blockNumber - 1, ancestor.value, false)];
      return Some(|reorgs| - 1);
    }

    /** The range updates in order, then the event is resolved; the process dies after `survives` of them. */
    method HandleReorg(id: nat, survives: nat)
      requires Valid() && id < |reorgs|
      modifies this`tables, this`reorgs
      ensures Valid() && |reorgs| == |old(reorgs)|
      ensures var e := old(reorgs)[id];
              if survives <= FACT_TABLES + 1 then
                reorgs == old(reorgs) && tables == MarkSome(old(tables), e.from, e.to, survives)
              else
                reorgs == old(reorgs)[id := e.(resolved := true)] && tables == MarkAll(old(tables), e.from, e.to)
      ensures var e := old(reorgs)[id];
              Updated(old(tables), tables, e.from, e.to, if survives <= FACT_TABLES then survives else FACT_TABLES + 1)
    {
      MarkSomeUpdates(tables, reorgs[id].from, reorgs[id].to,
                      if survives <= FACT_TABLES then survives else FACT_TABLES + 1);
      var e := reorgs[id];
      if survives == 0 { return; }
      ghost var before := tables;
      tables := tables.(blocks := MarkOrphaned(tables.blocks, e.from, e.to));
      assert tables.facts == MarkSome(before, e.from, e.to, 1).facts;
      var i := 0;
      while i < FACT_TABLES
        invariant i <= FACT_TABLES && i + 1 <= survives && Valid() && reorgs == old(reorgs)
        invariant tables == MarkSome(before, e.from, e.to, i + 1)
      {
        if survives == i + 1 { return; }
        tables := tables.(facts := tables.facts[i := MarkFacts(tables.facts[i], e.from, e.to)]);
        i := i + 1;
        assert tables.facts == MarkSome(before, e.from, e.to, i + 1).facts;
      }
      if survives == FACT_TABLES + 1 { return; }
      reorgs := reorgs[id := e.(resolved := true)];
    }

    /** The tail's turn of a process that has just read the stored checkpoint: fetch, compare, detect. */
    method Resume(remote: Remote) returns (r: Option<nat>)
      modifies this`reorgs
      ensures !Disagrees(checkpoint, remote) ==> r.None?
      ensures r.None? ==> reorgs == old(reorgs)
      ensures r.Some? ==> r.value == |old(reorgs)| && |reorgs| == |old(reorgs)| + 1 && old(reorgs) < reorgs
      ensures r.Some? ==>
                var a := reorgs[r.value].ancestor;
                reorgs[r.value] == ReorgEvent(a + 1, checkpoint.next - 1, a, false)
      ensures OnePerHeight(tables.blocks) && Disagrees(checkpoint, remote) ==>
                if r.Some? then IsAncestor(tables.blocks, remote, checkpoint.next - 1, reorgs[r.value].ancestor)
                else NoAncestor(tables.blocks, remote, checkpoint.next - 1)
    {
      if checkpoint.next !in remote { return None; }
      r := DetectReorg(checkpoint.next, checkpoint.last, remote[checkpoint.next].parent, remote);
    }

    /**
     * Recovery over any number of deaths. Every process reads the stored checkpoint, which no
     * recovery rewinds, detects anew and dies after `crashes[k]` of the updates; the last one
     * survives. Each finds the same range again, and the tables end as one undisturbed
     * recovery leaves them; every attempt leaves an event for that very range.
     */
    method RecoverThroughCrashes(remote: Remote, crashes: seq<nat>) returns (ancestor: Option<nat>)
      requires Valid() && OnePerHeight(tables.blocks)
      modifies this`tables, this`reorgs
      ensures ancestor.None?
              <==> !Disagrees(checkpoint, remote) || NoAncestor(old(tables.blocks), remote, checkpoint.next - 1)
      ensures ancestor.None? ==> tables == old(tables) && reorgs == old(reorgs)
      ensures ancestor.Some? ==>
                IsAncestor(old(tables.blocks), remote, checkpoint.next - 1, ancestor.value) &&
                tables == MarkAll(old(tables), ancestor.value + 1, checkpoint.next - 1) &&
                ExactlyOrphaned(old(tables.blocks), tables.blocks, ancestor.value + 1, checkpoint.next - 1) &&
                |tables.facts| == FACT_TABLES &&
                forall i :: 0 <= i < FACT_TABLES ==>
                  FactsOrphaned(old(tables).facts[i], tables.facts[i], ancestor.value + 1, checkpoint.next - 1)
      ensures ancestor.Some? ==>
                |reorgs| == |old(reorgs)| + |crashes| + 1 && old(reorgs) < reorgs &&
                (forall i :: |old(reorgs)| <= i < |reorgs| ==>
                  reorgs[i].from == ancestor.value + 1 && reorgs[i].to == checkpoint.next - 1) &&
                reorgs[|reorgs| - 1].resolved
    {
      hide MarkSome, MarkOrphaned, IsAncestor, NoAncestor, OnePerHeight, ExactlyOrphaned, FactsOrphaned, Disagrees;
      var first := Resume(remote);
      if first.None? { return None; }
      ghost var at := checkpoint.next - 1;
      var a := reorgs[first.value].ancestor;
      OneAncestor(tables.blocks, remote, at, a);
      MarkIsExact(tables.blocks, a + 1, at);
      MarkSomeUpdates(tables, a + 1, at, FACT_TABLES + 1);
      CrashedMarksReplay(tables, remote, at, a, 0);
      var id := first.value;
      var k := 0;
      while k < |crashes|
        invariant k <= |crashes| && Valid() && OnePerHeight(tables.blocks)
        invariant IsAncestor(tables.blocks, remote, at, a)
        invariant MarkAll(tables, a + 1, at) == MarkAll(old(tables), a + 1, at)
        invariant |reorgs| == |old(reorgs)| + k + 1 && old(reorgs) < reorgs && id == |reorgs| - 1
        invariant forall i :: |old(reorgs)| <= i < |reorgs| ==> reorgs[i].from == a + 1 && reorgs[i].to == at
      {
        var survives := crashes[k];
        CrashedMarksReplay(tables, remote, at, a, if survives <= FACT_TABLES + 1 then survives else FACT_TABLES + 1);
        HandleReorg(id, survives);
        OneAncestor(tables.blocks, remote, at, a);
        var again := Resume(remote);
        id := again.value;
        assert reorgs[id].ancestor == a;
        k := k + 1;
      }
      HandleReorg(id, FACT_TABLES + 2);
      return Some(a);
    }
  }
}
