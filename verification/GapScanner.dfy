/** Gaps among the canonical heights: the scan, the plain list of missing heights, and gap repair. */
module GapScanner {
  import opened Prelude
  import opened IndexerModel

  datatype Gap = Gap(from: int, to: int)

  /** Heights with a canonical row, as the two queries of the scanner select them. */
  function CanonicalHeights(rows: Table, from: int, to: int): set<int> {
    set k | k in rows && from <= k.0 <= to && rows[k].canonical :: k.0
  }

  predicate Inside(gaps: seq<Gap>, h: int) {
    exists i :: 0 <= i < |gaps| && gaps[i].from <= h <= gaps[i].to
  }

  /** Ascending ranges with at least one present height between any two. */
  predicate Separated(gaps: seq<Gap>) {
    (forall i :: 0 <= i < |gaps| ==> gaps[i].from <= gaps[i].to) &&
    (forall i, j :: 0 <= i < j < |gaps| ==> gaps[i].to + 1 < gaps[j].from)
  }

  /** The maximal runs of heights of [from, to] that are not present. */
  ghost predicate MaximalRuns(gaps: seq<Gap>, present: set<int>, from: int, to: int) {
    Separated(gaps) && forall h :: Inside(gaps, h) <==> from <= h <= to && h !in present
  }

  /** There is only one such list. */
  lemma {:induction false} MaximalRunsUnique(a: seq<Gap>, b: seq<Gap>, present: set<int>, from: int, to: int)
    requires MaximalRuns(a, present, from, to) && MaximalRuns(b, present, from, to)
    ensures a == b
    decreases |a|
  {
    if a == [] && b != [] {
      assert Inside(b, b[0].from);
      assert false;
    } else if a != [] {
      assert Inside(a, a[0].from);
      FirstRuns(a, b, present, from, to);
      FirstRuns(b, a, present, from, to);
      assert a[0] == b[0];
      RestRuns(a, present, from, to);
      RestRuns(b, present, from, to);
      MaximalRunsUnique(a[1..], b[1..], present, a[0].to + 1, to);
      assert a == [a[0]] + a[1..] && b == [b[0]] + b[1..];
    }
  }

  lemma NotInsideJustAfter(b: seq<Gap>)
    requires Separated(b) && b != []
    ensures !Inside(b, b[0].to + 1)
  {
  }

  lemma FirstRuns(a: seq<Gap>, b: seq<Gap>, present: set<int>, from: int, to: int)
    requires MaximalRuns(a, present, from, to) && MaximalRuns(b, present, from, to) && a != []
    ensures b != [] && b[0].from <= a[0].from && (b[0].from == a[0].from ==> a[0].to <= b[0].to)
  {
    assert Inside(a, a[0].from);
    assert Inside(b, a[0].from);
    NotInsideJustAfter(b);
    if b[0].from == a[0].from && b[0].to < a[0].to {
      assert Inside(a, b[0].to + 1);
    }
  }

  lemma RestRuns(a: seq<Gap>, present: set<int>, from: int, to: int)
    requires MaximalRuns(a, present, from, to) && a != []
    ensures MaximalRuns(a[1..], present, a[0].to + 1, to)
  {
    var rest := a[1..];
    assert forall i :: 0 <= i < |rest| ==> rest[i] == a[i + 1];
    forall h ensures Inside(rest, h) <==> a[0].to + 1 <= h <= to && h !in present {
      if Inside(rest, h) {
        var i :| 0 <= i < |rest| && rest[i].from <= h <= rest[i].to;
        assert a[i + 1].from <= h <= a[i + 1].to;
        assert Inside(a, h);
      }
      if a[0].to + 1 <= h <= to && h !in present {
        assert Inside(a, a[0].from);
        assert Inside(a, h);
        var i :| 0 <= i < |a| && a[i].from <= h <= a[i].to;
        assert rest[i - 1] == a[i];
      }
    }
  }

  lemma InsideAppend(gaps: seq<Gap>, g: Gap, h: int)
    ensures Inside(gaps + [g], h) <==> Inside(gaps, h) || g.from <= h <= g.to
  {
    if g.from <= h <= g.to {
      assert (gaps + [g])[|gaps|] == g;
    }
    if Inside(gaps, h) {
      var i :| 0 <= i < |gaps| && gaps[i].from <= h <= gaps[i].to;
      assert (gaps + [g])[i] == gaps[i];
    }
  }

  /** `scanForGaps`, on any range with at least one height: exactly the maximal runs of missing heights. */
  method ScanForGaps(rows: Table, from: int, to: int) returns (gaps: seq<Gap>)
    ensures from <= to ==> MaximalRuns(gaps, CanonicalHeights(rows, from, to), from, to)
    ensures from > to ==> gaps == [Gap(from, to)]
  {
    var present := CanonicalHeights(rows, from, to);
    if present == {} {
      gaps := [Gap(from, to)];
      forall h ensures Inside(gaps, h) <==> from <= h <= to {
        InsideAppend([], Gap(from, to), h);
        assert [] + [Gap(from, to)] == gaps;
      }
      return;
    }
    assert from <= to;
    gaps := [];
    var gapStart: Option<int> := None;
    var h := from;
    while h <= to
      invariant from <= h <= to + 1
      invariant Separated(gaps)
      invariant forall i :: 0 <= i < |gaps| ==> gaps[i].to < h - 1
      invariant gapStart.Some? ==>
                from <= gapStart.value < h && (forall i :: 0 <= i < |gaps| ==> gaps[i].to + 1 < gapStart.value)
      invariant forall x ::
                  Inside(gaps, x) || (gapStart.Some? && gapStart.value <= x < h) <==> from <= x < h && x !in present
      decreases (to - h)
    {
      if h !in present {
        if gapStart.None? {
          gapStart := Some(h);
        }
      } else if gapStart.Some? {
        ghost var before := gaps;
        gaps := gaps + [Gap(gapStart.value, h - 1)];
        forall x ensures Inside(gaps, x) <==> Inside(before, x) || gapStart.value <= x <= h - 1 {
          InsideAppend(before, Gap(gapStart.value, h - 1), x);
        }
        gapStart := None;
      }
      h := h + 1;
    }
    if gapStart.Some? {
      ghost var before := gaps;
      gaps := gaps + [Gap(gapStart.value, to)];
      forall x ensures Inside(gaps, x) <==> Inside(before, x) || gapStart.value <= x <= to {
        InsideAppend(before, Gap(gapStart.value, to), x);
      }
    }
  }

  /** `getMissingBlocks`: the missing heights in ascending order, each once. */
  method GetMissingBlocks(rows: Table, from: int, to: int) returns (missing: seq<int>)
    ensures forall i, j :: 0 <= i < j < |missing| ==> missing[i] < missing[j]
    ensures forall h :: h in missing <==> from <= h <= to && h !in CanonicalHeights(rows, from, to)
  {
    var present := CanonicalHeights(rows, from, to);
    missing := [];
    var h := from;
    while h <= to
      invariant from <= h && (from <= to ==> h <= to + 1) && (from > to ==> h == from)
      invariant forall i :: 0 <= i < |missing| ==> missing[i] < h
      invariant forall i, j :: 0 <= i < j < |missing| ==> missing[i] < missing[j]
      invariant forall x :: x in missing <==> from <= x < h && x !in present
      decreases (to - h)
    {
      if h !in present {
        missing := missing + [h];
      }
      h := h + 1;
    }
  }

  // ---------------------------------------------------------------- gap repair

  /** The provider has the block, and the table will take it as canonical. */
  predicate Repairable(rows: Table, remote: map<nat, Block>, h: nat) {
    h in remote && (h, remote[h].hash) !in rows
  }

  lemma InsertMakesCanonical(rows: Table, h: nat, b: Block, f: Finality, k: nat)
    ensures HasCanonical(Insert(rows, h, b, f), k) <==> HasCanonical(rows, k) || (k == h && (h, b.hash) !in rows)
  {
    var rows' := Insert(rows, h, b, f);
    if HasCanonical(rows, k) {
      var x: Hash :| Canonical(rows, k, x);
      assert Canonical(rows', k, x);
    }
    if k == h && (h, b.hash) !in rows {
      assert Canonical(rows', h, b.hash);
    }
    if HasCanonical(rows', k) {
      var x: Hash :| Canonical(rows', k, x);
      assert (k, x) == (h, b.hash) || Canonical(rows, k, x);
    }
  }

  /** The inner loop of gap repair: fetch and store every height of one gap. */
  method RepairGap(rows0: Table, from: nat, to: int, remote: map<nat, Block>) returns (rows: Table)
    ensures forall k: nat :: HasCanonical(rows, k) <==>
              HasCanonical(rows0, k) || (from <= k <= to && Repairable(rows0, remote, k))
    ensures forall k: (nat, Hash) :: !(from <= k.0 <= to) ==> (k in rows <==> k in rows0)
  {
    rows := rows0;
    var h := from;
    while h <= to
      invariant from <= h
      invariant forall k: nat :: HasCanonical(rows, k) <==>
                  HasCanonical(rows0, k) || (from <= k < h && k <= to && Repairable(rows0, remote, k))
      invariant forall k: (nat, Hash) :: !(from <= k.0 < h && k.0 <= to) ==> (k in rows <==> k in rows0)
      decreases (to - h)
    {
      if h in remote {
        var finality: Finality := *;
        forall k: nat { InsertMakesCanonical(rows, h, remote[h], finality, k); }
        rows := Insert(rows, h, remote[h], finality);
      }
      h := h + 1;
    }
  }

  lemma HasCanonicalIsPresent(rows: Table, from: int, to: int, h: nat)
    ensures h in CanonicalHeights(rows, from, to) <==> from <= h <= to && HasCanonical(rows, h)
  {
    if HasCanonical(rows, h) && from <= h <= to {
      var x: Hash :| Canonical(rows, h, x);
      assert (h, x) in rows && rows[(h, x)].canonical;
    }
    if h in CanonicalHeights(rows, from, to) {
      var k :| k in rows && from <= k.0 <= to && rows[k].canonical && k.0 == h;
      assert Canonical(rows, h, k.1);
    }
  }

  /**
   * `runGapRepairMode` and a rescan: the range has no gap left exactly when every missing
   * height was repairable, that is, answered by the provider with a block the table has no
   * row of. An orphaned row of that very block keeps its height a gap for ever.
   */
  method RepairAndRescan(rows0: Table, from: nat, to: nat, remote: map<nat, Block>)
    returns (rows: Table, gaps: seq<Gap>)
    requires from <= to
    ensures MaximalRuns(gaps, CanonicalHeights(rows, from, to), from, to)
    ensures gaps == [] <==>
            forall h: nat :: from <= h <= to && !HasCanonical(rows0, h) ==> Repairable(rows0, remote, h)
    ensures forall h: nat :: HasCanonical(rows, h) <==>
              HasCanonical(rows0, h) || (from <= h <= to && Repairable(rows0, remote, h))
  {
    hide MaximalRuns, CanonicalHeights, HasCanonical, Repairable, Inside;
    var found := ScanForGaps(rows0, from, to);
    RunsAreMissing(found, rows0, from, to);
    rows := rows0;
    var i := 0;
    InsideNothing();
    assert found[..0] == [];
    while i < |found|
      invariant 0 <= i <= |found|
      invariant forall k: nat :: HasCanonical(rows, k) <==>
                  HasCanonical(rows0, k) || (Inside(found[..i], k) && Repairable(rows0, remote, k))
      invariant forall k: (nat, Hash) :: !Inside(found[..i], k.0) ==> (k in rows <==> k in rows0)
    {
      ghost var before := rows;
      rows := RepairGap(rows, found[i].from, found[i].to, remote);
      NextGap(found, i, rows0, before, remote);
      forall k: (nat, Hash) | !Inside(found[..i + 1], k.0)
        ensures k in rows <==> k in rows0
      {
        var h: nat := k.0;
        assert !Inside(found[..i], h);
      }
      i := i + 1;
    }
    assert found[..|found|] == found;
    gaps := ScanForGaps(rows, from, to);
    RunsAreMissing(gaps, rows, from, to);
  }

  lemma InsideNothing()
    ensures forall h :: !Inside([], h)
  {
  }

  /** What the runs are, in terms of the table. */
  lemma RunsAreMissing(gaps: seq<Gap>, rows: Table, from: nat, to: nat)
    requires MaximalRuns(gaps, CanonicalHeights(rows, from, to), from, to)
    ensures Separated(gaps) && forall i :: 0 <= i < |gaps| ==> from <= gaps[i].from && gaps[i].to <= to
    ensures forall h: nat :: Inside(gaps, h) <==> from <= h <= to && !HasCanonical(rows, h)
    ensures gaps == [] <==> forall h: nat :: from <= h <= to ==> HasCanonical(rows, h)
  {
    forall h: nat
      ensures Inside(gaps, h) <==> from <= h <= to && !HasCanonical(rows, h)
    {
      HasCanonicalIsPresent(rows, from, to, h);
    }
    forall i | 0 <= i < |gaps|
      ensures from <= gaps[i].from && gaps[i].to <= to
    {
      assert Inside(gaps, gaps[i].from) && Inside(gaps, gaps[i].to);
    }
    if gaps != [] {
      assert Inside(gaps, gaps[0].from);
    }
  }

  /** One more gap: the ranges so far grow by it, and it meets none of them. */
  lemma NextGap(found: seq<Gap>, i: nat, rows0: Table, before: Table, remote: map<nat, Block>)
    requires Separated(found) && i < |found|
    requires forall k: (nat, Hash) :: !Inside(found[..i], k.0) ==> (k in before <==> k in rows0)
    ensures forall k: nat :: Inside(found[..i + 1], k) <==> Inside(found[..i], k) || found[i].from <= k <= found[i].to
    ensures forall k: nat :: found[i].from <= k <= found[i].to ==>
              (Repairable(before, remote, k) <==> Repairable(rows0, remote, k))
  {
    assert found[..i + 1] == found[..i] + [found[i]];
    forall k: nat
      ensures Inside(found[..i + 1], k) <==> Inside(found[..i], k) || found[i].from <= k <= found[i].to
    {
      InsideAppend(found[..i], found[i], k);
    }
    assert forall k: nat :: found[i].from <= k <= found[i].to ==> !Inside(found[..i], k);
  }
}
