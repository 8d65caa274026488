/** Holder concentration: the scaled Gini coefficient, top-holder shares and class allocations. */
module HolderConcentration {
  import opened Prelude
  import opened Arithmetic

  // ---------------------------------------------------------------- sums and sorting

  function Sum(s: seq<int>): int {
    if s == [] then 0 else s[0] + Sum(s[1..])
  }

  function Positive(s: seq<int>): (r: seq<int>)
    ensures forall i :: 0 <= i < |r| ==> r[i] > 0
  {
    if s == [] then [] else if s[0] > 0 then [s[0]] + Positive(s[1..]) else Positive(s[1..])
  }

  predicate Ascending(s: seq<int>) {
    forall i, j :: 0 <= i < j < |s| ==> s[i] <= s[j]
  }

  function Insert(x: int, s: seq<int>): seq<int> {
    if s == [] || x <= s[0] then [x] + s else [s[0]] + Insert(x, s[1..])
  }

  /** The ascending comparator sort of the source. */
  function Sort(s: seq<int>): seq<int> {
    if s == [] then [] else Insert(s[0], Sort(s[1..]))
  }

  lemma {:induction false} InsertElements(x: int, s: seq<int>)
    ensures multiset(Insert(x, s)) == multiset{x} + multiset(s)
  {
    if s != [] && x > s[0] {
      InsertElements(x, s[1..]);
      assert s == [s[0]] + s[1..];
    }
  }

  lemma {:induction false} InsertSorts(x: int, s: seq<int>)
    requires Ascending(s)
    ensures Ascending(Insert(x, s))
  {
    if s != [] && x > s[0] {
      InsertSorts(x, s[1..]);
      InsertElements(x, s[1..]);
      var t := Insert(x, s[1..]);
      forall k | 0 <= k < |t| ensures s[0] <= t[k] {
        assert t[k] in multiset(t);
        assert t[k] == x || t[k] in multiset(s[1..]);
      }
    }
  }

  lemma {:induction false} SortSorts(s: seq<int>)
    ensures Ascending(Sort(s)) && multiset(Sort(s)) == multiset(s) && |Sort(s)| == |s|
  {
    hide Insert;
    if s != [] {
      SortSorts(s[1..]);
      InsertSorts(s[0], Sort(s[1..]));
      InsertElements(s[0], Sort(s[1..]));
      assert s == [s[0]] + s[1..];
    }
    assert |multiset(Sort(s))| == |Sort(s)| && |multiset(s)| == |s|;
  }

  lemma HeadIsLeast(s: seq<int>, x: int)
    requires Ascending(s) && x in s
    ensures s[0] <= x
  {
    var k :| 0 <= k < |s| && s[k] == x;
  }

  lemma Tail(s: seq<int>)
    requires s != []
    ensures multiset(s[1..]) == multiset(s) - multiset{s[0]}
    ensures Ascending(s) ==> Ascending(s[1..])
  {
    assert s == [s[0]] + s[1..];
  }

  lemma SameHeads(s: seq<int>, t: seq<int>)
    requires Ascending(s) && Ascending(t) && multiset(s) == multiset(t) && s != [] && t != []
    ensures s[0] == t[0] && multiset(s[1..]) == multiset(t[1..])
  {
    assert s[0] in multiset(t) && t[0] in multiset(s);
    HeadIsLeast(s, t[0]);
    HeadIsLeast(t, s[0]);
    Tail(s);
    Tail(t);
  }

  /** Sorted sequences with the same elements are equal. */
  lemma {:induction false} SortedUnique(s: seq<int>, t: seq<int>)
    requires Ascending(s) && Ascending(t) && multiset(s) == multiset(t)
    ensures s == t
    decreases |s|
  {
    assert |s| == |multiset(s)| == |multiset(t)| == |t|;
    if s != [] {
      SameHeads(s, t);
      SortedUnique(s[1..], t[1..]);
      assert s == [s[0]] + s[1..] && t == [t[0]] + t[1..];
    }
  }

  lemma SortIgnoresOrder(s: seq<int>, t: seq<int>)
    requires multiset(s) == multiset(t)
    ensures Sort(s) == Sort(t)
  {
    SortSorts(s);
    SortSorts(t);
    SortedUnique(Sort(s), Sort(t));
  }

  lemma {:induction false} PositiveCounts(s: seq<int>, x: int)
    ensures multiset(Positive(s))[x] == if x > 0 then multiset(s)[x] else 0
  {
    if s != [] {
      PositiveCounts(s[1..], x);
      assert s == [s[0]] + s[1..];
    }
  }

  lemma PositiveIgnoresOrder(s: seq<int>, t: seq<int>)
    requires multiset(s) == multiset(t)
    ensures multiset(Positive(s)) == multiset(Positive(t))
  {
    forall x: int ensures multiset(Positive(s))[x] == multiset(Positive(t))[x] {
      PositiveCounts(s, x);
      PositiveCounts(t, x);
    }
  }

  // ---------------------------------------------------------------- the Gini coefficient

  /** `sorted.reduce((sum, value, i) => sum + (i + 1) * value)`, with `i` starting at `from`. */
  function Weighted(s: seq<int>, from: nat): int {
    if s == [] then 0 else (from + 1) * s[0] + Weighted(s[1..], from + 1)
  }

  function Numerator(sorted: seq<int>): int {
    2 * Weighted(sorted, 0) - (|sorted| + 1) * Sum(sorted)
  }

  /** A share in basis points, rounded down. */
  function Bps(part: int, whole: int): int
    requires whole > 0
  {
    part * 10_000 / whole
  }

  /** None for a holder list without a positive balance. */
  function Gini(values: seq<int>): Option<int> {
    var sorted := Sort(Positive(values));
    var total, n := Sum(sorted), |sorted|;
    if total == 0 || n == 0 then None
    else
      TotalPositive(values);
      Some(Bps(Numerator(sorted), n * total))
  }

  lemma TotalPositive(values: seq<int>)
    ensures var sorted := Sort(Positive(values));
            |sorted| == |Positive(values)| && Sum(sorted) == Sum(Positive(values)) >= |sorted| &&
            (sorted != [] ==> |sorted| * Sum(sorted) > 0)
  {
    var p := Positive(values);
    SumSort(p);
    SumPositive(p);
    if p != [] {
      Product(|p|, Sum(p));
    }
  }

  lemma {:induction false} SumPositive(s: seq<int>)
    requires forall i :: 0 <= i < |s| ==> s[i] > 0
    ensures Sum(s) >= |s|
  {
    if s != [] {
      assert forall i :: 0 <= i < |s[1..]| ==> s[1..][i] == s[i + 1];
      SumPositive(s[1..]);
    }
  }

  function Abs(x: int): int { if x < 0 then -x else x }

  function DistanceTo(x: int, s: seq<int>): int {
    if s == [] then 0 else Abs(x - s[0]) + DistanceTo(x, s[1..])
  }

  /** The sum of the absolute differences of all pairs of holders. */
  function PairDistance(s: seq<int>): int {
    if s == [] then 0 else DistanceTo(s[0], s[1..]) + PairDistance(s[1..])
  }

  lemma {:induction false} WeightedShift(s: seq<int>, from: nat)
    ensures Weighted(s, from + 1) == Weighted(s, from) + Sum(s)
  {
    if s != [] {
      WeightedShift(s[1..], from + 1);
    }
  }

  lemma {:induction false} DistanceBelow(x: int, s: seq<int>)
    requires forall i :: 0 <= i < |s| ==> x <= s[i]
    ensures DistanceTo(x, s) == Sum(s) - |s| * x
  {
    if s != [] {
      DistanceBelow(x, s[1..]);
      assert |s| * x == |s[1..]| * x + x;
    }
  }

  /** On a sorted list the rank-weighted numerator is the sum of pairwise differences. */
  lemma {:induction false} NumeratorOfSorted(s: seq<int>)
    requires Ascending(s)
    ensures Numerator(s) == PairDistance(s)
  {
    if s != [] {
      var x, t := s[0], s[1..];
      NumeratorOfSorted(t);
      WeightedShift(t, 0);
      DistanceBelow(x, t);
      assert (|s| + 1) * (x + Sum(t)) == (|t| + 1) * Sum(t) + Sum(t) + |t| * x + 2 * x;
    }
  }

  lemma {:induction false} DistanceInsert(y: int, x: int, s: seq<int>)
    ensures DistanceTo(y, Insert(x, s)) == Abs(y - x) + DistanceTo(y, s)
  {
    if s != [] && x > s[0] {
      DistanceInsert(y, x, s[1..]);
    }
  }

  lemma {:induction false} PairInsert(x: int, s: seq<int>)
    ensures PairDistance(Insert(x, s)) == DistanceTo(x, s) + PairDistance(s)
  {
    if s != [] && x > s[0] {
      PairInsert(x, s[1..]);
      DistanceInsert(s[0], x, s[1..]);
    }
  }

  lemma {:induction false} DistanceSort(x: int, s: seq<int>)
    ensures DistanceTo(x, Sort(s)) == DistanceTo(x, s)
  {
    if s != [] {
      DistanceSort(x, s[1..]);
      DistanceInsert(x, s[0], Sort(s[1..]));
    }
  }

  /** Sorting does not change the pairwise differences. */
  lemma {:induction false} PairSort(s: seq<int>)
    ensures PairDistance(Sort(s)) == PairDistance(s)
  {
    if s != [] {
      PairSort(s[1..]);
      PairInsert(s[0], Sort(s[1..]));
      DistanceSort(s[0], s[1..]);
    }
  }

  lemma {:induction false} SumInsert(x: int, s: seq<int>)
    ensures Sum(Insert(x, s)) == x + Sum(s) && |Insert(x, s)| == |s| + 1
  {
    if s != [] && x > s[0] {
      SumInsert(x, s[1..]);
    }
  }

  lemma {:induction false} SumSort(s: seq<int>)
    ensures Sum(Sort(s)) == Sum(s) && |Sort(s)| == |s|
  {
    if s != [] {
      SumSort(s[1..]);
      SumInsert(s[0], Sort(s[1..]));
    }
  }

  /**
   * The coefficient without any sorting: the sum of pairwise differences of the positive
   * balances over `n` times their total, in basis points, rounded down: the greatest number
   * of ten-thousandths that does not exceed it.
   */
  lemma GiniIsPairwise(values: seq<int>)
    ensures var p := Positive(values);
            if p == [] then Gini(values) == None
            else |p| * Sum(p) > 0 && Gini(values) == Some(Bps(PairDistance(p), |p| * Sum(p)))
    ensures Gini(values).Some? ==>
              var p := Positive(values);
              forall k: int :: k <= Gini(values).value <==> k * (|p| * Sum(p)) <= 10_000 * PairDistance(p)
  {
    var p := Positive(values);
    if p != [] {
      Product(|p|, Sum(p)) by { SumPositive(p); }
      forall k: int
        ensures k <= Bps(PairDistance(p), |p| * Sum(p)) <==> k * (|p| * Sum(p)) <= 10_000 * PairDistance(p)
      {
        FloorIs(PairDistance(p) * 10_000, |p| * Sum(p), k);
      }
    }
    TotalPositive(values);
    SortSorts(p);
    NumeratorOfSorted(Sort(p));
    PairSort(p);
  }

  /** Rearranging the holders changes nothing. */
  lemma GiniIgnoresOrder(values: seq<int>, shuffled: seq<int>)
    requires multiset(values) == multiset(shuffled)
    ensures Gini(values) == Gini(shuffled)
  {
    PositiveIgnoresOrder(values, shuffled);
    SortIgnoresOrder(Positive(values), Positive(shuffled));
  }

  lemma {:induction false} WeightedBound(s: seq<int>, from: nat)
    requires forall i :: 0 <= i < |s| ==> s[i] > 0
    ensures Weighted(s, from) <= (from + |s|) * Sum(s) && Sum(s) >= |s|
  {
    if s != [] {
      assert forall i :: 0 <= i < |s[1..]| ==> s[1..][i] == s[i + 1];
      WeightedBound(s[1..], from + 1);
      assert (from + 1) * s[0] <= (from + |s|) * s[0];
      assert (from + |s|) * (s[0] + Sum(s[1..])) == (from + |s|) * s[0] + (from + |s|) * Sum(s[1..]);
    }
  }

  lemma {:induction false} PairNonNegative(s: seq<int>)
    ensures PairDistance(s) >= 0
  {
    if s != [] {
      PairNonNegative(s[1..]);
      DistanceNonNegative(s[0], s[1..]);
    }
  }

  lemma {:induction false} DistanceNonNegative(x: int, s: seq<int>)
    ensures DistanceTo(x, s) >= 0
  {
    if s != [] {
      DistanceNonNegative(x, s[1..]);
    }
  }

  lemma RankBound(w: int, n: int, t: int)
    requires w <= n * t && t > 0
    ensures 2 * w - (n + 1) * t < n * t
  {
  }

  /** Positive balances in ascending order differ pairwise by less than `n` times their total. */
  lemma SortedPairsBelowTotal(s: seq<int>)
    requires s != [] && Ascending(s) && forall i :: 0 <= i < |s| ==> s[i] > 0
    ensures 0 <= PairDistance(s) < |s| * Sum(s)
  {
    hide Weighted, PairDistance, Sum;
    NumeratorOfSorted(s);
    PairNonNegative(s);
    WeightedBound(s, 0);
    RankBound(Weighted(s, 0), |s|, Sum(s));
  }

  lemma PairsBelowTotal(p: seq<int>)
    requires p != [] && forall x :: x in multiset(p) ==> x > 0
    ensures 0 <= PairDistance(p) < |p| * Sum(p)
  {
    SortSorts(p);
    SumSort(p);
    PairSort(p);
    var s := Sort(p);
    forall k | 0 <= k < |s| ensures s[k] > 0 {
      assert s[k] in multiset(s);
    }
    SortedPairsBelowTotal(s);
  }

  /** Any holder list with a positive balance has a coefficient in [0, 10000). */
  lemma GiniRange(values: seq<int>, i: nat)
    requires i < |values| && values[i] > 0
    ensures Gini(values).Some? && 0 <= Gini(values).value < 10_000
  {
    PositiveCounts(values, values[i]);
    GiniIsPairwise(values);
    var p := Positive(values);
    assert p != [] by {
      assert values[i] in multiset(values);
    }
    PairsBelowTotal(p);
    FloorIs(PairDistance(p) * 10_000, |p| * Sum(p), 0);
    FloorIs(PairDistance(p) * 10_000, |p| * Sum(p), 10_000);
  }

  // ---------------------------------------------------------------- scaling

  function Scale(c: int, s: seq<int>): seq<int> {
    if s == [] then [] else [c * s[0]] + Scale(c, s[1..])
  }

  lemma {:induction false} ScaleParts(c: int, s: seq<int>)
    requires c > 0
    ensures Positive(Scale(c, s)) == Scale(c, Positive(s))
    ensures Sum(Scale(c, s)) == c * Sum(s) && |Scale(c, s)| == |s|
  {
    if s != [] {
      ScaleParts(c, s[1..]);
      SignOf(c, s[0]);
      assert c * (s[0] + Sum(s[1..])) == c * s[0] + c * Sum(s[1..]);
      assert Scale(c, s)[1..] == Scale(c, s[1..]);
    }
  }

  lemma SignOf(c: int, x: int)
    requires c > 0
    ensures c * x > 0 <==> x > 0
  {
    if x > 0 { Product(c, x); } else { assert c * x <= 0; }
  }

  lemma {:induction false} ScaleDistance(c: int, x: int, s: seq<int>)
    requires c > 0
    ensures DistanceTo(c * x, Scale(c, s)) == c * DistanceTo(x, s)
  {
    if s != [] {
      ScaleDistance(c, x, s[1..]);
      assert c * x - c * s[0] == c * (x - s[0]);
      SignOf(c, x - s[0]);
      SignOf(c, s[0] - x);
      assert c * (s[0] - x) == -(c * (x - s[0]));
      assert Abs(c * x - c * s[0]) == c * Abs(x - s[0]);
      assert c * (Abs(x - s[0]) + DistanceTo(x, s[1..])) == c * Abs(x - s[0]) + c * DistanceTo(x, s[1..]);
      assert Scale(c, s)[1..] == Scale(c, s[1..]);
    }
  }

  lemma {:induction false} ScalePairs(c: int, s: seq<int>)
    requires c > 0
    ensures PairDistance(Scale(c, s)) == c * PairDistance(s)
  {
    if s != [] {
      ScalePairs(c, s[1..]);
      ScaleDistance(c, s[0], s[1..]);
      assert Scale(c, s)[1..] == Scale(c, s[1..]);
      assert c * (DistanceTo(s[0], s[1..]) + PairDistance(s[1..]))
             == c * DistanceTo(s[0], s[1..]) + c * PairDistance(s[1..]);
    }
  }

  /** Counting the balances in a smaller unit changes nothing. */
  lemma GiniIgnoresScale(c: int, values: seq<int>)
    requires c > 0
    ensures Gini(Scale(c, values)) == Gini(values)
  {
    var p := Positive(values);
    GiniIsPairwise(values);
    GiniIsPairwise(Scale(c, values));
    ScaleParts(c, values);
    ScaleParts(c, p);
    ScalePairs(c, p);
    if p != [] {
      ScaledBps(c, PairDistance(p), |p|, Sum(p));
    }
  }

  lemma ScaledBps(c: int, x: int, n: int, t: int)
    requires c > 0 && n * t > 0
    ensures n * (c * t) > 0 && Bps(c * x, n * (c * t)) == Bps(x, n * t)
  {
    assert n * (c * t) == c * (n * t) && c * x * 10_000 == c * (x * 10_000);
    FloorScale(c, x * 10_000, n * t);
  }

  // ---------------------------------------------------------------- transfers

  lemma {:induction false} Spread(a: int, b: int, d: int, s: seq<int>)
    requires a <= b && d >= 0
    ensures DistanceTo(a, s) + DistanceTo(b, s) <= DistanceTo(a - d, s) + DistanceTo(b + d, s)
  {
    if s != [] {
      Spread(a, b, d, s[1..]);
    }
  }

  lemma TwoAndRest(a: int, b: int, rest: seq<int>)
    ensures PairDistance([a, b] + rest) == Abs(a - b) + DistanceTo(a, rest) + DistanceTo(b, rest) + PairDistance(rest)
    ensures Sum([a, b] + rest) == a + b + Sum(rest)
    ensures a > 0 && b > 0 ==> Positive([a, b] + rest) == [a, b] + Positive(rest)
  {
    hide Sum, PairDistance, DistanceTo, Positive;
    assert [a, b] + rest == [a] + ([b] + rest) && [a] + ([b] + Positive(rest)) == [a, b] + Positive(rest);
    OneAndRest(a, [b] + rest, a);
    OneAndRest(b, rest, a);
  }

  lemma OneAndRest(x: int, rest: seq<int>, y: int)
    ensures Sum([x] + rest) == x + Sum(rest)
    ensures PairDistance([x] + rest) == DistanceTo(x, rest) + PairDistance(rest)
    ensures DistanceTo(y, [x] + rest) == Abs(y - x) + DistanceTo(y, rest)
    ensures x > 0 ==> Positive([x] + rest) == [x] + Positive(rest)
  {
    assert ([x] + rest)[1..] == rest;
  }

  /** What two holders contribute to the pairwise differences, beside the rest. */
  function PairsWith(a: int, b: int, r: seq<int>): int {
    Abs(a - b) + DistanceTo(a, r) + DistanceTo(b, r) + PairDistance(r)
  }

  lemma GiniByParts(values: seq<int>, p: seq<int>, n: int, total: int, distance: int)
    requires p == Positive(values) && p != [] && n == |p| && total == Sum(p) && distance == PairDistance(p)
    ensures n * total > 0 && Gini(values) == Some(Bps(distance, n * total))
  {
    GiniIsPairwise(values);
  }

  lemma BpsMonotone(x: int, y: int, whole: int)
    requires x <= y && whole > 0
    ensures Bps(x, whole) <= Bps(y, whole)
  {
    FloorMonotone(x * 10_000, y * 10_000, whole);
  }

  lemma SpreadPairs(a: int, b: int, d: int, r: seq<int>)
    requires 0 <= d <= a <= b
    ensures PairsWith(a, b, r) <= PairsWith(a - d, b + d, r)
  {
    Spread(a, b, d, r);
  }

  /** The denominator for two holders with `pair` between them, beside the positive balances `r`. */
  function Whole(r: seq<int>, pair: int): int {
    (|r| + 2) * (pair + Sum(r))
  }

  /** A list by two of its holders and the positive balances of the rest, in any order. */
  lemma GiniOfTwoAndRest(values: seq<int>, a: int, b: int, rest: seq<int>)
    requires a > 0 && b > 0 && multiset(values) == multiset([a, b] + rest)
    ensures var r := Positive(rest);
            Whole(r, a + b) > 0 && Gini(values) == Some(Bps(PairsWith(a, b, r), Whole(r, a + b)))
  {
    hide Gini, Positive, Sum, PairDistance, DistanceTo, Bps, Abs;
    var r := Positive(rest);
    GiniIgnoresOrder(values, [a, b] + rest);
    TwoAndRest(a, b, rest);
    TwoAndRest(a, b, r);
    GiniByParts([a, b] + rest, [a, b] + r, |r| + 2, a + b + Sum(r), PairsWith(a, b, r));
  }

  /**
   * Moving value from a poorer holder to a no-poorer one never lowers the coefficient,
   * whatever else the list holds and in whatever order, as long as the giver keeps something.
   */
  lemma TransferToRicherNeverLowers(values: seq<int>, after: seq<int>, poorer: int, richer: int, rest: seq<int>, d: int)
    requires 0 <= d < poorer <= richer
    requires multiset(values) == multiset([poorer, richer] + rest)
    requires multiset(after) == multiset([poorer - d, richer + d] + rest)
    ensures Gini(values).Some? && Gini(after).Some? && Gini(values).value <= Gini(after).value
  {
    hide *;
    var r := Positive(rest);
    GiniOfTwoAndRest(values, poorer, richer, rest);
    GiniOfTwoAndRest(after, poorer - d, richer + d, rest);
    assert poorer - d + (richer + d) == poorer + richer;
    SpreadPairs(poorer, richer, d, r);
    BpsMonotone(PairsWith(poorer, richer, r), PairsWith(poorer - d, richer + d, r), Whole(r, poorer + richer));
  }

  // ---------------------------------------------------------------- allocations by class

  datatype AddressClass =
    | ZeroBurn | Pool | Bridge | Treasury | Exchange | Deployer | Team | Contract | Launchpad | BondingCurve | Unknown

  /** Addresses are compared in lower case; here they are already. */
  datatype Balance = Balance(address: nat, amount: int)

  function ClassOf(classes: map<nat, AddressClass>, address: nat): AddressClass {
    if address in classes then classes[address] else Unknown
  }

  /** What the holders of class `c` hold in positive balances. */
  function HeldBy(balances: seq<Balance>, classes: map<nat, AddressClass>, c: AddressClass): int
    decreases |balances|
  {
    if balances == [] then 0
    else
      var front, b := balances[..|balances| - 1], balances[|balances| - 1];
      HeldBy(front, classes, c) + if b.amount > 0 && ClassOf(classes, b.address) == c then b.amount else 0
  }

  function HeldInAll(balances: seq<Balance>): int
    decreases |balances|
  {
    if balances == [] then 0
    else
      var front, b := balances[..|balances| - 1], balances[|balances| - 1];
      HeldInAll(front) + if b.amount > 0 then b.amount else 0
  }

  lemma HeldByOneMore(balances: seq<Balance>, i: nat, classes: map<nat, AddressClass>, c: AddressClass)
    requires i < |balances|
    ensures HeldBy(balances[..i + 1], classes, c) ==
            HeldBy(balances[..i], classes, c) +
              if balances[i].amount > 0 && ClassOf(classes, balances[i].address) == c then balances[i].amount else 0
  {
    assert balances[..i + 1][..i] == balances[..i];
  }

  /** The accumulation loop of `analyzeHolders`: every class gets what its holders hold. */
  method Allocate(balances: seq<Balance>, classes: map<nat, AddressClass>) returns (allocations: map<AddressClass, int>)
    ensures forall c: AddressClass :: c in allocations && allocations[c] == HeldBy(balances, classes, c)
  {
    allocations := map[
      ZeroBurn := 0, Pool := 0, Bridge := 0, Treasury := 0, Exchange := 0, Deployer := 0,
      Team := 0, Contract := 0, Launchpad := 0, BondingCurve := 0, Unknown := 0];
    forall c: AddressClass ensures c in allocations && allocations[c] == 0 {
      match c { case ZeroBurn => case _ => }
    }
    for i := 0 to |balances|
      invariant forall c: AddressClass :: c in allocations && allocations[c] == HeldBy(balances[..i], classes, c)
    {
      forall c: AddressClass { HeldByOneMore(balances, i, classes, c); }
      var b := balances[i];
      if b.amount > 0 {
        var c := ClassOf(classes, b.address);
        allocations := allocations[c := allocations[c] + b.amount];
      }
    }
    assert balances[..|balances|] == balances;
  }

  /** Nothing held is lost or counted twice: the classes share out the whole of the positive balances. */
  lemma {:induction false} AllocationsAddUp(balances: seq<Balance>, classes: map<nat, AddressClass>)
    ensures HeldBy(balances, classes, ZeroBurn) + HeldBy(balances, classes, Pool) + HeldBy(balances, classes, Bridge) +
            HeldBy(balances, classes, Treasury) + HeldBy(balances, classes, Exchange) +
            HeldBy(balances, classes, Deployer) + HeldBy(balances, classes, Team) +
            HeldBy(balances, classes, Contract) + HeldBy(balances, classes, Launchpad) +
            HeldBy(balances, classes, BondingCurve) + HeldBy(balances, classes, Unknown) == HeldInAll(balances)
    decreases |balances|
  {
    if balances != [] {
      AllocationsAddUp(balances[..|balances| - 1], classes);
    }
  }
}
