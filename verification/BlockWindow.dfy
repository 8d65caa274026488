/**
 * The concurrent window fetch: workers share a cursor and a results array, and the event
 * loop resumes any of them at any await. Whatever it picks, the result is the sequential one.
 */
module BlockWindow {
  import opened Prelude
  import opened Arithmetic

  /** A block's data, by identity. */
  type Data = nat

  /** What fetching a height comes to: its data, null, or a thrown error. */
  datatype Fetch = Fetched(data: Data) | Missing | Throws

  datatype Pc = Ready | Fetching(index: nat) | Finished

  // ---------------------------------------------------------------- the sequential result

  /** Fetch one height after another up to the first hole. */
  function Sequential(from: nat, to: int, fetch: nat -> Fetch): seq<Data>
    decreases to - from
  {
    if from > to || !fetch(from).Fetched? then []
    else [fetch(from).data] + Sequential(from + 1, to, fetch)
  }

  /** The blocks are the data at consecutive heights from `from`. */
  ghost predicate Reads(from: nat, fetch: nat -> Fetch, blocks: seq<Data>) {
    forall i: nat :: i < |blocks| ==> fetch(from + i) == Fetched(blocks[i])
  }

  lemma ReadsNothing(from: nat, fetch: nat -> Fetch)
    ensures Reads(from, fetch, [])
  {
  }

  lemma ReadsCons(from: nat, fetch: nat -> Fetch, blocks: seq<Data>)
    requires blocks != []
    ensures Reads(from, fetch, blocks) <==> fetch(from) == Fetched(blocks[0]) && Reads(from + 1, fetch, blocks[1..])
  {
    var rest := blocks[1..];
    if Reads(from, fetch, blocks) {
      assert fetch(from + 0) == Fetched(blocks[0]);
      forall i: nat | i < |rest|
        ensures fetch(from + 1 + i) == Fetched(rest[i])
      {
        assert fetch(from + (i + 1)) == Fetched(blocks[i + 1]);
      }
    }
    if fetch(from) == Fetched(blocks[0]) && Reads(from + 1, fetch, rest) {
      forall i: nat | i < |blocks|
        ensures fetch(from + i) == Fetched(blocks[i])
      {
        assert i > 0 ==> fetch(from + 1 + (i - 1)) == Fetched(rest[i - 1]);
      }
    }
  }

  /** It is the longest prefix of the window without a hole, in ascending order. */
  lemma {:induction false} SequentialIsLongestPrefix(from: nat, to: int, fetch: nat -> Fetch, blocks: seq<Data>)
    ensures blocks == Sequential(from, to, fetch) <==>
            from + |blocks| <= (if from > to then from else to + 1) &&
            Reads(from, fetch, blocks) &&
            (from + |blocks| <= to ==> !fetch(from + |blocks|).Fetched?)
    decreases |blocks|
  {
    hide Reads;
    if blocks == [] {
      ReadsNothing(from, fetch);
    } else {
      var rest := blocks[1..];
      ReadsCons(from, fetch, blocks);
      assert blocks == [blocks[0]] + rest;
      if from <= to {
        SequentialIsLongestPrefix(from + 1, to, fetch, rest);
      }
    }
  }

  // ---------------------------------------------------------------- the schedule

  function Weight(pc: Pc): nat {
    match pc case Finished => 0 case Ready => 1 case Fetching(_) => 2
  }

  function Weights(pcs: seq<Pc>): nat {
    if pcs == [] then 0 else Weight(pcs[0]) + Weights(pcs[1..])
  }

  lemma {:induction false} WeightsUpdate(pcs: seq<Pc>, w: nat, pc: Pc)
    requires w < |pcs|
    ensures Weights(pcs[w := pc]) == Weights(pcs) - Weight(pcs[w]) + Weight(pc)
  {
    if w > 0 {
      WeightsUpdate(pcs[1..], w - 1, pc);
      assert pcs[w := pc][1..] == pcs[1..][w - 1 := pc];
    } else {
      assert pcs[w := pc][1..] == pcs[1..];
    }
  }

  /** The indices claimed and not yet stored. */
  ghost predicate InFlight(pcs: seq<Pc>, i: nat) {
    exists w :: 0 <= w < |pcs| && pcs[w] == Fetching(i)
  }

  /** Every index below the cursor is claimed by one worker, or its fetch is stored. */
  ghost predicate Progress(n: nat, from: nat, fetch: nat -> Fetch, cursor: nat, pcs: seq<Pc>,
                           results: seq<Option<Data>>, log: seq<nat>) {
    |results| == n &&
    (forall w :: 0 <= w < |pcs| && pcs[w].Fetching? ==> pcs[w].index < Min(cursor, n)) &&
    (forall v, w :: 0 <= v < w < |pcs| && pcs[v].Fetching? && pcs[w].Fetching? ==> pcs[v].index != pcs[w].index) &&
    (forall w :: 0 <= w < |pcs| && pcs[w].Finished? ==> cursor >= n) &&
    (forall i: nat :: i < Min(cursor, n) && !InFlight(pcs, i) ==>
      !fetch(from + i).Throws? &&
          results[i] == (if fetch(from + i).Fetched? then Some(fetch(from + i).data) else None)) &&
    // heights were claimed in order, each once
    |log| == Min(cursor, n) && (forall i :: 0 <= i < |log| ==> log[i] == from + i)
  }

  lemma ProgressStart(n: nat, from: nat, fetch: nat -> Fetch, pcs: seq<Pc>, results: seq<Option<Data>>)
    requires |results| == n && forall w :: 0 <= w < |pcs| ==> pcs[w].Ready?
    ensures Progress(n, from, fetch, 0, pcs, results, [])
  {
  }

  lemma ClaimKeeps(n: nat, from: nat, fetch: nat -> Fetch, cursor: nat, pcs: seq<Pc>, results: seq<Option<Data>>,
                   log: seq<nat>, w: nat)
    requires Progress(n, from, fetch, cursor, pcs, results, log) && w < |pcs| && pcs[w].Ready?
    ensures var pcs' := pcs[w := if cursor < n then Fetching(cursor) else Finished];
            Progress(n, from, fetch, cursor + 1, pcs', results, if cursor < n then log + [from + cursor] else log) &&
            2 * Max(0, n - (cursor + 1)) + Weights(pcs') < 2 * Max(0, n - cursor) + Weights(pcs)
  {
    var pcs' := pcs[w := if cursor < n then Fetching(cursor) else Finished];
    WeightsUpdate(pcs, w, if cursor < n then Fetching(cursor) else Finished);
    assert pcs'[w] == if cursor < n then Fetching(cursor) else Finished;
    forall i: nat | InFlight(pcs, i) ensures InFlight(pcs', i) {
      var v :| 0 <= v < |pcs| && pcs[v] == Fetching(i);
      assert pcs'[v] == Fetching(i);
    }
    assert cursor < n ==> InFlight(pcs', cursor);
  }

  lemma StoreKeeps(n: nat, from: nat, fetch: nat -> Fetch, cursor: nat, pcs: seq<Pc>, results: seq<Option<Data>>,
                   log: seq<nat>, w: nat)
    requires Progress(n, from, fetch, cursor, pcs, results, log) && w < |pcs| && pcs[w].Fetching?
    requires !fetch(from + pcs[w].index).Throws?
    ensures pcs[w].index < |results|
    ensures var answer := fetch(from + pcs[w].index);
            var results' := results[pcs[w].index := if answer.Fetched? then Some(answer.data) else None];
            Progress(n, from, fetch, cursor, pcs[w := Ready], results', log) &&
            Weights(pcs[w := Ready]) < Weights(pcs)
  {
    var index := pcs[w].index;
    var pcs' := pcs[w := Ready];
    WeightsUpdate(pcs, w, Ready);
    forall i: nat | i != index && InFlight(pcs, i) ensures InFlight(pcs', i) {
      var v :| 0 <= v < |pcs| && pcs[v] == Fetching(i);
      assert pcs'[v] == Fetching(i);
    }
  }

  lemma FetchingInside(n: nat, from: nat, fetch: nat -> Fetch, cursor: nat, pcs: seq<Pc>, results: seq<Option<Data>>,
                       log: seq<nat>, w: nat)
    requires Progress(n, from, fetch, cursor, pcs, results, log) && w < |pcs| && pcs[w].Fetching?
    ensures pcs[w].index < n == |results|
  {
  }

  /** When every worker has returned, every result is in. */
  lemma AllStored(n: nat, from: nat, fetch: nat -> Fetch, cursor: nat, pcs: seq<Pc>, results: seq<Option<Data>>,
                  log: seq<nat>)
    requires Progress(n, from, fetch, cursor, pcs, results, log) && |pcs| > 0
    requires forall w :: 0 <= w < |pcs| ==> pcs[w].Finished?
    ensures forall i: nat :: i < n ==>
              !fetch(from + i).Throws? &&
                  results[i] == (if fetch(from + i).Fetched? then Some(fetch(from + i).data) else None)
    ensures forall h: nat :: from <= h < from + n ==> !fetch(h).Throws?
    ensures |log| == n && forall i :: 0 <= i < n ==> log[i] == from + i
  {
    assert pcs[0].Finished?;
    forall i: nat | i < n
      ensures !fetch(from + i).Throws? &&
              results[i] == (if fetch(from + i).Fetched? then Some(fetch(from + i).data) else None)
    {
      assert !InFlight(pcs, i);
    }
    forall h: nat | from <= h < from + n ensures !fetch(h).Throws? {
      assert !InFlight(pcs, h - from);
      assert from + (h - from) == h;
    }
  }

  /**
   * `fetchBlockWindow`, for every number of workers and every schedule: the longest
   * hole-free prefix, every height of the window claimed exactly once, and a rejection
   * only when some height's fetch throws.
   */
  method FetchBlockWindow(from: nat, to: int, concurrency: int, fetch: nat -> Fetch)
    returns (blocks: Option<seq<Data>>, ghost claimed: seq<nat>)
    ensures blocks.Some? ==> blocks.value == Sequential(from, to, fetch)
    ensures blocks.Some? ==>
              |claimed| == Max(0, to + 1 - from) && (forall i :: 0 <= i < |claimed| ==> claimed[i] == from + i)
    ensures blocks.None? <==> exists h: nat :: from <= h <= to && fetch(h).Throws?
  {
    hide Progress, Weights, InFlight, Sequential;
    var n: nat := Max(0, to + 1 - from);
    var results := new Option<Data>[n](_ => None);
    var cursor: nat := 0;
    var pcs := seq(Max(1, Min(concurrency, n)), _ => Ready);
    claimed := [];
    ProgressStart(n, from, fetch, pcs, results[..]);
    while exists w :: 0 <= w < |pcs| && !pcs[w].Finished?
      invariant |pcs| > 0 && Progress(n, from, fetch, cursor, pcs, results[..], claimed)
      decreases 2 * Max(0, n - cursor) + Weights(pcs)
    {
      var w :| 0 <= w < |pcs| && !pcs[w].Finished?;       // the event loop picks a worker
      match pcs[w] {
        case Ready =>
          ClaimKeeps(n, from, fetch, cursor, pcs, results[..], claimed, w);
          var index := cursor;
          cursor := cursor + 1;
          if index < n {
            claimed := claimed + [from + index];
          }
          pcs := pcs[w := if index < n then Fetching(index) else Finished];
        case Fetching(index) =>
          FetchingInside(n, from, fetch, cursor, pcs, results[..], claimed, w);
          var answer := fetch(from + index);
          if answer.Throws? {
            assert from <= from + index <= to;
            return None, claimed;
          }
          StoreKeeps(n, from, fetch, cursor, pcs, results[..], claimed, w);
          results[index] := if answer.Fetched? then Some(answer.data) else None;
          pcs := pcs[w := Ready];
      }
    }
    AllStored(n, from, fetch, cursor, pcs, results[..], claimed);
    var prefix := TakePrefix(results, from, to, fetch);
    return Some(prefix), claimed;
  }

  /** The final loop: results up to the first null. */
  method TakePrefix(results: array<Option<Data>>, from: nat, to: int, fetch: nat -> Fetch) returns (blocks: seq<Data>)
    requires results.Length == Max(0, to + 1 - from)
    requires forall i: nat :: i < results.Length ==>
               results[i] == (if fetch(from + i).Fetched? then Some(fetch(from + i).data) else None)
    ensures blocks == Sequential(from, to, fetch)
  {
    blocks := [];
    var i := 0;
    while i < results.Length && results[i].Some?
      invariant 0 <= i <= results.Length && |blocks| == i
      invariant forall k :: 0 <= k < i ==> fetch(from + k) == Fetched(blocks[k])
    {
      blocks := blocks + [results[i].value];
      i := i + 1;
    }
    SequentialIsLongestPrefix(from, to, fetch, blocks);
  }
}
