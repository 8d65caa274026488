/**
 * The resumable factory walk: pools are inserted if absent, the cursor is stored after
 * each batch, and the process may die between any two database statements.
 */
module PoolBackfill {
  import opened Prelude
  import opened Arithmetic

  /** Addresses are lower-cased where they are compared; here they are already. */
  type Address = nat

  datatype Pool = Pool(token0: Address, token1: Address, origin: nat)

  /** What the chain and the provenance index answer, once and for all, about a registry index. */
  datatype Answer =
    | Unreadable                                   // the pair or its tokens could not be read
    | NoOrigin(address: Address)                   // no creation record: left for a later pass
    | Foreign(address: Address)                    // created by a factory this deployment does not know
    | Found(address: Address, pool: Pool)

  type Registry = seq<Answer>

  type Pools = map<Address, Pool>

  /** `insertPools` for one row: insert, on conflict do nothing. */
  function InsertPool(pools: Pools, a: Answer): Pools {
    if a.Found? && a.address !in pools then pools[a.address := a.pool] else pools
  }

  /** Every index of a stretch of the registry, in order. */
  function InsertAll(pools: Pools, answers: Registry): Pools
    decreases |answers|
  {
    if answers == [] then pools
    else InsertPool(InsertAll(pools, answers[..|answers| - 1]), answers[|answers| - 1])
  }

  lemma {:induction false} InsertAllKeys(pools: Pools, answers: Registry, x: Address)
    ensures x in InsertAll(pools, answers) <==>
            x in pools || exists i :: 0 <= i < |answers| && answers[i].Found? && answers[i].address == x
    ensures x in pools ==> InsertAll(pools, answers)[x] == pools[x]
    decreases |answers|
  {
    if answers != [] {
      var front, a := answers[..|answers| - 1], answers[|answers| - 1];
      InsertAllKeys(pools, front, x);
      if i :| 0 <= i < |answers| && answers[i].Found? && answers[i].address == x {
        if i < |front| {
          assert front[i] == answers[i];
        }
      }
      if x in InsertAll(pools, front) && x !in pools {
        var i :| 0 <= i < |front| && front[i].Found? && front[i].address == x;
        assert answers[i] == front[i];
      }
    }
  }

  lemma {:induction false} InsertAllSplit(pools: Pools, a: Registry, b: Registry)
    ensures InsertAll(pools, a + b) == InsertAll(InsertAll(pools, a), b)
    decreases |b|
  {
    if b == [] {
      assert a + b == a;
    } else {
      assert (a + b)[..|a + b| - 1] == a + b[..|b| - 1];
      InsertAllSplit(pools, a, b[..|b| - 1]);
    }
  }

  /** Inserting again what is already there changes nothing. */
  lemma {:induction false} InsertAllAgain(pools: Pools, answers: Registry)
    requires forall i :: 0 <= i < |answers| && answers[i].Found? ==> answers[i].address in pools
    ensures InsertAll(pools, answers) == pools
    decreases |answers|
  {
    if answers != [] {
      var front := answers[..|answers| - 1];
      assert forall i :: 0 <= i < |front| ==> front[i] == answers[i];
      InsertAllAgain(pools, front);
    }
  }

  /** A replay over a stretch partly inserted before: the first insertion of each address stands. */
  lemma ReplayFrom(pools: Pools, answers: Registry, done: nat)
    requires done <= |answers|
    ensures InsertAll(InsertAll(pools, answers[..done]), answers) == InsertAll(pools, answers)
  {
    var part, rest := answers[..done], answers[done..];
    var reached := InsertAll(pools, part);
    assert answers == part + rest;
    forall i | 0 <= i < |part| && part[i].Found? ensures part[i].address in reached {
      InsertAllKeys(pools, part, part[i].address);
    }
    InsertAllAgain(reached, part);
    InsertAllSplit(reached, part, rest);
    InsertAllSplit(pools, part, rest);
  }

  lemma InsertNothing(pools: Pools)
    ensures InsertAll(pools, []) == pools
  {
  }

  lemma InsertNext(pools: Pools, registry: Registry, from: nat, i: nat)
    requires from <= i < |registry|
    ensures InsertAll(pools, registry[from..i + 1]) == InsertPool(InsertAll(pools, registry[from..i]), registry[i])
  {
    assert registry[from..i + 1][..i - from] == registry[from..i];
  }

  /** How many rows of a stretch are sent to be inserted: those found that were not known when the walk began. */
  function CountNew(known: set<Address>, answers: Registry): nat
    decreases |answers|
  {
    if answers == [] then 0
    else
      var a := answers[|answers| - 1];
      CountNew(known, answers[..|answers| - 1]) + if a.Found? && a.address !in known then 1 else 0
  }

  lemma CountNext(known: set<Address>, registry: Registry, from: nat, i: nat)
    requires from <= i < |registry|
    ensures CountNew(known, registry[from..i + 1]) == CountNew(known, registry[from..i]) +
            if registry[i].Found? && registry[i].address !in known then 1 else 0
  {
    assert registry[from..i + 1][..i - from] == registry[from..i];
  }

  /** Where so many whole batches end. */
  function Boundary(from: nat, batches: nat, batchSize: nat): nat {
    from + batches * batchSize
  }

  lemma NextBoundary(from: nat, batches: nat, batchSize: nat)
    ensures Boundary(from, 0, batchSize) == from
    ensures Boundary(from, batches + 1, batchSize) == Boundary(from, batches, batchSize) + batchSize
  {
  }

  /**
   * Where a walk stands after so many writes: `batches` whole batches recorded, and the rows of the
   * registry inserted up to `index` in the batch behind them.
   */
  ghost predicate Stands(before: Pools, after: Pools, registry: Registry, from: nat, cursor: nat, index: nat,
                         batches: nat, batchSize: nat, writes: nat) {
    && from <= cursor <= index <= |registry|
    && cursor == Boundary(from, batches, batchSize)
    && index <= cursor + batchSize
    && after == InsertAll(before, registry[from..index])
    && writes == CountNew(before.Keys, registry[from..index]) + batches
  }

  /** The stored tables: pools and the checkpoint row of the walk. */
  class Store {
    var pools: Pools
    var cursor: Option<nat>

    constructor (pools: Pools, cursor: Option<nat>)
      ensures this.pools == pools && this.cursor == cursor
    {
      this.pools, this.cursor := pools, cursor;
    }

    function ReadCursor(): nat
      reads this
    {
      if cursor.None? then 0 else cursor.value
    }
  }

  class Backfill {
    const store: Store
    const registry: Registry
    const batchSize: nat

    /** What the run is bound to end with, from where it stands. */
    ghost const goal: Pools

    constructor (store: Store, registry: Registry, batchSize: nat, ghost goal: Pools)
      requires batchSize > 0 && store.ReadCursor() <= |registry|
      requires goal == InsertAll(store.pools, registry[store.ReadCursor()..])
      ensures this.store == store && this.registry == registry && this.batchSize == batchSize && this.goal == goal
    {
      this.store, this.registry, this.batchSize, this.goal := store, registry, batchSize, goal;
    }

    /** Finishing from the stored cursor would reach the goal. */
    ghost predicate OnTrack()
      reads this, store
    {
      batchSize > 0 && store.ReadCursor() <= |registry| &&
          InsertAll(store.pools, registry[store.ReadCursor()..]) == goal
    }

    /** One batch, up to the write at which the process dies; `left` writes are left to it. */
    method Batch(known: set<Address>, ghost before: Pools, ghost from: nat, cursor: nat, end: nat, left0: nat)
      returns (died: bool, left: nat, scanned: nat, inserted: nat, ghost index: nat, ghost seen: set<nat>)
      requires from <= cursor <= end <= |registry| && known == before.Keys && known <= store.pools.Keys
      requires store.pools == InsertAll(before, registry[from..cursor])
      modifies store`pools
      ensures cursor <= index <= end && scanned <= end - cursor && known <= store.pools.Keys
      ensures if died then left == 0 else index == end && scanned == end - cursor
      ensures store.pools == InsertAll(old(store.pools), registry[cursor..index])
      ensures store.pools == InsertAll(before, registry[from..index])
      ensures left + CountNew(known, registry[from..index]) == left0 + CountNew(known, registry[from..cursor])
      ensures forall i :: cursor <= i < index ==> i in seen
      ensures left0 - left <= index - cursor && inserted == |store.pools| - |old(store.pools)|
    {
      hide InsertAll, CountNew;
      died, left, scanned, inserted, seen := false, left0, 0, 0, {};
      ghost var start := store.pools;
      var i := cursor;
      InsertNothing(start);
      assert registry[cursor..cursor] == [];
      while i < end
        invariant cursor <= i <= end && known <= store.pools.Keys
        invariant store.pools == InsertAll(start, registry[cursor..i])
        invariant left <= left0 <= left + (i - cursor)
        invariant forall j :: cursor <= j < i ==> j in seen
        invariant left + CountNew(known, registry[from..i]) == left0 + CountNew(known, registry[from..cursor])
        invariant scanned == i - cursor && inserted == |store.pools| - |start|
      {
        var a := registry[i];
        seen := seen + {i};
        InsertNext(start, registry, cursor, i);
        CountNext(known, registry, from, i);
        // a known pool, an unreadable pair, one without origin or of a foreign factory: nothing to insert
        if a.Found? && a.address !in known {
          if left == 0 {
            InsertedSince(before, from, cursor, i);
            died, index := true, i;
            return;
          }
          left := left - 1;
          if a.address !in store.pools {
            store.pools := store.pools[a.address := a.pool];
            inserted := inserted + 1;
          }
        }
        scanned, i := scanned + 1, i + 1;
      }
      InsertedSince(before, from, cursor, end);
      index := end;
    }

    /**
     * One process: `run`, which dies after `fuel` database writes. However early it dies,
     * what it leaves is still on track, the cursor has not gone back, and it has read every
     * index that the cursor has passed; and it dies no earlier than its writes allow. A process
     * that finishes reports what it read and stored.
     */
    method Run(fuel: nat)
      returns (finished: bool, scanned: nat, inserted: nat, ghost seen: set<nat>, ghost index: nat, ghost batches: nat)
      requires OnTrack()
      modifies store
      ensures OnTrack() && store.ReadCursor() >= old(store.ReadCursor())
      ensures finished ==> store.pools == goal && store.ReadCursor() == |registry|
      ensures !finished ==>
                Stands(old(store.pools), store.pools, registry, old(store.ReadCursor()), store.ReadCursor(), index,
                       batches, batchSize, fuel) &&
                fuel < 2 * |registry| + 1
      ensures forall i :: old(store.ReadCursor()) <= i < store.ReadCursor() ==> i in seen
      ensures finished ==>
              scanned == |registry| - old(store.ReadCursor()) && inserted == |store.pools| - |old(store.pools)|
    {
      hide InsertAll, CountNew, Boundary;
      scanned, inserted, seen, index, batches := 0, 0, {}, 0, 0;
      ghost var from, before := store.ReadCursor(), store.pools;
      var total := |registry|;
      var cursor := store.ReadCursor();
      InsertNothing(store.pools);
      if cursor >= total {
        assert registry[cursor..] == [];
        finished := true;
        return;
      }
      var known := store.pools.Keys;
      var left: nat := fuel;
      assert registry[from..from] == [];
      NothingNew(known);
      NextBoundary(from, 0, batchSize);
      while cursor < total
        invariant from <= cursor == store.ReadCursor() <= total && OnTrack()
        invariant known == before.Keys && known <= store.pools.Keys
        invariant left + CountNew(known, registry[from..cursor]) + batches == fuel && fuel - left <= 2 * (cursor - from)
        invariant store.pools == InsertAll(before, registry[from..cursor])
        invariant cursor < total ==> cursor == Boundary(from, batches, batchSize)
        invariant scanned == cursor - from && inserted == |store.pools| - |before|
        invariant forall i :: from <= i < cursor ==> i in seen
        decreases total - cursor
      {
        var end := Min(cursor + batchSize, total);
        ghost var start := store.pools;
        var died, more, added;
        ghost var these;
        died, left, more, added, index, these := Batch(known, before, from, cursor, end, left);
        scanned, inserted, seen := scanned + more, inserted + added, seen + these;
        InterruptedInBatch(start, cursor, index);
        if died || left == 0 {
          finished := false;
          return;
        }
        NextBoundary(from, batches, batchSize);
        left, batches := left - 1, batches + 1;
        BatchDone(start, cursor, end);
        store.cursor := Some(end);
        cursor := end;
      }
      assert registry[cursor..] == [];
      InsertNothing(store.pools);
      finished := true;
    }

    lemma NothingNew(known: set<Address>)
      ensures CountNew(known, []) == 0
    {
    }

    lemma InsertedSince(before: Pools, from: nat, cursor: nat, i: nat)
      requires from <= cursor <= i <= |registry|
      ensures InsertAll(InsertAll(before, registry[from..cursor]), registry[cursor..i])
           == InsertAll(before, registry[from..i])
    {
      assert registry[from..i] == registry[from..cursor] + registry[cursor..i];
      InsertAllSplit(before, registry[from..cursor], registry[cursor..i]);
    }

    /** Dying inside a batch: the batch is read again, and its first insertions stand. */
    lemma InterruptedInBatch(start: Pools, cursor: nat, index: nat)
      requires cursor <= index <= |registry|
      ensures InsertAll(InsertAll(start, registry[cursor..index]), registry[cursor..])
              == InsertAll(start, registry[cursor..])
    {
      assert registry[cursor..][..index - cursor] == registry[cursor..index];
      ReplayFrom(start, registry[cursor..], index - cursor);
    }

    lemma BatchDone(start: Pools, cursor: nat, end: nat)
      requires cursor <= end <= |registry|
      ensures InsertAll(InsertAll(start, registry[cursor..end]), registry[end..])
              == InsertAll(start, registry[cursor..])
    {
      assert registry[cursor..] == registry[cursor..end] + registry[end..];
      InsertAllSplit(start, registry[cursor..end], registry[end..]);
    }

    /**
     * Resumption: any number of processes, each dying wherever it likes, followed by one
     * that survives, leaves exactly the pools and the cursor of an undisturbed run, and among
     * them they have read every index from the first cursor on.
     */
    method RunThroughCrashes(fuels: seq<nat>) returns (ghost seen: set<nat>)
      requires OnTrack()
      modifies store
      ensures store.pools == goal && (registry != [] ==> store.cursor == Some(|registry|))
      ensures forall i :: old(store.ReadCursor()) <= i < |registry| ==> i in seen
      ensures old(store.cursor).None? ==>
                store.pools == InsertAll(old(store.pools), registry) && forall i :: 0 <= i < |registry| ==> i in seen
    {
      seen := {};
      for i := 0 to |fuels|
        invariant OnTrack() && old(store.ReadCursor()) <= store.ReadCursor()
        invariant forall i :: old(store.ReadCursor()) <= i < store.ReadCursor() ==> i in seen
      {
        ghost var more, index, batches;
        var finished, scanned, inserted;
        finished, scanned, inserted, more, index, batches := Run(fuels[i]);
        seen := seen + more;
      }
      ghost var more, index, batches;
      var finished, scanned, inserted;
      finished, scanned, inserted, more, index, batches := Run(2 * |registry| + 1);
      seen := seen + more;
    }
  }

  /** What an undisturbed walk stores: the pools it had, and for each new address the first answer that found it. */
  lemma {:induction false} FirstAnswerStands(pools: Pools, answers: Registry, x: Address, i: nat)
    requires i < |answers| && answers[i].Found? && answers[i].address == x && x !in pools
    requires forall j :: 0 <= j < i && answers[j].Found? ==> answers[j].address != x
    ensures x in InsertAll(pools, answers) && InsertAll(pools, answers)[x] == answers[i].pool
    decreases |answers|
  {
    var front := answers[..|answers| - 1];
    if i == |front| {
      InsertAllKeys(pools, front, x);
      assert forall j :: 0 <= j < |front| ==> front[j] == answers[j];
    } else {
      assert front[i] == answers[i] && forall j :: 0 <= j < i ==> front[j] == answers[j];
      FirstAnswerStands(pools, front, x, i);
    }
  }
}
