/**
 * Live mode in its own form: statements, local variables and loops, with the rest of the world
 * free to act at every await and every call free to fail. Its contracts are refinement, so that
 * what is proved of runs is true of it, and an account of what each turn has come to.
 */
module BlockIndexer {
  import opened Prelude
  import opened Arithmetic
  import opened IndexerModel
  import opened LiveAccount
  import IndexerCoverage

  lemma OneMoreEvent(cfg: Config, initial: Sys, events: seq<Event>, states: seq<Sys>, now: Sys, e: Event)
    requires |states| == |events| && Recorded(cfg, initial, events, states) && Run(cfg, initial, events) == Some(now)
    ensures Run(cfg, initial, events + [e]) == Next(cfg, now, e)
    ensures Recorded(cfg, initial, events + [e], states + [now])
  {
    hide Next;
    var all := events + [e];
    assert all[..|all| - 1] == events;
    forall k: nat | k < |all|
      ensures Run(cfg, initial, all[..k]) == Some((states + [now])[k])
    {
      assert k < |events| ==> all[..k] == events[..k];
      assert k == |events| ==> all[..k] == events;
    }
  }

  /** Before event `k` the run was in `states[k]`. */
  ghost predicate Recorded(cfg: Config, initial: Sys, events: seq<Event>, states: seq<Sys>)
    requires |states| == |events|
  {
    forall k: nat :: k < |events| ==> Run(cfg, initial, events[..k]) == Some(states[k])
  }

  /** The database and the provider, and the run that has led to their present state. */
  class World {
    const cfg: Config
    ghost const initial: Sys
    var db: Db
    var chain: Chain
    ghost var events: seq<Event>
    ghost var states: seq<Sys>
    ghost var now: Sys

    ghost predicate Valid()
      reads this
    {
      Run(cfg, initial, events) == Some(now) && now.db == db && now.chain == chain &&
      |states| == |events| && Recorded(cfg, initial, events, states)
    }

    constructor (cfg: Config, db: Db, chain: Chain, ghost workers: map<WorkerId, Worker>)
      ensures Valid() && this.cfg == cfg && initial == Sys(db, chain, workers) && events == []
      ensures this.db == db && this.chain == chain && now == initial
    {
      this.cfg, this.db, this.chain := cfg, db, chain;
      events, states, now, initial := [], [], Sys(db, chain, workers), Sys(db, chain, workers);
    }

    ghost predicate At(id: WorkerId, w: Worker)
      reads this
    {
      id in now.workers && now.workers[id] == w
    }

    /** An await: other workers and the provider do whatever they like, `me` nothing. */
    method Await(ghost me: WorkerId)
      requires Valid()
      modifies this
      ensures Valid() && old(events) <= events && old(states) <= states
      ensures forall w: Worker :: old(At(me, w)) ==> At(me, w)
    {
    }

    /** Worker `id`'s own atomic action: from `w`, it leaves the database and the worker as they are in `o`. */
    method Take(id: WorkerId, act: Act, ghost w: Worker, after: Db, ghost w': Worker)
      requires Valid() && At(id, w) && Step(cfg, db, chain, id, w, act) == Some(Outcome(after, w'))
      modifies this`db, this`events, this`states, this`now
      ensures Valid() && At(id, w') && db == after
      ensures events == old(events) + [Does(id, act)] && states == old(states) + [old(now)]
      ensures |events| == |states|
    {
      hide Step, Run, Recorded;
      OneMoreEvent(cfg, initial, events, states, now, Does(id, act));
      events, states, now := events + [Does(id, act)], states + [now], Next(cfg, now, Does(id, act)).value;
      db := after;
    }
  }

  /** A call that may throw; `:-` then leaves the enclosing statement list, as an exception does. */
  datatype Attempt<+T> = Thrown | Returned(value: T) {
    predicate IsFailure() { Thrown? }
    function PropagateFailure<U>(): Attempt<U> requires Thrown? { Thrown }
    function Extract(): T requires Returned? { value }
  }

  datatype Refusal = Again | Renewed | GivenUp

  datatype Backlog = Retry | Advanced

  datatype Ending = NotAcquired | Died | LeaseLost | Finished

  class LiveIndexer {
    const world: World
    const id: WorkerId
    const fate: nat -> Fate                 // of this process's calls, in the order in which it makes them
    var calls: nat
    var currentBlock: nat
    var lastBlockHash: Option<Hash>

    /** A process about to be started; what its variables hold does not matter yet. */
    constructor (world: World, id: WorkerId, fate: nat -> Fate, currentBlock: nat, lastBlockHash: Option<Hash>)
      requires world.Valid() && world.At(id, Worker(Stopped, currentBlock, lastBlockHash))
      ensures this.world == world && this.id == id && this.fate == fate && Holds(Stopped) && fresh(this)
    {
      this.world, this.id, this.fate, this.calls := world, id, fate, 0;
      this.currentBlock, this.lastBlockHash := currentBlock, lastBlockHash;
    }

    /** The run so far puts this worker at `pc`, with this object's variables. */
    ghost predicate Holds(pc: Pc)
      reads this, world
    {
      world.Valid() && world.At(id, Worker(pc, currentBlock, lastBlockHash))
    }

    ghost predicate HoldsInLoop()
      reads this, world
    {
      exists pc: Pc :: InLoop(pc) && Holds(pc)
    }

    /** How many of the calls so far have thrown. */
    ghost function Errors(): nat
      reads this
    {
      Throwing(fate, calls)
    }

    ghost function T(): Trace
      reads this, world
    {
      Trace(world.cfg, id, fate, world.events, world.states)
    }

    ghost function Here(): Mark
      reads this, world
    {
      Mark(|world.events|, calls, currentBlock, lastBlockHash)
    }

    /** Where the head leads: back to the top, to a window of the finalized backlog, or to the tail. */
    ghost function PlaceAfterHead(cfg: Config, latest: int, n: nat): Pc {
      var ceiling := latest - cfg.finalityConfirmations;
      if n > latest then LoopTop
      else if n > ceiling then Tail
      else if n + cfg.batchSize == 0 then LoopTop
      else Drain(Min(n + cfg.batchSize - 1, ceiling), [])
    }

    /** Where the block at the cursor leads: nowhere without one, and to the search if its parent is another. */
    ghost function PlaceAfterFetch(block: Option<Block>): Pc
      reads this
    {
      if block.None? then LoopTop
      else if lastBlockHash.None? || lastBlockHash.value == block.value.parent then Persist(block.value)
      else Search(block.value, currentBlock - 1)
    }

    // ------------------------------------------------------------ before the loop

    ghost predicate HoldsSome()
      reads this, world
    {
      exists pc: Pc :: Holds(pc)
    }

    /** An await and a call, with the call's fate. */
    method Call(ghost pc: Pc) returns (f: Fate)
      requires Holds(pc)
      modifies world, this`calls
      ensures Holds(pc) && calls == old(calls) + 1 && f == fate(old(calls))
      ensures Went(old(T()), old(Here()), T(), Here())
      ensures Errors() == old(Errors()) + if Throws(f) then 1 else 0
    {
      hide Run, Recorded;
      world.Await(id);
      f := fate(calls);
      calls := calls + 1;
    }

    /** The action takes the worker from `pc` to `next`, and the database to `after`. */
    ghost predicate Steps(act: Act, pc: Pc, after: Db, next: Pc, cursor: nat, last: Option<Hash>)
      reads this, world
    {
      Step(world.cfg, world.db, world.chain, id, Worker(pc, currentBlock, lastBlockHash), act)
      == Some(Outcome(after, Worker(next, cursor, last)))
    }

    /** An action that leaves the loop's variables alone. */
    method Act(act: Act, ghost pc: Pc, after: Db, ghost next: Pc)
      requires Holds(pc) && Steps(act, pc, after, next, currentBlock, lastBlockHash)
      modifies world
      ensures Holds(next) && world.db == after && world.chain == old(world.chain)
      ensures Acted(old(T()), old(Here()), T(), Here(), act, pc) && Then(T(), Here(), old(world.db), old(world.chain))
    {
      hide Run, Recorded, Step;
      world.Take(id, act, Worker(pc, currentBlock, lastBlockHash), after, Worker(next, currentBlock, lastBlockHash));
    }

    /** An action after which the loop's variables are set. */
    method Move(act: Act, ghost pc: Pc, after: Db, ghost next: Pc, cursor: nat, last: Option<Hash>)
      requires Holds(pc) && Steps(act, pc, after, next, cursor, last)
      modifies world, this`currentBlock, this`lastBlockHash
      ensures Holds(next) && world.db == after && currentBlock == cursor && lastBlockHash == last
      ensures Acted(old(T()), old(Here()), T(), Here(), act, pc)
    {
      hide Run, Recorded, Step;
      world.Take(id, act, Worker(pc, currentBlock, lastBlockHash), after, Worker(next, cursor, last));
      currentBlock, lastBlockHash := cursor, last;
    }

    /** An error outside the loop's `try` ends the process. */
    method Die()
      requires HoldsSome()
      modifies world
      ensures Holds(Stopped) && Went(old(T()), old(Here()), T(), Here())
    {
      hide Run, Recorded, Went, Acted, Grows, Between, Then;
      Laws();
      ghost var pc: Pc :| Holds(pc);
      Act(Crash, pc, world.db, Stopped);
    }

    /** `insert` of the lease row; its error, lost reply or not, is caught. */
    method InsertLease(first: bool) returns (inserted: bool, time: int)
      requires Holds(if first then Stopped else Pc.InsertLease)
      modifies world, this`calls
      ensures Went(old(T()), old(Here()), T(), Here()) && calls == old(calls) + 1 && Errors() >= old(Errors())
      ensures Holds(if inserted then Pc.ReadCheckpoint else Pc.FindOwnLease(time))
      ensures inserted ==> Granted(T(), old(Here()), Here())
      ensures !inserted ==> Errors() > old(Errors()) || Occupied(T(), old(Here()), Here())
    {
      hide Run, Recorded, Went, Acted, Grows, Between, Throwing, Then;
      Laws();
      ghost var pc := if first then Stopped else Pc.InsertLease;
      var f := Call(pc);
      time := *;
      var isFree := world.db.lease.None?;
      inserted := isFree && !Throws(f);
      ghost var db, chain := world.db, world.chain;
      Act(DoInsertLease(time, f != Fails, !Throws(f)), pc,
          if isFree && f != Fails then world.db.(lease := Some(Lease(id, time + world.cfg.leaseDuration)))
             else world.db,
          if inserted then Pc.ReadCheckpoint else Pc.FindOwnLease(time));
      GrantedBy(old(T()), old(Here()), T(), Here(), time, pc, db, chain);
      if !isFree {
        OccupiedBy(old(T()), old(Here()), T(), Here(), time, f != Fails, !Throws(f), pc, db, chain);
      }
    }

    /** The first query of the catch in `acquireLease`: is the row this worker's own? */
    method FindOwnLease(time: int) returns (a: Attempt<bool>)
      requires Holds(Pc.FindOwnLease(time))
      modifies world, this`calls
      ensures Went(old(T()), old(Here()), T(), Here()) && calls == old(calls) + 1
      ensures a.Thrown? <==> Throws(fate(old(calls)))
      ensures Errors() == old(Errors()) + if a.Thrown? then 1 else 0
      ensures match a
              case Thrown => HoldsSome()
              case Returned(own) => Holds(if own then Pc.RenewOnAcquire else Pc.FindOtherLease(time))
    {
      hide Run, Recorded, Went, Acted, Grows, Between, Throwing, Then;
      Laws();
      var f := Call(Pc.FindOwnLease(time));
      if Throws(f) { return Thrown; }
      var own := Owns(world.db, id);
      Act(DoFindOwnLease, Pc.FindOwnLease(time), world.db, if own then Pc.RenewOnAcquire else Pc.FindOtherLease(time));
      return Returned(own);
    }

    method RenewOnAcquire() returns (a: Attempt<bool>)
      requires Holds(Pc.RenewOnAcquire)
      modifies world, this`calls
      ensures Went(old(T()), old(Here()), T(), Here()) && calls == old(calls) + 1
      ensures a.Thrown? <==> Throws(fate(old(calls)))
      ensures Errors() == old(Errors()) + if a.Thrown? then 1 else 0
      ensures match a
              case Thrown => HoldsSome()
              case Returned(true) => Holds(Pc.ReadCheckpoint) && Granted(T(), old(Here()), Here())
              case Returned(false) => Holds(Stopped) && OwnRowGone(T(), old(Here()), Here())
    {
      hide Run, Recorded, Went, Acted, Grows, Between, Throwing, Then;
      Laws();
      var f := Call(Pc.RenewOnAcquire);
      var now: int := *;
      if f == Fails { return Thrown; }
      var renewed := Owns(world.db, id);
      ghost var db, chain := world.db, world.chain;
      Act(DoRenewOnAcquire(now), Pc.RenewOnAcquire,
          if renewed then world.db.(lease := Some(Lease(id, now + world.cfg.leaseDuration))) else world.db,
          if renewed then Pc.ReadCheckpoint else Stopped);
      GrantedBy(old(T()), old(Here()), T(), Here(), now, Pc.RenewOnAcquire, db, chain);
      if !renewed {
        GoneBy(old(T()), old(Here()), T(), Here(), now, Pc.RenewOnAcquire, db, chain);
      }
      return if f == Lost then Thrown else Returned(renewed);
    }

    /** The second query of the catch: whoever's it is, has the row expired? */
    method FindOtherLease(time: int) returns (a: Attempt<bool>)
      requires Holds(Pc.FindOtherLease(time))
      modifies world, this`calls
      ensures Went(old(T()), old(Here()), T(), Here()) && calls == old(calls) + 1
      ensures a.Thrown? <==> Throws(fate(old(calls)))
      ensures Errors() == old(Errors()) + if a.Thrown? then 1 else 0
      ensures match a
              case Thrown => HoldsSome()
              case Returned(true) => Holds(Pc.DeleteLease)
              case Returned(false) => Holds(Stopped) && NotExpired(T(), old(Here()), Here())
    {
      hide Run, Recorded, Went, Acted, Grows, Between, Throwing, Then;
      Laws();
      var f := Call(Pc.FindOtherLease(time));
      if Throws(f) { return Thrown; }
      var expired := world.db.lease.Some? && world.db.lease.value.expires < time;
      ghost var db, chain := world.db, world.chain;
      Act(DoFindOtherLease, Pc.FindOtherLease(time), world.db, if expired then Pc.DeleteLease else Stopped);
      if !expired {
        NotExpiredBy(old(T()), old(Here()), T(), Here(), time, db, chain);
      }
      return Returned(expired);
    }

    /** Deletes the stream's row, whoever's it is by now. */
    method DeleteLease() returns (a: Attempt<bool>)
      requires Holds(Pc.DeleteLease)
      modifies world, this`calls
      ensures Went(old(T()), old(Here()), T(), Here()) && calls == old(calls) + 1
      ensures a.Thrown? <==> Throws(fate(old(calls)))
      ensures Errors() == old(Errors()) + if a.Thrown? then 1 else 0
      ensures if a.Thrown? then HoldsSome() else
                Holds(Pc.InsertLease) && DeletedOne(T(), old(Here()), Here())
    {
      hide Run, Recorded, Went, Acted, Grows, Between, Throwing, Then;
      Laws();
      var f := Call(Pc.DeleteLease);
      if f == Fails { return Thrown; }
      Act(DoDeleteLease, Pc.DeleteLease, world.db.(lease := None), Pc.InsertLease);
      DeletedBy(old(T()), old(Here()), T(), Here(), Pc.DeleteLease);
      return if f == Lost then Thrown else Returned(true);
    }

    /** The catch of `acquireLease`: renew a row of one's own, delete an expired one, or give up. */
    method AfterRefusal(time: int) returns (r: Refusal)
      requires Holds(Pc.FindOwnLease(time))
      modifies world, this`calls
      ensures Went(old(T()), old(Here()), T(), Here()) && Errors() >= old(Errors())
      ensures match r
              case Again => Holds(Pc.InsertLease) && DeletedOne(T(), old(Here()), Here())
              case Renewed => Holds(Pc.ReadCheckpoint) && Granted(T(), old(Here()), Here())
              case GivenUp =>
                Holds(Stopped) &&
                (Errors() > old(Errors()) || OwnRowGone(T(), old(Here()), Here()) ||
                 NotExpired(T(), old(Here()), Here()))
    {
      hide Run, Step, Recorded, Holds, Went, Acted, Grows, Between, Granted, OwnRowGone, NotExpired, DeletedOne;
      Laws();
      ghost var m := Here();
      var own := FindOwnLease(time);
      if own.Thrown? { Die(); return GivenUp; }
      ghost var n := Here();
      if own.value {
        var renewed := RenewOnAcquire();
        if renewed.Thrown? { Die(); return GivenUp; }
        LeaseSince(T(), m, n, Here());
        return if renewed.value then Renewed else GivenUp;
      }
      var expired := FindOtherLease(time);
      if expired.Thrown? { Die(); return GivenUp; }
      LeaseSince(T(), m, n, Here());
      if !expired.value { return GivenUp; }
      n := Here();
      var deleted := DeleteLease();
      if deleted.Thrown? { Die(); return GivenUp; }
      LeaseSince(T(), m, n, Here());
      return Again;
    }

    /**
     * `acquireLease`, which starts over each time it has deleted an expired row; here up to `retries`
     * times. It gives up only if a call failed; or if a row was there at first, and later it had not
     * expired, or its own was gone, or the retries are used up.
     */
    method AcquireLease(retries: nat) returns (acquired: bool)
      requires Holds(Stopped)
      modifies world, this`calls
      ensures Went(old(T()), old(Here()), T(), Here()) && Errors() >= old(Errors())
      ensures Holds(if acquired then Pc.ReadCheckpoint else Stopped)
      ensures acquired ==> Granted(T(), old(Here()), Here())
      ensures !acquired ==> Errors() > old(Errors()) || GaveUp(T(), old(Here()), Here(), retries)
    {
      hide Run, Step, Recorded, Holds, Went, Acted, Grows, Between, Granted, OwnRowGone, NotExpired, DeletedOne,
        DeletedTimes, Occupied;
      Laws();
      var time: int;
      ghost var m, t, n := Here(), T(), Here();
      NoneDeleted(T(), m);
      acquired, time := InsertLease(true);
      if acquired { return; }
      DeletedStays(t, m, n, T(), Here(), 0);
      var left: nat := retries;
      while true
        invariant Holds(Pc.FindOwnLease(time)) && Went(old(T()), m, T(), Here()) && Errors() >= old(Errors())
        invariant Errors() > old(Errors()) || Occupied(T(), m, Here())
        invariant left <= retries && DeletedTimes(T(), m, Here(), retries - left)
        decreases left
      {
        t, n := T(), Here();
        var refusal := AfterRefusal(time);
        LeaseSince(T(), m, n, Here());
        if Occupied(t, m, n) { OccupiedStays(t, m, n, T(), Here()); }
        if refusal != Again { return refusal == Renewed; }
        OneMoreDeleted(t, m, n, T(), Here(), retries - left);
        t, n := T(), Here();
        if left == 0 {
          Die();
          DeletedStays(t, m, n, T(), Here(), retries + 1);
          if Occupied(t, m, n) { OccupiedStays(t, m, n, T(), Here()); }
          return false;
        }
        left := left - 1;
        acquired, time := InsertLease(false);
        LeaseSince(T(), m, n, Here());
        if acquired { return; }
        DeletedStays(t, m, n, T(), Here(), retries - left);
        if Occupied(t, m, n) { OccupiedStays(t, m, n, T(), Here()); }
      }
    }

    /** `getCheckpoint`, and the initial checkpoint if there is none; then the loop's variables. */
    method ReadCheckpoint() returns (ready: bool)
      requires Holds(Pc.ReadCheckpoint)
      modifies world, this`calls, this`currentBlock, this`lastBlockHash
      ensures Went(old(T()), old(Here()), T(), Here())
      ensures Holds(if ready then LoopTop else Stopped)
      ensures Errors() == old(Errors()) + if ready then 0 else 1
      ensures ready ==> world.db.checkpoint == Some(Checkpoint(currentBlock, lastBlockHash))
    {
      hide Run, Step, Recorded, Holds, Went, Acted, Grows, Between;
      Laws();
      var found := GetCheckpoint();
      if found.Thrown? { Die(); return false; }
      if found.value { return true; }
      var created := CreateCheckpoint();
      if created.Thrown? { Die(); return false; }
      return true;
    }

    /** Whether there is one; if so the loop's variables are its own. */
    method GetCheckpoint() returns (a: Attempt<bool>)
      requires Holds(Pc.ReadCheckpoint)
      modifies world, this`calls, this`currentBlock, this`lastBlockHash
      ensures Went(old(T()), old(Here()), T(), Here()) && calls == old(calls) + 1
      ensures a.Thrown? <==> Throws(fate(old(calls)))
      ensures Errors() == old(Errors()) + if a.Thrown? then 1 else 0
      ensures match a
              case Thrown => HoldsSome()
              case Returned(found) =>
                Holds(if found then LoopTop else Pc.CreateCheckpoint) &&
                (found ==> world.db.checkpoint == Some(Checkpoint(currentBlock, lastBlockHash)))
    {
      hide Run, Recorded, Went, Acted, Grows, Between, Throwing, Then;
      Laws();
      var f := Call(Pc.ReadCheckpoint);
      if Throws(f) { return Thrown; }
      var found := world.db.checkpoint;
      if found.None? {
        Act(DoReadCheckpoint, Pc.ReadCheckpoint, world.db, Pc.CreateCheckpoint);
      } else {
        Move(DoReadCheckpoint, Pc.ReadCheckpoint, world.db, LoopTop, found.value.next, found.value.last);
      }
      return Returned(found.Some?);
    }

    method CreateCheckpoint() returns (a: Attempt<bool>)
      requires Holds(Pc.CreateCheckpoint)
      modifies world, this`calls, this`currentBlock, this`lastBlockHash
      ensures Went(old(T()), old(Here()), T(), Here()) && calls == old(calls) + 1
      ensures a.Thrown? <==> Throws(fate(old(calls)))
      ensures Errors() == old(Errors()) + if a.Thrown? then 1 else 0
      ensures match a
              case Thrown => HoldsSome()
              case Returned(_) =>
                Holds(LoopTop) && currentBlock == world.cfg.start && lastBlockHash == None &&
                world.db.checkpoint == Some(Checkpoint(currentBlock, lastBlockHash))
    {
      hide Run, Recorded, Went, Acted, Grows, Between, Throwing, Then;
      Laws();
      var f := Call(Pc.CreateCheckpoint);
      if f == Fails { return Thrown; }
      Move(DoCreateCheckpoint, Pc.CreateCheckpoint,
           world.db.(checkpoint := Some(Checkpoint(world.cfg.start, None))), LoopTop, world.cfg.start, None);
      return if f == Lost then Thrown else Returned(true);
    }

    // ------------------------------------------------------------ database and provider calls

    method RenewLease() returns (a: Attempt<bool>)
      requires Holds(LoopTop)
      modifies world, this`calls
      ensures Went(old(T()), old(Here()), T(), Here()) && calls == old(calls) + 1
      ensures a.Thrown? <==> Throws(fate(old(calls)))
      ensures Errors() == old(Errors()) + if a.Thrown? then 1 else 0
      ensures match a
              case Thrown => HoldsInLoop()
              case Returned(true) => Holds(ReadHead)
              case Returned(false) => Holds(Stopped) && LeaseGone(T(), old(Here()), Here())
    {
      hide Run, Recorded, Went, Acted, Grows, Between, Throwing, Then;
      Laws();
      var f := Call(LoopTop);
      assert InLoop(LoopTop) && InLoop(ReadHead);
      if f == Fails || (f == Lost && !Owns(world.db, id)) { return Thrown; }
      var time: int := *;
      var ok := Owns(world.db, id);
      ghost var db, chain := world.db, world.chain;
      Act(DoRenew(time), LoopTop,
          if ok then world.db.(lease := Some(Lease(id, time + world.cfg.leaseDuration))) else world.db,
          if ok then ReadHead else Stopped);
      if !ok {
        GoneBy(old(T()), old(Here()), T(), Here(), time, LoopTop, db, chain);
      }
      return if f == Lost then Thrown else Returned(ok);
    }

    /** Also decides the tier, as the statements right after the call do. */
    method GetLatestBlockNumber(ghost m: Mark) returns (a: Attempt<int>)
      requires Holds(ReadHead) && Between(T(), m, Here()) && SamePosition(m, Here())
      modifies world, this`calls
      ensures Went(old(T()), old(Here()), T(), Here()) && calls == old(calls) + 1
      ensures a.Thrown? <==> Throws(fate(old(calls)))
      ensures Errors() == old(Errors()) + if a.Thrown? then 1 else 0
      ensures match a
              case Thrown => Holds(ReadHead)
              case Returned(latest) =>
                var ceiling := latest - world.cfg.finalityConfirmations;
                Holds(PlaceAfterHead(world.cfg, latest, currentBlock)) &&
                (latest < currentBlock ==> HeadBelow(T(), m, Here())) &&
                (currentBlock <= ceiling ==>
                  WindowEnd(T(), m, Here(), Min(currentBlock + world.cfg.batchSize - 1, ceiling)))
    {
      hide Run, Recorded, Went, Acted, Grows, Between, Throwing, Then, HeadBelow, WindowEnd;
      Laws();
      ghost var t, n := T(), Here();
      var f := Call(ReadHead);
      if Throws(f) { return Thrown; }
      ghost var db, chain := world.db, world.chain;
      Act(DoReadHead, ReadHead, world.db, PlaceAfterHead(world.cfg, Latest(world.chain), currentBlock));
      HeadSeen(t, n, T(), Here(), m, db, chain);
      return Returned(Latest(world.chain));
    }

    /** One block of a window, or the window's end. */
    method FetchNextOfWindow(ghost end: nat, height: nat, ghost got: seq<Block>) returns (a: Attempt<Option<Block>>)
      requires Holds(Drain(end, got)) && height == currentBlock + |got| <= end
      modifies world, this`calls
      ensures Went(old(T()), old(Here()), T(), Here()) && calls == old(calls) + 1
      ensures a.Thrown? <==> Throws(fate(old(calls)))
      ensures Errors() == old(Errors()) + if a.Thrown? then 1 else 0
      ensures match a
              case Thrown => Holds(Drain(end, got))
              case Returned(None) =>
                Holds(if got == [] then LoopTop else PersistWindow(got)) && Withheld(T(), old(Here()), Here(), height)
              case Returned(Some(b)) =>
                Holds(Drain(end, got + [b])) && Served(T(), old(Here()), Here(), height, b)
    {
      hide Run, Recorded, Went, Acted, Grows, Between, Throwing, Then, Withheld, Served;
      Laws();
      var f := Call(Drain(end, got));
      if Throws(f) { return Thrown; }
      var answered := f != Nothing;
      var next := if answered && height < |world.chain| then Some(world.chain[height]) else None;
      ghost var db, chain := world.db, world.chain;
      Act(DoFetchNext(answered), Drain(end, got), world.db,
          if next.Some? then Drain(end, got + [next.value]) else if got == [] then LoopTop else PersistWindow(got));
      FetchedBy(old(T()), old(Here()), T(), Here(), DoFetchNext(answered), Drain(end, got), answered, height, db,
                chain);
      return Returned(next);
    }

    method PersistBlockWindow(blocks: seq<Block>) returns (a: Attempt<bool>)
      requires Holds(PersistWindow(blocks))
      modifies world, this`calls
      ensures Went(old(T()), old(Here()), T(), Here()) && calls == old(calls) + 1
      ensures a.Thrown? <==> Throws(fate(old(calls)))
      ensures Errors() == old(Errors()) + if a.Thrown? then 1 else 0
      ensures if a.Thrown? then HoldsInLoop() else
                Holds(Pc.RecordWindow(blocks)) &&
                Acted(old(T()), old(Here()), T(), Here(), DoPersistWindow, PersistWindow(blocks))
    {
      hide Run, Recorded, Went, Acted, Grows, Between, Throwing, Then, InsertWindow;
      Laws();
      var f := Call(PersistWindow(blocks));
      assert InLoop(PersistWindow(blocks)) && InLoop(Pc.RecordWindow(blocks));
      if f == Fails { return Thrown; }
      Act(DoPersistWindow, PersistWindow(blocks),
          world.db.(rows := InsertWindow(world.db.rows, currentBlock, blocks)), Pc.RecordWindow(blocks));
      return if f == Lost then Thrown else Returned(true);
    }

    /** The block at the cursor; the machine has compared its parent with the remembered hash. */
    method FetchBlock() returns (a: Attempt<Option<Block>>)
      requires Holds(Tail)
      modifies world, this`calls
      ensures Went(old(T()), old(Here()), T(), Here()) && calls == old(calls) + 1
      ensures a.Thrown? <==> Throws(fate(old(calls)))
      ensures Errors() == old(Errors()) + if a.Thrown? then 1 else 0
      ensures match a
              case Thrown => Holds(Tail)
              case Returned(None) => Holds(LoopTop) && Withheld(T(), old(Here()), Here(), currentBlock)
              case Returned(Some(b)) =>
                Holds(PlaceAfterFetch(Some(b))) && Served(T(), old(Here()), Here(), currentBlock, b)
    {
      hide Run, Recorded, Went, Acted, Grows, Between, Throwing, Then, Withheld, Served;
      Laws();
      var f := Call(Tail);
      if Throws(f) { return Thrown; }
      var answered := f != Nothing;
      var next := if answered && currentBlock < |world.chain| then Some(world.chain[currentBlock]) else None;
      ghost var db, chain := world.db, world.chain;
      Act(DoFetch(answered), Tail, world.db, PlaceAfterFetch(next));
      FetchedBy(old(T()), old(Here()), T(), Here(), DoFetch(answered), Tail, answered, currentBlock, db, chain);
      return Returned(next);
    }

    /** `findFirst` on the canonical rows at a height. */
    method FindStored(ghost fetched: Block, at: int) returns (a: Attempt<Option<Hash>>)
      requires Holds(Search(fetched, at)) && at > 0
      modifies world, this`calls
      ensures Went(old(T()), old(Here()), T(), Here()) && calls == old(calls) + 1
      ensures a.Thrown? <==> Throws(fate(old(calls)))
      ensures Errors() == old(Errors()) + if a.Thrown? then 1 else 0
      ensures match a
              case Thrown => Holds(Search(fetched, at))
              case Returned(None) => Holds(Search(fetched, at - 1))
              case Returned(Some(stored)) => Holds(Compare(fetched, at, stored))
    {
      hide Run, Recorded, Went, Acted, Grows, Between, Throwing, Then;
      Laws();
      var f := Call(Search(fetched, at));
      if Throws(f) { return Thrown; }
      var found := set k | k in world.db.rows.Keys && k.0 == at && world.db.rows[k].canonical;
      FoundMeans(world.db.rows, at, found);
      var stored: Option<Hash> := None;
      if found != {} {
        var k :| k in found;
        stored := Some(k.1);
        assert Canonical(world.db.rows, at, k.1);
      }
      Act(DoFind(stored), Search(fetched, at), world.db,
          if stored.Some? then Compare(fetched, at, stored.value) else Search(fetched, at - 1));
      return Returned(stored);
    }

    lemma FoundMeans(rows: Table, at: int, found: set<(nat, Hash)>)
      requires at > 0 && found == set k | k in rows.Keys && k.0 == at && rows[k].canonical
      ensures found == {} <==> !HasCanonical(rows, at)
    {
      if HasCanonical(rows, at) {
        var x: Hash :| Canonical(rows, at, x);
        assert (at as nat, x) in found;
      }
      if found != {} {
        var k :| k in found;
        assert Canonical(rows, at, k.1);
      }
    }

    /** The provider's block at the height of a stored row: is it the same? */
    method CompareStored(ghost fetched: Block, at: int, stored: Hash)
      returns (a: Attempt<bool>, ghost db: Db, ghost chain: Chain)
      requires Holds(Compare(fetched, at, stored)) && at > 0
      modifies world, this`calls
      ensures Went(old(T()), old(Here()), T(), Here()) && calls == old(calls) + 1
      ensures a.Thrown? <==> Throws(fate(old(calls)))
      ensures Errors() == old(Errors()) + if a.Thrown? then 1 else 0
      ensures match a
              case Thrown => Holds(Compare(fetched, at, stored))
              case Returned(false) => Holds(Search(fetched, at - 1))
              case Returned(true) =>
                Holds(MarkBlocks(at)) && Then(T(), Here(), db, chain) && at < |chain| && chain[at].hash == stored &&
                Acted(old(T()), old(Here()), T(), Here(), DoCompare(true), Compare(fetched, at, stored))
    {
      hide Run, Recorded, Went, Acted, Grows, Between, Throwing, Then;
      Laws();
      var f := Call(Compare(fetched, at, stored));
      db, chain := world.db, world.chain;
      if Throws(f) { return Thrown, db, chain; }
      var answered := f != Nothing;
      var same := answered && at < |world.chain| && stored == world.chain[at].hash;
      Act(DoCompare(answered), Compare(fetched, at, stored), world.db,
          if same then MarkBlocks(at) else Search(fetched, at - 1));
      return Returned(same), db, chain;
    }

    method MarkBlocksOrphaned(ancestor: nat) returns (a: Attempt<bool>)
      requires Holds(MarkBlocks(ancestor))
      modifies world, this`calls
      ensures Went(old(T()), old(Here()), T(), Here()) && calls == old(calls) + 1
      ensures a.Thrown? <==> Throws(fate(old(calls)))
      ensures Errors() == old(Errors()) + if a.Thrown? then 1 else 0
      ensures if a.Thrown? then HoldsInLoop() else
                Holds(Pc.FinishReorg(ancestor)) &&
                Acted(old(T()), old(Here()), T(), Here(), DoMarkBlocks, MarkBlocks(ancestor))
    {
      hide Run, Recorded, Went, Acted, Grows, Between, Throwing, Then, MarkOrphaned;
      Laws();
      var f := Call(MarkBlocks(ancestor));
      assert InLoop(MarkBlocks(ancestor)) && InLoop(Pc.FinishReorg(ancestor));
      if f == Fails { return Thrown; }
      Act(DoMarkBlocks, MarkBlocks(ancestor),
          world.db.(rows := MarkOrphaned(world.db.rows, ancestor + 1, currentBlock - 1)), Pc.FinishReorg(ancestor));
      return if f == Lost then Thrown else Returned(true);
    }

    method PersistBlockData(block: Block) returns (a: Attempt<bool>)
      requires Holds(Persist(block))
      modifies world, this`calls
      ensures Went(old(T()), old(Here()), T(), Here()) && calls == old(calls) + 1
      ensures a.Thrown? <==> Throws(fate(old(calls)))
      ensures Errors() == old(Errors()) + if a.Thrown? then 1 else 0
      ensures if a.Thrown? then HoldsInLoop() else
                Holds(Record(block)) && Acted(old(T()), old(Here()), T(), Here(), DoPersist, Persist(block))
    {
      hide Run, Recorded, Went, Acted, Grows, Between, Throwing, Then, Insert, FinalityAt;
      Laws();
      var f := Call(Persist(block));
      assert InLoop(Persist(block)) && InLoop(Record(block));
      if f == Fails { return Thrown; }
      var finality := FinalityAt(world.cfg, Latest(world.chain), currentBlock);
      Act(DoPersist, Persist(block),
          world.db.(rows := Insert(world.db.rows, currentBlock, block, finality)), Record(block));
      return if f == Lost then Thrown else Returned(true);
    }

    /** The checkpoint behind the window; its reply may be lost although it was written. */
    method WriteWindowCheckpoint(blocks: seq<Block>) returns (a: Attempt<bool>)
      requires Holds(Pc.RecordWindow(blocks)) && blocks != []
      modifies world, this`calls
      ensures Went(old(T()), old(Here()), T(), Here()) && calls == old(calls) + 1
      ensures a.Thrown? <==> Throws(fate(old(calls)))
      ensures Errors() == old(Errors()) + if a.Thrown? then 1 else 0
      ensures match a
              case Thrown => HoldsInLoop()
              case Returned(_) =>
                Holds(AdoptWindow(blocks)) &&
                Acted(old(T()), old(Here()), T(), Here(), DoRecordWindow, Pc.RecordWindow(blocks)) &&
                world.db.checkpoint == Some(Checkpoint(currentBlock + |blocks|, Some(blocks[|blocks| - 1].hash)))
    {
      hide Run, Recorded, Went, Acted, Grows, Between, Throwing, Then;
      Laws();
      var f := Call(Pc.RecordWindow(blocks));
      assert InLoop(Pc.RecordWindow(blocks)) && InLoop(AdoptWindow(blocks));
      if f == Fails { return Thrown; }
      Act(DoRecordWindow, Pc.RecordWindow(blocks),
          world.db.(checkpoint := Some(Checkpoint(currentBlock + |blocks|, Some(blocks[|blocks| - 1].hash)))),
          AdoptWindow(blocks));
      return if f == Lost then Thrown else Returned(true);
    }

    /** Then the loop's variables. */
    method Adopt(blocks: seq<Block>)
      requires Holds(AdoptWindow(blocks)) && blocks != []
      modifies world, this`currentBlock, this`lastBlockHash
      ensures Went(old(T()), old(Here()), T(), Here()) && world.db == old(world.db) && Holds(LoopTop)
      ensures currentBlock == old(currentBlock) + |blocks| && lastBlockHash == Some(blocks[|blocks| - 1].hash)
    {
      hide Run, Recorded, Went, Acted, Grows, Between;
      Laws();
      Move(DoAdoptWindow, AdoptWindow(blocks), world.db, LoopTop, currentBlock + |blocks|,
           Some(blocks[|blocks| - 1].hash));
    }

    method RecordCheckpoint(block: Block) returns (a: Attempt<bool>)
      requires Holds(Record(block))
      modifies world, this`calls
      ensures Went(old(T()), old(Here()), T(), Here()) && calls == old(calls) + 1
      ensures a.Thrown? <==> Throws(fate(old(calls)))
      ensures Errors() == old(Errors()) + if a.Thrown? then 1 else 0
      ensures if a.Thrown? then HoldsInLoop() else
                Holds(Publish(block)) && Acted(old(T()), old(Here()), T(), Here(), DoRecord, Record(block))
    {
      hide Run, Recorded, Went, Acted, Grows, Between, Throwing, Then;
      Laws();
      var f := Call(Record(block));
      assert InLoop(Record(block)) && InLoop(Publish(block));
      if f == Fails { return Thrown; }
      Act(DoRecord, Record(block),
          world.db.(checkpoint := Some(Checkpoint(currentBlock + 1, Some(block.hash)))), Publish(block));
      return if f == Lost then Thrown else Returned(true);
    }

    /** The block's jobs, then the loop's variables. */
    method PublishDerivedJobs(block: Block) returns (a: Attempt<bool>)
      requires Holds(Publish(block))
      modifies world, this`calls, this`currentBlock, this`lastBlockHash
      ensures Went(old(T()), old(Here()), T(), Here()) && calls == old(calls) + 1
      ensures a.Thrown? <==> Throws(fate(old(calls)))
      ensures Errors() == old(Errors()) + if a.Thrown? then 1 else 0
      ensures if a.Thrown? then Holds(Publish(block)) && SamePosition(old(Here()), Here())
              else
                Holds(LoopTop) && currentBlock == old(currentBlock) + 1 && lastBlockHash == Some(block.hash) &&
                Acted(old(T()), old(Here()), T(), Here(), DoPublish, Publish(block))
    {
      hide Run, Recorded, Went, Acted, Grows, Between, Throwing, Then;
      Laws();
      var f := Call(Publish(block));
      if Throws(f) { return Thrown; }
      Move(DoPublish, Publish(block), world.db, LoopTop, currentBlock + 1, Some(block.hash));
      return Returned(true);
    }

    /** The marks on the other tables, then the rewind of the local variables. */
    method FinishReorg(ancestor: nat) returns (a: Attempt<bool>)
      requires Holds(Pc.FinishReorg(ancestor))
      modifies world, this`calls, this`currentBlock, this`lastBlockHash
      ensures Went(old(T()), old(Here()), T(), Here()) && calls == old(calls) + 1
      ensures a.Thrown? <==> Throws(fate(old(calls)))
      ensures Errors() == old(Errors()) + if a.Thrown? then 1 else 0
      ensures if a.Thrown? then Holds(Pc.FinishReorg(ancestor)) && SamePosition(old(Here()), Here())
              else Holds(LoopTop) && currentBlock == ancestor + 1 && lastBlockHash == None
    {
      hide Run, Recorded, Went, Acted, Grows, Between, Throwing, Then;
      Laws();
      var f := Call(Pc.FinishReorg(ancestor));
      if Throws(f) { return Thrown; }
      Move(DoFinishReorg, Pc.FinishReorg(ancestor), world.db, LoopTop, ancestor + 1, None);
      return Returned(true);
    }

    // ------------------------------------------------------------ the loop body

    /** The blocks of a window up to its first hole; `m` is when the turn began. */
    method FetchWindow(end: nat, ghost m: Mark) returns (a: Attempt<seq<Block>>)
      requires Holds(Drain(end, [])) && currentBlock <= end + 1
      requires Between(T(), m, Here()) && SamePosition(m, Here())
      modifies world, this`calls
      ensures Went(old(T()), old(Here()), T(), Here())
      ensures Errors() >= old(Errors()) && (a.Thrown? <==> Errors() > old(Errors()))
      ensures match a
              case Thrown => HoldsInLoop()
              case Returned(blocks) =>
                Holds(if blocks == [] then LoopTop else PersistWindow(blocks)) &&
                WindowServed(T(), m, Here(), end, blocks)
    {
      hide Run, Step, Recorded, Holds, Went, Acted, Grows, Between, Served, Withheld;
      Laws();
      var blocks: seq<Block> := [];
      Began();
      while currentBlock + |blocks| <= end
        invariant Went(old(T()), old(Here()), T(), Here()) && Errors() == old(Errors())
        invariant Holds(Drain(end, blocks)) && Between(T(), m, Here()) && currentBlock + |blocks| <= end + 1
        invariant AllServed(T(), m, Here(), blocks)
        decreases end - |blocks|
      {
        assert InLoop(Drain(end, blocks));
        ghost var t, n := T(), Here();
        var next :- FetchNextOfWindow(end, currentBlock + |blocks|, blocks);
        AllServedStay(t, T(), m, n, Here(), blocks);
        SeenSince(T(), m, n, Here(), currentBlock + |blocks|);
        if next.None? { return Returned(blocks); }
        blocks := blocks + [next.value];
      }
      ghost var t, n := T(), Here();
      EndWindow(end, blocks);
      AllServedStay(t, T(), m, n, Here(), blocks);
      return Returned(blocks);
    }

    /** Every height of the window has been fetched. */
    method EndWindow(ghost end: nat, ghost blocks: seq<Block>)
      requires Holds(Drain(end, blocks)) && currentBlock + |blocks| > end
      modifies world
      ensures Went(old(T()), old(Here()), T(), Here())
      ensures Holds(if blocks == [] then LoopTop else PersistWindow(blocks))
    {
      hide Run, Recorded, Went, Acted, Grows, Between, Then;
      Laws();
      Act(DoFetchNext(false), Drain(end, blocks), world.db, if blocks == [] then LoopTop else PersistWindow(blocks));
    }

    /** `drainFinalizedBacklog`, from the tier decision on. */
    method DrainFinalizedBacklog(end: nat, ghost m: Mark) returns (a: Attempt<Backlog>)
      requires Holds(Drain(end, [])) && currentBlock <= end + 1
      requires Between(T(), m, Here()) && SamePosition(m, Here()) && WindowEnd(T(), m, Here(), end)
      modifies world, this`calls, this`currentBlock, this`lastBlockHash
      ensures Went(old(T()), old(Here()), T(), Here())
      ensures Errors() >= old(Errors()) && (a.Thrown? <==> Errors() > old(Errors()))
      ensures match a
              case Thrown => HoldsInLoop() && SamePosition(m, Here())
              case Returned(backlog) =>
                Holds(LoopTop) &&
                (backlog.Retry? ==> SamePosition(m, Here()) && WindowServed(T(), m, Here(), end, [])) &&
                (backlog.Advanced? ==>
                  Drained(T(), m, Here()) && currentBlock > old(currentBlock) && lastBlockHash.Some? &&
                  world.db.checkpoint == Some(Checkpoint(currentBlock, lastBlockHash)))
    {
      hide Run, Step, Recorded, Holds, Went, Acted, Grows, Between, WindowServed, WindowEnd, Drained, HeadBelow;
      Laws();
      ghost var t, n := T(), Here();
      var blocks :- FetchWindow(end, m);
      HeadStays(t, T(), m, n, Here());
      if blocks == [] { return Returned(Retry); }
      assert InLoop(PersistWindow(blocks)) && InLoop(Pc.RecordWindow(blocks)) && InLoop(AdoptWindow(blocks));
      t, n := T(), Here();
      var written :- PersistBlockWindow(blocks);
      ghost var t1, n1 := T(), Here();
      var recorded :- WriteWindowCheckpoint(blocks);
      ghost var t2, n2 := T(), Here();
      Adopt(blocks);
      DrainedFrom(t, n, t1, n1, t2, n2, T(), Here(), m, end, blocks);
      return Returned(Advanced);
    }

    /** `detectReorg` and `handleReorg`; the ancestor, or None when there is none. */
    method DetectReorg(fetched: Block, ghost m: Mark) returns (a: Attempt<Option<nat>>)
      requires Holds(Search(fetched, currentBlock - 1))
      requires Between(T(), m, Here()) && SamePosition(m, Here())
      modifies world, this`calls
      ensures Went(old(T()), old(Here()), T(), Here())
      ensures Errors() >= old(Errors()) && (a.Thrown? <==> Errors() > old(Errors()))
      ensures match a
              case Thrown => HoldsInLoop()
              case Returned(None) => Holds(Persist(fetched)) && SearchedAll(T(), m, Here(), fetched)
              case Returned(Some(ancestor)) =>
                Holds(Pc.FinishReorg(ancestor)) && MarkedAbove(T(), m, Here(), fetched, ancestor)
    {
      hide Run, Step, Recorded, Holds, Went, Acted, Grows, Between, SearchedAll, MarkedAbove;
      Laws();
      Began();
      var at := currentBlock - 1;
      while at > 0
        invariant Went(old(T()), old(Here()), T(), Here()) && Errors() == old(Errors())
        invariant Holds(Search(fetched, at)) && Between(T(), m, Here())
      {
        assert InLoop(Search(fetched, at));
        var stored :- FindStored(fetched, at);
        if stored.Some? {
          assert InLoop(Compare(fetched, at, stored.value));
          ghost var t, n := T(), Here();
          ghost var db, chain;
          var same: bool;
          same, db, chain :- CompareStored(fetched, at, stored.value);
          if same {
            assert InLoop(MarkBlocks(at));
            ghost var t1, n1 := T(), Here();
            var marked :- MarkBlocksOrphaned(at);
            MarkedBy(t, n, t1, n1, T(), Here(), m, fetched, at, stored.value, db, chain);
            return Returned(Some(at));
          }
        }
        at := at - 1;
      }
      ghost var t, n := T(), Here();
      SearchEnds(fetched, at);
      SearchedBy(t, n, T(), Here(), m, fetched, None, at);
      return Returned(None);
    }

    /** No ancestor: `detectReorg` returns null. */
    method SearchEnds(ghost fetched: Block, ghost at: int)
      requires Holds(Search(fetched, at)) && at <= 0
      modifies world
      ensures Acted(old(T()), old(Here()), T(), Here(), DoFind(None), Search(fetched, at)) && Holds(Persist(fetched))
    {
      hide Run, Recorded, Went, Acted, Grows, Between, Then;
      Act(DoFind(None), Search(fetched, at), world.db, Persist(fetched));
    }

    /** Store the block, record it, publish its jobs. */
    method IndexBlock(b: Block, ghost m: Mark) returns (a: Attempt<bool>)
      requires Holds(Persist(b))
      requires Between(T(), m, Here()) && SamePosition(m, Here()) && Served(T(), m, Here(), m.cursor, b)
      requires m.last.None? || m.last.value == b.parent || SearchedAll(T(), m, Here(), b)
      modifies world, this`calls, this`currentBlock, this`lastBlockHash
      ensures Went(old(T()), old(Here()), T(), Here())
      ensures Errors() >= old(Errors()) && (a.Thrown? <==> Errors() > old(Errors()))
      ensures match a
              case Thrown => HoldsInLoop() && SamePosition(m, Here())
              case Returned(ok) => ok && Holds(LoopTop) && Tailed(T(), m, Here())
    {
      hide Run, Step, Recorded, Holds, Went, Acted, Grows, Between, Served, SearchedAll, Tailed;
      Laws();
      assert InLoop(Persist(b)) && InLoop(Record(b)) && InLoop(Publish(b));
      ghost var t, n := T(), Here();
      var written :- PersistBlockData(b);
      ghost var t1, n1 := T(), Here();
      var recorded :- RecordCheckpoint(b);
      ghost var t2, n2 := T(), Here();
      var published :- PublishDerivedJobs(b);
      TailedFrom(t, n, t1, n1, t2, n2, T(), Here(), m, b);
      return Returned(true);
    }

    /** The tail: fetch the block, check its parent, and index it or go back. */
    method TailTurn(ghost m: Mark) returns (a: Attempt<bool>)
      requires Holds(Tail) && Between(T(), m, Here()) && SamePosition(m, Here())
      modifies world, this`calls, this`currentBlock, this`lastBlockHash
      ensures Went(old(T()), old(Here()), T(), Here())
      ensures Errors() >= old(Errors()) && (a.Thrown? <==> Errors() > old(Errors()))
      ensures match a
              case Thrown => HoldsInLoop() && SamePosition(m, Here())
              case Returned(ok) => ok && Holds(LoopTop) && Progressed(T(), m, Here())
    {
      hide Run, Step, Recorded, Holds, Went, Acted, Grows, Between, Served, Withheld, SearchedAll, HeadBelow,
        MarkedAbove, Tailed, Drained;
      Laws();
      assert InLoop(Tail);
      ghost var n := Here();
      var block :- FetchBlock();
      SeenSince(T(), m, n, Here(), currentBlock);
      if block.None? { return Returned(true); }
      var b := block.value;
      if lastBlockHash.Some? && lastBlockHash.value != b.parent {
        ghost var t := T();
        n := Here();
        var reorg :- DetectReorg(b, m);
        ServedStays(t, T(), m, n, Here(), m.cursor, b);
        if reorg.Some? {
          assert InLoop(Pc.FinishReorg(reorg.value));
          t, n := T(), Here();
          var rewound :- FinishReorg(reorg.value);
          ServedStays(t, T(), m, n, Here(), m.cursor, b);
          MarkedStays(t, T(), m, n, Here(), b, reorg.value);
          assert RewoundTo(T(), m, Here(), b, reorg.value);
          return Returned(true);
        }
      }
      a := IndexBlock(b, m);
    }

    /**
     * The `try` block of one turn of the loop. It throws exactly if one of its calls did, and then
     * nothing has moved; it is false exactly when the lease is lost; and otherwise the turn has
     * waited for a reason, or indexed a block or a window, or gone back to a common ancestor.
     */
    method Turn() returns (a: Attempt<bool>)
      requires Holds(LoopTop)
      modifies world, this`calls, this`currentBlock, this`lastBlockHash
      ensures Went(old(T()), old(Here()), T(), Here())
      ensures a.Thrown? <==> !AllWell(T(), old(calls), calls)
      ensures match a
              case Thrown => HoldsInLoop() && SamePosition(old(Here()), Here())
              case Returned(false) => Holds(Stopped) && LeaseGone(T(), old(Here()), Here())
              case Returned(true) => Holds(LoopTop) && Progressed(T(), old(Here()), Here())
    {
      hide Run, Step, Recorded, Holds, Went, Acted, Grows, Between, Withheld, HeadBelow, Tailed, Drained, Rewound,
        WindowServed, WindowEnd, Throwing;
      Laws();
      assert InLoop(LoopTop) && InLoop(ReadHead);
      ghost var m := Here();
      var renewed :- RenewLease();
      if !renewed { return Returned(false); }
      var latest :- GetLatestBlockNumber(m);
      if currentBlock > latest { return Returned(true); }
      var ceiling := latest - world.cfg.finalityConfirmations;
      if currentBlock > ceiling {
        a := TailTurn(m);
        return;
      }
      var end := Min(currentBlock + world.cfg.batchSize - 1, ceiling);
      if end < 0 { return Returned(true); }
      var backlog :- DrainFinalizedBacklog(end, m);
      if backlog.Retry? {
        EmptyWindow(T(), m, Here(), end);
      }
      return Returned(true);
    }

    /**
     * The `while` loop of `runLiveMode`, for `turns` turns, and the release after it. The marks are
     * the instants between the turns, and each turn is accounted for.
     */
    method Loop(turns: nat) returns (ending: Ending, ghost marks: seq<Mark>)
      requires Holds(LoopTop)
      modifies world, this`calls, this`currentBlock, this`lastBlockHash
      ensures Went(old(T()), old(Here()), T(), Here()) && Holds(Stopped)
      ensures marks != [] && marks[0] == old(Here()) && |marks| <= turns + 1
      ensures Between(T(), marks[|marks| - 1], Here())
      ensures AllTurned(T(), marks)
      ensures match ending
              case NotAcquired => false
              case LeaseLost => LeaseGone(T(), marks[|marks| - 1], Here())
              case Died => |marks| == turns + 1 && !AllWell(T(), marks[turns].call, calls)
              case Finished =>
                |marks| == turns + 1 && !Owns(world.db, id) && SamePosition(marks[turns], Here())
    {
      hide Run, Step, Recorded, Holds, Went, Acted, Grows, Between, Progressed, LeaseGone, Throwing, AllTurned;
      Laws();
      Began();
      marks := [Here()];
      OneMark(T(), Here());
      for turn := 0 to turns
        invariant Went(old(T()), old(Here()), T(), Here()) && Holds(LoopTop)
        invariant |marks| == turn + 1 && marks[0] == old(Here()) && marks[turn] == Here() && AllTurned(T(), marks)
      {
        ghost var t := T();
        var outcome := Turn();
        if outcome == Returned(false) {                     // IndexerLeaseLostError
          StillTurned(t, T(), marks, Here());
          return LeaseLost, marks;
        }
        ghost var t1, n1 := T(), Here();
        if outcome.Thrown? {
          HandleError();                                    // then the next turn
        } else {
          Began();
        }
        TurnAccounted(t, marks[turn], t1, n1, T(), Here(), outcome);
        OneMoreTurned(t, T(), marks, Here());
        marks := marks + [Here()];
      }
      ghost var t := T();
      var released := ReleaseLease();
      StillTurned(t, T(), marks, Here());
      ending := if released then Finished else Died;
    }

    lemma Began()
      requires exists pc: Pc :: Holds(pc)
      ensures Went(T(), Here(), T(), Here())
    {
    }

    lemma TurnAccounted(t: Trace, m: Mark, u: Trace, n: Mark, v: Trace, o: Mark, outcome: Attempt<bool>)
      requires Went(t, m, u, n) && Went(u, n, v, o) && SamePosition(n, o) && o.call == n.call
      requires outcome.Thrown? <==> !AllWell(u, m.call, n.call)
      requires outcome.Thrown? ==> SamePosition(m, n)
      requires !outcome.Thrown? ==> v == u && o == n && Progressed(u, m, n)
      ensures Turned(v, m, o)
    {
      hide Progressed;
    }

    method HandleError()
      requires HoldsInLoop()
      modifies world
      ensures Went(old(T()), old(Here()), T(), Here()) && Holds(LoopTop)
    {
      hide Run, Recorded, Went, Acted, Grows, Between, Then;
      Laws();
      ghost var pc: Pc :| InLoop(pc) && Holds(pc);
      Act(Fail, pc, world.db, LoopTop);
    }

    method ReleaseLease() returns (released: bool)
      requires Holds(LoopTop)
      modifies world, this`calls
      ensures Went(old(T()), old(Here()), T(), Here()) && calls == old(calls) + 1 && Holds(Stopped)
      ensures Errors() == old(Errors()) + if released then 0 else 1
      ensures released ==> !Owns(world.db, id)
    {
      hide Run, Recorded, Went, Acted, Grows, Between, Throwing, Then;
      Laws();
      var f := Call(LoopTop);
      if f == Fails { Die(); return false; }
      Act(Release, LoopTop, if Owns(world.db, id) then world.db.(lease := None) else world.db, Stopped);
      return f != Lost;
    }

    /**
     * `runLiveMode`, from taking the lease to giving it back, for `turns` turns. Refinement:
     * whatever the calls answer and however the world interferes, all that has happened is a run
     * of the step machine, and this object's variables are the ones that run gives the worker. And
     * each turn is accounted for, as is the ending.
     */
    method RunLiveMode(retries: nat, turns: nat) returns (ending: Ending, ghost marks: seq<Mark>)
      requires Holds(Stopped)
      modifies world, this`calls, this`currentBlock, this`lastBlockHash
      ensures Went(old(T()), old(Here()), T(), Here()) && Holds(Stopped)
      ensures Run(world.cfg, world.initial, world.events) == Some(world.now) && world.now.db == world.db
      ensures AllTurned(T(), marks)
      ensures match ending
              case NotAcquired =>
                !AllWell(T(), old(calls), calls) || GaveUp(T(), old(Here()), Here(), retries)
              case Died => !AllWell(T(), old(calls), calls)
              case LeaseLost => marks != [] && LeaseGone(T(), marks[|marks| - 1], Here())
              case Finished => |marks| == turns + 1 && !Owns(world.db, id) && SamePosition(marks[turns], Here())
      ensures IndexerCoverage.Fresh(world.initial) && world.db.checkpoint.Some? ==>
                IndexerCoverage.Covers(world.db.rows, world.cfg.start, world.db.checkpoint.value.next)
    {
      hide Run, Step, Recorded, Holds, Went, Acted, Grows, Between, IndexerCoverage.Fresh, IndexerCoverage.Covers,
        Turned, Granted, GaveUp, LeaseGone, Throwing;
      Laws();
      marks := [];
      var acquired := AcquireLease(retries);
      if !acquired {
        ending := NotAcquired;
      } else {
        var ready := ReadCheckpoint();
        if !ready {
          ending := Died;
        } else {
          ghost var before := Here();
          ending, marks := Loop(turns);
          if ending == Died {
            ThrownSince(T(), old(calls), before.call, marks, Here());
          }
        }
      }
      CoveredNow();
    }

    lemma CoveredNow()
      requires exists pc: Pc :: Holds(pc)
      ensures Run(world.cfg, world.initial, world.events) == Some(world.now) && world.now.db == world.db
      ensures IndexerCoverage.Fresh(world.initial) && world.db.checkpoint.Some? ==>
                IndexerCoverage.Covers(world.db.rows, world.cfg.start, world.db.checkpoint.value.next)
    {
      hide Recorded, Run;
      if IndexerCoverage.Fresh(world.initial) {
        IndexerCoverage.CheckpointCoverage(world.cfg, world.initial, world.events);
      }
    }
  }
}
