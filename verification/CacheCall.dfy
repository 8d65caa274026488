/**
 * The call in its own form: the statements of `getOrCompute` over a shared Redis, with anything
 * free to happen at every await and every reply free to be lost. Its contract is refinement, and
 * the exact sequence of actions that the call comes to.
 */
module CacheCall {
  import opened Prelude
  import opened SingleFlightCache

  /** The actions of one caller in a run. */
  function Own(events: seq<Event>, id: CallerId): seq<Act>
    decreases |events|
  {
    if events == [] then []
    else
      var e := events[|events| - 1];
      Own(events[..|events| - 1], id) + if e.Does? && e.id == id then [e.act] else []
  }

  /** The shared Redis, and the run that has led to its present state. */
  class SharedRedis {
    ghost const initial: Sys
    var redis: Redis
    ghost var events: seq<Event>
    ghost var now: Sys

    ghost predicate Valid()
      reads this
    {
      Run(initial, events) == Some(now) && now.redis == redis
    }

    constructor (ghost callers: map<CallerId, Pc>)
      ensures Valid() && initial == Sys(Redis(None, false), callers) && events == [] && now == initial
    {
      redis, events := Redis(None, false), [];
      now, initial := Sys(Redis(None, false), callers), Sys(Redis(None, false), callers);
    }

    ghost predicate At(id: CallerId, pc: Pc)
      reads this
    {
      id in now.callers && now.callers[id] == pc
    }

    /** Anything but caller `me` may act. */
    method Await(ghost me: CallerId)
      requires Valid()
      modifies this
      ensures Valid() && old(events) <= events && Own(events, me) == old(Own(events, me))
      ensures forall pc: Pc :: old(At(me, pc)) ==> At(me, pc)
    {
    }

    /** Caller `id` takes an action, atomically. */
    method Take(id: CallerId, ghost pc: Pc, act: Act, after: Redis)
      requires Valid() && At(id, pc) && Step(redis, pc, act).Some? && Step(redis, pc, act).value.redis == after
      modifies this
      ensures Valid() && events == old(events) + [Does(id, act)] && redis == after
      ensures Own(events, id) == old(Own(events, id)) + [act]
      ensures At(id, Step(old(redis), pc, act).value.pc)
    {
      hide Step, Run;
      RunExtends(initial, events, now, Does(id, act));
      events := events + [Does(id, act)];
      assert events[..|events| - 1] == old(events);
      now := Next(now, Does(id, act)).value;
      redis := after;
    }
  }

  // ---------------------------------------------------------------- what a call comes to

  /** Polls from call number `c` on. */
  function Polls(replies: nat -> Reply, c: nat, n: nat): (acts: seq<Act>)
    ensures |acts| == n
  {
    if n == 0 then [] else Polls(replies, c, n - 1) + [DoPoll(replies(c + n - 1))]
  }

  /** Compute; store what is wanted; unlock if locked, also when compute has thrown. */
  function Finish(locked: bool, compute: Option<Json>, wanted: Json -> bool, replies: nat -> Reply, c: nat): seq<Act> {
    [DoCompute(compute)]
    + (if compute.Some? then [DoWrite(wanted(compute.value), StoreReply(compute, wanted, replies, c))] else [])
    + (if locked then [DoRelease(replies(if compute.Some? && wanted(compute.value) then c + 1 else c))] else [])
  }

  /** A value that is not wanted makes no call. */
  function StoreReply(compute: Option<Json>, wanted: Json -> bool, replies: nat -> Reply, c: nat): Reply
    requires compute.Some?
  {
    if wanted(compute.value) then replies(c) else Fine
  }

  /** It waits, and the `n`-th poll finds the value. */
  ghost predicate ServedByPoll(rest: seq<Act>, polls: nat, replies: nat -> Reply, c: nat, n: nat) {
    0 < n <= polls && rest == [DoAcquire(replies(c))] + Polls(replies, c + 1, n)
  }

  /**
   * After a miss: the caller takes the lock and computes; or waits and is served by a poll; or waits
   * in vain, as long as it may, and computes without the lock.
   */
  ghost predicate ComesAfterMiss(rest: seq<Act>, value: Option<Json>, polls: nat, compute: Option<Json>,
                                 wanted: Json -> bool, replies: nat -> Reply, c: nat) {
    || (value == compute && rest == [DoAcquire(replies(c))] + Finish(true, compute, wanted, replies, c + 1))
    || (value.Some? && exists n: nat :: ServedByPoll(rest, polls, replies, c, n))
    || (value == compute &&
        rest == [DoAcquire(replies(c))] + (Polls(replies, c + 1, polls) + [GiveUp])
                + Finish(false, compute, wanted, replies, c + 1 + polls))
  }

  lemma Associate(a: seq<Act>, b: seq<Act>, c: seq<Act>)
    ensures a + b + c == a + (b + c)
  {
  }

  class RedisCache {
    const shared: SharedRedis
    const id: CallerId
    const replies: nat -> Reply             // what becomes of this caller's Redis calls, one after another
    var calls: nat

    constructor (shared: SharedRedis, id: CallerId, replies: nat -> Reply)
      ensures this.shared == shared && this.id == id && this.replies == replies && calls == 0
    {
      this.shared, this.id, this.replies, this.calls := shared, id, replies, 0;
    }

    ghost predicate Holding(pc: Pc)
      reads this, shared
    {
      shared.Valid() && shared.At(id, pc)
    }

    ghost function Acts(): seq<Act>
      reads this, shared
    {
      Own(shared.events, id)
    }

    /** One Redis call: an await, and its reply. */
    method Redis(ghost pc: Pc) returns (reply: Reply)
      requires Holding(pc)
      modifies shared, this`calls
      ensures Holding(pc) && old(shared.events) <= shared.events && Acts() == old(Acts())
      ensures reply == replies(old(calls)) && calls == old(calls) + 1
    {
      hide Run, Own;
      shared.Await(id);
      reply := replies(calls);
      calls := calls + 1;
    }

    /** `read`: what Redis has, if the reply arrives. */
    method Read() returns (found: Option<Json>, ghost had: Option<Json>)
      requires Holding(Pc.Read)
      modifies shared, this`calls
      ensures old(shared.events) <= shared.events && calls == old(calls) + 1
      ensures Acts() == old(Acts()) + [DoRead(replies(old(calls)))]
      ensures Holding(if found.Some? then Done(found) else Acquire)
      ensures found == if replies(old(calls)).Fine? then had else None
      ensures |shared.events| > |old(shared.events)|
      ensures Looked(shared.initial, shared.events, |shared.events| - 1, Does(id, DoRead(replies(old(calls)))), had)
    {
      hide Run, Own;
      var reply := Redis(Pc.Read);
      had := shared.redis.value;
      found := if reply.Fine? then shared.redis.value else None;
      ghost var before := shared.events;
      shared.Take(id, Pc.Read, DoRead(reply), shared.redis);
      assert shared.events[..|shared.events| - 1] == before;
    }

    /** Event `k` is this one, and the cache held that when it happened. */
    ghost predicate Looked(initial: Sys, events: seq<Event>, k: nat, e: Event, had: Option<Json>) {
      k < |events| && events[k] == e && Run(initial, events[..k]).Some? &&
      Run(initial, events[..k]).value.redis.value == had
    }

    /** `waitFor`: poll until a value appears or the deadline, here `polls` turns away, passes. */
    method WaitFor(polls: nat) returns (found: Option<Json>, ghost n: nat)
      requires Holding(Wait)
      modifies shared, this`calls
      ensures old(shared.events) <= shared.events && calls == old(calls) + n
      ensures Holding(if found.Some? then Done(found) else Compute(false))
      ensures found.Some? ==> 0 < n <= polls && Acts() == old(Acts()) + Polls(replies, old(calls), n)
      ensures found.None? ==> n == polls && Acts() == old(Acts()) + (Polls(replies, old(calls), n) + [GiveUp])
    {
      hide Run, Own, Step, Holding;
      n := 0;
      ghost var c, before := calls, Acts();
      for turn := 0 to polls
        invariant Holding(Wait) && old(shared.events) <= shared.events && calls == c + turn && n == turn
        invariant Acts() == before + Polls(replies, c, turn)
      {
        found := Poll();
        n := n + 1;
        Associate(before, Polls(replies, c, turn), [DoPoll(replies(c + turn))]);
        if found.Some? { return; }
      }
      Gives();
      Associate(before, Polls(replies, c, polls), [GiveUp]);
      return None, n;
    }

    method Poll() returns (found: Option<Json>)
      requires Holding(Wait)
      modifies shared, this`calls
      ensures old(shared.events) <= shared.events && calls == old(calls) + 1
      ensures Acts() == old(Acts()) + [DoPoll(replies(old(calls)))]
      ensures Holding(if found.Some? then Done(found) else Wait)
    {
      hide Run, Own;
      var reply := Redis(Wait);
      found := if reply.Fine? then shared.redis.value else None;
      shared.Take(id, Wait, DoPoll(reply), shared.redis);
    }

    /** The deadline has passed. */
    method Gives()
      requires Holding(Wait)
      modifies shared
      ensures old(shared.events) <= shared.events && Acts() == old(Acts()) + [GiveUp] && Holding(Compute(false))
    {
      hide Run, Own;
      shared.Take(id, Wait, GiveUp, shared.redis);
    }

    method Begin()
      requires Holding(Idle)
      modifies shared
      ensures old(shared.events) <= shared.events && Acts() == old(Acts()) + [Call] && Holding(Pc.Read)
    {
      hide Run, Own;
      shared.Take(id, Idle, Call, shared.redis);
    }

    /** What follows a miss: the lock or the wait, and a compute unless a poll was served. */
    method AfterMiss(polls: nat, compute: Option<Json>, wanted: Json -> bool)
      returns (value: Option<Json>, ghost rest: seq<Act>)
      requires Holding(Acquire)
      modifies shared, this`calls
      ensures Holding(Done(value)) && old(shared.events) <= shared.events
      ensures Acts() == old(Acts()) + rest
      ensures ComesAfterMiss(rest, value, polls, compute, wanted, replies, old(calls))
    {
      hide Run, Own, Step, Holding, Finish, Polls;
      ghost var c, before := calls, Acts();
      var locked := TryAcquire();
      rest := [DoAcquire(replies(c))];
      if locked {
        value := ComputeAndStore(true, compute, wanted);
        Associate(before, rest, Finish(true, compute, wanted, replies, c + 1));
        rest := rest + Finish(true, compute, wanted, replies, c + 1);
        return;
      }
      ghost var n;
      value, n := WaitFor(polls);
      if value.Some? {
        Associate(before, rest, Polls(replies, c + 1, n));
        rest := rest + Polls(replies, c + 1, n);
        assert ServedByPoll(rest, polls, replies, c, n);
        return;
      }
      Associate(before, rest, Polls(replies, c + 1, polls) + [GiveUp]);
      rest := rest + (Polls(replies, c + 1, polls) + [GiveUp]);
      value := ComputeAndStore(false, compute, wanted);
      Associate(before, rest, Finish(false, compute, wanted, replies, c + 1 + polls));
      rest := rest + Finish(false, compute, wanted, replies, c + 1 + polls);
    }

    /**
     * `getOrCompute`, when `compute` would come to that and `wanted` is `cacheIf`. Whatever happens
     * around it, the call is a run of the step machine that ends by returning. It looks at the cache
     * first, and if it finds the value there it returns that and does nothing else; after a miss it
     * comes to one of three sequences of actions.
     */
    method GetOrCompute(polls: nat, compute: Option<Json>, wanted: Json -> bool)
      returns (value: Option<Json>, ghost rest: seq<Act>, ghost k: nat, ghost had: Option<Json>)
      requires Holding(Idle)
      modifies shared, this`calls
      ensures Holding(Done(value)) && old(shared.events) <= shared.events
      ensures Acts() == old(Acts()) + ([Call, DoRead(replies(old(calls)))] + rest)
      ensures |old(shared.events)| <= k
      ensures Looked(shared.initial, shared.events, k, Does(id, DoRead(replies(old(calls)))), had)
      ensures if replies(old(calls)).Fine? && had.Some? then value == had && rest == []
              else ComesAfterMiss(rest, value, polls, compute, wanted, replies, old(calls) + 1)
      ensures Initial(shared.initial) && value.Some? ==> value.value in Produced(shared.events)
    {
      hide Run, Produced, Initial, Own, Looked, Step, Holding, ComesAfterMiss;
      ghost var c, before := calls, Acts();
      Begin();
      value, had := Read();
      k := |shared.events| - 1;
      ghost var looked := shared.events;
      ghost var opening := [Call, DoRead(replies(c))];
      Associate(before, [Call], [DoRead(replies(c))]);
      assert [Call] + [DoRead(replies(c))] == opening;
      rest := [];
      if value.None? {
        value, rest := AfterMiss(polls, compute, wanted);
        LookedStays(looked, k, Does(id, DoRead(replies(c))), had);
      }
      Associate(before, opening, rest);
      if Initial(shared.initial) && value.Some? {
        OneOfTheirs(value.value);
      }
    }

    lemma OneOfTheirs(v: Json)
      requires Holding(Done(Some(v))) && Initial(shared.initial)
      ensures v in Produced(shared.events)
    {
      hide Run, Produced, Initial;
      ReturnsOnlyComputedValues(shared.initial, shared.events, id, v);
    }

    lemma LookedStays(events: seq<Event>, k: nat, e: Event, had: Option<Json>)
      requires Looked(shared.initial, events, k, e, had) && events <= shared.events
      ensures Looked(shared.initial, shared.events, k, e, had)
    {
      hide Run;
      assert events[..k] == shared.events[..k];
    }

    method TryAcquire() returns (locked: bool)
      requires Holding(Acquire)
      modifies shared, this`calls
      ensures Holding(if locked then Compute(true) else Wait) && old(shared.events) <= shared.events
      ensures calls == old(calls) + 1 && Acts() == old(Acts()) + [DoAcquire(replies(old(calls)))]
    {
      hide Run, Own;
      var reply := Redis(Acquire);
      locked := reply.Fine? && !shared.redis.lock;
      shared.Take(id, Acquire, DoAcquire(reply),
                  if reply.LostBefore? then shared.redis else shared.redis.(lock := true));
    }

    /** The `try`/`finally`: the lock is deleted also when compute throws. */
    method ComputeAndStore(locked: bool, compute: Option<Json>, wanted: Json -> bool) returns (value: Option<Json>)
      requires Holding(Compute(locked))
      modifies shared, this`calls
      ensures Holding(Done(value)) && old(shared.events) <= shared.events && value == compute
      ensures Acts() == old(Acts()) + Finish(locked, compute, wanted, replies, old(calls))
    {
      hide Run, Own, Step, Holding;
      ghost var before, done := Acts(), [DoCompute(compute)];
      value := compute;
      Computes(locked, value);
      if value.Some? {
        ghost var write := [DoWrite(wanted(value.value), StoreReply(value, wanted, replies, calls))];
        Store(locked, value.value, wanted);
        Associate(before, done, write);
        done := done + write;
      }
      if locked {
        ghost var release := [DoRelease(replies(calls))];
        Unlock(value);
        Associate(before, done, release);
        done := done + release;
      }
      assert done == Finish(locked, compute, wanted, replies, old(calls));
    }

    method Computes(locked: bool, value: Option<Json>)
      requires Holding(Compute(locked))
      modifies shared
      ensures old(shared.events) <= shared.events && Acts() == old(Acts()) + [DoCompute(value)]
      ensures Holding(if value.Some? then Write(locked, value.value) else if locked then Release(None) else Done(None))
    {
      hide Run, Own;
      shared.Await(id);
      shared.Take(id, Compute(locked), DoCompute(value), shared.redis);
    }

    /** The write-back, skipped for a value that is not to be cached. */
    method Store(locked: bool, result: Json, wanted: Json -> bool)
      requires Holding(Write(locked, result))
      modifies shared, this`calls
      ensures Holding(if locked then Release(Some(result)) else Done(Some(result)))
      ensures old(shared.events) <= shared.events && calls == old(calls) + if wanted(result) then 1 else 0
      ensures Acts() == old(Acts()) + [DoWrite(wanted(result), StoreReply(Some(result), wanted, replies, old(calls)))]
    {
      hide Run, Own;
      var reply := Fine;
      if wanted(result) {
        reply := Redis(Write(locked, result));
      }
      shared.Take(id, Write(locked, result), DoWrite(wanted(result), reply),
                  if wanted(result) && !reply.LostBefore? then shared.redis.(value := Some(result)) else shared.redis);
    }

    method Unlock(value: Option<Json>)
      requires Holding(Release(value))
      modifies shared, this`calls
      ensures Holding(Done(value)) && old(shared.events) <= shared.events
      ensures calls == old(calls) + 1 && Acts() == old(Acts()) + [DoRelease(replies(old(calls)))]
    {
      hide Run, Own;
      var reply := Redis(Release(value));
      shared.Take(id, Release(value), DoRelease(reply),
                  if reply.LostBefore? then shared.redis else shared.redis.(lock := false));
    }
  }
}
