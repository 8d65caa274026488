/**
 * What the cache is for: a value that was written is returned instead of computed, and without
 * faults a key is computed once, exactly as long as nobody who has missed it takes the lock after
 * the value has come in.
 */
module CacheReuse {
  import opened Prelude
  import opened SingleFlightCache

  // ---------------------------------------------------------------- what is cached stays and is used

  /** A write that takes effect. */
  predicate Stores(e: Event) {
    e.Does? && e.act.DoWrite? && e.act.wanted && !e.act.reply.LostBefore?
  }

  /** Nothing in the stretch overwrites the value or lets it expire. */
  predicate Untouched(events: seq<Event>) {
    forall i :: 0 <= i < |events| ==> !events[i].ValueExpires? && !Stores(events[i])
  }

  lemma {:induction false} ValueStays(s: Sys, events: seq<Event>)
    requires Run(s, events).Some? && Untouched(events)
    ensures Run(s, events).value.redis.value == s.redis.value
    decreases |events|
  {
    if events != [] {
      ValueStays(s, events[..|events| - 1]);
    }
  }

  /** A value written, wanted and not lost is in the cache until the next write or its expiry. */
  lemma WrittenStays(s: Sys, id: CallerId, reply: Reply, events: seq<Event>)
    requires id in s.callers && s.callers[id].Write? && !reply.LostBefore?
    requires Run(s, [Does(id, DoWrite(true, reply))] + events).Some? && Untouched(events)
    ensures Run(s, [Does(id, DoWrite(true, reply))] + events).value.redis.value == Some(s.callers[id].result)
  {
    hide Step;
    var write := Does(id, DoWrite(true, reply));
    RunSplits(s, write, events);
    ValueStays(Next(s, write).value, events);
    WriteStores(s, id, reply);
  }

  lemma WriteStores(s: Sys, id: CallerId, reply: Reply)
    requires id in s.callers && s.callers[id].Write? && !reply.LostBefore?
    ensures var t := Next(s, Does(id, DoWrite(true, reply)));
            t.Some? && t.value.redis.value == Some(s.callers[id].result)
  {
  }

  lemma {:induction false} RunSplits(s: Sys, e: Event, events: seq<Event>)
    requires Run(s, [e] + events).Some?
    ensures Next(s, e).Some? && Run(Next(s, e).value, events) == Run(s, [e] + events)
    decreases |events|
  {
    hide Next;
    var all := [e] + events;
    if events == [] {
      assert all[..0] == [];
    } else {
      assert all[..|all| - 1] == [e] + events[..|events| - 1];
      RunSplits(s, e, events[..|events| - 1]);
    }
  }

  /** Caller `id` starts no new call, its looks at the cache all arrive, and it is patient. */
  predicate Looks(events: seq<Event>, id: CallerId) {
    forall i :: 0 <= i < |events| && events[i].Does? && events[i].id == id ==>
      match events[i].act
      case Call => false
      case GiveUp => false
      case DoRead(reply) => reply.Fine?
      case DoPoll(reply) => reply.Fine?
      case _ => true
  }

  predicate NeverComputes(events: seq<Event>, id: CallerId) {
    forall i :: 0 <= i < |events| ==> !(events[i].Does? && events[i].id == id && events[i].act.DoCompute?)
  }

  /**
   * While a value is cached, a call that looks at the cache returns that value, and computes nothing:
   * one that begins, and one that waits for another caller's result.
   */
  lemma {:induction false} CachedIsReturned(s: Sys, events: seq<Event>, id: CallerId, v: Json)
    requires Run(s, events).Some? && Untouched(events) && s.redis.value == Some(v)
    requires id in s.callers && (s.callers[id].Read? || s.callers[id].Wait?) && Looks(events, id)
    ensures var t := Run(s, events).value;
            id in t.callers && (t.callers[id] == s.callers[id] || t.callers[id] == Done(Some(v)))
    ensures NeverComputes(events, id)
    ensures (exists i :: 0 <= i < |events| && events[i].Does? && events[i].id == id) ==>
              Run(s, events).value.callers[id] == Done(Some(v))
    decreases |events|
  {
    if events != [] {
      var front, e := events[..|events| - 1], events[|events| - 1];
      CachedIsReturned(s, front, id, v);
      ValueStays(s, front);
      LookFinds(Run(s, front).value, e, id, v);
    }
  }

  lemma LookFinds(s: Sys, e: Event, id: CallerId, v: Json)
    requires Next(s, e).Some? && s.redis.value == Some(v)
    requires id in s.callers && (s.callers[id].Read? || s.callers[id].Wait? || s.callers[id] == Done(Some(v)))
    requires Looks([e], id)
    ensures var t := Next(s, e).value;
            id in t.callers && t.callers[id] == if e.Does? && e.id == id then Done(Some(v)) else s.callers[id]
    ensures NeverComputes([e], id)
    ensures e.Does? && e.id == id ==> !s.callers[id].Done?
  {
    assert [e][0] == e;
  }

  // ---------------------------------------------------------------- computing once

  /** No fault, no expiry, nobody impatient, and every value wanted. */
  predicate Smooth(e: Event) {
    Quiet(e) && !e.ValueExpires? && !(e.Does? && e.act.DoWrite? && !e.act.wanted)
  }

  function Successes(events: seq<Event>): nat
    decreases |events|
  {
    if events == [] then 0
    else
      var e := events[|events| - 1];
      Successes(events[..|events| - 1]) + if e.Does? && e.act.DoCompute? && e.act.result.Some? then 1 else 0
  }

  /** A caller that missed takes the lock although the value has come in since: it does not look again. */
  predicate TakesLate(s: Sys, e: Event) {
    e.Does? && e.act.DoAcquire? && !s.redis.lock && s.redis.value.Some?
  }

  ghost predicate NobodyLate(s: Sys, events: seq<Event>)
    decreases |events|
  {
    events == [] ||
    var front := events[..|events| - 1];
    NobodyLate(s, front) && (Run(s, front).Some? ==> !TakesLate(Run(s, front).value, events[|events| - 1]))
  }

  /** Once a value is cached, nobody computes another. */
  ghost predicate Settled(s: Sys) {
    s.redis.value.Some? ==> forall id :: id in s.callers ==> !s.callers[id].Compute?
  }

  ghost predicate AlwaysSettled(s: Sys, events: seq<Event>)
    decreases |events|
  {
    (events == [] || AlwaysSettled(s, events[..|events| - 1])) &&
    (Run(s, events).Some? ==> Settled(Run(s, events).value))
  }

  ghost predicate AllSmooth(events: seq<Event>) {
    forall i :: 0 <= i < |events| ==> Smooth(events[i])
  }

  lemma {:induction false} SmoothIsUnbroken(s: Sys, events: seq<Event>)
    requires AllSmooth(events)
    ensures Unbroken(s, events)
    decreases |events|
  {
    if events != [] {
      SmoothIsUnbroken(s, events[..|events| - 1]);
      assert Smooth(events[|events| - 1]);
    }
  }

  lemma SmoothIsExclusive(s: Sys, events: seq<Event>)
    requires Initial(s) && Run(s, events).Some? && AllSmooth(events)
    ensures Exclusive(Run(s, events).value)
  {
    SmoothIsUnbroken(s, events);
    ExclusiveIffUnbroken(s, events);
    AlwaysMeansNow(s, events);
  }

  /** Without faults, only a late taker of the lock unsettles the cache. */
  lemma StepKeepsSettledIff(s: Sys, e: Event)
    requires Exclusive(s) && Settled(s) && Smooth(e) && Next(s, e).Some?
    ensures Settled(Next(s, e).value) <==> !TakesLate(s, e)
  {
    var t := Next(s, e).value;
    if TakesLate(s, e) {
      assert e.id in t.callers && t.callers[e.id].Compute?;
    } else if e.Does? && e.act.DoWrite? {
      assert Holds(s.callers[e.id]);
      forall id | id in t.callers
        ensures !t.callers[id].Compute?
      {
        assert id != e.id ==> !Holds(s.callers[id]) && !Unlocked(s.callers[id]);
      }
    }
  }

  /** Over whole runs without faults: nobody computes what is cached exactly when nobody takes the lock late. */
  lemma {:induction false} SettledIffNobodyLate(s: Sys, events: seq<Event>)
    requires Initial(s) && Run(s, events).Some? && AllSmooth(events)
    ensures AlwaysSettled(s, events) <==> NobodyLate(s, events)
    decreases |events|
  {
    hide Exclusive, Settled, Smooth, TakesLate, Next;
    if events == [] {
      NothingSettled(s);
    } else {
      var front, e := events[..|events| - 1], events[|events| - 1];
      assert forall i :: 0 <= i < |front| ==> front[i] == events[i];
      SettledIffNobodyLate(s, front);
      SmoothIsExclusive(s, front);
      if Settled(Run(s, front).value) {
        StepKeepsSettledIff(Run(s, front).value, e);
      }
    }
  }

  lemma NothingSettled(s: Sys)
    requires Initial(s)
    ensures Settled(s)
  {
  }

  /** No compute succeeds while a value is cached. */
  ghost predicate NoSecond(s: Sys, events: seq<Event>)
    decreases |events|
  {
    events == [] ||
    var front, e := events[..|events| - 1], events[|events| - 1];
    NoSecond(s, front) &&
    (e.Does? && e.act.DoCompute? && e.act.result.Some? && Run(s, front).Some? ==>
      Run(s, front).value.redis.value.None?)
  }

  /** How far the first success has come: nothing yet, or in the cache or about to be. */
  ghost predicate Counted(s: Sys, successes: nat) {
    (s.redis.value.Some? ==> successes >= 1) &&
    (successes >= 1 && s.redis.value.None? ==> exists id :: id in s.callers && s.callers[id].Write?)
  }

  lemma CountStep(s: Sys, e: Event, successes: nat)
    requires Exclusive(s) && Smooth(e) && Next(s, e).Some? && Counted(s, successes)
    requires (exists id :: id in s.callers && s.callers[id].Write?) ==> successes >= 1
    ensures var t, succeeds := Next(s, e).value, e.Does? && e.act.DoCompute? && e.act.result.Some?;
      && Counted(t, successes + if succeeds then 1 else 0)
      && ((exists id :: id in t.callers && t.callers[id].Write?) ==> successes + (if succeeds then 1 else 0) >= 1)
      && (succeeds ==> (s.redis.value.Some? <==> successes >= 1))
  {
    var t := Next(s, e).value;
    if e.Does? {
      if e.act.DoCompute? && e.act.result.Some? {
        assert e.id in t.callers && t.callers[e.id].Write? && Holds(s.callers[e.id]);
        forall id | id in s.callers
          ensures s.callers[id].Write? ==> id == e.id
        {
          assert !Unlocked(s.callers[id]);
        }
      } else if t.redis.value.None? && exists id :: id in s.callers && s.callers[id].Write? {
        var id :| id in s.callers && s.callers[id].Write?;
        assert id in t.callers && t.callers[id].Write?;
      }
    }
  }

  lemma {:induction false} Counts(s: Sys, events: seq<Event>)
    requires Initial(s) && Run(s, events).Some? && AllSmooth(events)
    ensures var t := Run(s, events).value;
      && Counted(t, Successes(events))
      && ((exists id :: id in t.callers && t.callers[id].Write?) ==> Successes(events) >= 1)
    ensures Successes(events) <= 1 <==> NoSecond(s, events)
    decreases |events|
  {
    hide Exclusive, Counted, Smooth, Next;
    if events == [] {
      NothingCounted(s);
    } else {
      var front, e := events[..|events| - 1], events[|events| - 1];
      assert forall i :: 0 <= i < |front| ==> front[i] == events[i];
      Counts(s, front);
      SmoothIsExclusive(s, front);
      CountStep(Run(s, front).value, e, Successes(front));
    }
  }

  lemma NothingCounted(s: Sys)
    requires Initial(s)
    ensures Counted(s, 0) && forall id :: id in s.callers ==> !s.callers[id].Write?
  {
  }

  /**
   * Without any fault, expiry or impatience: at most one compute succeeds exactly when none does
   * while a value is cached.
   */
  lemma ComputesOnceIff(s: Sys, events: seq<Event>)
    requires Initial(s) && Run(s, events).Some? && AllSmooth(events)
    ensures Successes(events) <= 1 <==> NoSecond(s, events)
  {
    Counts(s, events);
  }

  lemma {:induction false} SettledHasNoSecond(s: Sys, events: seq<Event>)
    requires AlwaysSettled(s, events) && Run(s, events).Some?
    ensures NoSecond(s, events)
    decreases |events|
  {
    if events != [] {
      SettledHasNoSecond(s, events[..|events| - 1]);
    }
  }

  lemma {:induction false} FewProduced(events: seq<Event>)
    ensures |Produced(events)| <= Successes(events)
    decreases |events|
  {
    if events != [] {
      FewProduced(events[..|events| - 1]);
    }
  }

  /**
   * The purpose of the lock: if, moreover, nobody takes it after the value has come in, at most one
   * compute succeeds, and all calls that return a value return that one.
   */
  lemma OneValueForAll(s: Sys, events: seq<Event>)
    requires Initial(s) && Run(s, events).Some? && AllSmooth(events) && NobodyLate(s, events)
    ensures Successes(events) <= 1
    ensures var t := Run(s, events).value;
            forall i, j, v, w ::
              i in t.callers && j in t.callers && t.callers[i] == Done(Some(v)) && t.callers[j] == Done(Some(w)) ==>
                v == w
  {
    SettledIffNobodyLate(s, events);
    SettledHasNoSecond(s, events);
    ComputesOnceIff(s, events);
    FewProduced(events);
    var t := Run(s, events).value;
    forall i, j, v, w | i in t.callers && j in t.callers && t.callers[i] == Done(Some(v)) &&
           t.callers[j] == Done(Some(w))
      ensures v == w
    {
      ReturnsOnlyComputedValues(s, events, i, v);
      ReturnsOnlyComputedValues(s, events, j, w);
      if v != w {
        TwoOfMany(Produced(events), v, w);
      }
    }
  }

  function Both(value: Option<Json>, lock: bool, one: Pc, two: Pc): Sys {
    Sys(Redis(value, lock), map[1 := one, 2 := two])
  }

  /** Caller 1 or 2 takes one more step of a run without faults. */
  lemma Smoothly(events: seq<Event>, value: Option<Json>, lock: bool, one: Pc, two: Pc, id: CallerId, act: Act,
                 value': Option<Json>, lock': bool, pc: Pc)
    returns (events': seq<Event>)
    requires Run(Both(None, false, Idle, Idle), events) == Some(Both(value, lock, one, two)) && AllSmooth(events)
    requires (id == 1 || id == 2) && Smooth(Does(id, act))
    requires Step(Redis(value, lock), if id == 1 then one else two, act) == Some(Outcome(Redis(value', lock'), pc))
    ensures Run(Both(None, false, Idle, Idle), events')
         == Some(if id == 1 then Both(value', lock', pc, two) else Both(value', lock', one, pc))
    ensures AllSmooth(events')
    ensures Successes(events') == Successes(events) + if act.DoCompute? && act.result.Some? then 1 else 0
  {
    hide Step, Smooth, Run;
    var e := Does(id, act);
    assert map[1 := one, 2 := two][1 := pc] == map[1 := pc, 2 := two];
    assert map[1 := one, 2 := two][2 := pc] == map[1 := one, 2 := pc];
    RunExtends(Both(None, false, Idle, Idle), events, Both(value, lock, one, two), e);
    events' := events + [e];
    assert events'[..|events'| - 1] == events;
  }

  lemma NothingYet()
    ensures Run(Both(None, false, Idle, Idle), []) == Some(Both(None, false, Idle, Idle))
  {
  }

  /** Both miss, and the second takes the lock. */
  lemma BothMiss() returns (events: seq<Event>)
    ensures Run(Both(None, false, Idle, Idle), events) == Some(Both(None, true, Acquire, Compute(true)))
    ensures AllSmooth(events) && Successes(events) == 0
  {
    hide Run, Both;
    NothingYet();
    events := Smoothly([], None, false, Idle, Idle, 1, Call, None, false, Read);
    events := Smoothly(events, None, false, Read, Idle, 1, DoRead(Fine), None, false, Acquire);
    events := Smoothly(events, None, false, Acquire, Idle, 2, Call, None, false, Read);
    events := Smoothly(events, None, false, Acquire, Read, 2, DoRead(Fine), None, false, Acquire);
    events := Smoothly(events, None, false, Acquire, Acquire, 2, DoAcquire(Fine), None, true, Compute(true));
  }

  /** Both miss; the second computes, stores and unlocks, with the first about to take the lock. */
  lemma OneComputes() returns (events: seq<Event>)
    ensures Run(Both(None, false, Idle, Idle), events) == Some(Both(Some(7), false, Acquire, Done(Some(7))))
    ensures AllSmooth(events) && Successes(events) == 1
  {
    hide Run, Both;
    events := BothMiss();
    events := Smoothly(events, None, true, Acquire, Compute(true), 2, DoCompute(Some(7)), None, true, Write(true, 7));
    events := Smoothly(events, None, true, Acquire, Write(true, 7), 2, DoWrite(true, Fine), Some(7), true,
                       Release(Some(7)));
    events := Smoothly(events, Some(7), true, Acquire, Release(Some(7)), 2, DoRelease(Fine), Some(7), false,
                       Done(Some(7)));
  }

  /**
   * The lock does not make computing a thing done once: a caller that has missed takes it when it is
   * free again, does not look at the cache, and computes what is cached, with nothing going wrong.
   */
  lemma LateTakerComputesAgain() returns (events: seq<Event>)
    ensures Initial(Both(None, false, Idle, Idle)) && AllSmooth(events) && Successes(events) == 2
    ensures Run(Both(None, false, Idle, Idle), events) == Some(Both(Some(7), true, Write(true, 8), Done(Some(7))))
  {
    hide Run;
    events := OneComputes();
    var done := Done(Some(7));
    events := Smoothly(events, Some(7), false, Acquire, done, 1, DoAcquire(Fine), Some(7), true, Compute(true));
    events := Smoothly(events, Some(7), true, Compute(true), done, 1, DoCompute(Some(8)), Some(7), true,
                       Write(true, 8));
  }

  lemma TwoOfMany(s: set<Json>, v: Json, w: Json)
    requires v in s && w in s && v != w
    ensures |s| >= 2
  {
    assert |s - {v} - {w}| == |s| - 2;
  }
}
