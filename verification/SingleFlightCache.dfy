/**
 * The read-through cache with single flight, one key at a time: any number of callers
 * interleave their Redis calls, and at any moment a call may be lost before or after it
 * took effect, the value or the lock may expire, and a waiting caller may give up.
 */
module SingleFlightCache {
  import opened Prelude

  /** A cached value, by its JSON text. */
  type Json = nat

  type CallerId = nat

  /** What Redis holds under the key and under its lock key. The lock names no owner. */
  datatype Redis = Redis(value: Option<Json>, lock: bool)

  /** How a Redis call ends: with its reply, or lost with or without its effect. */
  datatype Reply = Fine | LostBefore | LostAfter

  datatype Pc =
    | Idle
    | Read
    | Acquire
    | Wait
    | Compute(locked: bool)
    | Write(locked: bool, result: Json)
    | Release(outcome: Option<Json>)
    | Done(outcome: Option<Json>)          // None: compute threw

  datatype Act =
    | Call
    | DoRead(reply: Reply)
    | DoAcquire(reply: Reply)
    | DoPoll(reply: Reply)
    | GiveUp
    | DoCompute(result: Option<Json>)
    | DoWrite(wanted: bool, reply: Reply)
    | DoRelease(reply: Reply)

  datatype Event = Does(id: CallerId, act: Act) | ValueExpires | LockExpires

  datatype Outcome = Outcome(redis: Redis, pc: Pc)

  /** One action of a caller; None when it is not at a place where it can take it. */
  function Step(r: Redis, pc: Pc, a: Act): Option<Outcome> {
    match (pc, a)
    case (Idle, Call) => Some(Outcome(r, Read))
    case (Done(_), Call) => Some(Outcome(r, Read))
    case (Read, DoRead(reply)) =>
      Some(Outcome(r, if reply.Fine? && r.value.Some? then Done(r.value) else Acquire))
    case (Acquire, DoAcquire(reply)) =>
      // a lost reply counts as not locked, whether or not the lock was taken
      var r' := if reply.LostBefore? then r else r.(lock := true);
      Some(Outcome(r', if reply.Fine? && !r.lock then Compute(true) else Wait))
    case (Wait, DoPoll(reply)) =>
      Some(Outcome(r, if reply.Fine? && r.value.Some? then Done(r.value) else Wait))
    case (Wait, GiveUp) => Some(Outcome(r, Compute(false)))
    case (Compute(locked), DoCompute(result)) =>
      Some(Outcome(r, match result
                      case Some(v) => Write(locked, v)
                      case None => if locked then Release(None) else Done(None)))
    case (Write(locked, v), DoWrite(wanted, reply)) =>
      var r' := if wanted && !reply.LostBefore? then r.(value := Some(v)) else r;
      Some(Outcome(r', if locked then Release(Some(v)) else Done(Some(v))))
    case (Release(outcome), DoRelease(reply)) =>
      Some(Outcome(if reply.LostBefore? then r else r.(lock := false), Done(outcome)))
    case _ => None
  }

  datatype Sys = Sys(redis: Redis, callers: map<CallerId, Pc>)

  function Next(s: Sys, e: Event): Option<Sys> {
    match e
    case ValueExpires => Some(s.(redis := s.redis.(value := None)))
    case LockExpires => Some(s.(redis := s.redis.(lock := false)))
    case Does(id, act) =>
      if id !in s.callers then None
      else
        match Step(s.redis, s.callers[id], act)
        case None => None
        case Some(o) => Some(Sys(o.redis, s.callers[id := o.pc]))
  }

  function Run(s: Sys, events: seq<Event>): Option<Sys>
    decreases |events|
  {
    if events == [] then Some(s)
    else
      match Run(s, events[..|events| - 1])
      case None => None
      case Some(mid) => Next(mid, events[|events| - 1])
  }

  /** Nothing cached, nothing locked, nobody calling. */
  ghost predicate Initial(s: Sys) {
    s.redis == Redis(None, false) && forall id :: id in s.callers ==> s.callers[id] == Idle
  }

  // ---------------------------------------------------------------- whose values

  /** The values the computes of a run have produced. */
  function Produced(events: seq<Event>): set<Json>
    decreases |events|
  {
    if events == [] then {}
    else
      var e := events[|events| - 1];
      Produced(events[..|events| - 1])
      + if e.Does? && e.act.DoCompute? && e.act.result.Some? then {e.act.result.value} else {}
  }

  /** The value a caller carries or has returned. */
  function Carried(pc: Pc): Option<Json> {
    match pc
    case Write(_, v) => Some(v)
    case Release(outcome) => outcome
    case Done(outcome) => outcome
    case _ => None
  }

  ghost predicate OnlyProduced(s: Sys, produced: set<Json>) {
    (s.redis.value.Some? ==> s.redis.value.value in produced) &&
    forall id :: id in s.callers && Carried(s.callers[id]).Some? ==> Carried(s.callers[id]).value in produced
  }

  lemma {:induction false} RunOnlyProduced(s: Sys, events: seq<Event>)
    requires Initial(s) && Run(s, events).Some?
    ensures OnlyProduced(Run(s, events).value, Produced(events))
    decreases |events|
  {
    if events != [] {
      RunOnlyProduced(s, events[..|events| - 1]);
    }
  }

  /**
   * Refinement of plain `compute`, under every interleaving, fault, expiry and lost lock:
   * whatever a call returns, some compute of that key has produced it.
   */
  lemma ReturnsOnlyComputedValues(s: Sys, events: seq<Event>, id: CallerId, v: Json)
    requires Initial(s) && Run(s, events).Some?
    requires id in Run(s, events).value.callers && Run(s, events).value.callers[id] == Done(Some(v))
    ensures v in Produced(events)
  {
    RunOnlyProduced(s, events);
  }

  // ---------------------------------------------------------------- single flight

  /** From taking the lock to deleting it. */
  predicate Holds(pc: Pc) {
    pc.Release? || (pc.Compute? && pc.locked) || (pc.Write? && pc.locked)
  }

  predicate Unlocked(pc: Pc) {
    (pc.Compute? && !pc.locked) || (pc.Write? && !pc.locked)
  }

  /** At most one caller holds the lock, it is taken exactly when one does, and nobody computes without it. */
  ghost predicate Exclusive(s: Sys) {
    (forall i, j :: i in s.callers && j in s.callers && Holds(s.callers[i]) && Holds(s.callers[j]) ==> i == j) &&
    (s.redis.lock <==> exists i :: i in s.callers && Holds(s.callers[i])) &&
    (forall i :: i in s.callers ==> !Unlocked(s.callers[i]))
  }

  /**
   * What ends exclusion: a held lock expires, a waiting caller gives up, a taken lock's reply is
   * lost on the way back, or a release is lost on the way out.
   */
  predicate Breaks(s: Sys, e: Event) {
    match e
    case LockExpires => s.redis.lock
    case Does(_, GiveUp) => true
    case Does(_, DoAcquire(reply)) => reply.LostAfter? && !s.redis.lock
    case Does(_, DoRelease(reply)) => reply.LostBefore?
    case _ => false
  }

  lemma UnbrokenKeepsExclusive(s: Sys, e: Event)
    requires Exclusive(s) && !Breaks(s, e) && Next(s, e).Some?
    ensures Exclusive(Next(s, e).value)
  {
    var t := Next(s, e).value;
    if e.Does? {
      var pc, pc' := s.callers[e.id], t.callers[e.id];
      if Holds(pc') {
        assert e.id in t.callers && Holds(t.callers[e.id]);
      }
      if Holds(pc) {
        assert e.id in s.callers && Holds(s.callers[e.id]);
      } else if s.redis.lock {
        var i :| i in s.callers && Holds(s.callers[i]);
        assert i in t.callers && Holds(t.callers[i]);
      }
    } else if s.redis.lock {
      var i :| i in s.callers && Holds(s.callers[i]);
      assert i in t.callers && Holds(t.callers[i]);
    }
  }

  lemma BrokenEndsExclusive(s: Sys, e: Event)
    requires Exclusive(s) && Breaks(s, e) && Next(s, e).Some?
    ensures !Exclusive(Next(s, e).value)
  {
    var t := Next(s, e).value;
    if e.LockExpires? {
      var i :| i in s.callers && Holds(s.callers[i]);
      assert i in t.callers && Holds(t.callers[i]);
    } else if e.act.GiveUp? {
      assert e.id in t.callers && Unlocked(t.callers[e.id]);
    } else if e.act.DoAcquire? {
      assert t.redis.lock;
      forall i | i in t.callers
        ensures !Holds(t.callers[i])
      {
        assert i in s.callers && !Holds(s.callers[i]);
      }
    } else {
      // the holder is gone and the lock stays
      assert e.id in s.callers && Holds(s.callers[e.id]) && t.redis.lock;
      forall i | i in t.callers
        ensures !Holds(t.callers[i])
      {
        assert i != e.id ==> !Holds(s.callers[i]);
      }
    }
  }

  /** Exactly which events a step of exclusion survives, whatever else fails or expires. */
  lemma StepKeepsExclusiveIff(s: Sys, e: Event)
    requires Exclusive(s) && Next(s, e).Some?
    ensures Exclusive(Next(s, e).value) <==> !Breaks(s, e)
  {
    if Breaks(s, e) {
      BrokenEndsExclusive(s, e);
    } else {
      UnbrokenKeepsExclusive(s, e);
    }
  }

  /** No event of the run ends exclusion where it happens. */
  ghost predicate Unbroken(s: Sys, events: seq<Event>)
    decreases |events|
  {
    events == [] ||
    var front := events[..|events| - 1];
    Unbroken(s, front) && (Run(s, front).Some? ==> !Breaks(Run(s, front).value, events[|events| - 1]))
  }

  ghost predicate AlwaysExclusive(s: Sys, events: seq<Event>)
    decreases |events|
  {
    (events == [] || AlwaysExclusive(s, events[..|events| - 1])) &&
    (Run(s, events).Some? ==> Exclusive(Run(s, events).value))
  }

  /** Over whole runs: exclusion holds in every state exactly when no event breaks it. */
  lemma {:induction false} ExclusiveIffUnbroken(s: Sys, events: seq<Event>)
    requires Initial(s) && Run(s, events).Some?
    ensures AlwaysExclusive(s, events) <==> Unbroken(s, events)
    decreases |events|
  {
    if events != [] {
      var front, e := events[..|events| - 1], events[|events| - 1];
      ExclusiveIffUnbroken(s, front);
      if Exclusive(Run(s, front).value) {
        StepKeepsExclusiveIff(Run(s, front).value, e);
      }
    }
  }

  lemma AlwaysMeansNow(s: Sys, events: seq<Event>)
    requires AlwaysExclusive(s, events) && Run(s, events).Some?
    ensures Exclusive(Run(s, events).value)
  {
  }

  /**
   * Single flight, over every run that none of those four events breaks, lost reads, polls and
   * writes and expiring values included: never two computes of the key at once, and no lock is
   * left behind when no call is active.
   */
  lemma SingleFlight(s: Sys, events: seq<Event>)
    requires Initial(s) && Run(s, events).Some? && Unbroken(s, events)
    ensures var t := Run(s, events).value;
            (forall i, j :: i in t.callers && j in t.callers && t.callers[i].Compute? && t.callers[j].Compute? ==>
             i == j) &&
            ((forall i :: i in t.callers ==> t.callers[i].Idle? || t.callers[i].Done?) ==> !t.redis.lock)
  {
    ExclusiveIffUnbroken(s, events);
    AlwaysMeansNow(s, events);
  }

  /** One more event on a run. */
  lemma RunExtends(s: Sys, events: seq<Event>, t: Sys, e: Event)
    requires Run(s, events) == Some(t) && Next(t, e).Some?
    ensures Run(s, events + [e]) == Next(t, e)
  {
    assert (events + [e])[..|events|] == events;
  }

  function Two(lock: bool, one: Pc, two: Pc): Sys {
    Sys(Redis(None, lock), map[1 := one, 2 := two])
  }

  /** No fault at all, but that a value may expire. */
  predicate Quiet(e: Event) {
    match e
    case ValueExpires => true
    case LockExpires => false
    case Does(_, DoRead(reply)) => reply.Fine?
    case Does(_, DoAcquire(reply)) => reply.Fine?
    case Does(_, DoPoll(reply)) => reply.Fine?
    case Does(_, DoWrite(_, reply)) => reply.Fine?
    case Does(_, DoRelease(reply)) => reply.Fine?
    case Does(_, GiveUp) => false
    case _ => true
  }

  lemma Goes(events: seq<Event>, t: Sys, e: Event, t': Sys) returns (events': seq<Event>)
    requires Run(Two(false, Idle, Idle), events) == Some(t) && Next(t, e) == Some(t')
    requires forall i :: 0 <= i < |events| ==> Quiet(events[i]) || events[i].LockExpires?
    requires Quiet(e) || e.LockExpires?
    ensures Run(Two(false, Idle, Idle), events') == Some(t')
    ensures forall i :: 0 <= i < |events'| ==> Quiet(events'[i]) || events'[i].LockExpires?
  {
    hide Step, Quiet, Two, Run, Next;
    RunExtends(Two(false, Idle, Idle), events, t, e);
    events' := events + [e];
  }

  lemma NothingRun()
    ensures Run(Two(false, Idle, Idle), []) == Some(Two(false, Idle, Idle))
  {
  }

  /**
   * A broken run can really compute twice: without any other fault, one expiry of the lock lets a
   * second caller compute beside the first.
   */
  lemma ExpiryBreaksSingleFlight() returns (events: seq<Event>)
    ensures Initial(Two(false, Idle, Idle))
    ensures forall i :: 0 <= i < |events| ==> Quiet(events[i]) || events[i].LockExpires?
    ensures Run(Two(false, Idle, Idle), events) == Some(Two(true, Compute(true), Compute(true)))
  {
    hide Run;
    NothingRun();
    var A, B := Compute(true), Acquire;
    assert forall p: Pc, q: Pc, x: Pc {:trigger map[1 := p, 2 := q], map[1 := x, 2 := q]} ::
      map[1 := p, 2 := q][1 := x] == map[1 := x, 2 := q];
    assert forall p: Pc, q: Pc, x: Pc {:trigger map[1 := p, 2 := q], map[1 := p, 2 := x]} ::
      map[1 := p, 2 := q][2 := x] == map[1 := p, 2 := x];
    events := Goes([], Two(false, Idle, Idle), Does(1, Call), Two(false, Read, Idle));
    events := Goes(events, Two(false, Read, Idle), Does(1, DoRead(Fine)), Two(false, B, Idle));
    events := Goes(events, Two(false, B, Idle), Does(1, DoAcquire(Fine)), Two(true, A, Idle));
    events := Goes(events, Two(true, A, Idle), LockExpires, Two(false, A, Idle));
    events := Goes(events, Two(false, A, Idle), Does(2, Call), Two(false, A, Read));
    events := Goes(events, Two(false, A, Read), Does(2, DoRead(Fine)), Two(false, A, B));
    events := Goes(events, Two(false, A, B), Does(2, DoAcquire(Fine)), Two(true, A, A));
  }
}
