/**
 * A scan against the clock: how long each rule takes decides when the scan's time limit and the
 * caller's abort reach the rules behind it. With the clock in the scan's state, failure isolation
 * has an exact condition on the instants at which a rule ends.
 */
module RiskClock {
  import opened Prelude
  import opened Arithmetic
  import opened RiskRegistry
  import opened RiskScore
  import opened RiskScan

  /** The time limits in milliseconds, and when the caller aborts, counted from the scan's start. */
  datatype Limits = Limits(scan: nat, perRule: nat, callerAborts: Option<nat>)

  predicate Valid(l: Limits) { l.scan > 0 && l.perRule > 0 }

  /** The signal at an instant. */
  function SignalOf(l: Limits, now: nat): Signal {
    if l.callerAborts.Some? && l.callerAborts.value <= now then CallerAborted
    else if l.scan <= now then Expired
    else Running
  }

  /** When the signal first aborts. */
  function AbortTime(l: Limits): (t: nat)
    ensures forall now: nat :: SignalOf(l, now) == Running <==> now < t
  {
    if l.callerAborts.Some? && l.callerAborts.value < l.scan then l.callerAborts.value else l.scan
  }

  /**
   * What a rule does, whenever it is started: how it ends and after how long if nobody stops it, and
   * how soon it throws once the signal it was given aborts, if it heeds that at all.
   */
  datatype Behaviour = Behaviour(reply: Reply, takes: nat, heeds: Option<nat>)

  /** Left alone but for its own time limit. */
  function Alone(l: Limits, b: Behaviour): (Reply, nat) {
    if b.takes < l.perRule then (b.reply, b.takes) else (TimesOut, l.perRule)
  }

  /** Started at an instant when nothing is aborted. */
  function Ends(l: Limits, start: nat, b: Behaviour): (Reply, nat)
    requires SignalOf(l, start) == Running
  {
    var hears := AbortTime(l) - start;
    if b.heeds.Some? && hears + b.heeds.value < Alone(l, b).1 then (Throws, hears + b.heeds.value)
    else Alone(l, b)
  }

  /** The time a rule's turn takes; a rule that is not evaluated takes none. */
  function Duration(l: Limits, rule: Rule, sources: Sources, start: nat, b: Behaviour): nat {
    if SignalOf(l, start) == Running && Usable(rule, sources) then Ends(l, start, b).1 else 0
  }

  function TurnOf(l: Limits, rule: Rule, sources: Sources, start: nat, b: Behaviour): Turn {
    Turn(SignalOf(l, start),
         if SignalOf(l, start) == Running then Ends(l, start, b).0 else Throws,
         SignalOf(l, start + Duration(l, rule, sources, start, b)))
  }

  /** The instant at which the last of some rules ends, the first having started at `start`. */
  function ClockAfter(l: Limits, rules: seq<Rule>, sources: Sources, start: nat, bs: seq<Behaviour>): (now: nat)
    requires |rules| == |bs|
    ensures now >= start
    decreases |rules|
  {
    if rules == [] then start
    else
      var n := |rules| - 1;
      var now := ClockAfter(l, rules[..n], sources, start, bs[..n]);
      now + Duration(l, rules[n], sources, now, bs[n])
  }

  function TurnsOf(l: Limits, rules: seq<Rule>, sources: Sources, bs: seq<Behaviour>): (turns: seq<Turn>)
    requires |rules| == |bs|
    ensures |turns| == |rules|
    decreases |rules|
  {
    if rules == [] then []
    else
      var n := |rules| - 1;
      TurnsOf(l, rules[..n], sources, bs[..n])
      + [TurnOf(l, rules[n], sources, ClockAfter(l, rules[..n], sources, 0, bs[..n]), bs[n])]
  }

  /** The outcomes of a scan in which the rules behave like this. */
  function Timed(l: Limits, rules: seq<Rule>, sources: Sources, bs: seq<Behaviour>): (outcomes: seq<Outcome>)
    requires |rules| == |bs|
    ensures |outcomes| == |rules|
  {
    Outcomes(rules, sources, SignalOf(l, 0), TurnsOf(l, rules, sources, bs))
  }

  // ---------------------------------------------------------------- the clock is the signal

  lemma SignalOnlyGrows(l: Limits, now: nat, later: nat)
    requires now <= later
    ensures Join(SignalOf(l, now), SignalOf(l, later)) == SignalOf(l, later)
  {
  }

  /** The signal that the turns add up to is the one of the clock. */
  lemma {:induction false} SignalIsClock(l: Limits, rules: seq<Rule>, sources: Sources, bs: seq<Behaviour>)
    requires |rules| == |bs|
    ensures SignalAt(SignalOf(l, 0), TurnsOf(l, rules, sources, bs))
            == SignalOf(l, ClockAfter(l, rules, sources, 0, bs))
    decreases |rules|
  {
    hide SignalOf, Duration;
    if rules != [] {
      var n := |rules| - 1;
      SignalIsClock(l, rules[..n], sources, bs[..n]);
      var now := ClockAfter(l, rules[..n], sources, 0, bs[..n]);
      SignalOnlyGrows(l, now, now);
      SignalOnlyGrows(l, now, now + Duration(l, rules[n], sources, now, bs[n]));
      var turns := TurnsOf(l, rules, sources, bs);
      assert turns[..n] == TurnsOf(l, rules[..n], sources, bs[..n]);
    }
  }

  lemma {:induction false} TurnsPrefix(l: Limits, rules: seq<Rule>, sources: Sources, bs: seq<Behaviour>, k: nat)
    requires |rules| == |bs| && k <= |rules|
    ensures TurnsOf(l, rules, sources, bs)[..k] == TurnsOf(l, rules[..k], sources, bs[..k])
    decreases |rules|
  {
    hide TurnOf, ClockAfter;
    var n := |rules| - 1;
    if k <= n {
      TurnsPrefix(l, rules[..n], sources, bs[..n], k);
      assert rules[..n][..k] == rules[..k] && bs[..n][..k] == bs[..k];
      assert TurnsOf(l, rules, sources, bs)[..k] == TurnsOf(l, rules[..n], sources, bs[..n])[..k];
    } else {
      assert rules[..k] == rules && bs[..k] == bs;
    }
  }

  /** What a rule comes to, by the instant at which it starts. */
  function OutcomeFrom(l: Limits, rule: Rule, sources: Sources, start: nat, b: Behaviour): Outcome {
    ExecuteRule(rule, sources, SignalOf(l, start), TurnOf(l, rule, sources, start, b))
  }

  lemma TimedAt(l: Limits, rules: seq<Rule>, sources: Sources, bs: seq<Behaviour>, k: nat)
    requires |rules| == |bs| && k < |rules|
    ensures Timed(l, rules, sources, bs)[k]
         == OutcomeFrom(l, rules[k], sources, ClockAfter(l, rules[..k], sources, 0, bs[..k]), bs[k])
  {
    hide ExecuteRule, TurnOf, Outcomes, SignalOf, ClockAfter;
    var turns := TurnsOf(l, rules, sources, bs);
    OutcomeAt(rules, sources, SignalOf(l, 0), turns, k);
    TurnsPrefix(l, rules, sources, bs, k);
    TurnsPrefix(l, rules, sources, bs, k + 1);
    assert turns[k] == turns[..k + 1][k];
    assert rules[..k + 1][..k] == rules[..k] && bs[..k + 1][..k] == bs[..k];
    SignalIsClock(l, rules[..k], sources, bs[..k]);
  }

  lemma {:induction false} ClockSplit(l: Limits, rules: seq<Rule>, sources: Sources, start: nat, bs: seq<Behaviour>,
                                      k: nat)
    requires |rules| == |bs| && k <= |rules|
    ensures ClockAfter(l, rules, sources, start, bs)
         == ClockAfter(l, rules[k..], sources, ClockAfter(l, rules[..k], sources, start, bs[..k]), bs[k..])
    decreases |rules|
  {
    hide Duration;
    var n := |rules| - 1;
    if k <= n {
      ClockSplit(l, rules[..n], sources, start, bs[..n], k);
      assert rules[..n][..k] == rules[..k] && bs[..n][..k] == bs[..k];
      assert rules[k..][..n - k] == rules[..n][k..] && bs[k..][..n - k] == bs[..n][k..];
    } else {
      assert rules[..k] == rules && bs[..k] == bs;
    }
  }

  // ---------------------------------------------------------------- two instants, told apart

  function CountUsable(rules: seq<Rule>, sources: Sources): nat {
    if rules == [] then 0
    else CountUsable(rules[..|rules| - 1], sources) + if Usable(rules[|rules| - 1], sources) then 1 else 0
  }

  lemma {:induction false} CountHead(rules: seq<Rule>, sources: Sources)
    requires rules != []
    ensures CountUsable(rules, sources)
            == (if Usable(rules[0], sources) then 1 else 0) + CountUsable(rules[1..], sources)
    decreases |rules|
  {
    var n := |rules| - 1;
    if n > 0 {
      CountHead(rules[..n], sources);
      assert rules[..n][1..] == rules[1..][..n - 1];
    } else {
      assert rules[..0] == [];
    }
  }

  /** What rule `j` of these comes to if the first starts at the given instant. */
  function OutcomeLater(l: Limits, rules: seq<Rule>, sources: Sources, start: nat, bs: seq<Behaviour>, j: nat): Outcome
    requires |rules| == |bs| && j < |rules|
  {
    OutcomeFrom(l, rules[j], sources, ClockAfter(l, rules[..j], sources, start, bs[..j]), bs[j])
  }

  /** However these rules behave, they come to the same whether the first starts at one instant or the other. */
  ghost predicate SameFrom(l: Limits, rules: seq<Rule>, sources: Sources, one: nat, other: nat) {
    forall bs: seq<Behaviour>, j: nat :: |bs| == |rules| && j < |rules| ==>
      OutcomeLater(l, rules, sources, one, bs, j) == OutcomeLater(l, rules, sources, other, bs, j)
  }

  /** All usable rules overrunning to their own limits would not reach the abort. */
  predicate OutOfReach(l: Limits, rules: seq<Rule>, sources: Sources, now: nat) {
    now + CountUsable(rules, sources) * l.perRule < AbortTime(l)
  }

  /**
   * The two instants are as good as one for these rules: there are none; or both are past the
   * abort, for the same reason; or both are before it, and the same or so early that it is out
   * of the rules' reach.
   */
  predicate AsGoodAsOne(l: Limits, rules: seq<Rule>, sources: Sources, one: nat, other: nat) {
    rules == [] ||
    (SignalOf(l, one) == SignalOf(l, other) &&
     (SignalOf(l, one) != Running || one == other || OutOfReach(l, rules, sources, Max(one, other))))
  }

  /** After the abort no rule is evaluated and the clock stands still. */
  lemma {:induction false} ClockStops(l: Limits, rules: seq<Rule>, sources: Sources, start: nat, bs: seq<Behaviour>)
    requires |rules| == |bs| && SignalOf(l, start) != Running
    ensures ClockAfter(l, rules, sources, start, bs) == start
    decreases |rules|
  {
    if rules != [] {
      ClockStops(l, rules[..|rules| - 1], sources, start, bs[..|rules| - 1]);
    }
  }

  /** Out of the abort's reach every rule takes the time it takes alone, whenever it starts. */
  lemma {:induction false} ClocksKeepStep(l: Limits, rules: seq<Rule>, sources: Sources, one: nat, other: nat,
                                          bs: seq<Behaviour>)
    requires |rules| == |bs| && one <= other && OutOfReach(l, rules, sources, other)
    ensures ClockAfter(l, rules, sources, one, bs) - one == ClockAfter(l, rules, sources, other, bs) - other
    ensures ClockAfter(l, rules, sources, other, bs) - other <= CountUsable(rules, sources) * l.perRule
    decreases |rules|
  {
    hide Duration, AbortTime, Usable;
    if rules != [] {
      var n := |rules| - 1;
      var front, count := rules[..n], CountUsable(rules[..n], sources);
      var own := if Usable(rules[n], sources) then 1 else 0;
      assert (count + own) * l.perRule == count * l.perRule + own * l.perRule;
      ClocksKeepStep(l, front, sources, one, other, bs[..n]);
      SameDuration(l, rules[n], sources, ClockAfter(l, front, sources, one, bs[..n]),
                   ClockAfter(l, front, sources, other, bs[..n]), bs[n]);
    }
  }

  lemma SameDuration(l: Limits, rule: Rule, sources: Sources, one: nat, other: nat, b: Behaviour)
    requires one <= other < AbortTime(l)
    requires Usable(rule, sources) ==> other + l.perRule < AbortTime(l)
    ensures Duration(l, rule, sources, one, b) == Duration(l, rule, sources, other, b)
         <= if Usable(rule, sources) then l.perRule else 0
  {
  }

  lemma {:induction false} FewerUsable(rules: seq<Rule>, sources: Sources, j: nat)
    requires j < |rules|
    ensures CountUsable(rules[..j], sources) +
            (if Usable(rules[j], sources) then 1 else 0) <= CountUsable(rules, sources)
    decreases |rules|
  {
    var n := |rules| - 1;
    if j < n {
      FewerUsable(rules[..n], sources, j);
      assert rules[..n][..j] == rules[..j];
    }
  }

  /** Before the abort and out of its reach, a rule comes to the same whenever it starts. */
  lemma SameOutOfReach(l: Limits, rule: Rule, sources: Sources, one: nat, other: nat, b: Behaviour)
    requires one <= other < AbortTime(l)
    requires Usable(rule, sources) ==> other + l.perRule < AbortTime(l)
    ensures OutcomeFrom(l, rule, sources, one, b) == OutcomeFrom(l, rule, sources, other, b)
  {
    hide Materialize;
  }

  lemma SameAfterAbort(l: Limits, rule: Rule, sources: Sources, one: nat, other: nat, b: Behaviour)
    requires SignalOf(l, one) == SignalOf(l, other) != Running
    ensures OutcomeFrom(l, rule, sources, one, b) == OutcomeFrom(l, rule, sources, other, b)
  {
    hide Materialize;
  }

  lemma OutOfReachIsSame(l: Limits, rules: seq<Rule>, sources: Sources, one: nat, other: nat, bs: seq<Behaviour>,
                         j: nat)
    requires |rules| == |bs| && j < |rules| && one <= other && OutOfReach(l, rules, sources, other)
    ensures OutcomeLater(l, rules, sources, one, bs, j) == OutcomeLater(l, rules, sources, other, bs, j)
  {
    hide OutcomeFrom, AbortTime, ClockAfter, CountUsable;
    FewerUsable(rules, sources, j);
    var before := CountUsable(rules[..j], sources);
    Grow(l.perRule, before + (if Usable(rules[j], sources) then 1 else 0), CountUsable(rules, sources));
    if Usable(rules[j], sources) {
      assert (before + 1) * l.perRule == before * l.perRule + l.perRule;
    }
    ClocksKeepStep(l, rules[..j], sources, one, other, bs[..j]);
    SameOutOfReach(l, rules[j], sources, ClockAfter(l, rules[..j], sources, one, bs[..j]),
                   ClockAfter(l, rules[..j], sources, other, bs[..j]), bs[j]);
  }

  lemma AsGoodIsSame(l: Limits, rules: seq<Rule>, sources: Sources, one: nat, other: nat)
    requires AsGoodAsOne(l, rules, sources, one, other)
    ensures SameFrom(l, rules, sources, one, other)
  {
    hide OutcomeFrom, ClockAfter;
    forall bs: seq<Behaviour>, j: nat | |bs| == |rules| && j < |rules|
      ensures OutcomeLater(l, rules, sources, one, bs, j) == OutcomeLater(l, rules, sources, other, bs, j)
    {
      if SignalOf(l, one) != Running {
        ClockStops(l, rules[..j], sources, one, bs[..j]);
        ClockStops(l, rules[..j], sources, other, bs[..j]);
        SameAfterAbort(l, rules[j], sources, one, other, bs[j]);
      } else if one < other {
        OutOfReachIsSame(l, rules, sources, one, other, bs, j);
      } else if other < one {
        OutOfReachIsSame(l, rules, sources, other, one, bs, j);
      }
    }
  }

  // ---------------------------------------------------------------- witnesses

  const STOPS := Behaviour(Throws, 0, None)

  /** With nobody else to blame, a rule that throws at once shows the signal it was started under. */
  lemma SignalsShow(l: Limits, rule: Rule, sources: Sources, one: nat, other: nat)
    requires Valid(l) && SignalOf(l, one) != SignalOf(l, other)
    ensures OutcomeFrom(l, rule, sources, one, STOPS).failure != OutcomeFrom(l, rule, sources, other, STOPS).failure
  {
    hide Materialize;
  }

  /** A rule that throws just when the later start reaches the abort fails for another reason after the earlier one. */
  lemma StraddlerShows(l: Limits, rule: Rule, sources: Sources, one: nat, other: nat)
    requires one < other < AbortTime(l) <= other + l.perRule && Usable(rule, sources)
    ensures var b := Behaviour(Throws, AbortTime(l) - other, None);
            OutcomeFrom(l, rule, sources, one, b).failure != OutcomeFrom(l, rule, sources, other, b).failure
  {
    hide Materialize;
  }

  /** A rule more in front only moves the start. */
  lemma OneMoreInFront(l: Limits, rules: seq<Rule>, sources: Sources, start: nat, b: Behaviour, bs: seq<Behaviour>,
                       j: nat)
    requires |rules| == 1 + |bs| && j < |bs|
    ensures OutcomeLater(l, rules, sources, start, [b] + bs, j + 1)
         == OutcomeLater(l, rules[1..], sources, start + Duration(l, rules[0], sources, start, b), bs, j)
  {
    hide OutcomeFrom, Duration;
    var all := [b] + bs;
    ClockSplit(l, rules[..j + 1], sources, start, all[..j + 1], 1);
    assert rules[..j + 1][1..] == rules[1..][..j] && all[..j + 1][1..] == bs[..j];
    assert rules[..j + 1][..1] == [rules[0]] && all[..j + 1][..1] == [b];
    assert [rules[0]][..0] == [] && [b][..0] == [];
  }

  /** Before the abort and within its reach, some behaviour of the rules tells two instants apart. */
  lemma {:induction false} Straddle(l: Limits, rules: seq<Rule>, sources: Sources, one: nat, other: nat)
    returns (bs: seq<Behaviour>, j: nat)
    requires Valid(l) && one < other < AbortTime(l) && !OutOfReach(l, rules, sources, other)
    ensures |bs| == |rules| && j < |rules|
    ensures OutcomeLater(l, rules, sources, one, bs, j).failure != OutcomeLater(l, rules, sources, other, bs, j).failure
    decreases |rules|
  {
    hide OutcomeFrom, OutcomeLater, ClockAfter;
    CountHead(rules, sources);
    var left := CountUsable(rules[1..], sources);
    if Usable(rules[0], sources) && AbortTime(l) - other <= l.perRule {
      bs, j := seq(|rules|, _ => Behaviour(Throws, AbortTime(l) - other, None)), 0;
      StraddlerShows(l, rules[0], sources, one, other);
      FirstStarts(l, rules, sources, one, bs);
      FirstStarts(l, rules, sources, other, bs);
    } else {
      var b := Behaviour(Throws, l.perRule, None);
      var used := if Usable(rules[0], sources) then l.perRule else 0;
      if Usable(rules[0], sources) {
        assert (left + 1) * l.perRule == left * l.perRule + l.perRule;
      }
      bs, j := Straddle(l, rules[1..], sources, one + used, other + used);
      OneMoreInFront(l, rules, sources, one, b, bs, j);
      OneMoreInFront(l, rules, sources, other, b, bs, j);
      bs, j := [b] + bs, j + 1;
    }
  }

  lemma FirstStarts(l: Limits, rules: seq<Rule>, sources: Sources, start: nat, bs: seq<Behaviour>)
    requires |rules| == |bs| && rules != []
    ensures OutcomeLater(l, rules, sources, start, bs, 0) == OutcomeFrom(l, rules[0], sources, start, bs[0])
  {
    assert rules[..0] == [] && bs[..0] == [];
  }

  /** Whether two instants can be told apart by the rules that start there, exactly. */
  lemma SameFromIffAsGoodAsOne(l: Limits, rules: seq<Rule>, sources: Sources, one: nat, other: nat)
    requires Valid(l)
    ensures SameFrom(l, rules, sources, one, other) <==> AsGoodAsOne(l, rules, sources, one, other)
  {
    hide OutcomeLater, OutOfReach;
    if AsGoodAsOne(l, rules, sources, one, other) {
      AsGoodIsSame(l, rules, sources, one, other);
    } else if SignalOf(l, one) != SignalOf(l, other) {
      var bs := seq(|rules|, _ => STOPS);
      SignalsShow(l, rules[0], sources, one, other);
      FirstStarts(l, rules, sources, one, bs);
      FirstStarts(l, rules, sources, other, bs);
      assert OutcomeLater(l, rules, sources, one, bs, 0) != OutcomeLater(l, rules, sources, other, bs, 0);
    } else {
      var bs, j := Straddle(l, rules, sources, if one < other then one else other, if one < other then other else one);
      assert OutcomeLater(l, rules, sources, one, bs, j) != OutcomeLater(l, rules, sources, other, bs, j);
    }
  }

  // ---------------------------------------------------------------- failure isolation

  /** When the turn of the rule behind `before` ends. */
  function EndOf(l: Limits, rules: seq<Rule>, sources: Sources, before: seq<Behaviour>, b: Behaviour): nat
    requires |before| < |rules|
  {
    var start := ClockAfter(l, rules[..|before|], sources, 0, before);
    start + Duration(l, rules[|before|], sources, start, b)
  }

  lemma LaterTimed(l: Limits, rules: seq<Rule>, sources: Sources, before: seq<Behaviour>, b: Behaviour,
                   rest: seq<Behaviour>, j: nat)
    requires |before| + 1 + |rest| == |rules| && j < |rest|
    ensures Timed(l, rules, sources, before + [b] + rest)[|before| + 1 + j]
         == OutcomeLater(l, rules[|before| + 1..], sources, EndOf(l, rules, sources, before, b), rest, j)
  {
    hide Timed, OutcomeFrom, Duration;
    var all, k := before + [b] + rest, |before| + 1;
    TimedAt(l, rules, sources, all, k + j);
    ClockSplit(l, rules[..k + j], sources, 0, all[..k + j], k);
    assert rules[..k + j][k..] == rules[k..][..j] && all[..k + j][k..] == rest[..j];
    assert rules[..k + j][..k] == rules[..k] && all[..k + j][..k] == all[..k];
    assert rules[..k][..k - 1] == rules[..k - 1] && all[..k][..k - 1] == before;
    assert all[k + j] == rest[j];
  }

  /** The rules behind have the same outcomes whether this one behaves one way or the other. */
  ghost predicate SameBehindTimed(l: Limits, rules: seq<Rule>, sources: Sources, before: seq<Behaviour>,
                                  b: Behaviour, c: Behaviour, rest: seq<Behaviour>)
    requires |before| + 1 + |rest| == |rules|
  {
    forall i :: |before| < i < |rules| ==>
      Timed(l, rules, sources, before + [b] + rest)[i] == Timed(l, rules, sources, before + [c] + rest)[i]
  }

  lemma SameBehindIsSameFrom(l: Limits, rules: seq<Rule>, sources: Sources, before: seq<Behaviour>, b: Behaviour,
                             c: Behaviour)
    requires |before| < |rules|
    ensures (forall rest: seq<Behaviour> :: |before| + 1 + |rest| == |rules| ==>
              SameBehindTimed(l, rules, sources, before, b, c, rest))
            <==> SameFrom(l, rules[|before| + 1..], sources, EndOf(l, rules, sources, before, b),
                          EndOf(l, rules, sources, before, c))
  {
    hide Timed, OutcomeLater, EndOf;
    var later, k := rules[|before| + 1..], |before| + 1;
    var one, other := EndOf(l, rules, sources, before, b), EndOf(l, rules, sources, before, c);
    forall rest: seq<Behaviour> | k + |rest| == |rules|
      ensures SameBehindTimed(l, rules, sources, before, b, c, rest)
              <==> forall j: nat :: j < |rest| ==>
                     OutcomeLater(l, later, sources, one, rest, j) == OutcomeLater(l, later, sources, other, rest, j)
    {
      SameBehindMeans(l, rules, sources, before, b, c, rest);
    }
    if forall rest: seq<Behaviour> :: k + |rest| == |rules| ==> SameBehindTimed(l, rules, sources, before, b, c, rest) {
      forall bs: seq<Behaviour>, j: nat | |bs| == |later| && j < |later|
        ensures OutcomeLater(l, later, sources, one, bs, j) == OutcomeLater(l, later, sources, other, bs, j)
      {
        assert SameBehindTimed(l, rules, sources, before, b, c, bs);
      }
    }
  }

  lemma SameBehindMeans(l: Limits, rules: seq<Rule>, sources: Sources, before: seq<Behaviour>,
                        b: Behaviour, c: Behaviour, rest: seq<Behaviour>)
    requires |before| + 1 + |rest| == |rules|
    ensures var later := rules[|before| + 1..];
            var one, other := EndOf(l, rules, sources, before, b), EndOf(l, rules, sources, before, c);
            SameBehindTimed(l, rules, sources, before, b, c, rest)
            <==> forall j: nat :: j < |rest| ==>
                   OutcomeLater(l, later, sources, one, rest, j) == OutcomeLater(l, later, sources, other, rest, j)
  {
    hide Timed, OutcomeLater, EndOf;
    var later, k := rules[|before| + 1..], |before| + 1;
    var one, other := EndOf(l, rules, sources, before, b), EndOf(l, rules, sources, before, c);
    forall j: nat | j < |rest|
      ensures Timed(l, rules, sources, before + [b] + rest)[k + j] == OutcomeLater(l, later, sources, one, rest, j)
      ensures Timed(l, rules, sources, before + [c] + rest)[k + j] == OutcomeLater(l, later, sources, other, rest, j)
    {
      LaterTimed(l, rules, sources, before, b, rest, j);
      LaterTimed(l, rules, sources, before, c, rest, j);
    }
    if SameBehindTimed(l, rules, sources, before, b, c, rest) {
      forall j: nat | j < |rest|
        ensures OutcomeLater(l, later, sources, one, rest, j) == OutcomeLater(l, later, sources, other, rest, j)
      {
        assert Timed(l, rules, sources, before + [b] + rest)[k + j]
               == Timed(l, rules, sources, before + [c] + rest)[k + j];
      }
    } else {
      var i :| |before| < i < |rules| &&
        Timed(l, rules, sources, before + [b] + rest)[i] != Timed(l, rules, sources, before + [c] + rest)[i];
      assert Timed(l, rules, sources, before + [b] + rest)[k + (i - k)]
             == Timed(l, rules, sources, before + [b] + rest)[i];
      assert OutcomeLater(l, later, sources, one, rest, i - k) != OutcomeLater(l, later, sources, other, rest, i - k);
    }
  }

  /**
   * Failure isolation against the clock, exactly: whether a rule behaves one way or another is
   * invisible to all rules behind it, however these behave, if and only if the two instants at
   * which its turn ends are as good as one: the same, or both past the abort, or both so early
   * that the abort is out of reach.
   */
  lemma IsolatedIff(l: Limits, rules: seq<Rule>, sources: Sources, before: seq<Behaviour>, b: Behaviour, c: Behaviour)
    requires Valid(l) && |before| < |rules|
    ensures (forall rest: seq<Behaviour> :: |before| + 1 + |rest| == |rules| ==>
              SameBehindTimed(l, rules, sources, before, b, c, rest))
            <==> AsGoodAsOne(l, rules[|before| + 1..], sources,
                             EndOf(l, rules, sources, before, b), EndOf(l, rules, sources, before, c))
  {
    hide SameBehindTimed, SameFrom, AsGoodAsOne, EndOf;
    SameBehindIsSameFrom(l, rules, sources, before, b, c);
    SameFromIffAsGoodAsOne(l, rules[|before| + 1..], sources,
                           EndOf(l, rules, sources, before, b), EndOf(l, rules, sources, before, c));
  }
  /** A rule of 30 ms that stops when the signal aborts, and one that is quick. */
  const SLOW := Behaviour(Returns(Evaluation(Pass, {})), 30, Some(0))
  const QUICK := Behaviour(Returns(Evaluation(Pass, {})), 0, None)

  function ThrowsAfter(t: nat): Behaviour { Behaviour(Throws, t, None) }

  /**
   * In 100 ms a failure at once leaves the rules behind it alone, and the same failure after 80 ms
   * fails them all, although the signal is still running when it happens.
   */
  lemma LateFailureIsFelt(rules: seq<Rule>, sources: Sources)
    requires |rules| == 3 && forall rule :: rule in rules ==> Usable(rule, sources)
    ensures var l := Limits(100, 90, None);
            var soon := Timed(l, rules, sources, [ThrowsAfter(0), SLOW, QUICK]);
            var late := Timed(l, rules, sources, [ThrowsAfter(80), SLOW, QUICK]);
            SignalOf(l, 80) == Running && soon[0] == late[0] &&
            soon[1].failure == soon[2].failure == None &&
            late[1].failure == late[2].failure == Some(ScanTimeout)
  {
    hide Timed, Materialize;
    Clocks(rules, sources, 0);
    Clocks(rules, sources, 80);
  }

  lemma Clocks(rules: seq<Rule>, sources: Sources, t: nat)
    requires |rules| == 3 && forall rule :: rule in rules ==> Usable(rule, sources)
    requires t < 90
    ensures var l, bs := Limits(100, 90, None), [ThrowsAfter(t), SLOW, QUICK];
            var outcomes, end := Timed(l, rules, sources, bs), if t + 30 < 100 then t + 30 else 100;
            outcomes[0] == OutcomeFrom(l, rules[0], sources, 0, bs[0]) &&
            outcomes[1] == OutcomeFrom(l, rules[1], sources, t, bs[1]) &&
            outcomes[2] == OutcomeFrom(l, rules[2], sources, end, bs[2])
  {
    hide Timed, OutcomeFrom;
    var l, bs := Limits(100, 90, None), [ThrowsAfter(t), SLOW, QUICK];
    TimedAt(l, rules, sources, bs, 0);
    TimedAt(l, rules, sources, bs, 1);
    TimedAt(l, rules, sources, bs, 2);
    assert rules[..2][..1] == rules[..1] && bs[..2][..1] == bs[..1] && rules[..1][..0] == [] && bs[..1][..0] == [];
    assert rules[0] in rules && rules[1] in rules;
    assert ClockAfter(l, rules[..1], sources, 0, bs[..1]) == t;
  }
}
