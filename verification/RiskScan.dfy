/**
 * A risk scan: every rule of the resolved ruleset runs in order under one abort signal, and a rule
 * that fails becomes an unknown finding.
 */
module RiskScan {
  import opened Prelude
  import opened Arithmetic
  import opened Json
  import opened RiskRegistry
  import opened RiskScore

  datatype SourceStatus = Available | Unavailable | Stale | Errored

  type Sources = map<Text, SourceStatus>

  datatype Evaluation = Evaluation(status: Status, provenanceKeys: set<Text>)

  datatype Outcome = Outcome(finding: Finding, failure: Option<FailureCode>)

  // ---------------------------------------------------------------- the signal

  /** The scan's signal: not aborted, aborted by the scan's time limit, or by the caller's own signal. */
  datatype Signal = Running | Expired | CallerAborted

  /** An abort lasts; the caller may still abort a scan that has expired. */
  function Join(a: Signal, b: Signal): Signal {
    if a == CallerAborted || b == CallerAborted then CallerAborted
    else if a == Expired || b == Expired then Expired
    else Running
  }

  function AbortCode(signal: Signal): FailureCode {
    if signal == CallerAborted then ScanCancelled else ScanTimeout
  }

  /** How a rule's `evaluate` ends: a well-formed value, any other throw, or the rule's own time limit. */
  datatype Reply = Returns(evaluation: Evaluation) | Throws | TimesOut

  /** What happens in a rule's turn: to the signal before it starts, its reply, and to the signal until it ends. */
  datatype Turn = Turn(arrives: Signal, reply: Reply, meanwhile: Signal)

  function SignalBefore(signal: Signal, t: Turn): Signal {
    Join(signal, t.arrives)
  }

  function SignalAfter(signal: Signal, t: Turn): Signal {
    Join(SignalBefore(signal, t), t.meanwhile)
  }

  // ---------------------------------------------------------------- one rule

  predicate Usable(rule: Rule, sources: Sources) {
    forall key :: key in rule.requiredDataSources ==> key in sources && sources[key] == Available
  }

  /** The evaluation and failure code that `executeRule` settles on. */
  function Settle(rule: Rule, sources: Sources, signal: Signal, t: Turn): (Evaluation, Option<FailureCode>) {
    var failed := Evaluation(Unknown, {});
    var before, after := SignalBefore(signal, t), SignalAfter(signal, t);
    if before != Running then (failed, Some(AbortCode(before)))
    else if !Usable(rule, sources) then (failed, Some(DataDependencyUnavailable))
    else match t.reply
      case Returns(evaluation) => (evaluation, None)
      case Throws => (failed, Some(if after != Running then AbortCode(after) else RuleException))
      case TimesOut => (failed, Some(if after != Running then AbortCode(after) else RuleTimeout))
  }

  function Materialize(rule: Rule, evaluation: Evaluation, sources: Sources): Finding {
    var keys := evaluation.provenanceKeys + set key | key in rule.requiredDataSources;
    Finding(rule.ruleId, rule.version, rule.category, evaluation.status, set key | key in keys && key in sources)
  }

  function ExecuteRule(rule: Rule, sources: Sources, signal: Signal, t: Turn): (r: Outcome)
    ensures r.failure.Some? ==> r.finding.status == Unknown
    ensures r.finding.ruleId == rule.ruleId && r.finding.ruleVersion == rule.version &&
            r.finding.category == rule.category
    ensures SignalBefore(signal, t) != Running || !Usable(rule, sources) || !t.reply.Returns? <==> r.failure.Some?
  {
    var settled := Settle(rule, sources, signal, t);
    Outcome(Materialize(rule, settled.0, sources), settled.1)
  }

  /** What each code, and having none, says about the rule's turn; and what the finding takes from it. */
  lemma CodeTellsCause(rule: Rule, sources: Sources, signal: Signal, t: Turn)
    ensures var o := ExecuteRule(rule, sources, signal, t);
      var before, after := SignalBefore(signal, t), SignalAfter(signal, t);
      var ran := before == Running && Usable(rule, sources);
      && (o.failure == None <==> ran && t.reply.Returns?)
      && (o.failure == None ==> o.finding.status == t.reply.evaluation.status)
      && (o.failure == Some(DataDependencyUnavailable) <==> before == Running && !Usable(rule, sources))
      && (o.failure == Some(RuleTimeout) <==> ran && t.reply.TimesOut? && after == Running)
      && (o.failure == Some(RuleException) <==> ran && t.reply.Throws? && after == Running)
      && (o.failure == Some(ScanTimeout) <==> before == Expired || (ran && !t.reply.Returns? && after == Expired))
      && (o.failure == Some(ScanCancelled) <==>
            before == CallerAborted || (ran && !t.reply.Returns? && after == CallerAborted))
      && (forall key :: key in o.finding.provenance <==>
            key in sources &&
            (key in rule.requiredDataSources || (o.failure.None? && key in t.reply.evaluation.provenanceKeys)))
  {
  }

  // ---------------------------------------------------------------- all rules, one after another

  /** The signal after the first turns. */
  function SignalAt(signal: Signal, turns: seq<Turn>): Signal
    decreases |turns|
  {
    if turns == [] then signal
    else SignalAfter(SignalAt(signal, turns[..|turns| - 1]), turns[|turns| - 1])
  }

  /** The rules in order, each under the signal the ones before it leave. */
  function Outcomes(rules: seq<Rule>, sources: Sources, signal: Signal, turns: seq<Turn>): (r: seq<Outcome>)
    requires |rules| == |turns|
    ensures |r| == |rules|
    decreases |rules|
  {
    if rules == [] then []
    else
      var n := |rules| - 1;
      Outcomes(rules[..n], sources, signal, turns[..n])
      + [ExecuteRule(rules[n], sources, SignalAt(signal, turns[..n]), turns[n])]
  }

  lemma {:induction false} OutcomeAt(rules: seq<Rule>, sources: Sources, signal: Signal, turns: seq<Turn>, k: nat)
    requires |rules| == |turns| && k < |rules|
    ensures Outcomes(rules, sources, signal, turns)[k]
         == ExecuteRule(rules[k], sources, SignalAt(signal, turns[..k]), turns[k])
    decreases |rules|
  {
    hide ExecuteRule, SignalAt;
    var n := |rules| - 1;
    if k < n {
      OutcomeAt(rules[..n], sources, signal, turns[..n], k);
      assert turns[..n][..k] == turns[..k];
    }
  }

  /** Every failed rule's finding is unknown, and every finding is its own rule's. */
  lemma OutcomesAreOwn(rules: seq<Rule>, sources: Sources, signal: Signal, turns: seq<Turn>)
    requires |rules| == |turns|
    ensures var outcomes := Outcomes(rules, sources, signal, turns);
      && FailuresUnknown(outcomes)
      && forall k :: 0 <= k < |rules| ==>
        var f := outcomes[k].finding;
        f.ruleId == rules[k].ruleId && f.ruleVersion == rules[k].version && f.category == rules[k].category
  {
    hide ExecuteRule, SignalAt, Outcomes;
    var outcomes := Outcomes(rules, sources, signal, turns);
    forall k: nat | k < |rules|
      ensures outcomes[k] == ExecuteRule(rules[k], sources, SignalAt(signal, turns[..k]), turns[k])
    {
      OutcomeAt(rules, sources, signal, turns, k);
    }
  }

  function Findings(outcomes: seq<Outcome>): (r: seq<Finding>)
    ensures |r| == |outcomes| && forall k :: 0 <= k < |r| ==> r[k] == outcomes[k].finding
  {
    seq(|outcomes|, k requires 0 <= k < |outcomes| => outcomes[k].finding)
  }

  // ---------------------------------------------------------------- completeness

  function CountUnknown(outcomes: seq<Outcome>): nat {
    if outcomes == [] then 0
    else CountUnknown(outcomes[..|outcomes| - 1]) + if outcomes[|outcomes| - 1].finding.status == Unknown then 1 else 0
  }

  function CountFailed(outcomes: seq<Outcome>): nat {
    if outcomes == [] then 0
    else CountFailed(outcomes[..|outcomes| - 1]) + if outcomes[|outcomes| - 1].failure.Some? then 1 else 0
  }

  function BasisPoints(unknown: int, total: nat): int {
    if total == 0 then 0 else (total - unknown) * 10_000 / total
  }

  function Complete(outcomes: seq<Outcome>, sources: Sources): Completeness {
    var unknown := CountUnknown(outcomes);
    var unavailable := set o, key | o in outcomes && key in o.finding.provenance
      && key in sources && sources[key] != Available :: key;
    var codes := set o | o in outcomes && o.failure.Some? :: Failed(o.failure.value);
    Completeness(
      BasisPoints(unknown, |outcomes|),
      |outcomes|,
      |outcomes| - unknown,
      unknown,
      CountFailed(outcomes),
      unavailable,
      codes
      + (if unknown > 0 && codes == {} then {UnknownRuleResults} else {})
      + (if unavailable != {} then {DataSourcesUnavailable} else {}))
  }

  lemma {:induction false} UnknownCounts(outcomes: seq<Outcome>)
    ensures CountUnknown(outcomes) <= |outcomes|
    ensures CountUnknown(outcomes) == 0 <==> forall o :: o in outcomes ==> o.finding.status != Unknown
  {
    if outcomes != [] {
      var n := |outcomes| - 1;
      UnknownCounts(outcomes[..n]);
      assert outcomes == outcomes[..n] + [outcomes[n]];
    }
  }

  /** What every outcome of `ExecuteRule` satisfies. */
  predicate FailuresUnknown(outcomes: seq<Outcome>) {
    forall o :: o in outcomes && o.failure.Some? ==> o.finding.status == Unknown
  }

  /** Every failed rule is counted as unknown. */
  lemma {:induction false} FailedAreUnknown(outcomes: seq<Outcome>)
    requires FailuresUnknown(outcomes)
    ensures CountFailed(outcomes) <= CountUnknown(outcomes)
  {
    if outcomes != [] {
      FailedAreUnknown(outcomes[..|outcomes| - 1]);
    }
  }

  lemma BasisPointsRange(unknown: int, total: nat)
    requires 0 <= unknown <= total
    ensures 0 <= BasisPoints(unknown, total) <= 10_000
    ensures BasisPoints(unknown, total) == 10_000 <==> total > 0 && unknown == 0
  {
    if total > 0 {
      FloorIs((total - unknown) * 10_000, total, 0);
      FloorIs((total - unknown) * 10_000, total, 10_000);
      FloorIs((total - unknown) * 10_000, total, 10_001);
    }
  }

  lemma BasisPointsFall(unknown: int, more: int, total: nat)
    requires 0 <= unknown <= more <= total
    ensures BasisPoints(more, total) <= BasisPoints(unknown, total)
  {
    if total > 0 {
      FloorMonotone((total - more) * 10_000, (total - unknown) * 10_000, total);
    }
  }

  /** Full completeness means that rules ran and all of them concluded; then none failed. */
  lemma CompleteMeansNoFailures(outcomes: seq<Outcome>, sources: Sources)
    requires FailuresUnknown(outcomes)
    ensures var c := Complete(outcomes, sources);
      && 0 <= c.basisPoints <= 10_000
      && c.failedRules <= c.unknownRules == c.totalRules - c.evaluatedRules
      && (c.basisPoints == 10_000 <==> outcomes != [] && forall o :: o in outcomes ==> o.finding.status != Unknown)
      && (c.basisPoints == 10_000 ==> c.failedRules == 0 && forall o :: o in outcomes ==> o.failure.None?)
  {
    UnknownCounts(outcomes);
    FailedAreUnknown(outcomes);
    BasisPointsRange(CountUnknown(outcomes), |outcomes|);
  }

  /**
   * Completeness by what it is for: the share of rules that concluded, in basis points, rounded down; the
   * sources that are known, asked for and not available; and a reason for every cause and no other.
   */
  lemma CompletenessIs(outcomes: seq<Outcome>, sources: Sources)
    ensures var c := Complete(outcomes, sources);
      && c.totalRules == |outcomes| && c.evaluatedRules == c.totalRules - c.unknownRules
      && (outcomes == [] ==> c.basisPoints == 0)
      && (forall b: int :: outcomes != [] ==>
            (b <= c.basisPoints <==> b * c.totalRules <= 10_000 * c.evaluatedRules))
      && (forall key :: key in c.unavailableDataSources <==>
            key in sources && sources[key] != Available && exists o :: o in outcomes && key in o.finding.provenance)
      && (forall code :: Failed(code) in c.reasons <==> exists o :: o in outcomes && o.failure == Some(code))
      && (DataSourcesUnavailable in c.reasons <==> c.unavailableDataSources != {})
      && (UnknownRuleResults in c.reasons <==>
            (exists o :: o in outcomes && o.finding.status == Unknown) && forall o :: o in outcomes ==> o.failure.None?)
      && RiskDataIncomplete !in c.reasons
  {
    var c := Complete(outcomes, sources);
    UnknownCounts(outcomes);
    forall b: int | outcomes != []
      ensures b <= c.basisPoints <==> b * c.totalRules <= 10_000 * c.evaluatedRules
    {
      FloorIs(c.evaluatedRules * 10_000, |outcomes|, b);
    }
    var codes := set o | o in outcomes && o.failure.Some? :: Failed(o.failure.value);
    if exists o :: o in outcomes && o.failure.Some? {
      var o :| o in outcomes && o.failure.Some?;
      assert Failed(o.failure.value) in codes;
    }
  }

  // ---------------------------------------------------------------- failure isolation

  lemma {:induction false} SignalIn(signal: Signal, before: seq<Turn>, t: Turn, rest: seq<Turn>)
    ensures SignalAt(signal, before + [t] + rest) == SignalAt(SignalAfter(SignalAt(signal, before), t), rest)
    decreases |rest|
  {
    var all := before + [t] + rest;
    if rest == [] {
      assert all[..|all| - 1] == before;
    } else {
      SignalIn(signal, before, t, rest[..|rest| - 1]);
      assert all[..|all| - 1] == before + [t] + rest[..|rest| - 1];
    }
  }

  /** A rule's outcome behind turn `k`, by the signal that turn leaves. */
  lemma LaterOutcome(rules: seq<Rule>, sources: Sources, signal: Signal, before: seq<Turn>, t: Turn, rest: seq<Turn>,
                     j: nat)
    requires |before| + 1 + |rest| == |rules| && j < |rest|
    ensures Outcomes(rules, sources, signal, before + [t] + rest)[|before| + 1 + j]
         == ExecuteRule(rules[|before| + 1 + j], sources,
                        SignalAt(SignalAfter(SignalAt(signal, before), t), rest[..j]), rest[j])
  {
    hide ExecuteRule, SignalAt, SignalAfter;
    var all, i := before + [t] + rest, |before| + 1 + j;
    OutcomeAt(rules, sources, signal, all, i);
    assert all[..i] == before + [t] + rest[..j] && all[i] == rest[j];
    SignalIn(signal, before, t, rest[..j]);
  }

  /** Rules that have run already never notice. */
  lemma EarlierRulesUnaffected(rules: seq<Rule>, sources: Sources, signal: Signal, turns: seq<Turn>, k: nat, t: Turn,
                               i: nat)
    requires |rules| == |turns| && i < k < |rules|
    ensures Outcomes(rules, sources, signal, turns[k := t])[i] == Outcomes(rules, sources, signal, turns)[i]
  {
    hide ExecuteRule, SignalAt, Outcomes;
    OutcomeAt(rules, sources, signal, turns, i);
    OutcomeAt(rules, sources, signal, turns[k := t], i);
    assert turns[k := t][..i] == turns[..i];
  }

  /** The rules behind turn `k` have the same outcomes whether it went one way or the other. */
  ghost predicate SameBehind(rules: seq<Rule>, sources: Sources, signal: Signal, before: seq<Turn>, t: Turn, u: Turn,
                             rest: seq<Turn>)
    requires |before| + 1 + |rest| == |rules|
  {
    forall i :: |before| < i < |rules| ==>
      Outcomes(rules, sources, signal, before + [t] + rest)[i]
          == Outcomes(rules, sources, signal, before + [u] + rest)[i]
  }

  lemma SameSignalSameBehind(rules: seq<Rule>, sources: Sources, signal: Signal, before: seq<Turn>, t: Turn, u: Turn,
                             rest: seq<Turn>)
    requires |before| + 1 + |rest| == |rules|
    requires SignalAfter(SignalAt(signal, before), t) == SignalAfter(SignalAt(signal, before), u)
    ensures SameBehind(rules, sources, signal, before, t, u, rest)
  {
    hide ExecuteRule, SignalAt, SignalAfter, Outcomes;
    forall i | |before| < i < |rules|
      ensures Outcomes(rules, sources, signal, before + [t] + rest)[i]
              == Outcomes(rules, sources, signal, before + [u] + rest)[i]
    {
      LaterOutcome(rules, sources, signal, before, t, rest, i - |before| - 1);
      LaterOutcome(rules, sources, signal, before, u, rest, i - |before| - 1);
    }
  }

  const CALM := Turn(Running, Throws, Running)

  /** With nothing else happening, the next rule tells the signals apart. */
  lemma SignalShows(rule: Rule, sources: Sources, a: Signal, b: Signal)
    requires a != b
    ensures ExecuteRule(rule, sources, a, CALM).failure != ExecuteRule(rule, sources, b, CALM).failure
  {
  }

  /**
   * Failure isolation with the later turns as they are: what happens in one rule's turn is invisible
   * to every later rule, whatever happens in their own turns, if and only if it leaves the scan's
   * signal as it would have been. That a slow turn brings the time limit nearer to the later ones is
   * not seen here; with the clock in the state, `RiskClock.IsolatedIff` says when isolation holds.
   */
  lemma IsolatedIffSameSignal(rules: seq<Rule>, sources: Sources, signal: Signal, before: seq<Turn>, t: Turn, u: Turn)
    requires |before| + 1 < |rules|
    ensures (forall rest: seq<Turn> :: |before| + 1 + |rest| == |rules| ==>
             SameBehind(rules, sources, signal, before, t, u, rest))
        <==> SignalAfter(SignalAt(signal, before), t) == SignalAfter(SignalAt(signal, before), u)
  {
    hide ExecuteRule, SignalAt, SignalAfter, Outcomes, SameBehind;
    var a, b := SignalAfter(SignalAt(signal, before), t), SignalAfter(SignalAt(signal, before), u);
    if a == b {
      forall rest: seq<Turn> | |before| + 1 + |rest| == |rules|
        ensures SameBehind(rules, sources, signal, before, t, u, rest)
      {
        SameSignalSameBehind(rules, sources, signal, before, t, u, rest);
      }
    } else {
      var rest := seq(|rules| - |before| - 1, _ => CALM);
      NextRuleDiffers(rules, sources, signal, before, t, u, rest);
    }
  }

  lemma NextRuleDiffers(rules: seq<Rule>, sources: Sources, signal: Signal, before: seq<Turn>, t: Turn, u: Turn,
                        rest: seq<Turn>)
    requires |before| + 1 + |rest| == |rules| && rest != [] && rest[0] == CALM
    requires SignalAfter(SignalAt(signal, before), t) != SignalAfter(SignalAt(signal, before), u)
    ensures !SameBehind(rules, sources, signal, before, t, u, rest)
  {
    hide ExecuteRule, SignalAfter, Outcomes;
    var i := |before| + 1;
    LaterOutcome(rules, sources, signal, before, t, rest, 0);
    LaterOutcome(rules, sources, signal, before, u, rest, 0);
    assert rest[..0] == [];
    SignalShows(rules[i], sources, SignalAfter(SignalAt(signal, before), t), SignalAfter(SignalAt(signal, before), u));
  }

  lemma {:induction false} StaysAborted(signal: Signal, turns: seq<Turn>, k: nat)
    requires k <= |turns| && SignalAt(signal, turns[..k]) != Running
    ensures SignalAt(signal, turns) != Running
    ensures SignalAt(signal, turns[..k]) == CallerAborted ==> SignalAt(signal, turns) == CallerAborted
    decreases |turns|
  {
    if k < |turns| {
      var front := turns[..|turns| - 1];
      assert front[..k] == turns[..k];
      StaysAborted(signal, front, k);
    } else {
      assert turns[..k] == turns;
    }
  }

  lemma {:induction false} UnknownTail(outcomes: seq<Outcome>, k: nat)
    requires k <= |outcomes| && forall i :: k <= i < |outcomes| ==> outcomes[i].finding.status == Unknown
    ensures CountUnknown(outcomes) >= |outcomes| - k
  {
    if k < |outcomes| {
      UnknownTail(outcomes[..|outcomes| - 1], k);
    }
  }

  lemma AbortedFails(rule: Rule, sources: Sources, signal: Signal, t: Turn)
    requires signal != Running
    ensures var o := ExecuteRule(rule, sources, signal, t);
            (o.failure == Some(ScanTimeout) || o.failure == Some(ScanCancelled)) && o.finding.status == Unknown
  {
  }

  /** An abort fails the rules that have not run, all of them and as an abort; completeness shows it. */
  lemma AbortFailsTheRest(rules: seq<Rule>, sources: Sources, signal: Signal, turns: seq<Turn>, k: nat)
    requires |rules| == |turns| && k < |rules| && SignalAt(signal, turns[..k]) != Running
    ensures var outcomes := Outcomes(rules, sources, signal, turns);
      && (forall i :: k <= i < |rules| ==>
          outcomes[i].failure == Some(ScanTimeout) || outcomes[i].failure == Some(ScanCancelled))
      && Complete(outcomes, sources).basisPoints <= k * 10_000 / |rules|
  {
    hide SignalAt, Outcomes, ExecuteRule, CountUnknown;
    var outcomes := Outcomes(rules, sources, signal, turns);
    forall i: nat | k <= i < |rules|
      ensures outcomes[i].failure == Some(ScanTimeout) || outcomes[i].failure == Some(ScanCancelled)
      ensures outcomes[i].finding.status == Unknown
    {
      OutcomeAt(rules, sources, signal, turns, i);
      assert turns[..i][..k] == turns[..k];
      StaysAborted(signal, turns[..i], k);
      AbortedFails(rules[i], sources, SignalAt(signal, turns[..i]), turns[i]);
    }
    UnknownTail(outcomes, k);
    UnknownCounts(outcomes);
    BasisPointsFall(|outcomes| - k, CountUnknown(outcomes), |outcomes|);
  }

  predicate Traced(key: Text, sources: Sources, c: Completeness) {
    if key in sources
    then sources[key] != Available && key in c.unavailableDataSources && DataSourcesUnavailable in c.reasons
    else key !in c.unavailableDataSources
  }

  /**
   * A rule that fails for want of data leaves a trace: each source it requires that is known but
   * not available is listed; only a source that the scan has never heard of is not.
   */
  lemma DependencyFailureIsListed(rules: seq<Rule>, sources: Sources, signal: Signal, turns: seq<Turn>, k: nat)
    requires |rules| == |turns| && k < |rules|
    requires Outcomes(rules, sources, signal, turns)[k].failure == Some(DataDependencyUnavailable)
    ensures var c := Complete(Outcomes(rules, sources, signal, turns), sources);
      && c.basisPoints < 10_000
      && exists key :: key in rules[k].requiredDataSources && Traced(key, sources, c)
  {
    hide SignalAt, Outcomes;
    var outcomes := Outcomes(rules, sources, signal, turns);
    var o := outcomes[k];
    OutcomeAt(rules, sources, signal, turns, k);
    OutcomesAreOwn(rules, sources, signal, turns);
    assert o in outcomes && o.finding.status == Unknown;
    CompleteMeansNoFailures(outcomes, sources);
    var key :| key in rules[k].requiredDataSources && !(key in sources && sources[key] == Available);
    assert key in sources ==> key in o.finding.provenance;
    assert key in sources ==> key in Complete(outcomes, sources).unavailableDataSources;
    assert Traced(key, sources, Complete(outcomes, sources));
  }

  // ---------------------------------------------------------------- failures and the score

  /** Rule by rule the same outcome, or a failure in its place. */
  predicate OnlyFailuresDiffer(before: seq<Outcome>, after: seq<Outcome>) {
    |before| == |after| && forall i :: 0 <= i < |before| ==> after[i] == before[i] || after[i].failure.Some?
  }

  lemma {:induction false} UnknownGrows(before: seq<Outcome>, after: seq<Outcome>)
    requires OnlyFailuresDiffer(before, after) && FailuresUnknown(after)
    ensures CountUnknown(before) <= CountUnknown(after)
    decreases |before|
  {
    if before != [] {
      var n := |before| - 1;
      assert after[n] in after;
      UnknownGrows(before[..n], after[..n]);
    }
  }

  /**
   * Failures can hide findings but not their absence: however many rules fail, the score does
   * not fall; completeness does not rise, and with one failure it is not full.
   */
  lemma FailuresHide(rules: seq<Rule>, sources: Sources, signal: Signal, turns: seq<Turn>, others: seq<Turn>,
                     caps: Caps)
    requires |rules| == |turns| == |others|
    requires OnlyFailuresDiffer(Outcomes(rules, sources, signal, turns), Outcomes(rules, sources, signal, others))
    requires forall x :: x in rules ==> 0 <= x.maxPenaltyBps
    ensures var before, after := Outcomes(rules, sources, signal, turns), Outcomes(rules, sources, signal, others);
      && ScoreBps(Findings(before), ByKey(rules), caps) <= ScoreBps(Findings(after), ByKey(rules), caps)
      && Complete(after, sources).basisPoints <= Complete(before, sources).basisPoints
      && ((exists o :: o in after && o.failure.Some?) ==> Complete(after, sources).basisPoints < 10_000)
  {
    hide Outcomes, ScoreBps, ByKey;
    var before, after := Outcomes(rules, sources, signal, turns), Outcomes(rules, sources, signal, others);
    OutcomesAreOwn(rules, sources, signal, turns);
    OutcomesAreOwn(rules, sources, signal, others);
    forall i | 0 <= i < |before| && after[i] != before[i]
      ensures after[i].finding.status == Unknown
    {
      assert after[i] in after;
    }
    HidingNeverLowers(Findings(before), Findings(after), ByKey(rules), caps, |after|);
    assert Findings(after)[..|after|] + Findings(before)[|after|..] == Findings(after);
    UnknownGrows(before, after);
    UnknownCounts(before);
    UnknownCounts(after);
    BasisPointsFall(CountUnknown(before), CountUnknown(after), |rules|);
    CompleteMeansNoFailures(after, sources);
  }

  /**
   * One rule fails where it did not, and its turn takes no abort back: then only failures differ,
   * be it that rule alone or, with an abort, every rule from there on.
   */
  lemma FailureHidesButIsReported(rules: seq<Rule>, sources: Sources, signal: Signal, turns: seq<Turn>, k: nat,
                                  t: Turn, caps: Caps)
    requires |rules| == |turns| && k < |rules|
    requires forall x :: x in rules ==> 0 <= x.maxPenaltyBps
    requires ExecuteRule(rules[k], sources, SignalAt(signal, turns[..k]), t).failure.Some?
    requires var s := SignalAt(signal, turns[..k]);
      SignalAfter(s, t) == SignalAfter(s, turns[k]) || SignalAfter(s, t) != Running
    ensures var before := Outcomes(rules, sources, signal, turns);
      var after := Outcomes(rules, sources, signal, turns[k := t]);
      && OnlyFailuresDiffer(before, after)
      && ScoreBps(Findings(before), ByKey(rules), caps) <= ScoreBps(Findings(after), ByKey(rules), caps)
      && Complete(after, sources).basisPoints <= Complete(before, sources).basisPoints
      && Complete(after, sources).basisPoints < 10_000
  {
    hide Outcomes, ScoreBps, ByKey, Complete, ExecuteRule, SignalAt, SignalAfter;
    OneTurnFails(rules, sources, signal, turns, k, t);
    FailuresHide(rules, sources, signal, turns, turns[k := t], caps);
    var after := Outcomes(rules, sources, signal, turns[k := t]);
    OutcomeAt(rules, sources, signal, turns[k := t], k);
    assert turns[k := t][..k] == turns[..k];
    assert after[k] in after;
  }

  lemma OneTurnFails(rules: seq<Rule>, sources: Sources, signal: Signal, turns: seq<Turn>, k: nat, t: Turn)
    requires |rules| == |turns| && k < |rules|
    requires ExecuteRule(rules[k], sources, SignalAt(signal, turns[..k]), t).failure.Some?
    requires var s := SignalAt(signal, turns[..k]);
      SignalAfter(s, t) == SignalAfter(s, turns[k]) || SignalAfter(s, t) != Running
    ensures OnlyFailuresDiffer(Outcomes(rules, sources, signal, turns), Outcomes(rules, sources, signal, turns[k := t]))
  {
    hide Outcomes, ExecuteRule, SignalAt, SignalAfter, Complete;
    var before, after := Outcomes(rules, sources, signal, turns), Outcomes(rules, sources, signal, turns[k := t]);
    var front, rest := turns[..k], turns[k + 1..];
    assert turns == front + [turns[k]] + rest && turns[k := t] == front + [t] + rest;
    OutcomeAt(rules, sources, signal, turns[k := t], k);
    assert turns[k := t][..k] == front;
    if SignalAfter(SignalAt(signal, front), t) == SignalAfter(SignalAt(signal, front), turns[k]) {
      SameSignalSameBehind(rules, sources, signal, front, turns[k], t, rest);
    } else if k + 1 < |rules| {
      SignalIn(signal, front, t, []);
      assert front + [t] + [] == turns[k := t][..k + 1];
      NothingMore(SignalAfter(SignalAt(signal, front), t));
      AbortFailsTheRest(rules, sources, signal, turns[k := t], k + 1);
    }
    forall i: nat | i < k
      ensures after[i] == before[i]
    {
      EarlierRulesUnaffected(rules, sources, signal, turns, k, t, i);
    }
  }

  lemma NothingMore(signal: Signal)
    ensures SignalAt(signal, []) == signal
  {
  }

  // ---------------------------------------------------------------- the whole scan

  /** A data source as the scan is given it, with the block it was read at. */
  datatype DataSource = DataSource(key: Text, status: SourceStatus, block: nat, blockHash: nat)

  datatype ScanError =
    | BadScanTimeout
    | BadRuleTimeout
    | MethodologyDiffers
    | Ruleset(error: RegistryError)
    | DuplicateSource
    | SourceNotPinned

  /** The caller's part of a scan; hashes are compared without letter case, so here they are identities. */
  datatype Request = Request(
    scanTimeoutMs: int,
    perRuleTimeoutMs: int,
    contextMethodology: Text,
    rulesetMethodology: Text,
    dataSources: seq<DataSource>,
    block: nat,
    blockHash: nat)

  predicate Pinned(source: DataSource, block: nat, blockHash: nat) {
    source.block == block && source.blockHash == blockHash
  }

  /** What is wrong with data source `k`, given those before it. */
  function PinProblem(sources: seq<DataSource>, block: nat, blockHash: nat, k: nat): Option<ScanError>
    requires k < |sources|
  {
    if exists j :: 0 <= j < k && sources[j].key == sources[k].key then Some(DuplicateSource)
    else if !Pinned(sources[k], block, blockHash) then Some(SourceNotPinned)
    else None
  }

  predicate WellPinned(sources: seq<DataSource>, block: nat, blockHash: nat) {
    forall k: nat :: k < |sources| ==> PinProblem(sources, block, blockHash, k) == None
  }

  lemma PinnedMeans(sources: seq<DataSource>, block: nat, blockHash: nat)
    ensures WellPinned(sources, block, blockHash) <==>
              && (forall i, j :: 0 <= i < j < |sources| ==> sources[i].key != sources[j].key)
              && (forall i :: 0 <= i < |sources| ==> sources[i].block == block && sources[i].blockHash == blockHash)
  {
    if WellPinned(sources, block, blockHash) {
      forall i, j | 0 <= i < j < |sources|
        ensures sources[i].key != sources[j].key
      {
        assert PinProblem(sources, block, blockHash, j) == None;
      }
      forall i | 0 <= i < |sources|
        ensures sources[i].block == block && sources[i].blockHash == blockHash
      {
        assert PinProblem(sources, block, blockHash, i) == None;
      }
    }
  }

  /** Every source by its key; refused at the first that repeats a key or is not read at the scan's block. */
  method SourceMap(sources: seq<DataSource>, block: nat, blockHash: nat) returns (r: Result<Sources, ScanError>)
    ensures r.Ok? <==> WellPinned(sources, block, blockHash)
    ensures r.Ok? <==>
              && (forall i, j :: 0 <= i < j < |sources| ==> sources[i].key != sources[j].key)
              && (forall i :: 0 <= i < |sources| ==> sources[i].block == block && sources[i].blockHash == blockHash)
    ensures r.Ok? ==> forall key :: key in r.value <==> exists k :: 0 <= k < |sources| && sources[k].key == key
    ensures r.Ok? ==> forall k :: 0 <= k < |sources| ==> r.value[sources[k].key] == sources[k].status
    ensures r.Err? ==> r.error.DuplicateSource? || r.error.SourceNotPinned?
    ensures r.Err? ==> exists k: nat :: k < |sources| && PinProblem(sources, block, blockHash, k) == Some(r.error)
  {
    PinnedMeans(sources, block, blockHash);
    var found: Sources := map[];
    var k: nat := 0;
    while k < |sources|
      invariant k <= |sources|
      invariant forall j: nat :: j < k ==> PinProblem(sources, block, blockHash, j) == None
      invariant forall key :: key in found <==> exists j :: 0 <= j < k && sources[j].key == key
      invariant forall j :: 0 <= j < k ==> sources[j].key in found && found[sources[j].key] == sources[j].status
    {
      var source := sources[k];
      if source.key in found {
        assert PinProblem(sources, block, blockHash, k) == Some(DuplicateSource);
        return Err(DuplicateSource);
      }
      if !Pinned(source, block, blockHash) {
        assert PinProblem(sources, block, blockHash, k) == Some(SourceNotPinned);
        return Err(SourceNotPinned);
      }
      found := found[source.key := source.status];
      k := k + 1;
    }
    return Ok(found);
  }

  datatype ScanStatus = Completed | Partial | Cancelled

  datatype ScanResult = ScanResult(
    status: ScanStatus,
    findings: seq<Finding>,
    score: Score,
    completeness: Completeness,
    failureCodes: set<FailureCode>)

  lemma ScanIsConfigured(rules: seq<Rule>, sources: Sources, signal: Signal, turns: seq<Turn>)
    requires UniqueKeys(rules) && |rules| == |turns|
    ensures var findings := Findings(Outcomes(rules, sources, signal, turns));
      && Configured(findings, ByKey(rules))
      && forall k :: 0 <= k < |rules| ==> ByKey(rules)[FindingKey(findings[k])] == rules[k]
  {
    hide Outcomes, ByKey, KeyOf;
    OutcomesAreOwn(rules, sources, signal, turns);
    forall k: nat | k < |rules|
      ensures RuleKey(rules[k]) in ByKey(rules) && ByKey(rules)[RuleKey(rules[k])] == rules[k]
    {
      OwnRule(rules, k);
    }
  }

  /** Under unique keys a finding is scored by the rule that made it. */
  lemma OwnRule(rules: seq<Rule>, k: nat)
    requires UniqueKeys(rules) && k < |rules|
    ensures RuleKey(rules[k]) in ByKey(rules) && ByKey(rules)[RuleKey(rules[k])] == rules[k]
  {
    var own := ByKey(rules)[RuleKey(rules[k])];
    var j :| 0 <= j < |rules| && rules[j] == own;
  }

  /** Everything that makes a scan throw instead of reporting. */
  predicate Accepted(registered: seq<Rule>, request: Request, references: seq<Reference>, caps: Caps) {
    && request.scanTimeoutMs > 0 && request.perRuleTimeoutMs > 0
    && request.contextMethodology == request.rulesetMethodology
    && Resolvable(registered, references, caps)
    && WellPinned(request.dataSources, request.block, request.blockHash)
  }

  /** What a scan reports, by the outcomes of its rules and the signal it ends under. */
  ghost predicate Reports(result: ScanResult, outcomes: seq<Outcome>, sources: Sources, rules: seq<Rule>, caps: Caps,
                          last: Signal) {
    && result.findings == Findings(outcomes)
    && result.completeness == Complete(outcomes, sources)
    && result.score.scoreBps == ScoreBps(Findings(outcomes), ByKey(rules), caps)
    && 0 <= result.score.scoreBps <= 10_000
    && (result.failureCodes == {} <==> forall o :: o in outcomes ==> o.failure.None?)
    && (result.status == Cancelled <==> last == CallerAborted)
    && (result.status == Completed <==>
          last != CallerAborted && outcomes != [] && forall o :: o in outcomes ==> o.finding.status != Unknown)
  }

  lemma OneMoreRule(rules: seq<Rule>, sources: Sources, signal: Signal, turns: seq<Turn>, k: nat)
    requires |rules| == |turns| && k < |rules|
    ensures Outcomes(rules[..k + 1], sources, signal, turns[..k + 1])
         == Outcomes(rules[..k], sources, signal, turns[..k]) +
             [ExecuteRule(rules[k], sources, SignalAt(signal, turns[..k]), turns[k])]
    ensures SignalAt(signal, turns[..k + 1]) == SignalAfter(SignalAt(signal, turns[..k]), turns[k])
  {
    hide ExecuteRule, SignalAfter;
    assert rules[..k + 1][..k] == rules[..k] && turns[..k + 1][..k] == turns[..k];
  }

  /** The loop over the rules: one after another, whatever the ones before came to. */
  method RunRules(rules: seq<Rule>, sources: Sources, signal: Signal, turns: seq<Turn>)
    returns (outcomes: seq<Outcome>, last: Signal)
    requires |rules| == |turns|
    ensures outcomes == Outcomes(rules, sources, signal, turns) && last == SignalAt(signal, turns)
  {
    hide ExecuteRule, SignalAfter;
    outcomes, last := [], signal;
    assert rules[..0] == [] && turns[..0] == [];
    for k := 0 to |rules|
      invariant outcomes == Outcomes(rules[..k], sources, signal, turns[..k])
      invariant last == SignalAt(signal, turns[..k])
    {
      OneMoreRule(rules, sources, signal, turns, k);
      outcomes := outcomes + [ExecuteRule(rules[k], sources, last, turns[k])];
      last := SignalAfter(last, turns[k]);
    }
    assert rules[..|rules|] == rules && turns[..|turns|] == turns;
  }

  /** From the outcomes of all rules to the report. */
  method Conclude(rules: seq<Rule>, sources: Sources, signal: Signal, turns: seq<Turn>, caps: Caps,
                  outcomes: seq<Outcome>, last: Signal)
    returns (result: ScanResult)
    requires |rules| == |turns| && UniqueKeys(rules) && outcomes == Outcomes(rules, sources, signal, turns)
    requires forall x :: x in rules ==> 0 <= x.maxPenaltyBps
    ensures Reports(result, outcomes, sources, rules, caps, last)
  {
    hide Outcomes, ByKey, Complete, ScoreBps, CategoryScore, GradeOf, Findings, Configured, FailuresUnknown, UniqueKeys;
    var findings := Findings(outcomes);
    var completeness := Complete(outcomes, sources);
    OutcomesAreOwn(rules, sources, signal, turns);
    CompleteMeansNoFailures(outcomes, sources);
    ScanIsConfigured(rules, sources, signal, turns);
    ScoreRange(findings, ByKey(rules), caps);
    var score := CalculateRiskScore(findings, rules, caps, completeness);
    var failureCodes := set o | o in outcomes && o.failure.Some? :: o.failure.value;
    CodesNone(outcomes, failureCodes);
    var status :=
      if last == CallerAborted then Cancelled
      else if failureCodes != {} || completeness.basisPoints < 10_000 then Partial
      else Completed;
    result := ScanResult(status, findings, score.value, completeness, failureCodes);
  }

  /**
   * A scan throws exactly on bad timeouts, differing methodologies, an unresolvable ruleset, or
   * sources that are duplicated or not pinned. Otherwise every reference yields one finding, in
   * the resolved order (`rules` are the rules that ran), each rule under the signal that the ones
   * before it left; it is completed exactly when nobody cancelled it and every rule concluded.
   */
  method Scan(registry: RiskRuleRegistry, request: Request, references: seq<Reference>, caps: Caps, signal: Signal,
              turns: seq<Turn>)
    returns (r: Result<ScanResult, ScanError>, rules: seq<Rule>, sources: Sources)
    requires registry.Valid() && |turns| == |references| && signal != Expired
    ensures r.Ok? <==> Accepted(registry.rules, request, references, caps)
    ensures request.scanTimeoutMs <= 0 <==> r == Err(BadScanTimeout)
    ensures r.Ok? ==> InOrder(rules) && UniqueKeys(rules) && |rules| == |references|
    ensures r.Ok? ==> forall chosen :: Looked(registry.rules, references, chosen) ==> rules == SortRules(chosen)
    ensures r.Ok? ==> forall k :: 0 <= k < |request.dataSources| ==>
      request.dataSources[k].key in sources && sources[request.dataSources[k].key] == request.dataSources[k].status
    ensures r.Ok? ==> Reports(r.value, Outcomes(rules, sources, signal, turns), sources, rules, caps,
                              SignalAt(signal, turns))
  {
    hide Outcomes, SignalAt, Reports, WellPinned, PinProblem, Resolvable, Looked, InOrder, SortRules, UniqueKeys,
         ValidRule;
    rules, sources := [], map[];
    if request.scanTimeoutMs <= 0 {
      return Err(BadScanTimeout), rules, sources;
    }
    if request.perRuleTimeoutMs <= 0 {
      return Err(BadRuleTimeout), rules, sources;
    }
    if request.contextMethodology != request.rulesetMethodology {
      return Err(MethodologyDiffers), rules, sources;
    }
    var resolved := registry.ResolveRuleset(references, caps);
    if resolved.Err? {
      return Err(Ruleset(resolved.error)), rules, sources;
    }
    var pinned := SourceMap(request.dataSources, request.block, request.blockHash);
    if pinned.Err? {
      return Err(pinned.error), rules, sources;
    }
    rules, sources := resolved.value, pinned.value;
    var outcomes, last := RunRules(rules, sources, signal, turns);
    PenaltiesValid(registry.rules, rules);
    var result := Conclude(rules, sources, signal, turns, caps, outcomes, last);
    return Ok(result), rules, sources;
  }

  lemma PenaltiesValid(registered: seq<Rule>, rules: seq<Rule>)
    requires forall x :: x in registered ==> ValidRule(x)
    requires forall x :: x in rules ==> x in registered
    ensures forall x :: x in rules ==> 0 <= x.maxPenaltyBps
  {
  }

  lemma CodesNone(outcomes: seq<Outcome>, codes: set<FailureCode>)
    requires codes == set o | o in outcomes && o.failure.Some? :: o.failure.value
    ensures codes == {} <==> forall o :: o in outcomes ==> o.failure.None?
  {
    forall o | o in outcomes && o.failure.Some?
      ensures o.failure.value in codes
    {
    }
  }
}
