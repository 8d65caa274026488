/** The capped additive risk score of a scan's findings. */
module RiskScore {
  import opened Prelude
  import opened Arithmetic
  import opened Json
  import opened RiskRegistry

  datatype Status = Pass | Warning | Fail | Unknown | NotApplicable

  datatype Finding = Finding(ruleId: Text, ruleVersion: Text, category: Category, status: Status, provenance: set<Text>)

  datatype FailureCode = RuleTimeout | RuleException | DataDependencyUnavailable | ScanTimeout | ScanCancelled

  datatype Reason = Failed(code: FailureCode) | UnknownRuleResults | DataSourcesUnavailable | RiskDataIncomplete

  datatype Completeness = Completeness(
    basisPoints: int,
    totalRules: nat,
    evaluatedRules: int,
    unknownRules: nat,
    failedRules: nat,
    unavailableDataSources: set<Text>,
    reasons: set<Reason>)

  // ---------------------------------------------------------------- scoring

  datatype Grade = A | B | C | D | F

  function GradeOf(scoreBps: int): Grade {
    if scoreBps >= 9_000 then A
    else if scoreBps >= 8_000 then B
    else if scoreBps >= 7_000 then C
    else if scoreBps >= 6_000 then D
    else F
  }

  datatype Score = Score(scoreBps: int, grade: Grade, categoryScoresBps: map<Category, int>, warnings: set<Reason>)

  /** A finding whose rule has no scoring configuration: the source throws. */
  datatype ScoringError = NoConfiguration(finding: Finding)

  function FindingPenalty(finding: Finding, rule: Rule): int {
    match finding.status
    case Fail => rule.maxPenaltyBps
    case Warning => rule.maxPenaltyBps / 2
    case _ => 0
  }

  function FindingKey(finding: Finding): Text {
    KeyOf(finding.ruleId, finding.ruleVersion)
  }

  /** `new Map(...)` over the rules' keys: a later rule replaces an earlier one. */
  function ByKey(rules: seq<Rule>): (m: map<Text, Rule>)
    ensures forall key :: key in m ==> m[key] in rules && RuleKey(m[key]) == key
    ensures forall rule :: rule in rules ==> RuleKey(rule) in m
  {
    if rules == [] then map[]
    else
      var n := |rules| - 1;
      assert rules == rules[..n] + [rules[n]];
      ByKey(rules[..n])[RuleKey(rules[n]) := rules[n]]
  }

  predicate Configured(findings: seq<Finding>, byKey: map<Text, Rule>) {
    forall f :: f in findings ==> FindingKey(f) in byKey
  }

  /** What one finding adds to a category. */
  function Weight(f: Finding, byKey: map<Text, Rule>, c: Category): int {
    if f.category == c && FindingKey(f) in byKey then FindingPenalty(f, byKey[FindingKey(f)]) else 0
  }

  function CategoryPenalty(findings: seq<Finding>, byKey: map<Text, Rule>, c: Category): int {
    if findings == [] then 0
    else CategoryPenalty(findings[..|findings| - 1], byKey, c) + Weight(findings[|findings| - 1], byKey, c)
  }

  /** What a category takes off: nothing without a cap, and never more than the cap. */
  function Capped(findings: seq<Finding>, byKey: map<Text, Rule>, caps: Caps, c: Category): int {
    if c in caps then Min(CategoryPenalty(findings, byKey, c), caps[c]) else 0
  }

  function Total(findings: seq<Finding>, byKey: map<Text, Rule>, caps: Caps, n: nat): int
    requires n <= |CATEGORIES|
  {
    if n == 0 then 0
    else Total(findings, byKey, caps, n - 1) + Capped(findings, byKey, caps, CATEGORIES[n - 1])
  }

  function ScoreBps(findings: seq<Finding>, byKey: map<Text, Rule>, caps: Caps): int {
    Max(0, 10_000 - Min(10_000, Total(findings, byKey, caps, |CATEGORIES|)))
  }

  function CategoryScore(findings: seq<Finding>, byKey: map<Text, Rule>, caps: Caps, c: Category): int {
    Max(0, 10_000 - Capped(findings, byKey, caps, c))
  }

  function PenaltyIn(penalties: map<Category, int>, c: Category): int {
    if c in penalties then penalties[c] else 0
  }

  lemma OneMorePenalty(findings: seq<Finding>, byKey: map<Text, Rule>, i: nat)
    requires i < |findings|
    ensures findings[..i + 1] == findings[..i] + [findings[i]]
    ensures forall c :: CategoryPenalty(findings[..i + 1], byKey, c)
                     == CategoryPenalty(findings[..i], byKey, c) + Weight(findings[i], byKey, c)
  {
    assert findings[..i + 1][..i] == findings[..i];
  }

  lemma EveryCategory(c: Category)
    ensures c in CATEGORIES
  {
    assert CATEGORIES[CategoryOrder(c)] == c;
  }

  /** The first loop: what the findings of each category add up to. */
  method SumPenalties(findings: seq<Finding>, byKey: map<Text, Rule>)
    returns (r: Result<map<Category, int>, ScoringError>)
    ensures r.Ok? <==> Configured(findings, byKey)
    ensures r.Err? ==> r.error.finding in findings && FindingKey(r.error.finding) !in byKey
    ensures r.Ok? ==> forall c :: PenaltyIn(r.value, c) == CategoryPenalty(findings, byKey, c)
  {
    var categoryPenalties: map<Category, int> := map[];
    for i := 0 to |findings|
      invariant Configured(findings[..i], byKey)
      invariant forall c :: PenaltyIn(categoryPenalties, c) == CategoryPenalty(findings[..i], byKey, c)
    {
      var finding := findings[i];
      if FindingKey(finding) !in byKey {
        return Err(NoConfiguration(finding));
      }
      var rule := byKey[FindingKey(finding)];
      var current := PenaltyIn(categoryPenalties, finding.category);
      categoryPenalties := categoryPenalties[finding.category := current + FindingPenalty(finding, rule)];
      OneMorePenalty(findings, byKey, i);
    }
    assert findings[..|findings|] == findings;
    return Ok(categoryPenalties);
  }

  method CalculateRiskScore(findings: seq<Finding>, rules: seq<Rule>, caps: Caps, completeness: Completeness)
    returns (r: Result<Score, ScoringError>)
    ensures r.Ok? <==> Configured(findings, ByKey(rules))
    ensures r.Err? ==> r.error.finding in findings && FindingKey(r.error.finding) !in ByKey(rules)
    ensures r.Ok? ==>
      && r.value.scoreBps == ScoreBps(findings, ByKey(rules), caps)
      && r.value.grade == GradeOf(r.value.scoreBps)
      && r.value.categoryScoresBps.Keys == caps.Keys
      && (forall c :: c in caps ==> r.value.categoryScoresBps[c] == CategoryScore(findings, ByKey(rules), caps, c))
      && (RiskDataIncomplete in r.value.warnings <==>
            completeness.basisPoints < 10_000 || RiskDataIncomplete in completeness.reasons)
      && completeness.reasons <= r.value.warnings <= completeness.reasons + {RiskDataIncomplete}
  {
    hide CategoryPenalty, GradeOf, Configured;
    var byKey := ByKey(rules);
    var summed := SumPenalties(findings, byKey);
    if summed.Err? {
      return Err(summed.error);
    }
    var categoryPenalties := summed.value;
    var categoryScoresBps: map<Category, int> := map[];
    var totalPenalty := 0;
    for n := 0 to |CATEGORIES|
      invariant totalPenalty == Total(findings, byKey, caps, n)
      invariant forall c :: c in categoryScoresBps <==> c in caps && c in CATEGORIES[..n]
      invariant forall c :: c in categoryScoresBps ==> categoryScoresBps[c] == CategoryScore(findings, byKey, caps, c)
    {
      var category := CATEGORIES[n];
      assert CATEGORIES[..n + 1] == CATEGORIES[..n] + [category];
      if category in caps {
        var penalty := Min(PenaltyIn(categoryPenalties, category), caps[category]);
        categoryScoresBps := categoryScoresBps[category := Max(0, 10_000 - penalty)];
        totalPenalty := totalPenalty + penalty;
      }
    }
    assert CATEGORIES[..|CATEGORIES|] == CATEGORIES;
    forall c
      ensures c in categoryScoresBps <==> c in caps
    {
      EveryCategory(c);
    }
    var scoreBps := Max(0, 10_000 - Min(10_000, totalPenalty));
    var warnings := completeness.reasons + if completeness.basisPoints < 10_000 then {RiskDataIncomplete} else {};
    return Ok(Score(scoreBps, GradeOf(scoreBps), categoryScoresBps, warnings));
  }

  // ---------------------------------------------------------------- the score does not depend on order

  lemma {:induction false} PenaltyWithout(findings: seq<Finding>, byKey: map<Text, Rule>, c: Category, i: nat)
    requires i < |findings|
    ensures CategoryPenalty(findings, byKey, c)
         == CategoryPenalty(findings[..i] + findings[i + 1..], byKey, c) + Weight(findings[i], byKey, c)
  {
    hide Weight;
    var n := |findings| - 1;
    var rest := findings[..i] + findings[i + 1..];
    if i == n {
      assert rest == findings[..n];
    } else {
      var init := findings[..n];
      PenaltyWithout(init, byKey, c, i);
      assert rest[..n - 1] == init[..i] + init[i + 1..];
      assert rest[n - 1] == findings[n];
    }
  }

  lemma TakeOut<T>(s: seq<T>, i: nat)
    requires i < |s|
    ensures multiset(s[..i] + s[i + 1..]) == multiset(s) - multiset{s[i]}
  {
    assert s == s[..i] + [s[i]] + s[i + 1..];
  }

  lemma {:induction false} PenaltyIgnoresOrder(findings: seq<Finding>, others: seq<Finding>, byKey: map<Text, Rule>,
                                               c: Category)
    requires multiset(findings) == multiset(others)
    ensures CategoryPenalty(findings, byKey, c) == CategoryPenalty(others, byKey, c)
    decreases |findings|
  {
    hide Weight, CategoryPenalty;
    assert |findings| == |multiset(findings)| == |others|;
    if findings != [] {
      var n := |findings| - 1;
      assert findings[n] in multiset(others);
      var i: nat :| i < |others| && others[i] == findings[n];
      var rest := others[..i] + others[i + 1..];
      TakeOut(others, i);
      TakeOut(findings, n);
      PenaltyWithout(findings, byKey, c, n);
      assert findings[..n] + findings[n + 1..] == findings[..n];
      PenaltyIgnoresOrder(findings[..n], rest, byKey, c);
      PenaltyWithout(others, byKey, c, i);
    }
  }

  lemma {:induction false} SameTotal(findings: seq<Finding>, others: seq<Finding>, byKey: map<Text, Rule>,
                                     caps: Caps, n: nat)
    requires n <= |CATEGORIES| && forall c :: CategoryPenalty(findings, byKey, c) == CategoryPenalty(others, byKey, c)
    ensures Total(findings, byKey, caps, n) == Total(others, byKey, caps, n)
  {
    if n > 0 {
      SameTotal(findings, others, byKey, caps, n - 1);
    }
  }

  lemma ScoreIgnoresOrder(findings: seq<Finding>, others: seq<Finding>, byKey: map<Text, Rule>, caps: Caps)
    requires multiset(findings) == multiset(others)
    ensures ScoreBps(findings, byKey, caps) == ScoreBps(others, byKey, caps)
    ensures forall c :: CategoryScore(findings, byKey, caps, c) == CategoryScore(others, byKey, caps, c)
  {
    forall c
      ensures CategoryPenalty(findings, byKey, c) == CategoryPenalty(others, byKey, c)
    {
      PenaltyIgnoresOrder(findings, others, byKey, c);
    }
    SameTotal(findings, others, byKey, caps, |CATEGORIES|);
  }

  // ---------------------------------------------------------------- a worse finding, a lower score

  /** The same rule's finding with another status. */
  predicate Reported(f: Finding, g: Finding) {
    f.ruleId == g.ruleId && f.ruleVersion == g.ruleVersion && f.category == g.category
  }

  lemma ReplacedPenalty(findings: seq<Finding>, byKey: map<Text, Rule>, c: Category, i: nat, g: Finding)
    requires i < |findings|
    ensures CategoryPenalty(findings[i := g], byKey, c)
         == CategoryPenalty(findings, byKey, c) - Weight(findings[i], byKey, c) + Weight(g, byKey, c)
  {
    PenaltyWithout(findings, byKey, c, i);
    PenaltyWithout(findings[i := g], byKey, c, i);
    assert findings[i := g][..i] + findings[i := g][i + 1..] == findings[..i] + findings[i + 1..];
  }

  /** Below the finding's category nothing changes; from there on the total moves by at most the change. */
  lemma {:induction false} ReplacedTotal(findings: seq<Finding>, byKey: map<Text, Rule>, caps: Caps, i: nat,
                                         g: Finding, n: nat)
    requires i < |findings| && n <= |CATEGORIES| && Reported(findings[i], g)
    requires Weight(findings[i], byKey, g.category) <= Weight(g, byKey, g.category)
    ensures var rise := Weight(g, byKey, g.category) - Weight(findings[i], byKey, g.category);
      0 <= Total(findings[i := g], byKey, caps, n) - Total(findings, byKey, caps, n)
        <= if CategoryOrder(g.category) < n then rise else 0
  {
    if n > 0 {
      ReplacedTotal(findings, byKey, caps, i, g, n - 1);
      ReplacedPenalty(findings, byKey, CATEGORIES[n - 1], i, g);
      OrderIs(n - 1, g.category);
    }
  }

  lemma OrderIs(n: nat, c: Category)
    requires n < |CATEGORIES|
    ensures CATEGORIES[n] == c <==> CategoryOrder(c) == n
  {
    var at := CATEGORIES[n];
    assert n == 0 || n == 1 || n == 2 || n == 3 || n == 4 || n == 5 || n == 6 || n == 7 || n == 8 || n == 9 ||
           n == 10 || n == 11;
  }

  function Gravity(s: Status): nat {
    match s
    case Fail => 2
    case Warning => 1
    case _ => 0
  }

  function Standing(g: Grade): nat {
    match g
    case A => 4
    case B => 3
    case C => 2
    case D => 1
    case F => 0
  }

  predicate Worse(s: Status, t: Status) {
    Gravity(s) <= Gravity(t)
  }

  lemma WorseWeighs(f: Finding, g: Finding, byKey: map<Text, Rule>)
    requires Reported(f, g) && Worse(f.status, g.status)
    requires forall key :: key in byKey ==> 0 <= byKey[key].maxPenaltyBps
    ensures 0 <= Weight(f, byKey, g.category) <= Weight(g, byKey, g.category)
  {
  }

  /**
   * As a finding goes from pass to warning to fail the score never rises, the grade never improves,
   * and the score falls by no more than the finding's own penalty grew.
   */
  lemma WorseNeverScoresHigher(findings: seq<Finding>, byKey: map<Text, Rule>, caps: Caps, i: nat, g: Finding)
    requires i < |findings| && Reported(findings[i], g) && Worse(findings[i].status, g.status)
    requires forall key :: key in byKey ==> 0 <= byKey[key].maxPenaltyBps
    ensures var before, after := ScoreBps(findings, byKey, caps), ScoreBps(findings[i := g], byKey, caps);
      && after <= before <= after + Weight(g, byKey, g.category) - Weight(findings[i], byKey, g.category)
      && Standing(GradeOf(after)) <= Standing(GradeOf(before))
    ensures forall c :: CategoryScore(findings[i := g], byKey, caps, c) <= CategoryScore(findings, byKey, caps, c)
  {
    WorseWeighs(findings[i], g, byKey);
    ReplacedTotal(findings, byKey, caps, i, g, |CATEGORIES|);
    forall c
      ensures CategoryScore(findings[i := g], byKey, caps, c) <= CategoryScore(findings, byKey, caps, c)
    {
      ReplacedPenalty(findings, byKey, c, i, g);
    }
  }

  // ---------------------------------------------------------------- what a finding costs

  /** What a finding may cost under a rule that takes off at most `max`: all of it, half of it, or nothing. */
  predicate Costs(s: Status, max: int, cost: int) {
    match s
    case Fail => cost == max
    case Warning => 2 * cost <= max < 2 * cost + 2
    case _ => cost == 0
  }

  lemma CostIsWeight(f: Finding, byKey: map<Text, Rule>, cost: int)
    requires FindingKey(f) in byKey && Costs(f.status, byKey[FindingKey(f)].maxPenaltyBps, cost)
    ensures Weight(f, byKey, f.category) == cost
  {
  }

  /** Only the finding's own category moves. */
  lemma {:induction false} ReplacedTotalIs(findings: seq<Finding>, byKey: map<Text, Rule>, caps: Caps, i: nat,
                                           g: Finding, n: nat)
    requires i < |findings| && n <= |CATEGORIES| && Reported(findings[i], g)
    ensures var c := g.category;
      Total(findings[i := g], byKey, caps, n) - Total(findings, byKey, caps, n)
      == if CategoryOrder(c) < n then Capped(findings[i := g], byKey, caps, c) - Capped(findings, byKey, caps, c) else 0
  {
    hide Capped, CategoryOrder;
    if n > 0 {
      ReplacedTotalIs(findings, byKey, caps, i, g, n - 1);
      if CATEGORIES[n - 1] != g.category {
        OtherCategories(findings, byKey, caps, i, g, CATEGORIES[n - 1]);
      }
      OrderIs(n - 1, g.category);
    }
  }

  lemma OtherCategories(findings: seq<Finding>, byKey: map<Text, Rule>, caps: Caps, i: nat, g: Finding, d: Category)
    requires i < |findings| && Reported(findings[i], g) && d != g.category
    ensures Capped(findings[i := g], byKey, caps, d) == Capped(findings, byKey, caps, d)
  {
    ReplacedPenalty(findings, byKey, d, i, g);
  }

  /**
   * What a graver status costs, exactly: the rise of the finding's own cost comes off its category's
   * score, down to ten thousand less the category's cap, and what the category loses comes off the
   * score, down to zero. Nothing else moves, and a category without a cap costs nothing.
   */
  lemma GraverCosts(findings: seq<Finding>, byKey: map<Text, Rule>, caps: Caps, i: nat, g: Finding, light: int,
                    grave: int)
    requires i < |findings| && Reported(findings[i], g) && FindingKey(g) in byKey && light <= grave
    requires Costs(findings[i].status, byKey[FindingKey(g)].maxPenaltyBps, light)
    requires Costs(g.status, byKey[FindingKey(g)].maxPenaltyBps, grave)
    requires g.category in caps ==> 0 <= caps[g.category] <= 10_000
    ensures var c, after := g.category, findings[i := g];
      var lost := CategoryScore(findings, byKey, caps, c) - CategoryScore(after, byKey, caps, c);
      && (c in caps ==>
            CategoryScore(after, byKey, caps, c)
            == Max(10_000 - caps[c], CategoryScore(findings, byKey, caps, c) - (grave - light)))
      && (c !in caps ==> lost == 0)
      && (forall d :: d != c ==> CategoryScore(after, byKey, caps, d) == CategoryScore(findings, byKey, caps, d))
      && ScoreBps(after, byKey, caps) == Max(0, ScoreBps(findings, byKey, caps) - lost)
  {
    CostIsWeight(findings[i], byKey, light);
    CostIsWeight(g, byKey, grave);
    ReplacedTotalIs(findings, byKey, caps, i, g, |CATEGORIES|);
    OrderInside(g.category);
    forall d
      ensures CategoryPenalty(findings[i := g], byKey, d)
           == CategoryPenalty(findings, byKey, d) - Weight(findings[i], byKey, d) + Weight(g, byKey, d)
    {
      ReplacedPenalty(findings, byKey, d, i, g);
    }
  }

  lemma OrderInside(c: Category)
    ensures CategoryOrder(c) < |CATEGORIES|
  {
  }

  /** With nothing warned of or failed, the score and every category's score are full. */
  lemma AllClear(findings: seq<Finding>, byKey: map<Text, Rule>, caps: Caps)
    requires forall f :: f in findings ==> !f.status.Fail? && !f.status.Warning?
    requires forall c :: c in caps ==> 0 <= caps[c]
    ensures ScoreBps(findings, byKey, caps) == 10_000
    ensures forall c :: CategoryScore(findings, byKey, caps, c) == 10_000
  {
    forall c
      ensures CategoryPenalty(findings, byKey, c) == 0
    {
      NothingOwed(findings, byKey, c);
    }
    NothingTaken(findings, byKey, caps, |CATEGORIES|);
  }

  lemma {:induction false} NothingOwed(findings: seq<Finding>, byKey: map<Text, Rule>, c: Category)
    requires forall f :: f in findings ==> !f.status.Fail? && !f.status.Warning?
    ensures CategoryPenalty(findings, byKey, c) == 0
  {
    if findings != [] {
      NothingOwed(findings[..|findings| - 1], byKey, c);
    }
  }

  lemma {:induction false} NothingTaken(findings: seq<Finding>, byKey: map<Text, Rule>, caps: Caps, n: nat)
    requires n <= |CATEGORIES| && forall c :: CategoryPenalty(findings, byKey, c) == 0
    requires forall c :: c in caps ==> 0 <= caps[c]
    ensures Total(findings, byKey, caps, n) == 0
  {
    if n > 0 {
      NothingTaken(findings, byKey, caps, n - 1);
    }
  }

  /** The bands are a thousand points wide from 6000 up, the best one open to the top. */
  lemma GradeIsBand(scoreBps: int)
    requires 0 <= scoreBps <= 10_000
    ensures Standing(GradeOf(scoreBps)) == Min(4, Max(0, scoreBps / 1_000 - 5))
  {
  }

  lemma {:induction false} TotalIsPositive(findings: seq<Finding>, byKey: map<Text, Rule>, caps: Caps, n: nat)
    requires n <= |CATEGORIES| && forall key :: key in byKey ==> 0 <= byKey[key].maxPenaltyBps
    ensures Total(findings, byKey, caps, n) >= 0
  {
    if n > 0 {
      TotalIsPositive(findings, byKey, caps, n - 1);
      PenaltyIsPositive(findings, byKey, CATEGORIES[n - 1]);
    }
  }

  lemma {:induction false} PenaltyIsPositive(findings: seq<Finding>, byKey: map<Text, Rule>, c: Category)
    requires forall key :: key in byKey ==> 0 <= byKey[key].maxPenaltyBps
    ensures CategoryPenalty(findings, byKey, c) >= 0
  {
    if findings != [] {
      PenaltyIsPositive(findings[..|findings| - 1], byKey, c);
    }
  }

  lemma ScoreRange(findings: seq<Finding>, byKey: map<Text, Rule>, caps: Caps)
    requires forall key :: key in byKey ==> 0 <= byKey[key].maxPenaltyBps
    ensures 0 <= ScoreBps(findings, byKey, caps) <= 10_000
    ensures forall c :: 0 <= CategoryScore(findings, byKey, caps, c) <= 10_000
  {
    TotalIsPositive(findings, byKey, caps, |CATEGORIES|);
    forall c
      ensures 0 <= CategoryScore(findings, byKey, caps, c) <= 10_000
    {
      PenaltyIsPositive(findings, byKey, c);
    }
  }

  // ---------------------------------------------------------------- hidden findings

  lemma HiddenFinding(findings: seq<Finding>, hidden: seq<Finding>, k: nat, byKey: map<Text, Rule>, caps: Caps)
    requires |hidden| == |findings| && k < |findings| && Reported(hidden[k], findings[k]) &&
             hidden == findings[k := hidden[k]]
    requires hidden[k].status == Unknown
    requires forall key :: key in byKey ==> 0 <= byKey[key].maxPenaltyBps
    ensures ScoreBps(findings, byKey, caps) <= ScoreBps(hidden, byKey, caps)
  {
    assert findings == hidden[k := findings[k]];
    WorseNeverScoresHigher(hidden, byKey, caps, k, findings[k]);
  }

  /** Some findings of `after` are unknown where `before` has a status; the others are the same. */
  predicate Hides(before: seq<Finding>, after: seq<Finding>) {
    |before| == |after| &&
    forall i :: 0 <= i < |before| ==>
           after[i] == before[i] || (after[i].status == Unknown && Reported(after[i], before[i]))
  }

  /** However many findings are hidden, the score does not fall. */
  lemma {:induction false} HidingNeverLowers(before: seq<Finding>, after: seq<Finding>, byKey: map<Text, Rule>,
                                             caps: Caps, n: nat)
    requires Hides(before, after) && n <= |before|
    requires forall key :: key in byKey ==> 0 <= byKey[key].maxPenaltyBps
    ensures ScoreBps(before, byKey, caps) <= ScoreBps(after[..n] + before[n..], byKey, caps)
  {
    hide ScoreBps;
    if n == 0 {
      assert after[..0] + before[0..] == before;
    } else {
      HidingNeverLowers(before, after, byKey, caps, n - 1);
      var mid, next := after[..n - 1] + before[n - 1..], after[..n] + before[n..];
      assert mid[n - 1] == before[n - 1] && next[n - 1] == after[n - 1];
      assert next == mid[n - 1 := after[n - 1]];
      if after[n - 1] != before[n - 1] {
        HiddenFinding(mid, next, n - 1, byKey, caps);
      } else {
        assert next == mid;
      }
    }
  }
}
