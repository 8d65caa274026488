/** The registry of risk rules: which rules it admits, and the one order in which a ruleset runs. */
module RiskRegistry {
  import opened Prelude
  import opened Json
  import opened CanonicalText
  import opened CanonicalKey
  import CanonicalShape

  datatype Category =
    | ContractControl
    | TransferBehavior
    | Supply
    | Upgradeability
    | Liquidity
    | HolderDistribution
    | DeployerHistory
    | Identity
    | MarketIntegrity
    | OracleBehavior
    | MetadataQuality
    | LaunchpadBehavior

  const CATEGORIES: seq<Category> := [
    ContractControl, TransferBehavior, Supply, Upgradeability, Liquidity, HolderDistribution,
    DeployerHistory, Identity, MarketIntegrity, OracleBehavior, MetadataQuality, LaunchpadBehavior
  ]

  function CategoryOrder(c: Category): (r: nat)
    ensures r < |CATEGORIES| && CATEGORIES[r] == c
  {
    match c
    case ContractControl => 0
    case TransferBehavior => 1
    case Supply => 2
    case Upgradeability => 3
    case Liquidity => 4
    case HolderDistribution => 5
    case DeployerHistory => 6
    case Identity => 7
    case MarketIntegrity => 8
    case OracleBehavior => 9
    case MetadataQuality => 10
    case LaunchpadBehavior => 11
  }

  /** A rule's identity and scoring; its `evaluate` is the environment's. */
  datatype Rule = Rule(
    ruleId: Text,
    version: Text,
    category: Category,
    requiredDataSources: seq<Text>,
    maxPenaltyBps: int)

  datatype Reference = Reference(ruleId: Text, version: Text)

  datatype RegistryError =
    | RuleIdRequired
    | VersionRequired
    | InvalidPenalty
    | EmptyDataSource
    | RepeatedDataSource
    | DuplicateRule
    | RepeatedReference
    | UnknownRule
    | NoPenaltyCap

  // ---------------------------------------------------------------- keys

  const AT_SIGN: Unit := 64

  function KeyOf(ruleId: Text, version: Text): Text {
    ruleId + [AT_SIGN] + version
  }

  function RuleKey(rule: Rule): Text {
    KeyOf(rule.ruleId, rule.version)
  }

  function ReferenceKey(reference: Reference): Text {
    KeyOf(reference.ruleId, reference.version)
  }

  /** The longer rule ID continues the shorter one past an at sign that the other version contains. */
  predicate Shifted(ruleId: Text, version: Text, longId: Text, shortVersion: Text) {
    && |ruleId| < |longId|
    && longId[..|ruleId|] == ruleId
    && longId[|ruleId|] == AT_SIGN
    && version == longId[|ruleId| + 1..] + [AT_SIGN] + shortVersion
  }

  lemma KeysShift(a: Text, v: Text, b: Text, w: Text)
    requires |a| < |b|
    ensures KeyOf(a, v) == KeyOf(b, w) <==> Shifted(a, v, b, w)
  {
    var left, right := KeyOf(a, v), KeyOf(b, w);
    assert left[..|a|] == a && left[|a|] == AT_SIGN && left[|a| + 1..] == v;
    assert right[..|a|] == b[..|a|] && right[|a|] == b[|a|];
    assert right[|a| + 1..] == b[|a| + 1..] + [AT_SIGN] + w;
    assert left == left[..|a|] + [left[|a|]] + left[|a| + 1..];
    assert right == right[..|a|] + [right[|a|]] + right[|a| + 1..];
  }

  /** A key names one rule ID and version, except when an at sign shifts between the two. */
  lemma KeysCollideIff(a: Text, v: Text, b: Text, w: Text)
    requires a != b || v != w
    ensures KeyOf(a, v) == KeyOf(b, w) <==> Shifted(a, v, b, w) || Shifted(b, w, a, v)
  {
    if |a| < |b| {
      KeysShift(a, v, b, w);
    } else if |b| < |a| {
      KeysShift(b, w, a, v);
    } else {
      var left, right := KeyOf(a, v), KeyOf(b, w);
      assert left[..|a|] == a && left[|a| + 1..] == v;
      assert right[..|a|] == b && right[|a| + 1..] == w;
    }
  }

  /** So rule IDs without an at sign are told apart. */
  lemma PlainKeysSeparate(a: Text, v: Text, b: Text, w: Text)
    requires AT_SIGN !in a && AT_SIGN !in b && KeyOf(a, v) == KeyOf(b, w)
    ensures a == b && v == w
  {
    if a != b || v != w {
      KeysCollideIff(a, v, b, w);
    }
  }

  // ---------------------------------------------------------------- the order

  /** `compareRiskRules`. */
  function Compare(left: Rule, right: Rule): int {
    var categoryDifference := CategoryOrder(left.category) - CategoryOrder(right.category);
    if categoryDifference != 0 then categoryDifference
    else if Less(left.ruleId, right.ruleId) then -1
    else if Less(right.ruleId, left.ruleId) then 1
    else if Less(left.version, right.version) then -1
    else if Less(right.version, left.version) then 1
    else 0
  }

  lemma CategoriesDiffer(a: Category, b: Category)
    requires CategoryOrder(a) == CategoryOrder(b)
    ensures a == b
  {
    assert CATEGORIES[CategoryOrder(a)] == CATEGORIES[CategoryOrder(b)];
  }

  /** Ties only between rules of one category, ID and version, and each pair compares both ways alike. */
  lemma CompareIsTotal(a: Rule, b: Rule)
    ensures Compare(a, b) < 0 <==> Compare(b, a) > 0
    ensures Compare(a, b) == 0 <==> a.category == b.category && a.ruleId == b.ruleId && a.version == b.version
  {
    LessTotal(a.ruleId, b.ruleId);
    LessTotal(a.version, b.version);
    if CategoryOrder(a.category) == CategoryOrder(b.category) {
      CategoriesDiffer(a.category, b.category);
    }
  }

  /** One text comes before another: at the first difference, or as its beginning. */
  ghost predicate Before(a: Text, b: Text) {
    exists k: nat :: CanonicalShape.FirstDifference(a, b, k)
  }

  /** The order is by category as they are listed, then by rule ID, then by version. */
  lemma CompareIsByCategoryFirst(a: Rule, b: Rule)
    ensures Compare(a, b) < 0 <==>
              || CategoryOrder(a.category) < CategoryOrder(b.category)
              || (a.category == b.category && Before(a.ruleId, b.ruleId))
              || (a.category == b.category && a.ruleId == b.ruleId && Before(a.version, b.version))
  {
    CanonicalShape.LessIs(a.ruleId, b.ruleId);
    CanonicalShape.LessIs(a.version, b.version);
    CompareIsTotal(a, b);
    LessTotal(a.ruleId, b.ruleId);
    if CategoryOrder(a.category) == CategoryOrder(b.category) {
      CategoriesDiffer(a.category, b.category);
    }
  }

  lemma CompareIsTransitive(a: Rule, b: Rule, c: Rule)
    requires Compare(a, b) < 0 && Compare(b, c) < 0
    ensures Compare(a, c) < 0
  {
    LessTotal(a.ruleId, b.ruleId);
    LessTotal(b.ruleId, c.ruleId);
    LessTotal(a.ruleId, c.ruleId);
    if Less(a.ruleId, b.ruleId) && Less(b.ruleId, c.ruleId) {
      LessTransitive(a.ruleId, b.ruleId, c.ruleId);
    }
    if Less(a.version, b.version) && Less(b.version, c.version) {
      LessTransitive(a.version, b.version, c.version);
    }
  }

  function InsertRule(x: Rule, s: seq<Rule>): seq<Rule> {
    if s == [] || Compare(x, s[0]) <= 0 then [x] + s else [s[0]] + InsertRule(x, s[1..])
  }

  /** What `sort(compareRiskRules)` returns. */
  function SortRules(s: seq<Rule>): seq<Rule> {
    if s == [] then [] else InsertRule(s[0], SortRules(s[1..]))
  }

  predicate InOrder(s: seq<Rule>) {
    forall i, j :: 0 <= i < j < |s| ==> Compare(s[i], s[j]) < 0
  }

  predicate UniqueKeys(s: seq<Rule>) {
    forall i, j :: 0 <= i < j < |s| ==> RuleKey(s[i]) != RuleKey(s[j])
  }

  lemma {:induction false} InsertElements(x: Rule, s: seq<Rule>)
    ensures |InsertRule(x, s)| == |s| + 1 && forall y :: y in InsertRule(x, s) <==> y == x || y in s
  {
    if s != [] && Compare(x, s[0]) > 0 {
      InsertElements(x, s[1..]);
      assert s == [s[0]] + s[1..];
    }
  }

  lemma HeadIsFirst(s: seq<Rule>, x: Rule)
    requires InOrder(s) && x in s
    ensures x == s[0] || Compare(s[0], x) < 0
  {
    var k :| 0 <= k < |s| && s[k] == x;
  }

  lemma TailElements(s: seq<Rule>, x: Rule)
    requires InOrder(s) && s != []
    ensures InOrder(s[1..]) && (x in s[1..] <==> x in s && x != s[0])
  {
    assert s == [s[0]] + s[1..];
    CompareIsTotal(s[0], s[0]);
    if x in s[1..] {
      var k :| 0 <= k < |s[1..]| && s[1..][k] == x;
      assert s[k + 1] == x;
    }
  }

  lemma PrependSorted(x: Rule, s: seq<Rule>)
    requires InOrder(s) && forall y :: y in s ==> Compare(x, y) < 0
    ensures InOrder([x] + s)
  {
  }

  lemma BeforeAll(x: Rule, s: seq<Rule>)
    requires InOrder(s) && s != [] && Compare(x, s[0]) < 0
    ensures forall y :: y in s ==> Compare(x, y) < 0
  {
    forall y | y in s
      ensures Compare(x, y) < 0
    {
      HeadIsFirst(s, y);
      if y != s[0] {
        CompareIsTransitive(x, s[0], y);
      }
    }
  }

  lemma {:induction false} InsertSorts(x: Rule, s: seq<Rule>)
    requires InOrder(s) && forall y :: y in s ==> Compare(x, y) != 0
    ensures InOrder(InsertRule(x, s))
  {
    if s == [] {
    } else if Compare(x, s[0]) <= 0 {
      BeforeAll(x, s);
      PrependSorted(x, s);
    } else {
      var rest := s[1..];
      forall y
        ensures y in rest <==> y in s && y != s[0]
      {
        TailElements(s, y);
      }
      TailElements(s, x);
      InsertSorts(x, rest);
      InsertElements(x, rest);
      CompareIsTotal(s[0], x);
      forall y | y in InsertRule(x, rest)
        ensures Compare(s[0], y) < 0
      {
        if y != x {
          HeadIsFirst(s, y);
        }
      }
      PrependSorted(s[0], InsertRule(x, rest));
    }
  }

  lemma {:induction false} SortSorts(s: seq<Rule>)
    requires UniqueKeys(s)
    ensures InOrder(SortRules(s)) && |SortRules(s)| == |s| && forall x :: x in SortRules(s) <==> x in s
  {
    if s != [] {
      var rest := s[1..];
      assert s == [s[0]] + rest;
      SortSorts(rest);
      InsertElements(s[0], SortRules(rest));
      forall y | y in SortRules(rest)
        ensures Compare(s[0], y) != 0
      {
        var k :| 0 <= k < |rest| && rest[k] == y;
        assert s[k + 1] == y;
        CompareIsTotal(s[0], y);
      }
      InsertSorts(s[0], SortRules(rest));
    }
  }

  lemma BothEmpty(s: seq<Rule>, t: seq<Rule>)
    requires forall x :: x in s <==> x in t
    ensures s == [] <==> t == []
  {
    if s != [] {
      assert s[0] in t;
    }
    if t != [] {
      assert t[0] in s;
    }
  }

  /** Two sorted lists of the same rules are the same list. */
  lemma {:induction false} SortedUnique(s: seq<Rule>, t: seq<Rule>)
    requires InOrder(s) && InOrder(t) && forall x :: x in s <==> x in t
    ensures s == t
    decreases |s|
  {
    BothEmpty(s, t);
    if s != [] {
      assert s[0] in t && t[0] in s;
      HeadIsFirst(s, t[0]);
      HeadIsFirst(t, s[0]);
      CompareIsTotal(s[0], t[0]);
      forall x
        ensures x in s[1..] <==> x in t[1..]
      {
        TailElements(s, x);
        TailElements(t, x);
      }
      TailElements(s, s[0]);
      TailElements(t, s[0]);
      SortedUnique(s[1..], t[1..]);
      assert s == [s[0]] + s[1..] && t == [t[0]] + t[1..];
    }
  }

  /** `list()` does not depend on the order of registration. */
  lemma ListIgnoresRegistrationOrder(rules: seq<Rule>, others: seq<Rule>)
    requires UniqueKeys(rules) && UniqueKeys(others) && forall x :: x in rules <==> x in others
    ensures SortRules(rules) == SortRules(others)
  {
    SortSorts(rules);
    SortSorts(others);
    SortedUnique(SortRules(rules), SortRules(others));
  }

  // ---------------------------------------------------------------- what is admitted

  /** White space and line ends, as `trim` knows them. */
  predicate IsSpace(u: Unit) {
    || 9 <= u <= 13 || u == 32 || u == 0xA0 || u == 0x1680 || 0x2000 <= u <= 0x200A
    || u == 0x2028 || u == 0x2029 || u == 0x202F || u == 0x205F || u == 0x3000 || u == 0xFEFF
  }

  predicate Blank(t: Text) {
    forall i :: 0 <= i < |t| ==> IsSpace(t[i])
  }

  /** What is wrong with data source `k` of a rule, given those before it. */
  function SourceProblem(sources: seq<Text>, k: nat): Option<RegistryError>
    requires k < |sources|
  {
    if Blank(sources[k]) then Some(EmptyDataSource)
    else if sources[k] in sources[..k] then Some(RepeatedDataSource)
    else None
  }

  predicate ValidRule(rule: Rule) {
    && !Blank(rule.ruleId)
    && !Blank(rule.version)
    && 0 <= rule.maxPenaltyBps <= 10_000
    && forall k: nat :: k < |rule.requiredDataSources| ==> SourceProblem(rule.requiredDataSources, k) == None
  }

  /** Refuses exactly the invalid rules; a source is blamed only when everything before it is sound. */
  method ValidateRule(rule: Rule) returns (problem: Option<RegistryError>)
    ensures problem == None <==> ValidRule(rule)
    ensures Blank(rule.ruleId) <==> problem == Some(RuleIdRequired)
    ensures problem == Some(EmptyDataSource) || problem == Some(RepeatedDataSource) ==>
      exists k: nat :: k < |rule.requiredDataSources|
        && SourceProblem(rule.requiredDataSources, k) == problem
        && forall j: nat :: j < k ==> SourceProblem(rule.requiredDataSources, j) == None
  {
    if Blank(rule.ruleId) {
      return Some(RuleIdRequired);
    }
    if Blank(rule.version) {
      return Some(VersionRequired);
    }
    if rule.maxPenaltyBps < 0 || rule.maxPenaltyBps > 10_000 {
      return Some(InvalidPenalty);
    }
    var sources := rule.requiredDataSources;
    var dependencyKeys: set<Text> := {};
    var k: nat := 0;
    while k < |sources|
      invariant k <= |sources|
      invariant forall t :: t in dependencyKeys <==> t in sources[..k]
      invariant forall j: nat :: j < k ==> SourceProblem(sources, j) == None
    {
      if Blank(sources[k]) {
        assert SourceProblem(sources, k) == Some(EmptyDataSource);
        return Some(EmptyDataSource);
      }
      if sources[k] in dependencyKeys {
        assert SourceProblem(sources, k) == Some(RepeatedDataSource);
        return Some(RepeatedDataSource);
      }
      dependencyKeys := dependencyKeys + {sources[k]};
      assert sources[..k + 1] == sources[..k] + [sources[k]];
      k := k + 1;
    }
    return None;
  }

  function Find(rules: seq<Rule>, key: Text): (r: Option<Rule>)
    ensures r == None <==> forall i :: 0 <= i < |rules| ==> RuleKey(rules[i]) != key
    ensures r.Some? ==> r.value in rules && RuleKey(r.value) == key
  {
    if rules == [] then None
    else if RuleKey(rules[0]) == key then Some(rules[0])
    else
      assert rules == [rules[0]] + rules[1..];
      Find(rules[1..], key)
  }

  lemma FindIgnoresOrder(rules: seq<Rule>, others: seq<Rule>, key: Text)
    requires UniqueKeys(rules) && UniqueKeys(others) && forall x :: x in rules <==> x in others
    ensures Find(rules, key) == Find(others, key)
  {
    var r, o := Find(rules, key), Find(others, key);
    if r.Some? {
      assert r.value in others;
      assert o.Some?;
    }
    if o.Some? {
      assert o.value in rules;
    }
  }

  // ---------------------------------------------------------------- resolving a ruleset

  type Caps = map<Category, nat>

  function Keys(references: seq<Reference>): (keys: seq<Text>)
    ensures |keys| == |references| && forall k :: 0 <= k < |keys| ==> keys[k] == ReferenceKey(references[k])
  {
    seq(|references|, k requires 0 <= k < |references| => ReferenceKey(references[k]))
  }

  /** What is wrong with reference `k`, given those before it. */
  function Problem(rules: seq<Rule>, references: seq<Reference>, caps: Caps, k: nat): Option<RegistryError>
    requires k < |references|
  {
    var keys := Keys(references);
    if keys[k] in keys[..k] then Some(RepeatedReference)
    else match Find(rules, keys[k])
      case None => Some(UnknownRule)
      case Some(rule) => if rule.category in caps then None else Some(NoPenaltyCap)
  }

  predicate FirstProblem(rules: seq<Rule>, references: seq<Reference>, caps: Caps, k: nat, e: RegistryError) {
    && k < |references|
    && Problem(rules, references, caps, k) == Some(e)
    && forall j: nat :: j < k ==> Problem(rules, references, caps, j) == None
  }

  predicate Resolvable(rules: seq<Rule>, references: seq<Reference>, caps: Caps) {
    forall k: nat :: k < |references| ==> Problem(rules, references, caps, k) == None
  }

  /** `chosen` holds the rule behind each reference. */
  predicate Looked(rules: seq<Rule>, references: seq<Reference>, chosen: seq<Rule>) {
    |chosen| == |references|
    && forall k :: 0 <= k < |references| ==> Find(rules, ReferenceKey(references[k])) == Some(chosen[k])
  }

  class RiskRuleRegistry {
    /** The rules in order of registration, which is how the source's map keeps them. */
    var rules: seq<Rule>

    ghost predicate Valid()
      reads this
    {
      UniqueKeys(rules) && forall x :: x in rules ==> ValidRule(x)
    }

    constructor ()
      ensures Valid() && rules == []
    {
      rules := [];
    }

    /** Adds a valid rule with a new key; anything else is refused and changes nothing. */
    method Register(rule: Rule) returns (problem: Option<RegistryError>)
      requires Valid()
      modifies this
      ensures Valid()
      ensures problem == None <==> ValidRule(rule) && Find(old(rules), RuleKey(rule)) == None
      ensures rules == if problem == None then old(rules) + [rule] else old(rules)
    {
      problem := ValidateRule(rule);
      if problem.Some? {
        return;
      }
      if Find(rules, RuleKey(rule)).Some? {
        return Some(DuplicateRule);
      }
      rules := rules + [rule];
    }

    /** `list()`: every registered rule, each once, in the one order. */
    method List() returns (r: seq<Rule>)
      requires Valid()
      ensures r == SortRules(rules) && InOrder(r)
      ensures UniqueKeys(r) && |r| == |rules| && forall x :: x in r <==> x in rules
    {
      SortSorts(rules);
      r := SortRules(rules);
      SortedDistinct(r, rules);
    }

    /** The referenced rules, each once and in the one order, or the first reference's problem. */
    method ResolveRuleset(references: seq<Reference>, caps: Caps) returns (r: Result<seq<Rule>, RegistryError>)
      requires Valid()
      ensures r.Ok? <==> Resolvable(rules, references, caps)
      ensures r.Err? ==> (exists k: nat :: FirstProblem(rules, references, caps, k, r.error))
      ensures r.Ok? ==>
        && InOrder(r.value) && |r.value| == |references| && UniqueKeys(r.value)
        && forall x :: x in r.value ==> x in rules && x.category in caps
      ensures r.Ok? ==> forall chosen :: Looked(rules, references, chosen) ==> r.value == SortRules(chosen)
    {
      ghost var keys := Keys(references);
      var seen: set<Text> := {};
      var chosen: seq<Rule> := [];
      var k: nat := 0;
      while k < |references|
        invariant k <= |references|
        invariant forall t :: t in seen <==> t in keys[..k]
        invariant forall j: nat :: j < k ==> Problem(rules, references, caps, j) == None
        invariant Looked(rules, references[..k], chosen)
      {
        var key := ReferenceKey(references[k]);
        if key in seen {
          assert FirstProblem(rules, references, caps, k, RepeatedReference);
          return Err(RepeatedReference);
        }
        seen := seen + {key};
        var rule := Find(rules, key);
        if rule.None? {
          assert FirstProblem(rules, references, caps, k, UnknownRule);
          return Err(UnknownRule);
        }
        if rule.value.category !in caps {
          assert FirstProblem(rules, references, caps, k, NoPenaltyCap);
          return Err(NoPenaltyCap);
        }
        assert keys[..k + 1] == keys[..k] + [keys[k]];
        assert references[..k + 1] == references[..k] + [references[k]];
        chosen := chosen + [rule.value];
        k := k + 1;
      }
      assert references[..k] == references;
      Resolved(rules, references, caps, chosen);
      return Ok(SortRules(chosen));
    }
  }

  lemma Resolved(rules: seq<Rule>, references: seq<Reference>, caps: Caps, chosen: seq<Rule>)
    requires Resolvable(rules, references, caps) && Looked(rules, references, chosen)
    ensures var r := SortRules(chosen);
      && InOrder(r) && |r| == |references| && UniqueKeys(r)
      && (forall x :: x in r ==> x in rules && x.category in caps)
    ensures forall other :: Looked(rules, references, other) ==> other == chosen
  {
    ChosenDistinct(rules, references, caps, chosen);
    SortSorts(chosen);
    SortedDistinct(SortRules(chosen), chosen);
  }

  lemma ChosenDistinct(rules: seq<Rule>, references: seq<Reference>, caps: Caps, chosen: seq<Rule>)
    requires Resolvable(rules, references, caps) && Looked(rules, references, chosen)
    ensures UniqueKeys(chosen)
    ensures forall x :: x in chosen ==> x in rules && x.category in caps
  {
    forall i, j | 0 <= i < j < |chosen|
      ensures RuleKey(chosen[i]) != RuleKey(chosen[j])
    {
      assert Problem(rules, references, caps, j) == None;
    }
    forall k: nat | k < |chosen|
      ensures chosen[k] in rules && chosen[k].category in caps
    {
      assert Problem(rules, references, caps, k) == None;
    }
  }

  /** A sorted list whose rules all come from a list with distinct keys has distinct keys itself. */
  lemma SortedDistinct(s: seq<Rule>, from: seq<Rule>)
    requires InOrder(s) && UniqueKeys(from) && forall x :: x in s ==> x in from
    ensures UniqueKeys(s)
  {
    forall i, j | 0 <= i < j < |s|
      ensures RuleKey(s[i]) != RuleKey(s[j])
    {
      assert s[i] in from && s[j] in from;
      CompareIsTotal(s[i], s[j]);
    }
  }

  lemma TwoPlaces<T>(s: seq<T>, i: nat, j: nat)
    requires i < j < |s|
    ensures multiset{s[i], s[j]} <= multiset(s)
  {
    assert s == s[..i] + [s[i]] + s[i + 1..j] + [s[j]] + s[j + 1..];
  }

  lemma PlacesOfTwo<T>(s: seq<T>, x: T, y: T) returns (k: nat, l: nat)
    requires multiset{x, y} <= multiset(s)
    ensures k < |s| && l < |s| && k != l && s[k] == x && s[l] == y
  {
    assert x in multiset(s);
    k :| k < |s| && s[k] == x;
    var rest := s[..k] + s[k + 1..];
    assert s == s[..k] + [s[k]] + s[k + 1..];
    assert multiset(rest) == multiset(s) - multiset{x};
    assert y in multiset(rest);
    var m: nat :| m < |rest| && rest[m] == y;
    l := if m < k then m else m + 1;
  }

  predicate NoRepeat(references: seq<Reference>) {
    forall i, j :: 0 <= i < j < |references| ==> ReferenceKey(references[i]) != ReferenceKey(references[j])
  }

  /** Whether the references repeat a key does not depend on their order. */
  lemma NoRepeatStays(a: seq<Reference>, b: seq<Reference>)
    requires multiset(a) == multiset(b) && NoRepeat(a)
    ensures NoRepeat(b)
  {
    forall i, j | 0 <= i < j < |b|
      ensures ReferenceKey(b[i]) != ReferenceKey(b[j])
    {
      TwoPlaces(b, i, j);
      var k, l := PlacesOfTwo(a, b[i], b[j]);
    }
  }

  lemma ResolvableByParts(rules: seq<Rule>, references: seq<Reference>, caps: Caps)
    ensures Resolvable(rules, references, caps) <==>
      && NoRepeat(references)
      && forall x :: x in references ==>
        var rule := Find(rules, ReferenceKey(x));
        rule.Some? && rule.value.category in caps
  {
    var keys := Keys(references);
    if Resolvable(rules, references, caps) {
      forall i, j | 0 <= i < j < |references|
        ensures ReferenceKey(references[i]) != ReferenceKey(references[j])
      {
        assert Problem(rules, references, caps, j) == None;
        assert keys[i] == keys[..j][i];
      }
      forall x | x in references
        ensures Find(rules, ReferenceKey(x)).Some? && Find(rules, ReferenceKey(x)).value.category in caps
      {
        var k: nat :| k < |references| && references[k] == x;
        assert Problem(rules, references, caps, k) == None;
      }
    }
    if NoRepeat(references) {
      forall k: nat | k < |references|
        ensures keys[k] !in keys[..k]
      {
      }
    }
  }

  lemma StillResolvable(rules: seq<Rule>, others: seq<Rule>, a: seq<Reference>, b: seq<Reference>, caps: Caps)
    requires UniqueKeys(rules) && UniqueKeys(others) && forall x :: x in rules <==> x in others
    requires multiset(a) == multiset(b) && Resolvable(rules, a, caps)
    ensures Resolvable(others, b, caps)
  {
    ResolvableByParts(rules, a, caps);
    ResolvableByParts(others, b, caps);
    NoRepeatStays(a, b);
    forall x | x in b
      ensures Find(others, ReferenceKey(x)).Some? && Find(others, ReferenceKey(x)).value.category in caps
    {
      assert x in multiset(a);
      FindIgnoresOrder(rules, others, ReferenceKey(x));
    }
  }

  /** The rules that run, and their order, depend neither on registration nor on listing order. */
  lemma ResolveIgnoresOrder(rules: seq<Rule>, others: seq<Rule>, a: seq<Reference>, b: seq<Reference>,
                            caps: Caps, chosen: seq<Rule>, chosenToo: seq<Rule>)
    requires UniqueKeys(rules) && UniqueKeys(others) && forall x :: x in rules <==> x in others
    requires multiset(a) == multiset(b)
    ensures Resolvable(rules, a, caps) <==> Resolvable(others, b, caps)
    ensures Resolvable(rules, a, caps) && Looked(rules, a, chosen) && Looked(others, b, chosenToo) ==>
      SortRules(chosen) == SortRules(chosenToo)
  {
    if Resolvable(rules, a, caps) {
      StillResolvable(rules, others, a, b, caps);
      if Looked(rules, a, chosen) && Looked(others, b, chosenToo) {
        ChosenDistinct(rules, a, caps, chosen);
        ChosenDistinct(others, b, caps, chosenToo);
        LookedSame(rules, others, a, b, chosen, chosenToo);
        LookedSame(others, rules, b, a, chosenToo, chosen);
        ListIgnoresRegistrationOrder(chosen, chosenToo);
      }
    }
    if Resolvable(others, b, caps) {
      StillResolvable(others, rules, b, a, caps);
    }
  }

  lemma LookedSame(rules: seq<Rule>, others: seq<Rule>, a: seq<Reference>, b: seq<Reference>,
                   chosen: seq<Rule>, chosenToo: seq<Rule>)
    requires UniqueKeys(rules) && UniqueKeys(others) && forall x :: x in rules <==> x in others
    requires multiset(a) == multiset(b) && Looked(rules, a, chosen) && Looked(others, b, chosenToo)
    ensures forall x :: x in chosen ==> x in chosenToo
  {
    forall x | x in chosen
      ensures x in chosenToo
    {
      var k :| 0 <= k < |chosen| && chosen[k] == x;
      assert a[k] in multiset(b);
      var l :| 0 <= l < |b| && b[l] == a[k];
      FindIgnoresOrder(rules, others, ReferenceKey(a[k]));
      assert chosenToo[l] == x;
    }
  }
}
