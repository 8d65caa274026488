/** Token-gated tiers: downgrades at once, upgrades only after an unbroken holding period. */
module Entitlement {
  import opened Prelude

  datatype Tier = Free | Scout | Analyst | Sentinel

  function Rank(t: Tier): nat {
    match t case Free => 0 case Scout => 1 case Analyst => 2 case Sentinel => 3
  }

  datatype Minimums = Minimums(scout: int, analyst: int, sentinel: int)

  function MinimumOf(m: Minimums, t: Tier): int
    requires !t.Free?
  {
    match t case Scout => m.scout case Analyst => m.analyst case Sentinel => m.sentinel
  }

  function CalculateTier(balance: int, m: Minimums): Tier {
    if balance >= m.sentinel then Sentinel
    else if balance >= m.analyst then Analyst
    else if balance >= m.scout then Scout
    else Free
  }

  /** The tier is the highest whose minimum the balance meets, in whatever order the minimums are. */
  lemma TierIsHighestMet(balance: int, m: Minimums, t: Tier)
    requires !t.Free?
    ensures Rank(CalculateTier(balance, m)) >= Rank(t) <==>
            exists u: Tier :: !u.Free? && Rank(u) >= Rank(t) && balance >= MinimumOf(m, u)
  {
    var c := CalculateTier(balance, m);
    if Rank(c) >= Rank(t) {
      assert balance >= MinimumOf(m, c);
    }
  }

  datatype State = State(granted: Tier, candidate: Option<Tier>, since: Option<int>)

  const NOBODY := State(Free, None, None)

  /** What a reconciliation sees: eligibility, block time in milliseconds, transfers since the candidacy began. */
  datatype Observation = Observation(eligible: Tier, at: int, reset: bool)

  function Advance(s: State, o: Observation, holdingSeconds: int): State {
    if Rank(o.eligible) < Rank(s.granted) then State(o.eligible, None, None)
    else if o.eligible == s.granted then State(s.granted, None, None)
    else
      var changed := s.candidate != Some(o.eligible) || o.reset;
      var since := if changed || s.since.None? then o.at else s.since.value;
      if o.at - since >= holdingSeconds * 1_000 then State(o.eligible, None, None)
      else State(s.granted, Some(o.eligible), Some(since))
  }

  /** The state after a history, starting with no stored row. */
  function Replay(history: seq<Observation>, holdingSeconds: int): State
    decreases |history|
  {
    if history == [] then NOBODY
    else Advance(Replay(history[..|history| - 1], holdingSeconds), history[|history| - 1], holdingSeconds)
  }

  // ---------------------------------------------------------------- streaks

  ghost predicate InOrder(history: seq<Observation>) {
    forall i, j :: 0 <= i < j < |history| ==> history[i].at <= history[j].at
  }

  /** From `j` on every observation was eligible for exactly `t`, and none after `j` saw a transfer. */
  ghost predicate Streak(history: seq<Observation>, j: nat, t: Tier) {
    j < |history| &&
    (forall k :: j <= k < |history| ==> history[k].eligible == t) &&
    (forall k :: j < k < |history| ==> !history[k].reset)
  }

  /** Where the streak that the last observation belongs to began. */
  function StreakStart(history: seq<Observation>): (start: nat)
    requires history != []
    ensures start < |history|
    decreases |history|
  {
    var n := |history| - 1;
    if n == 0 || history[n].reset || history[n - 1].eligible != history[n].eligible then n
    else StreakStart(history[..n])
  }

  lemma {:induction false} StreakStartIs(history: seq<Observation>)
    requires history != []
    ensures Streak(history, StreakStart(history), history[|history| - 1].eligible)
    decreases |history|
  {
    var n := |history| - 1;
    if n > 0 && !history[n].reset && history[n - 1].eligible == history[n].eligible {
      var front := history[..n];
      StreakStartIs(front);
      assert forall k :: StreakStart(front) <= k < n ==> history[k] == front[k];
    }
  }

  lemma {:induction false} NoEarlierStreak(history: seq<Observation>, j: nat)
    requires history != [] && Streak(history, j, history[|history| - 1].eligible)
    ensures StreakStart(history) <= j
    decreases |history|
  {
    var n := |history| - 1;
    if j < n {
      var front := history[..n];
      assert history[n - 1].eligible == history[n].eligible && front[n - 1] == history[n - 1];
      assert Streak(front, j, history[n].eligible);
      NoEarlierStreak(front, j);
    }
  }

  /**
   * The state after any history, without replaying it: nothing pending when the grant
   * matches the last eligibility; otherwise that tier is pending since its streak began,
   * and the streak is still too short.
   */
  lemma {:induction false} StateIs(history: seq<Observation>, holdingSeconds: int)
    requires history != []
    ensures var s := Replay(history, holdingSeconds);
            var last := history[|history| - 1];
            Rank(s.granted) <= Rank(last.eligible) &&
            if s.granted == last.eligible then s.candidate.None? && s.since.None?
            else s.candidate == Some(last.eligible) && s.since == Some(history[StreakStart(history)].at) &&
                 last.at - history[StreakStart(history)].at < holdingSeconds * 1_000
    decreases |history|
  {
    var n := |history| - 1;
    if n > 0 {
      var front := history[..n];
      StateIs(front, holdingSeconds);
      assert front[n - 1] == history[n - 1];
      StreakStartIs(front);
      assert front[StreakStart(front)] == history[StreakStart(front)];
    }
  }

  /**
   * Exactly when a higher tier is granted: an observation above the current grant is
   * promoted if and only if an unbroken streak of that very tier, undisturbed by
   * transfers, began at least the holding period before it.
   */
  lemma PromotedIff(history: seq<Observation>, holdingSeconds: int)
    requires history != [] && InOrder(history)
    ensures var last := history[|history| - 1];
            var before := Replay(history[..|history| - 1], holdingSeconds);
            Rank(last.eligible) > Rank(before.granted) ==>
              (Replay(history, holdingSeconds).granted == last.eligible <==>
               exists j: nat :: Streak(history, j, last.eligible) && last.at - history[j].at >= holdingSeconds * 1_000)
  {
    hide Replay, StreakStart;
    var last := history[|history| - 1];
    if Rank(last.eligible) > Rank(Replay(history[..|history| - 1], holdingSeconds).granted) {
      StreakStartIs(history);
      if Replay(history, holdingSeconds).granted == last.eligible {
        PromotionMeansStreak(history, holdingSeconds);
      } else {
        StateIs(history, holdingSeconds);
        forall j: nat | Streak(history, j, last.eligible) ensures last.at - history[j].at < holdingSeconds * 1_000 {
          NoEarlierStreak(history, j);
        }
      }
    }
  }

  lemma PromotionMeansStreak(history: seq<Observation>, holdingSeconds: int)
    requires history != []
    requires Rank(history[|history| - 1].eligible) > Rank(Replay(history[..|history| - 1], holdingSeconds).granted)
    requires Replay(history, holdingSeconds).granted == history[|history| - 1].eligible
    ensures history[|history| - 1].at - history[StreakStart(history)].at >= holdingSeconds * 1_000
  {
    var n := |history| - 1;
    if n > 0 {
      var front := history[..n];
      StateIs(front, holdingSeconds);
      assert front[n - 1] == history[n - 1];
      StreakStartIs(front);
      assert front[StreakStart(front)] == history[StreakStart(front)];
    }
  }

  // ---------------------------------------------------------------- whole histories

  /** From `j` on every observation was eligible for at least `t`. */
  ghost predicate HeldSince(history: seq<Observation>, j: nat, t: Tier) {
    j < |history| && forall k :: j <= k < |history| ==> Rank(history[k].eligible) >= Rank(t)
  }

  /**
   * Whenever a tier above free is granted, eligibility for at least that tier goes back,
   * without a gap, to an observation at least the holding period ago.
   */
  lemma {:induction false} GrantsAreEarned(history: seq<Observation>, holdingSeconds: int) returns (j: nat)
    requires InOrder(history) && holdingSeconds >= 0
    requires !Replay(history, holdingSeconds).granted.Free?
    ensures HeldSince(history, j, Replay(history, holdingSeconds).granted)
    ensures history[|history| - 1].at - history[j].at >= holdingSeconds * 1_000
    decreases |history|
  {
    var n := |history| - 1;
    var front, last := history[..n], history[n];
    var before, after := Replay(front, holdingSeconds), Replay(history, holdingSeconds);
    StateIs(history, holdingSeconds);
    if Rank(after.granted) > Rank(before.granted) {
      StreakStartIs(history);
      PromotionMeansStreak(history, holdingSeconds);
      j := StreakStart(history);
    } else {
      j := GrantsAreEarned(front, holdingSeconds);
      assert forall k :: 0 <= k < n ==> front[k] == history[k];
      assert history[n - 1].at <= last.at;
    }
  }

  /** In particular every observation in the last holding period was eligible for at least the grant. */
  lemma WindowHolds(history: seq<Observation>, holdingSeconds: int, k: nat)
    requires InOrder(history) && holdingSeconds >= 0 && k < |history|
    requires history[k].at > history[|history| - 1].at - holdingSeconds * 1_000
    ensures Rank(history[k].eligible) >= Rank(Replay(history, holdingSeconds).granted)
  {
    if !Replay(history, holdingSeconds).granted.Free? {
      var j := GrantsAreEarned(history, holdingSeconds);
    }
  }

  /** The window is open at its far end: an ineligible observation may share the streak's first instant. */
  lemma WindowIsOpen()
    ensures var history :=
            [Observation(Free, 0, false), Observation(Scout, 0, false), Observation(Scout, 60_000, false)];
            InOrder(history) && Replay(history, 60).granted == Scout && Rank(history[0].eligible) < Rank(Scout)
  {
    var history := [Observation(Free, 0, false), Observation(Scout, 0, false), Observation(Scout, 60_000, false)];
    assert history[..2][..1][..0] == [];
    assert Replay(history[..2][..1], 60) == NOBODY;
    assert Replay(history[..2], 60) == State(Free, Some(Scout), Some(0));
  }

  /** Every observation in the last holding period, its far end included, was eligible for the grant. */
  ghost predicate ClosedWindow(history: seq<Observation>, holdingSeconds: int) {
    forall k :: 0 <= k < |history| && history[k].at >= history[|history| - 1].at - holdingSeconds * 1_000 ==>
      Rank(history[k].eligible) >= Rank(Replay(history, holdingSeconds).granted)
  }

  ghost predicate At(history: seq<Observation>, times: seq<int>) {
    |history| == |times| && forall k :: 0 <= k < |history| ==> history[k].at == times[k]
  }

  /** The observation at the far end, if there is one, is the only one there. */
  ghost predicate FarEndUnshared(times: seq<int>, holdingSeconds: int) {
    forall i, j :: 0 <= i < j < |times| && times[i] == times[|times| - 1] - holdingSeconds * 1_000 ==>
           times[j] != times[i]
  }

  lemma UnsharedIsClosed(history: seq<Observation>, times: seq<int>, holdingSeconds: int)
    requires history != [] && InOrder(history) && holdingSeconds >= 0
    requires At(history, times) && FarEndUnshared(times, holdingSeconds)
    ensures ClosedWindow(history, holdingSeconds)
  {
    if !Replay(history, holdingSeconds).granted.Free? {
      var j := GrantsAreEarned(history, holdingSeconds);
      forall k | 0 <= k < |history| && history[k].at >= history[|history| - 1].at - holdingSeconds * 1_000
        ensures j <= k
      {
      }
    }
  }

  /** Observations at the given times, ineligible up to `i` and scouts after it. */
  function LateStart(times: seq<int>, i: nat): (history: seq<Observation>) {
    seq(|times|, k requires 0 <= k < |times| => Observation(if k <= i then Free else Scout, times[k], false))
  }

  /** A streak that begins at the far end is long enough, whoever else is there. */
  lemma LateStartIsGranted(times: seq<int>, i: nat, j: nat, holdingSeconds: int)
    requires i < j < |times| && holdingSeconds >= 0 && times[j] == times[|times| - 1] - holdingSeconds * 1_000
    requires forall a, b :: 0 <= a < b < |times| ==> times[a] <= times[b]
    ensures Replay(LateStart(times, i), holdingSeconds).granted == Scout
  {
    hide Replay, StreakStart;
    var history := LateStart(times, i);
    assert Streak(history, j, Scout);
    NoEarlierStreak(history, j);
    StateIs(history, holdingSeconds);
    assert times[StreakStart(history)] <= times[j];
  }

  /**
   * Which times keep the window closed: whatever was observed at them, the far end was eligible
   * too, exactly when no two observations share the instant at the far end.
   */
  lemma ClosedWindowIff(times: seq<int>, holdingSeconds: int)
    requires times != [] && holdingSeconds >= 0
    requires forall a, b :: 0 <= a < b < |times| ==> times[a] <= times[b]
    ensures (forall history :: At(history, times) ==> ClosedWindow(history, holdingSeconds))
            <==> FarEndUnshared(times, holdingSeconds)
  {
    hide Replay, ClosedWindow;
    if FarEndUnshared(times, holdingSeconds) {
      forall history | At(history, times)
        ensures ClosedWindow(history, holdingSeconds)
      {
        UnsharedIsClosed(history, times, holdingSeconds);
      }
    } else {
      var i: nat, j: nat :|
          i < j < |times| && times[i] == times[|times| - 1] - holdingSeconds * 1_000 && times[j] == times[i];
      SharedIsOpen(times, i, j, holdingSeconds);
    }
  }

  lemma SharedIsOpen(times: seq<int>, i: nat, j: nat, holdingSeconds: int)
    requires i < j < |times| && holdingSeconds >= 0 &&
             times[j] == times[i] == times[|times| - 1] - holdingSeconds * 1_000
    requires forall a, b :: 0 <= a < b < |times| ==> times[a] <= times[b]
    ensures At(LateStart(times, i), times) && !ClosedWindow(LateStart(times, i), holdingSeconds)
  {
    hide Replay;
    LateStartIsGranted(times, i, j, holdingSeconds);
    var history := LateStart(times, i);
    assert history[i].at >= history[|history| - 1].at - holdingSeconds * 1_000 && history[i].eligible == Free;
  }

  // ---------------------------------------------------------------- the stored row

  datatype Row = Row(granted: Tier, candidate: Option<Tier>, since: Option<int>, startBlock: Option<int>)

  // ---------------------------------------------------------------- what is believed

  datatype Balance = Balance(raw: int, asOfBlock: int)

  /** The canonical block row at the indexed balance's height. */
  datatype SourceBlock = SourceBlock(hashWellFormed: bool, at: int)

  /** Everything one reconciliation is told, by the chain and by the index. */
  datatype Evidence = Evidence(
    chainId: int,
    indexed: Option<Balance>,
    block: Option<SourceBlock>,
    codeHash: Option<string>,
    identityHash: Option<string>,
    direct: int,
    transferBlocks: set<int>)

  datatype Gate = Gate(enabled: bool, chainId: int, bytecodeHash: string, minimums: Minimums, holdingSeconds: int)

  /** In the order of the checks. */
  datatype Reason =
    | GateDisabled
    | ChainIdMismatch
    | IndexedBalanceUnavailable
    | SourceBlockUnavailable
    | BytecodeMismatch
    | IdentityUnverified
    | BalanceMismatch

  function Order(r: Reason): nat {
    match r
    case GateDisabled => 0
    case ChainIdMismatch => 1
    case IndexedBalanceUnavailable => 2
    case SourceBlockUnavailable => 3
    case BytecodeMismatch => 4
    case IdentityUnverified => 5
    case BalanceMismatch => 6
  }

  /** What each check demands. */
  predicate Passes(g: Gate, e: Evidence, r: Reason) {
    match r
    case GateDisabled => g.enabled
    case ChainIdMismatch => e.chainId == g.chainId
    case IndexedBalanceUnavailable => e.indexed.Some?
    case SourceBlockUnavailable => e.block.Some? && e.block.value.hashWellFormed
    case BytecodeMismatch => e.codeHash == Some(g.bytecodeHash)
    case IdentityUnverified => e.identityHash.Some? && Lower(e.identityHash.value) == Lower(g.bytecodeHash)
    case BalanceMismatch => e.indexed.Some? && e.direct == e.indexed.value.raw
  }

  ghost predicate Believed(g: Gate, e: Evidence) {
    forall r: Reason :: Passes(g, e, r)
  }

  /** Computed hashes are in lower case. */
  predicate Printed(e: Evidence) {
    e.codeHash.Some? ==> Lower(e.codeHash.value) == e.codeHash.value
  }

  /**
   * The code hash is compared letter by letter, the indexed one in any case. So a gate that
   * is enabled can believe some evidence exactly when its configured hash has no capital letter, although
   * the configuration accepts those.
   */
  lemma BelievableIff(g: Gate)
    ensures (exists e :: Printed(e) && Believed(g, e)) <==> g.enabled && Lower(g.bytecodeHash) == g.bytecodeHash
  {
    var e := Evidence(g.chainId, Some(Balance(0, 0)), Some(SourceBlock(true, 0)), Some(g.bytecodeHash),
                      Some(g.bytecodeHash), 0, {});
    assert g.enabled && Printed(e) ==> Believed(g, e);
    if e' :| Printed(e') && Believed(g, e') {
      assert Passes(g, e', GateDisabled) && Passes(g, e', BytecodeMismatch);
    }
  }

  datatype View = Unavailable(reason: Reason) | Available(tier: Tier) | PendingHold(tier: Tier)

  /** While a candidacy is pending, it is a new one exactly when the last observation began its streak. */
  lemma NewCandidacyIff(front: seq<Observation>, o: Observation, holdingSeconds: int)
    requires Replay(front + [o], holdingSeconds).candidate.Some?
    ensures var before, after := Replay(front, holdingSeconds), Replay(front + [o], holdingSeconds);
      StreakStart(front + [o]) == |front| <==>
        after.candidate != before.candidate || after.since != before.since || o.reset || front == []
    ensures front != [] && StreakStart(front + [o]) < |front| ==> StreakStart(front + [o]) == StreakStart(front)
  {
    var history := front + [o];
    assert history[..|front|] == front && history[|history| - 1] == o;
    StateIs(history, holdingSeconds);
    if front != [] {
      assert history[|front| - 1] == front[|front| - 1];
      StateIs(front, holdingSeconds);
      assert front[StreakStart(front)] == history[StreakStart(front)];
    }
  }

  /** `reconcile`: the state row of one wallet, and the observations it has been fed. */
  class EntitlementService {
    const gate: Gate
    var row: Option<Row>
    ghost var history: seq<Observation>
    ghost var blocks: seq<int>              // the block of each observation

    function Current(): State
      reads this
    {
      if row.None? then NOBODY else State(row.value.granted, row.value.candidate, row.value.since)
    }

    ghost predicate Valid()
      reads this
    {
      Current() == Replay(history, gate.holdingSeconds) &&
      |blocks| == |history| && (row.None? <==> history == []) &&
      (row.Some? ==>
        row.value.startBlock ==
          if row.value.candidate.Some? then Some(blocks[StreakStart(history)]) else None)
    }

    constructor (gate: Gate)
      ensures Valid() && history == [] && this.gate == gate
    {
      this.gate := gate;
      row, history, blocks := None, [], [];
    }

    /** The first check that fails, in the order the service makes them. */
    method Check(e: Evidence) returns (refusal: Option<Reason>)
      ensures refusal.None? <==> Believed(gate, e)
      ensures refusal.Some? ==>
                !Passes(gate, e, refusal.value) &&
                forall r: Reason :: Order(r) < Order(refusal.value) ==> Passes(gate, e, r)
    {
      if !gate.enabled {
        refusal := Some(GateDisabled);
      } else if e.chainId != gate.chainId {
        refusal := Some(ChainIdMismatch);
      } else if e.indexed.None? {
        refusal := Some(IndexedBalanceUnavailable);
      } else if e.block.None? || !e.block.value.hashWellFormed {
        refusal := Some(SourceBlockUnavailable);
      } else if e.codeHash.None? || e.codeHash.value != gate.bytecodeHash {
        refusal := Some(BytecodeMismatch);
      } else if e.identityHash.None? || Lower(e.identityHash.value) != Lower(gate.bytecodeHash) {
        refusal := Some(IdentityUnverified);
      } else if e.direct != e.indexed.value.raw {
        refusal := Some(BalanceMismatch);
      } else {
        refusal := None;
      }
      if refusal.Some? {
        assert !Passes(gate, e, refusal.value);
      }
    }

    /**
     * One reconciliation. An observation is recorded exactly when every check passes, and
     * then of the chain's own balance; the stored row always is the replay of everything
     * observed, so the history theorems speak about it. The row loses nothing by storing a
     * free candidate as null. A pending row names the block at which its streak began, so only
     * a transfer after that resets it.
     */
    method Reconcile(e: Evidence) returns (view: View)
      requires Valid()
      modifies this
      ensures Valid()
      ensures view.Unavailable? <==> !Believed(gate, e)
      ensures view.Unavailable? ==>
                row == old(row) && history == old(history) && blocks == old(blocks) && !Passes(gate, e, view.reason) &&
                forall r: Reason :: Order(r) < Order(view.reason) ==> Passes(gate, e, r)
      ensures Believed(gate, e) ==>
                row.Some? && |history| == |old(history)| + 1 && old(history) <= history &&
                Passes(gate, e, SourceBlockUnavailable) &&
                var o := history[|old(history)|];
                Passes(gate, e, IndexedBalanceUnavailable) && blocks == old(blocks) + [e.indexed.value.asOfBlock] &&
                o.eligible == CalculateTier(e.direct, gate.minimums) && o.at == e.block.value.at &&
                (o.reset <==> old(row).Some? && old(row).value.startBlock.Some? &&
                              exists b :: b in e.transferBlocks && b > old(row).value.startBlock.value) &&
                view == if row.value.granted == o.eligible then Available(row.value.granted)
                    else PendingHold(row.value.granted)
    {
      hide StreakStart, Streak;
      var refusal := Check(e);
      if refusal.Some? { return Unavailable(refusal.value); }
      assert Passes(gate, e, IndexedBalanceUnavailable) && Passes(gate, e, SourceBlockUnavailable);
      var eligible := CalculateTier(e.direct, gate.minimums);
      var current := Current();
      var startBlock := if row.Some? then row.value.startBlock else None;
      var reset := startBlock.Some? && exists b :: b in e.transferBlocks && b > startBlock.value;
      var o := Observation(eligible, e.block.value.at, reset);
      var next := Advance(current, o, gate.holdingSeconds);
      var candidateChanged := next.candidate != current.candidate || next.since != current.since || reset;
      var stored := if next.candidate == Some(Free) then None else next.candidate;
      var nextStart :=
        if next.candidate.None? then None
        else if candidateChanged || startBlock.None? then Some(e.indexed.value.asOfBlock)
        else startBlock;
      row := Some(Row(next.granted, stored, next.since, nextStart));
      history, blocks := history + [o], blocks + [e.indexed.value.asOfBlock];
      assert history[..|history| - 1] == old(history);
      StateIs(history, gate.holdingSeconds);
      if next.candidate.Some? {
        NewCandidacyIff(old(history), o, gate.holdingSeconds);
      }
      return if next.granted == eligible then Available(next.granted) else PendingHold(next.granted);
    }
  }
}
