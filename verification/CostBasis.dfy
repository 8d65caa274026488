/**
 * FIFO cost basis. The lot queue is the source's loop over mutable lots; its meaning is a
 * queue of single units, each with the price it was acquired at, sold in order.
 */
module CostBasis {
  import opened Prelude
  import opened Arithmetic

  datatype FlowKind =
    | Buy | Sell | TransferIn | TransferOut | UserTransfer | BridgeDeposit | BridgeWithdrawal
    | Mint | Burn | Airdrop | Fee | LaunchpadBuy | LaunchpadSell | Migration | UnknownFlow

  datatype Flow = Flow(kind: FlowKind, amount: int, price: Option<int>, fee: Option<int>, userOwned: bool)

  datatype Lot = Lot(amount: int, cost: Option<int>, remaining: int)

  datatype Warning = MissingAcquisitionPrice | IncompleteHistory | MissingSalePrice | MissingCurrentPrice

  datatype Report = Report(
    lots: seq<Lot>,
    realized: Option<int>,
    unrealized: Option<int>,
    basis: int,
    proceeds: int,
    fees: int,
    averageEntry: Option<int>,
    warnings: seq<Warning>)

  datatype Failure = DivisionByZero

  predicate Acquires(f: Flow) {
    f.kind in {Buy, LaunchpadBuy, Mint, Airdrop, BridgeDeposit, Migration}
  }

  predicate Disposes(f: Flow) {
    f.kind in {Sell, LaunchpadSell, Burn, TransferOut} && !f.userOwned
  }

  // ---------------------------------------------------------------- the unit queue

  /** One unit held, by the price paid for it; None when that price is not known. */
  type Unit = Option<int>

  function Repeat(n: nat, u: Unit): (s: seq<Unit>)
    ensures |s| == n && forall i :: 0 <= i < n ==> s[i] == u
  {
    seq(n, _ => u)
  }

  function KnownSum(units: seq<Unit>): int {
    if units == [] then 0
    else (match units[0] case Some(p) => p case None => 0) + KnownSum(units[1..])
  }

  predicate AllKnown(units: seq<Unit>) {
    forall i :: 0 <= i < |units| ==> units[i].Some?
  }

  datatype Ledger = Ledger(units: seq<Unit>, realized: Option<int>, proceeds: int, shortfall: nat)

  function Advance(l: Ledger, f: Flow): Ledger {
    if Acquires(f) then
      if f.amount < 0 then l else l.(units := l.units + Repeat(f.amount, f.price))
    else if Disposes(f) then
      if f.amount < 0 then l
      else
        var n := Min(f.amount, |l.units|);
        var sold := l.units[..n];
        var realized :=
          if l.realized.Some? && AllKnown(sold) && n == f.amount && f.price.Some? then
            Some(l.realized.value + (f.amount * f.price.value - KnownSum(sold)))
          else None;
        var proceeds := if f.price.Some? then l.proceeds + f.amount * f.price.value else l.proceeds;
        Ledger(l.units[n..], realized, proceeds, l.shortfall + (f.amount - n))
    else l
  }

  /** The unit queue after a history of flows. */
  function Replay(flows: seq<Flow>): Ledger
    decreases |flows|
  {
    if flows == [] then Ledger([], Some(0), 0, 0)
    else Advance(Replay(flows[..|flows| - 1]), flows[|flows| - 1])
  }

  // ---------------------------------------------------------------- what the queue guarantees

  /** Acquisitions of something, disposals of nothing negative. */
  predicate WellFormed(flows: seq<Flow>) {
    forall i :: 0 <= i < |flows| ==>
      (Acquires(flows[i]) ==> flows[i].amount > 0) && (Disposes(flows[i]) ==> flows[i].amount >= 0)
  }

  /** Every unit ever acquired, in acquisition order. */
  function Acquired(flows: seq<Flow>): seq<Unit>
    decreases |flows|
  {
    if flows == [] then []
    else
      var front, f := flows[..|flows| - 1], flows[|flows| - 1];
      Acquired(front) + if Acquires(f) && f.amount >= 0 then Repeat(f.amount, f.price) else []
  }

  function Disposed(flows: seq<Flow>): nat
    decreases |flows|
  {
    if flows == [] then 0
    else
      var front, f := flows[..|flows| - 1], flows[|flows| - 1];
      Disposed(front) + if Disposes(f) && f.amount >= 0 then f.amount else 0
  }

  /** Units are conserved: what is held is what was acquired, less what was disposed, plus every shortfall. */
  lemma {:induction false} UnitsConserved(flows: seq<Flow>)
    ensures |Replay(flows).units| == |Acquired(flows)| - Disposed(flows) + Replay(flows).shortfall
    decreases |flows|
  {
    if flows != [] {
      UnitsConserved(flows[..|flows| - 1]);
    }
  }

  lemma {:induction false} ShortfallGrows(flows: seq<Flow>)
    requires flows != []
    ensures Replay(flows[..|flows| - 1]).shortfall <= Replay(flows).shortfall
  {
  }

  lemma AdvanceUnits(l: Ledger, f: Flow)
    ensures var moves := (Acquires(f) || Disposes(f)) && f.amount >= 0;
            Advance(l, f).units ==
              (if !moves then l.units
               else if Acquires(f) then l.units + Repeat(f.amount, f.price)
               else l.units[Min(f.amount, |l.units|)..])
    ensures Advance(l, f).shortfall == 0 && Disposes(f) && !Acquires(f) && f.amount >= 0 ==> f.amount <= |l.units|
  {
  }

  lemma SliceTwice(s: seq<Unit>, a: nat, b: nat)
    requires a + b <= |s|
    ensures s[a..][b..] == s[a + b..]
  {
  }

  /**
   * First in, first out: without a shortfall the units held are exactly those acquired,
   * in acquisition order, minus the first ones, as many as were disposed of.
   */
  lemma {:induction false} FirstInFirstOut(flows: seq<Flow>)
    requires Replay(flows).shortfall == 0
    ensures Disposed(flows) <= |Acquired(flows)|
    ensures Replay(flows).units == Acquired(flows)[Disposed(flows)..]
    decreases |flows|
  {
    hide Advance, Repeat;
    UnitsConserved(flows);
    if flows != [] {
      var front, f := flows[..|flows| - 1], flows[|flows| - 1];
      AdvanceUnits(Replay(front), f);
      ShortfallGrows(flows);
      FirstInFirstOut(front);
      UnitsConserved(front);
      if Disposes(f) && !Acquires(f) && f.amount >= 0 {
        SliceTwice(Acquired(front), Disposed(front), f.amount);
      }
    }
  }

  /** What the last disposal of a history is charged: the prices of the next unsold units. */
  lemma DisposalCharge(flows: seq<Flow>)
    requires flows != [] && Disposes(flows[|flows| - 1]) && flows[|flows| - 1].amount >= 0
    requires Replay(flows).shortfall == 0 && Replay(flows).realized.Some?
    ensures var front, f := flows[..|flows| - 1], flows[|flows| - 1];
            var sold := Disposed(front);
            Replay(front).realized.Some? && f.price.Some? && sold + f.amount <= |Acquired(front)| &&
            Replay(flows).realized.value - Replay(front).realized.value ==
              f.amount * f.price.value - KnownSum(Acquired(front)[sold..sold + f.amount])
  {
    var front, f := flows[..|flows| - 1], flows[|flows| - 1];
    ShortfallGrows(flows);
    FirstInFirstOut(front);
    UnitsConserved(front);
    assert Acquired(front)[Disposed(front)..][..f.amount]
           == Acquired(front)[Disposed(front)..Disposed(front) + f.amount];
  }

  lemma {:induction false} KnownSumSplit(a: seq<Unit>, b: seq<Unit>)
    ensures KnownSum(a + b) == KnownSum(a) + KnownSum(b)
  {
    if a == [] {
      assert a + b == b;
    } else {
      KnownSumSplit(a[1..], b);
      assert (a + b)[1..] == a[1..] + b;
    }
  }

  lemma {:induction false} KnownSumRepeat(n: nat, u: Unit)
    ensures KnownSum(Repeat(n, u)) == match u case Some(p) => n * p case None => 0
  {
    if n > 0 {
      KnownSumRepeat(n - 1, u);
      assert Repeat(n, u)[1..] == Repeat(n - 1, u);
      if u.Some? {
        assert n * u.value == u.value + (n - 1) * u.value;
      }
    }
  }

  /** Realized gains are the proceeds, less the cost of everything acquired, plus the cost still held. */
  lemma {:induction false} RealizedIdentity(flows: seq<Flow>)
    requires Replay(flows).realized.Some?
    ensures var l := Replay(flows);
            l.realized.value == l.proceeds - KnownSum(Acquired(flows)) + KnownSum(l.units)
    decreases |flows|
  {
    if flows != [] {
      var front, f := flows[..|flows| - 1], flows[|flows| - 1];
      RealizedIdentity(front);
      var l := Replay(front);
      if Acquires(f) && f.amount >= 0 {
        KnownSumSplit(l.units, Repeat(f.amount, f.price));
        KnownSumSplit(Acquired(front), Repeat(f.amount, f.price));
      } else if Disposes(f) && f.amount >= 0 {
        var n := Min(f.amount, |l.units|);
        KnownSumSplit(l.units[..n], l.units[n..]);
        assert l.units == l.units[..n] + l.units[n..];
        assert Acquired(flows) == Acquired(front) + [];
        assert Acquired(front) + [] == Acquired(front);
      } else {
        assert Acquired(front) + [] == Acquired(front);
      }
    }
  }

  // ---------------------------------------------------------------- when the gain is known

  ghost predicate SalesPriced(flows: seq<Flow>) {
    forall i :: 0 <= i < |flows| && Disposes(flows[i]) ==> flows[i].price.Some?
  }

  /** At no time had more been disposed of than acquired. */
  ghost predicate NeverOversold(flows: seq<Flow>) {
    forall k :: 0 <= k <= |flows| ==> Disposed(flows[..k]) <= |Acquired(flows[..k])|
  }

  /** Every sale is priced, every unit sold had been acquired, and at a known price. */
  ghost predicate GainsKnown(flows: seq<Flow>) {
    SalesPriced(flows) && NeverOversold(flows) &&
    Disposed(flows) <= |Acquired(flows)| && AllKnown(Acquired(flows)[..Disposed(flows)])
  }

  /** The shortfall is by how much, at the worst time, more had been disposed of than acquired. */
  lemma {:induction false} ShortfallIs(flows: seq<Flow>)
    ensures forall k :: 0 <= k <= |flows| ==> Disposed(flows[..k]) - |Acquired(flows[..k])| <= Replay(flows).shortfall
    ensures Replay(flows).shortfall > 0 ==>
              exists k :: 0 <= k <= |flows| && Disposed(flows[..k]) - |Acquired(flows[..k])| == Replay(flows).shortfall
    decreases |flows|
  {
    hide Repeat, Replay, Disposed, Acquired;
    assert flows[..|flows|] == flows;
    if flows != [] {
      var n := |flows| - 1;
      var front := flows[..n];
      ShortfallIs(front);
      ShortfallNow(flows);
      forall k | 0 <= k <= n
        ensures flows[..k] == front[..k]
      {
      }
      if Replay(flows).shortfall > Replay(front).shortfall {
        assert Disposed(flows[..n + 1]) - |Acquired(flows[..n + 1])| == Replay(flows).shortfall;
      } else if Replay(front).shortfall > 0 {
        var k :| 0 <= k <= |front| && Disposed(front[..k]) - |Acquired(front[..k])| == Replay(front).shortfall;
        assert flows[..k] == front[..k];
      }
    } else {
      assert flows[..0] == [];
      NothingShort();
    }
  }

  lemma NothingShort()
    ensures Replay([]).shortfall == 0 == Disposed([]) == |Acquired([])|
  {
  }

  /** It grows only to what is missing now. */
  lemma ShortfallNow(flows: seq<Flow>)
    requires flows != []
    ensures var s, front := Replay(flows).shortfall, Replay(flows[..|flows| - 1]).shortfall;
      s >= front && Disposed(flows) - |Acquired(flows)| <= s &&
      (s > front ==> Disposed(flows) - |Acquired(flows)| == s)
  {
    hide Repeat;
    UnitsConserved(flows);
    UnitsConserved(flows[..|flows| - 1]);
  }

  lemma NoShortfallIff(flows: seq<Flow>)
    ensures Replay(flows).shortfall == 0 <==> NeverOversold(flows)
  {
    ShortfallIs(flows);
  }

  /** With shortfalls too, the queue is what was acquired last: as much as was not there could not be sold. */
  lemma {:induction false} QueueIsSuffix(flows: seq<Flow>)
    ensures 0 <= Disposed(flows) - Replay(flows).shortfall <= |Acquired(flows)|
    ensures Replay(flows).units == Acquired(flows)[Disposed(flows) - Replay(flows).shortfall..]
    decreases |flows|
  {
    hide Advance, Repeat;
    UnitsConserved(flows);
    if flows != [] {
      var front, f := flows[..|flows| - 1], flows[|flows| - 1];
      AdvanceUnits(Replay(front), f);
      QueueIsSuffix(front);
      UnitsConserved(front);
      if Disposes(f) && !Acquires(f) && f.amount >= 0 {
        SliceTwice(Acquired(front), Disposed(front) - Replay(front).shortfall, Min(f.amount, |Replay(front).units|));
      }
    }
  }

  /** The units that have been sold. */
  function SoldUnits(flows: seq<Flow>): seq<Unit> {
    QueueIsSuffix(flows);
    Acquired(flows)[..Disposed(flows) - Replay(flows).shortfall]
  }

  /** A disposal sells the front of the queue. */
  lemma SoldNext(flows: seq<Flow>, f: Flow)
    ensures (flows + [f])[..|flows|] == flows
    ensures Disposes(f) && f.amount >= 0 ==>
              SoldUnits(flows + [f]) == SoldUnits(flows) + Replay(flows).units[..Min(f.amount, |Replay(flows).units|)]
    ensures !Disposes(f) || f.amount < 0 ==> SoldUnits(flows + [f]) == SoldUnits(flows)
  {
    hide Repeat, Advance, Acquired, Disposed, Replay;
    var all := flows + [f];
    assert all[..|flows|] == flows && all[|all| - 1] == f;
    QueueIsSuffix(flows);
    QueueIsSuffix(all);
    SoldCounts(flows, f);
    PrefixGrows(Acquired(flows), Acquired(all)[|Acquired(flows)|..], Disposed(flows) - Replay(flows).shortfall,
                if Disposes(f) && f.amount >= 0 then Min(f.amount, |Replay(flows).units|) else 0);
  }

  lemma SoldCounts(flows: seq<Flow>, f: Flow)
    ensures var all, n := flows + [f], if Disposes(f) && f.amount >= 0 then Min(f.amount, |Replay(flows).units|) else 0;
      && Disposed(all) - Replay(all).shortfall == Disposed(flows) - Replay(flows).shortfall + n
      && Acquired(flows) <= Acquired(all)
  {
    hide Repeat, Advance;
    var all := flows + [f];
    assert all[..|flows|] == flows && all[|all| - 1] == f;
    AdvanceUnits(Replay(flows), f);
    UnitsConserved(flows);
    UnitsConserved(all);
  }

  lemma PrefixGrows(a: seq<Unit>, b: seq<Unit>, k: nat, n: nat)
    requires k + n <= |a|
    ensures (a + b)[..k + n] == a[..k] + a[k..][..n]
  {
  }

  lemma AllKnownSplit(a: seq<Unit>, b: seq<Unit>)
    ensures AllKnown(a + b) <==> AllKnown(a) && AllKnown(b)
  {
    if AllKnown(a + b) {
      assert forall i :: 0 <= i < |a| ==> a[i] == (a + b)[i];
      assert forall i :: 0 <= i < |b| ==> b[i] == (a + b)[|a| + i];
    }
  }

  lemma SalesPricedNext(flows: seq<Flow>, f: Flow)
    ensures SalesPriced(flows + [f]) <==> SalesPriced(flows) && (Disposes(f) ==> f.price.Some?)
  {
    if SalesPriced(flows + [f]) {
      assert forall i :: 0 <= i < |flows| ==> flows[i] == (flows + [f])[i];
      assert (flows + [f])[|flows|] == f;
    }
  }

  lemma {:induction false} RealizedIff(flows: seq<Flow>)
    requires WellFormed(flows)
    ensures Replay(flows).realized.Some?
            <==> SalesPriced(flows) && Replay(flows).shortfall == 0 && AllKnown(SoldUnits(flows))
    decreases |flows|
  {
    hide SoldUnits, SalesPriced, AllKnown, Repeat;
    if flows == [] {
      NothingSold();
    } else {
      var front, f := flows[..|flows| - 1], flows[|flows| - 1];
      assert flows == front + [f];
      RealizedIff(front);
      SoldNext(front, f);
      SalesPricedNext(front, f);
      AllKnownSplit(SoldUnits(front), Replay(front).units[..Min(Max(0, f.amount), |Replay(front).units|)]);
    }
  }

  lemma NothingSold()
    ensures SalesPriced([]) && AllKnown(SoldUnits([]))
  {
  }

  /** Exactly when a well-formed history has a realized gain. */
  lemma RealizedIffKnown(flows: seq<Flow>)
    requires WellFormed(flows)
    ensures Replay(flows).realized.Some? <==> GainsKnown(flows)
  {
    RealizedIff(flows);
    NoShortfallIff(flows);
    QueueIsSuffix(flows);
  }

  /** Which warnings a history gives rise to, before the current price is asked for. */
  ghost predicate Warned(flows: seq<Flow>, warnings: seq<Warning>) {
    (MissingAcquisitionPrice in warnings <==> !AllKnown(SoldUnits(flows))) &&
    (IncompleteHistory in warnings <==> Replay(flows).shortfall > 0) &&
    (MissingSalePrice in warnings <==> !SalesPriced(flows)) &&
    MissingCurrentPrice !in warnings
  }

  function Sum(parts: seq<int>): int {
    if parts == [] then 0 else Sum(parts[..|parts| - 1]) + parts[|parts| - 1]
  }

  /** What each flow brings in. */
  function Proceeds(flows: seq<Flow>): seq<int> {
    seq(|flows|, i requires 0 <= i < |flows| =>
      if Disposes(flows[i]) && flows[i].price.Some? then flows[i].amount * flows[i].price.value else 0)
  }

  /** What each flow's fee is, if fees are included. */
  function Fees(flows: seq<Flow>, gasFeesIncluded: bool): seq<int> {
    seq(|flows|, i requires 0 <= i < |flows| =>
      if gasFeesIncluded && flows[i].fee.Some? then flows[i].fee.value else 0)
  }

  // ---------------------------------------------------------------- lots

  /** BigInt division truncates toward zero. */
  function Trunc(x: int, y: int): int
    requires y != 0
  {
    if x >= 0 then x / y else -((-x) / y)
  }

  predicate GoodLot(lot: Lot) {
    0 < lot.remaining <= lot.amount && (lot.cost.Some? ==> lot.cost.value == lot.amount * PriceOf(lot).value)
  }

  function PriceOf(lot: Lot): (u: Unit)
    requires lot.amount > 0
    ensures u.Some? <==> lot.cost.Some?
  {
    if lot.cost.Some? then Some(lot.cost.value / lot.amount) else None
  }

  predicate GoodLots(lots: seq<Lot>) {
    forall i :: 0 <= i < |lots| ==> GoodLot(lots[i])
  }

  /** The units a lot queue stands for. */
  function UnitsOf(lots: seq<Lot>): seq<Unit>
    requires GoodLots(lots)
  {
    if lots == [] then [] else Repeat(lots[0].remaining, PriceOf(lots[0])) + UnitsOf(lots[1..])
  }

  /** The divisions of the source are exact on a lot bought at one price. */
  lemma ExactShare(amount: int, price: int, used: int)
    requires amount > 0
    ensures Trunc(amount * price * used, amount) == price * used
  {
    var share := price * used;
    assert amount * price * used == share * amount;
    assert -(amount * price * used) == (-share) * amount;
    ExactDivision(share, amount);
    ExactDivision(-share, amount);
  }

  lemma ExactDivision(q: int, y: int)
    requires y > 0
    ensures q * y / y == q
  {
    FloorIs(q * y, y, q);
    FloorIs(q * y, y, q + 1);
    assert (q + 1) * y == q * y + y;
  }

  lemma {:induction false} UnitsOfPush(lots: seq<Lot>, lot: Lot)
    requires GoodLots(lots) && GoodLot(lot)
    ensures GoodLots(lots + [lot])
    ensures UnitsOf(lots + [lot]) == UnitsOf(lots) + Repeat(lot.remaining, PriceOf(lot))
  {
    if lots == [] {
      assert lots + [lot] == [lot];
      assert UnitsOf([lot]) == Repeat(lot.remaining, PriceOf(lot)) + UnitsOf([]);
    } else {
      UnitsOfPush(lots[1..], lot);
      assert (lots + [lot])[1..] == lots[1..] + [lot];
    }
  }

  lemma {:induction false} SomeUnits(lots: seq<Lot>)
    requires GoodLots(lots)
    ensures |UnitsOf(lots)| >= |lots|
  {
    if lots != [] {
      SomeUnits(lots[1..]);
    }
  }

  // ---------------------------------------------------------------- the source's loops

  /** Some lot in the queue is priced and was of amount zero. */
  ghost predicate HasEmptyLot(lots: seq<Lot>) {
    exists i :: 0 <= i < |lots| && lots[i].amount == 0 && lots[i].cost.Some?
  }

  /**
   * The inner `while` loop: sell `amount` from the front of the queue. On good lots it
   * takes exactly the next units; on a priced lot of amount zero it divides by zero.
   */
  method Consume(lots0: seq<Lot>, amount: int)
    returns (lots: seq<Lot>, remaining: int, cost: int, unpriced: nat, failed: bool)
    ensures GoodLots(lots0) && amount >= 0 ==>
              var units := UnitsOf(lots0);
              var n := Min(amount, |units|);
              !failed && GoodLots(lots) && UnitsOf(lots) == units[n..] && remaining == amount - n &&
              cost == KnownSum(units[..n]) && (unpriced > 0 <==> !AllKnown(units[..n]))
    ensures HasEmptyLot(lots0) ==> failed || HasEmptyLot(lots)
    ensures Loose(lots0) && amount >= 0 ==> !failed && Drops(lots0, lots, amount)
  {
    hide Taken, UnitsOf, HasEmptyLot, Charge, GoodLots, KnownSum, AllKnown, Loose, Popped, Drops;
    lots, remaining, cost, unpriced, failed := lots0, amount, 0, 0, false;
    ghost var all := if GoodLots(lots0) then UnitsOf(lots0) else [];
    ghost var k := 0;
    if GoodLots(lots0) {
      NothingTaken(lots0);
    }
    ghost var dropped := 0;
    if Loose(lots0) {
      NothingPopped(lots0, amount);
    }
    while remaining > 0 && lots != []
      invariant GoodLots(lots0) && amount >= 0 ==>
                  k + remaining == amount && remaining >= 0 && GoodLots(lots) && Taken(all, lots, k, cost, unpriced)
      invariant HasEmptyLot(lots0) ==> HasEmptyLot(lots)
      invariant Loose(lots0) && amount >= 0 ==>
                  dropped + remaining == amount && remaining >= 0 && Popped(lots0, lots, dropped, remaining)
      decreases |lots|, remaining
    {
      ghost var before := lots;
      var lot := lots[0];
      var used := if remaining < lot.remaining then remaining else lot.remaining;
      if GoodLots(lots0) && amount >= 0 {
        HeadIsGood(lots);
        TakeMore(all, lots, k, cost, unpriced, used);
      }
      if Loose(lots0) && amount >= 0 {
        PopMore(lots0, lots, dropped, remaining, used);
      }
      if lot.cost.None? {
        unpriced := unpriced + 1;
      } else if lot.amount == 0 {
        failed := true;
        IsEmptyLot(lots);
        return;
      } else {
        cost := cost + Charge(lot, used);
      }
      var left := lot.(remaining := lot.remaining - used);
      lots := lots[0 := left];
      remaining := remaining - used;
      k := k + used;
      dropped := dropped + used;
      if left.remaining == 0 {
        lots := lots[1..];
      }
      assert lots == Shrunk(before, used);
      EmptyLotStays(before, used);
    }
    if GoodLots(lots0) && amount >= 0 {
      TakenMeans(all, lots, k, cost, unpriced);
    }
    if Loose(lots0) && amount >= 0 {
      PoppedDrops(lots0, lots, dropped, remaining);
    }
  }

  /** The first `k` of the units are gone: what they cost is booked, what is left is queued. */
  ghost predicate Taken(all: seq<Unit>, lots: seq<Lot>, k: int, cost: int, unpriced: nat) {
    0 <= k <= |all| && GoodLots(lots) && UnitsOf(lots) == all[k..] && cost == KnownSum(all[..k]) &&
    (unpriced > 0 <==> !AllKnown(all[..k]))
  }

  lemma NothingTaken(lots: seq<Lot>)
    requires GoodLots(lots)
    ensures Taken(UnitsOf(lots), lots, 0, 0, 0)
  {
    assert UnitsOf(lots)[..0] == [];
  }

  lemma TakeMore(all: seq<Unit>, lots: seq<Lot>, k: int, cost: int, unpriced: nat, used: int)
    requires Taken(all, lots, k, cost, unpriced) && lots != []
    requires 0 < used <= lots[0].remaining
    ensures lots[0].amount > 0
    ensures Taken(all, Shrunk(lots, used), k + used, cost + Charge(lots[0], used),
                  if lots[0].cost.None? then unpriced + 1 else unpriced)
    ensures GoodLots(Shrunk(lots, used)) && (lots[0].cost.None? ==> Charge(lots[0], used) == 0)
  {
    hide UnitsOf, KnownSum, Shrunk;
    TakeFromHead(all, lots, k, used);
  }

  lemma HeadIsGood(lots: seq<Lot>)
    requires GoodLots(lots) && lots != []
    ensures GoodLot(lots[0])
  {
  }

  lemma TakenMeans(all: seq<Unit>, lots: seq<Lot>, k: int, cost: int, unpriced: nat)
    requires Taken(all, lots, k, cost, unpriced)
    ensures 0 <= k <= |all| && GoodLots(lots) && UnitsOf(lots) == all[k..] && |UnitsOf(lots)| == |all| - k
    ensures cost == KnownSum(all[..k]) && (unpriced > 0 <==> !AllKnown(all[..k]))
    ensures lots == [] ==> UnitsOf(lots) == []
  {
  }

  lemma IsEmptyLot(lots: seq<Lot>)
    requires lots != [] && lots[0].amount == 0 && lots[0].cost.Some?
    ensures HasEmptyLot(lots)
  {
  }

  lemma EmptyLotStays(lots: seq<Lot>, used: int)
    requires lots != [] && !(lots[0].amount == 0 && lots[0].cost.Some?)
    ensures HasEmptyLot(lots) ==> HasEmptyLot(Shrunk(lots, used))
  {
    if HasEmptyLot(lots) {
      var i :| 0 <= i < |lots| && lots[i].amount == 0 && lots[i].cost.Some?;
      var rest := Shrunk(lots, used);
      assert lots[i] == rest[if |rest| < |lots| then i - 1 else i];
    }
  }

  /** What the source charges for part of a lot. */
  function Charge(lot: Lot, used: int): int
    requires lot.amount != 0
  {
    if lot.cost.Some? then Trunc(lot.cost.value * used, lot.amount) else 0
  }

  lemma ChargeIsExact(lot: Lot, used: nat)
    requires GoodLot(lot)
    ensures Charge(lot, used) == KnownSum(Repeat(used, PriceOf(lot)))
  {
    var u := PriceOf(lot);
    KnownSumRepeat(used, u);
    if lot.cost.Some? {
      ExactShare(lot.amount, u.value, used);
      assert u.value * used == used * u.value;
    }
  }

  /** The queue after `used` units of its head are gone. */
  function Shrunk(lots: seq<Lot>, used: int): seq<Lot>
    requires lots != []
  {
    var left := lots[0].(remaining := lots[0].remaining - used);
    if left.remaining == 0 then lots[1..] else lots[0 := left]
  }

  lemma SplitRepeat(n: nat, k: nat, u: Unit, rest: seq<Unit>)
    requires k <= n
    ensures (Repeat(n, u) + rest)[..k] == Repeat(k, u)
    ensures (Repeat(n, u) + rest)[k..] == Repeat(n - k, u) + rest
    ensures Repeat(0, u) + rest == rest
  {
  }

  lemma UnitsOfHead(lot: Lot, rest: seq<Lot>)
    requires GoodLot(lot) && GoodLots(rest)
    ensures GoodLots([lot] + rest)
    ensures UnitsOf([lot] + rest) == Repeat(lot.remaining, PriceOf(lot)) + UnitsOf(rest)
  {
    assert ([lot] + rest)[1..] == rest;
  }

  lemma ShrinkLot(lot: Lot, used: int)
    requires GoodLot(lot) && 0 < used <= lot.remaining
    ensures lot.amount > 0
    ensures var left := lot.(remaining := lot.remaining - used);
            PriceOf(left) == PriceOf(lot) && (used < lot.remaining ==> GoodLot(left))
  {
  }

  lemma ShrinkHead(lots: seq<Lot>, used: int)
    requires GoodLots(lots) && lots != [] && 0 < used <= lots[0].remaining
    ensures GoodLots(Shrunk(lots, used)) && used <= |UnitsOf(lots)|
    ensures UnitsOf(lots)[..used] == Repeat(used, PriceOf(lots[0]))
    ensures UnitsOf(lots)[used..] == UnitsOf(Shrunk(lots, used))
  {
    hide GoodLot, PriceOf, Repeat, UnitsOf;
    var lot, rest := lots[0], lots[1..];
    ShrinkLot(lot, used);
    UnitsOfHead(lot, rest);
    assert lots == [lot] + rest;
    SplitRepeat(lot.remaining, used, PriceOf(lot), UnitsOf(rest));
    if used < lot.remaining {
      var left := lot.(remaining := lot.remaining - used);
      UnitsOfHead(left, rest);
      assert Shrunk(lots, used) == [left] + rest;
    }
  }

  lemma TakeFromHead(all: seq<Unit>, lots: seq<Lot>, k: nat, used: int)
    requires GoodLots(lots) && lots != [] && k <= |all| && UnitsOf(lots) == all[k..]
    requires 0 < used <= lots[0].remaining
    ensures k + used <= |all|
    ensures KnownSum(all[..k + used]) == KnownSum(all[..k]) + Charge(lots[0], used)
    ensures AllKnown(all[..k + used]) <==> AllKnown(all[..k]) && lots[0].cost.Some?
    ensures GoodLots(Shrunk(lots, used)) && UnitsOf(Shrunk(lots, used)) == all[k + used..]
  {
    hide UnitsOf, KnownSum, Charge, Shrunk;
    ShrinkHead(lots, used);
    ChargeIsExact(lots[0], used);
    var taken := Repeat(used, PriceOf(lots[0]));
    assert all[..k + used] == all[..k] + taken by {
      assert all[k..][..used] == taken;
    }
    assert all[k + used..] == all[k..][used..];
    KnownSumSplit(all[..k], taken);
    assert taken[0] == PriceOf(lots[0]);
    assert all[..k + used][k] == taken[0];
  }

  // ---------------------------------------------------------------- lots of nothing

  /** What an unpriced acquisition of amount zero leaves in the queue. */
  predicate IsEmpty(lot: Lot) {
    lot.amount == 0 && lot.remaining == 0 && lot.cost.None?
  }

  predicate Loose(lots: seq<Lot>) {
    forall i :: 0 <= i < |lots| ==> GoodLot(lots[i]) || IsEmpty(lots[i])
  }

  function Held(lots: seq<Lot>): int {
    if lots == [] then 0 else lots[0].remaining + Held(lots[1..])
  }

  /** An empty lot is queued behind exactly `u` units. */
  predicate EmptyAt(lots: seq<Lot>, u: int) {
    lots != [] && ((IsEmpty(lots[0]) && u == 0) || EmptyAt(lots[1..], u - lots[0].remaining))
  }

  ghost predicate HasUnpricedEmpty(lots: seq<Lot>) {
    exists i :: 0 <= i < |lots| && IsEmpty(lots[i])
  }

  /** Selling `amount` takes the first units, and the empty lots that fewer units stood before. */
  ghost predicate Drops(before: seq<Lot>, after: seq<Lot>, amount: nat) {
    Loose(after) && Held(after) == Held(before) - Min(amount, Held(before)) &&
    forall u: nat :: EmptyAt(after, u) <==> EmptyAt(before, u + amount)
  }

  /** In the middle of a sale, `k` units gone: an empty lot at the very front may or may not be. */
  ghost predicate Popped(before: seq<Lot>, lots: seq<Lot>, k: int, remaining: int) {
    Loose(lots) && Held(lots) == Held(before) - k &&
    forall u: nat :: u > 0 || remaining == 0 ==> (EmptyAt(lots, u) <==> EmptyAt(before, u + k))
  }

  lemma NothingPopped(lots: seq<Lot>, amount: int)
    requires Loose(lots)
    ensures Popped(lots, lots, 0, amount)
  {
  }

  lemma ShrinkEmpties(lots: seq<Lot>, used: nat, u: nat)
    requires Loose(lots) && lots != [] && used <= lots[0].remaining
    requires if IsEmpty(lots[0]) then u > 0 else used > 0
    ensures Loose(Shrunk(lots, used)) && Held(Shrunk(lots, used)) == Held(lots) - used
    ensures EmptyAt(Shrunk(lots, used), u) <==> EmptyAt(lots, u + used)
  {
    var left := lots[0].(remaining := lots[0].remaining - used);
    if left.remaining > 0 {
      assert lots[0 := left][1..] == lots[1..];
      assert PriceOf(left) == PriceOf(lots[0]);
    }
  }

  lemma PopMore(before: seq<Lot>, lots: seq<Lot>, k: int, remaining: int, used: int)
    requires Popped(before, lots, k, remaining) && lots != [] && remaining > 0
    requires used == if remaining < lots[0].remaining then remaining else lots[0].remaining
    ensures used >= 0 && Popped(before, Shrunk(lots, used), k + used, remaining - used)
    ensures lots[0].cost.Some? ==> lots[0].amount > 0
  {
    hide EmptyAt, Held, Shrunk;
    ShrinkEmpties(lots, used, 1);
    forall u: nat | u > 0 || remaining == used
      ensures EmptyAt(Shrunk(lots, used), u) <==> EmptyAt(before, u + (k + used))
    {
      ShrinkEmpties(lots, used, u);
      assert EmptyAt(lots, u + used) <==> EmptyAt(before, u + used + k);
    }
  }

  lemma {:induction false} EmptyWithin(lots: seq<Lot>, u: int)
    requires Loose(lots)
    ensures Held(lots) >= 0 && (EmptyAt(lots, u) ==> 0 <= u <= Held(lots))
  {
    if lots != [] {
      EmptyWithin(lots[1..], u - lots[0].remaining);
    }
  }

  lemma PoppedDrops(before: seq<Lot>, lots: seq<Lot>, k: int, remaining: nat)
    requires k + remaining >= 0
    requires Loose(before) && Popped(before, lots, k, remaining) && (remaining == 0 || lots == [])
    ensures Drops(before, lots, k + remaining)
  {
    EmptyWithin(before, 0);
    EmptyWithin(lots, 0);
    forall u: nat
      ensures EmptyAt(lots, u) <==> EmptyAt(before, u + (k + remaining))
    {
      if remaining > 0 {
        assert EmptyAt(lots, u + remaining) <==> EmptyAt(before, u + remaining + k);
      }
    }
  }

  lemma {:induction false} PushEmpties(lots: seq<Lot>, lot: Lot, u: int)
    ensures Held(lots + [lot]) == Held(lots) + lot.remaining
    ensures EmptyAt(lots + [lot], u) <==> EmptyAt(lots, u) || (IsEmpty(lot) && u == Held(lots))
  {
    if lots == [] {
      assert lots + [lot] == [lot];
    } else {
      PushEmpties(lots[1..], lot, u - lots[0].remaining);
      assert (lots + [lot])[1..] == lots[1..] + [lot];
    }
  }

  lemma {:induction false} EmptyHasPlace(lots: seq<Lot>, i: nat) returns (u: nat)
    requires Loose(lots) && i < |lots| && IsEmpty(lots[i])
    ensures EmptyAt(lots, u)
  {
    if i == 0 {
      u := 0;
    } else {
      var v := EmptyHasPlace(lots[1..], i - 1);
      u := v + lots[0].remaining;
    }
  }

  lemma {:induction false} PlaceHasEmpty(lots: seq<Lot>, u: int)
    requires EmptyAt(lots, u)
    ensures HasUnpricedEmpty(lots)
  {
    if IsEmpty(lots[0]) && u == 0 {
    } else {
      PlaceHasEmpty(lots[1..], u - lots[0].remaining);
      var i :| 0 <= i < |lots[1..]| && IsEmpty(lots[1..][i]);
      assert IsEmpty(lots[i + 1]);
    }
  }

  // ---------------------------------------------------------------- the closing reductions

  function BasisOf(lots: seq<Lot>): Result<int, Failure>
    decreases |lots|
  {
    if lots == [] then Ok(0)
    else
      var lot := lots[|lots| - 1];
      match BasisOf(lots[..|lots| - 1])
      case Err(e) => Err(e)
      case Ok(sum) =>
        if lot.cost.None? then Ok(sum)
        else if lot.amount == 0 then Err(DivisionByZero)
        else Ok(sum + Trunc(lot.cost.value * lot.remaining, lot.amount))
  }

  function UnrealizedOf(lots: seq<Lot>, price: int): Result<int, Failure>
    decreases |lots|
  {
    if lots == [] then Ok(0)
    else
      var lot := lots[|lots| - 1];
      match UnrealizedOf(lots[..|lots| - 1], price)
      case Err(e) => Err(e)
      case Ok(sum) =>
        if lot.amount == 0 then Err(DivisionByZero)
        else
          var paid := if lot.cost.Some? then lot.cost.value else 0;
          Ok(sum + (price * lot.remaining - Trunc(paid * lot.remaining, lot.amount)))
  }

  function RemainingOf(lots: seq<Lot>): int
    decreases |lots|
  {
    if lots == [] then 0 else RemainingOf(lots[..|lots| - 1]) + lots[|lots| - 1].remaining
  }

  lemma LastLot(lots: seq<Lot>, price: int, basis: int, gain: int)
    requires lots != [] && GoodLot(lots[|lots| - 1])
    requires BasisOf(lots[..|lots| - 1]) == Ok(basis) && UnrealizedOf(lots[..|lots| - 1], price) == Ok(gain)
    ensures var lot := lots[|lots| - 1];
            BasisOf(lots) == Ok(basis + Charge(lot, lot.remaining)) &&
            UnrealizedOf(lots, price) == Ok(gain + (price * lot.remaining - Charge(lot, lot.remaining)))
  {
    ExactDivision(0, lots[|lots| - 1].amount);
  }

  lemma Distribute(price: int, a: int, b: int)
    ensures price * (a + b) == price * a + price * b
  {
  }

  /** What the reductions compute on good lots, in units. */
  lemma {:induction false} ReductionsInUnits(lots: seq<Lot>, price: int)
    requires GoodLots(lots)
    ensures var units := UnitsOf(lots);
            BasisOf(lots) == Ok(KnownSum(units)) && RemainingOf(lots) == |units| &&
            UnrealizedOf(lots, price) == Ok(price * |units| - KnownSum(units))
    decreases |lots|
  {
    if lots != [] {
      hide BasisOf, UnrealizedOf, UnitsOf, KnownSum, Charge;
      var front, lot := lots[..|lots| - 1], lots[|lots| - 1];
      ReductionsInUnits(front, price);
      UnitsOfPush(front, lot);
      assert front + [lot] == lots;
      KnownSumSplit(UnitsOf(front), Repeat(lot.remaining, PriceOf(lot)));
      ChargeIsExact(lot, lot.remaining);
      LastLot(lots, price, KnownSum(UnitsOf(front)), price * |UnitsOf(front)| - KnownSum(UnitsOf(front)));
      Distribute(price, |UnitsOf(front)|, lot.remaining);
    }
  }

  lemma {:induction false} EmptyLotFails(lots: seq<Lot>)
    requires HasEmptyLot(lots)
    ensures BasisOf(lots).Err?
    decreases |lots|
  {
    var i :| 0 <= i < |lots| && lots[i].amount == 0 && lots[i].cost.Some?;
    if i < |lots| - 1 {
      assert lots[..|lots| - 1][i] == lots[i];
      EmptyLotFails(lots[..|lots| - 1]);
    }
  }

  lemma {:induction false} LooseReductions(lots: seq<Lot>, price: int)
    requires Loose(lots)
    ensures BasisOf(lots).Ok? && RemainingOf(lots) == Held(lots)
    ensures UnrealizedOf(lots, price).Err? <==> HasUnpricedEmpty(lots)
    decreases |lots|
  {
    if lots != [] {
      var front, lot := lots[..|lots| - 1], lots[|lots| - 1];
      LooseReductions(front, price);
      PushEmpties(front, lot, 0);
      assert front + [lot] == lots;
      if i :| 0 <= i < |lots| && IsEmpty(lots[i]) {
        assert i < |front| ==> IsEmpty(front[i]);
      }
      if i :| 0 <= i < |front| && IsEmpty(front[i]) {
        assert IsEmpty(lots[i]);
      }
    }
  }

  /** Only empty lots can be queued for nothing held. */
  lemma HeldNothing(lots: seq<Lot>)
    requires Loose(lots) && lots != [] && Held(lots) == 0
    ensures HasUnpricedEmpty(lots)
  {
    EmptyWithin(lots[1..], 0);
    assert IsEmpty(lots[0]);
  }

  lemma EmptyHeld(lots: seq<Lot>)
    ensures Held([]) == 0 && (HasUnpricedEmpty(lots) ==> lots != [])
  {
  }

  function FeesOf(flows: seq<Flow>, gasFeesIncluded: bool): int {
    Sum(Fees(flows, gasFeesIncluded))
  }

  /** Amounts as chains report them. */
  predicate NonNegative(flows: seq<Flow>) {
    forall i :: 0 <= i < |flows| && (Acquires(flows[i]) || Disposes(flows[i])) ==> flows[i].amount >= 0
  }

  /**
   * Flow `i` leaves a lot that a division meets: a priced lot of nothing always does; an unpriced
   * one does if no later disposal reaches past it, and there is a current price or nothing held.
   */
  predicate LeavesZeroDivisor(flows: seq<Flow>, currentPrice: Option<int>, i: nat)
    requires i < |flows|
  {
    Acquires(flows[i]) && flows[i].amount == 0 &&
    (flows[i].price.Some? ||
     (Disposed(flows[i + 1..]) <= |Replay(flows[..i]).units| && (currentPrice.Some? || Replay(flows).units == [])))
  }

  ghost predicate DividesByZero(flows: seq<Flow>, currentPrice: Option<int>) {
    exists i: nat :: i < |flows| && LeavesZeroDivisor(flows, currentPrice, i)
  }

  /** An unpriced acquisition of nothing that has exactly `u` unsold units before it. */
  ghost predicate EmptyBehind(flows: seq<Flow>, u: int) {
    exists i: nat :: i < |flows| && EmptyFrom(flows, i, u)
  }

  predicate EmptyFrom(flows: seq<Flow>, i: nat, u: int)
    requires i < |flows|
  {
    Acquires(flows[i]) && flows[i].amount == 0 && flows[i].price.None? &&
    |Replay(flows[..i]).units| - Disposed(flows[i + 1..]) == u
  }

  /** What the loop has established, lots of nothing included. */
  ghost predicate Queued(flows: seq<Flow>, lots: seq<Lot>) {
    Loose(lots) && Held(lots) == |Replay(flows).units| &&
    forall u: nat :: EmptyAt(lots, u) <==> EmptyBehind(flows, u)
  }

  lemma EmptyFromStep(flows: seq<Flow>, f: Flow, i: nat, u: int)
    requires i < |flows|
    ensures EmptyFrom(flows + [f], i, u)
            <==> EmptyFrom(flows, i, u + if Disposes(f) && f.amount >= 0 then f.amount else 0)
  {
    hide Replay;
    var after := flows[i + 1..];
    assert (flows + [f])[..i] == flows[..i] && (flows + [f])[i + 1..] == after + [f];
    assert (after + [f])[..|after|] == after;
  }

  lemma EmptyFromLast(flows: seq<Flow>, f: Flow, u: int)
    ensures EmptyFrom(flows + [f], |flows|, u) <==>
            Acquires(f) && f.amount == 0 && f.price.None? && u == |Replay(flows).units|
  {
    hide Replay;
    assert (flows + [f])[..|flows|] == flows && (flows + [f])[|flows| + 1..] == [];
  }

  /** One more flow moves the empty lots forward by what it disposes of, and may add one at the end. */
  lemma EmptyBehindStep(flows: seq<Flow>, f: Flow, u: int)
    ensures EmptyBehind(flows + [f], u) <==>
              EmptyBehind(flows, u + (if Disposes(f) && f.amount >= 0 then f.amount else 0)) ||
              (Acquires(f) && f.amount == 0 && f.price.None? && u == |Replay(flows).units|)
  {
    hide Replay, EmptyFrom;
    var sold := if Disposes(f) && f.amount >= 0 then f.amount else 0;
    EmptyFromLast(flows, f, u);
    if EmptyBehind(flows, u + sold) {
      var i: nat :| i < |flows| && EmptyFrom(flows, i, u + sold);
      EmptyFromStep(flows, f, i, u);
    }
    if EmptyBehind(flows + [f], u) {
      var i: nat :| i < |flows + [f]| && EmptyFrom(flows + [f], i, u);
      if i < |flows| {
        EmptyFromStep(flows, f, i, u);
      }
    }
  }

  lemma StartQueued()
    ensures Queued([], [])
  {
  }

  lemma QueuedIsLoose(flows: seq<Flow>, lots: seq<Lot>)
    requires Queued(flows, lots)
    ensures Loose(lots)
  {
  }

  lemma QueuedPush(flows: seq<Flow>, lots: seq<Lot>, f: Flow)
    requires Queued(flows, lots) && Acquires(f) && f.amount >= 0 && !(f.amount == 0 && f.price.Some?)
    ensures Queued(flows + [f],
                   lots + [Lot(f.amount, if f.price.Some? then Some(f.amount * f.price.value) else None, f.amount)])
  {
    hide EmptyBehind, EmptyAt;
    var lot := Lot(f.amount, if f.price.Some? then Some(f.amount * f.price.value) else None, f.amount);
    assert (flows + [f])[..|flows|] == flows;
    if f.price.Some? {
      ExactDivision(f.price.value, f.amount);
      assert f.amount * f.price.value == f.price.value * f.amount;
    }
    PushEmpties(lots, lot, 0);
    forall u: nat
      ensures EmptyAt(lots + [lot], u) <==> EmptyBehind(flows + [f], u)
    {
      PushEmpties(lots, lot, u);
      EmptyBehindStep(flows, f, u);
    }
  }

  lemma QueuedDispose(flows: seq<Flow>, lots: seq<Lot>, after: seq<Lot>, f: Flow)
    requires Queued(flows, lots) && Disposes(f) && f.amount >= 0 && Drops(lots, after, f.amount)
    ensures Queued(flows + [f], after)
  {
    hide EmptyBehind, EmptyAt, Held;
    assert (flows + [f])[..|flows|] == flows;
    forall u: nat
      ensures EmptyAt(after, u) <==> EmptyBehind(flows + [f], u)
    {
      EmptyBehindStep(flows, f, u);
      assert EmptyAt(lots, u + f.amount) <==> EmptyBehind(flows, u + f.amount);
    }
  }

  lemma QueuedSkip(flows: seq<Flow>, lots: seq<Lot>, f: Flow)
    requires Queued(flows, lots) && !Acquires(f) && !Disposes(f)
    ensures Queued(flows + [f], lots)
  {
    hide EmptyBehind, EmptyAt;
    assert (flows + [f])[..|flows|] == flows;
    forall u: nat
      ensures EmptyAt(lots, u) <==> EmptyBehind(flows + [f], u)
    {
      EmptyBehindStep(flows, f, u);
    }
  }

  /** The closing divisions in terms of the history. */
  lemma QueuedMeans(flows: seq<Flow>, lots: seq<Lot>, currentPrice: Option<int>)
    requires Queued(flows, lots) && !AcquiresNothing(flows)
    ensures HasUnpricedEmpty(lots) && (currentPrice.Some? || Held(lots) == 0) <==> DividesByZero(flows, currentPrice)
  {
    if HasUnpricedEmpty(lots) && (currentPrice.Some? || Held(lots) == 0) {
      var k: nat :| k < |lots| && IsEmpty(lots[k]);
      var u := EmptyHasPlace(lots, k);
      var i: nat :| i < |flows| && EmptyFrom(flows, i, u);
      assert LeavesZeroDivisor(flows, currentPrice, i);
    }
    if DividesByZero(flows, currentPrice) {
      var i: nat :| i < |flows| && LeavesZeroDivisor(flows, currentPrice, i);
      assert flows[i].price.None?;
      var u: nat := |Replay(flows[..i]).units| - Disposed(flows[i + 1..]);
      assert EmptyFrom(flows, i, u);
      PlaceHasEmpty(lots, u);
      assert currentPrice.Some? || Held(lots) == 0;
    }
  }

  lemma PricedNothingDivides(flows: seq<Flow>, currentPrice: Option<int>)
    requires AcquiresNothing(flows)
    ensures DividesByZero(flows, currentPrice)
  {
    var i: nat :| i < |flows| && Acquires(flows[i]) && flows[i].amount == 0 && flows[i].price.Some?;
    assert LeavesZeroDivisor(flows, currentPrice, i);
  }

  ghost predicate AcquiresNothing(flows: seq<Flow>) {
    exists i :: 0 <= i < |flows| && Acquires(flows[i]) && flows[i].amount == 0 && flows[i].price.Some?
  }

  /** What the loop has established after the flows seen so far. */
  ghost predicate Tracks(flows: seq<Flow>, lots: seq<Lot>, realized: Option<int>, proceeds: int,
                         warnings: seq<Warning>) {
    var l := Replay(flows);
    GoodLots(lots) && UnitsOf(lots) == l.units && realized == l.realized && proceeds == l.proceeds &&
    (warnings == [] <==> realized.Some?) && Warned(flows, warnings)
  }

  lemma PushTracks(flows: seq<Flow>, lots: seq<Lot>, realized: Option<int>, proceeds: int, warnings: seq<Warning>,
                   f: Flow)
    requires Tracks(flows, lots, realized, proceeds, warnings) && Acquires(f) && f.amount > 0
    ensures var cost := if f.price.Some? then Some(f.amount * f.price.value) else None;
            Tracks(flows + [f], lots + [Lot(f.amount, cost, f.amount)], realized, proceeds, warnings)
  {
    var cost := if f.price.Some? then Some(f.amount * f.price.value) else None;
    var lot := Lot(f.amount, cost, f.amount);
    if f.price.Some? {
      ExactDivision(f.price.value, f.amount);
      assert f.amount * f.price.value == f.price.value * f.amount;
    }
    assert GoodLot(lot) && PriceOf(lot) == f.price;
    hide Warned;
    UnitsOfPush(lots, lot);
    assert (flows + [f])[..|flows|] == flows;
    WarnedSkip(flows, warnings, f);
  }

  /** A flow that is no disposal warns of nothing. */
  lemma WarnedSkip(flows: seq<Flow>, warnings: seq<Warning>, f: Flow)
    requires Warned(flows, warnings) && !Disposes(f) && (Acquires(f) ==> f.amount >= 0)
    ensures Warned(flows + [f], warnings)
  {
    hide SoldUnits, SalesPriced, AllKnown, Repeat;
    SoldNext(flows, f);
    SalesPricedNext(flows, f);
  }

  /** What a disposal of `n` units that are there and `missing` that are not adds to the warnings. */
  lemma WarnedDispose(flows: seq<Flow>, warnings: seq<Warning>, f: Flow, more: seq<Warning>)
    requires Warned(flows, warnings) && Disposes(f) && f.amount >= 0
    requires var units := Replay(flows).units;
      && (MissingAcquisitionPrice in more <==> !AllKnown(units[..Min(f.amount, |units|)]))
      && (IncompleteHistory in more <==> f.amount > |units|)
      && (MissingSalePrice in more <==> f.price.None?) && MissingCurrentPrice !in more
    ensures Warned(flows + [f], warnings + more)
  {
    hide SoldUnits, SalesPriced, AllKnown, Repeat;
    SoldNext(flows, f);
    SalesPricedNext(flows, f);
    AllKnownSplit(SoldUnits(flows), Replay(flows).units[..Min(f.amount, |Replay(flows).units|)]);
  }

  /** The figures of a report, in terms of the unit queue. */
  ghost predicate Figures(r: Report, units: seq<Unit>, price: Option<int>) {
    GoodLots(r.lots) && UnitsOf(r.lots) == units && r.basis == KnownSum(units) &&
    r.unrealized == (if price.Some? then Some(price.value * |units| - KnownSum(units)) else None) &&
    (r.averageEntry.Some? <==> units != []) &&
    (units != [] ==> r.averageEntry == Some(Trunc(KnownSum(units), |units|)))
  }

  ghost predicate Reports(r: Report, flows: seq<Flow>, price: Option<int>, gasFeesIncluded: bool) {
    var l := Replay(flows);
    Figures(r, l.units, price) && r.realized == l.realized && r.proceeds == l.proceeds &&
    r.fees == FeesOf(flows, gasFeesIncluded) &&
    (r.realized.Some? <==> GainsKnown(flows)) &&
    (r.warnings == [] <==> r.realized.Some? && (price.Some? || r.lots == [])) &&
    // each warning has its one cause
    (MissingAcquisitionPrice in r.warnings <==> !AllKnown(SoldUnits(flows))) &&
    (IncompleteHistory in r.warnings <==> !NeverOversold(flows)) &&
    (MissingSalePrice in r.warnings <==> !SalesPriced(flows)) &&
    (MissingCurrentPrice in r.warnings <==> price.None? && r.lots != []) &&
    // gains are exact: proceeds and holdings at the current price, less everything paid
    (r.realized.Some? && r.unrealized.Some? ==>
      r.realized.value + r.unrealized.value ==
        r.proceeds + price.value * |l.units| - KnownSum(Acquired(flows)))
  }

  /** The three reductions, the average and the last warning. */
  method Close(lots: seq<Lot>, price: Option<int>, realized: Option<int>, proceeds: int, fees: int,
               warnings0: seq<Warning>)
    returns (r: Result<Report, Failure>)
    ensures GoodLots(lots) ==>
              r.Ok? && r.value.lots == lots && Figures(r.value, UnitsOf(lots), price) && r.value.realized == realized &&
              r.value.proceeds == proceeds && r.value.fees == fees &&
              r.value.warnings == warnings0 + if price.None? && lots != [] then [MissingCurrentPrice] else []
    ensures r.Ok? ==> r.value.proceeds == proceeds && r.value.fees == fees
    ensures HasEmptyLot(lots) ==> r.Err?
    ensures Loose(lots) ==> (r.Err? <==> HasUnpricedEmpty(lots) && (price.Some? || Held(lots) == 0))
  {
    hide Loose, HasUnpricedEmpty, Held;
    EmptyHeld(lots);
    if Loose(lots) {
      LooseReductions(lots, if price.Some? then price.value else 0);
      if lots != [] && Held(lots) == 0 {
        HeldNothing(lots);
      }
    }
    if GoodLots(lots) {
      ReductionsInUnits(lots, if price.Some? then price.value else 0);
      SomeUnits(lots);
    }
    if HasEmptyLot(lots) {
      EmptyLotFails(lots);
    }
    var basis := BasisOf(lots);
    if basis.Err? { return Err(DivisionByZero); }
    var unrealized: Option<int> := None;
    if price.Some? {
      var u := UnrealizedOf(lots, price.value);
      if u.Err? { return Err(DivisionByZero); }
      unrealized := Some(u.value);
    }
    var warnings := warnings0;
    if price.None? && lots != [] { warnings := warnings + [MissingCurrentPrice]; }
    var averageEntry: Option<int> := None;
    if lots != [] {
      var total := RemainingOf(lots);
      if total == 0 { return Err(DivisionByZero); }
      averageEntry := Some(if total > 0 then Trunc(basis.value, total) else Trunc(-basis.value, -total));
    }
    return Ok(Report(lots, realized, unrealized, basis.value, proceeds, fees, averageEntry, warnings));
  }

  lemma AcquiresNothingStep(flows: seq<Flow>, i: nat)
    requires i < |flows| && AcquiresNothing(flows[..i + 1])
    ensures AcquiresNothing(flows[..i]) || (Acquires(flows[i]) && flows[i].amount == 0 && flows[i].price.Some?)
  {
    var k :| 0 <= k < |flows[..i + 1]| && Acquires(flows[..i + 1][k]) && flows[..i + 1][k].amount == 0 &&
             flows[..i + 1][k].price.Some?;
    if k < i {
      assert flows[..i][k] == flows[k];
    }
  }

  /** The disposal branch for one flow: consume, note what is missing, book the gain. */
  method Dispose(ghost flows: seq<Flow>, f: Flow, lots0: seq<Lot>, realized0: Option<int>, proceeds0: int,
                 warnings0: seq<Warning>)
    returns (lots: seq<Lot>, realized: Option<int>, proceeds: int, warnings: seq<Warning>, failed: bool)
    requires Disposes(f)
    ensures Tracks(flows, lots0, realized0, proceeds0, warnings0) && f.amount >= 0 ==>
              !failed && Tracks(flows + [f], lots, realized, proceeds, warnings)
    ensures HasEmptyLot(lots0) ==> failed || HasEmptyLot(lots)
    ensures Loose(lots0) && f.amount >= 0 ==> !failed && Drops(lots0, lots, f.amount)
    ensures !failed ==> proceeds == proceeds0 + if f.price.Some? then f.amount * f.price.value else 0
  {
    hide Warned, UnitsOf, GoodLots, AllKnown, KnownSum, Loose, Drops, HasEmptyLot, SoldUnits, SalesPriced;
    realized, proceeds, warnings := realized0, proceeds0, warnings0;
    assert (flows + [f])[..|flows|] == flows;
    var remaining, cost, unpriced;
    lots, remaining, cost, unpriced, failed := Consume(lots0, f.amount);
    if failed { return; }
    if unpriced > 0 {
      realized := None;
      warnings := warnings + seq(unpriced, _ => MissingAcquisitionPrice);
    }
    if remaining > 0 {
      realized, warnings := None, warnings + [IncompleteHistory];
    }
    if f.price.None? {
      realized, warnings := None, warnings + [MissingSalePrice];
    } else {
      proceeds := proceeds + f.amount * f.price.value;
      if realized.Some? {
        realized := Some(realized.value + (f.amount * f.price.value - cost));
      }
    }
    ghost var more := (if unpriced > 0 then seq(unpriced, _ => MissingAcquisitionPrice) else [])
      + (if remaining > 0 then [IncompleteHistory] else []) + (if f.price.None? then [MissingSalePrice] else []);
    assert warnings == warnings0 + more;
    Contents(unpriced, remaining > 0, f.price.None?);
    if Tracks(flows, lots0, realized0, proceeds0, warnings0) && f.amount >= 0 {
      WarnedDispose(flows, warnings0, f, more);
    }
  }

  lemma Contents(unpriced: nat, missing: bool, unsold: bool)
    ensures var more := (if unpriced > 0 then seq(unpriced, _ => MissingAcquisitionPrice) else [])
      + (if missing then [IncompleteHistory] else []) + (if unsold then [MissingSalePrice] else []);
      && (MissingAcquisitionPrice in more <==> unpriced > 0) && (IncompleteHistory in more <==> missing)
      && (MissingSalePrice in more <==> unsold) && MissingCurrentPrice !in more
  {
    var more := (if unpriced > 0 then seq(unpriced, _ => MissingAcquisitionPrice) else [])
      + (if missing then [IncompleteHistory] else []) + (if unsold then [MissingSalePrice] else []);
    if unpriced > 0 {
      assert more[0] == MissingAcquisitionPrice;
    }
  }

  lemma SkipTracks(flows: seq<Flow>, lots: seq<Lot>, realized: Option<int>, proceeds: int, warnings: seq<Warning>,
                   f: Flow)
    requires Tracks(flows, lots, realized, proceeds, warnings) && !Acquires(f) && !Disposes(f)
    ensures Tracks(flows + [f], lots, realized, proceeds, warnings)
  {
    hide Warned;
    assert (flows + [f])[..|flows|] == flows;
    WarnedSkip(flows, warnings, f);
  }

  lemma StartTracks()
    ensures Tracks([], [], Some(0), 0, []) && FeesOf([], false) == 0 == FeesOf([], true) && Sum(Proceeds([])) == 0
  {
    NothingSold();
  }

  lemma FeesStep(flows: seq<Flow>, i: nat, gasFeesIncluded: bool)
    requires i < |flows|
    ensures FeesOf(flows[..i + 1], gasFeesIncluded) ==
            FeesOf(flows[..i], gasFeesIncluded)
            + if flows[i].fee.Some? && gasFeesIncluded then flows[i].fee.value else 0
  {
    SumStep(Fees(flows[..i], gasFeesIncluded), Fees(flows[..i + 1], gasFeesIncluded));
  }

  lemma FeesAreSummed(flows: seq<Flow>, gasFeesIncluded: bool)
    ensures FeesOf(flows, gasFeesIncluded) == Sum(Fees(flows, gasFeesIncluded))
  {
  }

  lemma ProceedsStep(flows: seq<Flow>, i: nat)
    requires i < |flows|
    ensures Sum(Proceeds(flows[..i + 1])) == Sum(Proceeds(flows[..i])) +
            if Disposes(flows[i]) && flows[i].price.Some? then flows[i].amount * flows[i].price.value else 0
  {
    SumStep(Proceeds(flows[..i]), Proceeds(flows[..i + 1]));
  }

  lemma SumStep(parts: seq<int>, more: seq<int>)
    requires |more| == |parts| + 1 && forall i :: 0 <= i < |parts| ==> more[i] == parts[i]
    ensures Sum(more) == Sum(parts) + more[|parts|]
  {
    assert more[..|parts|] == parts;
  }

  lemma TracksMeans(flows: seq<Flow>, lots: seq<Lot>, realized: Option<int>, proceeds: int, warnings: seq<Warning>)
    requires Tracks(flows, lots, realized, proceeds, warnings)
    ensures var l := Replay(flows);
            GoodLots(lots) && UnitsOf(lots) == l.units && realized == l.realized && proceeds == l.proceeds &&
            (warnings == [] <==> realized.Some?) && Warned(flows, warnings)
  {
  }

  /** Figures over the unsold units make a report; gains add up by the realized identity. */
  lemma TrackedReports(r: Report, flows: seq<Flow>, price: Option<int>, gasFeesIncluded: bool, warnings: seq<Warning>)
    requires Figures(r, Replay(flows).units, price)
    requires r.realized == Replay(flows).realized && r.proceeds == Replay(flows).proceeds
    requires r.fees == FeesOf(flows, gasFeesIncluded)
    requires WellFormed(flows) && (warnings == [] <==> r.realized.Some?) && Warned(flows, warnings)
    requires r.warnings == warnings + if price.None? && r.lots != [] then [MissingCurrentPrice] else []
    ensures Reports(r, flows, price, gasFeesIncluded)
  {
    hide Replay, UnitsOf, KnownSum, GoodLots, FeesOf, SoldUnits, SalesPriced, NeverOversold, AllKnown, GainsKnown;
    RealizedIffKnown(flows);
    NoShortfallIff(flows);
    if r.realized.Some? {
      RealizedIdentity(flows);
    }
  }

  /**
   * `fifoCostBasis`. On well-formed histories the lots left are the unsold units, every
   * figure is the unit queue's, and gains add up exactly: no division loses anything. With
   * amounts that are not negative it throws exactly when some acquisition of nothing leaves a
   * zero divisor; a priced one does in any case. Whenever it does not throw, proceeds and fees are
   * the sums over the flows.
   */
  method FifoCostBasis(flows: seq<Flow>, currentPrice: Option<int>, gasFeesIncluded: bool)
    returns (r: Result<Report, Failure>)
    ensures WellFormed(flows) ==> r.Ok? && Reports(r.value, flows, currentPrice, gasFeesIncluded)
    ensures AcquiresNothing(flows) ==> r.Err?
    ensures NonNegative(flows) ==> (r.Err? <==> DividesByZero(flows, currentPrice))
    ensures r.Ok? ==> r.value.proceeds == Sum(Proceeds(flows)) && r.value.fees == Sum(Fees(flows, gasFeesIncluded))
  {
    hide Sum, Proceeds, Fees, Warned, Tracks, Replay, UnitsOf, KnownSum, GoodLots, FeesOf, Figures, Reports, Queued,
      DividesByZero, Loose, Drops, Held, HasUnpricedEmpty;
    StartQueued();
    if AcquiresNothing(flows) {
      PricedNothingDivides(flows, currentPrice);
    }
    StartTracks();
    var lots: seq<Lot>, warnings: seq<Warning> := [], [];
    var realized: Option<int> := Some(0);
    var proceeds, fees := 0, 0;
    assert flows[..0] == [];
    for i := 0 to |flows|
      invariant fees == FeesOf(flows[..i], gasFeesIncluded) && proceeds == Sum(Proceeds(flows[..i]))
      invariant WellFormed(flows) ==> Tracks(flows[..i], lots, realized, proceeds, warnings)
      invariant AcquiresNothing(flows[..i]) ==> HasEmptyLot(lots)
      invariant NonNegative(flows) && !AcquiresNothing(flows) ==> Queued(flows[..i], lots)
    {
      var f := flows[i];
      ghost var before := lots;
      assert flows[..i + 1][..i] == flows[..i];
      if AcquiresNothing(flows[..i + 1]) {
        AcquiresNothingStep(flows, i);
      }
      FeesStep(flows, i, gasFeesIncluded);
      ProceedsStep(flows, i);
      if f.fee.Some? && gasFeesIncluded {
        fees := fees + f.fee.value;
      }
      if Acquires(f) {
        var cost := if f.price.Some? then Some(f.amount * f.price.value) else None;
        lots := lots + [Lot(f.amount, cost, f.amount)];
        if WellFormed(flows) {
          PushTracks(flows[..i], before, realized, proceeds, warnings, f);
          assert flows[..i] + [f] == flows[..i + 1];
        }
        if NonNegative(flows) && !AcquiresNothing(flows) {
          QueuedPush(flows[..i], before, f);
          assert flows[..i] + [f] == flows[..i + 1];
        }
        assert forall k :: 0 <= k < |before| ==> lots[k] == before[k];
        assert f.amount == 0 && f.price.Some? ==> lots[|before|].amount == 0 && lots[|before|].cost.Some?;
      } else if Disposes(f) {
        var failed;
        lots, realized, proceeds, warnings, failed := Dispose(flows[..i], f, lots, realized, proceeds, warnings);
        assert flows[..i] + [f] == flows[..i + 1];
        if NonNegative(flows) && !AcquiresNothing(flows) {
          QueuedIsLoose(flows[..i], before);
          QueuedDispose(flows[..i], before, lots, f);
        }
        if failed { return Err(DivisionByZero); }
      } else {
        assert flows[..i] + [f] == flows[..i + 1];
        if WellFormed(flows) {
          SkipTracks(flows[..i], lots, realized, proceeds, warnings, f);
        }
        if NonNegative(flows) && !AcquiresNothing(flows) {
          QueuedSkip(flows[..i], lots, f);
        }
      }
    }
    assert flows[..|flows|] == flows;
    if WellFormed(flows) {
      TracksMeans(flows, lots, realized, proceeds, warnings);
    }
    if NonNegative(flows) && !AcquiresNothing(flows) {
      QueuedIsLoose(flows, lots);
      QueuedMeans(flows, lots, currentPrice);
    }
    FeesAreSummed(flows, gasFeesIncluded);
    r := Close(lots, currentPrice, realized, proceeds, fees, warnings);
    if WellFormed(flows) {
      TrackedReports(r.value, flows, currentPrice, gasFeesIncluded, warnings);
    }
  }
}
