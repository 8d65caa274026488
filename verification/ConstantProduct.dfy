/**
 * Constant-product quotes over unbounded integers, with every floor kept. Bigint division
 * truncates; all dividends here are non-negative, so Dafny's division agrees with it.
 */
module ConstantProduct {
  import opened Prelude
  import opened Arithmetic

  datatype Quote = Quote(amountOut: int, priceImpactBps: int)

  datatype QuoteError = NonPositive | BadFee | RoundsToZero

  /** `amountOutRaw` before the zero check: the fee-adjusted constant-product formula. */
  function RawOut(amountIn: int, reserveIn: int, reserveOut: int, fee: int, den: int): int
    requires amountIn > 0 && reserveIn > 0 && reserveOut > 0 && 0 <= fee < den
  {
    var afterFee := amountIn * (den - fee);
    Product(reserveIn, den);
    Product(amountIn, den - fee);
    afterFee * reserveOut / (reserveIn * den + afterFee)
  }

  function QuoteSwap(amountIn: int, reserveIn: int, reserveOut: int, fee: int, den: int): Result<Quote, QuoteError> {
    if amountIn <= 0 || reserveIn <= 0 || reserveOut <= 0 then Err(NonPositive)
    else if den <= 0 || fee < 0 || fee >= den then Err(BadFee)
    else
      var out := RawOut(amountIn, reserveIn, reserveOut, fee, den);
      if out <= 0 then Err(RoundsToZero)
      else
        Product(amountIn, reserveOut);
        var executionToSpot := out * reserveIn * 10_000 / (amountIn * reserveOut);
        Ok(Quote(out, if executionToSpot >= 10_000 then 0 else 10_000 - executionToSpot))
  }

  /**
   * The price impact by what it is for: the least number of basis points by which the price paid,
   * `out` for `amountIn`, falls short of the spot price, `reserveOut` for `reserveIn`.
   */
  lemma ImpactIsLeast(amountIn: int, reserveIn: int, reserveOut: int, fee: int, den: int, k: int)
    requires QuoteSwap(amountIn, reserveIn, reserveOut, fee, den).Ok? && k >= 0
    ensures var q := QuoteSwap(amountIn, reserveIn, reserveOut, fee, den).value;
            q.priceImpactBps <= k <==> (10_000 - k) * (amountIn * reserveOut) <= 10_000 * (q.amountOut * reserveIn)
  {
    var out := QuoteSwap(amountIn, reserveIn, reserveOut, fee, den).value.amountOut;
    Product(amountIn, reserveOut);
    FloorIs(out * reserveIn * 10_000, amountIn * reserveOut, 10_000 - k);
    FloorIs(out * reserveIn * 10_000, amountIn * reserveOut, 10_000);
  }

  // ---------------------------------------------------------------- one quote

  /**
   * The quote by what it is for: the payouts that keep the fee-adjusted product of the
   * reserves are exactly those up to `RawOut`, so the pool pays the most it can afford.
   */
  lemma PaysTheMostAffordable(amountIn: int, reserveIn: int, reserveOut: int, fee: int, den: int, k: int)
    requires amountIn > 0 && reserveIn > 0 && reserveOut > 0 && 0 <= fee < den
    ensures k <= RawOut(amountIn, reserveIn, reserveOut, fee, den) <==>
            (reserveIn * den + amountIn * (den - fee)) * (reserveOut - k) >= reserveIn * den * reserveOut
  {
    var a, n := amountIn * (den - fee), reserveIn * den;
    Product(amountIn, den - fee);
    Product(reserveIn, den);
    FloorIs(a * reserveOut, n + a, k);
    assert (n + a) * (reserveOut - k) == n * reserveOut + a * reserveOut - k * (n + a);
  }

  /** The quote in product form, and strictly inside the reserve. */
  lemma OutBelowReserve(amountIn: int, reserveIn: int, reserveOut: int, fee: int, den: int)
    requires amountIn > 0 && reserveIn > 0 && reserveOut > 0 && 0 <= fee < den
    ensures var out := RawOut(amountIn, reserveIn, reserveOut, fee, den);
            0 <= out < reserveOut && out * (reserveIn * den) <= amountIn * (den - fee) * (reserveOut - out)
  {
    var a, n := amountIn * (den - fee), reserveIn * den;
    var out := RawOut(amountIn, reserveIn, reserveOut, fee, den);
    Product(amountIn, den - fee);
    Product(reserveIn, den);
    Product(a, reserveOut);
    Product(reserveOut, n);
    FloorIs(a * reserveOut, n + a, out);
    FloorIs(a * reserveOut, n + a, 0);
    FloorIs(a * reserveOut, n + a, reserveOut);
    assert reserveOut * (n + a) == reserveOut * n + a * reserveOut;
    assert out * (n + a) == out * n + a * out;
    assert a * (reserveOut - out) == a * reserveOut - a * out;
  }

  /** The payout leaves something in the pool and never lowers the reserve product. */
  lemma QuoteIsSafe(amountIn: int, reserveIn: int, reserveOut: int, fee: int, den: int)
    requires amountIn > 0 && reserveIn > 0 && reserveOut > 0 && 0 <= fee < den
    ensures var out := RawOut(amountIn, reserveIn, reserveOut, fee, den);
            0 <= out < reserveOut &&
            out * reserveIn <= amountIn * (reserveOut - out) &&
            (reserveIn + amountIn) * (reserveOut - out) >= reserveIn * reserveOut
  {
    OutBelowReserve(amountIn, reserveIn, reserveOut, fee, den);
    var out := RawOut(amountIn, reserveIn, reserveOut, fee, den);
    DropFee(out, reserveIn, amountIn, reserveOut - out, fee, den);
    assert reserveIn * (reserveOut - out) == reserveIn * reserveOut - out * reserveIn;
  }

  lemma DropFee(out: int, reserveIn: int, amountIn: int, left: int, fee: int, den: int)
    requires amountIn > 0 && left > 0 && 0 <= fee < den
    requires out * (reserveIn * den) <= amountIn * (den - fee) * left
    ensures out * reserveIn <= amountIn * left
  {
    Grow(amountIn, den - fee, den);
    Grow(left, amountIn * (den - fee), amountIn * den);
    assert out * (reserveIn * den) == out * reserveIn * den;
    assert amountIn * den * left == amountIn * left * den;
    CancelFactor(out * reserveIn, amountIn * left, den);
  }

  lemma CancelFactor(a: int, b: int, d: int)
    requires d > 0 && a * d <= b * d
    ensures a <= b
  {
    assert (a - b) * d == a * d - b * d;
  }

  /** Every quote given: it pays out, within the reserve, and its price impact is in [1, 10000]. */
  lemma QuoteBounds(amountIn: int, reserveIn: int, reserveOut: int, fee: int, den: int)
    requires QuoteSwap(amountIn, reserveIn, reserveOut, fee, den).Ok?
    ensures var q := QuoteSwap(amountIn, reserveIn, reserveOut, fee, den).value;
            0 < q.amountOut < reserveOut && 1 <= q.priceImpactBps <= 10_000
  {
    QuoteIsSafe(amountIn, reserveIn, reserveOut, fee, den);
    var out := RawOut(amountIn, reserveIn, reserveOut, fee, den);
    Product(amountIn, reserveOut);
    Product(amountIn, out);
    Product(out, reserveIn);
    assert amountIn * (reserveOut - out) == amountIn * reserveOut - amountIn * out;
    FloorIs(out * reserveIn * 10_000, amountIn * reserveOut, 10_000);
    FloorIs(out * reserveIn * 10_000, amountIn * reserveOut, 0);
  }

  /** A well-formed quote is refused exactly when the fee-adjusted input buys less than one unit. */
  lemma RefusedIff(amountIn: int, reserveIn: int, reserveOut: int, fee: int, den: int)
    requires amountIn > 0 && reserveIn > 0 && reserveOut > 0 && 0 <= fee < den
    ensures QuoteSwap(amountIn, reserveIn, reserveOut, fee, den).Err? <==>
            amountIn * (den - fee) * (reserveOut - 1) < reserveIn * den
  {
    var a, n := amountIn * (den - fee), reserveIn * den;
    Product(amountIn, den - fee);
    Product(reserveIn, den);
    FloorIs(a * reserveOut, n + a, 1);
    assert a * (reserveOut - 1) == a * reserveOut - a;
  }

  /** Which error it is: a number that is not positive comes first, then the fee, then the rounding. */
  lemma RefusalIs(amountIn: int, reserveIn: int, reserveOut: int, fee: int, den: int)
    ensures var q, positive := QuoteSwap(amountIn, reserveIn, reserveOut, fee, den),
                               amountIn > 0 && reserveIn > 0 && reserveOut > 0;
      && (q == Err(NonPositive) <==> !positive)
      && (q == Err(BadFee) <==> positive && !(0 <= fee < den))
      && (q == Err(RoundsToZero) <==>
            positive && 0 <= fee < den && amountIn * (den - fee) * (reserveOut - 1) < reserveIn * den)
  {
    if amountIn > 0 && reserveIn > 0 && reserveOut > 0 && 0 <= fee < den {
      RefusedIff(amountIn, reserveIn, reserveOut, fee, den);
    }
  }

  // ---------------------------------------------------------------- splitting an order

  datatype Pool = Pool(reserveIn: int, reserveOut: int)

  function SumOf(xs: seq<int>): int {
    if xs == [] then 0 else xs[0] + SumOf(xs[1..])
  }

  /** Quote the inputs one after another, moving the reserves each time; what they pay in all. */
  function PayoutOf(p: Pool, inputs: seq<int>, fee: int, den: int): Result<int, QuoteError>
    decreases |inputs|
  {
    if inputs == [] then Ok(0)
    else
      match QuoteSwap(inputs[0], p.reserveIn, p.reserveOut, fee, den)
      case Err(e) => Err(e)
      case Ok(q) =>
        match PayoutOf(Pool(p.reserveIn + inputs[0], p.reserveOut - q.amountOut), inputs[1..], fee, den)
        case Err(e) => Err(e)
        case Ok(rest) => Ok(q.amountOut + rest)
  }

  lemma OutIs(amountIn: int, reserveIn: int, reserveOut: int, fee: int, den: int, k: int)
    requires amountIn > 0 && reserveIn > 0 && reserveOut > 0 && 0 <= fee < den
    ensures k <= RawOut(amountIn, reserveIn, reserveOut, fee, den) <==>
            k * (reserveIn * den + amountIn * (den - fee)) <= amountIn * (den - fee) * reserveOut
  {
    Product(amountIn, den - fee);
    Product(reserveIn, den);
    FloorIs(amountIn * (den - fee) * reserveOut, reserveIn * den + amountIn * (den - fee), k);
  }

  /** Two quotes in a row never pay more than one for the summed input. */
  lemma TwoNeverBeatOne(a1: int, a2: int, reserveIn: int, reserveOut: int, fee: int, den: int)
    requires a1 > 0 && a2 > 0 && reserveIn > 0 && reserveOut > 0 && 0 <= fee < den
    ensures var o1 := RawOut(a1, reserveIn, reserveOut, fee, den);
            o1 < reserveOut &&
            o1 + RawOut(a2, reserveIn + a1, reserveOut - o1, fee, den)
              <= RawOut(a1 + a2, reserveIn, reserveOut, fee, den)
  {
    hide RawOut;
    QuoteIsSafe(a1, reserveIn, reserveOut, fee, den);
    var o1 := RawOut(a1, reserveIn, reserveOut, fee, den);
    var left := reserveOut - o1;
    var o2 := RawOut(a2, reserveIn + a1, left, fee, den);
    QuoteIsSafe(a2, reserveIn + a1, left, fee, den);
    var x, y, n := a1 * (den - fee), a2 * (den - fee), reserveIn * den;
    Product(a1, den - fee);
    Product(a2, den - fee);
    Product(reserveIn, den);
    Product(a1, den);
    OutIs(a1, reserveIn, reserveOut, fee, den, o1);
    assert (reserveIn + a1) * den == n + a1 * den;
    OutIs(a2, reserveIn + a1, left, fee, den, o2);
    // the second quote sees the whole first input in the reserve, fee included
    assert a1 * den >= x;
    Grow(o2, n + x + y, n + a1 * den + y);
    SplitSum(n, x, y, o1, o2, reserveOut);
    assert (a1 + a2) * (den - fee) == x + y;
    OutIs(a1 + a2, reserveIn, reserveOut, fee, den, o1 + o2);
  }

  lemma SplitSum(n: int, x: int, y: int, o1: int, o2: int, out: int)
    requires o1 * (n + x) <= x * out && (n + x + y) * o2 <= y * (out - o1)
    ensures (o1 + o2) * (n + x + y) <= (x + y) * out
  {
    calc {
      (o1 + o2) * (n + x + y);
      o1 * (n + x) + o1 * y + (n + x + y) * o2;
    <= x * out + o1 * y + y * (out - o1);
    ==  { assert y * (out - o1) == y * out - o1 * y; }
      x * out + y * out;
    ==
      (x + y) * out;
    }
  }

  /** However an order is split, the parts never pay more than the whole, floors and all. */
  lemma {:induction false} SplittingNeverPays(p: Pool, inputs: seq<int>, fee: int, den: int)
    requires inputs != [] && PayoutOf(p, inputs, fee, den).Ok?
    ensures var whole := QuoteSwap(SumOf(inputs), p.reserveIn, p.reserveOut, fee, den);
            whole.Ok? && PayoutOf(p, inputs, fee, den).value <= whole.value.amountOut
    decreases |inputs|
  {
    var a1, rest := inputs[0], inputs[1..];
    var o1 := RawOut(a1, p.reserveIn, p.reserveOut, fee, den);
    if rest == [] {
      assert SumOf(inputs) == a1;
    } else {
      QuoteIsSafe(a1, p.reserveIn, p.reserveOut, fee, den);
      var p' := Pool(p.reserveIn + a1, p.reserveOut - o1);
      SplittingNeverPays(p', rest, fee, den);
      TwoNeverBeatOne(a1, SumOf(rest), p.reserveIn, p.reserveOut, fee, den);
    }
  }

  // ---------------------------------------------------------------- quote normalization

  datatype Rate = Rate(sourceDecimals: int, normalizedDecimals: int, price: int, priceDecimals: int)

  predicate ValidRate(r: Rate) {
    0 <= r.sourceDecimals <= 255 && 0 <= r.normalizedDecimals <= 255 && 0 <= r.priceDecimals <= 255 && r.price > 0
  }

  function Up(r: Rate): (f: int)
    requires ValidRate(r)
    ensures f > 0
  {
    Product(r.price, Pow10(r.normalizedDecimals));
    r.price * Pow10(r.normalizedDecimals)
  }

  function Down(r: Rate): (f: int)
    requires ValidRate(r)
    ensures f > 0
  {
    Product(Pow10(r.sourceDecimals), Pow10(r.priceDecimals));
    Pow10(r.sourceDecimals) * Pow10(r.priceDecimals)
  }

  /** None stands for the thrown range errors. */
  function Normalize(amount: int, r: Rate): Option<int> {
    if amount < 0 || !ValidRate(r) then None else Some(amount * Up(r) / Down(r))
  }

  function Denormalize(amount: int, r: Rate): Option<int> {
    if amount < 0 || !ValidRate(r) then None else Some(amount * Down(r) / Up(r))
  }

  /**
   * The conversions by what they are for: amount times price, moved from the source's and the price's
   * decimals to the normalized ones and rounded down, and back; refused exactly for what is unsigned
   * or out of range.
   */
  lemma ConversionsAre(amount: int, r: Rate, k: int)
    ensures var inRange := 0 <= r.sourceDecimals <= 255 && 0 <= r.normalizedDecimals <= 255 &&
                           0 <= r.priceDecimals <= 255 && r.price > 0;
      && (Normalize(amount, r).Some? <==> amount >= 0 && inRange)
      && (Denormalize(amount, r).Some? <==> amount >= 0 && inRange)
      && (Normalize(amount, r).Some? ==>
            var moved, unit := amount * (r.price * Pow10(r.normalizedDecimals)),
                               Pow10(r.sourceDecimals) * Pow10(r.priceDecimals);
            (k <= Normalize(amount, r).value <==> k * unit <= moved))
      && (Denormalize(amount, r).Some? ==>
            var moved, unit := amount * (Pow10(r.sourceDecimals) * Pow10(r.priceDecimals)),
                               r.price * Pow10(r.normalizedDecimals);
            (k <= Denormalize(amount, r).value <==> k * unit <= moved))
  {
    if amount >= 0 && ValidRate(r) {
      FloorIs(amount * Up(r), Down(r), k);
      FloorIs(amount * Down(r), Up(r), k);
    }
  }

  /**
   * Normalizing and denormalizing are the two sides of a Galois connection up to rounding:
   * going there and back never gains, and loses less than one normalized unit's worth.
   */
  lemma ThereAndBackNeverGains(amount: int, r: Rate)
    requires amount >= 0 && ValidRate(r)
    ensures var there := Normalize(amount, r).value;
            there >= 0 && var back := Denormalize(there, r).value;
            0 <= back <= amount && (amount - back - 1) * Up(r) < Down(r)
  {
    var u, d := Up(r), Down(r);
    var there := amount * u / d;
    Grow(u, 0, amount);
    FloorIs(amount * u, d, 0);
    FloorIs(amount * u, d, there);
    FloorIs(amount * u, d, there + 1);
    Grow(d, 0, there);
    var back := there * d / u;
    FloorIs(there * d, u, 0);
    FloorIs(there * d, u, back);
    FloorIs(there * d, u, back + 1);
    FloorIs(there * d, u, amount + 1);
    assert (amount + 1) * u == amount * u + u;
    assert (there + 1) * d == there * d + d;
    assert (back + 1) * u == back * u + u;
    assert (amount - back - 1) * u == amount * u - back * u - u;
  }
}
