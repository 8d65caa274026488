/**
 * Decimal text and raw integer amounts: the printer and parser of the shared package, and
 * the price parser, which reads plain and exponent notation without any float.
 */
module Decimal {
  import opened Prelude
  import opened Arithmetic

  // ---------------------------------------------------------------- digits

  predicate IsDigit(c: char) { '0' <= c <= '9' }

  predicate AllDigits(s: string) { forall i :: 0 <= i < |s| ==> IsDigit(s[i]) }

  function DigitOf(n: int): (c: char)
    requires 0 <= n < 10
    ensures IsDigit(c) && c as int - '0' as int == n
  {
    (n + '0' as int) as char
  }

  /** The number a digit string spells, most significant digit first. */
  function Value(s: string): (n: nat)
    requires AllDigits(s)
  {
    if s == "" then 0 else 10 * Value(s[..|s| - 1]) + (s[|s| - 1] as int - '0' as int)
  }

  /** `BigInt.prototype.toString` of a natural number. */
  function Digits(n: nat): (s: string)
    ensures s != "" && AllDigits(s)
  {
    if n < 10 then [DigitOf(n)] else Digits(n / 10) + [DigitOf(n % 10)]
  }

  function IntText(n: int): string {
    if n < 0 then "-" + Digits(-n) else Digits(n)
  }

  function Zeros(n: nat): (s: string)
    ensures |s| == n && AllDigits(s) && forall i :: 0 <= i < n ==> s[i] == '0'
  {
    seq(n, _ => '0')
  }

  lemma {:induction false} DigitsValue(n: nat)
    ensures Value(Digits(n)) == n
  {
    if n >= 10 {
      DigitsValue(n / 10);
      assert Digits(n)[..|Digits(n)| - 1] == Digits(n / 10);
    } else {
      assert Digits(n)[..0] == "";
    }
  }

  /** `n * 10n ** d`, one factor of ten at a time. */
  function Scaled(n: int, d: nat): (r: int)
    ensures n >= 0 ==> r >= 0
  {
    if d == 0 then n else 10 * Scaled(n, d - 1)
  }

  /** `n / 10n ** d`, one digit at a time. */
  function Cut(n: nat, d: nat): nat {
    if d == 0 then n else Cut(n / 10, d - 1)
  }

  lemma {:induction false} ScaledIs(n: int, d: nat)
    ensures Scaled(n, d) == n * Pow10(d)
  {
    if d > 0 {
      ScaledIs(n, d - 1);
      Rotate(n, Pow10(d - 1));
    }
  }

  lemma Rotate(n: int, p: int)
    ensures 10 * (n * p) == n * (10 * p)
  {
  }

  lemma {:induction false} CutIs(n: nat, d: nat)
    ensures Cut(n, d) == n / Pow10(d)
  {
    if d > 0 {
      CutIs(n / 10, d - 1);
      FloorOfFloor(n, Pow10(d - 1), n / 10 / Pow10(d - 1));
      FloorOfFloor(n, Pow10(d - 1), n / (10 * Pow10(d - 1)));
    }
  }

  lemma FloorOfFloor(n: int, p: int, k: int)
    requires p > 0
    ensures k <= n / 10 / p <==> k <= n / (10 * p)
  {
    FloorIs(n / 10, p, k);
    FloorIs(n, 10, k * p);
    FloorIs(n, 10 * p, k);
    Rotate(k, p);
  }

  lemma {:induction false} ScaledTwice(n: int, z: nat, d: nat)
    ensures Scaled(Scaled(n, z), d) == Scaled(n, z + d)
  {
    if d > 0 {
      ScaledTwice(n, z, d - 1);
    }
  }

  /** Concatenation is positional. */
  lemma {:induction false} ValueSplit(s: string, t: string)
    requires AllDigits(s) && AllDigits(t)
    ensures AllDigits(s + t) && Value(s + t) == Scaled(Value(s), |t|) + Value(t)
    decreases |t|
  {
    if t == "" {
      assert s + t == s;
    } else {
      ValueSplit(s, t[..|t| - 1]);
      assert (s + t)[..|s + t| - 1] == s + t[..|t| - 1];
    }
  }

  lemma {:induction false} ValueBound(s: string)
    requires AllDigits(s)
    ensures Value(s) < Pow10(|s|)
  {
    if s != "" {
      ValueBound(s[..|s| - 1]);
    }
  }

  lemma {:induction false} ZerosValue(n: nat)
    ensures Value(Zeros(n)) == 0
  {
    if n > 0 {
      ZerosValue(n - 1);
      assert Zeros(n)[..n - 1] == Zeros(n - 1);
    }
  }

  lemma {:induction false} DigitsLength(n: nat, d: nat)
    requires n < Pow10(d) && d > 0
    ensures |Digits(n)| <= d
  {
    if n >= 10 {
      DigitsLength(n / 10, d - 1);
    }
  }

  /** Leading zeros removed while a digit follows: the source's `/^0+(?=\\d)/`. */
  function StripLeading(s: string): string {
    s[ZerosBefore(s, 0)..]
  }

  /** Past the zeros from `i` on that a digit follows. */
  function ZerosBefore(s: string, i: nat): (k: nat)
    requires i <= |s|
    ensures i <= k <= |s|
    decreases |s| - i
  {
    if i + 1 < |s| && s[i] == '0' && IsDigit(s[i + 1]) then ZerosBefore(s, i + 1) else i
  }

  /** A digit string without leading zeros is the number's own text. */
  lemma {:induction false} NoLeadingZero(s: string)
    requires AllDigits(s) && s != "" && (|s| > 1 ==> s[0] != '0')
    ensures s == Digits(Value(s)) && (|s| > 1 ==> Value(s) >= 10)
    decreases |s|
  {
    var front, last := s[..|s| - 1], s[|s| - 1] as int - '0' as int;
    if |s| > 1 {
      NoLeadingZero(front);
      assert Value(s) / 10 == Value(front) && Value(s) % 10 == last;
      if |s| == 2 {
        assert front == [s[0]] && front[..0] == "";
      }
      assert Value(front) >= 1;
      assert s == front + [DigitOf(last)];
    } else {
      assert front == "";
      assert s == [DigitOf(last)];
    }
  }

  lemma {:induction false} StripIsDigits(s: string, i: nat)
    requires AllDigits(s) && i < |s|
    ensures s[ZerosBefore(s, i)..] == Digits(Value(s[i..]))
    decreases |s| - i
  {
    if i + 1 < |s| && s[i] == '0' {
      StripIsDigits(s, i + 1);
      assert s[i..] == Zeros(1) + s[i + 1..];
      LeadingZeros(1, s[i + 1..]);
    } else {
      NoLeadingZero(s[i..]);
    }
  }

  // ---------------------------------------------------------------- shifting by powers of ten

  /** `n * 10^k` rounded toward zero, for any integer `k`. */
  function ShiftFloor(n: nat, k: int): nat {
    if k >= 0 then Scaled(n, k) else Cut(n, -k)
  }

  /** `fraction.padEnd(d, '0').slice(0, d)` */
  function PadSlice(f: string, d: nat): (s: string)
    ensures |s| == d
  {
    if |f| >= d then f[..d] else f + Zeros(d - |f|)
  }

  /** That is what it is. */
  lemma ShiftFloorIs(n: nat, k: int)
    ensures ShiftFloor(n, k) == if k >= 0 then n * Pow10(k) else n / Pow10(-k)
  {
    if k >= 0 {
      ScaledIs(n, k);
    } else {
      CutIs(n, -k);
    }
  }

  lemma {:induction false} CutDigits(s: string, k: nat)
    requires AllDigits(s) && k <= |s|
    ensures AllDigits(s[..k]) && Value(s[..k]) == Cut(Value(s), |s| - k)
    decreases |s|
  {
    if k < |s| {
      var front := s[..|s| - 1];
      CutDigits(front, k);
      assert front[..k] == s[..k];
    } else {
      assert s[..k] == s;
    }
  }

  lemma PadDigits(s: string, k: nat)
    requires AllDigits(s)
    ensures AllDigits(s + Zeros(k)) && Value(s + Zeros(k)) == Scaled(Value(s), k)
  {
    ValueSplit(s, Zeros(k));
    ZerosValue(k);
  }

  lemma {:induction false} ScaledZero(d: nat)
    ensures Scaled(0, d) == 0
  {
    if d > 0 {
      ScaledZero(d - 1);
    }
  }

  lemma LeadingZeros(k: nat, s: string)
    requires AllDigits(s)
    ensures AllDigits(Zeros(k) + s) && Value(Zeros(k) + s) == Value(s)
  {
    ValueSplit(Zeros(k), s);
    ZerosValue(k);
    ScaledZero(|s|);
  }

  /** Scaling by padding and cutting is exactly truncated scaling. */
  lemma ScaledDigits(w: string, f: string, d: nat)
    requires AllDigits(w) && AllDigits(f)
    ensures AllDigits(w + PadSlice(f, d)) && AllDigits(w + f)
    ensures Value(w + PadSlice(f, d)) == ShiftFloor(Value(w + f), d - |f|)
  {
    if |f| >= d {
      assert w + f[..d] == (w + f)[..|w| + d];
      CutDigits(w + f, |w| + d);
    } else {
      assert w + (f + Zeros(d - |f|)) == (w + f) + Zeros(d - |f|);
      PadDigits(w + f, d - |f|);
    }
  }

  // ---------------------------------------------------------------- splitting text

  /** Where `c` first occurs at or after `i`; the length if it does not. */
  function FirstAt(s: string, c: char, i: nat): (k: nat)
    requires i <= |s|
    ensures i <= k <= |s|
    decreases |s| - i
  {
    if i == |s| || s[i] == c then i else FirstAt(s, c, i + 1)
  }

  /** The text before the first `c`, and what follows it if there is one. */
  function Split(s: string, c: char): (string, Option<string>) {
    var k := FirstAt(s, c, 0);
    if k == |s| then (s, None) else (s[..k], Some(s[k + 1..]))
  }

  lemma {:induction false} FirstAtIs(s: string, c: char, i: nat, k: nat)
    requires i <= k <= |s| && (k < |s| ==> s[k] == c) && forall j :: i <= j < k ==> s[j] != c
    ensures FirstAt(s, c, i) == k
    decreases k - i
  {
    if i < k {
      FirstAtIs(s, c, i + 1, k);
    }
  }

  lemma SplitAt(w: string, c: char, f: string)
    requires c !in w
    ensures Split(w + [c] + f, c) == (w, Some(f)) && Split(w, c) == (w, None)
  {
    FirstAtIs(w, c, 0, |w|);
    var s := w + [c] + f;
    FirstAtIs(s, c, 0, |w|);
    assert s[..|w|] == w && s[|w| + 1..] == f;
  }

  // ---------------------------------------------------------------- the shared package

  /** `BigInt(text)` on decimal text, an empty one included. */
  function ParseBigInt(s: string): Option<int> {
    if AllDigits(s) then Some(Value(s))
    else if s[0] == '-' && |s| > 1 && AllDigits(s[1..]) then Some(-(Value(s[1..]) as int))
    else if s[0] == '+' && |s| > 1 && AllDigits(s[1..]) then Some(Value(s[1..]))
    else None
  }

  /** Digits with or without a sign, and the integer they spell. */
  predicate SpellsInteger(s: string, sign: string, d: string, n: int) {
    AllDigits(d) && s == sign + d && (sign == "" || sign == "+" || sign == "-") && (sign != "" ==> d != "") &&
    n == if sign == "-" then -(Value(d) as int) else Value(d) as int
  }

  lemma SpelledOnce(s: string, sign: string, d: string, n: int)
    requires SpellsInteger(s, sign, d, n)
    ensures sign == "" ==> AllDigits(s) && d == s
    ensures sign != "" ==> |s| > 1 && s[0] == sign[0] && s[1..] == d && !AllDigits(s)
  {
    if sign == "" {
      assert sign + d == d;
    } else {
      assert s[0] == sign[0] && !IsDigit(s[0]);
    }
  }

  /** `BigInt` reads exactly digits with an optional sign, and nothing at all as zero. */
  lemma ParseBigIntIff(s: string, n: int)
    ensures ParseBigInt(s) == Some(n) <==> exists sign, d :: SpellsInteger(s, sign, d, n)
  {
    if ParseBigInt(s) == Some(n) {
      if AllDigits(s) {
        assert SpellsInteger(s, "", s, n) by { assert "" + s == s; }
      } else {
        assert s == [s[0]] + s[1..];
        assert SpellsInteger(s, [s[0]], s[1..], n);
      }
    }
    if sign, d :| SpellsInteger(s, sign, d, n) {
      SpelledOnce(s, sign, d, n);
    }
  }

  /** The dotted parts of an amount; a third one is ignored. */
  function AmountParts(amount: string): (string, string) {
    var parts := Split(amount, '.');
    (parts.0, if parts.1.None? then "" else Split(parts.1.value, '.').0)
  }

  /** `toRawAmount`; None stands for its thrown errors. */
  function ToRawAmount(amount: string, decimals: nat): Option<int> {
    var parts := AmountParts(amount);
    if parts.0 == "" then None
    else
      match (ParseBigInt(parts.0), ParseBigInt(PadSlice(parts.1, decimals)))
      case (Some(w), Some(f)) => Some(Scaled(w, decimals) + f)
      case _ => None
  }

  /** `replace(/0+$/, '')` */
  function StripTrailing(s: string): string {
    s[..ZerosAfter(s, |s|)]
  }

  /** Before the zeros that end at `n`. */
  function ZerosAfter(s: string, n: nat): (k: nat)
    requires n <= |s|
    ensures k <= n
  {
    if n > 0 && s[n - 1] == '0' then ZerosAfter(s, n - 1) else n
  }

  /** `padStart(d, '0')` */
  function PadStart(s: string, d: nat): string {
    if |s| >= d then s else Zeros(d - |s|) + s
  }

  /** `fromRawAmount`: both bigint divisions round toward zero, so a negative amount has two negative parts. */
  function FromRawAmount(raw: int, decimals: nat): string {
    if raw >= 0 then PartsText(raw / Pow10(decimals), raw % Pow10(decimals), decimals)
    else PartsText(-(-raw / Pow10(decimals)), -(-raw % Pow10(decimals)), decimals)
  }

  function PartsText(whole: int, fraction: int, decimals: nat): string {
    if fraction == 0 then IntText(whole)
    else IntText(whole) + "." + StripTrailing(PadStart(IntText(fraction), decimals))
  }

  lemma {:induction false} OnlyZerosAfter(s: string, n: nat)
    requires n <= |s|
    ensures forall i :: ZerosAfter(s, n) <= i < n ==> s[i] == '0'
  {
    if n > 0 && s[n - 1] == '0' {
      OnlyZerosAfter(s, n - 1);
    }
  }

  lemma PadRestoresStripped(s: string)
    ensures |StripTrailing(s)| <= |s| && PadSlice(StripTrailing(s), |s|) == s
    ensures forall i :: 0 <= i < |StripTrailing(s)| ==> StripTrailing(s)[i] == s[i]
  {
    OnlyZerosAfter(s, |s|);
  }

  /** The fraction text of a print: padded back, it is the fraction. */
  lemma FractionText(fraction: nat, d: nat) returns (t: string)
    requires 0 < fraction < Pow10(d)
    ensures t == StripTrailing(PadStart(Digits(fraction), d))
    ensures AllDigits(t) && AllDigits(PadSlice(t, d)) && Value(PadSlice(t, d)) == fraction
  {
    DigitsLength(fraction, d);
    DigitsValue(fraction);
    var padded := PadStart(Digits(fraction), d);
    assert padded == Zeros(d - |Digits(fraction)|) + Digits(fraction);
    LeadingZeros(d - |Digits(fraction)|, Digits(fraction));
    PadRestoresStripped(padded);
    t := StripTrailing(padded);
  }

  lemma PartsOf(w: string, f: string)
    requires AllDigits(w) && AllDigits(f)
    ensures AmountParts(w + "." + f) == (w, f) && AmountParts(w) == (w, "")
  {
    DigitsHaveNo(w, '.');
    DigitsHaveNo(f, '.');
    SplitAt(w, '.', f);
    SplitAt(f, '.', "");
  }

  lemma PadsToDigits(f: string, d: nat)
    requires AllDigits(f)
    ensures AllDigits(PadSlice(f, d))
  {
  }

  lemma ToRawOf(amount: string, w: string, f: string, decimals: nat)
    requires AllDigits(w) && w != "" && AllDigits(f) && AmountParts(amount) == (w, f)
    ensures AllDigits(PadSlice(f, decimals))
    ensures ToRawAmount(amount, decimals) == Some(Scaled(Value(w), decimals) + Value(PadSlice(f, decimals)))
  {
    PadsToDigits(f, decimals);
  }

  /** What the parser makes of digits, a point and more digits. */
  lemma ToRawReads(w: string, f: string, decimals: nat)
    requires AllDigits(w) && w != "" && AllDigits(f)
    ensures AllDigits(PadSlice(f, decimals))
    ensures ToRawAmount(w + "." + f, decimals) == Some(Scaled(Value(w), decimals) + Value(PadSlice(f, decimals)))
    ensures f == "" ==> ToRawAmount(w, decimals) == ToRawAmount(w + "." + f, decimals)
  {
    hide *;
    PartsOf(w, f);
    ToRawOf(w + "." + f, w, f, decimals);
    ToRawOf(w, w, "", decimals);
  }

  lemma ReadsPartsText(whole: nat, fraction: nat, decimals: nat)
    requires fraction < Pow10(decimals)
    ensures ToRawAmount(PartsText(whole, fraction, decimals), decimals) == Some(Scaled(whole, decimals) + fraction)
  {
    hide ToRawAmount, StripTrailing, PadStart, Value, Digits, Scaled;
    DigitsValue(whole);
    if fraction == 0 {
      PadOfNothing(decimals);
      ToRawReads(Digits(whole), "", decimals);
    } else {
      var t := FractionText(fraction, decimals);
      ToRawReads(Digits(whole), t, decimals);
    }
  }

  /** The amount is not negative, or its fraction is zero or one digit short of the precision. */
  predicate Restorable(raw: int, decimals: nat) {
    raw >= 0 || -raw % Pow10(decimals) == 0 || |Digits(-raw % Pow10(decimals))| + 1 == decimals
  }

  /**
   * Printing a raw amount and parsing it back gives the amount, for every amount that is not
   * negative and at every precision; and a negative amount exactly when its fraction is zero
   * or has just the length at which its sign takes the place of the one padding zero.
   */
  lemma ParseUndoesPrintIff(raw: int, decimals: nat)
    ensures ToRawAmount(FromRawAmount(raw, decimals), decimals) == Some(raw) <==> Restorable(raw, decimals)
  {
    hide ToRawAmount, PartsText, Digits;
    var n := if raw < 0 then -raw else raw;
    DivMod(n, Pow10(decimals));
    FloorIs(n, Pow10(decimals), 0);
    var whole, fraction := n / Pow10(decimals), n % Pow10(decimals);
    ScaledIs(whole, decimals);
    if raw >= 0 {
      ReadsPartsText(whole, fraction, decimals);
    } else {
      ReadsNegativePartsIff(whole, fraction, decimals);
    }
  }

  /** A printed amount has no point without a fraction, and no zero at the fraction's end. */
  lemma PrintIsShortest(raw: nat, decimals: nat) returns (t: string)
    ensures AllDigits(t) && |t| <= decimals && (t != "" ==> t[|t| - 1] != '0')
    ensures FromRawAmount(raw, decimals)
         == if t == "" then IntText(raw / Pow10(decimals)) else IntText(raw / Pow10(decimals)) + "." + t
    ensures t == "" <==> raw % Pow10(decimals) == 0
  {
    DivMod(raw, Pow10(decimals));
    FloorIs(raw, Pow10(decimals), 0);
    var fraction: nat := raw % Pow10(decimals);
    if fraction == 0 {
      t := "";
    } else {
      t := FractionText(fraction, decimals);
      EndsAtDigit(PadStart(Digits(fraction), decimals), |PadStart(Digits(fraction), decimals)|);
      PadOfNothing(decimals);
      PadRestoresStripped(PadStart(Digits(fraction), decimals));
      DigitsLength(fraction, decimals);
    }
  }

  lemma {:induction false} EndsAtDigit(s: string, n: nat)
    requires n <= |s|
    ensures ZerosAfter(s, n) > 0 ==> s[ZerosAfter(s, n) - 1] != '0'
  {
    if n > 0 && s[n - 1] == '0' {
      EndsAtDigit(s, n - 1);
    }
  }

  /** The fraction text of a negative print, padded back and cut: its sign costs one place. */
  function NegativeFraction(fraction: int, d: nat): string {
    PadSlice(StripTrailing(PadStart(IntText(-fraction), d)), d)
  }

  lemma ReadsNegativePartsIff(whole: int, fraction: int, d: nat)
    requires whole >= 0 && 0 <= fraction < Pow10(d)
    ensures ToRawAmount(PartsText(-whole, -fraction, d), d) == Some(-Scaled(whole, d) - fraction)
            <==> fraction == 0 || |Digits(fraction)| + 1 == d
  {
    hide ToRawAmount, StripTrailing, PadStart, PadSlice, Digits, Scaled, IntText, Value;
    ScaledNegative(whole, d);
    if fraction == 0 {
      WholeIsRead(-whole, d);
    } else {
      var t := StripTrailing(PadStart(IntText(-fraction), d));
      NoPointIn(fraction, d);
      PartsAreRead(-whole, t, d);
      NegativeFractionIff(fraction, d);
    }
  }

  lemma ReadsIntText(n: int)
    ensures ParseBigInt(IntText(n)) == Some(n) && IntText(n) != "" && '.' !in IntText(n)
  {
    DigitsValue(if n < 0 then -n else n);
    if n < 0 {
      ReadsNegative(Digits(-n));
    }
  }

  lemma WholeIsRead(whole: int, d: nat)
    ensures ToRawAmount(IntText(whole), d) == Some(Scaled(whole, d))
  {
    hide IntText, ParseBigInt;
    ReadsIntText(whole);
    SplitAt(IntText(whole), '.', "");
    PadOfNothing(d);
    ReadsDigits(PadSlice("", d));
  }

  lemma PartsAreRead(whole: int, t: string, d: nat)
    requires '.' !in t
    ensures ToRawAmount(IntText(whole) + "." + t, d)
         == match ParseBigInt(PadSlice(t, d)) case Some(f) => Some(Scaled(whole, d) + f) case None => None
  {
    hide IntText, ParseBigInt, PadSlice;
    ReadsIntText(whole);
    SplitAt(IntText(whole), '.', t);
    SplitAt(t, '.', "");
  }

  lemma NoPointIn(fraction: int, d: nat)
    requires fraction > 0
    ensures '.' !in StripTrailing(PadStart(IntText(-fraction), d))
  {
    DigitsHaveNo(Digits(fraction), '.');
  }

  lemma NegativeFractionIff(fraction: int, d: nat)
    requires 0 < fraction < Pow10(d)
    ensures ParseBigInt(NegativeFraction(fraction, d)) == Some(-fraction) <==> |Digits(fraction)| + 1 == d
  {
    hide StripTrailing, ParseBigInt, PadSlice, Digits;
    var digits := Digits(fraction);
    var n := |digits|;
    DigitsLength(fraction, d);
    if n + 1 <= d {
      var padded := PadStart("-" + digits, d);
      PadRestoresStripped(padded);
      assert NegativeFraction(fraction, d) == padded;
      if n + 1 == d {
        assert padded == "-" + digits;
        DigitsValue(fraction);
        ReadsNegative(digits);
      } else {
        SignInside(Zeros(d - n - 1), "-" + digits);
      }
    } else {
      CutFraction(fraction, d);
      ShortIsLess(fraction, digits[..d - 1]);
    }
  }

  /** A sign behind a padding zero is no number. */
  lemma SignInside(zeros: string, signed: string)
    requires zeros != "" && AllDigits(zeros) && signed != "" && signed[0] == '-'
    ensures ParseBigInt(zeros + signed) == None
  {
    assert IsDigit(zeros[0]) && (zeros + signed)[0] == zeros[0];
    assert !IsDigit((zeros + signed)[|zeros|]);
  }

  /** A fraction as long as the precision loses its last digit to the sign. */
  lemma CutFraction(fraction: int, d: nat)
    requires fraction > 0 && |Digits(fraction)| == d
    ensures NegativeFraction(fraction, d) == "-" + Digits(fraction)[..d - 1]
  {
    hide Digits;
    var p := "-" + Digits(fraction);
    assert PadStart(p, d) == p;
    PadRestoresStripped(p);
    var t := StripTrailing(p);
    assert PadSlice(t, d) == PadSlice(t, d + 1)[..d];
    assert p[..d] == "-" + Digits(fraction)[..d - 1];
  }

  lemma ShortIsLess(fraction: int, digits: string)
    requires fraction > 0 && |Digits(fraction)| > 0 && digits == Digits(fraction)[..|Digits(fraction)| - 1]
    ensures ParseBigInt("-" + digits) != Some(-fraction)
  {
    if digits == "" {
      assert !IsDigit("-"[0]);
    } else {
      ReadsNegative(digits);
      DigitsValue(fraction);
      assert digits == Digits(fraction / 10);
      DigitsValue(fraction / 10);
    }
  }

  lemma PadOfNothing(d: nat)
    ensures AllDigits(PadSlice("", d)) && Value(PadSlice("", d)) == 0
  {
    ZerosValue(d);
    assert PadSlice("", d) == Zeros(d);
  }

  lemma DigitsHaveNo(s: string, c: char)
    requires AllDigits(s) && !IsDigit(c)
    ensures c !in s
  {
  }

  // ---------------------------------------------------------------- the price parser

  /** Sign, digits before the point, digits after it. */
  datatype Mantissa = Mantissa(negative: bool, whole: string, fraction: string)

  /** The shape `-?\\d*(\\.\\d*)?` */
  function ReadMantissa(s: string): Option<Mantissa> {
    var negative := s != "" && s[0] == '-';
    var parts := Split(if negative then s[1..] else s, '.');
    var fraction := if parts.1.None? then "" else parts.1.value;
    if AllDigits(parts.0) && AllDigits(fraction) then Some(Mantissa(negative, parts.0, fraction)) else None
  }

  /** The shape `[+-]?\\d+` */
  function ReadExponent(s: string): Option<int> {
    if s == "" then None
    else if (s[0] == '-' || s[0] == '+') && |s| > 1 && AllDigits(s[1..]) then
      Some(if s[0] == '-' then -(Value(s[1..]) as int) else Value(s[1..]))
    else if AllDigits(s) then Some(Value(s))
    else None
  }

  /** An exponent is digits, at least one, with an optional sign. */
  lemma ReadExponentIff(s: string, e: int)
    ensures ReadExponent(s) == Some(e) <==> s != "" && exists sign, d :: SpellsInteger(s, sign, d, e)
  {
    if s != "" {
      if ReadExponent(s) == Some(e) {
        if AllDigits(s) {
          assert SpellsInteger(s, "", s, e) by { assert "" + s == s; }
        } else {
          assert s == [s[0]] + s[1..];
          assert SpellsInteger(s, [s[0]], s[1..], e);
        }
      }
      if sign, d :| SpellsInteger(s, sign, d, e) {
        SpelledOnce(s, sign, d, e);
      }
    }
  }

  /** The text up to the exponent mark, and what follows the mark. */
  function SplitExponent(s: string): (string, Option<string>) {
    var lower := Split(s, 'e');
    if lower.1.Some? then lower else Split(s, 'E')
  }

  function SignText(negative: bool): string { if negative then "-" else "" }

  /** `normalizeExponent`: the decimal point is moved, and the text is plain. */
  function NormalizeExponent(s: string): string {
    var parts := SplitExponent(s);
    if parts.1.None? then s
    else
      match (ReadMantissa(parts.0), ReadExponent(parts.1.value))
      case (Some(m), Some(e)) => MovePoint(m, e)
      case _ => s
  }

  function MovePoint(m: Mantissa, e: int): string {
    var digits := m.whole + m.fraction;
    var point := |m.whole| + e;
    if point <= 0 then SignText(m.negative) + "0." + Zeros(-point) + digits
    else if point >= |digits| then SignText(m.negative) + digits + Zeros(point - |digits|)
    else SignText(m.negative) + digits[..point] + "." + digits[point..]
  }

  /** `decimalToRaw` on trimmed text; None stands for its thrown error. */
  function DecimalToRaw(value: string, decimals: nat): Option<string> {
    match ReadMantissa(NormalizeExponent(value))
    case None => None
    case Some(m) =>
      if m.whole == "" && m.fraction == "" then None
      else Some(Scale(m, decimals))
  }

  function Scale(m: Mantissa, decimals: nat): string {
    var trimmed := StripLeading(m.whole + PadSlice(m.fraction, decimals));
    if m.negative && trimmed != "0" then "-" + trimmed else trimmed
  }

  /** A number as `DecimalToRaw` should print it: truncated toward zero, zero without a sign. */
  function Truncated(negative: bool, digits: string, shift: int): string
    requires AllDigits(digits)
  {
    var n: int := ShiftFloor(Value(digits), shift);
    IntText(if negative then -n else n)
  }

  ghost predicate GoodMantissa(m: Mantissa) {
    AllDigits(m.whole) && AllDigits(m.fraction)
  }

  /** Plain notation, with or without a point. */
  predicate Spells(s: string, m: Mantissa) {
    s == SignText(m.negative) + m.whole + "." + m.fraction ||
    (m.fraction == "" && s == SignText(m.negative) + m.whole)
  }

  lemma ReadsSpelling(s: string, m: Mantissa)
    requires GoodMantissa(m) && Spells(s, m)
    ensures ReadMantissa(s) == Some(m)
  {
    SpellingStart(s, m);
    DigitsHaveNo(m.whole, '.');
    SplitAt(m.whole, '.', m.fraction);
    Unsigned(s, m);
  }

  /** What is left of the text behind the sign. */
  lemma Unsigned(s: string, m: Mantissa)
    requires Spells(s, m)
    ensures m.negative ==> s != "" && s[0] == '-'
    ensures var body := if m.negative then s[1..] else s;
            body == m.whole + "." + m.fraction || (m.fraction == "" && body == m.whole)
  {
    if m.negative {
      assert "-" + m.whole + "." + m.fraction == ['-'] + (m.whole + "." + m.fraction);
      assert "-" + m.whole == ['-'] + m.whole;
    } else {
      assert "" + m.whole + "." + m.fraction == m.whole + "." + m.fraction;
      assert "" + m.whole == m.whole;
    }
  }

  lemma SpellingStart(s: string, m: Mantissa)
    requires GoodMantissa(m) && Spells(s, m)
    ensures s != "" && s[0] == '-' <==> m.negative
  {
    if !m.negative && m.whole != "" {
      assert s[0] == m.whole[0] && IsDigit(s[0]);
    }
  }

  lemma NoMark(s: string, m: Mantissa, mark: char)
    requires GoodMantissa(m) && Spells(s, m) && !IsDigit(mark) && mark != '-' && mark != '.'
    ensures mark !in s
  {
  }

  /** Scaling prints the truncated number exactly when there is a digit to print. */
  lemma ScaleIsTruncated(m: Mantissa, decimals: nat)
    requires GoodMantissa(m)
    ensures AllDigits(m.whole + m.fraction)
    ensures Scale(m, decimals) == Truncated(m.negative, m.whole + m.fraction, decimals - |m.fraction|)
            <==> m.whole != "" || decimals > 0
  {
    hide Value, ShiftFloor, StripLeading, IntText, PadSlice;
    ScaledDigits(m.whole, m.fraction, decimals);
    var scaled := m.whole + PadSlice(m.fraction, decimals);
    var n: int := ShiftFloor(Value(m.whole + m.fraction), decimals - |m.fraction|);
    if scaled != "" {
      PrintsSigned(scaled, m.negative);
    } else {
      assert Scale(m, decimals) == "" || Scale(m, decimals) == "-" by { StripNothing(); }
      IntTextHasDigit(if m.negative then -n else n);
    }
  }

  /** Without its leading zeros and behind its sign, a digit string is the signed number's own text. */
  lemma PrintsSigned(s: string, negative: bool)
    requires AllDigits(s) && s != ""
    ensures (if negative && StripLeading(s) != "0" then "-" + StripLeading(s) else StripLeading(s))
         == IntText(if negative then -(Value(s) as int) else Value(s))
  {
    hide Value, ZerosBefore;
    StripIsDigits(s, 0);
    assert s[0..] == s;
    OnlyZeroPrintsZero(Value(s));
  }

  lemma StripNothing()
    ensures StripLeading("") == ""
  {
  }

  lemma IntTextHasDigit(n: int)
    ensures IntText(n) != "" && IntText(n) != "-"
  {
    if n >= 0 {
      assert IsDigit(Digits(n)[0]);
    }
  }

  lemma OnlyZeroPrintsZero(n: nat)
    ensures Digits(n) == "0" <==> n == 0
  {
    DigitsValue(n);
    DigitsValue(0);
    assert Digits(0) == "0";
  }

  /**
   * Plain notation: any number with a digit is accepted, and what is printed is its value
   * times 10^decimals truncated toward zero, exactly unless there is no whole part and no
   * decimals either; then the text has no digit at all.
   */
  lemma PlainIsTruncatedIff(s: string, m: Mantissa, decimals: nat)
    requires GoodMantissa(m) && Spells(s, m) && m.whole + m.fraction != ""
    ensures AllDigits(m.whole + m.fraction) && DecimalToRaw(s, decimals).Some?
    ensures DecimalToRaw(s, decimals).value == Truncated(m.negative, m.whole + m.fraction, decimals - |m.fraction|)
            <==> m.whole != "" || decimals > 0
  {
    hide NormalizeExponent, ReadMantissa, Scale, Truncated, Spells;
    PlainNormalizes(s, m);
    ReadsSpelling(s, m);
    ScaleIsTruncated(m, decimals);
  }

  /** The plain text the exponent is folded into. */
  function Moved(m: Mantissa, e: int): Mantissa {
    var digits := m.whole + m.fraction;
    var point := |m.whole| + e;
    if point <= 0 then Mantissa(m.negative, "0", Zeros(-point) + digits)
    else if point >= |digits| then Mantissa(m.negative, digits + Zeros(point - |digits|), "")
    else Mantissa(m.negative, digits[..point], digits[point..])
  }

  lemma MovePointSpells(m: Mantissa, e: int)
    requires GoodMantissa(m)
    ensures GoodMantissa(Moved(m, e)) && Spells(MovePoint(m, e), Moved(m, e)) && Moved(m, e).whole != ""
  {
    var digits := m.whole + m.fraction;
    var point := |m.whole| + e;
    if point <= 0 {
      assert SignText(m.negative) + "0." + Zeros(-point) + digits ==
             SignText(m.negative) + "0" + "." + (Zeros(-point) + digits);
    } else if point >= |digits| {
      assert SignText(m.negative) + digits + Zeros(point - |digits|) ==
             SignText(m.negative) + (digits + Zeros(point - |digits|));
    }
  }

  lemma ShiftTwice(n: nat, z: nat, d: nat)
    ensures Scaled(n, z) >= 0 && ShiftFloor(Scaled(n, z), d) == ShiftFloor(n, z + d)
  {
    ScaledIs(n, z);
    ScaledTwice(n, z, d);
  }

  /** Moving the point keeps the value: the digits' shift makes up for the exponent. */
  lemma MovedValue(m: Mantissa, e: int, decimals: nat)
    requires GoodMantissa(m)
    ensures var n := Moved(m, e);
            AllDigits(n.whole + n.fraction) && AllDigits(m.whole + m.fraction) &&
            ShiftFloor(Value(n.whole + n.fraction), decimals - |n.fraction|) ==
              ShiftFloor(Value(m.whole + m.fraction), decimals + e - |m.fraction|)
  {
    hide Value, Scaled, Cut, ShiftFloor;
    var digits := m.whole + m.fraction;
    var point := |m.whole| + e;
    var n := Moved(m, e);
    if point <= 0 {
      assert n.whole + n.fraction == Zeros(1 - point) + digits;
      LeadingZeros(1 - point, digits);
      assert |n.fraction| == |digits| - point;
    } else if point >= |digits| {
      var z := point - |digits|;
      assert n.whole + n.fraction == digits + Zeros(z);
      PadDigits(digits, z);
      ShiftTwice(Value(digits), z, decimals);
      assert decimals + e - |m.fraction| == z + decimals;
    } else {
      assert n.whole + n.fraction == digits;
      assert |n.fraction| == |digits| - point;
    }
  }

  predicate Mark(c: char) { c == 'e' || c == 'E' }

  /**
   * Exponent notation is always accepted and always exact: whatever the exponent, the text
   * printed is the value times 10^decimals truncated toward zero. A mantissa without any
   * digit counts as zero there, although plain text without a digit is refused.
   */
  lemma ExponentIsTruncated(s: string, m: Mantissa, mark: char, exponentText: string, e: int, decimals: nat)
    requires GoodMantissa(m) && Spells(s, m) && Mark(mark) && ReadExponent(exponentText) == Some(e)
    ensures AllDigits(m.whole + m.fraction)
    ensures DecimalToRaw(s + [mark] + exponentText, decimals) ==
            Some(Truncated(m.negative, m.whole + m.fraction, decimals + e - |m.fraction|))
  {
    hide *;
    NormalizesByMoving(s, m, mark, exponentText, e);
    MovedIsTruncated(s + [mark] + exponentText, m, e, decimals);
  }

  lemma NormalizesByMoving(s: string, m: Mantissa, mark: char, exponentText: string, e: int)
    requires GoodMantissa(m) && Spells(s, m) && Mark(mark) && ReadExponent(exponentText) == Some(e)
    ensures NormalizeExponent(s + [mark] + exponentText) == MovePoint(m, e)
  {
    FindsMark(s, m, mark, exponentText);
    ReadsSpelling(s, m);
  }

  /** What the parser makes of a text that normalizes to plain notation with a whole part. */
  lemma PlainTextIsTruncated(text: string, n: Mantissa, decimals: nat)
    requires GoodMantissa(n) && Spells(NormalizeExponent(text), n) && n.whole != ""
    ensures AllDigits(n.whole + n.fraction)
    ensures DecimalToRaw(text, decimals) == Some(Truncated(n.negative, n.whole + n.fraction, decimals - |n.fraction|))
  {
    ReadsSpelling(NormalizeExponent(text), n);
    ScaleIsTruncated(n, decimals);
  }

  /** What the parser makes of a text that normalizes to a moved point. */
  lemma MovedIsTruncated(text: string, m: Mantissa, e: int, decimals: nat)
    requires GoodMantissa(m) && NormalizeExponent(text) == MovePoint(m, e)
    ensures AllDigits(m.whole + m.fraction)
    ensures DecimalToRaw(text, decimals) ==
            Some(Truncated(m.negative, m.whole + m.fraction, decimals + e - |m.fraction|))
  {
    hide DecimalToRaw, NormalizeExponent, MovePoint, Value, IntText, ShiftFloor;
    MovePointSpells(m, e);
    MovedValue(m, e, decimals);
    PlainTextIsTruncated(text, Moved(m, e), decimals);
  }

  /** The exponent mark is found wherever it stands. */
  lemma FindsMark(s: string, m: Mantissa, mark: char, exponentText: string)
    requires GoodMantissa(m) && Spells(s, m) && Mark(mark) && ReadExponent(exponentText).Some?
    ensures SplitExponent(s + [mark] + exponentText) == (s, Some(exponentText))
  {
    var text := s + [mark] + exponentText;
    NoMark(s, m, mark);
    SplitAt(s, mark, exponentText);
    if mark == 'E' {
      NoMark(s, m, 'e');
      ExponentHasNoMark(exponentText);
      SplitAt(text, 'e', "");
    }
  }

  lemma ExponentHasNoMark(s: string)
    requires ReadExponent(s).Some?
    ensures 'e' !in s
  {
  }

  /**
   * A mantissa without any digit, with or without a sign or a point: plain it is refused, and
   * with an exponent, whichever that is, it reads as zero.
   */
  lemma EmptyMantissaIsZero(s: string, m: Mantissa, mark: char, exponentText: string, decimals: nat)
    requires m.whole == "" && m.fraction == "" && Spells(s, m) && Mark(mark) && ReadExponent(exponentText).Some?
    ensures DecimalToRaw(s, decimals) == None
    ensures DecimalToRaw(s + [mark] + exponentText, decimals) == Some("0")
  {
    hide DecimalToRaw, ShiftFloor, ReadExponent, Spells;
    EmptyIsRefused(s, m, decimals);
    var e := ReadExponent(exponentText).value;
    ExponentIsTruncated(s, m, mark, exponentText, e, decimals);
    assert m.whole + m.fraction == "" && Value("") == 0;
    ShiftZero(decimals + e);
  }

  lemma EmptyIsRefused(s: string, m: Mantissa, decimals: nat)
    requires m.whole == "" && m.fraction == "" && Spells(s, m)
    ensures DecimalToRaw(s, decimals) == None
  {
    hide Split, ReadMantissa, Scale, Spells;
    PlainNormalizes(s, m);
    ReadsSpelling(s, m);
  }

  /** Plain notation has no exponent to fold in. */
  lemma PlainNormalizes(s: string, m: Mantissa)
    requires GoodMantissa(m) && Spells(s, m)
    ensures NormalizeExponent(s) == s
  {
    hide Split, ReadMantissa, ReadExponent, MovePoint, Spells;
    NoMark(s, m, 'e');
    NoMark(s, m, 'E');
    SplitAt(s, 'e', "");
    SplitAt(s, 'E', "");
  }

  lemma ShiftZero(k: int)
    ensures ShiftFloor(0, k) == 0
  {
    if k >= 0 {
      ScaledZero(k);
    } else {
      CutZero(-k);
    }
  }

  lemma {:induction false} CutZero(d: nat)
    ensures Cut(0, d) == 0
  {
    if d > 0 {
      CutZero(d - 1);
    }
  }

  /** None of the fraction's digits that are kept is other than zero. */
  predicate KeepsNoFraction(f: string, decimals: nat) {
    forall i :: 0 <= i < |f| && i < decimals ==> f[i] == '0'
  }

  /** One answer: the same integer, or refused by both. */
  predicate SameAnswer(s: string, decimals: nat) {
    match (DecimalToRaw(s, decimals), ToRawAmount(s, decimals))
    case (Some(text), Some(n)) => text == IntText(n)
    case (None, None) => true
    case _ => false
  }

  /**
   * Exactly when the two parsers agree on a plain decimal: when it has no digit at all (both
   * refuse it), or has a whole part and is not negative or keeps no fraction. The shared
   * parser refuses a missing whole part, and adds the fraction of a negative amount to it.
   */
  lemma ParsersAgreeIff(s: string, m: Mantissa, decimals: nat)
    requires GoodMantissa(m) && Spells(s, m)
    ensures SameAnswer(s, decimals)
            <==> (if m.whole == "" then m.fraction == "" else !m.negative || KeepsNoFraction(m.fraction, decimals))
  {
    hide DecimalToRaw, ToRawAmount, KeepsNoFraction, Spells, Truncated;
    if m.whole == "" {
      NoWholeIsRefused(s, m, decimals);
      if m.fraction == "" {
        EmptyIsRefused(s, m, decimals);
      } else {
        PlainIsTruncatedIff(s, m, decimals);
      }
    } else {
      PlainIsTruncatedIff(s, m, decimals);
      if m.negative {
        NegativeAgreesIff(s, m, decimals);
      } else {
        ParsersAgree(s, m, decimals);
      }
    }
  }

  // ---------------------------------------------------------------- what the price parser accepts

  lemma {:induction false} FirstAtMeans(s: string, c: char, i: nat)
    requires i <= |s|
    ensures var k := FirstAt(s, c, i);
            (k < |s| ==> s[k] == c) && forall j :: i <= j < k ==> s[j] != c
    decreases |s| - i
  {
    if i < |s| && s[i] != c {
      FirstAtMeans(s, c, i + 1);
    }
  }

  lemma SplitMeans(s: string, c: char)
    ensures var parts := Split(s, c);
            if parts.1.None? then parts.0 == s && c !in s else s == parts.0 + [c] + parts.1.value && c !in parts.0
  {
    FirstAtMeans(s, c, 0);
  }

  /** What reads as a mantissa is one. */
  lemma ReadIsSpelling(s: string, m: Mantissa)
    requires ReadMantissa(s) == Some(m)
    ensures GoodMantissa(m) && Spells(s, m)
  {
    hide Split, FirstAt, AllDigits;
    var negative := s != "" && s[0] == '-';
    var body := if negative then s[1..] else s;
    SplitMeans(body, '.');
    SignAndBody(s, negative, body, m.whole, m.fraction);
  }

  lemma SignAndBody(s: string, negative: bool, body: string, whole: string, fraction: string)
    requires if negative then s != "" && s[0] == '-' && body == s[1..] else body == s
    requires body == whole + ['.'] + fraction || (fraction == "" && body == whole)
    ensures Spells(s, Mantissa(negative, whole, fraction))
  {
    assert s == SignText(negative) + body;
    assert SignText(negative) + (whole + ['.'] + fraction) == SignText(negative) + whole + "." + fraction;
  }

  /** Plain notation of a number: at least one digit, perhaps a sign and a point. */
  ghost predicate Plain(s: string) {
    exists m :: GoodMantissa(m) && Spells(s, m) && m.whole + m.fraction != ""
  }

  ghost predicate ExponentParts(s: string, t: string, m: Mantissa, mark: char, x: string) {
    s == t + [mark] + x && Mark(mark) && GoodMantissa(m) && Spells(t, m) && ReadExponent(x).Some?
  }

  /** Exponent notation: a mantissa, though it may have no digit, a mark and an exponent. */
  ghost predicate Exponential(s: string) {
    exists t, m, mark, x :: ExponentParts(s, t, m, mark, x)
  }

  /** The texts that are read, exactly. */
  lemma AcceptedIff(s: string, decimals: nat)
    ensures DecimalToRaw(s, decimals).Some? <==> Plain(s) || Exponential(s)
  {
    hide DecimalToRaw, Spells, ReadExponent;
    if Plain(s) {
      var m :| GoodMantissa(m) && Spells(s, m) && m.whole + m.fraction != "";
      PlainIsTruncatedIff(s, m, decimals);
    }
    if Exponential(s) {
      var t, m, mark, x :| ExponentParts(s, t, m, mark, x);
      ExponentIsTruncated(t, m, mark, x, ReadExponent(x).value, decimals);
    }
    if DecimalToRaw(s, decimals).Some? {
      ReadsOnlyNumbers(s, decimals);
    }
  }

  lemma ReadsOnlyNumbers(s: string, decimals: nat)
    requires DecimalToRaw(s, decimals).Some?
    ensures Plain(s) || Exponential(s)
  {
    hide Spells, ReadExponent, ReadMantissa, Scale, MovePoint, Split;
    var parts := SplitExponent(s);
    MarkMeans(s);
    if parts.1.Some? && ReadMantissa(parts.0).Some? && ReadExponent(parts.1.value).Some? {
      var m := ReadMantissa(parts.0).value;
      ReadIsSpelling(parts.0, m);
      var mark :| Mark(mark) && s == parts.0 + [mark] + parts.1.value;
      assert ExponentParts(s, parts.0, m, mark, parts.1.value);
    } else {
      assert NormalizeExponent(s) == s;
      var m := ReadMantissa(s).value;
      ReadIsSpelling(s, m);
    }
  }

  /** If there is a mark the text is what stands before it, the mark, and what follows. */
  lemma MarkMeans(s: string)
    ensures var parts := SplitExponent(s);
            parts.1.Some? ==> exists mark :: Mark(mark) && s == parts.0 + [mark] + parts.1.value
  {
    SplitMeans(s, 'e');
    SplitMeans(s, 'E');
    assert Mark('e') && Mark('E');
  }

  /** The two parsers agree on every non-negative plain decimal with a whole part. */
  lemma ParsersAgree(s: string, m: Mantissa, decimals: nat)
    requires GoodMantissa(m) && Spells(s, m) && !m.negative && m.whole != ""
    ensures ToRawAmount(s, decimals).Some? && ToRawAmount(s, decimals).value >= 0
    ensures DecimalToRaw(s, decimals) == Some(IntText(ToRawAmount(s, decimals).value))
  {
    hide DecimalToRaw, ToRawAmount;
    PlainIsTruncatedIff(s, m, decimals);
    ToRawIsTruncated(s, m, decimals);
  }

  /** The parts of a plain decimal, the sign left on the whole part. */
  lemma SignedParts(s: string, m: Mantissa)
    requires GoodMantissa(m) && Spells(s, m)
    ensures AmountParts(s) == (SignText(m.negative) + m.whole, m.fraction)
  {
    var w := SignText(m.negative) + m.whole;
    DigitsHaveNo(m.whole, '.');
    DigitsHaveNo(m.fraction, '.');
    SplitAt(w, '.', m.fraction);
    SplitAt(m.fraction, '.', "");
  }

  lemma NoWholeIsRefused(s: string, m: Mantissa, decimals: nat)
    requires GoodMantissa(m) && Spells(s, m) && m.whole == ""
    ensures ToRawAmount(s, decimals) == None
  {
    hide AmountParts, Spells;
    SignedParts(s, m);
    assert SignText(m.negative) + "" == SignText(m.negative);
    assert !AllDigits("-") by { assert !IsDigit("-"[0]); }
  }

  lemma ReadsNegative(w: string)
    requires AllDigits(w) && w != ""
    ensures ParseBigInt("-" + w) == Some(-(Value(w) as int))
  {
    assert ("-" + w)[0] == '-' && ("-" + w)[1..] == w;
    assert !IsDigit(("-" + w)[0]);
  }

  /** A negative whole part is scaled with its sign, and the fraction is added to that. */
  lemma FractionIsAdded(s: string, m: Mantissa, decimals: nat)
    requires GoodMantissa(m) && Spells(s, m) && m.negative && m.whole != ""
    ensures AllDigits(PadSlice(m.fraction, decimals))
    ensures ToRawAmount(s, decimals)
         == Some(Value(PadSlice(m.fraction, decimals)) - Scaled(Value(m.whole), decimals))
  {
    hide AmountParts, Spells, ParseBigInt, PadSlice, Value, Scaled;
    SignedParts(s, m);
    ReadsNegative(m.whole);
    PadsToDigits(m.fraction, decimals);
    ReadsDigits(PadSlice(m.fraction, decimals));
    ScaledNegative(Value(m.whole), decimals);
  }

  lemma ReadsDigits(s: string)
    requires AllDigits(s)
    ensures ParseBigInt(s) == Some(Value(s))
  {
  }

  lemma {:induction false} ScaledNegative(n: int, d: nat)
    ensures Scaled(-n, d) == -Scaled(n, d)
  {
    if d > 0 {
      ScaledNegative(n, d - 1);
    }
  }

  lemma NegativeAgreesIff(s: string, m: Mantissa, decimals: nat)
    requires GoodMantissa(m) && Spells(s, m) && m.negative && m.whole != ""
    ensures ToRawAmount(s, decimals).Some?
    ensures DecimalToRaw(s, decimals) == Some(IntText(ToRawAmount(s, decimals).value))
            <==> KeepsNoFraction(m.fraction, decimals)
  {
    hide DecimalToRaw, ToRawAmount, Spells, PadSlice, Value, Scaled, ShiftFloor, IntText, KeepsNoFraction;
    var f := PadSlice(m.fraction, decimals);
    FractionIsAdded(s, m, decimals);
    PlainIsTruncatedIff(s, m, decimals);
    ScaledDigits(m.whole, m.fraction, decimals);
    ValueSplit(m.whole, f);
    var whole, kept := Scaled(Value(m.whole), decimals), Value(f);
    assert DecimalToRaw(s, decimals) == Some(IntText(-whole - kept));
    if IntText(-whole - kept) == IntText(kept - whole) {
      TextsDiffer(-whole - kept, kept - whole);
    }
    ZeroIff(f);
    KeptIsPadded(m.fraction, decimals);
  }

  lemma TextsDiffer(m: int, n: int)
    requires IntText(m) == IntText(n)
    ensures m == n
  {
    DigitsValue(if m < 0 then -m else m);
    DigitsValue(if n < 0 then -n else n);
    assert m < 0 ==> IntText(m)[1..] == Digits(-m);
    assert n < 0 ==> IntText(n)[1..] == Digits(-n);
    assert m >= 0 ==> IsDigit(IntText(m)[0]);
    assert n >= 0 ==> IsDigit(IntText(n)[0]);
  }

  lemma KeptIsPadded(f: string, d: nat)
    ensures KeepsNoFraction(f, d) <==> forall i :: 0 <= i < d ==> PadSlice(f, d)[i] == '0'
  {
    if forall i :: 0 <= i < d ==> PadSlice(f, d)[i] == '0' {
      forall i | 0 <= i < |f| && i < d
        ensures f[i] == '0'
      {
        assert PadSlice(f, d)[i] == f[i];
      }
    }
  }

  /** Only zeros spell zero. */
  lemma {:induction false} ZeroIff(s: string)
    requires AllDigits(s)
    ensures Value(s) == 0 <==> forall i :: 0 <= i < |s| ==> s[i] == '0'
  {
    if s != "" {
      var front := s[..|s| - 1];
      ZeroIff(front);
      if forall i :: 0 <= i < |front| ==> front[i] == '0' {
        assert Value(s) == s[|s| - 1] as int - '0' as int;
      } else {
        var i :| 0 <= i < |front| && front[i] != '0';
        assert s[i] == front[i];
      }
    }
  }

  /** One and a half below zero, at two decimals: a half is added, and the result is another amount. */
  lemma NegativeAmountIsWrong()
    ensures ToRawAmount("-1.5", 2) == Some(-50) && DecimalToRaw("-1.5", 2) == Some("-150")
  {
    hide ToRawAmount, DecimalToRaw, IntText;
    var m := Mantissa(true, "1", "5");
    assert Spells("-1.5", m) by { assert "-" + "1" + "." + "5" == "-1.5"; }
    FractionIsAdded("-1.5", m, 2);
    PlainIsTruncatedIff("-1.5", m, 2);
    SmallValues();
    assert ShiftFloor(15, 1) == 150;
  }

  lemma SmallValues()
    ensures PadSlice("5", 2) == "50" && Value("50") == 50 && Value("1") == 1 && Value("1" + "5") == 15
    ensures Scaled(1, 2) == 100 && IntText(-150) == "-150"
  {
    assert "50"[..1] == "5" && "5"[..0] == "" && "1"[..0] == "" && ("1" + "5")[..1] == "1";
    assert Digits(150) == Digits(15) + "0" && Digits(15) == Digits(1) + "5" && Digits(1) == "1";
  }

  /** The shared parser truncates too. */
  lemma ToRawIsTruncated(s: string, m: Mantissa, decimals: nat)
    requires GoodMantissa(m) && Spells(s, m) && !m.negative && m.whole != ""
    ensures AllDigits(m.whole + m.fraction)
    ensures ToRawAmount(s, decimals) == Some(ShiftFloor(Value(m.whole + m.fraction), decimals - |m.fraction|))
  {
    PartsAreTruncated(m.whole, m.fraction, decimals);
    assert SignText(false) + m.whole + "." + m.fraction == m.whole + "." + m.fraction;
    assert SignText(false) + m.whole == m.whole;
  }

  lemma PartsAreTruncated(w: string, f: string, decimals: nat)
    requires AllDigits(w) && w != "" && AllDigits(f)
    ensures AllDigits(w + f)
    ensures ToRawAmount(w + "." + f, decimals) == Some(ShiftFloor(Value(w + f), decimals - |f|))
    ensures f == "" ==> ToRawAmount(w, decimals) == ToRawAmount(w + "." + f, decimals)
  {
    hide *;
    ToRawReads(w, f, decimals);
    ValueSplit(w, PadSlice(f, decimals));
    ScaledDigits(w, f, decimals);
  }
}
