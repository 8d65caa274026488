/** JavaScript values as the JSON writers see them, and the JSON text of strings. */
module Json {
  import opened Prelude

  /** A UTF-16 code unit. */
  type Unit = i: int | 0 <= i < 0x1_0000

  type Text = seq<Unit>

  const QUOTE: Unit := 34
  const PLUS: Unit := 43
  const COMMA: Unit := 44
  const MINUS: Unit := 45
  const DOT: Unit := 46
  const ZERO: Unit := 48
  const COLON: Unit := 58
  const OPEN_BRACKET: Unit := 91
  const BACKSLASH: Unit := 92
  const CLOSE_BRACKET: Unit := 93
  const OPEN_BRACE: Unit := 123
  const CLOSE_BRACE: Unit := 125

  const NULL_TEXT: Text := [110, 117, 108, 108]
  const TRUE_TEXT: Text := [116, 114, 117, 101]
  const FALSE_TEXT: Text := [102, 97, 108, 115, 101]

  /** Characters that `JSON.stringify` uses for a finite number. */
  predicate NumberUnit(u: Unit) {
    ZERO <= u <= ZERO + 9 || u == MINUS || u == PLUS || u == DOT || u == 101
  }

  /** A finite number, by its JSON text: equal numbers (and the two zeros) have one text. */
  type NumberText = t: Text | t != [] && forall i :: 0 <= i < |t| ==> NumberUnit(t[i]) witness [ZERO]

  datatype Value =
    | Undefined
    | Null
    | Bool(b: bool)
    | Number(text: NumberText)
    | NotFinite
    | Str(s: Text)
    | BigInt(n: int)
    | Arr(items: seq<Value>)
    | Obj(entries: seq<Keyed<Value>>)
    | Other

  datatype Keyed<+T> = Keyed(key: Text, item: T)

  // ---------------------------------------------------------------- quoted strings

  predicate High(u: Unit) { 0xD800 <= u < 0xDC00 }

  predicate Low(u: Unit) { 0xDC00 <= u < 0xE000 }

  /** A lower-case hexadecimal digit. */
  function HexDigit(d: int): Unit
    requires 0 <= d < 16
  {
    if d < 10 then ZERO + d else 87 + d
  }

  function Hex4(u: Unit): Text {
    [HexDigit(u / 4096), HexDigit(u / 256 % 16), HexDigit(u / 16 % 16), HexDigit(u % 16)]
  }

  /** One code unit inside a quoted string; surrogates here are lone ones. */
  function Escape(u: Unit): Text {
    if u == QUOTE || u == BACKSLASH then [BACKSLASH, u]
    else if u == 8 then [BACKSLASH, 98]
    else if u == 9 then [BACKSLASH, 116]
    else if u == 10 then [BACKSLASH, 110]
    else if u == 12 then [BACKSLASH, 102]
    else if u == 13 then [BACKSLASH, 114]
    else if u < 32 || High(u) || Low(u) then [BACKSLASH, 117] + Hex4(u)
    else [u]
  }

  function Body(s: Text): Text {
    if s == [] then []
    else if High(s[0]) && |s| > 1 && Low(s[1]) then [s[0], s[1]] + Body(s[2..])
    else Escape(s[0]) + Body(s[1..])
  }

  /** `JSON.stringify` of a string. */
  function Quote(s: Text): Text {
    [QUOTE] + Body(s) + [QUOTE]
  }

  lemma HexDigitInjective(c: int, d: int)
    requires 0 <= c < 16 && 0 <= d < 16 && HexDigit(c) == HexDigit(d)
    ensures c == d
  {
  }

  lemma Nibbles(u: Unit)
    ensures u == 4096 * (u / 4096) + 256 * (u / 256 % 16) + 16 * (u / 16 % 16) + u % 16
  {
    assert u / 16 / 16 == u / 256 && u / 256 / 16 == u / 4096;
  }

  lemma Hex4Injective(u: Unit, v: Unit)
    requires Hex4(u) == Hex4(v)
    ensures u == v
  {
    assert Hex4(u)[0] == Hex4(v)[0] && Hex4(u)[1] == Hex4(v)[1] && Hex4(u)[2] == Hex4(v)[2] && Hex4(u)[3] == Hex4(v)[3];
    HexDigitInjective(u / 4096, v / 4096);
    HexDigitInjective(u / 256 % 16, v / 256 % 16);
    HexDigitInjective(u / 16 % 16, v / 16 % 16);
    HexDigitInjective(u % 16, v % 16);
    Nibbles(u);
    Nibbles(v);
  }

  /** An escape ends by itself: what follows it can be told apart. */
  lemma EscapeEnds(u: Unit, v: Unit, x: Text, y: Text)
    requires Escape(u) + x == Escape(v) + y
    ensures u == v && x == y
  {
    var a, b := Escape(u), Escape(v);
    assert (a + x)[0] == a[0] && (b + y)[0] == b[0];
    if a[0] == BACKSLASH {
      assert (a + x)[1] == a[1] && (b + y)[1] == b[1];
      if a[1] == 117 {
        assert (a + x)[2..6] == Hex4(u) && (b + y)[2..6] == Hex4(v);
        Hex4Injective(u, v);
      }
    }
    assert x == (a + x)[|a|..] && y == (b + y)[|b|..];
  }

  /** Two strings with the same text are the same, whatever follows them. */
  lemma {:induction false} BodyEnds(s: Text, t: Text, x: Text, y: Text)
    requires Body(s) + [QUOTE] + x == Body(t) + [QUOTE] + y
    ensures s == t && x == y
    decreases |s|
  {
    if s == [] || t == [] {
      FirstOfBody(s, x);
      FirstOfBody(t, y);
      assert Body(s) + [QUOTE] + x == [QUOTE] + x || s != [];
      assert ([QUOTE] + x)[1..] == x && ([QUOTE] + y)[1..] == y;
    } else {
      SplitBody(s, x);
      SplitBody(t, y);
      var a, b := HeadText(s), HeadText(t);
      var s', t' := Tail(s), Tail(t);
      HeadEnds(s, t, Body(s') + [QUOTE] + x, Body(t') + [QUOTE] + y);
      BodyEnds(s', t', x, y);
      assert s == s[..|s| - |s'|] + s' && t == t[..|t| - |t'|] + t';
    }
  }

  predicate Paired(s: Text) {
    |s| > 1 && High(s[0]) && Low(s[1])
  }

  function HeadText(s: Text): Text
    requires s != []
  {
    if Paired(s) then [s[0], s[1]] else Escape(s[0])
  }

  function Tail(s: Text): Text
    requires s != []
  {
    if Paired(s) then s[2..] else s[1..]
  }

  lemma SplitBody(s: Text, x: Text)
    requires s != []
    ensures Body(s) + [QUOTE] + x == HeadText(s) + (Body(Tail(s)) + [QUOTE] + x)
  {
  }

  lemma FirstOfBody(s: Text, x: Text)
    ensures (Body(s) + [QUOTE] + x)[0] == QUOTE <==> s == []
  {
    if s != [] {
      SplitBody(s, x);
    }
  }

  lemma HeadEnds(s: Text, t: Text, x: Text, y: Text)
    requires s != [] && t != [] && HeadText(s) + x == HeadText(t) + y
    ensures Paired(s) == Paired(t) && s[0] == t[0] && (Paired(s) ==> s[1] == t[1]) && x == y
  {
    var a, b := HeadText(s), HeadText(t);
    assert (a + x)[0] == a[0] && (b + y)[0] == b[0];
    if Paired(s) || Paired(t) {
      assert (a + x)[1] == a[1] && (b + y)[1] == b[1];
      assert x == (a + x)[|a|..] && y == (b + y)[|b|..];
    } else {
      EscapeEnds(s[0], t[0], x, y);
    }
  }

  // ---------------------------------------------------------------- decimal integers

  /** The decimal digits of a natural number. */
  function Digits(n: nat): (t: Text)
    ensures t != []
  {
    if n < 10 then [ZERO + n] else Digits(n / 10) + [ZERO + n % 10]
  }

  /** `BigInt.prototype.toString`. */
  function IntText(n: int): Text {
    if n < 0 then [MINUS] + Digits(-n) else Digits(n)
  }

  function ValueOf(t: Text): int {
    if t == [] then 0 else 10 * ValueOf(t[..|t| - 1]) + (t[|t| - 1] - ZERO)
  }

  lemma {:induction false} DigitsValue(n: nat)
    ensures ValueOf(Digits(n)) == n && forall i :: 0 <= i < |Digits(n)| ==> ZERO <= Digits(n)[i] <= ZERO + 9
  {
    if n >= 10 {
      DigitsValue(n / 10);
      var t := Digits(n);
      assert t[..|t| - 1] == Digits(n / 10);
    } else {
      assert Digits(n)[..0] == [];
    }
  }

  lemma IntTextInjective(m: int, n: int)
    requires IntText(m) == IntText(n)
    ensures m == n
  {
    DigitsValue(if m < 0 then -m else m);
    DigitsValue(if n < 0 then -n else n);
    var s, t := IntText(m), IntText(n);
    assert (s[0] == MINUS) == (m < 0) && (t[0] == MINUS) == (n < 0);
    if m < 0 {
      assert s[1..] == Digits(-m) && t[1..] == Digits(-n);
    }
  }
}
