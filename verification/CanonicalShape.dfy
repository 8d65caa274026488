/**
 * What the canonical text looks like: the words, the bigint's object, the fields of an object in
 * the order of their keys, and strings that any reader of JSON reads back.
 */
module CanonicalShape {
  import opened Prelude
  import opened Json
  import opened CanonicalText
  import opened CanonicalKey

  /** Text as code units. */
  function Ascii(s: string): (t: Text)
    requires forall i :: 0 <= i < |s| ==> s[i] < 128 as char
    ensures |t| == |s| && forall i :: 0 <= i < |s| ==> t[i] == s[i] as int
  {
    seq(|s|, i requires 0 <= i < |s| => s[i] as int)
  }

  lemma Words()
    ensures Canonicalize(Null) == Some(Ascii("null"))
    ensures Canonicalize(Bool(true)) == Some(Ascii("true")) && Canonicalize(Bool(false)) == Some(Ascii("false"))
  {
    assert NULL_TEXT == Ascii("null") && TRUE_TEXT == Ascii("true") && FALSE_TEXT == Ascii("false");
  }

  // ---------------------------------------------------------------- strings

  function FromHex(u: Unit): (d: Option<int>)
    ensures d.Some? ==> 0 <= d.value < 16
  {
    if ZERO <= u <= ZERO + 9 then Some(u - ZERO)
    else if 97 <= u <= 102 then Some(u - 87)
    else if 65 <= u <= 70 then Some(u - 55)
    else None
  }

  /** The code unit of four hexadecimal digits. */
  function ReadHex4(t: Text): Option<Unit>
    requires |t| >= 4
  {
    match (FromHex(t[0]), FromHex(t[1]), FromHex(t[2]), FromHex(t[3]))
    case (Some(a), Some(b), Some(c), Some(d)) => Some(4096 * a + 256 * b + 16 * c + d)
    case _ => None
  }

  /** The escapes of one letter, section 7 of RFC 8259. */
  function ReadEscape(u: Unit): Option<Unit> {
    if u == QUOTE || u == BACKSLASH || u == 47 then Some(u)
    else if u == Ascii("b")[0] then Some(8)
    else if u == Ascii("t")[0] then Some(9)
    else if u == Ascii("n")[0] then Some(10)
    else if u == Ascii("f")[0] then Some(12)
    else if u == Ascii("r")[0] then Some(13)
    else None
  }

  /** What a reader of JSON makes of the text between the quotes; None if it must refuse it. */
  function ReadBody(t: Text): Option<Text>
    decreases |t|
  {
    if t == [] then Some([])
    else if t[0] == QUOTE || t[0] < 32 then None
    else if t[0] != BACKSLASH then Prepend(t[0], ReadBody(t[1..]))
    else if |t| >= 6 && t[1] == Ascii("u")[0] then
      match ReadHex4(t[2..6])
      case Some(u) => Prepend(u, ReadBody(t[6..]))
      case None => None
    else if |t| >= 2 then
      match ReadEscape(t[1])
      case Some(u) => Prepend(u, ReadBody(t[2..]))
      case None => None
    else None
  }

  function Prepend(u: Unit, rest: Option<Text>): Option<Text> {
    if rest.Some? then Some([u] + rest.value) else None
  }

  lemma ReadsHex4(u: Unit)
    ensures |Hex4(u)| == 4 && ReadHex4(Hex4(u)) == Some(u)
  {
    Nibbles(u);
  }

  lemma ReadsEscape(u: Unit, rest: Text)
    ensures ReadBody(Escape(u) + rest) == Prepend(u, ReadBody(rest))
  {
    var e := Escape(u);
    var t := e + rest;
    assert t[|e|..] == rest && t[..|e|] == e;
    assert t[0] == e[0];
    if |e| == 6 {
      ReadsHex4(u);
      assert t[2..6] == Hex4(u) && t[1] == 117;
    } else if |e| == 2 {
      assert t[1] == e[1];
    }
  }

  lemma ReadsPlain(u: Unit, rest: Text)
    requires u >= 32 && u != QUOTE && u != BACKSLASH
    ensures ReadBody([u] + rest) == Prepend(u, ReadBody(rest))
  {
    assert ([u] + rest)[1..] == rest;
  }

  /** A quoted string reads back as itself, whatever is in it. */
  lemma {:induction false} QuoteReadsBack(s: Text)
    ensures ReadBody(Body(s)) == Some(s) && Quote(s) == [QUOTE] + Body(s) + [QUOTE]
    decreases |s|
  {
    hide Escape, ReadBody, Body, High, Low;
    BodyStep(s);
    if s == [] {
      return;
    }
    if Paired(s) {
      QuoteReadsBack(s[2..]);
      ReadsPlain(s[1], Body(s[2..]));
      ReadsPlain(s[0], [s[1]] + Body(s[2..]));
      assert s == [s[0]] + ([s[1]] + s[2..]);
    } else {
      QuoteReadsBack(s[1..]);
      ReadsEscape(s[0], Body(s[1..]));
      assert s == [s[0]] + s[1..];
    }
  }

  lemma BodyStep(s: Text)
    ensures s == [] ==> ReadBody(Body(s)) == Some(s)
    ensures Paired(s) ==> Body(s) == [s[0]] + ([s[1]] + Body(s[2..])) && s[0] > BACKSLASH && s[1] > BACKSLASH
    ensures s != [] && !Paired(s) ==> Body(s) == Escape(s[0]) + Body(s[1..])
  {
  }

  // ---------------------------------------------------------------- bigints

  predicate IsPlain(u: Unit) { 32 <= u < 128 && u != QUOTE && u != BACKSLASH }

  lemma PlainUnit(u: Unit)
    requires IsPlain(u)
    ensures Escape(u) == [u] && !High(u)
  {
  }

  /** A text without anything to escape is its own body. */
  lemma {:induction false} PlainWord(t: Text)
    requires forall i :: 0 <= i < |t| ==> IsPlain(t[i])
    ensures Body(t) == t
  {
    hide Escape, IsPlain, High, Low;
    if t != [] {
      PlainWord(t[1..]);
      PlainUnit(t[0]);
      assert t == [t[0]] + t[1..];
    }
  }

  lemma IntegersArePlain(n: int)
    ensures Quote(IntText(n)) == [QUOTE] + IntText(n) + [QUOTE]
  {
    DigitsValue(if n < 0 then -n else n);
    PlainWord(IntText(n));
  }

  lemma KeyIsPlain()
    ensures Quote(BIGINT_KEY) == [QUOTE] + Ascii("$bigint") + [QUOTE]
  {
    assert BIGINT_KEY == Ascii("$bigint");
    PlainWord(BIGINT_KEY);
  }

  /** A bigint is an object with the one field `$bigint`, its decimal digits in quotes. */
  lemma BigIntShape(n: int)
    ensures Canonicalize(BigInt(n))
         == Some(Ascii("{") + ([QUOTE] + Ascii("$bigint") + [QUOTE]) + Ascii(":") +
                       ([QUOTE] + IntText(n) + [QUOTE]) + Ascii("}"))
  {
    hide Quote, IntText;
    IntegersArePlain(n);
    KeyIsPlain();
    assert Ascii("{") == [OPEN_BRACE] && Ascii(":") == [COLON] && Ascii("}") == [CLOSE_BRACE];
  }

  // ---------------------------------------------------------------- objects

  /** Key order is that of the first differing code unit, a text coming before its continuations. */
  lemma {:induction false} LessIs(a: Text, b: Text)
    ensures Less(a, b) <==> exists k: nat :: FirstDifference(a, b, k)
    decreases |a|
  {
    FirstsAgree(a, b);
    if a != [] && b != [] && a[0] == b[0] {
      LessIs(a[1..], b[1..]);
      if Less(a[1..], b[1..]) {
        var k: nat :| FirstDifference(a[1..], b[1..], k);
        assert a[..k + 1] == [a[0]] + a[1..][..k] && b[..k + 1] == [b[0]] + b[1..][..k];
        assert FirstDifference(a, b, k + 1);
      }
      if k: nat :| FirstDifference(a, b, k) {
        assert a[1..][..k - 1] == a[..k][1..] && b[1..][..k - 1] == b[..k][1..];
        assert FirstDifference(a[1..], b[1..], k - 1);
      }
    } else {
      assert Less(a, b) <==> FirstDifference(a, b, 0);
    }
  }

  lemma FirstsAgree(a: Text, b: Text)
    ensures forall k: nat :: FirstDifference(a, b, k) && k > 0 ==> a != [] && b != [] && a[0] == b[0]
  {
    forall k: nat | FirstDifference(a, b, k) && k > 0
      ensures a != [] && b != [] && a[0] == b[0]
    {
      assert a[..k][0] == a[0] && b[..k][0] == b[0];
    }
  }

  predicate FirstDifference(a: Text, b: Text, k: nat) {
    k <= |a| && k < |b| && a[..k] == b[..k] && (k == |a| || a[k] < b[k])
  }

  /** The text of each field that is not undefined, and no others. */
  ghost predicate FieldsOf(fs: seq<Keyed<Text>>, entries: seq<Keyed<Value>>) {
    forall key: Text, t: Text ::
      Keyed(key, t) in fs <==> exists i :: 0 <= i < |entries| && Shows(entries[i], key, t)
  }

  predicate Shows(e: Keyed<Value>, key: Text, t: Text) {
    e.key == key && !e.item.Undefined? && Canonicalize(e.item) == Some(t)
  }

  lemma {:induction false} FieldsAre(entries: seq<Keyed<Value>>)
    requires Fields(entries).Some?
    ensures FieldsOf(Fields(entries).value, entries)
    decreases |entries|
  {
    if entries != [] {
      var e, rest := entries[0], entries[1..];
      FieldsAre(rest);
      var fs := Fields(entries).value;
      forall key: Text, t: Text
        ensures Keyed(key, t) in fs <==> exists i :: 0 <= i < |entries| && Shows(entries[i], key, t)
      {
        if Keyed(key, t) in Fields(rest).value {
          var i :| 0 <= i < |rest| && Shows(rest[i], key, t);
          assert Shows(entries[i + 1], key, t);
        }
        if i :| 0 <= i < |entries| && Shows(entries[i], key, t) {
          assert i > 0 ==> Shows(rest[i - 1], key, t);
        }
        assert Shows(entries[0], key, t) ==> Keyed(key, t) in fs;
        assert Keyed(key, t) in fs ==> Keyed(key, t) in Fields(rest).value || Shows(entries[0], key, t);
      }
    }
  }

  lemma {:induction false} FieldsDistinct(entries: seq<Keyed<Value>>)
    requires Fields(entries).Some? && forall i, j :: 0 <= i < j < |entries| ==> entries[i].key != entries[j].key
    ensures var fs := Fields(entries).value; forall i, j :: 0 <= i < j < |fs| ==> fs[i].key != fs[j].key
    decreases |entries|
  {
    if entries != [] {
      var rest := entries[1..];
      FieldsDistinct(rest);
      FieldsAre(rest);
      var fs := Fields(rest).value;
      forall i | 0 <= i < |fs|
        ensures fs[i].key != entries[0].key
      {
        assert Keyed(fs[i].key, fs[i].item) in fs;
        var k :| 0 <= k < |rest| && Shows(rest[k], fs[i].key, fs[i].item);
        assert rest[k] == entries[k + 1];
      }
    }
  }

  /** The text of an object: its defined fields in rising key order, each with its own text. */
  lemma ObjectShape(entries: seq<Keyed<Value>>)
    requires Accepted(Obj(entries)) && forall i, j :: 0 <= i < j < |entries| ==> entries[i].key != entries[j].key
    ensures exists fs :: Rising(fs) && FieldsOf(fs, entries) &&
              Canonicalize(Obj(entries)) == Some([OPEN_BRACE] + JoinFields(fs) + [CLOSE_BRACE])
  {
    RefusedIff(Obj(entries));
    FieldsAre(entries);
    FieldsDistinct(entries);
    var fields := Fields(entries).value;
    SortRises(fields);
    var fs := Sort(fields);
    forall y: Keyed<Text>
      ensures y in fs <==> y in fields
    {
      SortMembers(fields, y);
    }
    assert FieldsOf(fs, entries);
  }
}
