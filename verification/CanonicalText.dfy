/** The canonical text that every risk fingerprint hashes, and what it is a faithful key for. */
module CanonicalText {
  import opened Prelude
  import opened Json

  /** `$bigint` */
  const BIGINT_KEY: Text := [36, 98, 105, 103, 105, 110, 116]

  // ---------------------------------------------------------------- ordering by key

  /** JavaScript's `<` on strings: by code units. */
  predicate Less(a: Text, b: Text) {
    b != [] && (a == [] || a[0] < b[0] || (a[0] == b[0] && Less(a[1..], b[1..])))
  }

  function Insert<T>(x: Keyed<T>, s: seq<Keyed<T>>): seq<Keyed<T>> {
    if s == [] || !Less(s[0].key, x.key) then [x] + s else [s[0]] + Insert(x, s[1..])
  }

  function Sort<T>(s: seq<Keyed<T>>): seq<Keyed<T>> {
    if s == [] then [] else Insert(s[0], Sort(s[1..]))
  }

  // ---------------------------------------------------------------- the source

  /** `canonicalize`; None stands for its thrown errors. */
  function Canonicalize(v: Value): Option<Text>
    decreases v, 1
  {
    match v
    case Null => Some(NULL_TEXT)
    case Bool(b) => Some(if b then TRUE_TEXT else FALSE_TEXT)
    case Number(t) => Some(t)
    case Str(s) => Some(Quote(s))
    case BigInt(n) => Some([OPEN_BRACE] + Quote(BIGINT_KEY) + [COLON] + Quote(IntText(n)) + [CLOSE_BRACE])
    case Arr(items) =>
      (match Items(items)
       case None => None
       case Some(t) => Some([OPEN_BRACKET] + t + [CLOSE_BRACKET]))
    case Obj(entries) =>
      (match Fields(entries)
       case None => None
       case Some(fields) => Some([OPEN_BRACE] + JoinFields(Sort(fields)) + [CLOSE_BRACE]))
    case _ => None
  }

  /** `value.map(canonicalize).join(',')` */
  function Items(items: seq<Value>): Option<Text>
    decreases items, 0
  {
    if items == [] then Some([])
    else
      match (Canonicalize(items[0]), Items(items[1..]))
      case (Some(t), Some(rest)) => Some(if |items| == 1 then t else t + [COMMA] + rest)
      case _ => None
  }

  /** The entries that are not undefined, each with its canonical text. */
  function Fields(entries: seq<Keyed<Value>>): Option<seq<Keyed<Text>>>
    decreases entries, 0
  {
    if entries == [] then Some([])
    else if entries[0].item.Undefined? then Fields(entries[1..])
    else
      match (Canonicalize(entries[0].item), Fields(entries[1..]))
      case (Some(t), Some(rest)) => Some([Keyed(entries[0].key, t)] + rest)
      case _ => None
  }

  function JoinFields(fields: seq<Keyed<Text>>): Text {
    if fields == [] then []
    else
      var t := Quote(fields[0].key) + [COLON] + fields[0].item;
      if |fields| == 1 then t else t + [COMMA] + JoinFields(fields[1..])
  }

  // ---------------------------------------------------------------- normal forms

  /**
   * The value the text really stands for: undefined fields dropped, fields in key order,
   * bigints spelled as the object the source writes for them.
   */
  function Norm(v: Value): Value
    decreases v, 1
  {
    match v
    case BigInt(n) => Obj([Keyed(BIGINT_KEY, Str(IntText(n)))])
    case Arr(items) => Arr(NormItems(items))
    case Obj(entries) => Obj(Sort(NormEntries(entries)))
    case _ => v
  }

  function NormItems(items: seq<Value>): (r: seq<Value>)
    ensures |r| == |items|
    decreases items, 0
  {
    if items == [] then [] else [Norm(items[0])] + NormItems(items[1..])
  }

  function NormEntries(entries: seq<Keyed<Value>>): seq<Keyed<Value>>
    decreases entries, 0
  {
    if entries == [] then []
    else if entries[0].item.Undefined? then NormEntries(entries[1..])
    else [Keyed(entries[0].key, Norm(entries[0].item))] + NormEntries(entries[1..])
  }

  /** Values that `canonicalize` accepts. */
  predicate Accepted(v: Value)
    decreases v, 1
  {
    match v
    case Arr(items) => AllAccepted(items)
    case Obj(entries) => FieldsAccepted(entries)
    case Undefined => false
    case NotFinite => false
    case Other => false
    case _ => true
  }

  predicate AllAccepted(items: seq<Value>)
    decreases items, 0
  {
    items == [] || (Accepted(items[0]) && AllAccepted(items[1..]))
  }

  predicate FieldsAccepted(entries: seq<Keyed<Value>>)
    decreases entries, 0
  {
    entries == [] || ((entries[0].item.Undefined? || Accepted(entries[0].item)) && FieldsAccepted(entries[1..]))
  }

  // ---------------------------------------------------------------- encoding normal forms

  /** Values without bigints, undefined fields or anything the source refuses. */
  predicate Plain(v: Value)
    decreases v, 1
  {
    match v
    case Null => true
    case Bool(_) => true
    case Number(_) => true
    case Str(_) => true
    case Arr(items) => AllPlain(items)
    case Obj(entries) => EntriesPlain(entries)
    case _ => false
  }

  predicate AllPlain(items: seq<Value>)
    decreases items, 0
  {
    items == [] || (Plain(items[0]) && AllPlain(items[1..]))
  }

  predicate EntriesPlain(entries: seq<Keyed<Value>>)
    decreases entries, 0
  {
    entries == [] || (Plain(entries[0].item) && EntriesPlain(entries[1..]))
  }

  function Encode(v: Value): Text
    requires Plain(v)
    decreases v, 1
  {
    match v
    case Null => NULL_TEXT
    case Bool(b) => if b then TRUE_TEXT else FALSE_TEXT
    case Number(t) => t
    case Str(s) => Quote(s)
    case Arr(items) => [OPEN_BRACKET] + EncodeItems(items) + [CLOSE_BRACKET]
    case Obj(entries) => [OPEN_BRACE] + EncodeEntries(entries) + [CLOSE_BRACE]
  }

  function EncodeItems(items: seq<Value>): Text
    requires AllPlain(items)
    decreases items, 0
  {
    if items == [] then []
    else if |items| == 1 then Encode(items[0])
    else Encode(items[0]) + [COMMA] + EncodeItems(items[1..])
  }

  function EncodeEntries(entries: seq<Keyed<Value>>): Text
    requires EntriesPlain(entries)
    decreases entries, 0
  {
    if entries == [] then []
    else
      var t := Quote(entries[0].key) + [COLON] + Encode(entries[0].item);
      if |entries| == 1 then t else t + [COMMA] + EncodeEntries(entries[1..])
  }

  // ---------------------------------------------------------------- the text encodes the normal form

  /** It throws exactly on what it has no text for. */
  lemma {:induction false} RefusedIff(v: Value)
    ensures Canonicalize(v).Some? <==> Accepted(v)
    decreases v, 1
  {
    match v
    case Arr(items) => ItemsRefusedIff(items);
    case Obj(entries) => FieldsRefusedIff(entries);
    case _ =>
  }

  lemma {:induction false} ItemsRefusedIff(items: seq<Value>)
    ensures Items(items).Some? <==> AllAccepted(items)
    decreases items, 0
  {
    if items != [] {
      RefusedIff(items[0]);
      ItemsRefusedIff(items[1..]);
    }
  }

  lemma {:induction false} FieldsRefusedIff(entries: seq<Keyed<Value>>)
    ensures Fields(entries).Some? <==> FieldsAccepted(entries)
    decreases entries, 0
  {
    if entries != [] {
      if !entries[0].item.Undefined? {
        RefusedIff(entries[0].item);
      }
      FieldsRefusedIff(entries[1..]);
    }
  }

  lemma {:induction false} InsertPlain(x: Keyed<Value>, s: seq<Keyed<Value>>)
    requires Plain(x.item) && EntriesPlain(s)
    ensures EntriesPlain(Insert(x, s))
  {
    if s != [] && Less(s[0].key, x.key) {
      InsertPlain(x, s[1..]);
    }
  }

  lemma {:induction false} SortPlain(s: seq<Keyed<Value>>)
    requires EntriesPlain(s)
    ensures EntriesPlain(Sort(s))
  {
    if s != [] {
      SortPlain(s[1..]);
      InsertPlain(s[0], Sort(s[1..]));
    }
  }

  lemma {:induction false} NormPlain(v: Value)
    requires Accepted(v)
    ensures Plain(Norm(v))
    decreases v, 1
  {
    match v
    case Arr(items) => NormItemsPlain(items);
    case Obj(entries) =>
      NormEntriesPlain(entries);
      SortPlain(NormEntries(entries));
    case _ =>
  }

  lemma {:induction false} NormItemsPlain(items: seq<Value>)
    requires AllAccepted(items)
    ensures AllPlain(NormItems(items))
    decreases items, 0
  {
    if items != [] {
      NormPlain(items[0]);
      NormItemsPlain(items[1..]);
    }
  }

  lemma {:induction false} NormEntriesPlain(entries: seq<Keyed<Value>>)
    requires FieldsAccepted(entries)
    ensures EntriesPlain(NormEntries(entries))
    decreases entries, 0
  {
    if entries != [] {
      if !entries[0].item.Undefined? {
        NormPlain(entries[0].item);
      }
      NormEntriesPlain(entries[1..]);
    }
  }

  function Texts(entries: seq<Keyed<Value>>): (r: seq<Keyed<Text>>)
    requires EntriesPlain(entries)
    ensures |r| == |entries|
  {
    if entries == [] then [] else [Keyed(entries[0].key, Encode(entries[0].item))] + Texts(entries[1..])
  }

  lemma {:induction false} TextsInsert(x: Keyed<Value>, s: seq<Keyed<Value>>)
    requires Plain(x.item) && EntriesPlain(s)
    ensures EntriesPlain(Insert(x, s)) && Texts(Insert(x, s)) == Insert(Keyed(x.key, Encode(x.item)), Texts(s))
  {
    if s != [] && Less(s[0].key, x.key) {
      TextsInsert(x, s[1..]);
    }
  }

  lemma {:induction false} TextsSort(s: seq<Keyed<Value>>)
    requires EntriesPlain(s)
    ensures EntriesPlain(Sort(s)) && Texts(Sort(s)) == Sort(Texts(s))
  {
    if s != [] {
      TextsSort(s[1..]);
      TextsInsert(s[0], Sort(s[1..]));
    }
  }

  lemma {:induction false} JoinIsEncode(s: seq<Keyed<Value>>)
    requires EntriesPlain(s)
    ensures JoinFields(Texts(s)) == EncodeEntries(s)
  {
    if s != [] {
      JoinIsEncode(s[1..]);
      assert Texts(s)[1..] == Texts(s[1..]);
    }
  }

  lemma BigIntText(n: int)
    ensures var one := Norm(BigInt(n));
            Plain(one) && Canonicalize(BigInt(n)) == Some(Encode(one))
  {
    hide IntText, Quote;
    var one := [Keyed(BIGINT_KEY, Str(IntText(n)))];
    assert Plain(one[0].item) && EntriesPlain(one[1..]);
    var t := Quote(BIGINT_KEY) + [COLON] + Quote(IntText(n));
    assert EncodeEntries(one) == t;
    assert [OPEN_BRACE] + Quote(BIGINT_KEY) + [COLON] + Quote(IntText(n)) + [CLOSE_BRACE]
           == [OPEN_BRACE] + t + [CLOSE_BRACE];
  }

  lemma {:induction false} TextOfNorm(v: Value)
    requires Accepted(v)
    ensures Plain(Norm(v)) && Canonicalize(v) == Some(Encode(Norm(v)))
    decreases v, 1
  {
    NormPlain(v);
    match v
    case Arr(items) => ItemsOfNorm(items);
    case Obj(entries) =>
      FieldsOfNorm(entries);
      TextsSort(NormEntries(entries));
      JoinIsEncode(Sort(NormEntries(entries)));
    case BigInt(n) =>
      BigIntText(n);
    case _ =>
  }

  lemma {:induction false} ItemsOfNorm(items: seq<Value>)
    requires AllAccepted(items)
    ensures AllPlain(NormItems(items)) && Items(items) == Some(EncodeItems(NormItems(items)))
    decreases items, 0
  {
    if items != [] {
      TextOfNorm(items[0]);
      ItemsOfNorm(items[1..]);
      assert NormItems(items)[1..] == NormItems(items[1..]);
    }
  }

  lemma {:induction false} FieldsOfNorm(entries: seq<Keyed<Value>>)
    requires FieldsAccepted(entries)
    ensures EntriesPlain(NormEntries(entries)) && Fields(entries) == Some(Texts(NormEntries(entries)))
    decreases entries, 0
  {
    if entries != [] {
      FieldsOfNorm(entries[1..]);
      if !entries[0].item.Undefined? {
        TextOfNorm(entries[0].item);
        assert NormEntries(entries)[1..] == NormEntries(entries[1..]);
      }
    }
  }

  // ---------------------------------------------------------------- the encoding can be read back

  /** What may follow a value inside a larger text. */
  predicate Closed(rest: Text) {
    rest == [] || rest[0] == COMMA || rest[0] == CLOSE_BRACKET || rest[0] == CLOSE_BRACE
  }

  predicate Starts(v: Value, u: Unit) {
    match v
    case Null => u == 110
    case Bool(b) => u == if b then 116 else 102
    case Number(_) => NumberUnit(u)
    case Str(_) => u == QUOTE
    case Arr(_) => u == OPEN_BRACKET
    case Obj(_) => u == OPEN_BRACE
    case _ => false
  }

  lemma FirstUnit(v: Value)
    requires Plain(v)
    ensures Encode(v) != [] && Starts(v, Encode(v)[0])
  {
  }

  lemma {:induction false} NumbersEnd(s: Text, t: Text, x: Text, y: Text)
    requires (forall i :: 0 <= i < |s| ==> NumberUnit(s[i])) && (forall i :: 0 <= i < |t| ==> NumberUnit(t[i]))
    requires Closed(x) && Closed(y) && s + x == t + y
    ensures s == t && x == y
    decreases |s|
  {
    if s == [] || t == [] {
      FirstOfEither(s, x);
      FirstOfEither(t, y);
      assert [] + x == x && [] + y == y;
    } else {
      assert (s + x)[0] == s[0] && (t + y)[0] == t[0];
      assert (s + x)[1..] == s[1..] + x && (t + y)[1..] == t[1..] + y;
      NumbersEnd(s[1..], t[1..], x, y);
      assert s == [s[0]] + s[1..] && t == [t[0]] + t[1..];
    }
  }

  lemma FirstOfEither(s: Text, x: Text)
    requires (forall i :: 0 <= i < |s| ==> NumberUnit(s[i])) && Closed(x)
    ensures s + x != [] && NumberUnit((s + x)[0]) <==> s != []
  {
  }

  lemma QuotesEnd(s: Text, t: Text, x: Text, y: Text)
    requires Quote(s) + x == Quote(t) + y
    ensures s == t && x == y
  {
    assert (Quote(s) + x)[1..] == Body(s) + [QUOTE] + x && (Quote(t) + y)[1..] == Body(t) + [QUOTE] + y;
    BodyEnds(s, t, x, y);
  }

  // A few identities of concatenation, so that the proofs below need not rediscover them.

  lemma Joined(a: Text, b: Text, c: Text)
    ensures a + b + c == a + (b + c)
  {
  }

  lemma Peeled(u: Unit, x: Text, y: Text)
    requires [u] + x == [u] + y
    ensures x == y
  {
    assert x == ([u] + x)[1..] && y == ([u] + y)[1..];
  }

  lemma SamePrefix(t: Text, x: Text, y: Text)
    requires t + x == t + y
    ensures x == y
  {
    assert x == (t + x)[|t|..] && y == (t + y)[|t|..];
  }

  lemma Bracketed(open: Unit, s: Text, t: Text, close: Unit, x: Text, y: Text)
    requires [open] + s + [close] + x == [open] + t + [close] + y
    ensures s + ([close] + x) == t + ([close] + y)
  {
    assert [open] + (s + ([close] + x)) == [open] + s + [close] + x;
    assert [open] + (t + ([close] + y)) == [open] + t + [close] + y;
    Peeled(open, s + ([close] + x), t + ([close] + y));
  }

  /** Equal texts start alike, so they encode values of one kind. */
  lemma SameKind(v: Value, w: Value, x: Text, y: Text)
    requires Plain(v) && Plain(w) && Encode(v) + x == Encode(w) + y
    ensures v.Null? == w.Null? && v.Bool? == w.Bool? && v.Number? == w.Number? && v.Str? == w.Str? &&
            v.Arr? == w.Arr? && v.Obj? == w.Obj? && (v.Bool? ==> v == w)
  {
    FirstUnit(v);
    FirstUnit(w);
    assert (Encode(v) + x)[0] == Encode(v)[0] && (Encode(w) + y)[0] == Encode(w)[0];
  }

  /** Every encoding ends by itself: equal texts mean equal values, whatever follows. */
  lemma {:induction false} EncodingEnds(v: Value, w: Value, x: Text, y: Text)
    requires Plain(v) && Plain(w) && Closed(x) && Closed(y) && Encode(v) + x == Encode(w) + y
    ensures v == w && x == y
    decreases v, 1
  {
    SameKind(v, w, x, y);
    match v
    case Null => SamePrefix(NULL_TEXT, x, y);
    case Bool(b) => SamePrefix(Encode(v), x, y);
    case Number(t) => NumbersEnd(t, w.text, x, y);
    case Str(s) => QuotesEnd(s, w.s, x, y);
    case Arr(items) =>
      Bracketed(OPEN_BRACKET, EncodeItems(items), EncodeItems(w.items), CLOSE_BRACKET, x, y);
      ItemsEnd(items, w.items, CLOSE_BRACKET, x, y);
    case Obj(entries) =>
      Bracketed(OPEN_BRACE, EncodeEntries(entries), EncodeEntries(w.entries), CLOSE_BRACE, x, y);
      EntriesEnd(entries, w.entries, CLOSE_BRACE, x, y);
  }

  /** The rest of a list text: nothing, or a comma and the further items. */
  function ItemsAfter(items: seq<Value>): Text
    requires items != [] && AllPlain(items)
  {
    if |items| == 1 then [] else [COMMA] + EncodeItems(items[1..])
  }

  lemma NothingToEncode()
    ensures EncodeItems([]) == [] && EncodeEntries([]) == []
  {
  }

  lemma ItemsSplit(items: seq<Value>, x: Text)
    requires items != [] && AllPlain(items)
    ensures EncodeItems(items) + x == Encode(items[0]) + (ItemsAfter(items) + x)
  {
    var t, rest := Encode(items[0]), ItemsAfter(items);
    assert EncodeItems(items) == t + rest;
    Joined(t, rest, x);
  }

  /** Which of the two ways a list goes on can be told from the next unit. */
  lemma Continues(s: Text, more: bool, t: Text, others: bool, close: Unit, x: Text, y: Text)
    requires close != COMMA
    requires (if more then [COMMA] + s else []) + ([close] + x) == (if others then [COMMA] + t else []) + ([close] + y)
    ensures more == others && (more ==> s + ([close] + x) == t + ([close] + y)) && (!more ==> x == y)
  {
    var a, b := (if more then [COMMA] + s else []) + ([close] + x),
                (if others then [COMMA] + t else []) + ([close] + y);
    assert a[0] == if more then COMMA else close;
    assert b[0] == if others then COMMA else close;
    if more {
      assert a[1..] == s + ([close] + x) && b[1..] == t + ([close] + y);
    } else {
      assert a[1..] == x && b[1..] == y;
    }
  }

  lemma {:induction false} ItemsEnd(items: seq<Value>, others: seq<Value>, close: Unit, x: Text, y: Text)
    requires AllPlain(items) && AllPlain(others) && close == CLOSE_BRACKET
    requires EncodeItems(items) + ([close] + x) == EncodeItems(others) + ([close] + y)
    ensures items == others && x == y
    decreases items, 0
  {
    hide Encode, EncodeItems, Plain;
    NothingToEncode();
    ItemsStart(items, [close] + x);
    ItemsStart(others, [close] + y);
    if items == [] {
      Continues([], false, [], false, close, x, y);
    } else {
      var a, b := ItemsAfter(items) + ([close] + x), ItemsAfter(others) + ([close] + y);
      ItemsSplit(items, [close] + x);
      ItemsSplit(others, [close] + y);
      EncodingEnds(items[0], others[0], a, b);
      var more, more' := EncodeItems(items[1..]), EncodeItems(others[1..]);
      Continues(more, |items| > 1, more', |others| > 1, close, x, y);
      if |items| > 1 {
        ItemsEnd(items[1..], others[1..], close, x, y);
      }
      assert items == [items[0]] + items[1..] && others == [others[0]] + others[1..];
    }
  }

  lemma ItemsStart(items: seq<Value>, x: Text)
    requires AllPlain(items) && x != [] && x[0] == CLOSE_BRACKET
    ensures (EncodeItems(items) + x)[0] == CLOSE_BRACKET <==> items == []
  {
    if items != [] {
      FirstUnit(items[0]);
      assert (EncodeItems(items) + x)[0] == Encode(items[0])[0];
    }
  }

  function EntriesAfter(entries: seq<Keyed<Value>>): Text
    requires entries != [] && EntriesPlain(entries)
  {
    if |entries| == 1 then [] else [COMMA] + EncodeEntries(entries[1..])
  }

  lemma EntriesSplit(entries: seq<Keyed<Value>>, x: Text)
    requires entries != [] && EntriesPlain(entries)
    ensures EncodeEntries(entries) + x ==
            Quote(entries[0].key) + ([COLON] + (Encode(entries[0].item) + (EntriesAfter(entries) + x)))
  {
    var k, t, rest := Quote(entries[0].key), Encode(entries[0].item), EntriesAfter(entries);
    assert EncodeEntries(entries) == k + [COLON] + t + rest;
    FourJoined(k, [COLON], t, rest, x);
  }

  lemma FourJoined(a: Text, b: Text, c: Text, d: Text, e: Text)
    ensures a + b + c + d + e == a + (b + (c + (d + e)))
  {
  }

  lemma {:induction false} EntriesEnd(entries: seq<Keyed<Value>>, others: seq<Keyed<Value>>, close: Unit, x: Text,
                                      y: Text)
    requires EntriesPlain(entries) && EntriesPlain(others) && close == CLOSE_BRACE
    requires EncodeEntries(entries) + ([close] + x) == EncodeEntries(others) + ([close] + y)
    ensures entries == others && x == y
    decreases entries, 0
  {
    hide Quote, Encode, EncodeEntries, Plain;
    NothingToEncode();
    EntriesStart(entries, [close] + x);
    EntriesStart(others, [close] + y);
    if entries == [] {
      Continues([], false, [], false, close, x, y);
    } else {
      var e, f := entries[0], others[0];
      var a, b := EntriesAfter(entries) + ([close] + x), EntriesAfter(others) + ([close] + y);
      EntriesSplit(entries, [close] + x);
      EntriesSplit(others, [close] + y);
      QuotesEnd(e.key, f.key, [COLON] + (Encode(e.item) + a), [COLON] + (Encode(f.item) + b));
      Peeled(COLON, Encode(e.item) + a, Encode(f.item) + b);
      EncodingEnds(e.item, f.item, a, b);
      var more, more' := EncodeEntries(entries[1..]), EncodeEntries(others[1..]);
      Continues(more, |entries| > 1, more', |others| > 1, close, x, y);
      if |entries| > 1 {
        EntriesEnd(entries[1..], others[1..], close, x, y);
      }
      assert entries == [e] + entries[1..] && others == [f] + others[1..];
    }
  }

  lemma EntriesStart(entries: seq<Keyed<Value>>, x: Text)
    requires EntriesPlain(entries) && x != [] && x[0] == CLOSE_BRACE
    ensures (EncodeEntries(entries) + x)[0] == CLOSE_BRACE <==> entries == []
  {
    if entries != [] {
      assert (EncodeEntries(entries) + x)[0] == QUOTE;
    }
  }

  /**
   * The text is a faithful key, over all values the source accepts: two of them get the
   * same text exactly when they have the same normal form.
   */
  lemma SameTextIffSameNormalForm(v: Value, w: Value)
    requires Accepted(v) && Accepted(w)
    ensures Canonicalize(v) == Canonicalize(w) <==> Norm(v) == Norm(w)
  {
    TextOfNorm(v);
    TextOfNorm(w);
    if Canonicalize(v) == Canonicalize(w) {
      assert Encode(Norm(v)) + [] == Encode(Norm(v)) && Encode(Norm(w)) + [] == Encode(Norm(w));
      EncodingEnds(Norm(v), Norm(w), [], []);
    }
  }
}
