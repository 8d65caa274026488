/**
 * The discovery codec: `JSON.stringify` with the bigint replacer on the way out, `JSON.parse`
 * with the reviver on the way in, including what JSON drops or turns into null in between.
 */
module BigintCodec {
  import opened Prelude
  import opened Json

  /** `$sentryBigint` */
  const WRAPPER_KEY: Text := [36, 115, 101, 110, 116, 114, 121, 66, 105, 103, 105, 110, 116]

  datatype Failure = NotAnInteger | NoText

  // ---------------------------------------------------------------- serialize

  /**
   * The tree that the serialized text spells: bigints wrapped, non-finite numbers null. None
   * is a value without a text of its own: undefined, a function, a symbol.
   */
  function Carry(v: Value): Option<Value>
    decreases v, 1
  {
    match v
    case Undefined => None
    case Other => None
    case NotFinite => Some(Null)
    case BigInt(n) => Some(Obj([Keyed(WRAPPER_KEY, Str(IntText(n)))]))
    case Arr(items) => Some(Arr(CarryItems(items)))
    case Obj(entries) => Some(Obj(CarryEntries(entries)))
    case _ => Some(v)
  }

  /** In an array a value without text becomes null. */
  function CarryItems(items: seq<Value>): seq<Value>
    decreases items, 0
  {
    if items == [] then []
    else
      var first := Carry(items[0]);
      [if first.Some? then first.value else Null] + CarryItems(items[1..])
  }

  /** In an object its field is dropped. */
  function CarryEntries(entries: seq<Keyed<Value>>): (r: seq<Keyed<Value>>)
    ensures |r| <= |entries|
    decreases entries, 0
  {
    if entries == [] then []
    else
      var first, rest := Carry(entries[0].item), CarryEntries(entries[1..]);
      if first.None? then rest else [Keyed(entries[0].key, first.value)] + rest
  }

  // ---------------------------------------------------------------- parse

  predicate DecimalUnits(t: Text) {
    forall i :: 0 <= i < |t| ==> ZERO <= t[i] <= ZERO + 9
  }

  /** `BigInt(string)` on decimal text, an empty one included. */
  function ParseInteger(t: Text): Option<int> {
    if DecimalUnits(t) then Some(ValueOf(t))
    else if |t| > 1 && t[0] == MINUS && DecimalUnits(t[1..]) then Some(-ValueOf(t[1..]))
    else if |t| > 1 && t[0] == PLUS && DecimalUnits(t[1..]) then Some(ValueOf(t[1..]))
    else None
  }

  /** Digits behind a minus, a plus or nothing, and the integer they spell. */
  predicate SpellsInteger(t: Text, sign: Text, d: Text, n: int) {
    DecimalUnits(d) && t == sign + d && (sign == [] || sign == [PLUS] || sign == [MINUS]) && (sign != [] ==> d != []) &&
    n == if sign == [MINUS] then -ValueOf(d) else ValueOf(d)
  }

  /** Which texts are integers, and which integers they are. */
  lemma ParseIntegerIff(t: Text, n: int)
    ensures ParseInteger(t) == Some(n) <==> exists sign, d :: SpellsInteger(t, sign, d, n)
  {
    if ParseInteger(t) == Some(n) {
      if DecimalUnits(t) {
        assert SpellsInteger(t, [], t, n) by { assert [] + t == t; }
      } else {
        assert t == [t[0]] + t[1..];
        assert SpellsInteger(t, [t[0]], t[1..], n);
      }
    }
    if sign, d :| SpellsInteger(t, sign, d, n) {
      if sign == [] {
        assert t == d;
      } else {
        assert t[0] == sign[0] && t[1..] == d;
      }
    }
  }

  /** An object the reviver takes for a wrapped bigint. */
  predicate LooksWrapped(entries: seq<Keyed<Value>>) {
    |entries| == 1 && entries[0].key == WRAPPER_KEY && entries[0].item.Str?
  }

  /** `JSON.parse` with the reviver: innermost values first. */
  function Revive(v: Value): Result<Value, Failure>
    decreases v, 1
  {
    match v
    case Arr(items) =>
      (match ReviveItems(items)
       case Err(e) => Err(e)
       case Ok(revived) => Ok(Arr(revived)))
    case Obj(entries) =>
      (match ReviveEntries(entries)
       case Err(e) => Err(e)
       case Ok(revived) =>
         if LooksWrapped(revived) then
           match ParseInteger(revived[0].item.s)
           case None => Err(NotAnInteger)
           case Some(n) => Ok(BigInt(n))
         else Ok(Obj(revived)))
    case _ => Ok(v)
  }

  function ReviveItems(items: seq<Value>): Result<seq<Value>, Failure>
    decreases items, 0
  {
    if items == [] then Ok([])
    else
      match (Revive(items[0]), ReviveItems(items[1..]))
      case (Ok(v), Ok(rest)) => Ok([v] + rest)
      case _ => Err(NotAnInteger)
  }

  function ReviveEntries(entries: seq<Keyed<Value>>): Result<seq<Keyed<Value>>, Failure>
    decreases entries, 0
  {
    if entries == [] then Ok([])
    else
      match (Revive(entries[0].item), ReviveEntries(entries[1..]))
      case (Ok(v), Ok(rest)) => Ok([Keyed(entries[0].key, v)] + rest)
      case _ => Err(NotAnInteger)
  }

  /** Serialize, then parse. */
  function RoundTrip(v: Value): Result<Value, Failure> {
    match Carry(v)
    case None => Err(NoText)
    case Some(tree) => Revive(tree)
  }

  // ---------------------------------------------------------------- the condition

  /** JSON has a way to write every part of the tree. */
  predicate Carried(v: Value)
    decreases v, 1
  {
    match v
    case Undefined => false
    case Other => false
    case NotFinite => false
    case Arr(items) => CarriedItems(items)
    case Obj(entries) => CarriedFields(entries)
    case _ => true
  }

  predicate CarriedItems(items: seq<Value>)
    decreases items, 0
  {
    items == [] || (Carried(items[0]) && CarriedItems(items[1..]))
  }

  predicate CarriedFields(entries: seq<Keyed<Value>>)
    decreases entries, 0
  {
    entries == [] || (Carried(entries[0].item) && CarriedFields(entries[1..]))
  }

  /** No object anywhere in the tree looks like a wrapped bigint. */
  predicate NoLookAlike(v: Value)
    decreases v, 1
  {
    match v
    case Arr(items) => NoLookAlikes(items)
    case Obj(entries) => !LooksWrapped(entries) && NoLookAlikeFields(entries)
    case _ => true
  }

  predicate NoLookAlikes(items: seq<Value>)
    decreases items, 0
  {
    items == [] || (NoLookAlike(items[0]) && NoLookAlikes(items[1..]))
  }

  predicate NoLookAlikeFields(entries: seq<Keyed<Value>>)
    decreases entries, 0
  {
    entries == [] || (NoLookAlike(entries[0].item) && NoLookAlikeFields(entries[1..]))
  }

  // ---------------------------------------------------------------- the round trip

  lemma ParseUndoesText(n: int)
    ensures ParseInteger(IntText(n)) == Some(n)
  {
    var t := IntText(n);
    DigitsValue(if n < 0 then -n else n);
    if n < 0 {
      assert t[0] == MINUS && t[1..] == Digits(-n);
    }
  }

  lemma WrappedRevives(n: int)
    ensures RoundTrip(BigInt(n)) == Ok(BigInt(n))
  {
    var wrapped := [Keyed(WRAPPER_KEY, Str(IntText(n)))];
    assert wrapped[1..] == [] && ReviveEntries(wrapped[1..]) == Ok([]);
    assert [wrapped[0]] + wrapped[1..] == wrapped;
    assert Revive(wrapped[0].item) == Ok(wrapped[0].item);
    assert ReviveEntries(wrapped) == Ok(wrapped);
    ParseUndoesText(n);
  }

  /**
   * The round trip, with its exact condition, over all values: what was serialized parses back
   * to the value precisely when JSON can write every part of it and no object in it looks
   * like a wrapped bigint.
   */
  lemma {:induction false} ParseUndoesSerializeIff(v: Value)
    ensures RoundTrip(v) == Ok(v) <==> Carried(v) && NoLookAlike(v)
    decreases v, 1
  {
    match v
    case BigInt(n) => WrappedRevives(n);
    case Arr(items) => ItemsRoundTripIff(items);
    case Obj(entries) =>
      FieldsRoundTripIff(entries);
      if LooksWrapped(entries) {
        LookAlikeStays(entries);
      }
    case _ =>
  }

  lemma LookAlikeStays(entries: seq<Keyed<Value>>)
    requires LooksWrapped(entries)
    ensures CarryEntries(entries) == entries && ReviveEntries(entries) == Ok(entries)
  {
    assert entries[1..] == [];
  }

  lemma {:induction false} ItemsRoundTripIff(items: seq<Value>)
    ensures ReviveItems(CarryItems(items)) == Ok(items) <==> CarriedItems(items) && NoLookAlikes(items)
    decreases items, 0
  {
    if items != [] {
      ParseUndoesSerializeIff(items[0]);
      ItemsRoundTripIff(items[1..]);
      assert CarryItems(items)[1..] == CarryItems(items[1..]);
      assert items == [items[0]] + items[1..];
    }
  }

  lemma {:induction false} ReviveKeepsCount(entries: seq<Keyed<Value>>)
    ensures ReviveEntries(entries).Ok? ==> |ReviveEntries(entries).value| == |entries|
  {
    if entries != [] {
      ReviveKeepsCount(entries[1..]);
    }
  }

  lemma {:induction false} FieldsRoundTripIff(entries: seq<Keyed<Value>>)
    ensures ReviveEntries(CarryEntries(entries)) == Ok(entries)
            <==> CarriedFields(entries) && NoLookAlikeFields(entries)
    decreases entries, 0
  {
    if entries != [] {
      ParseUndoesSerializeIff(entries[0].item);
      FieldsRoundTripIff(entries[1..]);
      ReviveKeepsCount(CarryEntries(entries));
      assert entries == [entries[0]] + entries[1..];
      if Carry(entries[0].item).Some? {
        assert CarryEntries(entries)[1..] == CarryEntries(entries[1..]);
      }
    }
  }

  /** What JSON drops can make a look-alike of an object that is none. */
  lemma DroppedFieldUnmasks(n: int)
    ensures var v := Obj([Keyed(WRAPPER_KEY, Str(IntText(n))), Keyed([], Undefined)]);
            NoLookAlike(v) && RoundTrip(v) == Ok(BigInt(n))
  {
    var one, gone := Keyed(WRAPPER_KEY, Str(IntText(n))), Keyed([], Undefined);
    var entries := [one, gone];
    assert entries[1..] == [gone] && [gone][1..] == [];
    assert NoLookAlikeFields([gone]) && CarryEntries([gone]) == [];
    assert CarryEntries(entries) == [one] + [];
    assert [one] + [] == [one];
    WrappedRevives(n);
  }
}
