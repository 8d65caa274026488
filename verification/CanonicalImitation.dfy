/**
 * The canonical text is faithful on a value exactly when no object in it imitates a bigint: any
 * imitator, however deep, can be restored to the bigint it stands for without changing the text.
 */
module CanonicalImitation {
  import opened Prelude
  import opened Json
  import opened CanonicalText
  import opened CanonicalKey

  ghost function Imitated(entries: seq<Keyed<Value>>): int
    requires Imitates(entries)
  {
    var n: int :| Defined(entries) == [Keyed(BIGINT_KEY, Str(IntText(n)))];
    n
  }

  /** Every imitator replaced by the bigint it stands for. */
  ghost function Restore(v: Value): Value
    decreases v, 1
  {
    match v
    case Arr(items) => Arr(RestoreItems(items))
    case Obj(entries) => if Imitates(entries) then BigInt(Imitated(entries)) else Obj(RestoreEntries(entries))
    case _ => v
  }

  ghost function RestoreItems(items: seq<Value>): (r: seq<Value>)
    ensures |r| == |items| && forall i :: 0 <= i < |items| ==> r[i] == Restore(items[i])
    decreases items, 0
  {
    if items == [] then [] else [Restore(items[0])] + RestoreItems(items[1..])
  }

  ghost function RestoreEntries(entries: seq<Keyed<Value>>): (r: seq<Keyed<Value>>)
    ensures |r| == |entries| && forall i :: 0 <= i < |entries| ==>
            r[i] == Keyed(entries[i].key, Restore(entries[i].item))
    decreases entries, 0
  {
    if entries == [] then [] else [Keyed(entries[0].key, Restore(entries[0].item))] + RestoreEntries(entries[1..])
  }

  // ---------------------------------------------------------------- restoring keeps the text

  lemma {:induction false} RestoreNorm(v: Value)
    ensures Norm(Restore(v)) == Norm(v)
    decreases v, 1
  {
    match v
    case Arr(items) => RestoreNormItems(items);
    case Obj(entries) =>
      if Imitates(entries) {
        ImitationIsExact(Imitated(entries), entries);
      } else {
        RestoreNormEntries(entries);
      }
    case _ =>
  }

  lemma {:induction false} RestoreNormItems(items: seq<Value>)
    ensures NormItems(RestoreItems(items)) == NormItems(items)
    decreases items, 0
  {
    if items != [] {
      RestoreNorm(items[0]);
      RestoreNormItems(items[1..]);
      assert RestoreItems(items)[1..] == RestoreItems(items[1..]);
    }
  }

  lemma {:induction false} RestoreNormEntries(entries: seq<Keyed<Value>>)
    ensures NormEntries(RestoreEntries(entries)) == NormEntries(entries)
    decreases entries, 0
  {
    if entries != [] {
      RestoreNorm(entries[0].item);
      RestoreNormEntries(entries[1..]);
      assert RestoreEntries(entries)[1..] == RestoreEntries(entries[1..]);
    }
  }

  lemma {:induction false} RestoreAccepted(v: Value)
    ensures Accepted(v) ==> Accepted(Restore(v))
    decreases v, 1
  {
    match v
    case Arr(items) => RestoreAcceptedItems(items);
    case Obj(entries) => RestoreAcceptedEntries(entries);
    case _ =>
  }

  lemma {:induction false} RestoreAcceptedItems(items: seq<Value>)
    ensures AllAccepted(items) ==> AllAccepted(RestoreItems(items))
    decreases items, 0
  {
    if items != [] {
      RestoreAccepted(items[0]);
      RestoreAcceptedItems(items[1..]);
      assert RestoreItems(items)[1..] == RestoreItems(items[1..]);
    }
  }

  lemma {:induction false} RestoreAcceptedEntries(entries: seq<Keyed<Value>>)
    ensures FieldsAccepted(entries) ==> FieldsAccepted(RestoreEntries(entries))
    decreases entries, 0
  {
    if entries != [] {
      RestoreAccepted(entries[0].item);
      RestoreAcceptedEntries(entries[1..]);
      assert RestoreEntries(entries)[1..] == RestoreEntries(entries[1..]);
    }
  }

  lemma {:induction false} RestoreWellFormed(v: Value)
    requires WellFormed(v)
    ensures WellFormed(Restore(v))
    decreases v
  {
    match v
    case Arr(items) =>
      forall i | 0 <= i < |items|
        ensures WellFormed(Restore(items[i]))
      {
        RestoreWellFormed(items[i]);
      }
    case Obj(entries) =>
      forall i | 0 <= i < |entries|
        ensures WellFormed(Restore(entries[i].item))
      {
        RestoreWellFormed(entries[i].item);
      }
    case _ =>
  }

  // ---------------------------------------------------------------- and removes every imitator

  lemma {:induction false} DefinedRestore(entries: seq<Keyed<Value>>)
    ensures |Defined(RestoreEntries(entries))| == |Defined(entries)|
    ensures forall i :: 0 <= i < |Defined(entries)| ==>
      Defined(RestoreEntries(entries))[i] == Keyed(Defined(entries)[i].key, Restore(Defined(entries)[i].item))
  {
    if entries != [] {
      DefinedRestore(entries[1..]);
      assert RestoreEntries(entries)[1..] == RestoreEntries(entries[1..]);
    }
  }

  lemma NoNewImitator(entries: seq<Keyed<Value>>)
    requires Imitates(RestoreEntries(entries))
    ensures Imitates(entries)
  {
    DefinedRestore(entries);
    var n := Imitated(RestoreEntries(entries));
    var d := Defined(entries);
    assert |d| == 1 && d[0].key == BIGINT_KEY && Restore(d[0].item) == Str(IntText(n));
    assert d == [d[0]];
  }

  lemma {:induction false} RestoreIsClean(v: Value)
    ensures NoImitation(Restore(v))
    decreases v
  {
    match v
    case Arr(items) =>
      forall i | 0 <= i < |items|
        ensures NoImitation(Restore(items[i]))
      {
        RestoreIsClean(items[i]);
      }
    case Obj(entries) =>
      if !Imitates(entries) {
        if Imitates(RestoreEntries(entries)) {
          NoNewImitator(entries);
        }
        forall i | 0 <= i < |entries|
          ensures NoImitation(Restore(entries[i].item))
        {
          RestoreIsClean(entries[i].item);
        }
      }
    case _ =>
  }

  /** A value with an imitator anywhere is not the same as its restoration. */
  lemma {:induction false} RestoreDiffers(v: Value)
    requires WellFormed(v) && !NoImitation(v)
    ensures !Same(v, Restore(v))
    decreases v
  {
    match v
    case Arr(items) =>
      var i :| 0 <= i < |items| && !NoImitation(items[i]);
      RestoreDiffers(items[i]);
    case Obj(entries) =>
      if !Imitates(entries) {
        var i :| 0 <= i < |entries| && !NoImitation(entries[i].item);
        RestoreDiffers(entries[i].item);
        var w := RestoreEntries(entries);
        forall j | 0 <= j < |w| && w[j].key == entries[i].key
          ensures !Same(entries[i].item, w[j].item)
        {
          assert j == i;
        }
      }
    case _ =>
  }

  /**
   * Faithfulness, exactly: an accepted value shares its text with no different value (among those
   * without imitators) if and only if no object anywhere in it imitates a bigint.
   */
  lemma FaithfulIffNoImitation(v: Value)
    requires Accepted(v) && WellFormed(v)
    ensures NoImitation(v) <==>
              forall w :: Accepted(w) && WellFormed(w) && NoImitation(w) && Canonicalize(w) == Canonicalize(v) ==>
                     Same(v, w)
  {
    hide Canonicalize, Accepted, WellFormed, NoImitation, Same, Restore;
    if NoImitation(v) {
      forall w | Accepted(w) && WellFormed(w) && NoImitation(w) && Canonicalize(w) == Canonicalize(v)
        ensures Same(v, w)
      {
        TextIsFaithful(v, w);
      }
    } else {
      var w := Restore(v);
      RestoreNorm(v);
      RestoreAccepted(v);
      RestoreWellFormed(v);
      RestoreIsClean(v);
      SameTextIffSameNormalForm(w, v);
      RestoreDiffers(v);
    }
  }
}
