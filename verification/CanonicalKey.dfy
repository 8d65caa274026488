/**
 * What equal canonical texts mean for the values themselves: equality up to the order of
 * object keys and undefined fields, but for the objects that imitate a bigint.
 */
module CanonicalKey {
  import opened Prelude
  import opened Json
  import opened CanonicalText

  /** Objects have one entry per key, as JavaScript objects do. */
  predicate DistinctKeys(entries: seq<Keyed<Value>>) {
    forall i, j :: 0 <= i < j < |entries| ==> entries[i].key != entries[j].key
  }

  ghost predicate WellFormed(v: Value)
    decreases v
  {
    match v
    case Arr(items) => forall i :: 0 <= i < |items| ==> WellFormed(items[i])
    case Obj(entries) => DistinctKeys(entries) && forall i :: 0 <= i < |entries| ==> WellFormed(entries[i].item)
    case _ => true
  }

  function Defined(entries: seq<Keyed<Value>>): seq<Keyed<Value>> {
    if entries == [] then []
    else if entries[0].item.Undefined? then Defined(entries[1..])
    else [entries[0]] + Defined(entries[1..])
  }

  /** The object the source itself would write for a bigint. */
  ghost predicate Imitates(entries: seq<Keyed<Value>>) {
    exists n: int :: Defined(entries) == [Keyed(BIGINT_KEY, Str(IntText(n)))]
  }

  ghost predicate NoImitation(v: Value)
    decreases v
  {
    match v
    case Arr(items) => forall i :: 0 <= i < |items| ==> NoImitation(items[i])
    case Obj(entries) => !Imitates(entries) && forall i :: 0 <= i < |entries| ==> NoImitation(entries[i].item)
    case _ => true
  }

  /** Is there a defined field under this key? */
  predicate HasKey(entries: seq<Keyed<Value>>, key: Text) {
    entries != [] && ((entries[0].key == key && !entries[0].item.Undefined?) || HasKey(entries[1..], key))
  }

  /** Equal up to the order of object keys and undefined fields. */
  ghost predicate Same(v: Value, w: Value)
    decreases v
  {
    match v
    case Arr(items) =>
      w.Arr? && |items| == |w.items| && forall i :: 0 <= i < |items| ==> Same(items[i], w.items[i])
    case Obj(entries) =>
      w.Obj? &&
      (forall i :: 0 <= i < |entries| && !entries[i].item.Undefined? ==>
        exists j :: 0 <= j < |w.entries| && w.entries[j].key == entries[i].key && !w.entries[j].item.Undefined? &&
                    Same(entries[i].item, w.entries[j].item)) &&
      (forall j :: 0 <= j < |w.entries| && !w.entries[j].item.Undefined? ==> HasKey(entries, w.entries[j].key))
    case _ => v == w
  }

  // ---------------------------------------------------------------- sorting by key

  lemma {:induction false} LessTotal(a: Text, b: Text)
    ensures Less(a, b) || Less(b, a) || a == b
    ensures !(Less(a, b) && Less(b, a)) && (a == b ==> !Less(a, b))
    decreases |a|
  {
    if a != [] && b != [] && a[0] == b[0] {
      LessTotal(a[1..], b[1..]);
      assert a == [a[0]] + a[1..] && b == [b[0]] + b[1..];
    }
  }

  lemma {:induction false} LessTransitive(a: Text, b: Text, c: Text)
    requires Less(a, b) && Less(b, c)
    ensures Less(a, c)
    decreases |a|
  {
    if a != [] && a[0] == b[0] && b[0] == c[0] {
      LessTransitive(a[1..], b[1..], c[1..]);
    }
  }

  ghost predicate Rising<T>(s: seq<Keyed<T>>) {
    forall i, j :: 0 <= i < j < |s| ==> Less(s[i].key, s[j].key)
  }

  lemma {:induction false} InsertMembers<T>(x: Keyed<T>, s: seq<Keyed<T>>, y: Keyed<T>)
    ensures y in Insert(x, s) <==> y == x || y in s
  {
    if s != [] && Less(s[0].key, x.key) {
      InsertMembers(x, s[1..], y);
      assert s == [s[0]] + s[1..];
    }
  }

  lemma {:induction false} InsertRises<T(!new)>(x: Keyed<T>, s: seq<Keyed<T>>)
    requires Rising(s) && forall y :: y in s ==> y.key != x.key
    ensures Rising(Insert(x, s))
  {
    if s != [] {
      LessTotal(s[0].key, x.key);
      if Less(s[0].key, x.key) {
        InsertRises(x, s[1..]);
        var t := Insert(x, s[1..]);
        forall j | 0 <= j < |t| ensures Less(s[0].key, t[j].key) {
          InsertMembers(x, s[1..], t[j]);
          assert t[j] in t;
        }
      } else {
        forall j | 0 <= j < |s| ensures Less(x.key, s[j].key) {
          if j > 0 {
            LessTransitive(x.key, s[0].key, s[j].key);
          }
        }
      }
    }
  }

  lemma {:induction false} SortMembers<T>(s: seq<Keyed<T>>, y: Keyed<T>)
    ensures y in Sort(s) <==> y in s
  {
    if s != [] {
      SortMembers(s[1..], y);
      InsertMembers(s[0], Sort(s[1..]), y);
      assert s == [s[0]] + s[1..];
    }
  }

  lemma {:induction false} SortRises<T(!new)>(s: seq<Keyed<T>>)
    requires forall i, j :: 0 <= i < j < |s| ==> s[i].key != s[j].key
    ensures Rising(Sort(s))
  {
    if s != [] {
      SortRises(s[1..]);
      forall y | y in Sort(s[1..]) ensures y.key != s[0].key {
        SortMembers(s[1..], y);
        var k :| 0 <= k < |s[1..]| && s[1..][k] == y;
        assert s[k + 1] == y;
      }
      InsertRises(s[0], Sort(s[1..]));
    }
  }

  lemma HeadIsMember<T>(s: seq<Keyed<T>>)
    ensures s != [] ==> s[0] in s
  {
  }

  /** Rising sequences with the same members are the same. */
  lemma {:induction false} RisingUnique<T(!new)>(s: seq<Keyed<T>>, t: seq<Keyed<T>>)
    requires Rising(s) && Rising(t) && forall y :: y in s <==> y in t
    ensures s == t
    decreases |s|
  {
    HeadIsMember(s);
    HeadIsMember(t);
    if s != [] {
      LessTotal(s[0].key, t[0].key);
      assert s[0] == t[0];
      forall y ensures y in s[1..] <==> y in t[1..] {
        RestMembers(s, y);
        RestMembers(t, y);
      }
      RisingUnique(s[1..], t[1..]);
      assert s == [s[0]] + s[1..] && t == [t[0]] + t[1..];
    }
  }

  lemma RestMembers<T>(s: seq<Keyed<T>>, y: Keyed<T>)
    requires Rising(s) && s != []
    ensures y in s[1..] <==> y in s && y != s[0]
  {
    LessTotal(s[0].key, s[0].key);
    assert s == [s[0]] + s[1..];
    if y in s[1..] {
      var k :| 0 <= k < |s[1..]| && s[1..][k] == y;
      assert Less(s[0].key, s[k + 1].key);
    }
  }

  // ---------------------------------------------------------------- normal forms of objects

  lemma {:induction false} NormMembers(entries: seq<Keyed<Value>>, y: Keyed<Value>)
    ensures y in NormEntries(entries) <==> HasField(entries, y)
  {
    if entries != [] {
      var rest := entries[1..];
      NormMembers(rest, y);
      if y in NormEntries(entries) {
        if !entries[0].item.Undefined? && y == Keyed(entries[0].key, Norm(entries[0].item)) {
        } else {
          var i :| 0 <= i < |rest| && !rest[i].item.Undefined? && y == Keyed(rest[i].key, Norm(rest[i].item));
          assert entries[i + 1] == rest[i];
        }
      }
      if i :| 0 <= i < |entries| && !entries[i].item.Undefined? && y == Keyed(entries[i].key, Norm(entries[i].item)) {
        if i > 0 {
          assert rest[i - 1] == entries[i];
        }
      }
    }
  }

  lemma {:induction false} NormDistinct(entries: seq<Keyed<Value>>)
    requires DistinctKeys(entries)
    ensures forall i, j :: 0 <= i < j < |NormEntries(entries)| ==>
            NormEntries(entries)[i].key != NormEntries(entries)[j].key
  {
    if entries != [] {
      var rest, ns := entries[1..], NormEntries(entries[1..]);
      NormDistinct(rest);
      forall k | 0 <= k < |ns| ensures ns[k].key != entries[0].key {
        NormMembers(rest, ns[k]);
        assert ns[k] in ns;
      }
    }
  }

  predicate KeysDiffer<T>(s: seq<Keyed<T>>) {
    forall i, j :: 0 <= i < j < |s| ==> s[i].key != s[j].key
  }

  ghost predicate SameMembers<T(!new)>(s: seq<Keyed<T>>, t: seq<Keyed<T>>) {
    forall y :: y in s <==> y in t
  }

  /** Sorting brings lists with the same members, and only those, to one list. */
  lemma SortsAlikeIff<T(!new)>(s: seq<Keyed<T>>, t: seq<Keyed<T>>)
    requires KeysDiffer(s) && KeysDiffer(t)
    ensures Sort(s) == Sort(t) <==> SameMembers(s, t)
  {
    SortRises(s);
    SortRises(t);
    hide Sort;
    forall y
      ensures (y in Sort(s) <==> y in s) && (y in Sort(t) <==> y in t)
    {
      SortMembers(s, y);
      SortMembers(t, y);
    }
    if SameMembers(s, t) {
      RisingUnique(Sort(s), Sort(t));
    }
  }

  /** Two objects have one normal form exactly when their defined fields do, key by key. */
  lemma SameNormIffSameMembers(e: seq<Keyed<Value>>, f: seq<Keyed<Value>>)
    requires DistinctKeys(e) && DistinctKeys(f)
    ensures Norm(Obj(e)) == Norm(Obj(f)) <==> SameMembers(NormEntries(e), NormEntries(f))
  {
    NormDistinct(e);
    NormDistinct(f);
    hide Sort, NormEntries, SameMembers;
    SortsAlikeIff(NormEntries(e), NormEntries(f));
  }

  // ---------------------------------------------------------------- bigints and their imitators

  lemma {:induction false} DefinedNorm(entries: seq<Keyed<Value>>)
    ensures |NormEntries(entries)| == |Defined(entries)|
    ensures forall i :: 0 <= i < |Defined(entries)| ==>
              NormEntries(entries)[i] == Keyed(Defined(entries)[i].key, Norm(Defined(entries)[i].item))
  {
    if entries != [] {
      DefinedNorm(entries[1..]);
    }
  }

  lemma {:induction false} InsertLength<T>(x: Keyed<T>, s: seq<Keyed<T>>)
    ensures |Insert(x, s)| == |s| + 1
  {
    if s != [] && Less(s[0].key, x.key) {
      InsertLength(x, s[1..]);
    }
  }

  lemma {:induction false} SortLength<T>(s: seq<Keyed<T>>)
    ensures |Sort(s)| == |s|
  {
    if s != [] {
      SortLength(s[1..]);
      InsertLength(s[0], Sort(s[1..]));
    }
  }

  /** The one confusion the text allows: an object and a bigint share it exactly when the object imitates it. */
  lemma ImitationIsExact(n: int, entries: seq<Keyed<Value>>)
    ensures Norm(Obj(entries)) == Norm(BigInt(n)) <==> Defined(entries) == [Keyed(BIGINT_KEY, Str(IntText(n)))]
  {
    var s := NormEntries(entries);
    var one := Keyed(BIGINT_KEY, Str(IntText(n)));
    DefinedNorm(entries);
    SortLength(s);
    if Sort(s) == [one] {
      assert one in Sort(s);
      SortMembers(s, one);
      assert s == [s[0]] && s[0] == one;
      assert Norm(Defined(entries)[0].item) == Str(IntText(n));
      assert Defined(entries)[0].item == Str(IntText(n));
      assert Defined(entries) == [Defined(entries)[0]];
    }
    if Defined(entries) == [one] {
      assert s == [one];
      assert s[1..] == [];
      assert Sort(s) == Insert(one, Sort(s[1..]));
      assert Insert(one, []) == [one];
    }
  }

  // ---------------------------------------------------------------- faithfulness

  lemma {:induction false} SameIffNorm(v: Value, w: Value)
    requires WellFormed(v) && WellFormed(w) && NoImitation(v) && NoImitation(w)
    ensures Same(v, w) <==> Norm(v) == Norm(w)
    decreases v
  {
    match v
    case Arr(items) =>
      if w.Arr? {
        SameItemsIffNorm(items, w.items);
      }
    case Obj(entries) =>
      if w.Obj? {
        SameObjectsIffNorm(v, w);
      } else if w.BigInt? {
        ImitationIsExact(w.n, entries);
      }
    case BigInt(n) =>
      if w.Obj? {
        ImitationIsExact(n, w.entries);
      } else if w.BigInt? {
        var a, b := Norm(v).entries[0], Norm(w).entries[0];
        if Norm(v) == Norm(w) {
          assert a == b;
          IntTextInjective(n, w.n);
        }
      }
    case _ =>
  }

  lemma {:induction false} NormItemsAt(items: seq<Value>, i: nat)
    requires i < |items|
    ensures NormItems(items)[i] == Norm(items[i])
  {
    if i > 0 {
      NormItemsAt(items[1..], i - 1);
    }
  }

  lemma {:induction false} SameItemsIffNorm(items: seq<Value>, others: seq<Value>)
    requires forall i :: 0 <= i < |items| ==> WellFormed(items[i]) && NoImitation(items[i])
    requires forall i :: 0 <= i < |others| ==> WellFormed(others[i]) && NoImitation(others[i])
    ensures (|items| == |others| && forall i :: 0 <= i < |items| ==> Same(items[i], others[i]))
            <==> NormItems(items) == NormItems(others)
    decreases items
  {
    if |items| == |others| {
      forall i | 0 <= i < |items| ensures Same(items[i], others[i]) <==> NormItems(items)[i] == NormItems(others)[i] {
        NormItemsAt(items, i);
        NormItemsAt(others, i);
        SameIffNorm(items[i], others[i]);
      }
    }
  }

  lemma {:induction false} SameObjectsIffNorm(v: Value, w: Value)
    requires v.Obj? && w.Obj? && WellFormed(v) && WellFormed(w) && NoImitation(v) && NoImitation(w)
    ensures Same(v, w) <==> Norm(v) == Norm(w)
    decreases v, 0
  {
    hide Norm, NormEntries, HasKey;
    var e, f := v.entries, w.entries;
    SameNormIffSameMembers(e, f);
    forall i, j | 0 <= i < |e| && 0 <= j < |f|
      ensures Same(e[i].item, f[j].item) <==> Norm(e[i].item) == Norm(f[j].item)
    {
      SameIffNorm(e[i].item, f[j].item);
    }
    if Same(v, w) {
      forall y | HasField(e, y) ensures HasField(f, y) {
        var i :| 0 <= i < |e| && !e[i].item.Undefined? && y == Keyed(e[i].key, Norm(e[i].item));
        var j :| 0 <= j < |f| && f[j].key == e[i].key && !f[j].item.Undefined? && Same(e[i].item, f[j].item);
        assert y == Keyed(f[j].key, Norm(f[j].item));
      }
      MembersFromMatch(e, f);
    }
    if Norm(v) == Norm(w) {
      forall i | 0 <= i < |e| && !e[i].item.Undefined?
        ensures exists j :: 0 <= j < |f| && f[j].key == e[i].key && !f[j].item.Undefined? && Same(e[i].item, f[j].item)
      {
        var y := Keyed(e[i].key, Norm(e[i].item));
        NormMembers(e, y);
        NormMembers(f, y);
      }
      forall j | 0 <= j < |f| && !f[j].item.Undefined? ensures HasKey(e, f[j].key) {
        var y := Keyed(f[j].key, Norm(f[j].item));
        NormMembers(e, y);
        NormMembers(f, y);
        HasKeyIff(e, f[j].key);
      }
    }
  }

  lemma {:induction false} HasKeyIff(entries: seq<Keyed<Value>>, key: Text)
    ensures HasKey(entries, key)
            <==> exists i :: 0 <= i < |entries| && entries[i].key == key && !entries[i].item.Undefined?
  {
    if entries != [] {
      HasKeyIff(entries[1..], key);
      if i :| 0 <= i < |entries| && entries[i].key == key && !entries[i].item.Undefined? {
        if i > 0 {
          assert entries[1..][i - 1] == entries[i];
        }
      }
    }
  }

  /** Fields that match one way, with no key left over, match both ways. */
  lemma MembersFromMatch(e: seq<Keyed<Value>>, f: seq<Keyed<Value>>)
    requires DistinctKeys(f)
    requires forall y :: HasField(e, y) ==> HasField(f, y)
    requires forall j :: 0 <= j < |f| && !f[j].item.Undefined? ==> HasKey(e, f[j].key)
    ensures SameMembers(NormEntries(e), NormEntries(f))
  {
    hide Norm, NormEntries, HasKey;
    forall y ensures y in NormEntries(e) <==> y in NormEntries(f) {
      NormMembers(e, y);
      NormMembers(f, y);
      if HasField(f, y) {
        var j :| 0 <= j < |f| && !f[j].item.Undefined? && y == Keyed(f[j].key, Norm(f[j].item));
        HasKeyIff(e, f[j].key);
        var i :| 0 <= i < |e| && e[i].key == f[j].key && !e[i].item.Undefined?;
        var x := Keyed(e[i].key, Norm(e[i].item));
        assert HasField(e, x) && HasField(f, x);
        var k :| 0 <= k < |f| && !f[k].item.Undefined? && x == Keyed(f[k].key, Norm(f[k].item));
        assert k == j;
      }
    }
  }

  ghost predicate HasField(entries: seq<Keyed<Value>>, y: Keyed<Value>) {
    exists i :: 0 <= i < |entries| && !entries[i].item.Undefined? && y == Keyed(entries[i].key, Norm(entries[i].item))
  }

  /**
   * Faithful key: on values without an imitated bigint, two accepted values get the same
   * text exactly when they are equal up to key order and undefined fields.
   */
  lemma TextIsFaithful(v: Value, w: Value)
    requires Accepted(v) && Accepted(w) && WellFormed(v) && WellFormed(w) && NoImitation(v) && NoImitation(w)
    ensures Canonicalize(v) == Canonicalize(w) <==> Same(v, w)
  {
    SameTextIffSameNormalForm(v, w);
    SameIffNorm(v, w);
  }

  /** With imitation the key is not faithful: a bigint and its look-alike share their text. */
  lemma ImitationCollides(n: int)
    ensures var look := Obj([Keyed(BIGINT_KEY, Str(IntText(n)))]);
            Accepted(look) && Canonicalize(look) == Canonicalize(BigInt(n)) && !Same(look, BigInt(n))
  {
    var entries := [Keyed(BIGINT_KEY, Str(IntText(n)))];
    assert entries[1..] == [];
    assert Accepted(entries[0].item) && FieldsAccepted(entries[1..]);
    assert Defined(entries) == entries;
    ImitationIsExact(n, entries);
    SameTextIffSameNormalForm(Obj(entries), BigInt(n));
  }
}
