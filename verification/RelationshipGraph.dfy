/** The bounded breadth-first walk over relationship edges, and what it reaches exactly. */
module RelationshipGraph {
  import opened Prelude

  /** Addresses are compared in lower case; here they are already. */
  type Address = nat

  datatype Edge = Edge(from: Address, to: Address, kind: nat, transaction: nat, logIndex: Option<nat>, canonical: bool)

  /** The de-duplication key, with the parts the source joins into one string. */
  datatype Key = Key(from: Address, to: Address, kind: nat, transaction: nat, logIndex: int)

  function KeyOf(e: Edge): Key {
    Key(e.from, e.to, e.kind, e.transaction, if e.logIndex.Some? then e.logIndex.value else -1)
  }

  /** Edges with one key are one edge, but for whether they are canonical. */
  lemma SameKeyIff(e: Edge, f: Edge)
    ensures KeyOf(e) == KeyOf(f) <==> e == f.(canonical := e.canonical)
  {
  }

  datatype Item = Item(address: Address, depth: nat)

  // ---------------------------------------------------------------- the specification

  predicate Leaves(e: Edge, a: Address) {
    e.canonical && e.from == a
  }

  /** The keys of the canonical edges leaving `a`. */
  function KeysFrom(edges: seq<Edge>, a: Address): set<Key> {
    set e | e in edges && Leaves(e, a) :: KeyOf(e)
  }

  function Targets(edges: seq<Edge>, a: Address): set<Address> {
    set e | e in edges && Leaves(e, a) :: e.to
  }

  /** The addresses within `n` canonical hops of a root. */
  ghost function Within(edges: seq<Edge>, roots: seq<Address>, n: nat): set<Address> {
    if n == 0 then set r | r in roots
    else
      var closer := Within(edges, roots, n - 1);
      closer + set e | e in edges && e.canonical && e.from in closer :: e.to
  }

  function Depth(limit: int): nat { if limit < 0 then 0 else limit }

  lemma {:induction false} WithinGrows(edges: seq<Edge>, roots: seq<Address>, m: nat, n: nat)
    requires m <= n
    ensures Within(edges, roots, m) <= Within(edges, roots, n)
    decreases n
  {
    if m < n {
      WithinGrows(edges, roots, m, n - 1);
    }
  }

  // ---------------------------------------------------------------- one visit

  /** The edges a visit to `a` selects: those of `a` whose key has not been seen, once per key. */
  function Fresh(edges: seq<Edge>, a: Address, seen: set<Key>): seq<Edge>
    decreases |edges|
  {
    if edges == [] then []
    else
      var front, e := edges[..|edges| - 1], edges[|edges| - 1];
      var before := Fresh(front, a, seen);
      if Leaves(e, a) && KeyOf(e) !in seen + KeysFrom(front, a) then before + [e] else before
  }

  function ItemsOf(edges: seq<Edge>, depth: nat): (items: seq<Item>)
    ensures |items| == |edges|
    ensures forall i :: 0 <= i < |edges| ==> items[i] == Item(edges[i].to, depth)
  {
    seq(|edges|, i requires 0 <= i < |edges| => Item(edges[i].to, depth))
  }

  lemma KeysFromStep(edges: seq<Edge>, a: Address)
    requires edges != []
    ensures var front, e := edges[..|edges| - 1], edges[|edges| - 1];
            KeysFrom(edges, a) == KeysFrom(front, a) + if Leaves(e, a) then {KeyOf(e)} else {}
    ensures var front, e := edges[..|edges| - 1], edges[|edges| - 1];
            Targets(edges, a) == Targets(front, a) + if Leaves(e, a) then {e.to} else {}
  {
    var front, e := edges[..|edges| - 1], edges[|edges| - 1];
    assert forall x :: x in edges <==> x in front || x == e;
  }

  ghost predicate NoRepeats(selected: seq<Edge>) {
    forall i, j :: 0 <= i < j < |selected| ==> KeyOf(selected[i]) != KeyOf(selected[j])
  }

  function ToOf(edges: seq<Edge>): set<Address> {
    set e | e in edges :: e.to
  }

  function KeysOf(edges: seq<Edge>): set<Key> {
    set e | e in edges :: KeyOf(e)
  }

  lemma OneMoreEdge(edges: seq<Edge>, e: Edge)
    ensures ToOf(edges + [e]) == ToOf(edges) + {e.to} && KeysOf(edges + [e]) == KeysOf(edges) + {KeyOf(e)}
  {
    assert forall x :: x in edges + [e] <==> x in edges || x == e;
  }

  lemma {:induction false} FreshSelects(edges: seq<Edge>, a: Address, seen: set<Key>)
    ensures forall e :: e in Fresh(edges, a, seen) ==> e in edges && Leaves(e, a) && KeyOf(e) !in seen
    decreases |edges|
  {
    if edges != [] {
      FreshSelects(edges[..|edges| - 1], a, seen);
    }
  }

  lemma {:induction false} FreshOnce(edges: seq<Edge>, a: Address, seen: set<Key>)
    ensures NoRepeats(Fresh(edges, a, seen))
    decreases |edges|
  {
    if edges != [] {
      var front, e := edges[..|edges| - 1], edges[|edges| - 1];
      FreshOnce(front, a, seen);
      FreshSelects(front, a, seen);
      assert forall x :: x in Fresh(front, a, seen) ==> KeyOf(x) in KeysFrom(front, a);
    }
  }

  lemma {:induction false} FreshOnFirstVisit(edges: seq<Edge>, a: Address, seen: set<Key>)
    requires KeysFrom(edges, a) !! seen
    ensures KeysOf(Fresh(edges, a, seen)) == KeysFrom(edges, a) && ToOf(Fresh(edges, a, seen)) == Targets(edges, a)
    decreases |edges|
  {
    if edges != [] {
      var front, e := edges[..|edges| - 1], edges[|edges| - 1];
      KeysFromStep(edges, a);
      FreshOnFirstVisit(front, a, seen);
      OneMoreEdge(Fresh(front, a, seen), e);
      if Leaves(e, a) && KeyOf(e) in KeysFrom(front, a) {
        // a repeated key names the same target
        var x :| x in front && Leaves(x, a) && KeyOf(x) == KeyOf(e);
        assert e.to in Targets(front, a);
      }
    }
  }

  lemma {:induction false} FreshOnRevisit(edges: seq<Edge>, a: Address, seen: set<Key>)
    requires KeysFrom(edges, a) <= seen
    ensures Fresh(edges, a, seen) == []
    decreases |edges|
  {
    if edges != [] {
      KeysFromStep(edges, a);
      FreshOnRevisit(edges[..|edges| - 1], a, seen);
    }
  }

  /** On a first visit every edge's key and target is taken; on a later one nothing is. */
  lemma FreshIs(edges: seq<Edge>, a: Address, seen: set<Key>)
    ensures forall e :: e in Fresh(edges, a, seen) ==> e in edges && Leaves(e, a) && KeyOf(e) !in seen
    ensures NoRepeats(Fresh(edges, a, seen))
    ensures KeysFrom(edges, a) !! seen ==>
              KeysOf(Fresh(edges, a, seen)) == KeysFrom(edges, a) && ToOf(Fresh(edges, a, seen)) == Targets(edges, a)
    ensures KeysFrom(edges, a) <= seen ==> Fresh(edges, a, seen) == []
  {
    hide Fresh, KeysFrom, Targets, KeysOf, ToOf, NoRepeats;
    FreshSelects(edges, a, seen);
    FreshOnce(edges, a, seen);
    if KeysFrom(edges, a) !! seen {
      FreshOnFirstVisit(edges, a, seen);
    }
    if KeysFrom(edges, a) <= seen {
      FreshOnRevisit(edges, a, seen);
    }
  }

  /** One more edge of the inner loop. */
  lemma FreshStep(edges: seq<Edge>, i: nat, a: Address, seen: set<Key>, depth: nat)
    requires i < |edges|
    ensures var e, before, after := edges[i], Fresh(edges[..i], a, seen), Fresh(edges[..i + 1], a, seen);
            var taken := Leaves(e, a) && KeyOf(e) !in seen + KeysFrom(edges[..i], a);
            KeysFrom(edges[..i + 1], a) == KeysFrom(edges[..i], a) + (if Leaves(e, a) then {KeyOf(e)} else {}) &&
            after == (if taken then before + [e] else before) &&
            ToOf(before + [e]) == ToOf(before) + {e.to} &&
            ItemsOf(before + [e], depth) == ItemsOf(before, depth) + [Item(e.to, depth)]
  {
    assert edges[..i + 1][..i] == edges[..i];
    KeysFromStep(edges[..i + 1], a);
    OneMoreEdge(Fresh(edges[..i], a, seen), edges[i]);
  }

  lemma NothingYet(a: Address, seen: set<Key>, depth: nat)
    ensures Fresh([], a, seen) == [] && KeysFrom([], a) == {} && ToOf([]) == {} && ItemsOf([], depth) == []
  {
  }

  // ---------------------------------------------------------------- the walk

  /** `y` has been met, or waits in the queue, at depth `k` or less. */
  ghost predicate Reached(met: map<Address, nat>, queue: seq<Item>, y: Address, k: int) {
    (y in met && met[y] <= k) || exists i :: 0 <= i < |queue| && queue[i].address == y && queue[i].depth <= k
  }

  /** The queue is in level order, behind everything met. */
  ghost predicate LevelOrder(met: map<Address, nat>, queue: seq<Item>) {
    (forall i, j :: 0 <= i < j < |queue| ==> queue[i].depth <= queue[j].depth <= queue[i].depth + 1) &&
    (forall a, i :: a in met && 0 <= i < |queue| ==> met[a] <= queue[i].depth)
  }

  /** Everything met or queued is as near to a root as its depth says. */
  ghost predicate Near(edges: seq<Edge>, roots: seq<Address>, limit: int, met: map<Address, nat>, queue: seq<Item>) {
    (forall a :: a in met ==> met[a] <= Depth(limit) && a in Within(edges, roots, met[a])) &&
    (forall i :: 0 <= i < |queue| ==>
      queue[i].depth <= Depth(limit) && queue[i].address in Within(edges, roots, queue[i].depth))
  }

  /** Roots, and the targets of every address expanded, have been reached one hop further. */
  ghost predicate Expanded(edges: seq<Edge>, roots: seq<Address>, limit: int, met: map<Address, nat>,
                           queue: seq<Item>) {
    (forall r :: r in roots ==> Reached(met, queue, r, 0)) &&
    (forall a, y :: a in met && met[a] < limit && y in Targets(edges, a) ==> Reached(met, queue, y, met[a] + 1))
  }

  ghost predicate Collected(edges: seq<Edge>, met: map<Address, nat>, seen: set<Key>, selected: seq<Edge>) {
    (forall k :: k in seen <==> k.from in met && k in KeysFrom(edges, k.from)) &&
    (forall e :: e in selected ==> e in edges && e.canonical && e.from in met) &&
    seen == KeysOf(selected) && NoRepeats(selected)
  }

  ghost predicate Listed(met: map<Address, nat>, queue: seq<Item>, allowed: set<Address>) {
    allowed == met.Keys + set i | 0 <= i < |queue| :: queue[i].address
  }

  ghost predicate Walk(edges: seq<Edge>, roots: seq<Address>, limit: int,
                       met: map<Address, nat>, queue: seq<Item>, seen: set<Key>, selected: seq<Edge>,
                           allowed: set<Address>) {
    LevelOrder(met, queue) && Near(edges, roots, limit, met, queue) && Expanded(edges, roots, limit, met, queue) &&
    Collected(edges, met, seen, selected) && Listed(met, queue, allowed)
  }

  /** The queue after a visit to its head that selected `taken`. */
  function Pushed(queue: seq<Item>, limit: int, taken: seq<Edge>): seq<Item>
    requires queue != []
  {
    queue[1..] + if queue[0].depth < limit then ItemsOf(taken, queue[0].depth + 1) else []
  }

  /** A second visit finds every key seen and only shortens the queue. */
  lemma Revisit(edges: seq<Edge>, roots: seq<Address>, limit: int,
                met: map<Address, nat>, queue: seq<Item>, seen: set<Key>, selected: seq<Edge>, allowed: set<Address>)
    requires Walk(edges, roots, limit, met, queue, seen, selected, allowed)
    requires queue != [] && queue[0].address in met
    ensures Fresh(edges, queue[0].address, seen) == []
    ensures Walk(edges, roots, limit, met, queue[1..], seen, selected, allowed)
  {
    var a := queue[0].address;
    assert forall k :: k in KeysFrom(edges, a) ==> k.from == a;
    FreshIs(edges, a, seen);
    forall y: Address, k: int | Reached(met, queue, y, k) ensures Reached(met, queue[1..], y, k) {
      ReachedLater(met, met, queue, queue[1..], y, k);
    }
    ListedRest(met, queue, allowed);
  }

  lemma ListedRest(met: map<Address, nat>, queue: seq<Item>, allowed: set<Address>)
    requires Listed(met, queue, allowed) && queue != [] && queue[0].address in met
    ensures Listed(met, queue[1..], allowed)
  {
    forall x | x in allowed ensures x in met.Keys + set i | 0 <= i < |queue[1..]| :: queue[1..][i].address {
      if x !in met {
        var i :| 0 <= i < |queue| && queue[i].address == x;
        assert queue[1..][i - 1].address == x;
      }
    }
    forall i | 0 <= i < |queue[1..]| ensures queue[1..][i].address in allowed {
      assert queue[1..][i] == queue[i + 1];
    }
  }

  /** Reaching survives a visit: the head is now met, and the others are still queued. */
  lemma ReachedLater(met: map<Address, nat>, met': map<Address, nat>, queue: seq<Item>, queue': seq<Item>,
                     y: Address, k: int)
    requires Reached(met, queue, y, k) && queue != [] && queue[1..] <= queue'
    requires queue[0].address in met' && met'[queue[0].address] <= queue[0].depth
    requires forall a :: a in met ==> a in met' && met'[a] == met[a]
    ensures Reached(met', queue', y, k)
  {
    if !(y in met && met[y] <= k) {
      var i :| 0 <= i < |queue| && queue[i].address == y && queue[i].depth <= k;
      if i > 0 {
        assert queue'[i - 1] == queue[1..][i - 1] == queue[i];
      }
    }
  }

  /** A first visit selects exactly the edges leaving the address, once per key. */
  lemma VisitCollects(edges: seq<Edge>, a: Address, d: nat, met: map<Address, nat>, seen: set<Key>, selected: seq<Edge>)
    requires Collected(edges, met, seen, selected) && a !in met
    ensures var taken := Fresh(edges, a, seen);
            Collected(edges, met[a := d], seen + KeysFrom(edges, a), selected + taken) &&
            (ToOf(taken)) == Targets(edges, a)
  {
    var taken := Fresh(edges, a, seen);
    assert KeysFrom(edges, a) !! seen;
    FreshIs(edges, a, seen);
    var all := selected + taken;
    assert forall e :: e in all <==> e in selected || e in taken;
    forall i, j | 0 <= i < j < |all| ensures KeyOf(all[i]) != KeyOf(all[j]) {
      if i < |selected| <= j {
        assert all[i] in selected && all[j] in taken;
      }
    }
  }

  lemma VisitKeepsNear(edges: seq<Edge>, roots: seq<Address>, limit: int, met: map<Address, nat>, queue: seq<Item>,
                       taken: seq<Edge>)
    requires Near(edges, roots, limit, met, queue) && LevelOrder(met, queue) && queue != [] && queue[0].address !in met
    requires forall e :: e in taken ==> e in edges && Leaves(e, queue[0].address)
    ensures Near(edges, roots, limit, met[queue[0].address := queue[0].depth], Pushed(queue, limit, taken))
    ensures LevelOrder(met[queue[0].address := queue[0].depth], Pushed(queue, limit, taken))
  {
    var a, d := queue[0].address, queue[0].depth;
    var queue' := Pushed(queue, limit, taken);
    assert queue[0] == Item(a, d);
    forall i | 0 <= i < |queue'|
      ensures d <= queue'[i].depth <= d + 1
      ensures queue'[i].depth <= Depth(limit) && queue'[i].address in Within(edges, roots, queue'[i].depth)
    {
      if i < |queue| - 1 {
        assert queue'[i] == queue[i + 1];
      } else {
        var e := taken[i - (|queue| - 1)];
        assert e in taken && queue'[i] == Item(e.to, d + 1);
      }
    }
    forall i, j | 0 <= i < j < |queue'| ensures queue'[i].depth <= queue'[j].depth {
      if j < |queue| - 1 {
        assert queue'[i] == queue[i + 1] && queue'[j] == queue[j + 1];
      }
    }
  }

  lemma VisitExpands(edges: seq<Edge>, roots: seq<Address>, limit: int, met: map<Address, nat>, queue: seq<Item>,
                     taken: seq<Edge>)
    requires Expanded(edges, roots, limit, met, queue) && queue != [] && queue[0].address !in met
    requires (ToOf(taken)) == Targets(edges, queue[0].address)
    ensures Expanded(edges, roots, limit, met[queue[0].address := queue[0].depth], Pushed(queue, limit, taken))
  {
    var a, d := queue[0].address, queue[0].depth;
    var met', queue' := met[a := d], Pushed(queue, limit, taken);
    forall y: Address, k: int | Reached(met, queue, y, k) ensures Reached(met', queue', y, k) {
      ReachedLater(met, met', queue, queue', y, k);
    }
    forall y | d < limit && y in Targets(edges, a) ensures Reached(met', queue', y, d + 1) {
      var e :| e in taken && e.to == y;
      var i :| 0 <= i < |taken| && taken[i] == e;
      assert queue'[|queue| - 1 + i] == Item(y, d + 1);
    }
  }

  lemma VisitLists(met: map<Address, nat>, queue: seq<Item>, limit: int, taken: seq<Edge>, allowed: set<Address>)
    requires Listed(met, queue, allowed) && queue != []
    ensures Listed(met[queue[0].address := queue[0].depth], Pushed(queue, limit, taken),
                   allowed + if queue[0].depth < limit then ToOf(taken) else {})
  {
    var a, d := queue[0].address, queue[0].depth;
    var queue' := Pushed(queue, limit, taken);
    var allowed' := allowed + if d < limit then ToOf(taken) else {};
    forall i | 0 <= i < |queue'| ensures queue'[i].address in allowed' {
      if i < |queue| - 1 {
        assert queue'[i] == queue[i + 1];
      } else {
        assert taken[i - (|queue| - 1)] in taken;
      }
    }
    forall x | x in allowed' ensures x == a || x in met || exists i :: 0 <= i < |queue'| && queue'[i].address == x {
      if x in allowed && x !in met {
        var i :| 0 <= i < |queue| && queue[i].address == x;
        if i > 0 { assert queue'[i - 1] == queue[i]; }
      } else if x !in allowed {
        var e :| e in taken && e.to == x;
        var i :| 0 <= i < |taken| && taken[i] == e;
        assert queue'[|queue| - 1 + i] == Item(x, d + 1);
      }
    }
  }

  lemma FirstVisit(edges: seq<Edge>, roots: seq<Address>, limit: int,
                   met: map<Address, nat>, queue: seq<Item>, seen: set<Key>, selected: seq<Edge>, allowed: set<Address>)
    requires Walk(edges, roots, limit, met, queue, seen, selected, allowed)
    requires queue != [] && queue[0].address !in met
    ensures var a, d := queue[0].address, queue[0].depth;
            var taken := Fresh(edges, a, seen);
            Walk(edges, roots, limit, met[a := d], Pushed(queue, limit, taken), seen + KeysFrom(edges, a),
                 selected + taken,
                 allowed + if d < limit then ToOf(taken) else {})
  {
    var a, d := queue[0].address, queue[0].depth;
    var taken := Fresh(edges, a, seen);
    FreshIs(edges, a, seen);
    VisitCollects(edges, a, d, met, seen, selected);
    VisitKeepsNear(edges, roots, limit, met, queue, taken);
    VisitExpands(edges, roots, limit, met, queue, taken);
    VisitLists(met, queue, limit, taken, allowed);
  }

  // ---------------------------------------------------------------- the end of the walk

  lemma {:induction false} AllWithinMet(edges: seq<Edge>, roots: seq<Address>, limit: int, met: map<Address, nat>,
                                        n: nat)
    requires Expanded(edges, roots, limit, met, []) && n <= Depth(limit)
    ensures forall x :: x in Within(edges, roots, n) ==> x in met && met[x] <= n
  {
    if n > 0 {
      AllWithinMet(edges, roots, limit, met, n - 1);
      var closer := Within(edges, roots, n - 1);
      forall x | x in Within(edges, roots, n) ensures x in met && met[x] <= n {
        if x !in closer {
          var e :| e in edges && e.canonical && e.from in closer && e.to == x;
          assert x in Targets(edges, e.from);
          assert Reached(met, [], x, met[e.from] + 1);
        }
      }
    } else {
      forall x | x in Within(edges, roots, 0) ensures x in met && met[x] <= 0 {
        assert Reached(met, [], x, 0);
      }
    }
  }

  /** The canonical edges leaving a set of addresses. */
  ghost function EdgesFrom(edges: seq<Edge>, nodes: set<Address>): set<Key> {
    set e | e in edges && e.canonical && e.from in nodes :: KeyOf(e)
  }

  /** Exactness: an exhausted walk has found just the addresses in range, and just their edges. */
  lemma Exhausted(edges: seq<Edge>, roots: seq<Address>, limit: int,
                  met: map<Address, nat>, seen: set<Key>, selected: seq<Edge>, allowed: set<Address>)
    requires Walk(edges, roots, limit, met, [], seen, selected, allowed)
    ensures allowed == Within(edges, roots, Depth(limit))
    ensures KeysOf(selected) == EdgesFrom(edges, allowed)
  {
    assert allowed == met.Keys;
    AllWithinMet(edges, roots, limit, met, Depth(limit));
    forall a | a in met ensures a in Within(edges, roots, Depth(limit)) {
      WithinGrows(edges, roots, met[a], Depth(limit));
    }
    forall k | k in EdgesFrom(edges, allowed) ensures k in seen {
      var e :| e in edges && e.canonical && e.from in allowed && KeyOf(e) == k;
      assert k in KeysFrom(edges, e.from);
    }
  }

  // ---------------------------------------------------------------- level by level

  /** The walk has met everything within `n` hops, if that is nearer than all that waits. */
  lemma {:induction false} MetBelow(edges: seq<Edge>, roots: seq<Address>, limit: int,
                                    met: map<Address, nat>, queue: seq<Item>, n: nat)
    requires Expanded(edges, roots, limit, met, queue) && LevelOrder(met, queue) && n <= Depth(limit)
    requires queue != [] ==> n < queue[0].depth
    ensures forall x :: x in Within(edges, roots, n) ==> x in met && met[x] <= n
  {
    if n > 0 {
      MetBelow(edges, roots, limit, met, queue, n - 1);
      var closer := Within(edges, roots, n - 1);
      forall x | x in Within(edges, roots, n)
        ensures x in met && met[x] <= n
      {
        if x !in closer {
          var e :| e in edges && e.canonical && e.from in closer && e.to == x;
          assert x in Targets(edges, e.from);
          assert Reached(met, queue, x, met[e.from] + 1);
        }
      }
    } else {
      forall x | x in Within(edges, roots, 0)
        ensures x in met && met[x] <= 0
      {
        assert Reached(met, queue, x, 0);
      }
    }
  }

  /** No edge is collected before all edges whose sources are nearer to a root, and in that order. */
  ghost predicate LevelByLevel(edges: seq<Edge>, roots: seq<Address>, collected: seq<Edge>) {
    (forall n: nat, i: nat, e: Edge ::
      i < |collected| && e in edges && e.canonical && e.from in Within(edges, roots, n) &&
      collected[i].from !in Within(edges, roots, n) ==>
        KeyOf(e) in KeysOf(collected[..i]))
  }

  /** The addresses listed are the roots and the targets of what was collected short of the depth limit. */
  ghost predicate Sourced(roots: seq<Address>, limit: int, met: map<Address, nat>, selected: seq<Edge>,
                          allowed: set<Address>) {
    forall x :: x in allowed <==>
      x in roots || exists e :: e in selected && e.to == x && e.from in met && met[e.from] < limit
  }

  /** Even a walk cut short by the edge limit returns nothing out of range. */
  lemma CutShort(edges: seq<Edge>, roots: seq<Address>, limit: int,
                 met: map<Address, nat>, queue: seq<Item>, seen: set<Key>, selected: seq<Edge>, allowed: set<Address>)
    requires Walk(edges, roots, limit, met, queue, seen, selected, allowed)
    ensures allowed <= Within(edges, roots, Depth(limit))
    ensures forall e :: e in selected ==> e in edges && e.canonical && e.from in allowed
  {
    forall a | a in allowed ensures a in Within(edges, roots, Depth(limit)) {
      if a in met {
        WithinGrows(edges, roots, met[a], Depth(limit));
      } else {
        var i :| 0 <= i < |queue| && queue[i].address == a;
        WithinGrows(edges, roots, queue[i].depth, Depth(limit));
      }
    }
  }

  lemma LevelStep(edges: seq<Edge>, roots: seq<Address>, limit: int,
                  met: map<Address, nat>, queue: seq<Item>, seen: set<Key>, selected: seq<Edge>, allowed: set<Address>)
    requires Walk(edges, roots, limit, met, queue, seen, selected, allowed) && queue != []
    requires LevelByLevel(edges, roots, selected)
    ensures LevelByLevel(edges, roots, selected + Fresh(edges, queue[0].address, seen))
  {
    hide Within;
    var a, d, taken := queue[0].address, queue[0].depth, Fresh(edges, queue[0].address, seen);
    var all := selected + taken;
    FreshIs(edges, a, seen);
    forall n: nat, i: nat, e: Edge |
      i < |all| && e in edges && e.canonical && e.from in Within(edges, roots, n) &&
          all[i].from !in Within(edges, roots, n)
      ensures KeyOf(e) in KeysOf(all[..i])
    {
      if i < |selected| {
        assert all[..i] == selected[..i];
      } else {
        assert all[i] in taken && all[i].from == a;
        if n >= d {
          WithinGrows(edges, roots, d, n);
        }
        MetBelow(edges, roots, limit, met, queue, n);
        assert KeyOf(e) in KeysFrom(edges, e.from);
        KeysOfPrefix(selected, all, i);
      }
    }
  }

  lemma KeysOfPrefix(selected: seq<Edge>, all: seq<Edge>, i: nat)
    requires selected <= all && |selected| <= i <= |all|
    ensures KeysOf(selected) <= KeysOf(all[..i])
  {
    forall e | e in selected
      ensures e in all[..i]
    {
      var k :| 0 <= k < |selected| && selected[k] == e;
      assert all[..i][k] == e;
    }
  }

  lemma SourcedStep(edges: seq<Edge>, roots: seq<Address>, limit: int, met: map<Address, nat>, a: Address, d: nat,
                    selected: seq<Edge>, taken: seq<Edge>, allowed: set<Address>)
    requires Sourced(roots, limit, met, selected, allowed) && a !in met
    requires forall e :: e in taken ==> e.from == a
    requires forall e :: e in selected ==> e.from in met
    ensures Sourced(roots, limit, met[a := d], selected + taken, allowed + if d < limit then ToOf(taken) else {})
  {
    var allowed' := allowed + if d < limit then ToOf(taken) else {};
    forall x
      ensures x in allowed' <==>
        x in roots || exists e ::
            e in selected + taken && e.to == x && e.from in met[a := d] && met[a := d][e.from] < limit
    {
      if x in allowed && x !in roots {
        var e :| e in selected && e.to == x && e.from in met && met[e.from] < limit;
        assert e in selected + taken;
      }
      if d < limit && x in ToOf(taken) {
        var e :| e in taken && e.to == x;
        assert e in selected + taken;
      }
      if e :| e in selected + taken && e.to == x && e.from in met[a := d] && met[a := d][e.from] < limit {
        if e !in selected {
          assert e in taken && e.to in ToOf(taken);
        }
      }
    }
  }

  /** A met address is as near as its depth says, and no nearer. */
  lemma DepthIsHops(edges: seq<Edge>, roots: seq<Address>, limit: int,
                    met: map<Address, nat>, queue: seq<Item>, a: Address, n: nat)
    requires LevelOrder(met, queue) && Near(edges, roots, limit, met, queue) &&
             Expanded(edges, roots, limit, met, queue)
    requires a in met && n <= Depth(limit)
    ensures a in Within(edges, roots, n) <==> met[a] <= n
  {
    if met[a] <= n {
      WithinGrows(edges, roots, met[a], n);
    } else if a in Within(edges, roots, n) {
      MetBelow(edges, roots, limit, met, queue, n);
    }
  }

  /** Which addresses are listed, in terms of hops. */
  lemma ListedAre(edges: seq<Edge>, roots: seq<Address>, limit: int,
                  met: map<Address, nat>, queue: seq<Item>, seen: set<Key>, selected: seq<Edge>, allowed: set<Address>)
    requires Walk(edges, roots, limit, met, queue, seen, selected, allowed) &&
             Sourced(roots, limit, met, selected, allowed)
    ensures forall x :: x in allowed <==>
      x in roots || exists e :: e in selected && e.to == x && limit > 0 && e.from in Within(edges, roots, limit - 1)
  {
    hide Within;
    if limit > 0 {
      forall e | e in selected
        ensures e.from in Within(edges, roots, limit - 1) <==> met[e.from] < limit
      {
        DepthIsHops(edges, roots, limit, met, queue, e.from, limit - 1);
      }
    }
  }

  lemma StartOfWalk(edges: seq<Edge>, roots: seq<Address>, limit: int)
    ensures var queue := seq(|roots|, i requires 0 <= i < |roots| => Item(roots[i], 0));
            Walk(edges, roots, limit, map[], queue, {}, [], set r | r in roots)
  {
    var queue := seq(|roots|, i requires 0 <= i < |roots| => Item(roots[i], 0));
    forall r | r in roots ensures Reached(map[], queue, r, 0) {
      var i :| 0 <= i < |roots| && roots[i] == r;
      assert queue[i].address == r;
    }
    forall i | 0 <= i < |queue| ensures queue[i].address in Within(edges, roots, 0) {
      assert queue[i].address == roots[i];
    }
    forall r | r in roots ensures exists i :: 0 <= i < |queue| && queue[i].address == r {
      var i :| 0 <= i < |roots| && roots[i] == r;
      assert queue[i].address == r;
    }
  }

  lemma StartOfLevels(edges: seq<Edge>, roots: seq<Address>, limit: int)
    ensures Sourced(roots, limit, map[], [], set r | r in roots) && LevelByLevel(edges, roots, [])
  {
  }

  // ---------------------------------------------------------------- the source's loops

  /** The inner loop: one queue item is visited. */
  method Visit(edges: seq<Edge>, item: Item, limit: int, seen0: set<Key>, selected0: seq<Edge>,
               allowed0: set<Address>, queue0: seq<Item>)
    returns (seen: set<Key>, selected: seq<Edge>, allowed: set<Address>, queue: seq<Item>)
    ensures var taken := Fresh(edges, item.address, seen0);
            selected == selected0 + taken && seen == seen0 + KeysFrom(edges, item.address) &&
            allowed == allowed0 + (if item.depth < limit then ToOf(taken) else {}) &&
            queue == queue0 + if item.depth < limit then ItemsOf(taken, item.depth + 1) else []
  {
    hide Fresh, KeysFrom, ItemsOf, ToOf, Leaves, KeyOf;
    seen, selected, allowed, queue := seen0, selected0, allowed0, queue0;
    var a := item.address;
    NothingYet(a, seen0, item.depth + 1);
    assert edges[..0] == [];
    for i := 0 to |edges|
      invariant selected == selected0 + Fresh(edges[..i], a, seen0)
      invariant seen == seen0 + KeysFrom(edges[..i], a)
      invariant allowed == allowed0 + if item.depth < limit then ToOf(Fresh(edges[..i], a, seen0)) else {}
      invariant queue == queue0 + if item.depth < limit then ItemsOf(Fresh(edges[..i], a, seen0), item.depth + 1)
                else []
    {
      var edge := edges[i];
      FreshStep(edges, i, a, seen0, item.depth + 1);
      if Leaves(edge, a) && KeyOf(edge) !in seen {
        seen := seen + {KeyOf(edge)};
        selected := selected + [edge];
        if item.depth < limit {
          allowed := allowed + {edge.to};
          queue := queue + [Item(edge.to, item.depth + 1)];
        }
      }
    }
    assert edges[..|edges|] == edges;
  }

  function Unseen(edges: seq<Edge>, seen: set<Key>): nat {
    |KeysOf(edges) - seen|
  }

  /** The state a visit to the head of the queue leads to. */
  ghost predicate Visited(edges: seq<Edge>, limit: int,
                          queue: seq<Item>, seen: set<Key>, selected: seq<Edge>, allowed: set<Address>,
                          queue': seq<Item>, seen': set<Key>, selected': seq<Edge>, allowed': set<Address>)
    requires queue != []
  {
    var a, d := queue[0].address, queue[0].depth;
    var taken := Fresh(edges, a, seen);
    queue' == Pushed(queue, limit, taken) && seen' == seen + KeysFrom(edges, a) && selected' == selected + taken &&
    allowed' == allowed + if d < limit then ToOf(taken) else {}
  }

  /** One turn keeps the walk. */
  lemma Turn(edges: seq<Edge>, roots: seq<Address>, limit: int, met: map<Address, nat>,
             queue: seq<Item>, seen: set<Key>, selected: seq<Edge>, allowed: set<Address>,
             queue': seq<Item>, seen': set<Key>, selected': seq<Edge>, allowed': set<Address>)
    returns (met': map<Address, nat>)
    requires Walk(edges, roots, limit, met, queue, seen, selected, allowed) && queue != []
    requires Visited(edges, limit, queue, seen, selected, allowed, queue', seen', selected', allowed')
    requires Sourced(roots, limit, met, selected, allowed) && LevelByLevel(edges, roots, selected)
    ensures Walk(edges, roots, limit, met', queue', seen', selected', allowed')
    ensures Sourced(roots, limit, met', selected', allowed') && LevelByLevel(edges, roots, selected')
  {
    hide Sourced, LevelByLevel;
    var a, d := queue[0].address, queue[0].depth;
    var taken := Fresh(edges, a, seen);
    LevelStep(edges, roots, limit, met, queue, seen, selected, allowed);
    if a in met {
      Revisit(edges, roots, limit, met, queue, seen, selected, allowed);
      met' := met;
      assert forall k :: k in KeysFrom(edges, a) ==> k.from == a;
      assert seen' == seen;
      assert queue' == queue[1..];
      assert selected' == selected;
      assert allowed' == allowed;
    } else {
      FirstVisit(edges, roots, limit, met, queue, seen, selected, allowed);
      met' := met[a := d];
      FreshIs(edges, a, seen);
      SourcedStep(edges, roots, limit, met, a, d, selected, taken, allowed);
    }
  }

  /** One turn sees a new key or shortens the queue. */
  lemma Progress(edges: seq<Edge>, limit: int,
                 queue: seq<Item>, seen: set<Key>, selected: seq<Edge>, allowed: set<Address>,
                 queue': seq<Item>, seen': set<Key>, selected': seq<Edge>, allowed': set<Address>)
    requires queue != [] && Visited(edges, limit, queue, seen, selected, allowed, queue', seen', selected', allowed')
    ensures Unseen(edges, seen') < Unseen(edges, seen) ||
            (Unseen(edges, seen') == Unseen(edges, seen) && |queue'| < |queue|)
  {
    var a := queue[0].address;
    var taken := Fresh(edges, a, seen);
    FreshIs(edges, a, seen);
    var left, left' := KeysOf(edges) - seen, KeysOf(edges) - seen';
    assert left' <= left;
    if taken != [] {
      var k := KeyOf(taken[0]);
      assert taken[0] in taken && k in KeysFrom(edges, a);
      assert k in left && k !in left';
      Fewer(left', left, k);
    } else {
      SetCardinality(left', left);
    }
  }

  lemma Fewer(small: set<Key>, large: set<Key>, k: Key)
    requires small <= large && k in large && k !in small
    ensures |small| < |large|
  {
    SetCardinality(small, large - {k});
  }

  lemma SetCardinality(small: set<Key>, large: set<Key>)
    requires small <= large
    ensures |small| <= |large|
  {
    assert large == small + (large - small);
  }

  /** The outer loop. */
  method Explore(edges: seq<Edge>, roots: seq<Address>, depthLimit: int, maxEdges: nat)
    returns (selected: seq<Edge>, allowed: set<Address>, queue: seq<Item>, ghost seen: set<Key>,
             ghost met: map<Address, nat>)
    ensures Walk(edges, roots, depthLimit, met, queue, seen, selected, allowed)
    ensures Sourced(roots, depthLimit, met, selected, allowed) && LevelByLevel(edges, roots, selected)
    ensures queue == [] || |selected| >= maxEdges
  {
    hide Walk, Sourced, LevelByLevel;
    allowed, selected := set r | r in roots, [];
    var keys: set<Key> := {};
    queue := seq(|roots|, i requires 0 <= i < |roots| => Item(roots[i], 0));
    met := map[];
    StartOfWalk(edges, roots, depthLimit);
    StartOfLevels(edges, roots, depthLimit);
    while queue != [] && |selected| < maxEdges
      invariant Walk(edges, roots, depthLimit, met, queue, keys, selected, allowed)
      invariant Sourced(roots, depthLimit, met, selected, allowed) && LevelByLevel(edges, roots, selected)
      decreases Unseen(edges, keys), |queue|
    {
      var keys', selected', allowed', queue' := Visit(edges, queue[0], depthLimit, keys, selected, allowed, queue[1..]);
      assert Visited(edges, depthLimit, queue, keys, selected, allowed, queue', keys', selected', allowed');
      met := Turn(edges, roots, depthLimit, met, queue, keys, selected, allowed, queue', keys', selected', allowed');
      Progress(edges, depthLimit, queue, keys, selected, allowed, queue', keys', selected', allowed');
      keys, selected, allowed, queue := keys', selected', allowed', queue';
    }
    seen := keys;
  }

  datatype Graph = Graph(edges: seq<Edge>, nodes: set<Address>, nextCursor: Option<int>, limitReached: bool)

  /**
   * `buildRelationshipGraph`. The walk ends: each turn sees a new key or shortens the
   * queue. If it ends with nothing queued, the nodes are exactly the addresses within
   * `depthLimit` canonical hops of a root and the collected edges are exactly the
   * canonical edges leaving them, once per key; the page is a slice of those. Whether or not it is
   * cut short, edges are collected level by level, and the addresses listed are the roots and
   * the targets of the edges collected short of the depth limit.
   */
  method Build(edges: seq<Edge>, roots: seq<Address>, depthLimit: int, maxEdges: nat, cursor: nat)
    returns (graph: Graph, ghost collected: seq<Edge>, ghost exhausted: bool)
    ensures NoRepeats(collected) && forall e :: e in collected ==> e in edges && e.canonical && e.from in graph.nodes
    ensures graph.nodes <= Within(edges, roots, Depth(depthLimit))
    ensures exhausted ==> graph.nodes == Within(edges, roots, Depth(depthLimit)) &&
                          KeysOf(collected) == EdgesFrom(edges, graph.nodes)
    ensures LevelByLevel(edges, roots, collected)
    ensures forall x :: x in graph.nodes <==>
      x in roots ||
      exists e :: e in collected && e.to == x && depthLimit > 0 && e.from in Within(edges, roots, depthLimit - 1)
    ensures !exhausted ==> graph.limitReached
    ensures graph.limitReached <==> |collected| >= maxEdges
    ensures graph.edges == Slice(collected, cursor, cursor + maxEdges)
    ensures graph.nextCursor == if cursor + maxEdges < |collected| then Some(cursor + maxEdges) else None
  {
    var selected, allowed, queue;
    ghost var seen, met;
    selected, allowed, queue, seen, met := Explore(edges, roots, depthLimit, maxEdges);
    collected, exhausted := selected, queue == [];
    CutShort(edges, roots, depthLimit, met, queue, seen, selected, allowed);
    ListedAre(edges, roots, depthLimit, met, queue, seen, selected, allowed);
    if queue == [] {
      Exhausted(edges, roots, depthLimit, met, seen, selected, allowed);
    }
    graph := Graph(Slice(selected, cursor, cursor + maxEdges), allowed,
                   if cursor + maxEdges < |selected| then Some(cursor + maxEdges) else None,
                   |selected| >= maxEdges);
  }

  /** `slice` clamps its bounds. */
  function Slice(s: seq<Edge>, from: nat, to: nat): seq<Edge>
    requires from <= to
  {
    var hi := if to < |s| then to else |s|;
    if from < hi then s[from..hi] else []
  }
}
