/**
 * What the live loop comes to, told from what happened: from the run so far with the states it went
 * through, and from the fate of each call the loop has made. A turn that goes on has either had a
 * reason to wait, or has indexed a block, or a window, or has gone back to a common ancestor.
 */
module LiveAccount {
  import opened Prelude
  import opened Arithmetic
  import opened IndexerModel

  /** What becomes of a call: an answer, nothing there yet, an error, or an error after it took effect. */
  datatype Fate = Answers | Nothing | Fails | Lost

  predicate Throws(f: Fate) { f.Fails? || f.Lost? }

  /** A run as one worker sees it: `states[k]` is the state in which `events[k]` happened. */
  datatype Trace = Trace(cfg: Config, id: WorkerId, fate: nat -> Fate, events: seq<Event>, states: seq<Sys>)

  /** An instant of the loop: how many events and own calls there have been, and its variables. */
  datatype Mark = Mark(event: nat, call: nat, cursor: nat, last: Option<Hash>)

  predicate SamePosition(m: Mark, n: Mark) {
    n.cursor == m.cursor && n.last == m.last
  }

  ghost predicate Between(t: Trace, m: Mark, n: Mark) {
    m.event <= n.event <= |t.events| == |t.states| && m.call <= n.call
  }

  ghost predicate Grows(t: Trace, u: Trace) {
    u.cfg == t.cfg && u.id == t.id && u.fate == t.fate &&
    t.events <= u.events && t.states <= u.states
  }

  /** How many of the first calls throw. */
  function Throwing(fate: nat -> Fate, calls: nat): nat {
    if calls == 0 then 0 else Throwing(fate, calls - 1) + if Throws(fate(calls - 1)) then 1 else 0
  }

  /** None of the calls in between has thrown. */
  ghost predicate AllWell(t: Trace, from: nat, till: nat) {
    Throwing(t.fate, till) == Throwing(t.fate, from)
  }

  lemma {:induction false} AllWellMeans(t: Trace, from: nat, till: nat)
    requires from <= till
    ensures Throwing(t.fate, from) <= Throwing(t.fate, till)
    ensures AllWell(t, from, till) <==> forall c: nat :: from <= c < till ==> !Throws(t.fate(c))
    decreases till
  {
    if from < till {
      var n: nat := till - 1;
      AllWellMeans(t, from, n);
      assert Throwing(t.fate, till) == Throwing(t.fate, n) + if Throws(t.fate(n)) then 1 else 0;
      assert (forall c: nat :: from <= c < till ==> !Throws(t.fate(c)))
        <==> !Throws(t.fate(n)) && forall c: nat :: from <= c < n ==> !Throws(t.fate(c));
    }
  }

  /** Event `k` is the worker's own action `a`. */
  ghost predicate Own(t: Trace, k: nat, a: Act) {
    k < |t.events| && k < |t.states| && t.events[k] == Does(t.id, a)
  }

  /** The worker was there, with these variables, when event `k` happened. */
  ghost predicate Was(t: Trace, k: nat, pc: Pc, m: Mark) {
    k < |t.states| && t.id in t.states[k].workers && t.states[k].workers[t.id] == Worker(pc, m.cursor, m.last)
  }

  /** From one instant of the run to a later one. */
  ghost predicate Went(t: Trace, m: Mark, u: Trace, n: Mark) {
    Grows(t, u) && m.event == |t.events| == |t.states| && n.event == |u.events| == |u.states| &&
    m.event <= n.event && m.call <= n.call
  }

  /** The same, and the last event is the worker's own action `a`, taken at `pc`. */
  ghost predicate Acted(t: Trace, m: Mark, u: Trace, n: Mark, a: Act, pc: Pc) {
    Went(t, m, u, n) && m.event < n.event && Own(u, n.event - 1, a) && Was(u, n.event - 1, pc, m)
  }

  /** Instants follow one another. */
  lemma Laws()
    ensures forall t, m, u, n, a, pc {:trigger Acted(t, m, u, n, a, pc)} :: Acted(t, m, u, n, a, pc) ==>
            Went(t, m, u, n)
    ensures forall t, m, u, n {:trigger Went(t, m, u, n)} :: Went(t, m, u, n) ==>
            Grows(t, u) && Between(u, m, n) && m.event <= n.event && m.call <= n.call
    ensures forall t, m, u, n, v, o {:trigger Went(t, m, u, n), Went(u, n, v, o)} ::
              Went(t, m, u, n) && Went(u, n, v, o) ==> Went(t, m, v, o)
    ensures forall t, m, u, n, o {:trigger Between(t, m, n), Went(t, n, u, o)} ::
              Between(t, m, n) && Went(t, n, u, o) ==> Between(u, m, n) && Between(u, n, o) && Between(u, m, o)
    ensures forall t, m, u, n, v, o, a, pc {:trigger Went(t, m, u, n), Acted(u, n, v, o, a, pc)} ::
              Went(t, m, u, n) && Acted(u, n, v, o, a, pc) && SamePosition(m, n) ==> Acted(t, m, v, o, a, pc)
  {
  }

  // ---------------------------------------------------------------- what the provider said

  /** The height that a fetch asks for. */
  function Asks(w: Worker): int {
    if w.pc.Drain? then w.cursor + |w.pc.got| else w.cursor
  }

  /** Event `k` is a fetch of height `h`, answered or not. */
  ghost predicate Fetch(t: Trace, k: nat, h: nat, answered: bool) {
    (Own(t, k, DoFetch(answered)) || Own(t, k, DoFetchNext(answered))) &&
    k < |t.states| && t.id in t.states[k].workers && Asks(t.states[k].workers[t.id]) == h
  }

  ghost predicate Served(t: Trace, m: Mark, n: Mark, h: nat, b: Block) {
    exists k: nat :: m.event <= k < n.event && Fetch(t, k, h, true) &&
      h < |t.states[k].chain| && t.states[k].chain[h] == b
  }

  /** The provider had no such block, or said that it had none. */
  ghost predicate Withheld(t: Trace, m: Mark, n: Mark, h: nat) {
    (exists k: nat :: m.event <= k < n.event && Fetch(t, k, h, true) && |t.states[k].chain| <= h) ||
    (exists k: nat, c: nat ::
     m.event <= k < n.event && Fetch(t, k, h, false) && m.call <= c < n.call && t.fate(c).Nothing?)
  }

  ghost predicate HeadBelow(t: Trace, m: Mark, n: Mark) {
    exists k: nat :: m.event <= k < n.event && Own(t, k, DoReadHead) && Latest(t.states[k].chain) < m.cursor
  }

  // ---------------------------------------------------------------- what a turn comes to

  /** The worker asked for the lease and the row was not its own. */
  ghost predicate LeaseGone(t: Trace, m: Mark, n: Mark) {
    exists k: nat, now: int :: m.event <= k < n.event && Own(t, k, DoRenew(now)) && !Owns(t.states[k].db, t.id)
  }

  /** Nothing has moved, for a reason. */
  ghost predicate Waited(t: Trace, m: Mark, n: Mark) {
    n.cursor == m.cursor && n.last == m.last &&
    (HeadBelow(t, m, n) || Withheld(t, m, n, m.cursor) || t.cfg.batchSize == 0)
  }

  /** The search for a common ancestor of this block has gone down to the bottom. */
  ghost predicate SearchedAll(t: Trace, m: Mark, n: Mark, b: Block) {
    exists k: nat, stored: Option<Hash>, at: int ::
      m.event <= k < n.event && Own(t, k, DoFind(stored)) && at <= 0 && Was(t, k, Search(b, at), m)
  }

  /** One block: fetched, its parent checked, stored, recorded and published, in this order. */
  ghost predicate TailedBlock(t: Trace, m: Mark, n: Mark, b: Block, j: nat, k: nat, l: nat) {
    && Served(t, m, n, m.cursor, b)
    && (m.last.None? || m.last.value == b.parent || SearchedAll(t, m, n, b))
    && m.event <= j < k < l < n.event
    && Own(t, j, DoPersist) && Was(t, j, Persist(b), m)
    && Own(t, k, DoRecord) && Was(t, k, Record(b), m)
    && Own(t, l, DoPublish) && Was(t, l, Publish(b), m)
    && n.cursor == m.cursor + 1 && n.last == Some(b.hash)
  }

  ghost predicate Tailed(t: Trace, m: Mark, n: Mark) {
    exists b: Block, j: nat, k: nat, l: nat :: TailedBlock(t, m, n, b, j, k, l)
  }

  /** A window as long as it could be: every block fetched, and either all of them or one withheld. */
  ghost predicate WindowServed(t: Trace, m: Mark, n: Mark, end: int, bs: seq<Block>) {
    AllServed(t, m, n, bs) &&
    m.cursor + |bs| <= end + 1 &&
    (m.cursor + |bs| == end + 1 || Withheld(t, m, n, m.cursor + |bs|))
  }

  /** The last height of the window: what the batch asks for, no higher than the finalized head. */
  ghost predicate WindowEnd(t: Trace, m: Mark, n: Mark, end: int) {
    exists k: nat :: m.event <= k < n.event && Own(t, k, DoReadHead) &&
      var ceiling := Latest(t.states[k].chain) - t.cfg.finalityConfirmations;
      m.cursor <= ceiling && end == Min(m.cursor + t.cfg.batchSize - 1, ceiling)
  }

  ghost predicate DrainedWindow(t: Trace, m: Mark, n: Mark, end: int, bs: seq<Block>, j: nat, k: nat) {
    && bs != [] && WindowEnd(t, m, n, end) && WindowServed(t, m, n, end, bs)
    && m.event <= j < k < n.event
    && Own(t, j, DoPersistWindow) && Was(t, j, PersistWindow(bs), m)
    && Own(t, k, DoRecordWindow) && Was(t, k, RecordWindow(bs), m)
    && n.cursor == m.cursor + |bs| && n.last == Some(bs[|bs| - 1].hash)
  }

  ghost predicate Drained(t: Trace, m: Mark, n: Mark) {
    exists end: int, bs: seq<Block>, j: nat, k: nat :: DrainedWindow(t, m, n, end, bs, j, k)
  }

  /** The ancestor's row and the block that the provider serves there are the same; all above is marked. */
  ghost predicate MarkedFrom(t: Trace, m: Mark, n: Mark, b: Block, a: nat, stored: Hash, j: nat, k: nat) {
    && m.event <= j < k < n.event
    && Own(t, j, DoCompare(true)) && Was(t, j, Compare(b, a, stored), m)
    && a < |t.states[j].chain| && t.states[j].chain[a].hash == stored
    && Own(t, k, DoMarkBlocks) && Was(t, k, MarkBlocks(a), m)
  }

  ghost predicate MarkedAbove(t: Trace, m: Mark, n: Mark, b: Block, a: nat) {
    exists stored: Hash, j: nat, k: nat :: MarkedFrom(t, m, n, b, a, stored, j, k)
  }

  /** A disagreeing block, an ancestor below it, and the position just above that, with no hash. */
  ghost predicate RewoundTo(t: Trace, m: Mark, n: Mark, b: Block, a: nat) {
    && Served(t, m, n, m.cursor, b) && m.last.Some? && m.last.value != b.parent
    && MarkedAbove(t, m, n, b, a)
    && n.cursor == a + 1 && n.last == None
  }

  ghost predicate Rewound(t: Trace, m: Mark, n: Mark) {
    exists b: Block, a: nat :: RewoundTo(t, m, n, b, a)
  }

  /** What a turn that goes on has come to. */
  ghost predicate Progressed(t: Trace, m: Mark, n: Mark) {
    Waited(t, m, n) || Tailed(t, m, n) || Drained(t, m, n) || Rewound(t, m, n)
  }

  /** A turn: it threw, with nothing moved, exactly if a call did; otherwise it has come to something. */
  ghost predicate Turned(t: Trace, m: Mark, n: Mark) {
    Between(t, m, n) &&
    if AllWell(t, m.call, n.call) then Progressed(t, m, n) else n.cursor == m.cursor && n.last == m.last
  }

  // ---------------------------------------------------------------- before the loop

  /** The row went in, or was renewed as the worker's own. */
  ghost predicate Granted(t: Trace, m: Mark, n: Mark) {
    (exists k: nat, now: int :: m.event <= k < n.event &&
      Own(t, k, DoInsertLease(now, true, true)) && t.states[k].db.lease.None?) ||
    (exists k: nat, now: int :: m.event <= k < n.event &&
      Own(t, k, DoRenewOnAcquire(now)) && Owns(t.states[k].db, t.id))
  }

  /** An insert of the row met one that was there. */
  ghost predicate Occupied(t: Trace, m: Mark, n: Mark) {
    exists k: nat, now: int, inserted: bool, answered: bool :: m.event <= k < n.event &&
      Own(t, k, DoInsertLease(now, inserted, answered)) && t.states[k].db.lease.Some?
  }

  /** The row of another was not there, or had not expired when the attempt began. */
  ghost predicate NotExpired(t: Trace, m: Mark, n: Mark) {
    exists k: nat, now: int :: m.event <= k < n.event && Own(t, k, DoFindOtherLease) &&
      t.id in t.states[k].workers && t.states[k].workers[t.id].pc == FindOtherLease(now) &&
      (t.states[k].db.lease.None? || t.states[k].db.lease.value.expires >= now)
  }

  /** The worker's own row was gone when it was to be renewed. */
  ghost predicate OwnRowGone(t: Trace, m: Mark, n: Mark) {
    exists k: nat, now: int :: m.event <= k < n.event && Own(t, k, DoRenewOnAcquire(now)) && !Owns(t.states[k].db, t.id)
  }

  ghost predicate DeletedOne(t: Trace, m: Mark, n: Mark) {
    exists k: nat :: m.event <= k < n.event && Own(t, k, DoDeleteLease)
  }

  /** An expired row was deleted so many times. */
  ghost predicate Deleted(t: Trace, m: Mark, n: Mark, ks: seq<nat>) {
    forall i: nat :: i < |ks| ==>
      m.event <= ks[i] < n.event && Own(t, ks[i], DoDeleteLease) && (i > 0 ==> ks[i - 1] < ks[i])
  }

  ghost predicate DeletedTimes(t: Trace, m: Mark, n: Mark, times: nat) {
    exists ks: seq<nat> :: |ks| == times && Deleted(t, m, n, ks)
  }

  /**
   * A row was there at first; later it had not expired, or was the worker's own and gone, or came
   * back again and again.
   */
  ghost predicate GaveUp(t: Trace, m: Mark, n: Mark, retries: nat) {
    Occupied(t, m, n) && (OwnRowGone(t, m, n) || NotExpired(t, m, n) || DeletedTimes(t, m, n, retries + 1))
  }

  // ---------------------------------------------------------------- from the actions to the account

  /** The last event happened in this state of the database and the provider. */
  ghost predicate Then(t: Trace, n: Mark, db: Db, chain: Chain) {
    0 < n.event <= |t.states| && t.states[n.event - 1].db == db && t.states[n.event - 1].chain == chain
  }

  lemma GrantedBy(t: Trace, m: Mark, u: Trace, n: Mark, now: int, pc: Pc, db: Db, chain: Chain)
    requires Then(u, n, db, chain)
    ensures Acted(t, m, u, n, DoInsertLease(now, true, true), pc) && db.lease.None? ==> Granted(u, m, n)
    ensures Acted(t, m, u, n, DoRenewOnAcquire(now), pc) && Owns(db, u.id) ==> Granted(u, m, n)
  {
  }

  lemma OccupiedBy(t: Trace, m: Mark, u: Trace, n: Mark, now: int, inserted: bool, answered: bool, pc: Pc, db: Db,
                   chain: Chain)
    requires Then(u, n, db, chain) && db.lease.Some? && Acted(t, m, u, n, DoInsertLease(now, inserted, answered), pc)
    ensures Occupied(u, m, n)
  {
    assert Own(u, n.event - 1, DoInsertLease(now, inserted, answered));
  }

  lemma OccupiedStays(t: Trace, m: Mark, n: Mark, u: Trace, o: Mark)
    requires Occupied(t, m, n) && Between(t, m, n) && Went(t, n, u, o)
    ensures Occupied(u, m, o)
  {
    var k: nat, now: int, inserted: bool, answered: bool :| m.event <= k < n.event &&
      Own(t, k, DoInsertLease(now, inserted, answered)) && t.states[k].db.lease.Some?;
    assert Own(u, k, DoInsertLease(now, inserted, answered));
  }

  lemma GoneBy(t: Trace, m: Mark, u: Trace, n: Mark, now: int, pc: Pc, db: Db, chain: Chain)
    requires Then(u, n, db, chain) && !Owns(db, u.id)
    ensures Acted(t, m, u, n, DoRenew(now), pc) ==> LeaseGone(u, m, n)
    ensures Acted(t, m, u, n, DoRenewOnAcquire(now), pc) ==> OwnRowGone(u, m, n)
  {
  }

  lemma DeletedBy(t: Trace, m: Mark, u: Trace, n: Mark, pc: Pc)
    requires Acted(t, m, u, n, DoDeleteLease, pc)
    ensures DeletedOne(u, m, n)
  {
  }

  lemma NotExpiredBy(t: Trace, m: Mark, u: Trace, n: Mark, now: int, db: Db, chain: Chain)
    requires Then(u, n, db, chain) && Acted(t, m, u, n, DoFindOtherLease, FindOtherLease(now))
    requires db.lease.None? || db.lease.value.expires >= now
    ensures NotExpired(u, m, n)
  {
    assert Own(u, n.event - 1, DoFindOtherLease);
  }

  /** A fetch, and what it comes to. */
  lemma FetchedBy(t: Trace, m: Mark, u: Trace, n: Mark, a: Act, pc: Pc, answered: bool, h: nat, db: Db, chain: Chain)
    requires Then(u, n, db, chain) && Acted(t, m, u, n, a, pc) && (a == DoFetch(answered) || a == DoFetchNext(answered))
    requires Asks(Worker(pc, m.cursor, m.last)) == h
    ensures answered && h < |chain| ==> Served(u, m, n, h, chain[h])
    ensures answered && h >= |chain| ==> Withheld(u, m, n, h)
    ensures !answered && m.call < n.call && u.fate(m.call).Nothing? ==> Withheld(u, m, n, h)
  {
    assert Fetch(u, n.event - 1, h, answered);
  }

  lemma SeenSince(t: Trace, m: Mark, n: Mark, o: Mark, h: nat)
    requires Between(t, m, n) && Between(t, n, o)
    ensures Withheld(t, n, o, h) ==> Withheld(t, m, o, h)
    ensures forall b: Block :: Served(t, n, o, h, b) ==> Served(t, m, o, h, b)
  {
    forall b: Block | Served(t, n, o, h, b)
      ensures Served(t, m, o, h, b)
    {
      var k: nat :| n.event <= k < o.event && Fetch(t, k, h, true) &&
        h < |t.states[k].chain| && t.states[k].chain[h] == b;
      assert Fetch(t, k, h, true);
    }
  }

  /** Stored, recorded, published: the block is indexed. */
  lemma TailedFrom(t: Trace, n: Mark, t1: Trace, n1: Mark, t2: Trace, n2: Mark, u: Trace, o: Mark, m: Mark, b: Block)
    requires Between(t, m, n) && Acted(t, n, t1, n1, DoPersist, Persist(b))
    requires Acted(t1, n1, t2, n2, DoRecord, Record(b)) && Acted(t2, n2, u, o, DoPublish, Publish(b))
    requires SamePosition(m, n) && SamePosition(m, n1) && SamePosition(m, n2)
    requires Served(t, m, n, m.cursor, b)
    requires m.last.None? || m.last.value == b.parent || SearchedAll(t, m, n, b)
    requires o.cursor == m.cursor + 1 && o.last == Some(b.hash)
    ensures Tailed(u, m, o)
  {
    hide Served, SearchedAll;
    ServedStays(t, u, m, n, o, m.cursor, b);
    if SearchedAll(t, m, n, b) {
      SearchedStays(t, u, m, n, o, b);
    }
    assert TailedBlock(u, m, o, b, n1.event - 1, n2.event - 1, o.event - 1);
  }

  /** Stored and recorded: the window is indexed. */
  lemma DrainedFrom(t: Trace, n: Mark, t1: Trace, n1: Mark, t2: Trace, n2: Mark, u: Trace, o: Mark, m: Mark, end: int,
                    bs: seq<Block>)
    requires Between(t, m, n) && Acted(t, n, t1, n1, DoPersistWindow, PersistWindow(bs))
    requires Acted(t1, n1, t2, n2, DoRecordWindow, RecordWindow(bs)) && Went(t2, n2, u, o)
    requires SamePosition(m, n) && SamePosition(m, n1)
    requires bs != [] && WindowEnd(t, m, n, end) && WindowServed(t, m, n, end, bs)
    requires o.cursor == m.cursor + |bs| && o.last == Some(bs[|bs| - 1].hash)
    ensures Drained(u, m, o)
  {
    hide WindowEnd, WindowServed, HeadBelow;
    HeadStays(t, u, m, n, o);
    WindowStays(t, u, m, n, o, end, bs);
    assert DrainedWindow(u, m, o, end, bs, n1.event - 1, n2.event - 1);
  }

  /** Compared and marked: the range above the ancestor is orphaned. */
  lemma MarkedBy(t: Trace, n: Mark, t1: Trace, n1: Mark, u: Trace, o: Mark, m: Mark, b: Block, a: nat, stored: Hash,
                 db: Db, chain: Chain)
    requires Between(t, m, n) && Acted(t, n, t1, n1, DoCompare(true), Compare(b, a, stored))
    requires Acted(t1, n1, u, o, DoMarkBlocks, MarkBlocks(a)) && SamePosition(m, n) && SamePosition(m, n1)
    requires Then(t1, n1, db, chain) && a < |chain| && chain[a].hash == stored
    ensures MarkedAbove(u, m, o, b, a)
  {
    assert MarkedFrom(u, m, o, b, a, stored, n1.event - 1, o.event - 1);
  }

  lemma SearchedBy(t: Trace, n: Mark, u: Trace, o: Mark, m: Mark, b: Block, stored: Option<Hash>, at: int)
    requires Between(t, m, n) && Acted(t, n, u, o, DoFind(stored), Search(b, at)) && at <= 0 && SamePosition(m, n)
    ensures SearchedAll(u, m, o, b)
  {
    assert Own(u, o.event - 1, DoFind(stored)) && Was(u, o.event - 1, Search(b, at), m);
  }

  /** The head was read: either it is below the cursor, or a window below it may be due. */
  lemma HeadSeen(t: Trace, n: Mark, u: Trace, o: Mark, m: Mark, db: Db, chain: Chain)
    requires Between(t, m, n) && Acted(t, n, u, o, DoReadHead, ReadHead) && SamePosition(m, n) && Then(u, o, db, chain)
    ensures var latest := Latest(chain);
      var ceiling := latest - t.cfg.finalityConfirmations;
      && (latest < m.cursor ==> HeadBelow(u, m, o))
      && (m.cursor <= ceiling ==> WindowEnd(u, m, o, Min(m.cursor + t.cfg.batchSize - 1, ceiling)))
  {
    assert Own(u, o.event - 1, DoReadHead);
  }

  lemma LeaseSince(t: Trace, m: Mark, n: Mark, o: Mark)
    requires Between(t, m, n) && Between(t, n, o)
    ensures Granted(t, n, o) ==> Granted(t, m, o)
    ensures OwnRowGone(t, n, o) ==> OwnRowGone(t, m, o)
    ensures NotExpired(t, n, o) ==> NotExpired(t, m, o)
    ensures DeletedOne(t, n, o) ==> DeletedOne(t, m, o)
  {
  }

  lemma NoneDeleted(t: Trace, m: Mark)
    ensures DeletedTimes(t, m, m, 0)
  {
    assert Deleted(t, m, m, []);
  }

  lemma DeletedStays(t: Trace, m: Mark, n: Mark, u: Trace, o: Mark, times: nat)
    requires DeletedTimes(t, m, n, times) && Went(t, n, u, o)
    ensures DeletedTimes(u, m, o, times)
  {
    var ks: seq<nat> :| |ks| == times && Deleted(t, m, n, ks);
    assert Deleted(u, m, o, ks);
  }

  lemma OneMoreDeleted(t: Trace, m: Mark, n: Mark, u: Trace, o: Mark, times: nat)
    requires DeletedTimes(t, m, n, times) && Went(t, n, u, o) && m.event <= n.event && DeletedOne(u, n, o)
    ensures DeletedTimes(u, m, o, times + 1)
  {
    var ks: seq<nat> :| |ks| == times && Deleted(t, m, n, ks);
    var k: nat :| n.event <= k < o.event && Own(u, k, DoDeleteLease);
    assert Deleted(u, m, o, ks + [k]);
  }

  ghost predicate AllServed(t: Trace, m: Mark, n: Mark, bs: seq<Block>) {
    forall i: nat :: i < |bs| ==> Served(t, m, n, m.cursor + i, bs[i])
  }

  /** An empty window is one whose first height was withheld, or one of no size. */
  lemma EmptyWindow(t: Trace, m: Mark, n: Mark, end: int)
    requires WindowServed(t, m, n, end, []) && SamePosition(m, n)
    requires end >= m.cursor || t.cfg.batchSize == 0
    ensures Waited(t, m, n)
  {
  }

  // ---------------------------------------------------------------- turn after turn

  ghost predicate AllTurned(t: Trace, marks: seq<Mark>) {
    forall i: nat :: i + 1 < |marks| ==> Turned(t, marks[i], marks[i + 1])
  }

  lemma OneMark(t: Trace, m: Mark)
    ensures AllTurned(t, [m])
  {
  }

  lemma StillTurned(t: Trace, u: Trace, marks: seq<Mark>, o: Mark)
    requires AllTurned(t, marks) && marks != [] && Went(t, marks[|marks| - 1], u, o)
    ensures AllTurned(u, marks)
  {
    hide Turned;
    forall i: nat | i + 1 < |marks|
      ensures Turned(u, marks[i], marks[i + 1])
    {
      TurnedStays(t, u, marks[i], marks[i + 1]);
    }
  }

  lemma OneMoreTurned(t: Trace, u: Trace, marks: seq<Mark>, o: Mark)
    requires AllTurned(t, marks) && marks != [] && Went(t, marks[|marks| - 1], u, o) && Turned(u, marks[|marks| - 1], o)
    ensures AllTurned(u, marks + [o])
  {
    hide Turned;
    StillTurned(t, u, marks, o);
    var all := marks + [o];
    forall i: nat | i + 1 < |all|
      ensures Turned(u, all[i], all[i + 1])
    {
      assert i + 1 == |marks| ==> all[i] == marks[|marks| - 1] && all[i + 1] == o;
    }
  }

  /** A call that throws in the last stretch has thrown since the beginning. */
  lemma ThrownSince(t: Trace, from: nat, began: nat, marks: seq<Mark>, o: Mark)
    requires marks != [] && AllTurned(t, marks) && marks[0].call == began && from <= began
    requires Between(t, marks[|marks| - 1], o) && !AllWell(t, marks[|marks| - 1].call, o.call)
    ensures !AllWell(t, from, o.call)
  {
    hide Turned;
    CallsGrow(t, marks, |marks| - 1);
    var last := marks[|marks| - 1].call;
    AllWellMeans(t, from, last);
    AllWellMeans(t, last, o.call);
  }

  lemma {:induction false} CallsGrow(t: Trace, marks: seq<Mark>, i: nat)
    requires AllTurned(t, marks) && i < |marks|
    ensures marks[0].call <= marks[i].call
  {
    if i > 0 {
      CallsGrow(t, marks, i - 1);
      assert Turned(t, marks[i - 1], marks[i - 1 + 1]);
    }
  }

  // ---------------------------------------------------------------- what has been seen stays seen

  lemma AllServedStay(t: Trace, u: Trace, m: Mark, n: Mark, o: Mark, bs: seq<Block>)
    requires Grows(t, u) && Between(t, m, n) && Between(u, n, o) && AllServed(t, m, n, bs)
    ensures AllServed(u, m, o, bs)
  {
    hide Served;
    forall i: nat | i < |bs|
      ensures Served(u, m, o, m.cursor + i, bs[i])
    {
      ServedStays(t, u, m, n, o, m.cursor + i, bs[i]);
    }
  }

  lemma ServedStays(t: Trace, u: Trace, m: Mark, n: Mark, o: Mark, h: nat, b: Block)
    requires Grows(t, u) && Between(t, m, n) && Between(u, n, o) && Served(t, m, n, h, b)
    ensures Served(u, m, o, h, b)
  {
    var k: nat :| m.event <= k < n.event && Fetch(t, k, h, true) &&
      h < |t.states[k].chain| && t.states[k].chain[h] == b;
    assert Fetch(u, k, h, true);
  }

  lemma WithheldStays(t: Trace, u: Trace, m: Mark, n: Mark, o: Mark, h: nat)
    requires Grows(t, u) && Between(t, m, n) && Between(u, n, o) && Withheld(t, m, n, h)
    ensures Withheld(u, m, o, h)
  {
    if k: nat :| m.event <= k < n.event && Fetch(t, k, h, true) && |t.states[k].chain| <= h {
      assert Fetch(u, k, h, true);
    } else {
      var k: nat, c: nat :|
          m.event <= k < n.event && Fetch(t, k, h, false) && m.call <= c < n.call && t.fate(c).Nothing?;
      assert Fetch(u, k, h, false) && u.fate(c).Nothing?;
    }
  }

  lemma HeadStays(t: Trace, u: Trace, m: Mark, n: Mark, o: Mark)
    requires Grows(t, u) && Between(t, m, n) && Between(u, n, o)
    ensures HeadBelow(t, m, n) ==> HeadBelow(u, m, o)
    ensures forall end: int :: WindowEnd(t, m, n, end) ==> WindowEnd(u, m, o, end)
  {
    if HeadBelow(t, m, n) {
      var k: nat :| m.event <= k < n.event && Own(t, k, DoReadHead) && Latest(t.states[k].chain) < m.cursor;
      assert Own(u, k, DoReadHead);
    }
    forall end: int | WindowEnd(t, m, n, end)
      ensures WindowEnd(u, m, o, end)
    {
      var k: nat :| m.event <= k < n.event && Own(t, k, DoReadHead) &&
        var ceiling := Latest(t.states[k].chain) - t.cfg.finalityConfirmations;
        m.cursor <= ceiling && end == Min(m.cursor + t.cfg.batchSize - 1, ceiling);
      assert Own(u, k, DoReadHead);
    }
  }

  lemma WindowStays(t: Trace, u: Trace, m: Mark, n: Mark, o: Mark, end: int, bs: seq<Block>)
    requires Grows(t, u) && Between(t, m, n) && Between(u, n, o) && WindowServed(t, m, n, end, bs)
    ensures WindowServed(u, m, o, end, bs)
  {
    hide AllServed, Withheld;
    AllServedStay(t, u, m, n, o, bs);
    if m.cursor + |bs| != end + 1 {
      WithheldStays(t, u, m, n, o, m.cursor + |bs|);
    }
  }

  lemma SearchedStays(t: Trace, u: Trace, m: Mark, n: Mark, o: Mark, b: Block)
    requires Grows(t, u) && Between(t, m, n) && Between(u, n, o) && SearchedAll(t, m, n, b)
    ensures SearchedAll(u, m, o, b)
  {
    var k: nat, stored: Option<Hash>, at: int :|
      m.event <= k < n.event && Own(t, k, DoFind(stored)) && at <= 0 && Was(t, k, Search(b, at), m);
    assert Own(u, k, DoFind(stored)) && Was(u, k, Search(b, at), m);
  }

  /** An account of a turn is not changed by what happens later. */
  lemma TurnedStays(t: Trace, u: Trace, m: Mark, n: Mark)
    requires Grows(t, u) && |u.events| == |u.states| && Turned(t, m, n)
    ensures Turned(u, m, n)
  {
    hide Served, Withheld, HeadBelow, WindowEnd, WindowServed, SearchedAll, Waited;
    assert Between(u, n, n);
    if AllWell(t, m.call, n.call) {
      HeadStays(t, u, m, n, n);
      if Waited(t, m, n) {
        WaitedStays(t, u, m, n);
      } else if Tailed(t, m, n) {
        TailedStays(t, u, m, n);
      } else if Drained(t, m, n) {
        DrainedStays(t, u, m, n);
      } else {
        RewoundStays(t, u, m, n);
      }
    }
  }

  lemma WaitedStays(t: Trace, u: Trace, m: Mark, n: Mark)
    requires Grows(t, u) && |u.events| == |u.states| && Between(t, m, n) && Waited(t, m, n)
    ensures Waited(u, m, n)
  {
    hide Withheld, HeadBelow, WindowEnd;
    HeadStays(t, u, m, n, n);
    if Withheld(t, m, n, m.cursor) {
      WithheldStays(t, u, m, n, n, m.cursor);
    }
  }

  lemma TailedStays(t: Trace, u: Trace, m: Mark, n: Mark)
    requires Grows(t, u) && |u.events| == |u.states| && Between(t, m, n) && Tailed(t, m, n)
    ensures Tailed(u, m, n)
  {
    hide Served, SearchedAll;
    var b: Block, j: nat, k: nat, l: nat :| TailedBlock(t, m, n, b, j, k, l);
    ServedStays(t, u, m, n, n, m.cursor, b);
    if SearchedAll(t, m, n, b) {
      SearchedStays(t, u, m, n, n, b);
    }
    assert TailedBlock(u, m, n, b, j, k, l);
  }

  lemma DrainedStays(t: Trace, u: Trace, m: Mark, n: Mark)
    requires Grows(t, u) && |u.events| == |u.states| && Between(t, m, n) && Drained(t, m, n)
    ensures Drained(u, m, n)
  {
    hide WindowServed, WindowEnd, HeadBelow;
    var end: int, bs: seq<Block>, j: nat, k: nat :| DrainedWindow(t, m, n, end, bs, j, k);
    HeadStays(t, u, m, n, n);
    WindowStays(t, u, m, n, n, end, bs);
    assert DrainedWindow(u, m, n, end, bs, j, k);
  }

  lemma RewoundStays(t: Trace, u: Trace, m: Mark, n: Mark)
    requires Grows(t, u) && |u.events| == |u.states| && Between(t, m, n) && Rewound(t, m, n)
    ensures Rewound(u, m, n)
  {
    hide Served, MarkedAbove;
    var b: Block, a: nat :| RewoundTo(t, m, n, b, a);
    ServedStays(t, u, m, n, n, m.cursor, b);
    MarkedStays(t, u, m, n, n, b, a);
    assert RewoundTo(u, m, n, b, a);
  }

  lemma MarkedStays(t: Trace, u: Trace, m: Mark, n: Mark, o: Mark, b: Block, a: nat)
    requires Grows(t, u) && Between(t, m, n) && Between(u, n, o) && MarkedAbove(t, m, n, b, a)
    ensures MarkedAbove(u, m, o, b, a)
  {
    var stored: Hash, j: nat, k: nat :| MarkedFrom(t, m, n, b, a, stored, j, k);
    assert MarkedFrom(u, m, o, b, a, stored, j, k);
  }
}
