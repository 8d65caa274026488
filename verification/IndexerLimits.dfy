/**
 * Why the chain theorem speaks of unchecked fetches: a run in which a crash during
 * recovery meets the backlog tier leaves a height that no canonical row will fill,
 * although the checkpoint has passed it and its coverage promise still holds; and a run
 * in which a live lease is deleted and two loops overlap.
 */
module IndexerLimits {
  import opened Prelude
  import opened IndexerModel
  import IndexerChain
  import IndexerGuards
  import IndexerLease

  const ME: WorkerId := 1
  const CONFIG := Config(1, 10, 2, 1, 10)
  const LEASE := Some(Lease(ME, 10))

  const SHORT: Chain := [Block(100, 0), Block(101, 100)]
  const OLD: Chain := [Block(100, 0), Block(101, 100), Block(102, 101)]
  const FORK: Chain := [Block(100, 0), Block(101, 100), Block(202, 101), Block(203, 202)]
  const LATER: Chain :=
      [Block(100, 0), Block(101, 100), Block(202, 101), Block(203, 202), Block(204, 203), Block(205, 204)]

  const NO_ROWS: Table := map[]
  const ONE_ROW: Table := map[(1, 101) := Row(100, Pending, true)]
  const TWO_ROWS: Table := map[(1, 101) := Row(100, Pending, true), (2, 102) := Row(101, Pending, true)]
  const MARKED: Table := map[(1, 101) := Row(100, Pending, true), (2, 102) := Row(101, Orphaned, false)]
  const SKIPPED: Table :=
    map[(1, 101) := Row(100, Pending, true), (2, 102) := Row(101, Orphaned, false),
        (3, 203) := Row(202, Finalized, true)]

  function State(rows: Table, cp: Option<Checkpoint>, lease: Option<Lease>, chain: Chain,
                 pc: Pc, cursor: nat, last: Option<Hash>): Sys {
    Sys(Db(rows, cp, lease), chain, map[ME := Worker(pc, cursor, last)])
  }

  const BEFORE := State(NO_ROWS, None, None, SHORT, Stopped, 0, None)

  /** One more event on a run, to a known state. */
  lemma Go(events: seq<Event>, t: Sys, e: Event, t': Sys) returns (events': seq<Event>)
    requires Run(CONFIG, BEFORE, events) == Some(t) && Next(CONFIG, t, e) == Some(t')
    ensures Run(CONFIG, BEFORE, events') == Some(t')
  {
    events' := events + [e];
    assert events'[..|events'| - 1] == events;
  }

  lemma Does1(events: seq<Event>, rows: Table, cp: Option<Checkpoint>, lease: Option<Lease>, chain: Chain,
              pc: Pc, cursor: nat, last: Option<Hash>, a: Act, db': Db, w': Worker) returns (events': seq<Event>)
    requires Run(CONFIG, BEFORE, events) == Some(State(rows, cp, lease, chain, pc, cursor, last))
    requires Step(CONFIG, Db(rows, cp, lease), chain, ME, Worker(pc, cursor, last), a) == Some(Outcome(db', w'))
    ensures Run(CONFIG, BEFORE, events')
            == Some(State(db'.rows, db'.checkpoint, db'.lease, chain, w'.pc, w'.cursor, w'.last))
  {
    hide Run, Step;
    assert map[ME := Worker(pc, cursor, last)][ME := w'] == map[ME := w'];
    events' := Go(events, State(rows, cp, lease, chain, pc, cursor, last), Does(ME, a),
                  State(db'.rows, db'.checkpoint, db'.lease, chain, w'.pc, w'.cursor, w'.last));
  }

  /** A turn of the tail up to the fetch; `pc` is what the fetched block leads to. */
  lemma FetchTail(events: seq<Event>, rows: Table, cp: Option<Checkpoint>, chain: Chain, n: nat, last: Option<Hash>,
                  pc: Pc)
    returns (events': seq<Event>)
    requires Run(CONFIG, BEFORE, events) == Some(State(rows, cp, LEASE, chain, LoopTop, n, last))
    requires |chain| == n + 1
    requires pc == if last.None? || last.value == chain[n].parent then Persist(chain[n]) else Search(chain[n], n - 1)
    ensures Run(CONFIG, BEFORE, events') == Some(State(rows, cp, LEASE, chain, pc, n, last))
  {
    hide Run, State;
    events' := Does1(events, rows, cp, LEASE, chain, LoopTop, n, last, DoRenew(0), Db(rows, cp, LEASE),
                     Worker(ReadHead, n, last));
    events' := Does1(events', rows, cp, LEASE, chain, ReadHead, n, last, DoReadHead, Db(rows, cp, LEASE),
                     Worker(Tail, n, last));
    events' := Does1(events', rows, cp, LEASE, chain, Tail, n, last, DoFetch(true), Db(rows, cp, LEASE),
                     Worker(pc, n, last));
  }

  lemma StoreTail(events: seq<Event>, rows: Table, cp: Option<Checkpoint>, chain: Chain, n: nat, last: Option<Hash>,
                  b: Block, rows': Table, cp': Option<Checkpoint>)
    returns (events': seq<Event>)
    requires Run(CONFIG, BEFORE, events) == Some(State(rows, cp, LEASE, chain, Persist(b), n, last))
    requires |chain| == n + 1 && rows' == Insert(rows, n, b, Pending) && cp' == Some(Checkpoint(n + 1, Some(b.hash)))
    ensures Run(CONFIG, BEFORE, events') == Some(State(rows', cp', LEASE, chain, LoopTop, n + 1, Some(b.hash)))
  {
    hide Run, State;
    events' := Does1(events, rows, cp, LEASE, chain, Persist(b), n, last, DoPersist, Db(rows', cp, LEASE),
                     Worker(Record(b), n, last));
    events' := Does1(events', rows', cp, LEASE, chain, Record(b), n, last, DoRecord, Db(rows', cp', LEASE),
                     Worker(Publish(b), n, last));
    events' := Does1(events', rows', cp', LEASE, chain, Publish(b), n, last, DoPublish,
                     Db(rows', cp', LEASE), Worker(LoopTop, n + 1, Some(b.hash)));
  }

  lemma Boot() returns (events: seq<Event>)
    ensures Run(CONFIG, BEFORE, events)
            == Some(State(NO_ROWS, Some(Checkpoint(1, None)), LEASE, SHORT, LoopTop, 1, None))
  {
    events := Does1([], NO_ROWS, None, None, SHORT, Stopped, 0, None, DoInsertLease(0, true, true),
                    Db(NO_ROWS, None, LEASE), Worker(ReadCheckpoint, 0, None));
    events := Does1(events, NO_ROWS, None, LEASE, SHORT, ReadCheckpoint, 0, None, DoReadCheckpoint,
                    Db(NO_ROWS, None, LEASE), Worker(CreateCheckpoint, 0, None));
    events := Does1(events, NO_ROWS, None, LEASE, SHORT, CreateCheckpoint, 0, None, DoCreateCheckpoint,
                    Db(NO_ROWS, Some(Checkpoint(1, None)), LEASE), Worker(LoopTop, 1, None));
  }

  /** Blocks 1 and 2 are indexed, then the chain forks below height 2. */
  lemma IndexTwo() returns (events: seq<Event>)
    ensures Run(CONFIG, BEFORE, events) == Some(State(TWO_ROWS, CP3, LEASE, FORK, LoopTop, 3, Some(102)))
  {
    hide Run, Step;
    var cp1, cp2 := Some(Checkpoint(1, None)), Some(Checkpoint(2, Some(101)));
    events := Boot();
    events := FetchTail(events, NO_ROWS, cp1, SHORT, 1, None, Persist(SHORT[1]));
    events := StoreTail(events, NO_ROWS, cp1, SHORT, 1, None, SHORT[1], ONE_ROW, cp2);
    events := Go(events, State(ONE_ROW, cp2, LEASE, SHORT, LoopTop, 2, Some(101)), Serves(OLD),
                 State(ONE_ROW, cp2, LEASE, OLD, LoopTop, 2, Some(101)));
    events := FetchTail(events, ONE_ROW, cp2, OLD, 2, Some(101), Persist(OLD[2]));
    events := StoreTail(events, ONE_ROW, cp2, OLD, 2, Some(101), OLD[2], TWO_ROWS, CP3);
    events := Go(events, State(TWO_ROWS, CP3, LEASE, OLD, LoopTop, 3, Some(102)), Serves(FORK),
                 State(TWO_ROWS, CP3, LEASE, FORK, LoopTop, 3, Some(102)));
  }

  const CP3 := Some(Checkpoint(3, Some(102 as Hash)))

  /** One height of the search: the stored row, then the provider's block. */
  lemma LookAt(events: seq<Event>, b: Block, at: nat, stored: Hash, next: Pc) returns (events': seq<Event>)
    requires Run(CONFIG, BEFORE, events) == Some(State(TWO_ROWS, CP3, LEASE, FORK, Search(b, at), 3, Some(102)))
    requires 0 < at < 3 && Canonical(TWO_ROWS, at, stored)
    requires next == if stored == FORK[at].hash then MarkBlocks(at) else Search(b, at - 1)
    ensures Run(CONFIG, BEFORE, events') == Some(State(TWO_ROWS, CP3, LEASE, FORK, next, 3, Some(102)))
  {
    hide Run, State;
    var last, db := Some(102), Db(TWO_ROWS, CP3, LEASE);
    events' := Does1(events, TWO_ROWS, CP3, LEASE, FORK, Search(b, at), 3, last, DoFind(Some(stored)), db,
                     Worker(Compare(b, at, stored), 3, last));
    events' := Does1(events', TWO_ROWS, CP3, LEASE, FORK, Compare(b, at, stored), 3, last, DoCompare(true), db,
                     Worker(next, 3, last));
  }

  /** The fork is detected: height 2 differs, height 1 is the common ancestor. */
  lemma FindAncestor() returns (events: seq<Event>)
    ensures Run(CONFIG, BEFORE, events) == Some(State(TWO_ROWS, CP3, LEASE, FORK, MarkBlocks(1), 3, Some(102)))
  {
    hide Run, State;
    var last, b := Some(102), FORK[3];
    events := IndexTwo();
    events := FetchTail(events, TWO_ROWS, CP3, FORK, 3, last, Search(b, 2));
    events := LookAt(events, b, 2, 102, Search(b, 1));
    events := LookAt(events, b, 1, 101, MarkBlocks(1));
  }

  /** Height 2 is marked; then the process dies and the provider runs ahead. */
  lemma CrashInRecovery() returns (events: seq<Event>)
    ensures Run(CONFIG, BEFORE, events) == Some(State(MARKED, CP3, LEASE, LATER, Stopped, 3, Some(102)))
  {
    hide Run;
    var last, db := Some(102), Db(MARKED, CP3, LEASE);
    events := FindAncestor();
    assert MarkOrphaned(TWO_ROWS, 2, 2) == MARKED;
    events := Does1(events, TWO_ROWS, CP3, LEASE, FORK, MarkBlocks(1), 3, last, DoMarkBlocks, db,
                    Worker(FinishReorg(1), 3, last));
    events := Does1(events, MARKED, CP3, LEASE, FORK, FinishReorg(1), 3, last, Crash, db, Worker(Stopped, 3, last));
    events := Go(events, State(MARKED, CP3, LEASE, FORK, Stopped, 3, last), Serves(LATER),
                 State(MARKED, CP3, LEASE, LATER, Stopped, 3, last));
  }

  /** The restarted process resumes at the un-rewound checkpoint. */
  lemma Restart() returns (events: seq<Event>)
    ensures Run(CONFIG, BEFORE, events) == Some(State(MARKED, CP3, LEASE, LATER, LoopTop, 3, Some(102)))
  {
    hide Run, State;
    var last, db := Some(102), Db(MARKED, CP3, LEASE);
    events := CrashInRecovery();
    events := Does1(events, MARKED, CP3, LEASE, LATER, Stopped, 3, last, DoInsertLease(0, true, true), db,
                    Worker(FindOwnLease(0), 3, last));
    events := Does1(events, MARKED, CP3, LEASE, LATER, FindOwnLease(0), 3, last, DoFindOwnLease, db,
                    Worker(RenewOnAcquire, 3, last));
    events := Does1(events, MARKED, CP3, LEASE, LATER, RenewOnAcquire, 3, last, DoRenewOnAcquire(0), db,
                    Worker(ReadCheckpoint, 3, last));
    events := Does1(events, MARKED, CP3, LEASE, LATER, ReadCheckpoint, 3, last, DoReadCheckpoint, db,
                    Worker(LoopTop, 3, last));
  }

  /** A backlog lies ahead, so the next block comes in a window, which checks no parent. */
  lemma FetchBacklog() returns (events: seq<Event>)
    ensures Run(CONFIG, BEFORE, events)
            == Some(State(MARKED, CP3, LEASE, LATER, PersistWindow([LATER[3]]), 3, Some(102)))
  {
    hide Run, State;
    var last, b, db := Some(102), LATER[3], Db(MARKED, CP3, LEASE);
    events := Restart();
    events := Does1(events, MARKED, CP3, LEASE, LATER, LoopTop, 3, last, DoRenew(0), db, Worker(ReadHead, 3, last));
    events := Does1(events, MARKED, CP3, LEASE, LATER, ReadHead, 3, last, DoReadHead, db,
                    Worker(Drain(3, []), 3, last));
    assert [] + [b] == [b];
    events := Does1(events, MARKED, CP3, LEASE, LATER, Drain(3, []), 3, last, DoFetchNext(true), db,
                    Worker(Drain(3, [b]), 3, last));
    events := Does1(events, MARKED, CP3, LEASE, LATER, Drain(3, [b]), 3, last, DoFetchNext(true), db,
                    Worker(PersistWindow([b]), 3, last));
  }

  lemma ChainHasNoHole(rows: Table, start: nat, low: nat, hole: nat, high: nat)
    requires low < hole < high && HasCanonical(rows, low) && HasCanonical(rows, high)
    requires IndexerChain.OneChain(rows, start)
    ensures HasCanonical(rows, hole)
  {
    var c: seq<Block> :| IndexerChain.TableIs(rows, start, c);
    var x: Hash :| Canonical(rows, low, x);
    var y: Hash :| Canonical(rows, high, y);
    assert IndexerChain.OnChain(start, c, low, x) && IndexerChain.OnChain(start, c, high, y);
    assert Canonical(rows, hole, c[hole - start].hash);
  }

  lemma StoreBacklog() returns (events: seq<Event>)
    ensures Run(CONFIG, BEFORE, events)
            == Some(State(SKIPPED, Some(Checkpoint(4, Some(203))), LEASE, LATER, LoopTop, 4, Some(203)))
  {
    hide Run, State;
    var cp', last, b := Some(Checkpoint(4, Some(203))), Some(102), LATER[3];
    events := FetchBacklog();
    assert InsertWindow(MARKED, 3, [b]) == SKIPPED;
    events := Does1(events, MARKED, CP3, LEASE, LATER, PersistWindow([b]), 3, last, DoPersistWindow,
                    Db(SKIPPED, CP3, LEASE), Worker(RecordWindow([b]), 3, last));
    events := Does1(events, SKIPPED, CP3, LEASE, LATER, RecordWindow([b]), 3, last, DoRecordWindow,
                    Db(SKIPPED, cp', LEASE), Worker(AdoptWindow([b]), 3, last));
    events := Does1(events, SKIPPED, cp', LEASE, LATER, AdoptWindow([b]), 3, last, DoAdoptWindow,
                    Db(SKIPPED, cp', LEASE), Worker(LoopTop, 4, Some(203)));
  }

  /**
   * The window is stored and recorded, and height 2 is passed with only an orphaned row:
   * without the assumption on unchecked fetches, chain safety is false.
   */
  lemma BacklogSkipsOrphanedHeight() returns (events: seq<Event>)
    ensures Initial(BEFORE) && Run(CONFIG, BEFORE, events).Some?
    ensures var db := Run(CONFIG, BEFORE, events).value.db;
            db.checkpoint == Some(Checkpoint(4, Some(203))) &&
            HasCanonical(db.rows, 1) && HasRow(db.rows, 2) && !HasCanonical(db.rows, 2) && HasCanonical(db.rows, 3) &&
            !IndexerChain.OneChain(db.rows, CONFIG.start)
    ensures !IndexerGuards.GuardedRun(CONFIG, BEFORE, events)
  {
    hide Run, IndexerGuards.GuardedRun, IndexerChain.OneChain;
    events := StoreBacklog();
    assert Canonical(SKIPPED, 1, 101) && (2, 102) in SKIPPED && Canonical(SKIPPED, 3, 203);
    if IndexerChain.OneChain(SKIPPED, CONFIG.start) {
      ChainHasNoHole(SKIPPED, CONFIG.start, 1, 2, 3);
    }
    EndsOffChain(events);
  }

  /** So some write of the run misses its guard. */
  lemma EndsOffChain(events: seq<Event>)
    requires Run(CONFIG, BEFORE, events).Some?
    requires !IndexerChain.OneChain(Run(CONFIG, BEFORE, events).value.db.rows, CONFIG.start)
    ensures !IndexerGuards.GuardedRun(CONFIG, BEFORE, events)
  {
    hide IndexerGuards.GuardedRun, Run;
    IndexerGuards.NothingStored(CONFIG.start);
    IndexerGuards.AlwaysOneChainIffGuarded(CONFIG, BEFORE, events);
  }

  // ---------------------------------------------------------------- two standbys

  const DEAD: WorkerId := 9
  const A: WorkerId := 1
  const B: WorkerId := 2
  const IDLE := Worker(Stopped, 0, None)
  const FIRST := Some(Checkpoint(1, None))

  /** Two standbys, nothing indexed yet. */
  function Standby(cp: Option<Checkpoint>, lease: Option<Lease>, a: Worker, b: Worker): Sys {
    Sys(Db(map[], cp, lease), [], map[A := a, B := b])
  }

  function Waits(pc: Pc): Worker { Worker(pc, 0, None) }

  function Runs(pc: Pc): Worker { Worker(pc, 1, None) }

  /** The lease row of a dead worker, expired at time 0. */
  const EXPIRED := Standby(None, Some(Lease(DEAD, 0)), IDLE, IDLE)

  lemma ActA(events: seq<Event>, cp: Option<Checkpoint>, lease: Option<Lease>, a: Worker, b: Worker,
             act: Act, cp': Option<Checkpoint>, lease': Option<Lease>, a': Worker)
    returns (events': seq<Event>)
    requires Run(CONFIG, EXPIRED, events) == Some(Standby(cp, lease, a, b))
    requires Step(CONFIG, Db(map[], cp, lease), [], A, a, act) == Some(Outcome(Db(map[], cp', lease'), a'))
    ensures Run(CONFIG, EXPIRED, events') == Some(Standby(cp', lease', a', b))
  {
    hide Step;
    events' := events + [Does(A, act)];
    assert events'[..|events'| - 1] == events;
    assert map[A := a, B := b][A := a'] == map[A := a', B := b];
  }

  lemma ActB(events: seq<Event>, cp: Option<Checkpoint>, lease: Option<Lease>, a: Worker, b: Worker,
             act: Act, cp': Option<Checkpoint>, lease': Option<Lease>, b': Worker)
    returns (events': seq<Event>)
    requires Run(CONFIG, EXPIRED, events) == Some(Standby(cp, lease, a, b))
    requires Step(CONFIG, Db(map[], cp, lease), [], B, b, act) == Some(Outcome(Db(map[], cp', lease'), b'))
    ensures Run(CONFIG, EXPIRED, events') == Some(Standby(cp', lease', a, b'))
  {
    hide Step;
    events' := events + [Does(B, act)];
    assert events'[..|events'| - 1] == events;
    assert map[A := a, B := b][B := b'] == map[A := a, B := b'];
  }

  lemma NothingRun()
    ensures Run(CONFIG, EXPIRED, []) == Some(EXPIRED)
  {
  }

  /** Both see the expired row and are about to delete it. */
  lemma BothSeeExpired() returns (events: seq<Event>)
    ensures Run(CONFIG, EXPIRED, events)
            == Some(Standby(None, Some(Lease(DEAD, 0)), Waits(DeleteLease), Waits(DeleteLease)))
  {
    hide Run, Standby;
    NothingRun();
    var gone := Some(Lease(DEAD, 0));
    events := ActA([], None, gone, IDLE, IDLE, DoInsertLease(5, true, true), None, gone, Waits(FindOwnLease(5)));
    events := ActA(events, None, gone, Waits(FindOwnLease(5)), IDLE, DoFindOwnLease, None, gone,
                   Waits(FindOtherLease(5)));
    events := ActA(events, None, gone, Waits(FindOtherLease(5)), IDLE, DoFindOtherLease, None, gone,
                   Waits(DeleteLease));
    var a := Waits(DeleteLease);
    events := ActB(events, None, gone, a, IDLE, DoInsertLease(5, true, true), None, gone, Waits(FindOwnLease(5)));
    events := ActB(events, None, gone, a, Waits(FindOwnLease(5)), DoFindOwnLease, None, gone, Waits(FindOtherLease(5)));
    events := ActB(events, None, gone, a, Waits(FindOtherLease(5)), DoFindOtherLease, None, gone, Waits(DeleteLease));
  }

  /** The faster one deletes it, takes the lease, enters its loop and passes its lease check. */
  lemma FasterRuns() returns (events: seq<Event>)
    ensures Run(CONFIG, EXPIRED, events) == Some(Standby(FIRST, Some(Lease(A, 16)), Runs(ReadHead), Waits(DeleteLease)))
  {
    hide Run, Standby;
    var gone, mine, b := Some(Lease(DEAD, 0)), Some(Lease(A, 15)), Waits(DeleteLease);
    events := BothSeeExpired();
    events := ActA(events, None, gone, Waits(DeleteLease), b, DoDeleteLease, None, None, Waits(InsertLease));
    events := ActA(events, None, None, Waits(InsertLease), b, DoInsertLease(5, true, true), None, mine,
                   Waits(ReadCheckpoint));
    events := ActA(events, None, mine, Waits(ReadCheckpoint), b, DoReadCheckpoint, None, mine, Waits(CreateCheckpoint));
    events := ActA(events, None, mine, Waits(CreateCheckpoint), b, DoCreateCheckpoint, FIRST, mine, Runs(LoopTop));
    events := ActA(events, FIRST, mine, Runs(LoopTop), b, DoRenew(6), FIRST, Some(Lease(A, 16)), Runs(ReadHead));
  }

  /**
   * The delete names no owner and no expiry: the slower of two standbys removes the row that the
   * faster one has just renewed, far from expiring, and both are in the loop, past their lease
   * check. The faster one stops only at its next renewal.
   */
  lemma LateDeleteTakesLiveLease() returns (events: seq<Event>)
    ensures Run(CONFIG, EXPIRED, events) == Some(Standby(FIRST, Some(Lease(B, 18)), Runs(ReadHead), Runs(ReadHead)))
    ensures !IndexerChain.OneLoop(Run(CONFIG, EXPIRED, events).value)
    ensures !IndexerLease.Undisplaced(CONFIG, EXPIRED, events)
  {
    hide Run, IndexerLease.Undisplaced;
    events := SlowerRuns();
    var t := Run(CONFIG, EXPIRED, events).value;
    assert A in t.workers && B in t.workers && InLoop(t.workers[A].pc) && InLoop(t.workers[B].pc);
    TwoLoopsMeanDisplaced(events);
  }

  lemma SlowerRuns() returns (events: seq<Event>)
    ensures Run(CONFIG, EXPIRED, events) == Some(Standby(FIRST, Some(Lease(B, 18)), Runs(ReadHead), Runs(ReadHead)))
  {
    hide Run, Standby;
    var a, theirs := Runs(ReadHead), Some(Lease(B, 17));
    events := FasterRuns();
    events := ActB(events, FIRST, Some(Lease(A, 16)), a, Waits(DeleteLease), DoDeleteLease, FIRST, None,
                   Waits(InsertLease));
    events := ActB(events, FIRST, None, a, Waits(InsertLease), DoInsertLease(7, true, true), FIRST, theirs,
                   Waits(ReadCheckpoint));
    events := ActB(events, FIRST, theirs, a, Waits(ReadCheckpoint), DoReadCheckpoint, FIRST, theirs, Runs(LoopTop));
    events := ActB(events, FIRST, theirs, a, Runs(LoopTop), DoRenew(8), FIRST, Some(Lease(B, 18)), Runs(ReadHead));
  }

  lemma TwoLoopsMeanDisplaced(events: seq<Event>)
    requires Run(CONFIG, EXPIRED, events).Some? && !IndexerChain.OneLoop(Run(CONFIG, EXPIRED, events).value)
    ensures !IndexerLease.Undisplaced(CONFIG, EXPIRED, events)
  {
    hide Run, IndexerChain.OneLoop, IndexerLease.Undisplaced;
    assert IndexerLease.HoldersOwn(EXPIRED);
    if IndexerLease.Undisplaced(CONFIG, EXPIRED, events) {
      IndexerLease.LoopsDoNotOverlap(CONFIG, EXPIRED, events);
      NotNow(events);
    }
  }

  lemma NotNow(events: seq<Event>)
    requires Run(CONFIG, EXPIRED, events).Some? && IndexerChain.NeverTwoLoops(CONFIG, EXPIRED, events)
    ensures IndexerChain.OneLoop(Run(CONFIG, EXPIRED, events).value)
  {
  }
}
