/**
 * The live block indexer as a step machine. Every database or RPC call of
 * `runLiveMode`, `drainFinalizedBacklog`, `detectReorg`, `handleReorg`,
 * `acquireLease` and `renewLease` is one atomic action of one worker; anything
 * may happen between two actions: other workers, a fork of the remote chain,
 * an error that sends the loop back to its top, or a crash.
 */
module IndexerModel {
  import opened Prelude
  import opened Arithmetic

  /** Hashes are only ever compared. */
  type Hash = nat

  type WorkerId = nat

  datatype Block = Block(hash: Hash, parent: Hash)

  datatype Finality = Pending | SoftConfirmed | Safe | Finalized | Orphaned

  datatype Row = Row(parent: Hash, finality: Finality, canonical: bool)

  /** The blocks table, by its primary key without the chain id: height and hash. */
  type Table = map<(nat, Hash), Row>

  datatype Checkpoint = Checkpoint(next: nat, last: Option<Hash>)

  datatype Lease = Lease(owner: WorkerId, expires: int)

  datatype Db = Db(rows: Table, checkpoint: Option<Checkpoint>, lease: Option<Lease>)

  datatype Config = Config(
    start: nat,
    batchSize: nat,
    finalityConfirmations: nat,
    safeConfirmations: nat,
    leaseDuration: int)

  /** The remote chain: index is height. */
  type Chain = seq<Block>

  // ---------------------------------------------------------------- the blocks table

  predicate Canonical(rows: Table, height: nat, hash: Hash) {
    (height, hash) in rows && rows[(height, hash)].canonical
  }

  predicate OrphanedRow(rows: Table, height: nat, hash: Hash) {
    (height, hash) in rows && !rows[(height, hash)].canonical
  }

  ghost predicate HasRow(rows: Table, height: nat) {
    exists hash: Hash :: (height, hash) in rows
  }

  ghost predicate HasCanonical(rows: Table, height: nat) {
    exists hash: Hash :: Canonical(rows, height, hash)
  }

  /** Insert with `onConflictDoNothing`: an existing row, orphaned or not, is left alone. */
  function Insert(rows: Table, height: nat, b: Block, finality: Finality): Table {
    if (height, b.hash) in rows then rows
    else rows[(height, b.hash) := Row(b.parent, finality, true)]
  }

  /** A window is written as one transaction of such inserts. */
  function InsertWindow(rows: Table, height: nat, bs: seq<Block>): Table
    decreases |bs|
  {
    if bs == [] then rows
    else InsertWindow(Insert(rows, height, bs[0], Finalized), height + 1, bs[1..])
  }

  /** The range update of `markBlocksOrphaned`, both ends included. */
  function MarkOrphaned(rows: Table, from: int, to: int): Table {
    map k | k in rows ::
      if from <= k.0 <= to && rows[k].canonical then Row(rows[k].parent, Orphaned, false) else rows[k]
  }

  function FinalityAt(cfg: Config, latest: int, height: nat): Finality {
    var confirmations := latest - height;
    if confirmations >= cfg.finalityConfirmations then Finalized
    else if confirmations >= cfg.safeConfirmations then Safe
    else if confirmations > 0 then SoftConfirmed
    else Pending
  }

  // ---------------------------------------------------------------- one worker

  /** Where a worker is: what it will do next, with the values it holds in local variables. */
  datatype Pc =
    | Stopped                                 // no process, or the process has thrown
    | InsertLease                             // acquireLease, after deleting an expired row
    | FindOwnLease(now: int)
    | RenewOnAcquire
    | FindOtherLease(now: int)
    | DeleteLease
    | ReadCheckpoint                          // lease held, loop not yet entered
    | CreateCheckpoint
    | LoopTop
    | ReadHead
    | Drain(end: nat, got: seq<Block>)        // fetching a finalized window, `got` so far
    | PersistWindow(blocks: seq<Block>)
    | RecordWindow(blocks: seq<Block>)
    | AdoptWindow(blocks: seq<Block>)         // checkpoint written, the local variables not yet
    | Tail
    | Search(fetched: Block, at: int)         // findCommonAncestor, about to look at `at`
    | Compare(fetched: Block, at: int, stored: Hash)
    | MarkBlocks(ancestor: nat)
    | FinishReorg(ancestor: nat)
    | Persist(block: Block)
    | Record(block: Block)
    | Publish(block: Block)

  datatype Worker = Worker(pc: Pc, cursor: nat, last: Option<Hash>)

  /** The actions, each carrying the answers it may nondeterministically get. */
  datatype Act =
    | DoInsertLease(now: int, inserted: bool, answered: bool)
    | DoFindOwnLease
    | DoRenewOnAcquire(now: int)
    | DoFindOtherLease
    | DoDeleteLease
    | DoReadCheckpoint
    | DoCreateCheckpoint
    | DoRenew(now: int)
    | DoReadHead
    | DoFetchNext(answered: bool)
    | DoPersistWindow
    | DoRecordWindow
    | DoAdoptWindow
    | DoFetch(answered: bool)
    | DoFind(stored: Option<Hash>)
    | DoCompare(answered: bool)
    | DoMarkBlocks
    | DoFinishReorg
    | DoPersist
    | DoRecord
    | DoPublish
    | Fail                                    // an error caught by the loop
    | Release                                 // the loop ends and the lease row is deleted
    | Stop                                    // stop(): the row goes while the loop is where it is
    | Crash

  predicate InLoop(pc: Pc) {
    pc.LoopTop? || pc.ReadHead? || pc.Drain? || pc.PersistWindow? || pc.RecordWindow? || pc.AdoptWindow? || pc.Tail? ||
    pc.Search? || pc.Compare? || pc.MarkBlocks? || pc.FinishReorg? || pc.Persist? || pc.Record? || pc.Publish?
  }

  predicate Owns(db: Db, id: WorkerId) {
    db.lease.Some? && db.lease.value.owner == id
  }

  /** The single-row answer `findFirst` may give for the canonical rows at a height. */
  ghost predicate MayFind(rows: Table, height: int, stored: Option<Hash>) {
    if stored.Some? then height >= 0 && Canonical(rows, height, stored.value)
    else height >= 0 ==> !HasCanonical(rows, height)
  }

  function Latest(chain: Chain): int { |chain| - 1 }

  /** A step's outcome: the database afterwards and the worker afterwards. */
  datatype Outcome = Outcome(db: Db, w: Worker)

  /** One action of worker `id`; None when the worker is not at a place where it can take it. */
  ghost function Step(cfg: Config, db: Db, chain: Chain, id: WorkerId, w: Worker, a: Act): Option<Outcome> {
    match a
    case Crash => Some(Outcome(db, w.(pc := Stopped)))
    case Fail => if InLoop(w.pc) then Some(Outcome(db, w.(pc := LoopTop))) else None
    case Release =>
      if w.pc.LoopTop? then
        Some(Outcome(if Owns(db, id) then db.(lease := None) else db, w.(pc := Stopped)))
      else None
    case Stop =>
      if w.pc.Stopped? then None
      else Some(Outcome(if Owns(db, id) then db.(lease := None) else db, w))
    case DoInsertLease(now, inserted, answered) =>
      // any error leads to the catch, whether or not the row went in
      if !(w.pc.Stopped? || w.pc.InsertLease?) then None
      else if db.lease.None? && inserted then
        Some(Outcome(db.(lease := Some(Lease(id, now + cfg.leaseDuration))),
                     w.(pc := if answered then ReadCheckpoint else FindOwnLease(now))))
      else Some(Outcome(db, w.(pc := FindOwnLease(now))))
    case DoFindOwnLease =>
      if !w.pc.FindOwnLease? then None
      else Some(Outcome(db, w.(pc := if Owns(db, id) then RenewOnAcquire else FindOtherLease(w.pc.now))))
    case DoRenewOnAcquire(now) =>
      if !w.pc.RenewOnAcquire? then None
      else if Owns(db, id) then
        Some(Outcome(db.(lease := Some(Lease(id, now + cfg.leaseDuration))), w.(pc := ReadCheckpoint)))
      else Some(Outcome(db, w.(pc := Stopped)))
    case DoFindOtherLease =>
      if !w.pc.FindOtherLease? then None
      else
        var expired := db.lease.Some? && db.lease.value.expires < w.pc.now;
        Some(Outcome(db, w.(pc := if expired then DeleteLease else Stopped)))
    case DoDeleteLease =>
      if w.pc.DeleteLease? then Some(Outcome(db.(lease := None), w.(pc := InsertLease))) else None
    case DoReadCheckpoint =>
      if !w.pc.ReadCheckpoint? then None
      else if db.checkpoint.None? then Some(Outcome(db, w.(pc := CreateCheckpoint)))
      else Some(Outcome(db, Worker(LoopTop, db.checkpoint.value.next, db.checkpoint.value.last)))
    case DoCreateCheckpoint =>
      if !w.pc.CreateCheckpoint? then None
      else Some(Outcome(db.(checkpoint := Some(Checkpoint(cfg.start, None))), Worker(LoopTop, cfg.start, None)))
    case DoRenew(now) =>
      if !w.pc.LoopTop? then None
      else if Owns(db, id) then
        Some(Outcome(db.(lease := Some(Lease(id, now + cfg.leaseDuration))), w.(pc := ReadHead)))
      else Some(Outcome(db, w.(pc := Stopped)))
    case DoReadHead =>
      if !w.pc.ReadHead? then None
      else
        var latest := Latest(chain);
        var ceiling := latest - cfg.finalityConfirmations;
        if w.cursor > latest then Some(Outcome(db, w.(pc := LoopTop)))
        else if w.cursor > ceiling then Some(Outcome(db, w.(pc := Tail)))
        else if w.cursor + cfg.batchSize == 0 then Some(Outcome(db, w.(pc := LoopTop)))
        else Some(Outcome(db, w.(pc := Drain(Min(w.cursor + cfg.batchSize - 1, ceiling), []))))
    case DoFetchNext(answered) =>
      if !w.pc.Drain? then None
      else
        var height := w.cursor + |w.pc.got|;
        if height <= w.pc.end && answered && height < |chain| then
          Some(Outcome(db, w.(pc := Drain(w.pc.end, w.pc.got + [chain[height]]))))
        else
          Some(Outcome(db, w.(pc := if w.pc.got == [] then LoopTop else PersistWindow(w.pc.got))))
    case DoPersistWindow =>
      if !w.pc.PersistWindow? then None
      else Some(Outcome(db.(rows := InsertWindow(db.rows, w.cursor, w.pc.blocks)), w.(pc := RecordWindow(w.pc.blocks))))
    case DoRecordWindow =>
      if !w.pc.RecordWindow? || w.pc.blocks == [] then None
      else
        var next := w.cursor + |w.pc.blocks|;
        var last := Some(w.pc.blocks[|w.pc.blocks| - 1].hash);
        Some(Outcome(db.(checkpoint := Some(Checkpoint(next, last))), w.(pc := AdoptWindow(w.pc.blocks))))
    case DoAdoptWindow =>
      if !w.pc.AdoptWindow? || w.pc.blocks == [] then None
      else
        Some(Outcome(db, Worker(LoopTop, w.cursor + |w.pc.blocks|, Some(w.pc.blocks[|w.pc.blocks| - 1].hash))))
    case DoFetch(answered) =>
      if !w.pc.Tail? then None
      else if !answered || w.cursor >= |chain| then Some(Outcome(db, w.(pc := LoopTop)))
      else
        var b := chain[w.cursor];
        if w.last.None? || w.last.value == b.parent then Some(Outcome(db, w.(pc := Persist(b))))
        else Some(Outcome(db, w.(pc := Search(b, w.cursor - 1))))
    case DoFind(stored) =>
      if !w.pc.Search? then None
      else
        var at := w.pc.at;
        // no ancestor: detectReorg returns null and the loop persists the block anyway
        if at <= 0 then Some(Outcome(db, w.(pc := Persist(w.pc.fetched))))
        else if !MayFind(db.rows, at, stored) then None
        else if stored.Some? then Some(Outcome(db, w.(pc := Compare(w.pc.fetched, at, stored.value))))
        else Some(Outcome(db, w.(pc := Search(w.pc.fetched, at - 1))))
    case DoCompare(answered) =>
      if !w.pc.Compare? then None
      else
        var at := w.pc.at;
        if answered && 0 <= at < |chain| && w.pc.stored == chain[at].hash then
          Some(Outcome(db, w.(pc := MarkBlocks(at))))
        else Some(Outcome(db, w.(pc := Search(w.pc.fetched, at - 1))))
    case DoMarkBlocks =>
      if !w.pc.MarkBlocks? then None
      else
        Some(Outcome(db.(rows := MarkOrphaned(db.rows, w.pc.ancestor + 1, w.cursor - 1)),
                     w.(pc := FinishReorg(w.pc.ancestor))))
    case DoFinishReorg =>
      // only the in-memory position is rewound; the stored checkpoint is not
      if !w.pc.FinishReorg? then None
      else Some(Outcome(db, Worker(LoopTop, w.pc.ancestor + 1, None)))
    case DoPersist =>
      if !w.pc.Persist? then None
      else
        var finality := FinalityAt(cfg, Latest(chain), w.cursor);
        Some(Outcome(db.(rows := Insert(db.rows, w.cursor, w.pc.block, finality)), w.(pc := Record(w.pc.block))))
    case DoRecord =>
      if !w.pc.Record? then None
      else
        Some(Outcome(db.(checkpoint := Some(Checkpoint(w.cursor + 1, Some(w.pc.block.hash)))),
                     w.(pc := Publish(w.pc.block))))
    case DoPublish =>
      if !w.pc.Publish? then None
      else Some(Outcome(db, Worker(LoopTop, w.cursor + 1, Some(w.pc.block.hash))))
  }

  // ---------------------------------------------------------------- the whole system

  datatype Sys = Sys(db: Db, chain: Chain, workers: map<WorkerId, Worker>)

  /** Something happens: a worker acts, or the provider now serves another chain. */
  datatype Event = Does(id: WorkerId, act: Act) | Serves(chain: Chain)

  ghost function Next(cfg: Config, s: Sys, e: Event): Option<Sys> {
    match e
    case Serves(chain) => Some(s.(chain := chain))
    case Does(id, act) =>
      if id !in s.workers then None
      else
        match Step(cfg, s.db, s.chain, id, s.workers[id], act)
        case None => None
        case Some(o) => Some(s.(db := o.db, workers := s.workers[id := o.w]))
  }

  /** The state after a run, oldest event first; None if some event was impossible. */
  ghost function Run(cfg: Config, s: Sys, events: seq<Event>): Option<Sys>
    decreases |events|
  {
    if events == [] then Some(s)
    else
      match Run(cfg, s, events[..|events| - 1])
      case None => None
      case Some(mid) => Next(cfg, mid, events[|events| - 1])
  }

  /** Nothing stored for this stream, every process still to be started. */
  ghost predicate Initial(s: Sys) {
    s.db == Db(map[], None, None) && forall id :: id in s.workers ==> s.workers[id].pc.Stopped?
  }
}
