/** The scanning receiver as a state machine: one function per entry point of the program.  The
    class in ReceiverObject.dfy is proved to compute these functions; the theorems about whole runs are
    stated on them. */
module ReceiverModel {
  import opened Basics
  import opened Messages
  import opened Tables
  import opened Chainbase
  import opened AbiCache

  datatype Config = Config(willAck: bool, maxUnconfirmed: u32, endBlock: u32, maxQueue: nat)

  /** `Stopped` follows an exception or an abort.  `Diverged` stands for the undo loop that runs
      for ever once the undo stack is exhausted. */
  datatype Status = Running | Stopped | Diverged

  /** `start` is the start-block option, `reading` is true while a socket read is outstanding. */
  datatype State = State(
    db: Db,
    start: u32,
    head: u32,
    headId: BlockId,
    lib: u32,
    libId: BlockId,
    forkedAt: u32,
    acked: u32,
    slow: bool,
    reading: bool,
    pauseMs: nat,
    cache: Cache,
    status: Status)

  function Stop(s: State): State {
    s.(status := Stopped)
  }

  // ---- start-up ----

  /** The row a receiver starts from when its database has none. */
  function InitialRow(start: u32): StateRow {
    StateRow(if start == 0 then 0 else start - 1, 0, 0, 0)
  }

  function RowOrInitial(t: Tables, start: u32): StateRow {
    t.state.GetOr(InitialRow(start))
  }

  /** A new process on an existing database: revert what was not committed, then take over the
      state row. */
  function Load(c: Config, db: Db, start: u32): State {
    var clean := UndoTo(db, Base(db));
    var row := RowOrInitial(clean.tables, start);
    var s := State(clean, start, row.head, row.headId, row.lib, row.libId, 0, 0, false, false, 0, FRESH, Running);
    if clean.tables.state.Some? && start > 0 then Stop(s) else
    var s1 := s.(forkedAt := if LoadEvents(db, start) == [] then 0 else Inc32(row.head),
                 acked := if c.willAck then row.head else 0);
    if c.endBlock <= row.head then Stop(s1) else s1
  }

  /** FORK once for a database without a state row, and once when revisions were reverted. */
  function LoadEvents(db: Db, start: u32): seq<Event> {
    var tables := UndoTo(db, Base(db)).tables;
    if tables.state.Some? && start > 0 then [] else
    var fork := ForkEvent(Inc32(RowOrInitial(tables, start).head));
    (if tables.state.None? then [fork] else []) + (if db.stack != [] then [fork] else [])
  }

  /** The block positions sent upstream: the received blocks from `low` to `high`, ascending. */
  function Positions(received: map<u32, BlockId>, low: int, high: int): seq<(u32, BlockId)>
    decreases high - low
  {
    if high < low then []
    else if high in received then Positions(received, low, high - 1) + [(high, received[high])]
    else Positions(received, low, high - 1)
  }

  // ---- receiving a block ----

  /** Moves the revision counter of a store without saved revisions up to the block before `num`. */
  function AlignRevision(s: State, num: u32): State {
    if s.db.revision < Dec32(num)
    then if s.db.stack == [] then s.(db := s.db.(revision := Dec32(num))) else Stop(s)
    else s
  }

  /** The fork branch: the tables return to what they were after block `num - 1`, the receiver
      waits for that block to be acknowledged. */
  function RollBack(c: Config, s: State, num: u32): State
    requires num <= s.db.revision + 1
  {
    if num <= Base(s.db) then
      s.(cache := FRESH, db := UndoTo(s.db, Base(s.db)), status := Diverged)
    else
      var s1 := s.(cache := FRESH, db := UndoTo(s.db, num - 1));
      if num <= 1 then Stop(s1)
      else s1.(acked := if c.willAck && s.acked > num - 1 then num - 1 else s.acked, forkedAt := num)
  }

  predicate IsFork(s: State, m: Block) {
    Live(m) && m.num <= s.head
  }

  predicate Unlinked(s: State, m: Block) {
    s.head > 0 && s.head > s.start && m.prev != Some(s.headId)
  }

  /** Everything `receive_result` does before it takes the block as its new head. */
  function Admit(c: Config, s: State, m: Block): State {
    if m.lib < s.lib then Stop(s) else
    var s1 := AlignRevision(s, m.num);
    if s1.status != Running || !Live(m) then s1
    else if IsFork(s, m) then RollBack(c, s1, m.num)
    else if Unlinked(s, m) then Stop(s1)
    else s1
  }

  function TakeHead(s: State, m: Block): State {
    s.(head := m.num, headId := m.id, lib := m.lib, libId := m.libId)
  }

  /** How far revisions may be committed: the last irreversible block, or the last acknowledged one
      if the exporter acknowledges and is behind. */
  function CommitPoint(c: Config, s: State): u32 {
    if c.willAck && s.acked < s.lib then s.acked else s.lib
  }

  function CommitDb(c: Config, s: State): State {
    s.(db := Commit(s.db, CommitPoint(c, s)))
  }

  /** One undo session per block.  An exception inside it leaves the store as it was before. */
  function StoreBlock(c: Config, s: State, m: Block): State {
    if Live(m) && m.num in s.db.tables.received then Stop(s) else
    var s1 := s.(cache := CacheRows(s.cache, s.db.tables.abis, m.num, m.rows));
    if m.fault.BadRows? then Stop(s1)
    else CommitDb(c, s1.(db := Begin(s.db).(tables := ApplyBlock(s.db.tables, m))))
  }

  /** What happens to a block that has become the head. */
  function Process(c: Config, s: State, m: Block): State {
    if m.fault.BadBlock? then Stop(s) else
    var s1 := StoreBlock(c, s, m);
    if s1.status == Running && m.fault.BadTraces? then Stop(s1) else s1
  }

  function Receive(c: Config, s: State, m: Block): State {
    var s1 := Admit(c, s.(reading := false), m);
    if s1.status == Running then Process(c, TakeHead(s1, m), m) else s1
  }

  /** Whether a block ends up in the database. */
  predicate Stored(c: Config, s: State, m: Block) {
    var s1 := Admit(c, s.(reading := false), m);
    s1.status == Running && !m.fault.BadBlock? && StoreBlock(c, TakeHead(s1, m), m).status == Running
  }

  function AdmitEvents(c: Config, s: State, m: Block): seq<Event> {
    if Admit(c, s, m).status == Running && IsFork(s, m) then [ForkEvent(m.num)] else []
  }

  function ProcessEvents(c: Config, s: State, m: Block): seq<Event> {
    if m.fault.BadBlock? then []
    else [BlockEvent(m.num, m.id)] + if Process(c, s, m).status == Running then [CompletedEvent(m.num)] else []
  }

  function ReceiveEvents(c: Config, s: State, m: Block): seq<Event> {
    var s0 := s.(reading := false);
    var s1 := Admit(c, s0, m);
    AdmitEvents(c, s0, m) + if s1.status == Running then ProcessEvents(c, TakeHead(s1, m), m) else []
  }

  // ---- flow control ----

  function AckBlock(s: State, num: u32): State {
    if s.forkedAt > 0 then
      if num > s.forkedAt - 1 then s
      else s.(forkedAt := if num == s.forkedAt - 1 then 0 else s.forkedAt, acked := num)
    else if num < s.acked then Stop(s)
    else s.(acked := num)
  }

  predicate MustPause(c: Config, s: State, queueSize: nat) {
    || s.slow
    || (c.willAck && (s.forkedAt > 0 || Sub32(s.head, s.acked) >= c.maxUnconfirmed))
    || queueSize > c.maxQueue
    || s.head == Dec32(c.endBlock)
  }

  predicate Finished(c: Config, s: State) {
    s.head == Dec32(c.endBlock) && s.lib >= s.head && (!c.willAck || s.acked == s.head)
  }

  /** `continue_read`: start the next read, wait, or stop at the end block. */
  function Poll(c: Config, s: State, queueSize: nat): State {
    if !MustPause(c, s, queueSize) then s.(reading := true, pauseMs := 0)
    else if Finished(c, s) then Stop(CommitDb(c, s))
    else s.(pauseMs := if s.pauseMs == 0 then 50 else if s.pauseMs < 500 then s.pauseMs + 50 else s.pauseMs)
  }

  function LookupAbi(s: State, account: Account): State {
    s.(cache := LoadInCache(s.cache, s.db.tables.abis.latest, account))
  }
}
