/** The receiver as the program runs it: an object whose entry points change its fields and its
    database step by step.  Each method is proved to compute the function of the same purpose in
    ReceiverModel. */
module ReceiverObject {
  import opened Basics
  import opened Messages
  import opened Tables
  import opened Chainbase
  import opened AbiCache
  import opened ReceiverModel

  class Receiver {
    const config: Config
    const db: Database
    const start: u32
    var head: u32
    var headId: BlockId
    var lib: u32
    var libId: BlockId
    var forkedAt: u32
    var acked: u32
    var slow: bool
    var reading: bool
    var pauseMs: nat
    var contracts: map<Account, Abi>
    var imported: set<Account>
    var status: Status
    var published: seq<Event>

    ghost function Value(): State
      reads this, db
    {
      State(db.Value(), start, head, headId, lib, libId, forkedAt, acked, slow, reading, pauseMs,
            Cache(contracts, imported), status)
    }

    constructor (config: Config, db: Database, start: u32)
      ensures this.config == config && this.db == db && this.start == start
      ensures Value() == State(db.Value(), start, 0, 0, 0, 0, 0, 0, false, false, 0, FRESH, Running)
      ensures published == []
    {
      this.config, this.db, this.start := config, db, start;
      head, headId, lib, libId := 0, 0, 0, 0;
      forkedAt, acked, slow, reading, pauseMs := 0, 0, false, false, 0;
      contracts, imported := map[], {};
      status, published := Running, [];
    }

    /** `load_state`, called once by `start` */
    method LoadState()
      requires Value() == State(db.Value(), start, 0, 0, 0, 0, 0, 0, false, false, 0, FRESH, Running)
      requires published == []
      modifies this, db
      ensures Value() == Load(config, old(db.Value()), start)
      ensures published == LoadEvents(old(db.Value()), start)
    {
      var depth := db.RevertUncommitted();
      RestoreHead();
      if db.tables.state.Some? {
        if start > 0 {
          status := Stopped;
          return;
        }
      } else {
        PublishFork();
      }
      if depth > 0 {
        PublishFork();
      }
      if config.willAck {
        acked := head;
      }
      if head >= config.endBlock {
        status := Stopped;
      }
    }

    method RestoreHead()
      requires head == headId == lib == libId == 0
      modifies this`head, this`headId, this`lib, this`libId
      ensures StateRow(head, headId, lib, libId) == RowOrInitial(db.tables, start)
    {
      if db.tables.state.Some? {
        var row := db.tables.state.value;
        head, headId, lib, libId := row.head, row.headId, row.lib, row.libId;
      } else if start > 0 {
        head := start - 1;
      }
    }

    /** Tells the consumer to drop everything after the head, and waits for its answer. */
    method PublishFork()
      modifies this`forkedAt, this`published
      ensures forkedAt == Inc32(head) && published == old(published) + [ForkEvent(Inc32(head))]
    {
      forkedAt := Inc32(head);
      published := published + [ForkEvent(Inc32(head))];
    }

    /** `init_contract_abi_ctxt` */
    method InitContext()
      modifies this`contracts, this`imported
      ensures Value() == old(Value()).(cache := FRESH)
    {
      contracts, imported := map[], {};
    }

    /** `clear_contract_abi` */
    method ClearContractAbi(account: Account)
      modifies this`contracts, this`imported, db`tables
      ensures Value().cache == DropIfImported(old(Value()).cache, account)
      ensures db.tables == old(db.tables).(abis := ClearAbi(old(db.tables).abis, head, account))
    {
      if account in imported {
        InitContext();
      }
      if account in db.tables.abis.latest {
        db.tables := db.tables.(abis := db.tables.abis.(latest := db.tables.abis.latest - {account}));
        SaveHistory(account, NoAbi);
      }
    }

    /** `save_contract_abi_history` */
    method SaveHistory(account: Account, abi: Abi)
      modifies db`tables
      ensures db.tables == old(db.tables).(abis := old(db.tables).abis.(
        history := old(db.tables).abis.history[HistKey(account, head) := abi]))
    {
      var history := db.tables.abis.history;
      db.tables := db.tables.(abis := db.tables.abis.(history := history[HistKey(account, head) := abi]));
    }

    /** `save_contract_abi` */
    method SaveContractAbi(account: Account, abi: Abi)
      modifies this`contracts, this`imported, db`tables
      ensures Value().cache == SaveInCache(old(Value()).cache, account, abi)
      ensures db.tables == old(db.tables).(abis := SaveAbi(old(db.tables).abis, head, account, abi))
    {
      if account in imported {
        InitContext();
      }
      contracts := SetAbiBin(contracts, account, abi);
      if abi.WellFormed? {
        imported := imported + {account};
        db.tables := db.tables.(abis := db.tables.abis.(latest := db.tables.abis.latest[account := abi]));
      }
      SaveHistory(account, abi);
    }

    /** `get_contract_abi_ready`, scanning mode */
    method GetContractAbiReady(account: Account) returns (ready: bool)
      modifies this`contracts, this`imported
      ensures Value() == ReceiverModel.LookupAbi(old(Value()), account)
      ensures ready <==> account in old(imported) || account in db.tables.abis.latest
    {
      if account in imported {
        return true;
      }
      ready := account in db.tables.abis.latest;
      if ready {
        contracts := SetAbiBin(contracts, account, db.tables.abis.latest[account]);
        imported := imported + {account};
      }
    }

    /** The part of `receive_deltas` that touches the receiver's own state. */
    method ReceiveDeltas(rows: seq<Row>)
      modifies this`contracts, this`imported, db`tables
      ensures db.tables == old(db.tables).(abis := ApplyRows(old(db.tables).abis, head, rows))
      ensures Value().cache == CacheRows(old(Value()).cache, old(db.tables).abis, head, rows)
    {
      var i := 0;
      while i < |rows|
        invariant 0 <= i <= |rows|
        invariant db.tables == old(db.tables).(abis := ApplyRows(old(db.tables).abis, head, rows[..i]))
        invariant Value().cache == CacheRows(old(Value()).cache, old(db.tables).abis, head, rows[..i])
      {
        assert Front(rows[..i + 1]) == rows[..i];
        match rows[i] {
          case AccountRow(present, account, abi) =>
            if present {
              if abi.NoAbi? {
                ClearContractAbi(account);
              } else {
                SaveContractAbi(account, abi);
              }
            }
          case ContractRow(code) =>
            var _ := GetContractAbiReady(code);
        }
        i := i + 1;
      }
      assert rows[..i] == rows;
    }

    /** The fork branch of `receive_result`. */
    method RollBackTo(num: u32)
      requires 1 <= num <= db.revision + 1 && status == Running
      modifies this, db
      ensures Value() == RollBack(config, old(Value()), num)
      ensures published == old(published) + if status == Running then [ForkEvent(num)] else []
    {
      ghost var was := db.Value();
      assert UndoTo(was, was.revision) == was;
      hide UndoTo, Undo;
      InitContext();
      while db.revision >= num
        invariant Base(was) <= db.revision && num - 1 <= db.revision <= was.revision
        invariant Value() == old(Value()).(cache := FRESH, db := UndoTo(was, db.revision))
        invariant published == old(published)
        decreases db.revision
      {
        hide UndoTo, Undo;
        if db.stack == [] {
          // The program's loop has no exit here: undoing an empty stack changes nothing.
          status := Diverged;
          return;
        }
        db.PopRevision();
      }
      if db.revision <= 0 {
        status := Stopped;
        return;
      }
      if config.willAck && acked > num - 1 {
        acked := num - 1;
      }
      forkedAt := num;
      published := published + [ForkEvent(num)];
    }

    /** The checks of `receive_result` that come before the block becomes the head. */
    method AdmitBlock(m: Block)
      requires status == Running
      modifies this, db
      ensures Value() == Admit(config, old(Value()), m)
      ensures published == old(published) + AdmitEvents(config, old(Value()), m)
    {
      if m.lib < lib {
        status := Stopped;
        return;
      }
      if db.revision < Dec32(m.num) {
        var ok := db.SetRevision(Dec32(m.num));
        if !ok {
          status := Stopped;
          return;
        }
      }
      if m.num > m.lib {
        // The program also throws when the block is below the last irreversible one; it never is here.
        assert lib <= m.num;
        if m.num <= head {
          RollBackTo(m.num);
        } else if head > 0 && head > start && m.prev != Some(headId) {
          status := Stopped;
        }
      }
    }

    /** Adds a live block to the received-blocks table, then removes the oldest entries until the
        first one is no longer below the last irreversible block.  The program looks at the first
        entry before it compares it with the end of the table: the new block, which is never
        removed, is why there always is a first entry. */
    method StoreReceived(num: u32, id: BlockId)
      requires lib < num
      modifies db`tables
      ensures db.tables == old(db.tables).(received :=
        var r := old(db.tables).received[num := id]; map k | k in r && lib <= k :: r[k])
    {
      var table := Truncate(db.tables.received[num := id], num, lib);
      db.tables := db.tables.(received := table);
    }

    static method Truncate(received: map<u32, BlockId>, ghost num: u32, lib: u32) returns (table: map<u32, BlockId>)
      requires num in received && lib <= num
      ensures table == map k | k in received && lib <= k :: received[k]
    {
      table := received;
      var first := FirstKey(table);
      while first < lib
        invariant first in table && forall k :: k in table ==> first <= k
        invariant forall k :: k in table <==> k in received && first <= k
        invariant forall k :: k in received && k < first ==> k < lib
        invariant forall k :: k in table ==> table[k] == received[k]
        decreases |table|
      {
        var rest := table - {first};
        assert rest.Keys == table.Keys - {first};
        assert num in rest;
        table := rest;
        first := FirstKey(table);
      }
    }

    /** `idx.begin()` on an index ordered by block number. */
    static method FirstKey(m: map<u32, BlockId>) returns (first: u32)
      requires m != map[]
      ensures first in m && forall k :: k in m ==> first <= k
    {
      var rest := m.Keys;
      assert rest != {};
      first :| first in rest;
      rest := rest - {first};
      while rest != {}
        invariant rest < m.Keys && first in m
        invariant forall k :: k in m && k !in rest ==> first <= k
      {
        var k :| k in rest;
        if k < first {
          first := k;
        }
        rest := rest - {k};
      }
    }

    /** `commit_db` */
    method CommitDb()
      modifies db`stack
      ensures Value() == ReceiverModel.CommitDb(config, old(Value()))
    {
      var rev := lib;
      if config.willAck && acked < rev {
        rev := acked;
      }
      db.CommitTo(rev);
    }

    /** `save_state` */
    method SaveState()
      modifies db`tables
      ensures db.tables == old(db.tables).(state := Some(StateRow(head, headId, lib, libId)))
    {
      db.tables := db.tables.(state := Some(StateRow(head, headId, lib, libId)));
    }

    /** The undo session of `receive_result`, for a block that already is the head.  Whenever it
        throws, the session's destructor takes the revision back. */
    method StoreBlock(m: Block)
      requires status == Running && head == m.num && headId == m.id && lib == m.lib && libId == m.libId
      modifies this`contracts, this`imported, this`status, db
      ensures Value() == ReceiverModel.StoreBlock(config, old(Value()), m)
    {
      ghost var was := db.Value();
      db.StartUndoSession();
      if m.num > lib {
        if m.num in db.tables.received {
          db.PopRevision();
          assert db.Value() == was;
          status := Stopped;
          return;
        }
        StoreReceived(m.num, m.id);
      }
      assert db.tables == was.tables.(received := ApplyReceived(was.tables.received, m));
      ReceiveDeltas(m.rows);
      if m.fault.BadRows? {
        db.PopRevision();
        assert db.Value() == was;
        status := Stopped;
        return;
      }
      SaveState();
      assert db.tables == ApplyBlock(was.tables, m);
      CommitDb();
    }

    /** `receive_result`; a message without a block changes nothing. */
    method ReceiveResult(message: Option<Block>) returns (goOn: bool)
      requires status == Running && reading
      modifies this, db
      ensures Value() == if message.Some? then Receive(config, old(Value()), message.value)
                         else old(Value()).(reading := false)
      ensures published == old(published)
        + if message.Some? then ReceiveEvents(config, old(Value()), message.value) else []
      ensures goOn <==> status == Running
    {
      hide Admit, AdmitEvents, Process, ProcessEvents;
      reading := false;
      if message.None? {
        return true;
      }
      AdmitBlock(message.value);
      if status == Running {
        TakeBlock(message.value);
      }
      goOn := status == Running;
    }

    /** `receive_result` from the point where the block becomes the head. */
    method TakeBlock(m: Block)
      requires status == Running
      modifies this, db
      ensures Value() == Process(config, TakeHead(old(Value()), m), m)
      ensures published == old(published) + ProcessEvents(config, TakeHead(old(Value()), m), m)
    {
      hide ReceiverModel.StoreBlock;
      head, headId, lib, libId := m.num, m.id, m.lib, m.libId;
      if m.fault.BadBlock? {
        status := Stopped;
        return;
      }
      published := published + [BlockEvent(m.num, m.id)];
      StoreBlock(m);
      if status == Running {
        if m.fault.BadTraces? {
          status := Stopped;
          return;
        }
        published := published + [CompletedEvent(head)];
      }
    }

    /** `ack_block` */
    method AckBlock(num: u32)
      requires config.willAck
      modifies this`forkedAt, this`acked, this`status
      ensures Value() == ReceiverModel.AckBlock(old(Value()), num)
    {
      if forkedAt > 0 {
        var waitForAck := forkedAt - 1;
        if num > waitForAck {
          return;
        }
        if num == waitForAck {
          forkedAt := 0;
        }
      } else if num < acked {
        status := Stopped;
        return;
      }
      acked := num;
    }

    /** `check_pause` as `continue_read` uses it */
    method ContinueRead(queueSize: nat)
      requires status == Running && !reading
      modifies this`reading, this`pauseMs, this`status, db`stack
      ensures Value() == Poll(config, old(Value()), queueSize)
    {
      if slow
        || (config.willAck && (forkedAt > 0 || Sub32(head, acked) >= config.maxUnconfirmed))
        || queueSize > config.maxQueue
        || head == Dec32(config.endBlock)
      {
        if head == Dec32(config.endBlock) && lib >= head && (!config.willAck || acked == head) {
          CommitDb();
          status := Stopped;
          return;
        }
        if pauseMs == 0 {
          pauseMs := 50;
        } else if pauseMs < 500 {
          pauseMs := pauseMs + 50;
        }
        return;
      }
      pauseMs := 0;
      reading := true;
    }

    /** `request_blocks`: the positions are read off the ordered index from the last irreversible
        block upwards. */
    method RequestBlocks() returns (startBlock: u32, positions: seq<(u32, BlockId)>)
      ensures startBlock == Inc32(head)
      ensures positions == Positions(db.tables.received, lib, head)
    {
      startBlock, positions := Inc32(head), [];
      var k := lib as int;
      while k <= head
        invariant lib <= k && (k <= head + 1 || k == lib)
        invariant positions == Positions(db.tables.received, lib, k - 1)
      {
        if k in db.tables.received {
          positions := positions + [(k, db.tables.received[k])];
        }
        k := k + 1;
      }
    }
  }
}
