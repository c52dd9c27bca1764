/** Whole runs of the receiver: blocks, forks, acknowledgements, pauses, aborts and restarts in any
    order.  The bookkeeping beside the receiver's state is what the theorems speak about: the log of
    surviving blocks and the highest irreversible block ever received. */
module ReceiverRuns {
  import opened Basics
  import opened Messages
  import opened Tables
  import opened Chainbase
  import opened AbiCache
  import opened ReceiverModel

  /** `origin` is the block before the first one ever requested. */
  datatype World = World(r: State, log: seq<Block>, maxLib: u32, origin: u32)

  datatype Step =
    | Deliver(message: Option<Block>)
    | Acknowledge(num: u32)
    | ContinueReading(queueSize: nat)
    | SetSlowdown(pause: bool)
    | DecodeFor(account: Account)
    | Restart(start: u32)

  /** The first start on an empty database. */
  function FirstStart(c: Config, start: u32): World {
    World(Load(c, Db(EMPTY, 0, []), start), [], 0, InitialRow(start).head)
  }

  /** The blocks of the log with a number of at most `num`. */
  function UpTo(w: World, num: int): seq<Block> {
    if 0 <= num - w.origin <= |w.log| then w.log[..num - w.origin] else w.log
  }

  /** A fork at `m` removes the blocks from its number on, a restart those that were not committed. */
  function Survivors(w: World, m: Block): seq<Block> {
    if IsFork(w.r, m) then UpTo(w, m.num - 1) else w.log
  }

  function Next(c: Config, w: World, step: Step): World {
    match step
    case Deliver(None) => w.(r := w.r.(reading := false))
    case Deliver(Some(m)) =>
      var r := Receive(c, w.r, m);
      World(r, Survivors(w, m) + (if Stored(c, w.r, m) then [m] else []), Max(w.maxLib, m.lib), w.origin)
    case Acknowledge(num) => w.(r := AckBlock(w.r, num))
    case ContinueReading(queueSize) => w.(r := Poll(c, w.r, queueSize))
    case SetSlowdown(pause) => w.(r := w.r.(slow := pause))
    case DecodeFor(account) => w.(r := LookupAbi(w.r, account))
    case Restart(start) => w.(r := Load(c, w.r.db, start), log := UpTo(w, Base(w.r.db)))
  }

  /** What the state history node sends: its last irreversible block never falls behind what this
      receiver has ever seen, blocks come without gaps, irreversible ones in order, and the first
      one is not beyond the irreversible part of the chain.  The end block of a request, exclusive,
      is at most the largest word. */
  ghost predicate Upstream(w: World, m: Block) {
    && w.maxLib <= m.lib
    && 1 <= m.num <= w.r.head + 1 && m.num < 0xffff_ffff
    && (!Live(m) || w.log == [] ==> m.num == w.r.head + 1)
    && (w.log == [] ==> w.r.head <= m.lib)
  }

  /** When a step can happen.  A restart may follow any state, but as long as nothing is committed
      it uses the start-block option of the first start. */
  ghost predicate Enabled(c: Config, w: World, step: Step) {
    match step
    case Restart(start) => UndoTo(w.r.db, Base(w.r.db)).tables.state.None? ==> InitialRow(start).head == w.origin
    case Deliver(message) => w.r.status == Running && w.r.reading && (message.Some? ==> Upstream(w, message.value))
    case Acknowledge(_) => w.r.status == Running && c.willAck
    case ContinueReading(_) => w.r.status == Running && !w.r.reading
    case SetSlowdown(_) => w.r.status == Running
    case DecodeFor(_) => w.r.status == Running
  }

  ghost predicate Moves(c: Config, w: World, step: Step, w': World) {
    Enabled(c, w, step) && w' == Next(c, w, step)
  }

  /** `steps` lead through the states `ws`, each entered by a step that can happen. */
  ghost predicate Run(c: Config, ws: seq<World>, steps: seq<Step>) {
    && |ws| == |steps| + 1
    && forall i :: 0 <= i < |steps| ==> Moves(c, ws[i], steps[i], ws[i + 1])
  }

  ghost predicate Leads(c: Config, w: World, w': World) {
    exists ws, steps :: Run(c, ws, steps) && ws[0] == w && Last(ws) == w'
  }

  ghost predicate Reachable(c: Config, start: u32, w: World) {
    Leads(c, FirstStart(c, start), w)
  }

  lemma LeadsNowhere(c: Config, w: World)
    ensures Leads(c, w, w)
  {
    assert Run(c, [w], []);
  }

  lemma LeadsOn(c: Config, w: World, w': World, step: Step)
    requires Leads(c, w, w') && Enabled(c, w', step)
    ensures Leads(c, w, Next(c, w', step))
  {
    var ws, steps :| Run(c, ws, steps) && ws[0] == w && Last(ws) == w';
    var ws', steps' := ws + [Next(c, w', step)], steps + [step];
    forall i | 0 <= i < |steps'|
      ensures Moves(c, ws'[i], steps'[i], ws'[i + 1])
    {
      if i < |steps| {
        assert Moves(c, ws[i], steps[i], ws[i + 1]);
      }
    }
    assert Run(c, ws', steps');
  }

  // ---- the invariant ----

  /** Tables, revision and saved revisions are those of a replay of the log and its prefixes. */
  ghost predicate Replayed(db: Db, log: seq<Block>, origin: int) {
    && |db.stack| <= |log|
    && db.tables == Replay(log)
    && (forall i :: 0 <= i < |db.stack| ==> db.stack[i] == Replay(log[..|log| - |db.stack| + i]))
    && (forall i :: 0 <= i < |log| ==> log[i].num == origin + 1 + i)
    && if log == [] then db.revision <= origin else db.revision == origin + |log|
  }

  /** Irreversible blocks only move forward along the log. */
  ghost predicate LibsAscend(log: seq<Block>, maxLib: int) {
    && (forall i :: 0 <= i < |log| ==> log[i].lib <= maxLib)
    && (forall i, j :: 0 <= i < j < |log| ==> log[i].lib <= log[j].lib)
  }

  ghost predicate HeadOfLog(s: State, log: seq<Block>, origin: int) {
    && s.head == origin + |log|
    && (log != [] ==>
        var m := Last(log); s.headId == m.id && s.lib == m.lib && s.libId == m.libId)
  }

  /** The start-block option is used for the first block only: a later process has none, or the same one
      as long as nothing is stored. */
  ghost predicate StartsAtOrigin(s: State, log: seq<Block>, origin: int) {
    s.start <= origin + 1 && (log == [] ==> s.head <= s.start)
  }

  ghost predicate Inv(w: World) {
    && w.r.status != Diverged
    && w.origin + |w.log| < 0xffff_ffff
    && Replayed(w.r.db, w.log, w.origin)
    && LibsAscend(w.log, w.maxLib)
    && (w.log != [] ==> Base(w.r.db) <= w.maxLib)
    && (w.r.status == Running ==>
        && HeadOfLog(w.r, w.log, w.origin) && StartsAtOrigin(w.r, w.log, w.origin)
        && w.r.lib <= w.maxLib && Coherent(w.r.cache, w.r.db.tables.abis.latest))
  }

  lemma ReplaySnoc(log: seq<Block>, m: Block)
    ensures Replay(log + [m]) == ApplyBlock(Replay(log), m)
  {
    assert Front(log + [m]) == log;
  }

  lemma UndoKeepsReplayed(db: Db, log: seq<Block>, origin: int, r: int)
    requires Replayed(db, log, origin) && log != [] && Base(db) <= r <= db.revision
    ensures Replayed(UndoTo(db, r), log[..r - origin], origin)
  {
    var short := log[..r - origin];
    if r == db.revision {
      assert short == log;
    }
    forall i | 0 <= i < |UndoTo(db, r).stack|
      ensures UndoTo(db, r).stack[i] == Replay(short[..|short| - |UndoTo(db, r).stack| + i])
    {
      assert short[..|short| - |UndoTo(db, r).stack| + i] == log[..|log| - |db.stack| + i];
    }
    assert short == log[..|log| - |db.stack| + (r - Base(db))];
  }

  lemma CommitKeepsReplayed(db: Db, log: seq<Block>, origin: int, r: int)
    requires Replayed(db, log, origin)
    ensures Replayed(Commit(db, r), log, origin)
    ensures Base(db) <= Base(Commit(db, r)) <= Max(Base(db), r)
  {
  }

  lemma BeginKeepsReplayed(db: Db, log: seq<Block>, origin: int, m: Block)
    requires Replayed(db, log, origin) && m.num == origin + |log| + 1 && db.revision == origin + |log|
    ensures Replayed(Begin(db).(tables := ApplyBlock(db.tables, m)), log + [m], origin)
  {
    ReplaySnoc(log, m);
    var db', log' := Begin(db).(tables := ApplyBlock(db.tables, m)), log + [m];
    forall i | 0 <= i < |db'.stack|
      ensures db'.stack[i] == Replay(log'[..|log'| - |db'.stack| + i])
    {
      assert log'[..|log'| - |db'.stack| + i] == log[..|log| - |db.stack| + i];
    }
  }

  /** On a fork the undo loop always finds a revision to pop and ends at the block before. */
  lemma RollBackIsExact(c: Config, s: State, log: seq<Block>, origin: int, num: u32)
    requires Replayed(s.db, log, origin) && log != [] && 1 <= num && Base(s.db) < num <= s.db.revision
    ensures var s' := RollBack(c, s, num);
      && (s'.status == if num == 1 then Stopped else s.status)
      && s'.db.revision == num - 1
      && Base(s'.db) == Base(s.db)
      && s'.db.tables == Replay(log[..num - 1 - origin])
      && Replayed(s'.db, log[..num - 1 - origin], origin)
  {
    UndoKeepsReplayed(s.db, log, origin, num - 1);
  }

  /** What admission guarantees: the block fits right after the surviving ones. */
  ghost predicate Fits(s: State, log: seq<Block>, origin: int, m: Block) {
    && m.num == origin + |log| + 1
    && s.db.revision == m.num - 1
    && Coherent(s.cache, s.db.tables.abis.latest)
  }

  lemma AdmitsFork(c: Config, w: World, m: Block)
    requires Inv(w) && w.r.status == Running && Upstream(w, m) && IsFork(w.r, m)
    ensures Admit(c, w.r, m) == RollBack(c, w.r, m.num)
    ensures w.log != [] && Base(w.r.db) < m.num <= w.r.db.revision
    ensures w.origin < m.num && Survivors(w, m) == w.log[..m.num - 1 - w.origin]
  {
  }

  lemma AdmitsNext(c: Config, w: World, m: Block)
    requires Inv(w) && w.r.status == Running && Upstream(w, m) && !IsFork(w.r, m)
    ensures var s := Admit(c, w.r, m); var db := w.r.db.(revision := m.num - 1);
      && s == w.r.(db := s.db, status := s.status)
      && s.status != Diverged
      && m.num == w.origin + |w.log| + 1
      && (s.db == w.r.db || (w.log == [] && s.db == db))
      && (s.status == Running ==> s.db == db)
  {
  }

  lemma AdmitKeepsReplayed(c: Config, w: World, m: Block)
    requires Inv(w) && w.r.status == Running && Upstream(w, m)
    ensures var s := Admit(c, w.r, m);
      && s.status != Diverged && s.start == w.r.start
      && Replayed(s.db, Survivors(w, m), w.origin)
      && Base(w.r.db) <= Base(s.db) <= m.lib
      && (s.status == Running ==> Fits(s, Survivors(w, m), w.origin, m))
  {
    if IsFork(w.r, m) {
      AdmitsFork(c, w, m);
      RollBackIsExact(c, w.r, w.log, w.origin, m.num);
    } else {
      AdmitsNext(c, w, m);
    }
  }

  lemma StoreCases(c: Config, s: State, m: Block)
    requires s.status == Running
    ensures var s' := ReceiverModel.StoreBlock(c, s, m);
      && s' == s.(db := s'.db, cache := s'.cache, status := s'.status)
      && (s'.status == Running || s'.status == Stopped)
      && (s'.status == Stopped ==> s'.db == s.db)
      && (s'.status == Running ==>
          && s'.db == Commit(Begin(s.db).(tables := ApplyBlock(s.db.tables, m)), CommitPoint(c, s))
          && s'.cache == CacheRows(s.cache, s.db.tables.abis, m.num, m.rows))
  {
    hide ApplyBlock, CacheRows, Commit;
  }

  lemma StoreKeepsReplayed(c: Config, s: State, log: seq<Block>, origin: int, m: Block)
    requires Replayed(s.db, log, origin) && Fits(s, log, origin, m)
    requires s.status == Running && Base(s.db) <= m.lib && s.lib == m.lib
    ensures var s' := ReceiverModel.StoreBlock(c, s, m);
      && s'.status != Diverged
      && s' == s.(db := s'.db, cache := s'.cache, status := s'.status)
      && Replayed(s'.db, if s'.status == Running then log + [m] else log, origin)
      && Base(s.db) <= Base(s'.db) <= m.lib
      && (s'.status == Running ==> Coherent(s'.cache, s'.db.tables.abis.latest))
  {
    BeginKeepsReplayed(s.db, log, origin, m);
    ReplayOnlyWellFormed(log);
    RowsKeepCoherence(s.cache, s.db.tables.abis, m.num, m.rows);
    StoreCases(c, s, m);
    hide ReceiverModel.StoreBlock, Replayed, Replay, Fits, Coherent, ApplyRows, ApplyReceived, CacheRows;
    CommitKeepsReplayed(Begin(s.db).(tables := ApplyBlock(s.db.tables, m)), log + [m], origin, CommitPoint(c, s));
  }

  lemma SurvivorsAscend(w: World, m: Block)
    requires Inv(w) && w.maxLib <= m.lib
    ensures LibsAscend(Survivors(w, m), m.lib) && LibsAscend(Survivors(w, m) + [m], m.lib)
  {
  }

  lemma DeliverOutcome(c: Config, w: World, m: Block)
    ensures var w0 := w.(r := w.r.(reading := false)); var s := Admit(c, w0.r, m);
      var r := Receive(c, w.r, m);
      && Next(c, w, Deliver(Some(m))) == World(r,
        if Stored(c, w.r, m) then Survivors(w0, m) + [m] else Survivors(w0, m), Max(w.maxLib, m.lib), w.origin)
      && (s.status == Running && !m.fault.BadBlock? ==>
          var stored := ReceiverModel.StoreBlock(c, TakeHead(s, m), m);
          && r == stored.(status := r.status)
          && (Stored(c, w.r, m) <==> stored.status == Running)
          && (r.status == Diverged <==> stored.status == Diverged)
          && (r.status == Running ==> stored.status == Running))
      && (s.status == Running && m.fault.BadBlock? ==> r == Stop(TakeHead(s, m)) && !Stored(c, w.r, m))
      && (s.status != Running ==> r == s && !Stored(c, w.r, m))
  {
    hide ReceiverModel.StoreBlock, Admit;
    assert Survivors(w, m) + [] == Survivors(w, m);
  }

  lemma DeliverKeepsInv(c: Config, w: World, m: Block)
    requires Inv(w) && w.r.status == Running && Upstream(w, m)
    ensures Inv(Next(c, w, Deliver(Some(m))))
    ensures Base(w.r.db) <= Base(Next(c, w, Deliver(Some(m))).r.db)
  {
    hide Replayed, LibsAscend, Coherent, Admit, Receive, Next, Stored;
    var w0 := w.(r := w.r.(reading := false));
    var log := Survivors(w0, m);
    var s := Admit(c, w0.r, m);
    DeliverOutcome(c, w, m);
    AdmitKeepsReplayed(c, w0, m);
    SurvivorsAscend(w0, m);
    if s.status == Running && !m.fault.BadBlock? {
      StoreKeepsReplayed(c, TakeHead(s, m), log, w.origin, m);
      assert Last(log + [m]) == m;
    }
  }

  /** What start-up takes from the database. */
  lemma LoadOutcome(c: Config, db: Db, start: u32)
    ensures var s := Load(c, db, start); var row := RowOrInitial(s.db.tables, start);
      && s.db == UndoTo(db, Base(db))
      && s.status != Diverged
      && s.head == row.head && s.headId == row.headId && s.lib == row.lib && s.libId == row.libId
      && s.cache == FRESH && !s.reading && s.start == start
      && (s.status == Running && s.db.tables.state.Some? ==> start == 0)
      && (c.willAck && s.status == Running ==> s.acked == s.head)
  {
  }

  lemma RestartKeepsReplayed(w: World)
    requires Inv(w)
    ensures var log := UpTo(w, Base(w.r.db));
      && Replayed(UndoTo(w.r.db, Base(w.r.db)), log, w.origin)
      && log <= w.log
      && (log == [] || Base(w.r.db) == w.origin + |log|)
  {
    if w.log != [] {
      UndoKeepsReplayed(w.r.db, w.log, w.origin, Base(w.r.db));
    }
  }

  lemma RestartKeepsInv(c: Config, w: World, start: u32)
    requires Inv(w) && Enabled(c, w, Restart(start))
    ensures var w' := Next(c, w, Restart(start));
      && Inv(w')
      && Base(w'.r.db) == Base(w.r.db)
      && w'.r.head == w.origin + |w'.log|
  {
    hide Load;
    LoadOutcome(c, w.r.db, start);
    RestartKeepsReplayed(w);
    var w' := Next(c, w, Restart(start));
    if w'.log != [] {
      assert w'.r.db.tables.state.Some?;
    }
  }

  lemma PollKeepsInv(c: Config, w: World, queueSize: nat)
    requires Inv(w) && w.r.status == Running
    ensures var w' := Next(c, w, ContinueReading(queueSize)); Inv(w') && Base(w.r.db) <= Base(w'.r.db)
  {
    if MustPause(c, w.r, queueSize) && Finished(c, w.r) {
      CommitKeepsReplayed(w.r.db, w.log, w.origin, CommitPoint(c, w.r));
      assert Poll(c, w.r, queueSize).db == Commit(w.r.db, CommitPoint(c, w.r));
    } else {
      assert Poll(c, w.r, queueSize).db == w.r.db;
    }
  }

  lemma DecodeKeepsInv(c: Config, w: World, account: Account)
    requires Inv(w) && w.r.status == Running
    ensures Inv(Next(c, w, DecodeFor(account)))
  {
    ReplayOnlyWellFormed(w.log);
    LoadedAnswersLatest(w.r.cache, w.r.db.tables.abis.latest, account);
  }

  lemma NextKeepsInv(c: Config, w: World, step: Step)
    requires Inv(w) && Enabled(c, w, step)
    ensures var w' := Next(c, w, step);
      Inv(w') && Base(w.r.db) <= Base(w'.r.db) && w.maxLib <= w'.maxLib && w'.origin == w.origin
  {
    hide Replayed, LibsAscend, Coherent, Receive, Load;
    match step
    case Deliver(message) =>
      if message.Some? {
        DeliverKeepsInv(c, w, message.value);
      }
    case Restart(start) => RestartKeepsInv(c, w, start);
    case ContinueReading(queueSize) => PollKeepsInv(c, w, queueSize);
    case DecodeFor(account) => DecodeKeepsInv(c, w, account);
    case Acknowledge(_) =>
    case SetSlowdown(_) =>
  }

  lemma {:induction false} RunKeepsInv(c: Config, ws: seq<World>, steps: seq<Step>, n: nat)
    requires Run(c, ws, steps) && Inv(ws[0]) && n <= |steps|
    ensures Inv(ws[n]) && Base(ws[0].r.db) <= Base(ws[n].r.db)
    ensures ws[0].maxLib <= ws[n].maxLib && ws[n].origin == ws[0].origin
  {
    if n > 0 {
      hide Inv, Next, Enabled;
      RunKeepsInv(c, ws, steps, n - 1);
      assert Moves(c, ws[n - 1], steps[n - 1], ws[n - 1 + 1]);
      NextKeepsInv(c, ws[n - 1], steps[n - 1]);
    }
  }

  lemma LeadsKeepsInv(c: Config, w: World, w': World)
    requires Inv(w) && Leads(c, w, w')
    ensures Inv(w') && Base(w.r.db) <= Base(w'.r.db)
    ensures w.maxLib <= w'.maxLib && w'.origin == w.origin
  {
    var ws, steps :| Run(c, ws, steps) && ws[0] == w && Last(ws) == w';
    RunKeepsInv(c, ws, steps, |steps|);
  }

  lemma ReachableInv(c: Config, start: u32, w: World)
    requires Reachable(c, start, w)
    ensures Inv(w) && w.origin == InitialRow(start).head
  {
    assert Inv(FirstStart(c, start));
    LeadsKeepsInv(c, FirstStart(c, start), w);
  }
}
