/** Runs of the composed system in which its shortcomings show.  All but the last drain the queue
    before every read. */
module RelicWitnesses {
  import opened Basics
  import opened Messages
  import opened Tables
  import opened Chainbase
  import opened ReceiverModel
  import opened ReceiverRuns
  import opened FlowControl
  import opened ReceivedBlocks
  import opened RelicExporter
  import opened Chains
  import opened RelicSystem
  import opened RelicMirror
  import opened RelicFailures

  /** All restarts of the run are clean; an eager one also drains before every read. */
  ghost predicate Reaches(c: Config, start: u32, x: Relic, eager: bool) {
    ReachableBy(c, start, x, true, eager)
  }

  lemma ReachesOn(c: Config, start: u32, x: Relic, step: RelicStep, eager: bool)
    requires Reaches(c, start, x, eager) && RelicEnabled(c, x, step) && (IsRestart(step) ==> CleanRestart(x))
    requires eager && BringsBlock(step) ==> x.queue == []
    ensures Reaches(c, start, RelicNext(c, x, step), eager)
  {
    hide ReachableBy, RelicNext, RelicEnabled, CleanRestart;
    ReachableOn(c, start, x, step, true, eager);
  }

  /** The receiver is about to read on. */
  ghost predicate Ready(c: Config, x: Relic) {
    var r := x.w.r;
    && r.status == Running && !r.reading && !r.slow && c.willAck && r.forkedAt == 0
    && r.acked <= r.head < r.acked + c.maxUnconfirmed && r.head + 1 < c.endBlock
    && forall k: u32 :: r.head < k ==> k !in r.db.tables.received
  }

  /** The composed system after it read and stored a plain block. */
  lemma ReachesBlock(c: Config, start: u32, x: Relic, m: Block, eager: bool) returns (y: Relic)
    requires Reaches(c, start, x, eager) && Ready(c, x) && PlainNext(x.w, m) && (eager ==> x.queue == [])
    ensures Reaches(c, start, y, eager)
    ensures var r, db := x.w.r, x.w.r.db;
      && y.w.r == TakeHead(r, m).(pauseMs := 0, db := y.w.r.db)
      && y.w.r.db == Commit(Db(ApplyBlock(db.tables, m), m.num, db.stack + [db.tables]), Min(r.acked, m.lib))
      && y == Relic(World(y.w.r, x.w.log + [m], m.lib, x.w.origin),
                    x.queue + [BlockEvent(m.num, m.id), CompletedEvent(m.num)], x.chain, x.mark, m.num)
    ensures y.w.r.db.revision == m.num && forall k: u32 :: m.num < k ==> k !in y.w.r.db.tables.received
  {
    hide Reaches, ReachableBy, Enabled, Receive, ReceiveEvents, Stored;
    PlainBlockStored(c, x.w, m);
    ReachesOn(c, start, x, Receiving(ContinueReading(0)), eager);
    var z := RelicNext(c, x, Receiving(ContinueReading(0)));
    assert z == x.(w := Next(c, x.w, ContinueReading(0)));
    ReachesOn(c, start, z, Receiving(Deliver(Some(m))), eager);
    assert Receive(c, z.w.r, m).status == Running;
    RunningStored(c, z.w.r, m);
    StoredEvents(c, z.w.r, m);
    var block: seq<Event> := [BlockEvent(m.num, m.id)];
    assert [] + block + [CompletedEvent(m.num)] == [BlockEvent(m.num, m.id), CompletedEvent(m.num)];
    y := RelicNext(c, z, Receiving(Deliver(Some(m))));
  }

  /** The composed system after a drain without a fork. */
  lemma ReachesDrained(c: Config, start: u32, x: Relic, eager: bool) returns (y: Relic)
    requires c.willAck && 1 <= c.maxUnconfirmed && Reaches(c, start, x, eager)
    requires x.w.r.status == Running && x.w.r.forkedAt == 0
    ensures Reaches(c, start, y, eager)
    ensures var r := x.w.r; var r' := r.(acked := if r.acked < r.head then r.head - 1 else r.head);
      y == Relic(x.w.(r := r'), [], RefsOf(x.w.log), r.head, r.head)
  {
    SpecialRunsAreRuns(c, start, x, true, eager);
    CleanlyReachableInv(c, start, x);
    hide Reaches, ReachableBy, ConsumeAll, AckQueue, Inv;
    DrainAbortsIff(x);
    ReachesOn(c, start, x, Drain, eager);
    y := RelicNext(c, x, Drain);
  }

  /** Start-up, and the drain that answers its FORK. */
  lemma ReachesStart(c: Config, eager: bool) returns (x: Relic)
    requires c.willAck && 1 <= c.maxUnconfirmed && 1 < c.endBlock
    ensures Reaches(c, 0, x, eager) && Ready(c, x) && x.queue == []
    ensures var r := x.w.r; r.head == 0 && r.lib == 0 && r.acked == 0 && r.db == Db(EMPTY, 0, [])
    ensures x.w.log == [] && x.w.maxLib == 0
  {
    hide Reaches, ReachableBy, RelicStart, AckQueue, ConsumeAll;
    var start := RelicStart(c, 0);
    StartFields(c);
    StartReaches(c, eager);
    ReachesOn(c, 0, start, Drain, eager);
    DrainStart(start);
    ConsumeForks([], 1);
    x := RelicNext(c, start, Drain);
  }

  lemma StartReaches(c: Config, eager: bool)
    ensures Reaches(c, 0, RelicStart(c, 0), eager)
  {
    hide ReachableBy, RelicStart;
    StartReachable(c, 0, true, eager);
  }

  lemma StartFields(c: Config)
    requires c.willAck && 1 < c.endBlock
    ensures var x := RelicStart(c, 0); var r := x.w.r;
      && r.status == Running && !r.reading && !r.slow && r.forkedAt == 1
      && r.head == 0 && r.lib == 0 && r.acked == 0 && r.db == Db(EMPTY, 0, [])
      && x.w.log == [] && x.w.maxLib == 0 && x.queue == [ForkEvent(1)] && x.chain == [] && x.mark == x.top == 0
  {
  }

  const FIRST := Block(1, 101, None, 0, 0, [], Sound)
  const SECOND := Block(2, 102, Some(101), 1, 101, [], Sound)
  const THIRD := Block(3, 103, Some(102), 2, 102, [], Sound)

  lemma FirstReplayed()
    ensures ApplyBlock(EMPTY, FIRST) == Replay([FIRST]) && Replay([FIRST]).state == Some(StateRow(1, 101, 0, 0))
  {
    ReplaySnoc([], FIRST);
    assert [] + [FIRST] == [FIRST];
  }

  lemma CommitNothing(db: Db, r: int)
    requires r <= Base(db)
    ensures Commit(db, r) == db
  {
  }

  /** One block, drained. */
  lemma ReachesOne(c: Config) returns (x: Relic)
    requires c.willAck && 2 <= c.maxUnconfirmed && 5 <= c.endBlock
    ensures Reaches(c, 0, x, true) && Ready(c, x) && x.queue == []
    ensures var r := x.w.r; r.head == 1 && r.headId == 101 && r.lib == 0 && r.acked == 0
    ensures x.w.r.db == Db(Replay([FIRST]), 1, [EMPTY]) && x.w.log == [FIRST] && x.w.maxLib == 0
  {
    hide Reaches, ReachableBy, ApplyBlock, Replay, Commit;
    x := ReachesStart(c, true);
    x := ReachesBlock(c, 0, x, FIRST, true);
    FirstReplayed();
    CommitNothing(Db(Replay([FIRST]), 1, [] + [EMPTY]), 0);
    x := ReachesDrained(c, 0, x, true);
  }

  /** Two blocks, each drained: the first is acknowledged. */
  lemma ReachesTwo(c: Config) returns (x: Relic)
    requires c.willAck && 2 <= c.maxUnconfirmed && 5 <= c.endBlock
    ensures Reaches(c, 0, x, true) && Ready(c, x) && x.queue == []
    ensures var r := x.w.r; r.head == 2 && r.headId == 102 && r.lib == 1 && r.acked == 1
    ensures x.w.r.db == Db(x.w.r.db.tables, 2, [EMPTY, Replay([FIRST])]) && x.w.log != [] && x.w.maxLib == 1
    ensures BlockRef(2, 102) in x.chain
  {
    hide Reaches, ReachableBy, ApplyBlock, Replay, Commit;
    x := ReachesOne(c);
    var db := x.w.r.db;
    x := ReachesBlock(c, 0, x, SECOND, true);
    CommitNothing(Db(ApplyBlock(db.tables, SECOND), 2, [EMPTY] + [db.tables]), 0);
    assert RefsOf(x.w.log)[1] == BlockRef(2, 102);
    x := ReachesDrained(c, 0, x, true);
  }

  /** A third block commits the first one. */
  lemma ReachesCommit(c: Config) returns (x: Relic)
    requires c.willAck && 2 <= c.maxUnconfirmed && 5 <= c.endBlock
    ensures Reaches(c, 0, x, true) && x.w.r.status == Running && x.w.maxLib == 2 && BlockRef(2, 102) in x.chain
    ensures UndoTo(x.w.r.db, Base(x.w.r.db)) == Db(Replay([FIRST]), 1, []) && x.w.r.db.stack != []
  {
    hide Reaches, ReachableBy, Replay, ApplyBlock;
    x := ReachesTwo(c);
    var t, t2 := Replay([FIRST]), x.w.r.db.tables;
    x := ReachesBlock(c, 0, x, THIRD, true);
    assert x.w.r.db == Db(ApplyBlock(t2, THIRD), 3, [t, t2]);
  }

  /** The restart after that reverts the other two blocks, of which the consumer has one, and
      announces it. */
  lemma ReachesRevert(c: Config) returns (x: Relic)
    requires c.willAck && 2 <= c.maxUnconfirmed && 5 <= c.endBlock
    ensures Reaches(c, 0, x, true)
    ensures x.w.r == Load(c, Db(Replay([FIRST]), 1, []), 0).(forkedAt := 2) && x.w.r.status == Running
    ensures x.queue == [ForkEvent(2)] && BlockRef(2, 102) in x.chain && x.mark == x.top == 1 && x.w.maxLib == 2
  {
    hide Reaches, ReachableBy, Replay;
    x := ReachesCommit(c);
    FirstReplayed();
    ReachesOn(c, 0, x, Receiving(Restart(0)), true);
    x := RelicNext(c, x, Receiving(Restart(0)));
  }

  /** A second restart can lose the FORK of the first one: nothing is left to revert, so nothing is
      announced, and the consumer keeps an orphaned block above the head. */
  lemma SecondRestartLosesFork(c: Config) returns (x: Relic)
    requires c.willAck && 2 <= c.maxUnconfirmed && 5 <= c.endBlock
    ensures EagerReachable(c, 0, x) && CleanlyReachable(c, 0, x)
    ensures x.w.r.status == Running && !CleanRestart(x)
    ensures var y := RelicNext(c, x, Receiving(Restart(0)));
      y.w.r.status == Running && y.queue == [] && exists b :: b in y.chain && y.w.r.head < b.num
  {
    hide ReachableBy, Replay;
    x := ReachesRevert(c);
    SpecialRunsAreRuns(c, 0, x, true, true);
    FirstReplayed();
    BelowSubset(x.chain, 2);
    assert BlockRef(2, 102) in RelicNext(c, x, Receiving(Restart(0))).chain;
  }

  /** So can a start refused for its start-block option: it reverts before it refuses. */
  lemma RefusedStartLosesFork(c: Config) returns (x: Relic)
    requires c.willAck && 2 <= c.maxUnconfirmed && 5 <= c.endBlock
    ensures EagerReachable(c, 0, x) && CleanlyReachable(c, 0, x)
    ensures x.w.r.status == Stopped && x.queue == [] && !CleanRestart(x)
  {
    hide ReachableBy, Replay;
    x := ReachesCommit(c);
    FirstReplayed();
    ReachesOn(c, 0, x, Receiving(Restart(5)), true);
    x := RelicNext(c, x, Receiving(Restart(5)));
    SpecialRunsAreRuns(c, 0, x, true, true);
    BelowSubset(x.chain, 2);
  }

  /** And a first block that cannot be decoded, after a start-up whose FORK was answered: once its
      BLOCK event is drained, nothing makes the next start announce a FORK. */
  lemma BadFirstBlockLosesFork(c: Config) returns (x: Relic)
    requires c.willAck && 2 <= c.maxUnconfirmed && 5 <= c.endBlock
    ensures EagerReachable(c, 0, x) && CleanlyReachable(c, 0, x)
    ensures x.w.r.status == Stopped && x.queue == [] && !CleanRestart(x)
  {
    hide ReachableBy, Replay, ConsumeAll, AckQueue, RelicInv, CleanRestart;
    var bad := Block(2, 202, Some(101), 2, 202, [], BadRows);
    x := ReachesRevert(c);
    FirstReplayed();
    ReachesOn(c, 0, x, Drain, true);
    DrainStart(x);
    x := RelicNext(c, x, Drain);
    ReachesOn(c, 0, x, Receiving(ContinueReading(0)), true);
    x := RelicNext(c, x, Receiving(ContinueReading(0)));
    var step := Receiving(Deliver(Some(bad)));
    var y := RelicNext(c, x, step);
    assert y.w.r.status == Stopped && y.w.r.db == x.w.r.db;
    ReachesOn(c, 0, x, step, true);
    ReachesOn(c, 0, y, Drain, true);
    SpecialRunsAreRuns(c, 0, x, true, true);
    StopIsCleanIff(c, 0, x, step);
    AckQueueFrame(y.w.r, y.queue);
    x := RelicNext(c, y, Drain);
    SpecialRunsAreRuns(c, 0, x, true, true);
  }

  /** Three blocks, none of them drained. */
  lemma ReachesThree(c: Config) returns (x: Relic)
    requires c.willAck && 4 <= c.maxUnconfirmed && 5 <= c.endBlock
    ensures Reaches(c, 0, x, false)
    ensures var r := x.w.r;
      && r.status == Running && !r.reading && !r.slow && r.forkedAt == 0
      && r.head == 3 && r.acked == 0 && x.w.maxLib == 0 && x.w.log != []
    ensures |x.queue| == 6 && CompletedEvent(2) in x.queue && CompletedEvent(3) in x.queue
  {
    hide Reaches, ApplyBlock, Commit;
    var m2, m3 := SECOND.(lib := 0, libId := 0), THIRD.(lib := 0, libId := 0);
    x := ReachesStart(c, false);
    x := ReachesBlock(c, 0, x, FIRST, false);
    x := ReachesBlock(c, 0, x, m2, false);
    x := ReachesBlock(c, 0, x, m3, false);
    assert x.queue[3] == CompletedEvent(2) && x.queue[5] == CompletedEvent(3);
  }

  /** If reads overtake the exporter, a fork can find two orphans still queued: three blocks are
      waiting when block 2 is replaced. */
  lemma QueuedOrphansAbort(c: Config) returns (x: Relic)
    requires c.willAck && 4 <= c.maxUnconfirmed && 5 <= c.endBlock
    ensures CleanlyReachable(c, 0, x) && x.w.r.status == Running && OrphansQueued(x)
    ensures RelicNext(c, x, Drain).w.r.status == Stopped
  {
    hide Reaches, ReachableBy, Receive, AckQueue, ConsumeAll;
    x := ReachesThree(c);
    var waiting := x.queue;
    ReachesOn(c, 0, x, Receiving(ContinueReading(0)), false);
    x := RelicNext(c, x, Receiving(ContinueReading(0)));
    var fork := Block(2, 202, Some(101), 0, 0, [], Sound);
    ReachesOn(c, 0, x, Receiving(Deliver(Some(fork))), false);
    ReachesQueue(c, 0, x, false);
    ForkStored(c, x, fork);
    x := RelicNext(c, x, Receiving(Deliver(Some(fork))));
    assert x.queue[..|x.queue| - 3] == waiting;
    IsReached(c, 0, x);
    ExporterAbortsIff(c, 0, x);
  }

  lemma IsReached(c: Config, start: u32, x: Relic)
    requires Reaches(c, start, x, false)
    ensures RelicReachable(c, start, x) && CleanlyReachable(c, start, x)
  {
    SpecialRunsAreRuns(c, start, x, true, false);
  }

  lemma ReachesQueue(c: Config, start: u32, x: Relic, eager: bool)
    requires c.willAck && 1 <= c.maxUnconfirmed && Reaches(c, start, x, eager)
    ensures QueueInv(c, x)
  {
    SpecialRunsAreRuns(c, start, x, true, eager);
    ReachableQueue(c, start, x);
  }

  lemma ForkStored(c: Config, x: Relic, m: Block)
    requires QueueInv(c, x) && x.w.r.status == Running
    requires Upstream(x.w, m) && IsFork(x.w.r, m) && m.num != 1 && m.fault == Sound
    ensures var y := RelicNext(c, x, Receiving(Deliver(Some(m))));
      && y.w.r.status == Running && y.w.r.forkedAt == m.num
      && y.queue == x.queue + [ForkEvent(m.num), BlockEvent(m.num, m.id), CompletedEvent(m.num)]
  {
    hide Inv, Receive, ReceiveEvents, Stored;
    InvariantStopsIff(c, x.w, m);
    RunningStored(c, x.w.r, m);
    StoredFields(c, x.w, m);
    StoredEvents(c, x.w.r, m);
    assert [ForkEvent(m.num)] + [BlockEvent(m.num, m.id)] + [CompletedEvent(m.num)]
      == [ForkEvent(m.num), BlockEvent(m.num, m.id), CompletedEvent(m.num)];
  }
}
