/** Acknowledgements against forks, commits and the unconfirmed window, and the exact conditions
    under which the receiver's rollback and revision counting work at all. */
module FlowControl {
  import opened Basics
  import opened Messages
  import opened Tables
  import opened Chainbase
  import opened AbiCache
  import opened ReceiverModel
  import opened ReceiverRuns

  // ---- when rollback and alignment fail ----

  /** The undo loop of a fork runs for ever exactly when the forked block was already committed:
      then the loop condition still holds after any number of undos.  Nothing in the fork branch
      compares the two. */
  lemma DivergesIff(c: Config, s: State, m: Block)
    requires s.status == Running
    ensures Receive(c, s, m).status == Diverged <==>
      IsFork(s, m) && s.lib <= m.lib && m.num <= Base(s.db)
    ensures Receive(c, s, m).status == Diverged <==>
      IsFork(s, m) && s.lib <= m.lib && forall k: nat :: UndoTimes(s.db, k).revision >= m.num
  {
    var s0 := s.(reading := false);
    var s1 := AlignRevision(s0, m.num);
    UndoLoopEndlessIff(s.db, m.num);
    if IsFork(s, m) && s1.status == Running {
      assert m.num <= Base(s1.db) <==> m.num <= Base(s.db);
    }
  }

  /** A live block without rows that continues the chain. */
  ghost predicate PlainNext(w: World, m: Block) {
    && w.maxLib <= m.lib < m.num == w.r.head + 1 == w.r.db.revision + 1 < 0xffff_ffff
    && w.r.lib <= m.lib && (w.log == [] ==> w.r.head <= m.lib)
    && (w.r.head == 0 || m.prev == Some(w.r.headId)) && m.rows == [] && m.fault == Sound
    && m.num !in w.r.db.tables.received
  }

  /** What reading and storing it makes of the receiver. */
  function WithBlock(c: Config, w: World, m: Block): World {
    var s := TakeHead(w.r, m).(reading := false, pauseMs := 0,
      db := Begin(w.r.db).(tables := ApplyBlock(w.r.db.tables, m)));
    World(CommitDb(c, s), w.log + [m], m.lib, w.origin)
  }

  lemma PlainBlockStored(c: Config, w: World, m: Block)
    requires w.r.status == Running && !w.r.reading && !MustPause(c, w.r, 0) && PlainNext(w, m)
    ensures Enabled(c, w, ContinueReading(0)) && Enabled(c, Next(c, w, ContinueReading(0)), Deliver(Some(m)))
    ensures Next(c, Next(c, w, ContinueReading(0)), Deliver(Some(m))) == WithBlock(c, w, m)
  {
    hide ApplyBlock;
    var s := w.r.(reading := true, pauseMs := 0);
    assert Poll(c, w.r, 0) == s;
    assert Admit(c, s.(reading := false), m) == s.(reading := false);
    assert Receive(c, s, m) == WithBlock(c, w, m).r;
  }

  lemma LeadsOnToBlock(c: Config, first: World, w: World, m: Block)
    requires Leads(c, first, w)
    requires w.r.status == Running && !w.r.reading && !MustPause(c, w.r, 0) && PlainNext(w, m)
    ensures Leads(c, first, WithBlock(c, w, m))
  {
    hide Leads, Enabled, Next, WithBlock, PlainNext;
    PlainBlockStored(c, w, m);
    LeadsOn(c, first, w, ContinueReading(0));
    LeadsOn(c, first, Next(c, w, ContinueReading(0)), Deliver(Some(m)));
  }

  /** It does happen, as soon as a restarted receiver is served by a node that lags: the restart takes
      the last irreversible block from the committed row, which was written when the committed block
      itself was still reversible.  The node's last irreversible block then passes the check although
      its fork goes below the committed revision. */
  lemma LaggingNodeDiverges(c: Config) returns (w: World, m: Block)
    requires !c.willAck && 3 < c.endBlock
    ensures Reachable(c, 0, w) && w.r.status == Running && w.r.reading
    ensures w.r.lib <= m.lib < w.maxLib && m.num == w.r.head
    ensures Receive(c, w.r, m).status == Diverged
  {
    hide Leads, Receive;
    var first := FirstStart(c, 0);
    var m1, m2 := Block(1, 101, None, 0, 0, [], Sound), Block(2, 102, Some(101), 1, 101, [], Sound);
    LeadsNowhere(c, first);
    LeadsOnToBlock(c, first, first, m1);
    var t, w1 := ApplyBlock(EMPTY, m1), WithBlock(c, first, m1);
    assert w1.r.db == Db(t, 1, [EMPTY]) && 2 !in t.received;
    LeadsOnToBlock(c, first, w1, m2);
    var w2 := WithBlock(c, w1, m2);
    assert w2.r.db == Db(ApplyBlock(t, m2), 2, [t]);
    LeadsOn(c, first, w2, Restart(0));
    var w3 := Next(c, w2, Restart(0));
    assert w3.r.db == Db(t, 1, []) && w3.r.head == 1 && w3.r.lib == 0;
    LeadsOn(c, first, w3, ContinueReading(0));
    w, m := Next(c, w3, ContinueReading(0)), Block(1, 201, None, 0, 0, [], Sound);
    DivergesIff(c, w.r, m);
  }

  /** A stored block leaves the revision equal to the head, unless it is both not above the old head
      and irreversible: such a block takes neither the fork branch nor any other check. */
  lemma AlignedIff(c: Config, s: State, m: Block)
    requires s.status == Running && s.db.revision == s.head
    requires Receive(c, s, m).status == Running
    ensures var s' := Receive(c, s, m);
      s'.db.revision == s'.head <==> !(m.num <= s.head && m.num <= m.lib)
  {
    var s1 := Admit(c, s.(reading := false), m);
    assert s1.status == Running;
    ProcessCountsUp(c, TakeHead(s1, m), m);
    hide Process;
  }

  lemma ProcessCountsUp(c: Config, s: State, m: Block)
    requires Process(c, s, m).status == Running
    ensures Process(c, s, m).db.revision == s.db.revision + 1
    ensures Process(c, s, m).head == s.head
  {
    hide ApplyBlock, CacheRows;
  }

  // ---- the handshake after a fork ----

  /** The receiver has announced a fork at its head and waits for the block before it. */
  ghost predicate AwaitingForkAck(c: Config, s: State) {
    c.willAck && s.forkedAt > 0 && s.head == s.forkedAt && s.acked <= s.forkedAt - 1 && !s.reading
  }

  lemma ForkAwaitsAck(c: Config, w: World, m: Block)
    requires c.willAck && Inv(w) && w.r.status == Running && Upstream(w, m) && IsFork(w.r, m)
    requires Receive(c, w.r, m).status == Running
    ensures var s := Receive(c, w.r, m);
      && AwaitingForkAck(c, s) && s.forkedAt == m.num && Base(s.db) <= m.num - 1
  {
    var w0 := w.(r := w.r.(reading := false));
    AdmitsFork(c, w0, m);
    var s := Admit(c, w0.r, m);
    assert s == RollBack(c, w0.r, m.num);
    assert s.acked <= m.num - 1;
    AdmitKeepsReplayed(c, w0, m);
    CommitKeepsReplayed(s.db, Survivors(w0, m), w.origin, 0);
    StoreKeepsReplayed(c, TakeHead(s, m), Survivors(w0, m), w.origin, m);
    assert Base(s.db) <= m.num - 1;
  }

  /** Everything of a receiver that a consumer could notice. */
  ghost predicate SameChain(w: World, w': World) {
    w'.r.db == w.r.db && w'.log == w.log && w'.r.head == w.r.head && w'.r.forkedAt == w.r.forkedAt
  }

  /** Fork handshake.  From a network fork at B until block B-1 is acknowledged, and whatever other
      acknowledgements, pauses and decoding happen meanwhile: no block is received, nothing is
      committed, and the acknowledged block stays below B. */
  lemma {:induction false} ForkBlocksUntilAck(c: Config, ws: seq<World>, steps: seq<Step>, n: nat)
    requires Run(c, ws, steps) && AwaitingForkAck(c, ws[0].r) && n <= |steps|
    requires forall i :: 0 <= i < n ==> !steps[i].Restart? && steps[i] != Acknowledge(ws[0].r.forkedAt - 1)
    ensures SameChain(ws[0], ws[n]) && AwaitingForkAck(c, ws[n].r)
    ensures forall i :: 0 <= i < n ==> !steps[i].Deliver?
  {
    if n > 0 {
      ForkBlocksUntilAck(c, ws, steps, n - 1);
      assert Moves(c, ws[n - 1], steps[n - 1], ws[n - 1 + 1]);
    }
  }

  // ---- the unconfirmed window ----

  /** Acknowledgements that take effect neither go back nor pass the head. */
  ghost predicate HonestAck(s: State, num: u32) {
    if s.forkedAt > 0 then num <= s.forkedAt - 1 ==> s.acked <= num else num <= s.head
  }

  ghost predicate HonestStep(w: World, step: Step) {
    step.Acknowledge? ==> HonestAck(w.r, step.num)
  }

  /** Committed <= acknowledged <= head, and no more than the configured number of blocks between
      the last two. */
  ghost predicate Window(c: Config, w: World) {
    w.r.status == Running ==>
      && Base(w.r.db) <= w.r.acked
      && w.origin <= w.r.acked <= w.r.head
      && w.r.head - w.r.acked <= c.maxUnconfirmed
      && (w.r.reading ==> w.r.forkedAt == 0 && w.r.head - w.r.acked < c.maxUnconfirmed)
      && w.r.forkedAt <= w.r.head + 1
  }

  lemma StoreStaysAcked(c: Config, s: State, m: Block)
    requires c.willAck && Base(s.db) <= s.acked && 0 <= s.db.revision
    ensures Base(ReceiverModel.StoreBlock(c, s, m).db) <= s.acked
    ensures var r := ReceiverModel.StoreBlock(c, s, m); r == s.(db := r.db, cache := r.cache, status := r.status)
  {
    var db := Begin(s.db).(tables := ApplyBlock(s.db.tables, m));
    assert Base(db) == Base(s.db);
    assert Base(Commit(db, CommitPoint(c, s))) <= Max(Base(db), CommitPoint(c, s));
  }

  lemma AdmitKeepsAcked(c: Config, w: World, m: Block)
    requires c.willAck && Inv(w) && Window(c, w) && w.r.status == Running && w.r.reading && Upstream(w, m)
    ensures var s := Admit(c, w.r.(reading := false), m);
      s.status == Running ==>
        && Base(s.db) <= s.acked && w.origin <= s.acked <= m.num && 0 <= s.db.revision
        && m.num - s.acked <= Max(1, c.maxUnconfirmed)
        && s.forkedAt <= m.num && !s.reading
  {
    hide Replayed, LibsAscend, Coherent;
    var w0 := w.(r := w.r.(reading := false));
    if IsFork(w.r, m) {
      AdmitsFork(c, w0, m);
    } else {
      AdmitsNext(c, w0, m);
    }
  }

  lemma DeliverKeepsWindow(c: Config, w: World, m: Block)
    requires c.willAck && 1 <= c.maxUnconfirmed
    requires Inv(w) && Window(c, w) && w.r.status == Running && w.r.reading && Upstream(w, m)
    ensures Window(c, Next(c, w, Deliver(Some(m))))
  {
    AdmitKeepsAcked(c, w, m);
    DeliverOutcome(c, w, m);
    hide Inv, Admit, Receive, Next, Upstream, Stored, ReceiverModel.StoreBlock;
    var s := Admit(c, w.r.(reading := false), m);
    if s.status == Running {
      StoreStaysAcked(c, TakeHead(s, m), m);
    }
  }

  lemma RestartKeepsWindow(c: Config, w: World, start: u32)
    requires c.willAck && Inv(w) && Enabled(c, w, Restart(start))
    ensures Window(c, Next(c, w, Restart(start)))
  {
    LoadOutcome(c, w.r.db, start);
    RestartKeepsReplayed(w);
    RestartKeepsInv(c, w, start);
  }

  lemma NextKeepsWindow(c: Config, w: World, step: Step)
    requires c.willAck && 1 <= c.maxUnconfirmed
    requires Inv(w) && Window(c, w) && Enabled(c, w, step) && HonestStep(w, step)
    ensures Window(c, Next(c, w, step))
  {
    hide Replayed, LibsAscend, Coherent, Receive, Load;
    match step
    case Deliver(message) =>
      if message.Some? {
        DeliverKeepsWindow(c, w, message.value);
      }
    case Restart(start) => RestartKeepsWindow(c, w, start);
    case ContinueReading(_) =>
    case Acknowledge(_) =>
    case DecodeFor(_) =>
    case SetSlowdown(_) =>
  }

  lemma {:induction false} RunKeepsWindow(c: Config, ws: seq<World>, steps: seq<Step>, n: nat)
    requires c.willAck && 1 <= c.maxUnconfirmed
    requires Run(c, ws, steps) && Inv(ws[0]) && Window(c, ws[0]) && n <= |steps|
    requires forall i :: 0 <= i < |steps| ==> HonestStep(ws[i], steps[i])
    ensures Inv(ws[n]) && Window(c, ws[n])
  {
    if n > 0 {
      RunKeepsWindow(c, ws, steps, n - 1);
      assert Moves(c, ws[n - 1], steps[n - 1], ws[n - 1 + 1]);
      NextKeepsInv(c, ws[n - 1], steps[n - 1]);
      NextKeepsWindow(c, ws[n - 1], steps[n - 1]);
    }
  }

  /** Reachable with acknowledgements that never go back and never pass the head. */
  ghost predicate HonestlyReachable(c: Config, start: u32, w: World) {
    exists ws, steps ::
      && Run(c, ws, steps) && ws[0] == FirstStart(c, start) && Last(ws) == w
      && forall i :: 0 <= i < |steps| ==> HonestStep(ws[i], steps[i])
  }

  lemma HonestlyReachableWindow(c: Config, start: u32, w: World)
    requires c.willAck && 1 <= c.maxUnconfirmed && HonestlyReachable(c, start, w)
    ensures Inv(w) && Window(c, w)
  {
    var ws, steps :| Run(c, ws, steps) && ws[0] == FirstStart(c, start) && Last(ws) == w
      && forall i :: 0 <= i < |steps| ==> HonestStep(ws[i], steps[i]);
    FirstStartWindow(c, start);
    RunKeepsWindow(c, ws, steps, |steps|);
  }

  lemma FirstStartWindow(c: Config, start: u32)
    requires c.willAck
    ensures Inv(FirstStart(c, start)) && Window(c, FirstStart(c, start))
  {
  }

  /** Bounded unconfirmed window.  Every running state of every such run, forks and restarts
      included, has its acknowledged block between the committed one and the head, at most
      `maxUnconfirmed` behind the head; the unsigned subtraction of check_pause never wraps. */
  lemma WindowStaysBounded(c: Config, start: u32, w: World)
    requires c.willAck && 1 <= c.maxUnconfirmed && HonestlyReachable(c, start, w) && w.r.status == Running
    ensures Base(w.r.db) <= w.r.acked <= w.r.head
    ensures w.r.head - w.r.acked <= c.maxUnconfirmed && Sub32(w.r.head, w.r.acked) == w.r.head - w.r.acked
  {
    HonestlyReachableWindow(c, start, w);
  }

  // ---- committed and acknowledged ----

  ghost predicate CommittedIsAcked(w: World) {
    w.r.status == Running ==> Base(w.r.db) <= w.r.acked && w.origin <= w.r.acked
  }

  /** The only acknowledgements that go back are those before the one a fork waits for; these must not
      go below the committed block, nor below the block before the first one requested. */
  ghost predicate ModestStep(w: World, step: Step) {
    step.Acknowledge? && w.r.forkedAt > 0 && step.num <= w.r.forkedAt - 1 ==>
      Base(w.r.db) <= step.num && w.origin <= step.num
  }

  lemma DeliverStaysAcked(c: Config, w: World, m: Block)
    requires c.willAck && Inv(w) && CommittedIsAcked(w) && w.r.status == Running && Upstream(w, m)
    ensures CommittedIsAcked(Next(c, w, Deliver(Some(m))))
  {
    hide Replayed, LibsAscend, Coherent, Stored, ReceiverModel.StoreBlock;
    var w0 := w.(r := w.r.(reading := false));
    DeliverOutcome(c, w, m);
    if IsFork(w.r, m) {
      AdmitsFork(c, w0, m);
    } else {
      AdmitsNext(c, w0, m);
    }
    AdmitKeepsReplayed(c, w0, m);
    var s := Admit(c, w0.r, m);
    hide Admit, Receive, Inv, Next;
    if s.status == Running {
      StoreStaysAcked(c, TakeHead(s, m), m);
    }
  }

  /** Whether an acknowledgement keeps the committed block acknowledged. */
  lemma AckStaysAckedIff(c: Config, w: World, num: u32)
    requires CommittedIsAcked(w) && Enabled(c, w, Acknowledge(num))
    ensures CommittedIsAcked(Next(c, w, Acknowledge(num))) <==> ModestStep(w, Acknowledge(num))
  {
  }

  lemma NextStaysAcked(c: Config, w: World, step: Step)
    requires c.willAck && Inv(w) && CommittedIsAcked(w) && Enabled(c, w, step) && ModestStep(w, step)
    ensures CommittedIsAcked(Next(c, w, step))
  {
    hide Inv, Receive, Load;
    match step
    case Deliver(message) =>
      if message.Some? {
        DeliverStaysAcked(c, w, message.value);
      }
    case Restart(start) =>
      LoadOutcome(c, w.r.db, start);
      RestartKeepsReplayed(w);
      RestartKeepsInv(c, w, start);
    case Acknowledge(num) => AckStaysAckedIff(c, w, num);
    case ContinueReading(_) =>
    case DecodeFor(_) =>
    case SetSlowdown(_) =>
  }

  lemma {:induction false} RunStaysAcked(c: Config, ws: seq<World>, steps: seq<Step>, n: nat)
    requires c.willAck && Run(c, ws, steps) && Inv(ws[0]) && CommittedIsAcked(ws[0]) && n <= |steps|
    requires forall i :: 0 <= i < |steps| ==> ModestStep(ws[i], steps[i])
    ensures Inv(ws[n]) && CommittedIsAcked(ws[n])
  {
    if n > 0 {
      hide Inv, CommittedIsAcked, Next, Enabled, ModestStep;
      RunStaysAcked(c, ws, steps, n - 1);
      assert Moves(c, ws[n - 1], steps[n - 1], ws[n - 1 + 1]);
      NextKeepsInv(c, ws[n - 1], steps[n - 1]);
      NextStaysAcked(c, ws[n - 1], steps[n - 1]);
    }
  }

  ghost predicate ModestlyReachable(c: Config, start: u32, w: World) {
    exists ws, steps ::
      && Run(c, ws, steps) && ws[0] == FirstStart(c, start) && Last(ws) == w
      && forall i :: 0 <= i < |steps| ==> ModestStep(ws[i], steps[i])
  }

  /** Nothing unacknowledged is committed, in every run whose acknowledgements do not go below the
      committed block while a fork is pending, and whatever else they are. */
  lemma CommittedIsAcknowledged(c: Config, start: u32, w: World)
    requires c.willAck && ModestlyReachable(c, start, w)
    ensures Inv(w)
    ensures w.r.status == Running ==> Base(w.r.db) <= w.r.acked
  {
    var ws, steps :| Run(c, ws, steps) && ws[0] == FirstStart(c, start) && Last(ws) == w
      && forall i :: 0 <= i < |steps| ==> ModestStep(ws[i], steps[i]);
    FirstStartWindow(c, start);
    RunStaysAcked(c, ws, steps, |steps|);
  }

  /** Nothing unacknowledged or reversible is lost: in these runs a restart resumes no later than right
      after min(last irreversible, acknowledged). */
  lemma RestartResumesInTime(c: Config, start: u32, w: World, restart: u32)
    requires c.willAck && ModestlyReachable(c, start, w) && w.r.status == Running
    requires w.log != [] && Enabled(c, w, Restart(restart))
    ensures Next(c, w, Restart(restart)).r.head <= Min(w.maxLib, w.r.acked)
  {
    CommittedIsAcknowledged(c, start, w);
    RestartKeepsReplayed(w);
    RestartKeepsInv(c, w, restart);
  }

  // ---- pauses ----

  /** What can hold reading back: the exporter's slowdown flag, a full priority queue, the block before
      the end block, and for an acknowledging exporter a pending fork or a full window. */
  ghost predicate HeldBack(c: Config, s: State, queueSize: nat) {
    || s.slow
    || c.maxQueue < queueSize
    || (s.head + 1) % 0x1_0000_0000 == c.endBlock
    || (c.willAck && (s.forkedAt != 0 || c.maxUnconfirmed <= (s.head - s.acked) % 0x1_0000_0000))
  }

  /** The end block is reached, irreversible, and acknowledged if anyone acknowledges. */
  ghost predicate AtEnd(c: Config, s: State) {
    (s.head + 1) % 0x1_0000_0000 == c.endBlock && s.head <= s.lib && (c.willAck ==> s.acked == s.head)
  }

  lemma PollsIff(c: Config, s: State, queueSize: nat)
    requires s.status == Running && !s.reading
    ensures var s' := Poll(c, s, queueSize);
      && (s'.reading <==> !HeldBack(c, s, queueSize)) && (s'.reading ==> s'.pauseMs == 0)
      && (s'.status == Stopped <==> AtEnd(c, s))
      && (s'.status == Stopped ==> s'.db == Commit(s.db, CommitPoint(c, s)))
      && (s'.status != Stopped ==> s' == s.(reading := s'.reading, pauseMs := s'.pauseMs))
  {
    assert Sub32(s.head, s.acked) == (s.head - s.acked) % 0x1_0000_0000;
    hide Sub32, CommitPoint, Commit;
  }

  lemma EndIsCommitted(c: Config, w: World)
    requires Inv(w) && w.r.status == Running && AtEnd(c, w.r)
    ensures Commit(w.r.db, CommitPoint(c, w.r)).stack == []
  {
    hide Replay, LibsAscend, Coherent;
  }

  /** The receiver reads on exactly if nothing holds it back, and stops exactly at its end block, then
      with everything it stored committed. */
  lemma ReadsIff(c: Config, start: u32, w: World, queueSize: nat)
    requires Reachable(c, start, w) && Enabled(c, w, ContinueReading(queueSize))
    ensures var s' := Next(c, w, ContinueReading(queueSize)).r;
      && (s'.reading <==> !HeldBack(c, w.r, queueSize)) && (s'.reading ==> s'.pauseMs == 0)
      && (s'.status == Stopped <==> AtEnd(c, w.r))
      && (s'.status == Stopped ==> s'.db.stack == [] && s'.db.tables == w.r.db.tables)
      && (s'.status != Stopped ==> s' == w.r.(reading := s'.reading, pauseMs := s'.pauseMs))
  {
    ReachableInv(c, start, w);
    PollsIff(c, w.r, queueSize);
    hide Poll, Inv, HeldBack, AtEnd, Reachable;
    if AtEnd(c, w.r) {
      EndIsCommitted(c, w);
    }
  }

  /** Backpressure works.  From the moment the exporter sets the slowdown flag with no read outstanding,
      and until it clears the flag or the process is restarted, no block is received. */
  lemma {:induction false} SlowBlocksReading(c: Config, ws: seq<World>, steps: seq<Step>, n: nat)
    requires Run(c, ws, steps) && ws[0].r.slow && !ws[0].r.reading && n <= |steps|
    requires forall i :: 0 <= i < n ==> !steps[i].Restart? && steps[i] != SetSlowdown(false)
    ensures ws[n].r.slow && !ws[n].r.reading
    ensures ws[n].log == ws[0].log && ws[n].r.db.tables == ws[0].r.db.tables && ws[n].r.head == ws[0].r.head
    ensures forall i :: 0 <= i < n ==> !steps[i].Deliver?
  {
    if n > 0 {
      SlowBlocksReading(c, ws, steps, n - 1);
      assert Moves(c, ws[n - 1], steps[n - 1], ws[n - 1 + 1]);
    }
  }

  /** A receiver that is held back looks again after 50 ms, then every time 50 ms later, up to half a
      second; a read starts the count again. */
  lemma {:induction false} PauseGrows(c: Config, ws: seq<World>, steps: seq<Step>, n: nat)
    requires Run(c, ws, steps) && ws[0].r.pauseMs == 0 && n <= |steps|
    requires forall i :: 0 <= i < n ==> steps[i].ContinueReading?
    requires ws[n].r.status == Running && !ws[n].r.reading
    ensures ws[n].r.pauseMs == Min(50 * n, 500)
  {
    if n > 0 {
      assert Moves(c, ws[n - 1], steps[n - 1], ws[n - 1 + 1]);
      PauseGrows(c, ws, steps, n - 1);
    }
  }
}
