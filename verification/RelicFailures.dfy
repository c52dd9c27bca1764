/** Where receiver, exporter and consumer together fall short, and exactly when: aborts, unclean
    restarts, stalls, and the end block that is never reached. */
module RelicFailures {
  import opened Basics
  import opened Messages
  import opened Tables
  import opened Chainbase
  import opened AbiCache
  import opened ReceiverModel
  import opened ReceiverRuns
  import opened FlowControl
  import opened RelicExporter
  import opened Chains
  import opened RelicSystem
  import opened RelicMirror

  // ---- aborts and restarts ----

  /** After a run with clean restarts only, a running receiver can be restarted cleanly unless it still
      waits for the answer to the FORK of its own start-up. */
  lemma RestartIsCleanOnceAnswered(c: Config, start: u32, x: Relic)
    requires c.willAck && 1 <= c.maxUnconfirmed && CleanlyReachable(c, start, x)
    requires x.w.r.status == Running && x.w.r.forkedAt != Inc32(x.w.r.head)
    ensures CleanRestart(x)
  {
    hide CleanlyReachable, Below, LibsAscend, Coherent;
    CleanlyReachableInv(c, start, x);
    if x.w.log != [] && x.w.r.db.stack == [] {
      assert PlainQueue(x) && x.queue == [];
      BelowAll(x.chain, x.w.r.head + 1);
    }
  }

  /** The fork at b found the completions of two orphaned blocks, b and b + 1, still waiting. */
  ghost predicate OrphansQueued(x: Relic) {
    var b := x.w.r.forkedAt;
    && 0 < b && 3 <= |x.queue|
    && CompletedEvent(b) in x.queue[..|x.queue| - 3]
    && CompletedEvent(Inc32(b)) in x.queue[..|x.queue| - 3]
  }

  /** In every run, the exporter's next callback aborts the receiver exactly when a fork is pending
      and both of these orphans were queued before it. */
  lemma ExporterAbortsIff(c: Config, start: u32, x: Relic)
    requires c.willAck && 1 <= c.maxUnconfirmed && RelicReachable(c, start, x) && x.w.r.status == Running
    ensures RelicNext(c, x, Drain).w.r.status == (if OrphansQueued(x) then Stopped else Running)
  {
    hide RelicReachable, Inv, ConsumeAll;
    ReachableQueue(c, start, x);
    DrainAbortsIff(x);
    var b := x.w.r.forkedAt;
    if ForkQueue(x) {
      PlainHolds(x.queue[..|x.queue| - 3], x.mark, x.top, b);
      PlainHolds(x.queue[..|x.queue| - 3], x.mark, x.top, Inc32(b));
    }
  }

  /** If every block arrives at an empty queue, the queue never holds more than the events of one. */
  lemma {:induction false} EagerQueueIsShort(
    c: Config, start: u32, xs: seq<Relic>, steps: seq<RelicStep>, n: nat)
    requires ReachedBy(c, start, xs, steps, false, true) && n <= |steps|
    ensures |xs[n].queue| <= 3
  {
    if n > 0 {
      hide RelicEnabled;
      EagerQueueIsShort(c, start, xs, steps, n - 1);
      assert RelicMoves(c, xs[n - 1], steps[n - 1], xs[n - 1 + 1]);
    }
  }

  /** ... and no callback of the exporter ever aborts the receiver. */
  lemma EagerNeverAborts(c: Config, start: u32, x: Relic)
    requires c.willAck && 1 <= c.maxUnconfirmed && EagerReachable(c, start, x) && x.w.r.status == Running
    ensures RelicNext(c, x, Drain).w.r.status == Running
  {
    var xs, steps :| ReachedBy(c, start, xs, steps, false, true) && Last(xs) == x;
    EagerQueueIsShort(c, start, xs, steps, |steps|);
    SpecialRunsAreRuns(c, start, x, false, true);
    hide RelicReachable, EagerReachable, RelicNext;
    ExporterAbortsIff(c, start, x);
  }

  // ---- progress ----

  /** In every run: after the exporter's callback a receiver that nothing else holds back reads on if
      and only if the unconfirmed window is at least 2, or no block is unacknowledged. */
  lemma ReadsOnIff(c: Config, start: u32, x: Relic, queueSize: nat)
    requires c.willAck && 1 <= c.maxUnconfirmed && RelicReachable(c, start, x) && x.w.r.status == Running
    requires RelicNext(c, x, Drain).w.r.status == Running
    requires !x.w.r.reading && !x.w.r.slow && queueSize <= c.maxQueue && x.w.r.head != Dec32(c.endBlock)
    ensures var y := RelicNext(c, x, Drain);
      RelicNext(c, y, Receiving(ContinueReading(queueSize))).w.r.reading <==>
        2 <= c.maxUnconfirmed || y.w.r.acked == y.w.r.head
  {
    hide RelicReachable, Inv, ConsumeAll;
    ReachableQueue(c, start, x);
    DrainAbortsIff(x);
  }

  /** The newest block is never acknowledged before the next one arrives. */
  ghost predicate Behind(x: Relic) {
    x.w.r.status == Running ==> x.w.r.acked < x.w.r.head
  }

  lemma BlockLeavesBehind(c: Config, x: Relic, m: Block)
    requires QueueInv(c, x) && RelicEnabled(c, x, Receiving(Deliver(Some(m))))
    ensures Behind(RelicNext(c, x, Receiving(Deliver(Some(m)))))
  {
    hide Inv, ConsumeAll, Receive, Upstream, Stored;
    if Receive(c, x.w.r, m).status == Running {
      RunningStored(c, x.w.r, m);
      StoredFields(c, x.w, m);
      HeadNumber(x.w);
    }
  }

  lemma StaysBehind(c: Config, x: Relic, step: RelicStep)
    requires QueueInv(c, x) && Behind(x) && RelicEnabled(c, x, step) && !IsRestart(step)
    ensures Behind(RelicNext(c, x, step))
  {
    hide Inv, ConsumeAll, Receive;
    match step
    case Drain =>
      AckQueueFrame(x.w.r, x.queue);
      if RelicNext(c, x, Drain).w.r.status == Running {
        DrainAbortsIff(x);
      }
    case Receiving(Deliver(Some(m))) => BlockLeavesBehind(c, x, m);
    case Receiving(_) =>
  }

  /** Once a block arrived, and until the next restart, the head is never acknowledged. */
  lemma {:induction false} NewestStaysUnacknowledged(
    c: Config, start: u32, xs: seq<Relic>, steps: seq<RelicStep>, n: nat)
    requires c.willAck && 1 <= c.maxUnconfirmed && RelicRun(c, xs, steps) && RelicReachable(c, start, xs[0])
    requires 1 <= n <= |steps| && BringsBlock(steps[0]) && forall i :: 1 <= i < n ==> !IsRestart(steps[i])
    ensures QueueInv(c, xs[n])
    ensures xs[n].w.r.status == Running ==> xs[n].w.r.acked < xs[n].w.r.head
  {
    hide RelicReachable, QueueInv, RelicNext, RelicEnabled;
    var x, step := xs[n - 1], steps[n - 1];
    assert RelicMoves(c, x, step, xs[n - 1 + 1]);
    if n == 1 {
      ReachableQueue(c, start, x);
      BlockLeavesBehind(c, x, step.step.message.value);
    } else {
      NewestStaysUnacknowledged(c, start, xs, steps, n - 1);
      StaysBehind(c, x, step);
    }
    NextKeepsQueue(c, x, step);
  }

  // ---- the end block ----

  /** Nothing is committed as far as the last block before the end block, the only way to acknowledge
      the head is to restart at it, and that leaves room for another block. */
  ghost predicate BeforeEnd(c: Config, start: u32, x: Relic) {
    var r := x.w.r;
    && x.w.origin == InitialRow(start).head
    && (x.w.log != [] ==> Base(r.db) + 1 < c.endBlock)
    && (r.status == Running ==>
      && r.head < c.endBlock
      && (r.reading ==> r.head + 1 < c.endBlock)
      && (x.w.log == [] ==> r.lib == 0)
      && (x.w.log != [] ==> r.acked < r.head || r.head == Base(r.db)))
  }

  lemma FinishedIsEmpty(c: Config, start: u32, x: Relic)
    requires QueueInv(c, x) && BeforeEnd(c, start, x) && x.w.r.status == Running && Finished(c, x.w.r)
    ensures x.w.log == [] && c.endBlock == 1 && InitialRow(start).head == 0
  {
    HeadNumber(x.w);
  }

  lemma PollStaysBeforeEnd(c: Config, start: u32, x: Relic, queueSize: nat)
    requires QueueInv(c, x) && BeforeEnd(c, start, x) && x.w.r.status == Running && !x.w.r.reading
    ensures BeforeEnd(c, start, RelicNext(c, x, Receiving(ContinueReading(queueSize))))
  {
    hide QueueInv;
    if Finished(c, x.w.r) {
      FinishedIsEmpty(c, start, x);
    }
  }

  lemma BlockStaysBeforeEnd(c: Config, start: u32, x: Relic, m: Block)
    requires QueueInv(c, x) && BeforeEnd(c, start, x) && RelicEnabled(c, x, Receiving(Deliver(Some(m))))
    ensures BeforeEnd(c, start, RelicNext(c, x, Receiving(Deliver(Some(m)))))
  {
    hide Inv, ConsumeAll, Receive, ReceiveEvents, Stored, Shaped;
    HeadNumber(x.w);
    if Stored(c, x.w.r, m) {
      StoredFields(c, x.w, m);
      StoredCommits(c, x.w, m);
    } else {
      StoppedFields(c, x.w, m);
      if Receive(c, x.w.r, m).status == Running {
        RunningStored(c, x.w.r, m);
      }
    }
  }

  lemma RestartStaysBeforeEnd(c: Config, first: u32, x: Relic, start: u32)
    requires QueueInv(c, x) && BeforeEnd(c, first, x) && RelicEnabled(c, x, Receiving(Restart(start)))
    ensures BeforeEnd(c, first, RelicNext(c, x, Receiving(Restart(start))))
  {
    hide Inv, ConsumeAll, LoadEvents, Below;
    var y := RelicNext(c, x, Receiving(Restart(start)));
    RestartKeepsCommitted(c, x.w, start);
    StateRowIff(y.w);
    LogNumbers(x.w);
  }

  lemma StaysBeforeEnd(c: Config, start: u32, x: Relic, step: RelicStep)
    requires QueueInv(c, x) && BeforeEnd(c, start, x) && RelicEnabled(c, x, step)
    ensures BeforeEnd(c, start, RelicNext(c, x, step))
  {
    match step
    case Drain =>
      hide Inv, ConsumeAll, AckQueue;
      AckQueueFrame(x.w.r, x.queue);
      if x.w.r.status == Running {
        DrainAbortsIff(x);
      }
    case Receiving(Restart(again)) => RestartStaysBeforeEnd(c, start, x, again);
    case Receiving(Deliver(Some(m))) => BlockStaysBeforeEnd(c, start, x, m);
    case Receiving(ContinueReading(queueSize)) => PollStaysBeforeEnd(c, start, x, queueSize);
    case Receiving(_) =>
      hide QueueInv;
  }

  lemma {:induction false} RunStaysBeforeEnd(
    c: Config, start: u32, xs: seq<Relic>, steps: seq<RelicStep>, n: nat)
    requires c.willAck && 1 <= c.maxUnconfirmed && RelicRun(c, xs, steps) && xs[0] == RelicStart(c, start)
    requires n <= |steps|
    ensures QueueInv(c, xs[n]) && BeforeEnd(c, start, xs[n])
  {
    hide QueueInv, RelicNext, RelicEnabled;
    if n == 0 {
      StartQueueInv(c, start);
    } else {
      hide BeforeEnd;
      RunStaysBeforeEnd(c, start, xs, steps, n - 1);
      assert RelicMoves(c, xs[n - 1], steps[n - 1], xs[n - 1 + 1]);
      StaysBeforeEnd(c, start, xs[n - 1], steps[n - 1]);
      NextKeepsQueue(c, xs[n - 1], steps[n - 1]);
    }
  }

  /** The receiver ever stops at its end block, in any run, with restarts at any time, if and only if the end
      block is 1 and scanning starts at the beginning: then it stops without having read anything. */
  lemma FinishesIff(c: Config, start: u32)
    requires c.willAck && 1 <= c.maxUnconfirmed
    ensures (exists x :: RelicReachable(c, start, x) && x.w.r.status == Running && Finished(c, x.w.r))
      <==> c.endBlock == 1 && start <= 1
  {
    forall x | RelicReachable(c, start, x) && x.w.r.status == Running && Finished(c, x.w.r)
      ensures c.endBlock == 1 && start <= 1
    {
      NeverBeforeEnd(c, start, x);
    }
    if c.endBlock == 1 && start <= 1 {
      StartReachable(c, start, false, false);
      assert Finished(c, RelicStart(c, start).w.r);
    }
  }

  lemma NeverBeforeEnd(c: Config, start: u32, x: Relic)
    requires c.willAck && 1 <= c.maxUnconfirmed && RelicReachable(c, start, x)
    requires x.w.r.status == Running && Finished(c, x.w.r)
    ensures c.endBlock == 1 && start <= 1
  {
    var xs, steps :| ReachedBy(c, start, xs, steps, false, false) && Last(xs) == x;
    RunStaysBeforeEnd(c, start, xs, steps, |steps|);
    FinishedIsEmpty(c, start, x);
  }

  // ---- the window ----

  /** A window of 1 admits one block per start.  Once that block is unacknowledged and the queue
      drained, nothing but a restart makes the receiver read again. */
  lemma {:induction false} WindowOfOneStalls(c: Config, xs: seq<Relic>, steps: seq<RelicStep>, n: nat)
    requires c.willAck && c.maxUnconfirmed == 1 && RelicRun(c, xs, steps) && n <= |steps|
    requires var x := xs[0]; x.w.r.status == Running && x.queue == [] && x.w.r.acked < x.w.r.head && !x.w.r.reading
    requires forall i :: 0 <= i < n ==> !IsRestart(steps[i])
    ensures forall i :: 0 <= i < n ==> !BringsBlock(steps[i])
    ensures var x := xs[n];
      && x.w.r.status == Running && x.queue == [] && !x.w.r.reading
      && SameChain(xs[0].w, x.w) && x.w.r.acked == xs[0].w.r.acked && x.chain == xs[0].chain
  {
    if n > 0 {
      WindowOfOneStalls(c, xs, steps, n - 1);
      assert RelicMoves(c, xs[n - 1], steps[n - 1], xs[n - 1 + 1]);
    }
  }

  // ---- restarting a stopped receiver ----

  /** The step published BLOCK. */
  ghost predicate AnnouncesBlock(c: Config, x: Relic, step: RelicStep) {
    && BringsBlock(step)
    && !step.step.message.value.fault.BadBlock?
    && Admit(c, x.w.r.(reading := false), step.step.message.value).status == Running
  }

  lemma StoppedByPoll(c: Config, x: Relic, queueSize: nat)
    requires RelicInv(c, x) && x.w.r.status == Running && !x.w.r.reading && x.w.r.forkedAt != Inc32(x.w.r.head)
    requires Poll(c, x.w.r, queueSize).status == Stopped
    ensures CleanRestart(RelicNext(c, RelicNext(c, x, Receiving(ContinueReading(queueSize))), Drain))
  {
    hide Below, LibsAscend;
    var y := RelicNext(c, x, Receiving(ContinueReading(queueSize)));
    assert PlainQueue(x) && x.queue == [];
    assert RelicNext(c, y, Drain).chain == RefsOf(x.w.log);
    PollKeepsInv(c, x.w, queueSize);
    if y.w.log != [] && y.w.r.db.stack == [] {
      BelowAll(x.chain, x.w.r.head + 1);
    }
  }

  lemma StoppedByDrain(c: Config, x: Relic)
    requires RelicInv(c, x) && x.w.r.status == Running && RelicNext(c, x, Drain).w.r.status == Stopped
    ensures CleanRestart(RelicNext(c, RelicNext(c, x, Drain), Drain))
  {
    hide Below, LibsAscend, Coherent;
    DrainAbortsIff(x);
    AckQueueFrame(x.w.r, x.queue);
    assert ForkQueue(x);
    assert x.w.r.db.stack != [];
  }

  /** Neither head nor acknowledgements of a receiver matter for what a drain makes of the chain. */
  lemma DrainedChain(c: Config, x: Relic, m: Block)
    requires RelicInv(c, x) && x.w.r.status == Running && x.w.r.reading && Upstream(x.w, m)
    requires !Stored(c, x.w.r, m)
    ensures var y := RelicNext(c, x, Receiving(Deliver(Some(m)))); var z := RelicNext(c, y, Drain);
      && z.w.r.db == y.w.r.db == Receive(c, x.w.r, m).db && z.w.log == y.w.log == Survivors(x.w, m)
      && z.chain == ConsumeAll(RefsOf(x.w.log), ReceiveEvents(c, x.w.r, m))
  {
    hide Inv, Receive, ReceiveEvents, Below, ConsumeAll, Upstream, Stored;
    var y := RelicNext(c, x, Receiving(Deliver(Some(m))));
    AckQueueFrame(y.w.r, y.queue);
    ConsumeAllConcat(x.chain, x.queue, ReceiveEvents(c, x.w.r, m));
    assert Survivors(x.w, m) + [] == Survivors(x.w, m);
  }

  /** A block refused before it became the head was not announced; unless this leaves no state row
      the consumer holds the whole log and the log ends at the committed block or is saved. */
  lemma StoppedByRefusal(c: Config, x: Relic, m: Block)
    requires RelicInv(c, x) && x.w.r.status == Running && x.w.r.reading && Upstream(x.w, m)
    requires Admit(c, x.w.r.(reading := false), m).status == Stopped
    ensures CleanRestart(RelicNext(c, RelicNext(c, x, Receiving(Deliver(Some(m)))), Drain))
  {
    hide Below, Coherent, LibsAscend, CacheRows;
    var w0 := x.w.(r := x.w.r.(reading := false));
    DrainedChain(c, x, m);
    if IsFork(x.w.r, m) {
      AdmitsFork(c, w0, m);
      RollBackIsExact(c, w0.r, x.w.log, x.w.origin, m.num);
    } else {
      AdmitsNext(c, w0, m);
      if x.w.log != [] && x.w.r.db.stack == [] {
        BelowAll(RefsOf(x.w.log), x.w.r.head + 1);
      }
    }
  }

  /** A block that could not be read leaves the log and the consumer as a rollback, if any, left them. */
  lemma StoppedUnread(c: Config, x: Relic, m: Block)
    requires RelicInv(c, x) && x.w.r.status == Running && x.w.r.reading && Upstream(x.w, m)
    requires Admit(c, x.w.r.(reading := false), m).status == Running && m.fault.BadBlock?
    ensures CleanRestart(RelicNext(c, RelicNext(c, x, Receiving(Deliver(Some(m)))), Drain))
  {
    hide Below, Coherent, LibsAscend, Admit, ConsumeAll, Receive, ReceiveEvents, Stored, IsFork, RelicNext, RelicInv;
    Unread(c, x.w.r, m);
    DrainedChain(c, x, m);
    var z := RelicNext(c, RelicNext(c, x, Receiving(Deliver(Some(m)))), Drain);
    UnreadChain(c, x, m);
    SurvivorsFit(c, x, m);
    assert z.w.r.db.stack == [] ==> Base(z.w.r.db) + 1 == m.num;
  }

  lemma UnreadChain(c: Config, x: Relic, m: Block)
    requires RelicInv(c, x) && x.w.r.status == Running && Upstream(x.w, m)
    ensures ConsumeAll(RefsOf(x.w.log), if IsFork(x.w.r, m) then [ForkEvent(m.num)] else [])
      == RefsOf(Survivors(x.w, m))
  {
    hide Inv, Below, ConsumeAll;
    ConsumeForks(RefsOf(x.w.log), m.num);
    ConsumeNothing(RefsOf(x.w.log));
    LogNumbers(x.w);
    HeadNumber(x.w);
    if IsFork(x.w.r, m) {
      ForkAboveOrigin(x.w, m);
    }
    SurvivingRefs(x.w, m);
  }

  lemma ForkAboveOrigin(w: World, m: Block)
    requires Inv(w) && w.r.status == Running && Upstream(w, m) && IsFork(w.r, m)
    ensures w.origin < m.num
  {
  }

  lemma SurvivorsFit(c: Config, x: Relic, m: Block)
    requires RelicInv(c, x) && x.w.r.status == Running && Upstream(x.w, m)
    requires Admit(c, x.w.r.(reading := false), m).status == Running
    ensures Admit(c, x.w.r.(reading := false), m).db.revision == m.num - 1
    ensures Below(RefsOf(Survivors(x.w, m)), m.num) == RefsOf(Survivors(x.w, m))
  {
    hide Admit, Below, Coherent, LibsAscend;
    AdmitKeepsReplayed(c, x.w.(r := x.w.r.(reading := false)), m);
    var log := Survivors(x.w, m);
    BelowAll(RefsOf(log), m.num);
  }

  lemma Unread(c: Config, s: State, m: Block)
    requires Admit(c, s.(reading := false), m).status == Running && m.fault.BadBlock?
    ensures !Stored(c, s, m) && Receive(c, s, m).db == Admit(c, s.(reading := false), m).db
    ensures ReceiveEvents(c, s, m) == if IsFork(s, m) then [ForkEvent(m.num)] else []
  {
    hide Admit;
    assert [ForkEvent(m.num)] + [] == [ForkEvent(m.num)];
  }

  /** A block announced and then not stored hangs above the committed one if nothing is saved. */
  lemma StoppedWhileStoring(c: Config, x: Relic, m: Block)
    requires RelicInv(c, x) && x.w.r.status == Running && x.w.r.reading && Upstream(x.w, m)
    requires AnnouncesBlock(c, x, Receiving(Deliver(Some(m)))) && !Stored(c, x.w.r, m)
    ensures var z := RelicNext(c, RelicNext(c, x, Receiving(Deliver(Some(m)))), Drain);
      CleanRestart(z) <==> z.w.r.db.stack != [] || z.w.r.db.tables.state.None?
  {
    hide Below, Coherent, LibsAscend, Admit, Receive, ReceiveEvents, ConsumeAll, IsFork, Stored;
    var w0 := x.w.(r := x.w.r.(reading := false));
    var s := Admit(c, w0.r, m);
    AdmitKeepsReplayed(c, w0, m);
    DrainedChain(c, x, m);
    NotStored(c, x.w.r, m);
    var z := RelicNext(c, RelicNext(c, x, Receiving(Deliver(Some(m)))), Drain);
    assert z.w.r.db == s.db;
    hide RelicNext;
    LastConsumed(RefsOf(x.w.log), ReceiveEvents(c, x.w.r, m), BlockEvent(m.num, m.id));
    assert BlockRef(m.num, m.id) in z.chain;
    BelowSubset(z.chain, Base(s.db) + 1);
  }

  lemma NotStored(c: Config, s: State, m: Block)
    requires Admit(c, s.(reading := false), m).status == Running && !m.fault.BadBlock? && !Stored(c, s, m)
    ensures Receive(c, s, m).db == Admit(c, s.(reading := false), m).db
    ensures ReceiveEvents(c, s, m) != [] && Last(ReceiveEvents(c, s, m)) == BlockEvent(m.num, m.id)
  {
    hide Admit, ApplyBlock, CacheRows;
  }

  /** A block that was stored before its traces stopped the receiver is saved. */
  lemma StoppedByTraces(c: Config, x: Relic, m: Block)
    requires RelicInv(c, x) && x.w.r.status == Running && x.w.r.reading && Upstream(x.w, m)
    requires Stored(c, x.w.r, m)
    ensures var z := RelicNext(c, RelicNext(c, x, Receiving(Deliver(Some(m)))), Drain);
      z.w.r.db.stack != [] && CleanRestart(z)
  {
    hide Below, Coherent, LibsAscend, Receive, ReceiveEvents, ConsumeAll, IsFork, Stored, Upstream;
    var y := RelicNext(c, x, Receiving(Deliver(Some(m))));
    AckQueueFrame(y.w.r, y.queue);
    DeliverKeepsInv(c, x.w, m);
    StoredCommits(c, x.w, m);
    StoredFields(c, x.w, m);
    HeadNumber(x.w);
    assert y.w.log == Survivors(x.w, m) + [m];
  }

  lemma LastConsumed(chain: seq<BlockRef>, queue: seq<Event>, e: Event)
    requires queue != [] && Last(queue) == e && e.BlockEvent?
    ensures BlockRef(e.num, e.id) in ConsumeAll(chain, queue)
  {
    assert Last(ConsumeAll(chain, queue)) == BlockRef(e.num, e.id);
  }

  /** After a run with clean restarts only: whatever step stops a receiver that does not wait for the
      answer to its start-up FORK, once the exporter has drained its queue the next restart is clean if
      and only if the step did not announce a block, or some revision is saved, or there is no state
      row. */
  lemma StopIsCleanIff(c: Config, start: u32, x: Relic, step: RelicStep)
    requires c.willAck && 1 <= c.maxUnconfirmed && CleanlyReachable(c, start, x)
    requires x.w.r.status == Running && x.w.r.forkedAt != Inc32(x.w.r.head)
    requires RelicEnabled(c, x, step) && !IsRestart(step) && RelicNext(c, x, step).w.r.status == Stopped
    ensures var z := RelicNext(c, RelicNext(c, x, step), Drain);
      CleanRestart(z) <==>
        !AnnouncesBlock(c, x, step) || z.w.r.db.stack != [] || z.w.r.db.tables.state.None?
  {
    hide CleanlyReachable, RelicInv, CleanRestart, Admit, Receive, Poll, Stored;
    CleanlyReachableInv(c, start, x);
    match step
    case Drain => StoppedByDrain(c, x);
    case Receiving(Deliver(Some(m))) =>
      NeverDivergesOnAdmission(c, x, m);
      if AnnouncesBlock(c, x, step) && Stored(c, x.w.r, m) {
        StoppedByTraces(c, x, m);
      } else if AnnouncesBlock(c, x, step) {
        StoppedWhileStoring(c, x, m);
      } else if m.fault.BadBlock? && Admit(c, x.w.r.(reading := false), m).status == Running {
        StoppedUnread(c, x, m);
      } else {
        StoppedByRefusal(c, x, m);
      }
    case Receiving(ContinueReading(queueSize)) => StoppedByPoll(c, x, queueSize);
    case Receiving(_) =>
  }

  lemma NeverDivergesOnAdmission(c: Config, x: Relic, m: Block)
    requires RelicInv(c, x) && x.w.r.status == Running && Upstream(x.w, m)
    ensures Admit(c, x.w.r.(reading := false), m).status != Diverged
  {
    hide Admit;
    AdmitKeepsReplayed(c, x.w.(r := x.w.r.(reading := false)), m);
  }

  /** A start that is itself refused, in every run, possibly under options `d` that were changed for
      it: with the queue drained, the next one is clean if and only if it reverted something and no
      start-block option was given, which is refused after the revert and before the FORK that reports
      it, or there is no state row, or the consumer holds nothing above the committed block. */
  lemma RefusedStartIsCleanIff(c: Config, first: u32, x: Relic, d: Config, start: u32)
    requires c.willAck && 1 <= c.maxUnconfirmed && RelicReachable(c, first, x)
    requires RelicEnabled(d, x, Receiving(Restart(start)))
    requires RelicNext(d, x, Receiving(Restart(start))).w.r.status == Stopped
    ensures var z := RelicNext(d, RelicNext(d, x, Receiving(Restart(start))), Drain);
      CleanRestart(z) <==>
        || (start == 0 && x.w.r.db.stack != [])
        || z.w.r.db.tables.state.None?
        || Below(x.chain, Base(x.w.r.db) + 1) == x.chain
  {
    hide RelicReachable, QueueInv, RelicNext, Below, Enabled, Load, LoadEvents, ConsumeAll;
    ReachableQueue(c, first, x);
    RestartDrained(c, x, d, start);
    ConsumeNothing(x.chain);
    StartEvents(d, x.w.r.db, start);
    var next := Inc32(Load(d, x.w.r.db, start).head);
    ConsumeForks(x.chain, next);
    BelowTwice(x.chain, next, Base(x.w.r.db) + 1);
  }

  lemma RestartDrained(c: Config, x: Relic, d: Config, start: u32)
    requires QueueInv(c, x) && RelicEnabled(d, x, Receiving(Restart(start)))
    ensures var s := Load(d, x.w.r.db, start);
      var z := RelicNext(d, RelicNext(d, x, Receiving(Restart(start))), Drain);
      && z.w.r.db == s.db && z.chain == ConsumeAll(x.chain, LoadEvents(x.w.r.db, start))
      && (s.db.tables.state.Some? ==> s.head == Base(x.w.r.db) && s.head < 0xffff_ffff)
  {
    hide Inv, Below, Window, Shaped, Load, LoadEvents, AckQueue, ConsumeAll;
    var y := RelicNext(d, x, Receiving(Restart(start)));
    AckQueueFrame(y.w.r, y.queue);
    RestartKeepsCommitted(d, x.w, start);
    StateRowIff(y.w);
  }

  lemma StateRowIff(w: World)
    requires Inv(w)
    ensures w.r.db.tables.state.None? <==> w.log == []
    ensures w.origin + |w.log| < 0xffff_ffff
  {
  }

  lemma StartEvents(c: Config, db: Db, start: u32)
    ensures var s := Load(c, db, start); var f := ForkEvent(Inc32(s.head)); var ev := LoadEvents(db, start);
      && s.db == UndoTo(db, Base(db)) && s.db.stack == [] && Base(s.db) == Base(db)
      && (ev == [] || ev == [f] || ev == [f, f])
      && (ev == [] <==> s.db.tables.state.Some? && (start > 0 || db.stack == []))
  {
  }
}
