/** Receiver, acknowledgement protocol, exporter queue and consumer together.  A step is a step of
    the receiver or one callback of the exporter, which drains the whole queue. */
module RelicSystem {
  import opened Basics
  import opened Messages
  import opened Tables
  import opened Chainbase
  import opened AbiCache
  import opened ReceiverModel
  import opened ReceiverRuns
  import opened FlowControl
  import opened RelicExporter
  import opened Chains

  /** `mark` is the head when the queue was last empty, `top` the highest block completed since;
      both are bookkeeping for the theorems. */
  datatype Relic = Relic(w: World, queue: seq<Event>, chain: seq<BlockRef>, mark: u32, top: u32)

  datatype RelicStep = Drain | Receiving(step: Step)

  function RelicStart(c: Config, start: u32): Relic {
    var w := FirstStart(c, start);
    Relic(w, LoadEvents(Db(EMPTY, 0, []), start), [], w.r.head, w.r.head)
  }

  function RelicNext(c: Config, x: Relic, step: RelicStep): Relic {
    match step
    case Drain =>
      var r := AckQueue(x.w.r, x.queue);
      Relic(x.w.(r := r), [], ConsumeAll(x.chain, x.queue), r.head, r.head)
    case Receiving(Restart(start)) =>
      var w := Next(c, x.w, Restart(start));
      Relic(w, LoadEvents(x.w.r.db, start), x.chain, w.r.head, w.r.head)
    case Receiving(Deliver(Some(m))) =>
      x.(w := Next(c, x.w, Deliver(Some(m))),
         queue := x.queue + ReceiveEvents(c, x.w.r, m),
         top := if IsFork(x.w.r, m) then x.top else m.num)
    case Receiving(other) => x.(w := Next(c, x.w, other))
  }

  /** Acknowledgements come from the exporter only. */
  ghost predicate RelicEnabled(c: Config, x: Relic, step: RelicStep) {
    step.Receiving? ==> Enabled(c, x.w, step.step) && !step.step.Acknowledge?
  }

  ghost predicate RelicMoves(c: Config, x: Relic, step: RelicStep, x': Relic) {
    RelicEnabled(c, x, step) && x' == RelicNext(c, x, step)
  }

  ghost predicate RelicRun(c: Config, xs: seq<Relic>, steps: seq<RelicStep>) {
    && |xs| == |steps| + 1
    && forall i :: 0 <= i < |steps| ==> RelicMoves(c, xs[i], steps[i], xs[i + 1])
  }

  predicate IsRestart(step: RelicStep) {
    step.Receiving? && step.step.Restart?
  }

  predicate BringsBlock(step: RelicStep) {
    step.Receiving? && step.step.Deliver? && step.step.message.Some?
  }

  /** A restart tells the consumer to fork only if it reverted something or has no state row.  The
      consumer needs no telling if it holds nothing above the committed block. */
  ghost predicate CleanRestart(x: Relic) {
    var db := x.w.r.db;
    || db.stack != []
    || db.tables.state.None?
    || Below(x.chain, Base(db) + 1) == x.chain
  }

  ghost predicate RestartsCleanly(xs: seq<Relic>, steps: seq<RelicStep>)
    requires |xs| == |steps| + 1
  {
    forall i :: 0 <= i < |steps| && IsRestart(steps[i]) ==> CleanRestart(xs[i])
  }

  /** Every block arrives at an empty queue: the exporter's callback goes before the next read, as a
      scheduler that serves the higher priority first makes it. */
  ghost predicate DrainsFirst(xs: seq<Relic>, steps: seq<RelicStep>)
    requires |xs| == |steps| + 1
  {
    forall i :: 0 <= i < |steps| && BringsBlock(steps[i]) ==> xs[i].queue == []
  }

  /** A run to `x`, possibly of a special kind. */
  ghost predicate ReachableBy(c: Config, start: u32, x: Relic, clean: bool, eager: bool) {
    exists xs, steps :: ReachedBy(c, start, xs, steps, clean, eager) && Last(xs) == x
  }

  ghost predicate ReachedBy(
    c: Config, start: u32, xs: seq<Relic>, steps: seq<RelicStep>, clean: bool, eager: bool)
  {
    && RelicRun(c, xs, steps) && xs[0] == RelicStart(c, start)
    && (clean ==> RestartsCleanly(xs, steps))
    && (eager ==> DrainsFirst(xs, steps))
  }

  /** Any run, with restarts at any time. */
  ghost predicate RelicReachable(c: Config, start: u32, x: Relic) {
    ReachableBy(c, start, x, false, false)
  }

  ghost predicate CleanlyReachable(c: Config, start: u32, x: Relic) {
    ReachableBy(c, start, x, true, false)
  }

  ghost predicate EagerReachable(c: Config, start: u32, x: Relic) {
    ReachableBy(c, start, x, false, true)
  }

  lemma StartReachable(c: Config, start: u32, clean: bool, eager: bool)
    ensures ReachableBy(c, start, RelicStart(c, start), clean, eager)
  {
    assert ReachedBy(c, start, [RelicStart(c, start)], [], clean, eager);
  }

  lemma ReachableOn(c: Config, start: u32, x: Relic, step: RelicStep, clean: bool, eager: bool)
    requires ReachableBy(c, start, x, clean, eager) && RelicEnabled(c, x, step)
    requires clean && IsRestart(step) ==> CleanRestart(x)
    requires eager && BringsBlock(step) ==> x.queue == []
    ensures ReachableBy(c, start, RelicNext(c, x, step), clean, eager)
  {
    hide RelicNext, RelicEnabled, CleanRestart;
    var xs, steps :| ReachedBy(c, start, xs, steps, clean, eager) && Last(xs) == x;
    var xs', steps' := xs + [RelicNext(c, x, step)], steps + [step];
    forall i | 0 <= i < |steps'|
      ensures RelicMoves(c, xs'[i], steps'[i], xs'[i + 1])
      ensures clean && IsRestart(steps'[i]) ==> CleanRestart(xs'[i])
      ensures eager && BringsBlock(steps'[i]) ==> xs'[i].queue == []
    {
      if i < |steps| {
        assert RelicMoves(c, xs[i], steps[i], xs[i + 1]);
      }
    }
    assert ReachedBy(c, start, xs', steps', clean, eager);
  }

  lemma SpecialRunsAreRuns(c: Config, start: u32, x: Relic, clean: bool, eager: bool)
    requires ReachableBy(c, start, x, clean, eager)
    ensures RelicReachable(c, start, x)
    ensures clean ==> CleanlyReachable(c, start, x)
    ensures eager ==> EagerReachable(c, start, x)
  {
    hide RestartsCleanly, DrainsFirst;
    var xs, steps :| ReachedBy(c, start, xs, steps, clean, eager) && Last(xs) == x;
    assert ReachedBy(c, start, xs, steps, false, false);
    assert clean ==> ReachedBy(c, start, xs, steps, true, false);
    assert eager ==> ReachedBy(c, start, xs, steps, false, true);
  }

  // ---- the shapes the queue can have ----

  ghost predicate PlainQueue(x: Relic) {
    && x.w.r.forkedAt == 0 && x.top == x.w.r.head
    && x.mark <= x.top && x.w.r.acked <= x.mark <= x.w.r.acked + 1
    && PlainBlocks(x.queue, x.mark, x.top)
  }

  ghost predicate ForkQueue(x: Relic) {
    var b := x.w.r.forkedAt;
    && x.w.r.head == b && 1 <= b <= x.top
    && x.mark <= x.top && x.w.r.acked <= x.mark && x.w.r.acked <= b - 1
    && 3 <= |x.queue| && PlainBlocks(x.queue[..|x.queue| - 3], x.mark, x.top)
    && x.queue[|x.queue| - 3] == ForkEvent(b)
    && x.queue[|x.queue| - 2].BlockEvent? && x.queue[|x.queue| - 2].num == b
    && x.queue[|x.queue| - 1] == CompletedEvent(b)
  }

  ghost predicate StartQueue(x: Relic) {
    var h := x.w.r.head;
    && x.w.r.forkedAt == h + 1 && x.w.r.acked == x.mark == x.top == h
    && (x.queue == [ForkEvent(h + 1)] || x.queue == [ForkEvent(h + 1), ForkEvent(h + 1)])
  }

  ghost predicate Shaped(x: Relic) {
    && (PlainQueue(x) || ForkQueue(x) || StartQueue(x))
    && (x.w.r.reading ==> x.w.r.forkedAt == 0)
  }

  // ---- draining ----

  lemma DrainPlain(x: Relic)
    requires PlainQueue(x)
    ensures AckQueue(x.w.r, x.queue) == if x.mark < x.top then x.w.r.(acked := x.top - 1) else x.w.r
  {
    AckPlain(x.w.r, x.queue, x.mark, x.top);
  }

  lemma DrainStart(x: Relic)
    requires StartQueue(x)
    ensures AckQueue(x.w.r, x.queue) == x.w.r.(forkedAt := 0)
  {
    var n := |x.queue|;
    AckLast(x.w.r, x.queue, 1);
    AckLast(x.w.r, x.queue, n);
    assert x.queue[..n] == x.queue && x.queue[..0] == [];
  }

  lemma ForkTail(s: State, queue: seq<Event>, b: u32)
    requires 3 <= |queue| && queue[|queue| - 3] == ForkEvent(b)
    requires queue[|queue| - 2].BlockEvent? && queue[|queue| - 1] == CompletedEvent(b)
    ensures AckQueue(s, queue) == AckBlock(AckBlock(AckQueue(s, queue[..|queue| - 3]), Dec32(b)), Dec32(b))
  {
    var n := |queue|;
    AckLast(s, queue, n - 2);
    AckLast(s, queue, n - 1);
    AckLast(s, queue, n);
    assert queue[..n] == queue;
  }

  /** The orphaned blocks come first, then FORK b, then the new block b. */
  lemma DrainFork(x: Relic)
    requires ForkQueue(x)
    ensures var r := x.w.r; var b := r.forkedAt;
      AckQueue(r, x.queue) ==
        if x.mark < b < x.top then Stop(r.(forkedAt := 0, acked := x.top - 1))
        else r.(forkedAt := 0, acked := b - 1)
  {
    ForkTail(x.w.r, x.queue, x.w.r.forkedAt);
    AckOrphans(x.w.r, x.queue[..|x.queue| - 3], x.mark, x.top);
  }

  /** Draining makes the exporter abort exactly when a fork at b is pending and both the orphaned
      block b and the orphaned block b + 1 are still queued: the completion of b is taken for the
      answer to the fork, the completion of b + 1 then moves the acknowledged block to b, and the
      answer to FORK b comes too late.  Otherwise the receiver is released, with at most its newest
      block unacknowledged. */
  lemma DrainAbortsIff(x: Relic)
    requires Shaped(x) && x.w.r.status == Running
    ensures var r := AckQueue(x.w.r, x.queue);
      && r == x.w.r.(forkedAt := r.forkedAt, acked := r.acked, status := r.status)
      && (r.status == Stopped <==> x.mark < x.w.r.forkedAt < x.top)
      && r.status != Diverged
      && (r.status == Running ==> r.forkedAt == 0)
      && (r.status == Running ==> r.acked == if x.w.r.acked < x.w.r.head then x.w.r.head - 1 else x.w.r.head)
      && (r.status == Running ==> x.w.r.acked <= r.acked)
  {
    if PlainQueue(x) {
      DrainPlain(x);
    } else if ForkQueue(x) {
      DrainFork(x);
    } else {
      DrainStart(x);
    }
  }

  // ---- the queue in every run ----

  /** Nothing queued can touch a committed block; while the receiver runs it stays inside its window
      and the queue has one of the three shapes. */
  ghost predicate QueueInv(c: Config, x: Relic) {
    && c.willAck && 1 <= c.maxUnconfirmed && Inv(x.w)
    && AllAbove(x.queue, Base(x.w.r.db)) && AllAbove(x.queue, x.w.origin)
    && (x.w.r.status == Running ==> Window(c, x.w) && Shaped(x) && AllAbove(x.queue, x.w.r.acked))
  }

  /** Acknowledgements change nothing but the acknowledgement fields, and do not revive a receiver. */
  lemma {:induction false} AckQueueFrame(s: State, queue: seq<Event>)
    ensures var r := AckQueue(s, queue);
      && r == s.(forkedAt := r.forkedAt, acked := r.acked, status := r.status)
      && (r.status == s.status || r.status == Stopped)
  {
    if queue != [] {
      AckQueueFrame(s, Front(queue));
    }
  }

  lemma DrainKeepsQueue(c: Config, x: Relic)
    requires QueueInv(c, x)
    ensures QueueInv(c, RelicNext(c, x, Drain))
  {
    hide Replayed, Coherent, LibsAscend, AckQueue, ConsumeAll;
    AckQueueFrame(x.w.r, x.queue);
    if x.w.r.status == Running {
      DrainAbortsIff(x);
    }
  }

  lemma RunningStored(c: Config, s: State, m: Block)
    requires Receive(c, s, m).status == Running
    ensures Stored(c, s, m)
  {
    hide ReceiverModel.StoreBlock, Admit;
  }

  /** The receiver's fields after it stored a block, whether or not the traces stopped it then. */
  lemma StoredFields(c: Config, w: World, m: Block)
    requires c.willAck && Inv(w) && w.r.status == Running && Upstream(w, m)
    requires Stored(c, w.r, m)
    ensures var r := Receive(c, w.r, m); var fork := IsFork(w.r, m);
      && m.num == w.origin + |Survivors(w, m)| + 1
      && r.head == m.num && !r.reading
      && r.forkedAt == (if fork then m.num else w.r.forkedAt)
      && r.acked == (if fork then Min(m.num - 1, w.r.acked) else w.r.acked)
  {
    hide Replayed, Coherent, ReceiverModel.StoreBlock, Receive;
    var w0 := w.(r := w.r.(reading := false));
    var s := Admit(c, w0.r, m);
    DeliverOutcome(c, w, m);
    AdmitKeepsReplayed(c, w0, m);
    assert Survivors(w0, m) == Survivors(w, m);
    StoreKeepsReplayed(c, TakeHead(s, m), Survivors(w0, m), w.origin, m);
    if IsFork(w.r, m) {
      AdmitsFork(c, w0, m);
    } else {
      AdmitsNext(c, w0, m);
    }
  }

  /** Nothing is committed beyond the acknowledged block. */
  lemma StoredCommits(c: Config, w: World, m: Block)
    requires c.willAck && Inv(w) && Window(c, w) && w.r.status == Running && w.r.reading && Upstream(w, m)
    requires Stored(c, w.r, m)
    ensures Base(Receive(c, w.r, m).db) <= Receive(c, w.r, m).acked
  {
    hide Inv, Admit, Receive, ReceiverModel.StoreBlock, Upstream;
    AdmitKeepsAcked(c, w, m);
    DeliverOutcome(c, w, m);
    StoreStaysAcked(c, TakeHead(Admit(c, w.r.(reading := false), m), m), m);
  }

  /** A block that is not stored commits nothing. */
  lemma StoppedFields(c: Config, w: World, m: Block)
    requires Inv(w) && w.r.status == Running && Upstream(w, m)
    requires !Stored(c, w.r, m)
    ensures Base(Receive(c, w.r, m).db) <= Max(Base(w.r.db), w.origin)
    ensures w.origin < m.num && Base(w.r.db) <= Max(w.origin, m.num - 1)
  {
    hide ApplyBlock, CacheRows;
    var w0 := w.(r := w.r.(reading := false));
    if IsFork(w.r, m) {
      AdmitsFork(c, w0, m);
    } else {
      AdmitsNext(c, w0, m);
    }
  }

  lemma LogNumbers(w: World)
    requires Inv(w)
    ensures forall i :: 0 <= i < |w.log| ==> w.log[i].num == w.origin + 1 + i
    ensures Base(w.r.db) <= w.origin + |w.log|
  {
  }

  /** The events of a stored block; the traces may prevent the last one. */
  function StoredBlockEvents(fork: bool, m: Block, completed: bool): seq<Event> {
    (if fork then [ForkEvent(m.num)] else []) + [BlockEvent(m.num, m.id)] +
    if completed then [CompletedEvent(m.num)] else []
  }

  lemma StoredEvents(c: Config, s: State, m: Block)
    requires Stored(c, s, m)
    ensures ReceiveEvents(c, s, m) == StoredBlockEvents(IsFork(s, m), m, Receive(c, s, m).status == Running)
  {
    hide ReceiverModel.StoreBlock;
    var fork := if IsFork(s, m) then [ForkEvent(m.num)] else [];
    var block := [BlockEvent(m.num, m.id)];
    assert fork + (block + [CompletedEvent(m.num)]) == fork + block + [CompletedEvent(m.num)];
    assert fork + (block + []) == fork + block + [];
  }

  /** ... on the consumer's side. */
  lemma ConsumeStored(chain: seq<BlockRef>, fork: bool, m: Block, completed: bool)
    ensures ConsumeAll(chain, StoredBlockEvents(fork, m, completed))
      == (if fork then Below(chain, m.num) else chain) + [BlockRef(m.num, m.id)]
  {
    var q := if fork then [ForkEvent(m.num)] else [];
    assert ConsumeAll(chain, q) == if fork then Below(chain, m.num) else chain by {
      if fork {
        assert Front(q) == [];
      }
    }
    var q1 := q + [BlockEvent(m.num, m.id)];
    assert Front(q1) == q;
    if completed {
      assert Front(q1 + [CompletedEvent(m.num)]) == q1;
    } else {
      assert q1 + [] == q1;
    }
  }

  lemma StoppedEvents(c: Config, s: State, m: Block)
    ensures forall i :: 0 <= i < |ReceiveEvents(c, s, m)| ==> ReceiveEvents(c, s, m)[i].num == m.num
  {
  }

  /** The surviving blocks are what the consumer keeps of its chain. */
  lemma SurvivingRefs(w: World, m: Block)
    requires Inv(w) && (IsFork(w.r, m) ==> w.origin < m.num <= w.origin + |w.log|)
    ensures RefsOf(Survivors(w, m)) == if IsFork(w.r, m) then Below(RefsOf(w.log), m.num) else RefsOf(w.log)
  {
    if IsFork(w.r, m) {
      BelowRefs(w.log, w.origin, m.num - 1 - w.origin);
    }
  }

  lemma HeadNumber(w: World)
    requires Inv(w) && w.r.status == Running
    ensures w.r.head == w.origin + |w.log|
  {
  }

  lemma StoredKeepsAbove(c: Config, x: Relic, m: Block)
    requires QueueInv(c, x) && x.w.r.status == Running && x.w.r.reading && Upstream(x.w, m)
    requires Stored(c, x.w.r, m)
    ensures var q := x.queue + ReceiveEvents(c, x.w.r, m); var r := Receive(c, x.w.r, m);
      && AllAbove(q, r.acked) && AllAbove(q, x.w.origin) && AllAbove(q, Base(r.db))
  {
    hide Inv, Receive, ReceiveEvents, Stored;
    StoredFields(c, x.w, m);
    StoredCommits(c, x.w, m);
    StoppedEvents(c, x.w.r, m);
    HeadNumber(x.w);
  }

  lemma StoppedKeepsAbove(c: Config, x: Relic, m: Block)
    requires QueueInv(c, x) && x.w.r.status == Running && Upstream(x.w, m)
    requires !Stored(c, x.w.r, m)
    ensures var q := x.queue + ReceiveEvents(c, x.w.r, m); var r := Receive(c, x.w.r, m);
      AllAbove(q, x.w.origin) && AllAbove(q, Base(r.db))
  {
    hide Inv, Receive, ReceiveEvents, Stored, Upstream;
    StoppedFields(c, x.w, m);
    StoppedEvents(c, x.w.r, m);
  }

  lemma StoredKeepsShape(c: Config, x: Relic, m: Block)
    requires QueueInv(c, x) && x.w.r.status == Running && x.w.r.reading && Upstream(x.w, m)
    requires Receive(c, x.w.r, m).status == Running
    ensures Shaped(RelicNext(c, x, Receiving(Deliver(Some(m)))))
  {
    hide Inv, Receive, ReceiveEvents, ConsumeAll, Stored, PlainBlocks, Upstream, AllAbove;
    RunningStored(c, x.w.r, m);
    StoredFields(c, x.w, m);
    StoredEvents(c, x.w.r, m);
    HeadNumber(x.w);
    assert PlainQueue(x);
    var x' := RelicNext(c, x, Receiving(Deliver(Some(m))));
    var q := x.queue;
    if IsFork(x.w.r, m) {
      assert ForkQueue(x');
    } else {
      TwoMore(q, BlockEvent(m.num, m.id), CompletedEvent(m.num));
      PlainOn(q, x.mark, x.top, m.num, m.id);
      assert PlainQueue(x');
    }
  }

  lemma TwoMore(q: seq<Event>, b: Event, d: Event)
    ensures q + ([] + [b] + [d]) == q + [b, d]
  {
  }

  lemma DeliverKeepsQueue(c: Config, x: Relic, m: Block)
    requires QueueInv(c, x) && x.w.r.status == Running && x.w.r.reading && Upstream(x.w, m)
    ensures QueueInv(c, RelicNext(c, x, Receiving(Deliver(Some(m)))))
  {
    hide Inv, ConsumeAll, Receive, ReceiveEvents, Upstream, Stored, Window, Shaped;
    DeliverKeepsInv(c, x.w, m);
    if Stored(c, x.w.r, m) {
      StoredKeepsAbove(c, x, m);
    } else {
      StoppedKeepsAbove(c, x, m);
    }
    if Receive(c, x.w.r, m).status == Running {
      RunningStored(c, x.w.r, m);
      DeliverKeepsWindow(c, x.w, m);
      StoredKeepsShape(c, x, m);
    }
  }

  // ---- restarting ----

  /** The committed part of the log, as the consumer sees it. */
  lemma CommittedPart(log: seq<Block>, origin: int, base: int)
    requires forall i :: 0 <= i < |log| ==> log[i].num == origin + 1 + i
    requires base <= origin + |log|
    ensures Below(RefsOf(log), base + 1) == if base <= origin then [] else RefsOf(log[..base - origin])
  {
    if base <= origin {
      BelowNone(RefsOf(log), base + 1);
    } else {
      BelowRefs(log, origin, base - origin);
    }
  }

  /** Two logs that share the part up to a committed block agree on it. */
  lemma CommittedAgree(log: seq<Block>, log': seq<Block>, origin: int, base: int)
    requires forall i :: 0 <= i < |log| ==> log[i].num == origin + 1 + i
    requires log' <= log && base <= origin + |log'|
    ensures Below(RefsOf(log), base + 1) == Below(RefsOf(log'), base + 1)
  {
    CommittedPart(log, origin, base);
    CommittedPart(log', origin, base);
    if origin < base {
      assert log[..base - origin] == log'[..base - origin];
    }
  }

  /** The committed part of the log is what survives a restart. */
  lemma RestartKeepsCommitted(c: Config, w: World, start: u32)
    requires Inv(w) && Enabled(c, w, Restart(start))
    ensures var w' := Next(c, w, Restart(start)); var base := Base(w.r.db);
      && Inv(w') && Base(w'.r.db) == base && w'.origin == w.origin
      && w'.r.head == w'.origin + |w'.log|
      && (if w'.log == [] then base <= w'.origin else base == w'.r.head)
      && RefsOf(w'.log) == Below(RefsOf(w.log), base + 1) == Below(RefsOf(w'.log), base + 1)
  {
    hide Below, Load, Replayed, Coherent;
    var w' := Next(c, w, Restart(start));
    var base, origin := Base(w.r.db), w.origin;
    RestartKeepsInv(c, w, start);
    RestartKeepsReplayed(w);
    LogNumbers(w);
    LogNumbers(w');
    CommittedPart(w.log, origin, base);
    CommittedPart(w'.log, origin, base);
    assert w'.log == UpTo(w, base);
    if w'.log == [] {
      assert base <= origin by {
        RestartEmpty(w);
      }
    } else {
      assert w'.log == w.log[..base - origin];
      assert w'.log[..base - origin] == w'.log;
    }
  }

  lemma RestartEmpty(w: World)
    requires Inv(w) && UpTo(w, Base(w.r.db)) == []
    ensures Base(w.r.db) <= w.origin
  {
  }

  /** What a restart tells the consumer: nothing, or FORK of the block after the new head. */
  lemma RestartEvents(c: Config, w: World, start: u32)
    requires Inv(w) && Enabled(c, w, Restart(start)) && Next(c, w, Restart(start)).r.status == Running
    ensures var r := Next(c, w, Restart(start)).r; var f := ForkEvent(r.head + 1); var ev := LoadEvents(w.r.db, start);
      && r.head < 0xffff_ffff
      && (if w.r.db.stack == [] && w.r.db.tables.state.Some?
          then ev == [] && r.forkedAt == 0
          else (ev == [f] || ev == [f, f]) && r.forkedAt == r.head + 1)
  {
    hide Replayed, LibsAscend, Coherent;
    RestartKeepsInv(c, w, start);
  }

  /** FORK n, once or twice, cuts the consumer's chain to the blocks below n. */
  lemma ConsumeForks(chain: seq<BlockRef>, n: u32)
    ensures ConsumeAll(chain, [ForkEvent(n)]) == Below(chain, n)
    ensures ConsumeAll(chain, [ForkEvent(n), ForkEvent(n)]) == Below(chain, n)
  {
    var f := ForkEvent(n);
    assert Front([f]) == [] && Front([f, f]) == [f];
    BelowTwice(chain, n, n);
  }

  lemma StartEventsAbove(db: Db, start: u32)
    ensures var head := RowOrInitial(UndoTo(db, Base(db)).tables, start).head;
      head < 0xffff_ffff ==> AllAbove(LoadEvents(db, start), head)
  {
  }

  lemma RestartKeepsAbove(c: Config, x: Relic, start: u32)
    requires QueueInv(c, x) && Enabled(c, x.w, Restart(start))
    ensures var x' := RelicNext(c, x, Receiving(Restart(start)));
      && Inv(x'.w) && Base(x'.w.r.db) <= x'.w.r.head && x'.w.origin <= x'.w.r.head
      && AllAbove(x'.queue, x'.w.r.head)
  {
    hide Load, LoadEvents, Inv, Below, AllAbove, Shaped, Window;
    RestartKeepsCommitted(c, x.w, start);
    LoadOutcome(c, x.w.r.db, start);
    StartEventsAbove(x.w.r.db, start);
    HeadIsSmall(RelicNext(c, x, Receiving(Restart(start))).w);
  }

  lemma HeadIsSmall(w: World)
    requires Inv(w)
    ensures w.origin + |w.log| < 0xffff_ffff
  {
  }

  lemma RestartShape(c: Config, x: Relic, start: u32)
    requires QueueInv(c, x) && Enabled(c, x.w, Restart(start))
    ensures var x' := RelicNext(c, x, Receiving(Restart(start)));
      x'.w.r.status == Running ==> Shaped(x') && x'.w.r.acked == x'.w.r.head
  {
    hide Load, LoadEvents, Inv, Below, AllAbove;
    var x' := RelicNext(c, x, Receiving(Restart(start)));
    LoadOutcome(c, x.w.r.db, start);
    if x'.w.r.status == Running {
      RestartEvents(c, x.w, start);
    }
  }

  lemma RestartKeepsQueue(c: Config, x: Relic, start: u32)
    requires QueueInv(c, x) && Enabled(c, x.w, Restart(start))
    ensures QueueInv(c, RelicNext(c, x, Receiving(Restart(start))))
  {
    hide RelicNext, Inv, Window, Shaped, Enabled;
    RestartKeepsAbove(c, x, start);
    RestartShape(c, x, start);
    RestartInWindow(c, x, start);
  }

  lemma RestartInWindow(c: Config, x: Relic, start: u32)
    requires QueueInv(c, x) && Enabled(c, x.w, Restart(start))
    ensures Window(c, RelicNext(c, x, Receiving(Restart(start))).w)
  {
    RestartKeepsWindow(c, x.w, start);
    hide Inv, Window;
  }

  // ---- the other steps ----

  lemma PollKeepsQueue(c: Config, x: Relic, queueSize: nat)
    requires QueueInv(c, x) && x.w.r.status == Running && !x.w.r.reading
    ensures QueueInv(c, RelicNext(c, x, Receiving(ContinueReading(queueSize))))
    ensures AllAbove(x.queue, Base(RelicNext(c, x, Receiving(ContinueReading(queueSize))).w.r.db))
  {
    hide Replayed, LibsAscend, Coherent;
    PollKeepsInv(c, x.w, queueSize);
    NextKeepsWindow(c, x.w, ContinueReading(queueSize));
  }

  lemma QuietKeepsQueue(c: Config, x: Relic, step: Step)
    requires QueueInv(c, x) && Enabled(c, x.w, step)
    requires step.SetSlowdown? || step.DecodeFor? || step == Deliver(None)
    ensures QueueInv(c, RelicNext(c, x, Receiving(step)))
  {
    hide Replayed, LibsAscend, Coherent;
    NextKeepsInv(c, x.w, step);
  }

  lemma NextKeepsQueue(c: Config, x: Relic, step: RelicStep)
    requires QueueInv(c, x) && RelicEnabled(c, x, step)
    ensures QueueInv(c, RelicNext(c, x, step))
  {
    hide QueueInv, RelicNext;
    match step
    case Drain => DrainKeepsQueue(c, x);
    case Receiving(Restart(start)) => RestartKeepsQueue(c, x, start);
    case Receiving(Deliver(Some(m))) => DeliverKeepsQueue(c, x, m);
    case Receiving(ContinueReading(queueSize)) => PollKeepsQueue(c, x, queueSize);
    case Receiving(other) => QuietKeepsQueue(c, x, other);
  }

  lemma StartQueueInv(c: Config, start: u32)
    requires c.willAck && 1 <= c.maxUnconfirmed
    ensures QueueInv(c, RelicStart(c, start))
  {
    hide Inv, Window;
    FirstStartWindow(c, start);
  }

  lemma {:induction false} RunKeepsQueue(c: Config, xs: seq<Relic>, steps: seq<RelicStep>, n: nat)
    requires RelicRun(c, xs, steps) && QueueInv(c, xs[0]) && n <= |steps|
    ensures QueueInv(c, xs[n])
  {
    if n > 0 {
      hide QueueInv, RelicNext, RelicEnabled;
      RunKeepsQueue(c, xs, steps, n - 1);
      assert RelicMoves(c, xs[n - 1], steps[n - 1], xs[n - 1 + 1]);
      NextKeepsQueue(c, xs[n - 1], steps[n - 1]);
    }
  }

  lemma ReachableQueue(c: Config, start: u32, x: Relic)
    requires c.willAck && 1 <= c.maxUnconfirmed && RelicReachable(c, start, x)
    ensures QueueInv(c, x)
  {
    var xs, steps :| ReachedBy(c, start, xs, steps, false, false) && Last(xs) == x;
    StartQueueInv(c, start);
    RunKeepsQueue(c, xs, steps, |steps|);
  }

  // ---- nothing is missing ----

  /** The consumer has every committed block, and will have every block of the log once it has seen
      the pending events of a running receiver.  It may have more than that. */
  ghost predicate Held(x: Relic) {
    && (forall b :: b in RefsOf(x.w.log) && b.num <= Base(x.w.r.db) ==> b in x.chain)
    && (x.w.r.status == Running ==> Covers(ConsumeAll(x.chain, x.queue), x.w.log))
  }

  ghost predicate Covers(chain: seq<BlockRef>, log: seq<Block>) {
    forall b :: b in RefsOf(log) ==> b in chain
  }

  /** Events above the committed block cannot have brought a committed block. */
  lemma CoveredIsHeld(chain: seq<BlockRef>, queue: seq<Event>, log: seq<Block>, base: int)
    requires Covers(ConsumeAll(chain, queue), log) && AllAbove(queue, base)
    ensures forall b :: b in RefsOf(log) && b.num <= base ==> b in chain
  {
    hide ConsumeAll, Below;
    ConsumeAbove(chain, queue, base);
    BelowSubset(ConsumeAll(chain, queue), base + 1);
    BelowSubset(chain, base + 1);
  }

  lemma DrainKeepsHeld(c: Config, x: Relic)
    requires QueueInv(c, x) && Held(x)
    ensures Held(RelicNext(c, x, Drain))
  {
    hide Inv, AckQueue, Shaped, Window, Below;
    AckQueueFrame(x.w.r, x.queue);
    ConsumeAbove(x.chain, x.queue, Base(x.w.r.db));
    BelowSubset(ConsumeAll(x.chain, x.queue), Base(x.w.r.db) + 1);
    BelowSubset(x.chain, Base(x.w.r.db) + 1);
  }

  lemma StoredIsCovered(c: Config, x: Relic, m: Block)
    requires QueueInv(c, x) && Held(x) && x.w.r.status == Running && x.w.r.reading && Upstream(x.w, m)
    requires Stored(c, x.w.r, m)
    ensures Covers(ConsumeAll(x.chain, x.queue + ReceiveEvents(c, x.w.r, m)), Survivors(x.w, m) + [m])
  {
    var s, mid := x.w.r, ConsumeAll(x.chain, x.queue);
    hide Inv, Receive, ReceiveEvents, Below, Stored, ConsumeAll, Shaped, Window;
    StoredFields(c, x.w, m);
    StoredEvents(c, s, m);
    ConsumeAllConcat(x.chain, x.queue, ReceiveEvents(c, s, m));
    ConsumeStored(mid, IsFork(s, m), m, Receive(c, s, m).status == Running);
    LogNumbers(x.w);
    HeadNumber(x.w);
    SurvivingRefs(x.w, m);
    BelowSubset(mid, m.num);
    BelowSubset(RefsOf(x.w.log), m.num);
    var kept := Survivors(x.w, m);
    assert RefsOf(kept + [m]) == RefsOf(kept) + [BlockRef(m.num, m.id)];
  }

  lemma DeliverKeepsHeld(c: Config, x: Relic, m: Block)
    requires QueueInv(c, x) && Held(x) && x.w.r.status == Running && x.w.r.reading && Upstream(x.w, m)
    ensures Held(RelicNext(c, x, Receiving(Deliver(Some(m)))))
  {
    hide Inv, Receive, ReceiveEvents, Upstream, Stored, Shaped, Window, ConsumeAll;
    var x' := RelicNext(c, x, Receiving(Deliver(Some(m))));
    if Stored(c, x.w.r, m) {
      StoredIsCovered(c, x, m);
      StoredKeepsAbove(c, x, m);
      CoveredIsHeld(x.chain, x'.queue, x'.w.log, Base(x'.w.r.db));
    } else {
      StoppedFields(c, x.w, m);
      LogNumbers(x.w);
      RunningIsStored(c, x.w.r, m);
      PrefixRefs(x'.w.log, x.w.log, x.w.origin);
    }
  }

  lemma PrefixRefs(short: seq<Block>, log: seq<Block>, origin: int)
    requires short <= log && forall i :: 0 <= i < |log| ==> log[i].num == origin + 1 + i
    ensures forall b :: b in RefsOf(short) ==> b in RefsOf(log) && origin < b.num
  {
    forall b | b in RefsOf(short)
      ensures b in RefsOf(log) && origin < b.num
    {
      var i :| 0 <= i < |short| && RefsOf(short)[i] == b;
      assert RefsOf(log)[i] == b;
    }
  }

  lemma RunningIsStored(c: Config, s: State, m: Block)
    requires !Stored(c, s, m)
    ensures Receive(c, s, m).status != Running
  {
    hide ReceiverModel.StoreBlock, Admit;
  }

  lemma RestartKeepsHeld(c: Config, x: Relic, start: u32)
    requires QueueInv(c, x) && Held(x) && Enabled(c, x.w, Restart(start))
    ensures Held(RelicNext(c, x, Receiving(Restart(start))))
  {
    hide Inv, Load, LoadEvents, Shaped, Window, Below, ConsumeAll, Enabled;
    var x' := RelicNext(c, x, Receiving(Restart(start)));
    var base := Base(x.w.r.db);
    RestartKeepsCommitted(c, x.w, start);
    BelowSubset(RefsOf(x.w.log), base + 1);
    BelowSubset(RefsOf(x'.w.log), base + 1);
    if x'.w.r.status == Running {
      RestartEvents(c, x.w, start);
      ConsumeForks(x.chain, x'.w.r.head + 1);
      BelowSubset(x.chain, x'.w.r.head + 1);
      ConsumeNothing(x.chain);
    }
  }

  lemma ConsumeNothing(chain: seq<BlockRef>)
    ensures ConsumeAll(chain, []) == chain
  {
  }

  lemma PollKeepsHeld(c: Config, x: Relic, queueSize: nat)
    requires QueueInv(c, x) && Held(x) && x.w.r.status == Running && !x.w.r.reading
    ensures Held(RelicNext(c, x, Receiving(ContinueReading(queueSize))))
  {
    hide Inv, Shaped, Window, ConsumeAll, Poll;
    PollKeepsQueue(c, x, queueSize);
    CoveredIsHeld(x.chain, x.queue, x.w.log, Base(RelicNext(c, x, Receiving(ContinueReading(queueSize))).w.r.db));
  }

  lemma NextKeepsHeld(c: Config, x: Relic, step: RelicStep)
    requires QueueInv(c, x) && Held(x) && RelicEnabled(c, x, step)
    ensures Held(RelicNext(c, x, step))
  {
    hide QueueInv, ConsumeAll, Load, Receive;
    match step
    case Drain => DrainKeepsHeld(c, x);
    case Receiving(Restart(start)) => RestartKeepsHeld(c, x, start);
    case Receiving(Deliver(Some(m))) => DeliverKeepsHeld(c, x, m);
    case Receiving(ContinueReading(queueSize)) => PollKeepsHeld(c, x, queueSize);
    case Receiving(other) =>
  }

  lemma {:induction false} RunKeepsHeld(c: Config, xs: seq<Relic>, steps: seq<RelicStep>, n: nat)
    requires RelicRun(c, xs, steps) && QueueInv(c, xs[0]) && Held(xs[0]) && n <= |steps|
    ensures Held(xs[n])
  {
    if n > 0 {
      hide QueueInv, Held, RelicNext, RelicEnabled;
      RunKeepsHeld(c, xs, steps, n - 1);
      RunKeepsQueue(c, xs, steps, n - 1);
      assert RelicMoves(c, xs[n - 1], steps[n - 1], xs[n - 1 + 1]);
      NextKeepsHeld(c, xs[n - 1], steps[n - 1]);
    }
  }

  /** No gap.  In every run, with restarts at any time, the consumer has every committed block, and
      applying the pending events of a running receiver gives it every block of the log. */
  lemma NothingIsMissing(c: Config, start: u32, x: Relic)
    requires c.willAck && 1 <= c.maxUnconfirmed && RelicReachable(c, start, x)
    ensures forall i :: 0 <= i < |x.w.log| ==>
      var b := BlockRef(x.w.log[i].num, x.w.log[i].id);
      && (b.num <= Base(x.w.r.db) ==> b in x.chain)
      && (x.w.r.status == Running ==> b in ConsumeAll(x.chain, x.queue))
  {
    var xs, steps :| ReachedBy(c, start, xs, steps, false, false) && Last(xs) == x;
    StartQueueInv(c, start);
    RunKeepsHeld(c, xs, steps, |steps|);
    forall i | 0 <= i < |x.w.log|
      ensures BlockRef(x.w.log[i].num, x.w.log[i].id) in RefsOf(x.w.log)
    {
      assert RefsOf(x.w.log)[i] == BlockRef(x.w.log[i].num, x.w.log[i].id);
    }
  }

  /** In every run the exporter's own acknowledgements keep the receiver inside its window without any
      further assumption. */
  lemma RelicStaysInWindow(c: Config, start: u32, x: Relic)
    requires c.willAck && 1 <= c.maxUnconfirmed && RelicReachable(c, start, x) && x.w.r.status == Running
    ensures Base(x.w.r.db) <= x.w.r.acked <= x.w.r.head <= x.w.r.acked + c.maxUnconfirmed
  {
    hide RelicReachable, Inv, Shaped;
    ReachableQueue(c, start, x);
  }
}
