/** Consumer and receiver agree exactly: what the consumer will hold is the log, no block missing and
    none too many.  This holds in runs whose restarts are clean; after any other restart it comes back
    exactly with a FORK at or below the first disagreement. */
module RelicMirror {
  import opened Basics
  import opened Messages
  import opened Chainbase
  import opened ReceiverModel
  import opened ReceiverRuns
  import opened FlowControl
  import opened RelicExporter
  import opened Chains
  import opened RelicSystem

  /** Applying the pending events makes the consumer's chain the log. */
  ghost predicate Mirrors(x: Relic) {
    ConsumeAll(x.chain, x.queue) == RefsOf(x.w.log)
  }

  /** Consumer and log agree on the committed blocks, queue or not. */
  ghost predicate CommittedMirror(x: Relic) {
    var base := Base(x.w.r.db);
    && Below(x.chain, base + 1) == Below(RefsOf(x.w.log), base + 1)
    && forall b :: b in x.chain ==> x.w.origin < b.num
  }

  ghost predicate RelicInv(c: Config, x: Relic) {
    QueueInv(c, x) && CommittedMirror(x) && (x.w.r.status == Running ==> Mirrors(x))
  }

  /** Once consumer plus queue are the log, agreement on the committed blocks follows. */
  lemma MirrorGivesCommitted(chain: seq<BlockRef>, queue: seq<Event>, log: seq<Block>, base: int)
    requires ConsumeAll(chain, queue) == RefsOf(log) && AllAbove(queue, base)
    ensures Below(chain, base + 1) == Below(RefsOf(log), base + 1)
  {
    ConsumeAbove(chain, queue, base);
  }

  lemma DrainKeepsInv(c: Config, x: Relic)
    requires RelicInv(c, x)
    ensures RelicInv(c, RelicNext(c, x, Drain))
  {
    hide Inv, Below, AckQueue, ConsumeAll, Window, Shaped;
    DrainKeepsQueue(c, x);
    AckQueueFrame(x.w.r, x.queue);
    ConsumeNothing(ConsumeAll(x.chain, x.queue));
    ConsumeAbove(x.chain, x.queue, Base(x.w.r.db));
    ConsumeStaysAbove(x.chain, x.queue, x.w.origin);
  }

  // ---- when the mirror comes back ----

  /** Consumer plus queue agree with the log on the blocks below `n`. */
  ghost predicate AgreeBelow(x: Relic, n: int) {
    Below(ConsumeAll(x.chain, x.queue), n) == Below(RefsOf(x.w.log), n)
  }

  lemma AgreeBelowLess(x: Relic, k: int, n: int)
    requires AgreeBelow(x, n) && k <= n
    ensures AgreeBelow(x, k)
  {
    hide Below, ConsumeAll;
    BelowTwice(ConsumeAll(x.chain, x.queue), n, k);
    BelowTwice(RefsOf(x.w.log), n, k);
  }

  lemma MirrorsAfterBlockIff(c: Config, x: Relic, m: Block)
    requires QueueInv(c, x) && x.w.r.status == Running && x.w.r.reading && Upstream(x.w, m)
    requires Stored(c, x.w.r, m)
    ensures Mirrors(RelicNext(c, x, Receiving(Deliver(Some(m)))))
      <==> if IsFork(x.w.r, m) then AgreeBelow(x, m.num) else Mirrors(x)
  {
    hide Inv, Receive, ReceiveEvents, Below, Stored, ConsumeAll, Window, Shaped;
    var s, mid := x.w.r, ConsumeAll(x.chain, x.queue);
    var b := BlockRef(m.num, m.id);
    StoredFields(c, x.w, m);
    StoredEvents(c, s, m);
    ConsumeAllConcat(x.chain, x.queue, ReceiveEvents(c, s, m));
    ConsumeStored(mid, IsFork(s, m), m, Receive(c, s, m).status == Running);
    LogNumbers(x.w);
    HeadNumber(x.w);
    SurvivingRefs(x.w, m);
    var kept := Survivors(x.w, m);
    assert RefsOf(kept + [m]) == RefsOf(kept) + [b];
    SnocInjective(if IsFork(s, m) then Below(mid, m.num) else mid, RefsOf(kept), b);
  }

  lemma SnocInjective(a: seq<BlockRef>, b: seq<BlockRef>, last: BlockRef)
    ensures a + [last] == b + [last] <==> a == b
  {
    if a + [last] == b + [last] {
      assert a == (a + [last])[..|a|] && b == (b + [last])[..|b|];
    }
  }

  /** What the consumer keeps of its chain at a restart: everything, or the blocks up to the new head
      if a FORK is announced. */
  ghost predicate MirrorsAfterRestart(x: Relic, y: Relic) {
    if x.w.r.db.stack != [] || x.w.r.db.tables.state.None?
    then Below(x.chain, y.w.r.head + 1) == RefsOf(y.w.log)
    else x.chain == RefsOf(y.w.log)
  }

  lemma MirrorsAfterRestartIff(c: Config, x: Relic, start: u32)
    requires QueueInv(c, x) && Enabled(c, x.w, Restart(start))
    requires Next(c, x.w, Restart(start)).r.status == Running
    ensures var y := RelicNext(c, x, Receiving(Restart(start))); Mirrors(y) <==> MirrorsAfterRestart(x, y)
  {
    hide Inv, Below, Load, LoadEvents, ConsumeAll, Window, Shaped, Enabled;
    RestartEvents(c, x.w, start);
    ConsumeForks(x.chain, Next(c, x.w, Restart(start)).r.head + 1);
    ConsumeNothing(x.chain);
  }

  /** In every run, with restarts at any time, this is when consumer and receiver agree after a step: a
      network fork needs agreement below its number only, a restart that announces a FORK up to the
      new head only; nothing else restores or destroys agreement, except a restart that announces
      nothing while the consumer holds more than the committed blocks. */
  lemma MirrorsAfterIff(c: Config, start: u32, x: Relic, step: RelicStep)
    requires c.willAck && 1 <= c.maxUnconfirmed && RelicReachable(c, start, x)
    requires RelicEnabled(c, x, step) && RelicNext(c, x, step).w.r.status == Running
    ensures var y := RelicNext(c, x, step);
      Mirrors(y) <==>
        if IsRestart(step) then MirrorsAfterRestart(x, y)
        else if BringsBlock(step) && IsFork(x.w.r, step.step.message.value)
        then AgreeBelow(x, step.step.message.value.num)
        else Mirrors(x)
  {
    ReachableQueue(c, start, x);
    hide RelicReachable, QueueInv, ConsumeAll, Load, Receive, MirrorsAfterRestart, Below, AckQueue;
    match step
    case Drain =>
      ConsumeNothing(ConsumeAll(x.chain, x.queue));
    case Receiving(Restart(again)) => MirrorsAfterRestartIff(c, x, again);
    case Receiving(Deliver(Some(m))) =>
      RunningStored(c, x.w.r, m);
      MirrorsAfterBlockIff(c, x, m);
    case Receiving(_) =>
  }

  // ---- clean restarts ----

  lemma DeliverKeepsRelicInv(c: Config, x: Relic, m: Block)
    requires RelicInv(c, x) && x.w.r.status == Running && x.w.r.reading && Upstream(x.w, m)
    ensures RelicInv(c, RelicNext(c, x, Receiving(Deliver(Some(m)))))
  {
    hide Inv, Below, ConsumeAll, Receive, ReceiveEvents, Upstream, Stored, Window, Shaped;
    var x' := RelicNext(c, x, Receiving(Deliver(Some(m))));
    DeliverKeepsQueue(c, x, m);
    if Stored(c, x.w.r, m) {
      StoredMirrors(c, x, m);
      StoredKeepsAbove(c, x, m);
      MirrorGivesCommitted(x.chain, x'.queue, x'.w.log, Base(x'.w.r.db));
    } else {
      RunningIsStored(c, x.w.r, m);
      StoppedKeepsCommitted(c, x, m);
    }
  }

  lemma StoredMirrors(c: Config, x: Relic, m: Block)
    requires QueueInv(c, x) && Mirrors(x) && x.w.r.status == Running && x.w.r.reading && Upstream(x.w, m)
    requires Stored(c, x.w.r, m)
    ensures Mirrors(RelicNext(c, x, Receiving(Deliver(Some(m)))))
  {
    hide RelicNext, QueueInv, ConsumeAll, Stored, Upstream;
    MirrorsAfterBlockIff(c, x, m);
  }

  lemma StoppedKeepsCommitted(c: Config, x: Relic, m: Block)
    requires QueueInv(c, x) && CommittedMirror(x) && x.w.r.status == Running && Upstream(x.w, m)
    requires !Stored(c, x.w.r, m)
    ensures CommittedMirror(RelicNext(c, x, Receiving(Deliver(Some(m)))))
  {
    hide Below, Receive, ReceiveEvents, Inv, Upstream, Stored, Window, Shaped;
    var x' := RelicNext(c, x, Receiving(Deliver(Some(m))));
    var base', origin := Base(x'.w.r.db), x.w.origin;
    DeliverKeepsInv(c, x.w, m);
    StoppedFields(c, x.w, m);
    LogNumbers(x.w);
    LogNumbers(x'.w);
    if base' <= origin {
      BelowNone(x.chain, base' + 1);
      BelowNone(RefsOf(x'.w.log), base' + 1);
    } else {
      CommittedAgree(x.w.log, x'.w.log, origin, base');
    }
  }

  /** The committed part of the log is what survives a restart, and the consumer has it. */
  lemma RestartCommitted(c: Config, x: Relic, start: u32)
    requires Inv(x.w) && CommittedMirror(x) && Enabled(c, x.w, Restart(start))
    ensures var w' := Next(c, x.w, Restart(start)); var base := Base(x.w.r.db);
      && w'.origin == x.w.origin && Base(w'.r.db) == base
      && w'.r.head == w'.origin + |w'.log|
      && (if w'.log == [] then base <= w'.origin else base == w'.r.head)
      && RefsOf(w'.log) == Below(x.chain, base + 1) == Below(RefsOf(w'.log), base + 1)
  {
    hide Inv, Below, Load;
    RestartKeepsCommitted(c, x.w, start);
  }

  lemma ForkGivesLog(chain: seq<BlockRef>, log: seq<Block>, origin: int, base: int, head: u32)
    requires RefsOf(log) == Below(chain, base + 1) && forall b :: b in chain ==> origin < b.num
    requires if log == [] then head == origin else head == base
    ensures Below(chain, head + 1) == RefsOf(log)
  {
    if log == [] {
      BelowNone(chain, head + 1);
    }
  }

  /** No gap and no stale block.  After a restart that loses the whole queue, what the consumer will
      hold once it has seen the start-up events is exactly the log the receiver resumes from if and
      only if the restart was clean. */
  lemma RestartMirrorsIff(c: Config, x: Relic, start: u32)
    requires QueueInv(c, x) && CommittedMirror(x) && Enabled(c, x.w, Restart(start))
    requires Next(c, x.w, Restart(start)).r.status == Running
    ensures Mirrors(RelicNext(c, x, Receiving(Restart(start)))) <==> CleanRestart(x)
  {
    hide Below, Load, LoadEvents, Inv, Window, Shaped, Enabled, Mirrors;
    var y := RelicNext(c, x, Receiving(Restart(start)));
    RestartCommitted(c, x, start);
    MirrorsAfterRestartIff(c, x, start);
    if x.w.r.db.stack != [] || x.w.r.db.tables.state.None? {
      ForkGivesLog(x.chain, y.w.log, y.w.origin, Base(x.w.r.db), y.w.r.head);
    }
  }

  lemma RestartKeepsRelicInv(c: Config, x: Relic, start: u32)
    requires RelicInv(c, x) && Enabled(c, x.w, Restart(start)) && CleanRestart(x)
    ensures RelicInv(c, RelicNext(c, x, Receiving(Restart(start))))
  {
    hide Below, Load, LoadEvents, Inv, Window, Shaped, Enabled, Mirrors, CleanRestart;
    RestartKeepsQueue(c, x, start);
    RestartCommitted(c, x, start);
    if Next(c, x.w, Restart(start)).r.status == Running {
      RestartMirrorsIff(c, x, start);
    }
  }

  lemma PollKeepsRelicInv(c: Config, x: Relic, queueSize: nat)
    requires RelicInv(c, x) && x.w.r.status == Running && !x.w.r.reading
    ensures RelicInv(c, RelicNext(c, x, Receiving(ContinueReading(queueSize))))
  {
    hide Inv, Below, ConsumeAll, Window, Shaped, Poll;
    PollKeepsQueue(c, x, queueSize);
    var x' := RelicNext(c, x, Receiving(ContinueReading(queueSize)));
    MirrorGivesCommitted(x.chain, x.queue, x.w.log, Base(x'.w.r.db));
  }

  lemma QuietKeepsRelicInv(c: Config, x: Relic, step: Step)
    requires RelicInv(c, x) && Enabled(c, x.w, step)
    requires step.SetSlowdown? || step.DecodeFor? || step == Deliver(None)
    ensures RelicInv(c, RelicNext(c, x, Receiving(step)))
  {
    hide QueueInv, Below, ConsumeAll;
    QuietKeepsQueue(c, x, step);
  }

  lemma RelicNextKeepsInv(c: Config, x: Relic, step: RelicStep)
    requires RelicInv(c, x) && RelicEnabled(c, x, step) && (IsRestart(step) ==> CleanRestart(x))
    ensures RelicInv(c, RelicNext(c, x, step))
  {
    hide RelicInv, RelicNext, CleanRestart;
    match step
    case Drain => DrainKeepsInv(c, x);
    case Receiving(Restart(start)) => RestartKeepsRelicInv(c, x, start);
    case Receiving(Deliver(Some(m))) => DeliverKeepsRelicInv(c, x, m);
    case Receiving(ContinueReading(queueSize)) => PollKeepsRelicInv(c, x, queueSize);
    case Receiving(other) => QuietKeepsRelicInv(c, x, other);
  }

  lemma RelicStartInv(c: Config, start: u32)
    requires c.willAck && 1 <= c.maxUnconfirmed
    ensures RelicInv(c, RelicStart(c, start))
  {
    StartQueueInv(c, start);
    hide QueueInv, Below, ConsumeAll;
    var x := RelicStart(c, start);
    BelowAll([], Base(x.w.r.db) + 1);
    BelowAll([], x.w.r.head + 1);
    ConsumeForks([], x.w.r.head + 1);
    assert RefsOf([]) == [];
  }

  lemma {:induction false} RelicRunKeepsInv(c: Config, xs: seq<Relic>, steps: seq<RelicStep>, n: nat)
    requires RelicRun(c, xs, steps) && RestartsCleanly(xs, steps) && RelicInv(c, xs[0]) && n <= |steps|
    ensures RelicInv(c, xs[n])
  {
    if n > 0 {
      hide RelicInv, RelicNext, RelicEnabled, CleanRestart;
      RelicRunKeepsInv(c, xs, steps, n - 1);
      assert RelicMoves(c, xs[n - 1], steps[n - 1], xs[n - 1 + 1]);
      RelicNextKeepsInv(c, xs[n - 1], steps[n - 1]);
    }
  }

  lemma CleanlyReachableInv(c: Config, start: u32, x: Relic)
    requires c.willAck && 1 <= c.maxUnconfirmed && CleanlyReachable(c, start, x)
    ensures RelicInv(c, x)
  {
    hide RelicInv;
    var xs, steps :| ReachedBy(c, start, xs, steps, true, false) && Last(xs) == x;
    RelicStartInv(c, start);
    RelicRunKeepsInv(c, xs, steps, |steps|);
  }

  /** Consumer mirror.  In every run with clean restarts, while the receiver runs, applying the pending
      events makes the consumer's chain exactly the chain of surviving blocks; and in every state, even
      if the queue is lost, consumer and receiver agree on every committed block. */
  lemma ConsumerMirrorsReceiver(c: Config, start: u32, x: Relic)
    requires c.willAck && 1 <= c.maxUnconfirmed && CleanlyReachable(c, start, x)
    ensures x.w.r.status == Running ==> ConsumeAll(x.chain, x.queue) == RefsOf(x.w.log)
    ensures Below(x.chain, Base(x.w.r.db) + 1) == Below(RefsOf(x.w.log), Base(x.w.r.db) + 1)
  {
    hide CleanlyReachable;
    CleanlyReachableInv(c, start, x);
  }
}
