/** The outbound queue of the exporters: FIFO delivery, exponential back-off while it is empty, and
    the water marks that slow the receiver down and let it go again. */
module ExportQueue {
  import opened Basics

  type Msg = nat

  datatype Queue = Queue(waiting: seq<Msg>, sent: seq<Msg>, slow: bool, pauseMs: u32)

  datatype QStep = Push(msg: Msg) | Send

  const START := Queue([], [], false, 0)

  /** `queue_hwm * 3 / 4` in unsigned 32-bit arithmetic. */
  function LowWater(highWater: u32): u32 {
    highWater * 3 % 0x1_0000_0000 / 4
  }

  /** The receiver's slowdown flag after `size` waiting messages were compared with the marks. */
  function SlowAfter(highWater: u32, lowWater: u32, size: nat, slow: bool): bool {
    if size >= highWater then true else if size < lowWater then false else slow
  }

  /** How long an exporter with an empty queue waits next. */
  function BackOff(pauseMs: u32): u32 {
    if pauseMs == 0 then 5 else if pauseMs < 256 then 2 * pauseMs else pauseMs
  }

  /** One pass of `async_send_events`: wait if there is nothing to send, else compare the queue with
      the water marks and send its first message. */
  function SendOne(highWater: u32, q: Queue): Queue {
    if q.waiting == [] then
      q.(pauseMs := BackOff(q.pauseMs))
    else
      Queue(q.waiting[1..], q.sent + [q.waiting[0]],
            SlowAfter(highWater, LowWater(highWater), |q.waiting|, q.slow), 0)
  }

  function Step(highWater: u32, q: Queue, step: QStep): Queue {
    match step
    case Push(msg) => q.(waiting := q.waiting + [msg])
    case Send => SendOne(highWater, q)
  }

  function Exec(highWater: u32, q: Queue, steps: seq<QStep>): Queue {
    if steps == [] then q else Step(highWater, Exec(highWater, q, Front(steps)), Last(steps))
  }

  /** The exporter object; `slow` is the flag it sets on the receiver. */
  class WsExporter {
    const highWater: u32
    const lowWater: u32
    var waiting: seq<Msg>
    var slow: bool
    var pauseMs: u32
    ghost var sent: seq<Msg>

    ghost function Value(): Queue
      reads this
    {
      Queue(waiting, sent, slow, pauseMs)
    }

    /** A queue limit of zero is refused by the configuration. */
    constructor (highWater: u32)
      requires highWater > 0
      ensures this.highWater == highWater && lowWater == LowWater(highWater) && Value() == START
    {
      this.highWater, lowWater := highWater, highWater * 3 % 0x1_0000_0000 / 4;
      waiting, sent, slow, pauseMs := [], [], false, 0;
    }

    /** `push_msg` */
    method Push(msg: Msg)
      modifies this`waiting
      ensures Value() == Step(highWater, old(Value()), QStep.Push(msg))
    {
      waiting := waiting + [msg];
    }

    /** `async_send_events` */
    method AsyncSendEvents() returns (msg: Option<Msg>)
      requires lowWater == LowWater(highWater)
      modifies this
      ensures Value() == SendOne(highWater, old(Value()))
      ensures msg == if old(waiting) == [] then None else Some(old(waiting)[0])
    {
      if waiting == [] {
        if pauseMs == 0 {
          pauseMs := 5;
        } else if pauseMs < 256 {
          pauseMs := pauseMs * 2;
        }
        return None;
      }
      pauseMs := 0;
      if |waiting| >= highWater {
        slow := true;
      } else if |waiting| < lowWater {
        slow := false;
      }
      msg := Some(waiting[0]);
      sent := sent + [waiting[0]];
      waiting := waiting[1..];
    }
  }

  // ---- order and back-off ----

  /** The messages pushed by a run, in order. */
  function Pushed(steps: seq<QStep>): seq<Msg> {
    if steps == [] then []
    else Pushed(Front(steps)) + if Last(steps).Push? then [Last(steps).msg] else []
  }

  /** The sends that found nothing to send, since the last one that did. */
  function IdleSends(highWater: u32, steps: seq<QStep>): nat {
    if steps == [] then 0
    else
      var before := IdleSends(highWater, Front(steps));
      if Last(steps).Push? then before
      else if Exec(highWater, START, Front(steps)).waiting == [] then before + 1 else 0
  }

  /** The waiting times of an exporter that finds its queue empty again and again. */
  const PAUSES: seq<u32> := [0, 5, 10, 20, 40, 80, 160, 320]

  /** FIFO and bounded back-off: what was sent followed by what waits is what was pushed, and the
      waiting time starts at 5 ms, doubles with every idle send up to 320 ms, and is over with the
      next message. */
  lemma {:induction false} DeliversInOrder(highWater: u32, steps: seq<QStep>)
    ensures var q := Exec(highWater, START, steps);
      && q.sent + q.waiting == Pushed(steps)
      && q.pauseMs == PAUSES[Min(IdleSends(highWater, steps), 7)]
  {
    if steps != [] {
      DeliversInOrder(highWater, Front(steps));
      var q := Exec(highWater, START, Front(steps));
      if Last(steps).Push? {
        assert q.sent + (q.waiting + [Last(steps).msg]) == (q.sent + q.waiting) + [Last(steps).msg];
      } else if q.waiting != [] {
        assert q.sent + q.waiting == (q.sent + [q.waiting[0]]) + q.waiting[1..];
      }
    }
  }

  // ---- the slowdown flag ----

  /** The receiver is slowed down although nothing is left to send. */
  predicate Deadlocked(q: Queue) {
    q.slow && q.waiting == []
  }

  ghost predicate DeadlockFree(highWater: u32) {
    forall steps :: !Deadlocked(Exec(highWater, START, steps))
  }

  lemma {:induction false} SlowMeansWaiting(highWater: u32, steps: seq<QStep>)
    requires 2 <= LowWater(highWater)
    ensures var q := Exec(highWater, START, steps); q.slow ==> LowWater(highWater) - 1 <= |q.waiting|
  {
    if steps != [] {
      SlowMeansWaiting(highWater, Front(steps));
      assert LowWater(highWater) <= highWater;
    }
  }

  /** `n` pushes, then `k` sends. */
  function Burst(n: nat, k: nat): seq<QStep> {
    if 0 < k then Burst(n, k - 1) + [Send]
    else if 0 < n then Burst(n - 1, 0) + [Push(0)]
    else []
  }

  lemma {:induction false} BurstState(highWater: u32, n: nat, k: nat)
    requires LowWater(highWater) <= 1 && 1 <= highWater && n == highWater && k <= n
    ensures var q := Exec(highWater, START, Burst(n, k)); |q.waiting| == n - k && (1 <= k ==> q.slow)
    decreases k
  {
    if k == 0 {
      PushesWait(highWater, n);
    } else {
      BurstState(highWater, n, k - 1);
      assert Front(Burst(n, k)) == Burst(n, k - 1);
    }
  }

  lemma {:induction false} PushesWait(highWater: u32, n: nat)
    ensures |Exec(highWater, START, Burst(n, 0)).waiting| == n
  {
    if n != 0 {
      PushesWait(highWater, n - 1);
      assert Front(Burst(n, 0)) == Burst(n - 1, 0);
    }
  }

  /** No backpressure deadlock, exactly: a slowed-down receiver always has messages left to be
      released by if and only if the low water mark is at least 2. */
  lemma DeadlockFreeIff(highWater: u32)
    requires 1 <= highWater
    ensures DeadlockFree(highWater) <==> 2 <= LowWater(highWater)
  {
    if 2 <= LowWater(highWater) {
      forall steps
        ensures !Deadlocked(Exec(highWater, START, steps))
      {
        SlowMeansWaiting(highWater, steps);
      }
    } else {
      BurstState(highWater, highWater, highWater);
      assert Deadlocked(Exec(highWater, START, Burst(highWater, highWater)));
    }
  }

  /** Exactly eight limits have a low water mark below 2: those up to 2, and five whose threefold
      overflows to something small. */
  lemma WhichLimits(highWater: u32)
    ensures LowWater(highWater) < 2 <==>
      highWater in {0, 1, 2, 0x5555_5556, 0x5555_5557, 0xaaaa_aaab, 0xaaaa_aaac, 0xaaaa_aaad}
  {
  }

  /** Draining always releases the receiver: as many sends as there are messages waiting empty the
      queue and clear the flag. */
  lemma {:induction false} DrainReleases(highWater: u32, q: Queue)
    requires 2 <= LowWater(highWater) && q.waiting != []
    ensures var sends := seq(|q.waiting|, i => Send);
      && Exec(highWater, q, sends).waiting == []
      && !Exec(highWater, q, sends).slow
      && Exec(highWater, q, sends).sent == q.sent + q.waiting
  {
    var n := |q.waiting|;
    SendsSend(highWater, q, n - 1);
    var sends := seq(n, i => Send);
    assert Front(sends) == seq(n - 1, i => Send);
    assert q.waiting[..n - 1] + [q.waiting[n - 1]] == q.waiting;
  }

  lemma {:induction false} SendsSend(highWater: u32, q: Queue, k: nat)
    requires k <= |q.waiting|
    ensures Exec(highWater, q, seq(k, i => Send)).waiting == q.waiting[k..]
    ensures Exec(highWater, q, seq(k, i => Send)).sent == q.sent + q.waiting[..k]
  {
    if k == 0 {
      assert seq(k, i => Send) == [];
    } else {
      SendsSend(highWater, q, k - 1);
      assert Front(seq(k, i => Send)) == seq(k - 1, i => Send);
      assert q.waiting[..k] == q.waiting[..k - 1] + [q.waiting[k - 1]];
    }
  }

  // ---- release ----

  /** With a low water mark below 2 the flag, once set, is never cleared again: whatever is pushed
      later, a queue with something to send is never below the mark. */
  lemma {:induction false} SlowForEver(highWater: u32, q: Queue, steps: seq<QStep>)
    requires LowWater(highWater) < 2 && q.slow
    ensures Exec(highWater, q, steps).slow
  {
    if steps != [] {
      SlowForEver(highWater, q, Front(steps));
    }
  }

  /** Whenever a run has slowed the receiver down, some continuation releases it. */
  ghost predicate AlwaysReleasable(highWater: u32) {
    forall steps :: Exec(highWater, START, steps).slow ==> Releasable(highWater, Exec(highWater, START, steps))
  }

  ghost predicate Releasable(highWater: u32, q: Queue) {
    exists more :: !Exec(highWater, q, more).slow
  }

  /** The slowdown is temporary in every run if and only if the low water mark is at least 2; below
      that it is permanent from the first time on. */
  lemma ReleasableIff(highWater: u32)
    requires 1 <= highWater
    ensures AlwaysReleasable(highWater) <==> 2 <= LowWater(highWater)
  {
    if 2 <= LowWater(highWater) {
      forall steps | Exec(highWater, START, steps).slow
        ensures Releasable(highWater, Exec(highWater, START, steps))
      {
        var q := Exec(highWater, START, steps);
        SlowMeansWaiting(highWater, steps);
        DrainReleases(highWater, q);
        var sends := seq(|q.waiting|, i => Send);
        assert !Exec(highWater, q, sends).slow;
      }
    } else {
      BurstState(highWater, highWater, highWater);
      var q := Exec(highWater, START, Burst(highWater, highWater));
      forall more
        ensures Exec(highWater, q, more).slow
      {
        SlowForEver(highWater, q, more);
      }
      assert !Releasable(highWater, q);
    }
  }
}
