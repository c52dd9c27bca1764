/** The Relic exporter and its SQL consumer.  Events wait in a FIFO queue; one callback of the
    exporter drains the whole queue, feeding the consumer and acknowledging to the receiver as it
    goes.  The stored procedures are not part of the repository: insblocks is taken to add a block
    and rbfork(n) to delete every block from n on. */
module RelicExporter {
  import opened Basics
  import opened Messages
  import opened ReceiverModel
  import opened ReceiverObject
  import ExportQueue

  datatype BlockRef = BlockRef(num: u32, id: BlockId)

  /** The blocks of a chain with a number below `num`. */
  function Below(chain: seq<BlockRef>, num: int): seq<BlockRef> {
    if chain == [] then []
    else Below(Front(chain), num) + if Last(chain).num < num then [Last(chain)] else []
  }

  function Consume(chain: seq<BlockRef>, e: Event): seq<BlockRef> {
    match e
    case BlockEvent(num, id) => chain + [BlockRef(num, id)]
    case ForkEvent(num) => Below(chain, num)
    case CompletedEvent(_) => chain
  }

  function ConsumeAll(chain: seq<BlockRef>, queue: seq<Event>): seq<BlockRef> {
    if queue == [] then chain else Consume(ConsumeAll(chain, Front(queue)), Last(queue))
  }

  /** A completed or forked block acknowledges the block before it. */
  function AckEvent(s: State, e: Event): State {
    if e.BlockEvent? then s else AckBlock(s, Dec32(e.num))
  }

  function AckQueue(s: State, queue: seq<Event>): State {
    if queue == [] then s else AckEvent(AckQueue(s, Front(queue)), Last(queue))
  }

  lemma AckLast(s: State, queue: seq<Event>, n: nat)
    requires 1 <= n <= |queue|
    ensures AckQueue(s, queue[..n]) == AckEvent(AckQueue(s, queue[..n - 1]), queue[n - 1])
  {
    assert Front(queue[..n]) == queue[..n - 1];
  }

  lemma ConsumeLast(chain: seq<BlockRef>, queue: seq<Event>, n: nat)
    requires 1 <= n <= |queue|
    ensures ConsumeAll(chain, queue[..n]) == Consume(ConsumeAll(chain, queue[..n - 1]), queue[n - 1])
  {
    assert Front(queue[..n]) == queue[..n - 1];
  }

  lemma AckIgnoresSlow(s: State, slow: bool, e: Event)
    ensures AckEvent(s.(slow := slow), e) == AckEvent(s, e).(slow := slow)
  {
  }

  class Exporter {
    const receiver: Receiver
    const highWater: u32
    const lowWater: u32
    var queue: seq<Event>
    var pauseMs: u32
    var chain: seq<BlockRef>

    constructor (receiver: Receiver, highWater: u32)
      ensures this.receiver == receiver && queue == [] && pauseMs == 0 && chain == []
      ensures this.highWater == highWater && lowWater == ExportQueue.LowWater(highWater)
    {
      this.receiver, this.highWater, this.lowWater := receiver, highWater, highWater * 3 % 0x1_0000_0000 / 4;
      queue, pauseMs, chain := [], 0, [];
    }

    /** `push_msg` */
    method Push(e: Event)
      modifies this`queue
      ensures queue == old(queue) + [e]
    {
      queue := queue + [e];
    }

    /** `async_send_events`, which calls itself until the queue is empty and then waits.  With a low
        water mark of at least 2 the receiver is released by the last message. */
    method SendEvents()
      requires receiver.config.willAck && lowWater == ExportQueue.LowWater(highWater)
      modifies this`queue, this`pauseMs, this`chain, receiver`slow, receiver`forkedAt, receiver`acked, receiver`status
      ensures queue == [] && chain == ConsumeAll(old(chain), old(queue))
      ensures receiver.Value() == AckQueue(old(receiver.Value()), old(queue)).(slow := receiver.slow)
      ensures pauseMs == ExportQueue.BackOff(if old(queue) == [] then old(pauseMs) else 0)
      ensures receiver.slow && 2 <= lowWater ==> old(receiver.slow) && old(queue) == []
    {
      ghost var all, done := queue, 0;
      ghost var s := receiver.Value();
      assert AckQueue(s, []) == s && ConsumeAll(chain, []) == chain;
      hide AckEvent, AckQueue, Consume, ConsumeAll, ExportQueue.LowWater, ExportQueue.BackOff;
      while queue != []
        invariant 0 <= done <= |all| && queue == all[done..]
        invariant chain == ConsumeAll(old(chain), all[..done])
        invariant receiver.Value() == AckQueue(s, all[..done]).(slow := receiver.slow)
        invariant pauseMs == if done == 0 then old(pauseMs) else 0
        invariant receiver.slow && 2 <= lowWater ==> done == 0 || queue != []
        invariant done == 0 ==> receiver.slow == s.slow
        decreases |queue|
      {
        AckLast(s, all, done + 1);
        ConsumeLast(old(chain), all, done + 1);
        AckIgnoresSlow(AckQueue(s, all[..done]), receiver.slow, queue[0]);
        SendOne();
        done := done + 1;
      }
      assert all[..done] == all;
      Wait();
    }

    /** The branch for an empty queue: the timer is set, longer each time. */
    method Wait()
      modifies this`pauseMs
      ensures pauseMs == ExportQueue.BackOff(old(pauseMs))
    {
      if pauseMs == 0 {
        pauseMs := 5;
      } else if pauseMs < 256 {
        pauseMs := pauseMs * 2;
      }
    }

    /** One pass of `async_send_events` on a queue that is not empty. */
    method SendOne()
      requires receiver.config.willAck && queue != []
      modifies this`queue, this`pauseMs, this`chain, receiver`slow, receiver`forkedAt, receiver`acked, receiver`status
      ensures pauseMs == 0
      ensures queue == old(queue)[1..] && chain == Consume(old(chain), old(queue)[0])
      ensures receiver.Value() == AckEvent(old(receiver.Value()), old(queue)[0]).(slow := receiver.slow)
      ensures receiver.slow == ExportQueue.SlowAfter(highWater, lowWater, |old(queue)|, old(receiver.slow))
    {
      pauseMs := 0;
      if |queue| >= highWater {
        receiver.slow := true;
      } else if |queue| < lowWater {
        receiver.slow := false;
      }
      var e := queue[0];
      queue := queue[1..];
      Handle(e);
    }

    method Handle(e: Event)
      requires receiver.config.willAck
      modifies this`chain, receiver`forkedAt, receiver`acked, receiver`status
      ensures chain == Consume(old(chain), e)
      ensures receiver.Value() == AckEvent(old(receiver.Value()), e)
    {
      match e
      case BlockEvent(num, id) =>
        chain := chain + [BlockRef(num, id)];
      case CompletedEvent(num) =>
        receiver.AckBlock(Dec32(num));
      case ForkEvent(num) =>
        chain := DeleteFrom(chain, num);
        receiver.AckBlock(Dec32(num));
    }

    /** The consumer's rbfork. */
    static method DeleteFrom(chain: seq<BlockRef>, num: u32) returns (kept: seq<BlockRef>)
      ensures kept == Below(chain, num)
    {
      kept := [];
      for i := 0 to |chain|
        invariant kept == Below(chain[..i], num)
      {
        assert Front(chain[..i + 1]) == chain[..i];
        if chain[i].num < num {
          kept := kept + [chain[i]];
        }
      }
      assert chain[..|chain|] == chain;
    }
  }
}
