/** Facts about the consumer's chain, about event queues and about runs of acknowledgements. */
module Chains {
  import opened Basics
  import opened Messages
  import opened ReceiverModel
  import opened RelicExporter

  /** The chain a log of blocks stands for. */
  function RefsOf(log: seq<Block>): seq<BlockRef> {
    seq(|log|, i requires 0 <= i < |log| => BlockRef(log[i].num, log[i].id))
  }

  lemma BelowSnoc(chain: seq<BlockRef>, last: BlockRef, n: int)
    ensures Below(chain + [last], n) == Below(chain, n) + if last.num < n then [last] else []
  {
    assert Front(chain + [last]) == chain;
  }

  lemma {:induction false} BelowConcat(c1: seq<BlockRef>, c2: seq<BlockRef>, n: int)
    ensures Below(c1 + c2, n) == Below(c1, n) + Below(c2, n)
  {
    if c2 == [] {
      assert c1 + c2 == c1;
    } else {
      hide Below;
      var before, last := c2[..|c2| - 1], c2[|c2| - 1];
      BelowConcat(c1, before, n);
      BelowSnoc(before, last, n);
      BelowSnoc(c1 + before, last, n);
      assert before + [last] == c2;
      assert c1 + c2 == c1 + before + [last];
      var kept := if last.num < n then [last] else [];
      assert Below(c1, n) + Below(before, n) + kept == Below(c1, n) + (Below(before, n) + kept);
    }
  }

  lemma {:induction false} BelowTwice(chain: seq<BlockRef>, a: int, b: int)
    ensures Below(Below(chain, a), b) == Below(chain, Min(a, b))
  {
    if chain != [] {
      BelowTwice(Front(chain), a, b);
      var kept := if Last(chain).num < a then [Last(chain)] else [];
      BelowConcat(Below(Front(chain), a), kept, b);
    }
  }

  lemma {:induction false} BelowAll(chain: seq<BlockRef>, n: int)
    requires forall i :: 0 <= i < |chain| ==> chain[i].num < n
    ensures Below(chain, n) == chain
  {
    if chain != [] {
      hide Below;
      var k := |chain| - 1;
      BelowAll(chain[..k], n);
      BelowSnoc(chain[..k], chain[k], n);
      assert chain[..k] + [chain[k]] == chain;
    }
  }

  lemma {:induction false} BelowNone(chain: seq<BlockRef>, n: int)
    requires forall i :: 0 <= i < |chain| ==> n <= chain[i].num
    ensures Below(chain, n) == []
  {
    if chain != [] {
      BelowNone(Front(chain), n);
    }
  }

  lemma {:induction false} BelowSubset(chain: seq<BlockRef>, n: int)
    ensures forall b :: b in Below(chain, n) <==> b in chain && b.num < n
  {
    if chain != [] {
      var before, last := Front(chain), Last(chain);
      BelowSubset(before, n);
      assert forall b :: b in chain <==> b in before || b == last;
    }
  }

  /** On a log without gaps, the blocks below a number are a prefix. */
  lemma BelowRefs(log: seq<Block>, origin: int, k: nat)
    requires k <= |log| && forall i :: 0 <= i < |log| ==> log[i].num == origin + 1 + i
    ensures Below(RefsOf(log), origin + 1 + k) == RefsOf(log[..k])
  {
    var n := origin + 1 + k;
    var low, high := RefsOf(log[..k]), RefsOf(log[k..]);
    assert RefsOf(log) == low + high;
    BelowConcat(low, high, n);
    BelowAll(low, n);
    BelowNone(high, n);
  }

  lemma {:induction false} ConsumeAllConcat(chain: seq<BlockRef>, q1: seq<Event>, q2: seq<Event>)
    ensures ConsumeAll(chain, q1 + q2) == ConsumeAll(ConsumeAll(chain, q1), q2)
  {
    if q2 == [] {
      assert q1 + q2 == q1;
    } else {
      ConsumeAllConcat(chain, q1, Front(q2));
      assert Front(q1 + q2) == q1 + Front(q2);
    }
  }

  lemma {:induction false} AckQueueConcat(s: State, q1: seq<Event>, q2: seq<Event>)
    ensures AckQueue(s, q1 + q2) == AckQueue(AckQueue(s, q1), q2)
  {
    if q2 == [] {
      assert q1 + q2 == q1;
    } else {
      AckQueueConcat(s, q1, Front(q2));
      assert Front(q1 + q2) == q1 + Front(q2);
    }
  }

  /** Every event speaks of a block above `n`. */
  ghost predicate AllAbove(queue: seq<Event>, n: int) {
    forall i :: 0 <= i < |queue| ==> n < queue[i].num
  }

  /** Such events leave the blocks up to `n` alone. */
  lemma {:induction false} ConsumeAbove(chain: seq<BlockRef>, queue: seq<Event>, n: int)
    requires AllAbove(queue, n)
    ensures Below(ConsumeAll(chain, queue), n + 1) == Below(chain, n + 1)
  {
    if queue != [] {
      ConsumeAbove(chain, Front(queue), n);
      var mid := ConsumeAll(chain, Front(queue));
      match Last(queue)
      case BlockEvent(num, id) => BelowSnoc(mid, BlockRef(num, id), n + 1);
      case ForkEvent(num) => BelowTwice(mid, num, n + 1);
      case CompletedEvent(_) =>
    }
  }

  lemma {:induction false} ConsumeStaysAbove(chain: seq<BlockRef>, queue: seq<Event>, n: int)
    requires AllAbove(queue, n) && forall b :: b in chain ==> n < b.num
    ensures forall b :: b in ConsumeAll(chain, queue) ==> n < b.num
  {
    if queue != [] {
      ConsumeStaysAbove(chain, Front(queue), n);
      if Last(queue).ForkEvent? {
        BelowSubset(ConsumeAll(chain, Front(queue)), Last(queue).num);
      }
    }
  }

  // ---- runs of acknowledgements ----

  /** The queue holds BLOCK and BLOCK_COMPLETED of the blocks after `low` up to `high`, in order. */
  ghost predicate PlainBlocks(queue: seq<Event>, low: u32, high: u32)
    decreases high
  {
    if high <= low then queue == [] && low == high
    else
      && 2 <= |queue|
      && queue[|queue| - 2].BlockEvent? && queue[|queue| - 2].num == high
      && queue[|queue| - 1] == CompletedEvent(high)
      && PlainBlocks(queue[..|queue| - 2], low, high - 1)
  }

  lemma PlainOn(queue: seq<Event>, low: u32, high: u32, num: u32, id: BlockId)
    requires PlainBlocks(queue, low, high) && low <= high && num == high + 1
    ensures PlainBlocks(queue + [BlockEvent(num, id), CompletedEvent(num)], low, num)
  {
    var q := queue + [BlockEvent(num, id), CompletedEvent(num)];
    assert q[..|q| - 2] == queue;
  }

  lemma {:induction false} PlainHolds(queue: seq<Event>, low: u32, high: u32, num: u32)
    requires PlainBlocks(queue, low, high)
    ensures CompletedEvent(num) in queue <==> low < num <= high
    decreases high
  {
    if low < high {
      PlainHolds(queue[..|queue| - 2], low, high - 1, num);
      assert queue == queue[..|queue| - 2] + [queue[|queue| - 2], queue[|queue| - 1]];
    }
  }

  lemma AckLastPair(s: State, queue: seq<Event>)
    requires 2 <= |queue| && queue[|queue| - 2].BlockEvent? && queue[|queue| - 1].CompletedEvent?
    ensures AckQueue(s, queue) == AckBlock(AckQueue(s, queue[..|queue| - 2]), Dec32(queue[|queue| - 1].num))
  {
    assert Front(Front(queue)) == queue[..|queue| - 2];
  }

  /** Without a fork, completed blocks move the acknowledged block up to the one before the last. */
  lemma {:induction false} AckPlain(s: State, queue: seq<Event>, low: u32, high: u32)
    requires PlainBlocks(queue, low, high)
    requires s.forkedAt == 0 && s.acked <= low
    ensures AckQueue(s, queue) == if low < high then s.(acked := high - 1) else s
    decreases high
  {
    if low < high {
      AckLastPair(s, queue);
      AckPlain(s, queue[..|queue| - 2], low, high - 1);
    }
  }

  /** While a fork at `b` is pending, completed blocks up to `b - 1` are acknowledged, the orphaned
      block `b` is mistaken for the answer to the fork, and orphaned blocks after that are
      acknowledged like any others; if all of them are at or above `b + 1`, all are ignored. */
  lemma {:induction false} AckOrphans(s: State, queue: seq<Event>, low: u32, high: u32)
    requires PlainBlocks(queue, low, high)
    requires 1 <= s.forkedAt && s.acked <= low && s.acked <= s.forkedAt - 1
    ensures AckQueue(s, queue) ==
      if low == high || s.forkedAt <= low then s
      else if high < s.forkedAt then s.(acked := high - 1)
      else s.(forkedAt := 0, acked := high - 1)
    decreases high
  {
    if low < high {
      AckLastPair(s, queue);
      AckOrphans(s, queue[..|queue| - 2], low, high - 1);
    }
  }
}
