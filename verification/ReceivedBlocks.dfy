/** The received-blocks table, from which the receiver tells the node where it stands. */
module ReceivedBlocks {
  import opened Basics
  import opened Messages
  import opened Tables
  import opened ReceiverModel
  import opened ReceiverRuns

  /** The last live block of a log, as a position; -1 if there is none. */
  function LastLive(log: seq<Block>): (j: int)
    ensures -1 <= j < |log|
    ensures 0 <= j ==> Live(log[j])
    ensures forall i :: j < i < |log| ==> !Live(log[i])
  {
    if log == [] then -1
    else if Live(Last(log)) then |log| - 1
    else LastLive(Front(log))
  }

  /** A log without gaps, starting right after `origin`, whose irreversible blocks move forward. */
  ghost predicate Consecutive(log: seq<Block>, origin: int) {
    && (forall i :: 0 <= i < |log| ==> log[i].num == origin + 1 + i)
    && (forall i, j :: 0 <= i < j < |log| ==> log[i].lib <= log[j].lib)
  }

  /** Block `k` of the log is live and still in reach of the last live block. */
  ghost predicate Kept(log: seq<Block>, origin: int, k: int) {
    var j := LastLive(log);
    && 0 <= j
    && origin < k <= log[j].num && log[j].lib <= k
    && k - origin - 1 < |log| && Live(log[k - origin - 1])
  }

  /** A live block at or above the newest irreversible one has not been pushed out before. */
  lemma LiveIsKept(log: seq<Block>, origin: nat, k: int)
    requires Consecutive(log, origin) && log != [] && Live(Last(log)) && k < Last(log).num && Last(log).lib <= k
    ensures Kept(log, origin, k) ==> Kept(Front(log), origin, k)
  {
    if Kept(log, origin, k) {
      var i := k - origin - 1;
      assert Live(Front(log)[i]);
      var j := LastLive(Front(log));
      assert i <= j;
      assert Front(log)[j].lib <= Last(log).lib;
    }
  }

  lemma {:induction false} ReceivedAt(log: seq<Block>, origin: nat, k: u32)
    requires Consecutive(log, origin)
    ensures k in Replay(log).received <==> Kept(log, origin, k)
    ensures Kept(log, origin, k) ==> Replay(log).received[k] == log[k - origin - 1].id
  {
    if log != [] {
      var m := Last(log);
      ReceivedAt(Front(log), origin, k);
      if Live(m) {
        assert LastLive(log) == |log| - 1;
        if k < m.num && m.lib <= k {
          LiveIsKept(log, origin, k);
        }
      }
    }
  }

  /** Exactly the live blocks from the last irreversible one to the last live one are in the table,
      each under its own id. */
  lemma ReceivedExactly(log: seq<Block>, origin: nat)
    requires Consecutive(log, origin)
    ensures forall k: u32 :: k in Replay(log).received <==> Kept(log, origin, k)
    ensures forall k: u32 :: k in Replay(log).received ==>
      Kept(log, origin, k) && Replay(log).received[k] == log[k - origin - 1].id
  {
    forall k: u32
      ensures k in Replay(log).received <==> Kept(log, origin, k)
      ensures Kept(log, origin, k) ==> Replay(log).received[k] == log[k - origin - 1].id
    {
      ReceivedAt(log, origin, k);
    }
    hide Replay, LastLive;
  }

  /** No gaps: with two blocks the table has every block between them.  A block that was
      irreversible on arrival can only be missing at the very bottom. */
  lemma ReceivedIsContiguous(log: seq<Block>, origin: nat, a: u32, b: u32, k: u32)
    requires Consecutive(log, origin)
    requires a in Replay(log).received && b in Replay(log).received && a <= k <= b
    ensures k in Replay(log).received
  {
    hide Replay;
    ReceivedAt(log, origin, a);
    ReceivedAt(log, origin, b);
    ReceivedAt(log, origin, k);
    var j := LastLive(log);
    var i := k - origin - 1;
    if a < k && i < j {
      assert log[i].lib <= log[j].lib;
    }
  }

  /** Positions is the ascending list of exactly the table's entries in the range. */
  lemma {:induction false} PositionsListsRange(received: map<u32, BlockId>, low: int, high: int)
    decreases high - low
    ensures forall x :: x in Positions(received, low, high) <==>
      low <= x.0 <= high && x.0 in received && x.1 == received[x.0]
    ensures forall i, j :: 0 <= i < j < |Positions(received, low, high)| ==>
      Positions(received, low, high)[i].0 < Positions(received, low, high)[j].0
  {
    if low <= high {
      PositionsListsRange(received, low, high - 1);
      var q, p := Positions(received, low, high - 1), Positions(received, low, high);
      assert p == if high in received then q + [(high, received[high])] else q;
      assert forall i :: 0 <= i < |q| ==> q[i] in q;
    }
  }

  lemma {:induction false} PositionsOfFullRange(received: map<u32, BlockId>, low: int, high: int)
    decreases high - low
    requires forall k: u32 :: low <= k <= high ==> k in received
    requires 0 <= low && low <= high + 1 && high <= 0xffff_ffff
    ensures |Positions(received, low, high)| == high - low + 1
    ensures forall i :: 0 <= i < |Positions(received, low, high)| ==> Positions(received, low, high)[i].0 == low + i
  {
    if low <= high {
      PositionsOfFullRange(received, low, high - 1);
    }
  }

  lemma {:induction false} PositionsOfEmptyRange(received: map<u32, BlockId>, low: int, high: int)
    decreases high - low
    requires forall k: u32 :: low <= k <= high ==> k !in received
    ensures Positions(received, low, high) == []
  {
    if low <= high {
      PositionsOfEmptyRange(received, low, high - 1);
    }
  }

  lemma ReachableConsecutive(c: Config, start: u32, w: World)
    requires Reachable(c, start, w)
    ensures Consecutive(w.log, w.origin) && w.r.db.tables == Replay(w.log)
    ensures w.r.status == Running ==> w.r.head == w.origin + |w.log|
    ensures w.r.status == Running && w.log != [] ==> w.r.lib == Last(w.log).lib
  {
    ReachableInv(c, start, w);
  }

  /** The table of a replay is an unbroken run of the log's blocks, under their own ids; if the last
      block was live it lies between the last irreversible block and the last block. */
  lemma TableIsRun(log: seq<Block>, origin: nat)
    requires Consecutive(log, origin)
    ensures var t := Replay(log).received;
      && (forall k: u32 :: k in t ==> origin < k <= origin + |log| && t[k] == log[k - origin - 1].id)
      && (forall a: u32, b: u32, k: u32 :: a in t && b in t && a <= k <= b ==> k in t)
      && (log != [] && Live(Last(log)) ==>
          Last(log).num in t && forall k: u32 :: k in t ==> Last(log).lib <= k <= Last(log).num)
  {
    ReceivedExactly(log, origin);
    var t := Replay(log).received;
    forall a: u32, b: u32, k: u32 | a in t && b in t && a <= k <= b
      ensures k in t
    {
      ReceivedIsContiguous(log, origin, a, b, k);
    }
    if log != [] && Live(Last(log)) {
      assert Kept(log, origin, Last(log).num);
    }
  }

  /** In every reachable state the table is an unbroken run of surviving block ids; right after a
      live block it lies within [last irreversible, head] and contains the head. */
  lemma TableIsSurvivingRun(c: Config, start: u32, w: World)
    requires Reachable(c, start, w)
    ensures var t := w.r.db.tables.received;
      && (forall k: u32 :: k in t ==> w.origin < k <= w.origin + |w.log| && t[k] == w.log[k - w.origin - 1].id)
      && (forall a: u32, b: u32, k: u32 :: a in t && b in t && a <= k <= b ==> k in t)
      && (w.r.status == Running && w.log != [] && Live(Last(w.log)) ==>
          w.r.head in t && forall k: u32 :: k in t ==> w.r.lib <= k <= w.r.head)
  {
    ReachableConsecutive(c, start, w);
    TableIsRun(w.log, w.origin);
  }

  /** Above the last irreversible block the table has every block of the log. */
  lemma ReversibleAreIn(log: seq<Block>, origin: nat, k: u32)
    requires Consecutive(log, origin) && log != [] && Live(Last(log))
    requires origin < k && Last(log).lib < k <= Last(log).num
    ensures k in Replay(log).received
  {
    ReceivedExactly(log, origin);
    assert log[k - origin - 1].lib <= Last(log).lib;
    assert Kept(log, origin, k);
  }

  lemma PositionsOfReplay(log: seq<Block>, origin: nat)
    requires Consecutive(log, origin) && log != []
    ensures var p := Positions(Replay(log).received, Last(log).lib, Last(log).num);
      && (p == [] <==> !Live(Last(log)))
      && (forall i :: 0 <= i < |p| ==> p[i].0 == Last(log).num - (|p| - 1 - i))
  {
    hide Replay, Positions, LastLive;
    var t, lib, head := Replay(log).received, Last(log).lib, Last(log).num;
    TableIsRun(log, origin);
    if Live(Last(log)) {
      var low := Max(lib + 1, origin + 1);
      forall k: u32 | low <= k <= head
        ensures k in t
      {
        ReversibleAreIn(log, origin, k);
      }
      if lib in t {
        PositionsOfFullRange(t, lib, head);
      } else {
        PositionsOfEmptyRange(t, lib, low - 1);
        PositionsOfFullRange(t, low, head);
        PositionsSkip(t, lib, low, head);
      }
    } else {
      ReceivedExactly(log, origin);
      PositionsOfEmptyRange(t, lib, head);
    }
  }

  /** What is sent upstream is empty or a gapless ascending run that ends at the head; it is empty
      exactly when the last block was irreversible on arrival. */
  lemma PositionsEndAtHead(c: Config, start: u32, w: World)
    requires Reachable(c, start, w) && w.r.status == Running && w.log != []
    ensures var p := Positions(w.r.db.tables.received, w.r.lib, w.r.head);
      && (p == [] <==> !Live(Last(w.log)))
      && (forall i :: 0 <= i < |p| ==> p[i].0 == w.r.head - (|p| - 1 - i))
  {
    ReachableConsecutive(c, start, w);
    PositionsOfReplay(w.log, w.origin);
  }

  lemma {:induction false} PositionsSkip(received: map<u32, BlockId>, low: int, mid: int, high: int)
    decreases high - mid
    requires low <= mid <= high + 1 && Positions(received, low, mid - 1) == []
    ensures Positions(received, low, high) == Positions(received, mid, high)
  {
    if mid <= high {
      PositionsSkip(received, low, mid, high - 1);
    }
  }

  // ---- no duplicate keys ----

  /** In a log without gaps the number after the last block is not in the table. */
  lemma NextIsNew(log: seq<Block>, origin: nat)
    requires Consecutive(log, origin)
    ensures forall k: u32 :: origin + |log| < k ==> k !in Replay(log).received
  {
    TableIsRun(log, origin);
  }

  /** A block that passes admission does not meet its own number in the table: on a fork the old
      entry has gone with the rollback. */
  lemma AdmittedIsNew(c: Config, w: World, m: Block)
    requires Inv(w) && w.r.status == Running && Upstream(w, m)
    ensures var s := Admit(c, w.r, m);
      s.status == Running ==> m.num !in s.db.tables.received
  {
    hide Admit;
    AdmitKeepsReplayed(c, w, m);
    SurvivorsAscend(w, m);
    NextIsNew(Survivors(w, m), w.origin);
  }

  /** A block that forks off at block 1, below which no revision is ever accepted. */
  ghost predicate ForksAtOne(w: World, m: Block) {
    m.lib < m.num && m.num <= w.r.head && m.num == 1
  }

  /** A live block right after the head that does not name the newest block as the one before it.  With a
      start-block option the receiver does not look as long as its head is not above that block. */
  ghost predicate LinksElsewhere(w: World, m: Block) {
    && m.lib < m.num && m.num == w.r.head + 1
    && w.log != [] && w.r.start < w.r.head
    && m.prev != Some(Last(w.log).id)
  }

  /** The only ways a block stops the receiver in a run: a fork at block 1; a live block that does not
      link to the newest one; a block, rows or traces that cannot be decoded. */
  ghost predicate Stops(w: World, m: Block) {
    ForksAtOne(w, m) || LinksElsewhere(w, m) || m.fault != Sound
  }

  lemma AdmissionStopsIff(c: Config, w: World, m: Block)
    requires Inv(w) && w.r.status == Running && Upstream(w, m)
    ensures Admit(c, w.r, m).status == if ForksAtOne(w, m) || LinksElsewhere(w, m) then Stopped else Running
  {
    if IsFork(w.r, m) {
      AdmitsFork(c, w, m);
    }
    hide Replay, LibsAscend;
  }

  lemma AdmittedStopsIff(c: Config, s: State, m: Block)
    requires var s1 := Admit(c, s.(reading := false), m);
      s1.status == Running ==> m.num !in s1.db.tables.received
    ensures var s1 := Admit(c, s.(reading := false), m);
      Receive(c, s, m).status == if s1.status == Running && m.fault != Sound then Stopped else s1.status
  {
    hide Admit, ApplyBlock;
  }

  lemma InvariantStopsIff(c: Config, w: World, m: Block)
    requires Inv(w) && w.r.status == Running && Upstream(w, m)
    ensures Receive(c, w.r, m).status == if Stops(w, m) then Stopped else Running
  {
    var w0 := w.(r := w.r.(reading := false));
    AdmittedIsNew(c, w0, m);
    AdmissionStopsIff(c, w0, m);
    AdmittedStopsIff(c, w.r, m);
    hide Admit, Inv, Receive;
  }

  /** In every run the table never gets a duplicate key. */
  lemma NeverDuplicate(c: Config, start: u32, w: World, m: Block)
    requires Reachable(c, start, w) && w.r.status == Running && Upstream(w, m)
    ensures var s := Admit(c, w.r.(reading := false), m);
      s.status == Running ==> m.num !in s.db.tables.received
  {
    hide Admit;
    ReachableInv(c, start, w);
    AdmittedIsNew(c, w.(r := w.r.(reading := false)), m);
  }

  /** In every run the other checks of receive_result never fire: the irreversible block, set_revision
      on a store with saved revisions, the duplicate key; and the undo loop always ends. */
  lemma StopsIff(c: Config, start: u32, w: World, m: Block)
    requires Reachable(c, start, w) && w.r.status == Running && Upstream(w, m)
    ensures Receive(c, w.r, m).status == if Stops(w, m) then Stopped else Running
  {
    ReachableInv(c, start, w);
    InvariantStopsIff(c, w, m);
  }

  // ---- the surviving chain is linked ----

  /** Among the first `n` steps, block `m` arrived at or below the head: as a fork, not as its
      successor. */
  ghost predicate CameAsFork(ws: seq<World>, steps: seq<Step>, n: nat, m: Block)
    requires n <= |steps| < |ws|
  {
    exists i :: 0 <= i < n && steps[i] == Deliver(Some(m)) && m.num <= ws[i].r.head
  }

  /** Block `i` of the log names the one before it, or came as a fork. */
  ghost predicate LinkedAt(ws: seq<World>, steps: seq<Step>, n: nat, log: seq<Block>, i: int)
    requires n <= |steps| < |ws| && 1 <= i < |log|
  {
    log[i].prev == Some(log[i - 1].id) || CameAsFork(ws, steps, n, log[i])
  }

  /** A stored block that is live and no fork names the newest block of the log. */
  lemma StoredLinks(c: Config, w: World, m: Block)
    requires Inv(w) && w.r.status == Running && Upstream(w, m) && Stored(c, w.r, m)
    requires m.lib < m.num && w.r.head < m.num && 2 <= |w.log|
    ensures m.prev == Some(Last(w.log).id) && Survivors(w, m) == w.log
  {
    var w0 := w.(r := w.r.(reading := false));
    AdmissionStopsIff(c, w0, m);
    hide Admit, Replayed, LibsAscend, ReceiverModel.StoreBlock, TakeHead;
  }

  /** The new log is the old one up to some point, with the new block behind it if it was stored. */
  lemma NextLog(c: Config, w: World, step: Step, i: int)
    requires Inv(w) && Enabled(c, w, step)
    requires var log := Next(c, w, step).log; 2 <= i < |log| && log[i].lib < log[i].num
    ensures var log := Next(c, w, step).log;
      || (i < |w.log| && log[i] == w.log[i] && log[i - 1] == w.log[i - 1])
      || (step == Deliver(Some(log[i])) &&
          (log[i].num <= w.r.head || log[i].prev == Some(log[i - 1].id)))
  {
    hide Receive, Load, Poll, Replayed, LibsAscend, Stored, Upstream;
    if step.Deliver? && step.message.Some? {
      var m := step.message.value;
      var log := Survivors(w, m);
      if i >= |log| && w.r.head < m.num {
        StoredLinks(c, w, m);
      }
    }
  }

  lemma RunFromStartInv(c: Config, start: u32, ws: seq<World>, steps: seq<Step>, n: nat)
    requires Run(c, ws, steps) && ws[0] == FirstStart(c, start) && n <= |steps|
    ensures Inv(ws[n])
  {
    assert Inv(FirstStart(c, start));
    RunKeepsInv(c, ws, steps, n);
  }

  /** Every surviving chain is linked.  In every run, with forks, stops and restarts anywhere, a live
      block of the log above its second one names the block before it as its predecessor, unless it
      came as a fork, for which the receiver does not look. */
  lemma {:induction false} SurvivorsAreLinked(
    c: Config, start: u32, ws: seq<World>, steps: seq<Step>, n: nat, i: int)
    requires Run(c, ws, steps) && ws[0] == FirstStart(c, start) && n <= |steps|
    requires 2 <= i < |ws[n].log| && ws[n].log[i].lib < ws[n].log[i].num
    ensures LinkedAt(ws, steps, n, ws[n].log, i)
    decreases n
  {
    if n > 0 {
      var w, step := ws[n - 1], steps[n - 1];
      assert Moves(c, w, step, ws[n - 1 + 1]);
      hide Inv, Enabled, Next;
      RunFromStartInv(c, start, ws, steps, n - 1);
      NextLog(c, w, step, i);
      var log := ws[n].log;
      if i < |w.log| && log[i] == w.log[i] && log[i - 1] == w.log[i - 1] {
        SurvivorsAreLinked(c, start, ws, steps, n - 1, i);
      }
    }
  }
}
