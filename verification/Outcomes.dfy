/** What a block and a restart make of a receiver in any run, told by the surviving blocks alone. */
module Outcomes {
  import opened Basics
  import opened Messages
  import opened Tables
  import opened Chainbase
  import opened AbiCache
  import opened ReceiverModel
  import opened ReceiverRuns
  import opened ReceivedBlocks

  // ---- a block ----

  /** A live block at or below the head. */
  ghost predicate Forks(w: World, m: Block) {
    m.lib < m.num <= w.r.head
  }

  /** The log after block `m`: the blocks below it, then the block itself. */
  ghost function LogWith(w: World, m: Block): seq<Block>
    requires w.origin < m.num <= w.origin + |w.log| + 1
  {
    w.log[..m.num - 1 - w.origin] + [m]
  }

  /** The acknowledged block: a fork takes it back to the block before the forked one. */
  ghost function AckedAfter(c: Config, w: World, m: Block): int {
    if c.willAck && Forks(w, m) then Min(w.r.acked, m.num - 1) else w.r.acked
  }

  /** The committed revision: the last irreversible block, or the acknowledged one if that is behind;
      never beyond the block itself, and never back. */
  ghost function CommittedAfter(c: Config, w: World, m: Block): int {
    var bound := if c.willAck then Min(m.lib, AckedAfter(c, w, m)) else m.lib;
    Max(Max(w.origin, Base(w.r.db)), Min(m.num, bound))
  }

  lemma AdmittedFields(c: Config, w: World, m: Block)
    requires Inv(w) && w.r.status == Running && Upstream(w, m)
    requires Admit(c, w.r, m).status == Running
    ensures var s := Admit(c, w.r, m);
      && s == w.r.(db := s.db, cache := s.cache, acked := s.acked, forkedAt := s.forkedAt)
      && s.acked == AckedAfter(c, w, m)
      && s.forkedAt == (if Forks(w, m) then m.num else w.r.forkedAt)
      && s.db.revision == m.num - 1
      && Base(s.db) == Max(w.origin, Base(w.r.db))
      && w.origin < m.num <= w.origin + |w.log| + 1
      && Survivors(w, m) == w.log[..m.num - 1 - w.origin]
  {
    if IsFork(w.r, m) {
      AdmitsFork(c, w, m);
    } else {
      AdmitsNext(c, w, m);
    }
    hide Replay, LibsAscend, Coherent;
  }

  lemma StoredFieldsOf(c: Config, s: State, m: Block)
    requires ReceiverModel.StoreBlock(c, s, m).status == Running
    ensures var s' := ReceiverModel.StoreBlock(c, s, m);
      && s' == s.(db := s'.db, cache := s'.cache)
      && s'.db.revision == s.db.revision + 1
      && Base(s'.db) == Max(Base(s.db), Min(s.db.revision + 1, if c.willAck then Min(s.lib, s.acked) else s.lib))
  {
    hide ApplyBlock, CacheRows;
  }

  /** The receiver after it took block `m`: it is the head, and nothing but the head, the fork state, the
      acknowledged block, the database and the cache has changed. */
  ghost predicate Took(c: Config, w: World, m: Block, s: State) {
    && s == State(s.db, w.r.start, m.num, m.id, m.lib, m.libId, if Forks(w, m) then m.num else w.r.forkedAt,
                  AckedAfter(c, w, m), w.r.slow, false, w.r.pauseMs, s.cache, Running)
    && s.db.revision == m.num && Base(s.db) == CommittedAfter(c, w, m)
  }

  lemma StoredTook(c: Config, w: World, s: State, m: Block, r: State)
    requires s == w.r.(reading := false, db := s.db, cache := s.cache, acked := s.acked, forkedAt := s.forkedAt)
    requires s.acked == AckedAfter(c, w, m) && s.forkedAt == (if Forks(w, m) then m.num else w.r.forkedAt)
    requires s.db.revision == m.num - 1 && Base(s.db) == Max(w.origin, Base(w.r.db)) && s.status == Running
    requires ReceiverModel.StoreBlock(c, TakeHead(s, m), m) == r && r.status == Running
    ensures Took(c, w, m, r)
  {
    StoredFieldsOf(c, TakeHead(s, m), m);
    hide ReceiverModel.StoreBlock, Forks, AckedAfter;
  }

  lemma TookBlock(c: Config, w: World, m: Block)
    requires Inv(w) && w.r.status == Running && Upstream(w, m) && !Stops(w, m)
    ensures Took(c, w, m, Receive(c, w.r, m)) && Stored(c, w.r, m)
    ensures w.origin < m.num <= w.origin + |w.log| + 1 && Survivors(w, m) == w.log[..m.num - 1 - w.origin]
  {
    InvariantStopsIff(c, w, m);
    var w0 := w.(r := w.r.(reading := false));
    DeliverOutcome(c, w, m);
    var s := Admit(c, w0.r, m);
    assert Survivors(w0, m) == Survivors(w, m);
    hide Inv, Admit, Receive, Stored, Upstream, ReceiverModel.StoreBlock, Stops, Survivors, Next, Took;
    AdmittedFields(c, w0, m);
    assert Forks(w0, m) == Forks(w, m) && AckedAfter(c, w0, m) == AckedAfter(c, w, m);
    hide Forks, AckedAfter;
    StoredTook(c, w, s, m, Receive(c, w.r, m));
  }

  /** A delivered block that does not stop the receiver becomes the newest block of the log and the head;
      what else changes depends on whether it forks. */
  lemma BlockOutcome(c: Config, start: u32, w: World, m: Block)
    requires Reachable(c, start, w) && Enabled(c, w, Deliver(Some(m))) && !Stops(w, m)
    ensures w.origin < m.num <= w.origin + |w.log| + 1
    ensures var w' := Next(c, w, Deliver(Some(m)));
      Took(c, w, m, w'.r) && w'.log == LogWith(w, m) && w'.r.db.tables == Replay(w'.log)
  {
    ReachableInv(c, start, w);
    DeliverKeepsInv(c, w, m);
    TookBlock(c, w, m);
    hide Inv, Receive, Stored, Upstream, Stops, Survivors, Took, Replay;
  }

  /** Whether a block becomes the head before anything else about it is looked at. */
  ghost predicate Admissible(w: World, m: Block) {
    !ForksAtOne(w, m) && !LinksElsewhere(w, m)
  }

  lemma StoredIff(c: Config, s: State, m: Block)
    requires var s1 := Admit(c, s.(reading := false), m); s1.status == Running ==> m.num !in s1.db.tables.received
    ensures Stored(c, s, m) <==>
      Admit(c, s.(reading := false), m).status == Running && (m.fault == Sound || m.fault == BadTraces)
  {
    hide Admit, ApplyBlock;
  }

  lemma StoredInRunIff(c: Config, w: World, m: Block)
    requires Inv(w) && w.r.status == Running && Upstream(w, m)
    ensures Stored(c, w.r, m) <==> Admissible(w, m) && (m.fault == Sound || m.fault == BadTraces)
  {
    var w0 := w.(r := w.r.(reading := false));
    AdmissionStopsIff(c, w0, m);
    AdmittedIsNew(c, w0, m);
    StoredIff(c, w.r, m);
    assert Admissible(w0, m) == Admissible(w, m);
    hide Inv, Admit, Stored, Admissible;
  }

  lemma DeliverLog(c: Config, w: World, m: Block)
    ensures var w' := Next(c, w, Deliver(Some(m)));
      w'.r == Receive(c, w.r, m) && w'.log == Survivors(w, m) + if Stored(c, w.r, m) then [m] else []
  {
    hide Receive, Survivors, Stored;
  }

  /** A block that stops the receiver is in the database only if just its traces could not be read; what
      it forked off is gone in any case. */
  lemma StoppedOutcome(c: Config, start: u32, w: World, m: Block)
    requires Reachable(c, start, w) && Enabled(c, w, Deliver(Some(m))) && Stops(w, m)
    ensures w.origin < m.num <= w.origin + |w.log| + 1
    ensures var w' := Next(c, w, Deliver(Some(m)));
      && w'.r.status == Stopped && w'.r.db.tables == Replay(w'.log)
      && w'.log == (if Admissible(w, m) && m.fault.BadTraces? then LogWith(w, m) else w.log[..m.num - 1 - w.origin])
  {
    ReachableInv(c, start, w);
    DeliverKeepsInv(c, w, m);
    InvariantStopsIff(c, w, m);
    DeliverLog(c, w, m);
    StoredInRunIff(c, w, m);
    SurvivorsUpTo(c, w, m);
    hide Inv, Receive, Upstream, Survivors, Replay, Stored, Next, ForksAtOne, LinksElsewhere, Reachable;
  }

  lemma SurvivorsUpTo(c: Config, w: World, m: Block)
    requires Inv(w) && w.r.status == Running && Upstream(w, m)
    ensures w.origin < m.num <= w.origin + |w.log| + 1
    ensures Survivors(w, m) == w.log[..m.num - 1 - w.origin]
  {
    if IsFork(w.r, m) {
      AdmitsFork(c, w, m);
    } else {
      AdmitsNext(c, w, m);
    }
  }

  /** What is published: FORK first if the block forks, then the block unless it cannot be read, and its
      completion unless it stops the receiver. */
  lemma BlockEvents(c: Config, start: u32, w: World, m: Block)
    requires Reachable(c, start, w) && Enabled(c, w, Deliver(Some(m)))
    ensures ReceiveEvents(c, w.r, m) ==
      if Admissible(w, m)
      then (if Forks(w, m) then [ForkEvent(m.num)] else [])
           + (if m.fault == BadBlock then [] else [BlockEvent(m.num, m.id)])
           + (if m.fault == Sound then [CompletedEvent(m.num)] else [])
      else []
  {
    ReachableInv(c, start, w);
    var w0 := w.(r := w.r.(reading := false));
    AdmissionStopsIff(c, w0, m);
    InvariantStopsIff(c, w, m);
    hide Admit, Process, Reachable, Upstream, Inv;
    var fork, block := AdmitEvents(c, w0.r, m), [BlockEvent(m.num, m.id)];
    assert fork + (block + [CompletedEvent(m.num)]) == fork + block + [CompletedEvent(m.num)];
    assert fork + (block + []) == fork + block + [];
    assert fork + [] == fork + [] + [];
  }

  // ---- a restart ----

  /** The blocks that were committed. */
  ghost function CommittedLog(w: World): seq<Block>
    requires |w.r.db.stack| <= |w.log|
  {
    w.log[..|w.log| - |w.r.db.stack|]
  }

  /** Start-up without a start-block option is refused only at the end block; with one, also if anything
      was committed. */
  ghost predicate Refused(w: World, start: u32)
    requires |w.r.db.stack| <= |w.log|
  {
    0 < start && CommittedLog(w) != []
  }

  /** A restarted receiver stands after its last committed block, acknowledged up to there and with
      nothing else left from before. */
  lemma RestartOutcome(c: Config, start: u32, w: World, option: u32)
    requires Reachable(c, start, w) && Enabled(c, w, Restart(option))
    ensures |w.r.db.stack| <= |w.log| && w.origin + |w.log| < 0xffff_ffff
    ensures var kept := CommittedLog(w); var w' := Next(c, w, Restart(option)); var s := w'.r;
      var head := w.origin + |kept|;
      && w'.log == kept && s.db.tables == Replay(kept) && s.db.stack == []
      && s == State(s.db, option, head, s.headId, s.lib, s.libId, s.forkedAt, s.acked, false, false, 0, FRESH,
                    if Refused(w, option) || c.endBlock <= head then Stopped else Running)
      && StateRow(s.head, s.headId, s.lib, s.libId) == (if kept == [] then StateRow(head, 0, 0, 0)
         else var m := Last(kept); StateRow(m.num, m.id, m.lib, m.libId))
      && (!Refused(w, option) ==>
          && s.acked == (if c.willAck then head else 0)
          && s.forkedAt == if kept == [] || kept != w.log then head + 1 else 0)
  {
    ReachableInv(c, start, w);
    CommittedTables(c, w, option);
    hide Inv, Replay, Reachable, Enabled;
  }

  /** What start-up finds in the database. */
  lemma CommittedTables(c: Config, w: World, option: u32)
    requires Inv(w) && Enabled(c, w, Restart(option))
    ensures |w.r.db.stack| <= |w.log| && w.origin + |w.log| < 0xffff_ffff
    ensures var kept := CommittedLog(w); var tables := UndoTo(w.r.db, Base(w.r.db)).tables;
      && UpTo(w, Base(w.r.db)) == kept && tables == Replay(kept)
      && (kept == [] ==> tables.state == None && InitialRow(option).head == w.origin)
      && (kept != [] ==>
          var m := Last(kept);
          m.num == w.origin + |kept| && tables.state == Some(StateRow(m.num, m.id, m.lib, m.libId)))
      && (w.r.db.stack == [] <==> kept == w.log)
  {
    RestartKeepsReplayed(w);
    assert UpTo(w, Base(w.r.db)) == CommittedLog(w);
    hide Replay;
  }

  /** It announces its head with FORK: once if nothing was committed, and once if something was not. */
  lemma RestartEventsOf(c: Config, start: u32, w: World, option: u32)
    requires Reachable(c, start, w) && Enabled(c, w, Restart(option))
    ensures |w.r.db.stack| <= |w.log| && w.origin + |w.log| < 0xffff_ffff
    ensures var kept := CommittedLog(w); var fork := ForkEvent(w.origin + |kept| + 1);
      LoadEvents(w.r.db, option) ==
        if Refused(w, option) then []
        else (if kept == [] then [fork] else []) + (if kept != w.log then [fork] else [])
  {
    ReachableInv(c, start, w);
    CommittedTables(c, w, option);
    hide Inv, Replay, Reachable, Enabled;
  }

  // ---- an acknowledgement ----

  /** An acknowledgement takes effect unless it passes the block a fork waits for; that block itself ends
      the wait; without a fork going back is fatal. */
  lemma AckOutcome(c: Config, w: World, num: u32)
    requires Enabled(c, w, Acknowledge(num))
    ensures var s, s' := w.r, Next(c, w, Acknowledge(num)).r;
      && s' == s.(acked := s'.acked, forkedAt := s'.forkedAt, status := s'.status)
      && (s'.status == Stopped <==> s.forkedAt == 0 && num < s.acked)
      && (s'.acked == num <==> num == s.acked || (if s.forkedAt == 0 then s.acked < num else num < s.forkedAt))
      && (s'.acked == num || s'.acked == s.acked)
      && (s'.forkedAt == s.forkedAt || s'.forkedAt == 0)
      && (s'.forkedAt == 0 <==> s.forkedAt == 0 || s.forkedAt == num + 1)
  {
  }
}
