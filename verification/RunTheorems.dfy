/** What holds in every run of the receiver, whatever forks, aborts, acknowledgements and restarts it
    contains. */
module RunTheorems {
  import opened Basics
  import opened Messages
  import opened Tables
  import opened Chainbase
  import opened AbiCache
  import opened ReceiverModel
  import opened ReceiverRuns

  /** Replay refinement.  Whatever forks, aborts and restarts a run contains, the four tables are
      those of a fresh receiver that only ever saw the surviving blocks, a running receiver's head
      is the last of them, and the undo loop never runs out of revisions. */
  lemma RunReplaysSurvivors(c: Config, start: u32, w: World)
    requires Reachable(c, start, w)
    ensures w.r.status != Diverged
    ensures w.r.db.tables == Replay(w.log)
    ensures forall i :: 0 <= i < |w.log| ==> w.log[i].num == w.origin + 1 + i
    ensures w.r.status == Running ==>
      && w.r.head == w.origin + |w.log|
      && (w.log != [] ==> w.r.db.tables.state == Some(StateRow(w.r.head, w.r.headId, w.r.lib, w.r.libId)))
  {
    ReachableInv(c, start, w);
  }

  /** ABI cache coherence.  In every running state of every run, through valid and invalid ABIs,
      removals, loading on demand, fork rollback and restart, an account marked as imported is
      decoded with exactly the ABI of the latest table. */
  lemma CacheNeverStale(c: Config, start: u32, w: World, account: Account)
    requires Reachable(c, start, w) && w.r.status == Running
    ensures var latest := w.r.db.tables.abis.latest;
      account in w.r.cache.imported ==>
        account in latest && account in w.r.cache.contracts && w.r.cache.contracts[account] == latest[account]
  {
    ReachableInv(c, start, w);
  }

  /** ... and a lookup of any account, imported or not, loads exactly that ABI too, because the insert-only
      context holds nothing else. */
  lemma LookupAnswersLatest(c: Config, start: u32, w: World, account: Account)
    requires Reachable(c, start, w) && w.r.status == Running
    ensures var latest := w.r.db.tables.abis.latest; var cache := LookupAbi(w.r, account).cache;
      && (account in cache.contracts <==> account in latest)
      && (account in latest ==> cache.contracts[account] == latest[account])
  {
    ReachableInv(c, start, w);
    ReplayOnlyWellFormed(w.log);
    LoadedAnswersLatest(w.r.cache, w.r.db.tables.abis.latest, account);
  }

  /** Undo alignment.  Once a block is stored, the revision is the head, there are as many saved
      revisions as blocks above the committed one, and undoing `k` of them gives the tables of a
      replay that stops `k` blocks earlier. */
  lemma UndoReachesEveryPrefix(c: Config, start: u32, w: World, k: nat)
    requires Reachable(c, start, w) && w.log != [] && k <= |w.r.db.stack|
    ensures w.r.status == Running ==>
      w.r.db.revision == w.r.head && |w.r.db.stack| == w.r.head - Base(w.r.db)
    ensures k <= |w.log|
      && UndoTimes(w.r.db, k).revision == w.r.db.revision - k
      && UndoTimes(w.r.db, k).tables == Replay(w.log[..|w.log| - k])
  {
    ReachableInv(c, start, w);
    UndoTimesIsUndoTo(w.r.db, k);
    UndoKeepsReplayed(w.r.db, w.log, w.origin, w.r.db.revision - k);
  }

  /** Durability.  The committed revision never goes back, not even across restarts, and never
      passes the highest irreversible block; a restart resumes right after it. */
  lemma CommittedOnlyGrows(c: Config, start: u32, w: World, w': World, restart: u32)
    requires Reachable(c, start, w) && Leads(c, w, w')
    ensures Base(w.r.db) <= Base(w'.r.db)
    ensures w'.log != [] ==> Base(w'.r.db) <= w'.maxLib
    ensures Enabled(c, w', Restart(restart)) && w'.log != [] ==>
      Next(c, w', Restart(restart)).r.head == Base(w'.r.db)
  {
    ReachableInv(c, start, w);
    LeadsKeepsInv(c, w, w');
    if Enabled(c, w', Restart(restart)) {
      RestartKeepsReplayed(w');
      RestartKeepsInv(c, w', restart);
    }
  }
}
