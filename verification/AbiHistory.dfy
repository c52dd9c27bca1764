/** The ABI history against the latest-ABI table, and the lookup interactive mode does in it. */
module AbiHistory {
  import opened Basics
  import opened Messages
  import opened Tables
  import opened AbiCache
  import ReceiverModel
  import opened ReceiverRuns
  import opened ReceivedBlocks

  // ---- one account on its own ----

  /** What one account's own rows make of it, in order: the ABI in force and the ABI last recorded. */
  datatype AccountView = AccountView(latest: Option<Abi>, last: Option<Abi>)

  function ViewRow(v: AccountView, a: Account, row: Row): AccountView {
    if !row.AccountRow? || !row.present || row.account != a then v
    else if row.abi.NoAbi? then (if v.latest.Some? then AccountView(None, Some(NoAbi)) else v)
    else AccountView(if row.abi.WellFormed? then Some(row.abi) else v.latest, Some(row.abi))
  }

  function ViewRows(v: AccountView, a: Account, rows: seq<Row>): AccountView {
    if rows == [] then v else ViewRow(ViewRows(v, a, Front(rows)), a, Last(rows))
  }

  function View(log: seq<Block>, a: Account): AccountView {
    if log == [] then AccountView(None, None) else ViewRows(View(Front(log), a), a, Last(log).rows)
  }

  function Get<K, V>(m: map<K, V>, k: K): Option<V> {
    if k in m then Some(m[k]) else None
  }

  /** Looking through an account's history from block `h` downwards. */
  function LinearSearch(history: map<HistKey, Abi>, a: Account, h: int): Option<Abi>
    decreases h + 1
  {
    if h < 0 then None
    else if h <= 0xffff_ffff && HistKey(a, h) in history then Some(history[HistKey(a, h)])
    else LinearSearch(history, a, h - 1)
  }

  lemma {:induction false} SearchFrame(h1: map<HistKey, Abi>, h2: map<HistKey, Abi>, a: Account, h: int)
    requires forall b: u32 :: b <= h ==> Get(h1, HistKey(a, b)) == Get(h2, HistKey(a, b))
    ensures LinearSearch(h1, a, h) == LinearSearch(h2, a, h)
    decreases h + 1
  {
    if 0 <= h {
      if h <= 0xffff_ffff {
        assert Get(h1, HistKey(a, h)) == Get(h2, HistKey(a, h));
      }
      SearchFrame(h1, h2, a, h - 1);
    }
  }

  lemma {:induction false} SearchSkips(history: map<HistKey, Abi>, a: Account, low: int, high: int)
    requires low <= high && forall b: u32 :: low < b <= high ==> HistKey(a, b) !in history
    ensures LinearSearch(history, a, high) == LinearSearch(history, a, low)
    decreases high - low
  {
    if low < high {
      if 0 <= high <= 0xffff_ffff {
        assert HistKey(a, high) !in history;
      }
      SearchSkips(history, a, low, high - 1);
    }
  }

  /** The tables seen from one account while block `at` is being processed. */
  ghost predicate Shows(t: AbiTables, a: Account, at: u32, v: AccountView) {
    && Get(t.latest, a) == v.latest
    && LinearSearch(t.history, a, at) == v.last
  }

  lemma RowShows(t: AbiTables, a: Account, at: u32, v: AccountView, row: Row)
    requires Shows(t, a, at, v)
    ensures Shows(ApplyRow(t, at, row), a, at, ViewRow(v, a, row))
  {
    var t' := ApplyRow(t, at, row);
    if !row.AccountRow? || row.account != a {
      assert forall b: u32 :: Get(t'.history, HistKey(a, b)) == Get(t.history, HistKey(a, b));
      SearchFrame(t'.history, t.history, a, at);
    }
  }

  lemma {:induction false} RowsShow(t: AbiTables, a: Account, at: u32, v: AccountView, rows: seq<Row>)
    requires Shows(t, a, at, v)
    ensures Shows(ApplyRows(t, at, rows), a, at, ViewRows(v, a, rows))
  {
    if rows != [] {
      RowsShow(t, a, at, v, Front(rows));
      RowShows(ApplyRows(t, at, Front(rows)), a, at, ViewRows(v, a, Front(rows)), Last(rows));
    }
  }

  /** A block writes history entries of its own number only. */
  lemma {:induction false} RowsWriteHere(t: AbiTables, at: u32, rows: seq<Row>, k: HistKey)
    requires k.block != at
    ensures Get(ApplyRows(t, at, rows).history, k) == Get(t.history, k)
  {
    if rows != [] {
      RowsWriteHere(t, at, Front(rows), k);
    }
  }

  lemma {:induction false} HistoryWithinLog(log: seq<Block>, origin: nat, k: HistKey)
    requires Consecutive(log, origin) && k in Replay(log).abis.history
    ensures origin < k.block <= origin + |log|
  {
    if k.block != Last(log).num {
      RowsWriteHere(Replay(Front(log)).abis, Last(log).num, Last(log).rows, k);
      HistoryWithinLog(Front(log), origin, k);
    }
  }

  /** The latest ABI of an account, and what a search of the history finds at the last block, depend
      on that account's own rows alone, as if they were folded in order. */
  lemma {:induction false} ReplayShows(log: seq<Block>, origin: nat, a: Account)
    requires Consecutive(log, origin) && origin + |log| <= 0xffff_ffff
    ensures Shows(Replay(log).abis, a, origin + |log|, View(log, a))
  {
    if log == [] {
      SearchSkips(map[], a, -1, origin);
    } else {
      var before, m := Replay(Front(log)).abis, Last(log);
      ReplayShows(Front(log), origin, a);
      if HistKey(a, m.num) in before.history {
        HistoryWithinLog(Front(log), origin, HistKey(a, m.num));
      }
      SearchSkips(before.history, a, m.num - 1, m.num);
      RowsShow(before, a, m.num, View(Front(log), a), m.rows);
    }
  }

  /** Looking back.  In the history of a whole log, the newest entry at or below block `h` is the
      ABI that was recorded last when the scan had just processed block `h`. */
  lemma {:induction false} SearchLooksBack(log: seq<Block>, origin: nat, a: Account, h: u32)
    requires Consecutive(log, origin) && origin + |log| <= 0xffff_ffff && origin <= h <= origin + |log|
    ensures LinearSearch(Replay(log).abis.history, a, h) == View(log[..h - origin], a).last
  {
    if h == origin + |log| {
      assert log[..h - origin] == log;
      ReplayShows(log, origin, a);
    } else {
      var before := Replay(Front(log)).abis;
      SearchLooksBack(Front(log), origin, a, h);
      assert Front(log)[..h - origin] == log[..h - origin];
      forall b: u32 | b <= h
        ensures Get(Replay(log).abis.history, HistKey(a, b)) == Get(before.history, HistKey(a, b))
      {
        RowsWriteHere(before, Last(log).num, Last(log).rows, HistKey(a, b));
      }
      SearchFrame(Replay(log).abis.history, before.history, a, h);
    }
  }

  // ---- history and latest table agree ----

  ghost predicate ViewAgrees(v: AccountView) {
    && (v.latest.Some? ==> v.last.Some? && v.latest.value.WellFormed?)
    && (v.last.Some? && v.last.value.WellFormed? ==> v.latest == v.last)
    && (v.last == Some(NoAbi) ==> v.latest == None)
  }

  lemma {:induction false} RowsAgree(v: AccountView, a: Account, rows: seq<Row>)
    requires ViewAgrees(v)
    ensures ViewAgrees(ViewRows(v, a, rows))
  {
    if rows != [] {
      RowsAgree(v, a, Front(rows));
    }
  }

  lemma {:induction false} LogAgrees(log: seq<Block>, a: Account)
    ensures ViewAgrees(View(log, a))
  {
    if log != [] {
      LogAgrees(Front(log), a);
      RowsAgree(View(Front(log), a), a, Last(log).rows);
    }
  }

  /** In every reachable database: if an account's newest history entry is a well-formed ABI it is
      the latest ABI, if it is empty there is no latest ABI, and without an entry there is none
      either; every latest ABI is well-formed and has a history. */
  lemma HistoryAgreesWithLatest(c: ReceiverModel.Config, start: u32, w: World, a: Account)
    requires Reachable(c, start, w)
    ensures var t := w.r.db.tables.abis;
      var newest := LinearSearch(t.history, a, w.origin + |w.log|);
      && (newest.Some? && newest.value.WellFormed? ==> Get(t.latest, a) == newest)
      && (newest == Some(NoAbi) || newest == None ==> a !in t.latest)
      && (a in t.latest ==> t.latest[a].WellFormed?)
  {
    ReachableConsecutive(c, start, w);
    ReachableInv(c, start, w);
    ReplayShows(w.log, w.origin, a);
    LogAgrees(w.log, a);
  }

  /** What the newest history entry says about the ABI in force, an empty one meaning none. */
  function InForce(newest: Option<Abi>): Option<Abi> {
    if newest == Some(NoAbi) then None else newest
  }

  /** Exactly: in every reachable database, an account's newest history entry tells the ABI in force
      if and only if that entry is not a malformed ABI. */
  lemma HistoryTellsLatestIff(c: ReceiverModel.Config, start: u32, w: World, a: Account)
    requires Reachable(c, start, w)
    ensures var t := w.r.db.tables.abis;
      var newest := LinearSearch(t.history, a, w.origin + |w.log|);
      Get(t.latest, a) == InForce(newest) <==> !(newest.Some? && newest.value.Malformed?)
  {
    HistoryAgreesWithLatest(c, start, w, a);
  }

  /** A malformed entry says nothing at all: in one block a well-formed ABI followed by a malformed one
      leaves the first in force and without a trace in the history. */
  lemma MalformedHidesLatest()
    ensures var r1, r2 := AccountRow(true, 7, WellFormed(1)), AccountRow(true, 7, Malformed(2));
      var t := Replay([Block(1, 0, None, 1, 0, [r1, r2], Sound)]).abis;
      && t.latest == map[7 := WellFormed(1)]
      && t.history == map[HistKey(7, 1) := Malformed(2)]
  {
    var r1, r2 := AccountRow(true, 7, WellFormed(1)), AccountRow(true, 7, Malformed(2));
    var m := Block(1, 0, None, 1, 0, [r1, r2], Sound);
    assert Front([m]) == [] && Last([m]) == m;
    assert Front([r1, r2]) == [r1] && Front([r1]) == [];
    assert ApplyRows(EMPTY.abis, 1, [r1]) == AbiTables(map[7 := WellFormed(1)], map[HistKey(7, 1) := WellFormed(1)]);
  }

  // ---- decoding ----

  lemma {:induction false} CacheAnswers(c: Cache, t: AbiTables, at: u32, rows: seq<Row>, i: nat)
    requires Coherent(c, t.latest) && OnlyWellFormed(t.latest) && i < |rows| && rows[i].ContractRow?
    ensures var d := CacheRows(c, t, at, rows[..i + 1]);
      Get(d.contracts, rows[i].code) == Get(ApplyRows(t, at, rows[..i]).latest, rows[i].code)
  {
    RowsKeepCoherence(c, t, at, rows[..i]);
    assert Front(rows[..i + 1]) == rows[..i];
    LoadedAnswersLatest(CacheRows(c, t, at, rows[..i]), ApplyRows(t, at, rows[..i]).latest, rows[i].code);
  }

  /** Every contract row is decoded with the ABI in force.  In every run, whatever forks and restarts came
      before, when the receiver gets to a contract row of a block, its context has for the row's contract
      exactly the ABI that the contract's own rows have left in force, up to this very row. */
  lemma RowsAreDecoded(c: ReceiverModel.Config, start: u32, w: World, m: Block, i: nat)
    requires Reachable(c, start, w) && w.r.status == ReceiverModel.Running && Upstream(w, m)
    requires i < |m.rows| && m.rows[i].ContractRow?
    ensures var s := ReceiverModel.Admit(c, w.r.(reading := false), m);
      var code := m.rows[i].code;
      s.status == ReceiverModel.Running ==>
        Get(CacheRows(s.cache, s.db.tables.abis, m.num, m.rows[..i + 1]).contracts, code)
        == ViewRows(View(Survivors(w, m), code), code, m.rows[..i]).latest
  {
    ReachableInv(c, start, w);
    var w0 := w.(r := w.r.(reading := false));
    var s, code, log := ReceiverModel.Admit(c, w0.r, m), m.rows[i].code, Survivors(w, m);
    AdmitKeepsReplayed(c, w0, m);
    AdmitsInOrder(c, w, m);
    ReplayOnlyWellFormed(log);
    hide ReceiverModel.Admit, Inv, Upstream, Survivors, Reachable;
    if s.status == ReceiverModel.Running {
      CacheAnswers(s.cache, s.db.tables.abis, m.num, m.rows, i);
      ReplayShows(log, w.origin, code);
      NothingAbove(log, w.origin, code, m.num);
      RowsShow(Replay(log).abis, code, m.num, View(log, code), m.rows[..i]);
    }
  }

  lemma AdmitsInOrder(c: ReceiverModel.Config, w: World, m: Block)
    requires Inv(w) && w.r.status == ReceiverModel.Running && Upstream(w, m)
    ensures Consecutive(Survivors(w, m), w.origin) && w.origin + |Survivors(w, m)| < 0xffff_ffff
    ensures m.num == w.origin + |Survivors(w, m)| + 1
    ensures Survivors(w.(r := w.r.(reading := false)), m) == Survivors(w, m)
  {
    if ReceiverModel.IsFork(w.r, m) {
      AdmitsFork(c, w, m);
    } else {
      AdmitsNext(c, w, m);
    }
  }

  /** The block after a log has no history entry yet. */
  lemma NothingAbove(log: seq<Block>, origin: nat, a: Account, at: u32)
    requires Consecutive(log, origin) && at == origin + |log| + 1
    requires Shows(Replay(log).abis, a, origin + |log|, View(log, a))
    ensures Shows(Replay(log).abis, a, at, View(log, a))
  {
    if HistKey(a, at) in Replay(log).abis.history {
      HistoryWithinLog(log, origin, HistKey(a, at));
    }
    SearchSkips(Replay(log).abis.history, a, at - 1, at);
  }

  // ---- interactive lookup ----

  /** The order of the index used by the lookup: accounts ascending, blocks descending. */
  predicate Before(k1: HistKey, k2: HistKey) {
    k1.account < k2.account || (k1.account == k2.account && k1.block > k2.block)
  }

  /** What lower_bound returns for a probe: the first key that is not before it. */
  ghost predicate IsLowerBound(history: map<HistKey, Abi>, probe: HistKey, found: Option<HistKey>) {
    match found
    case None => forall k :: k in history ==> Before(k, probe)
    case Some(f) =>
      && f in history && !Before(f, probe)
      && forall k :: k in history ==> k == f || Before(k, probe) || Before(f, k)
  }

  method LowerBound(history: map<HistKey, Abi>, probe: HistKey) returns (found: Option<HistKey>)
    ensures IsLowerBound(history, probe, found)
  {
    found := None;
    var rest := history.Keys;
    while rest != {}
      invariant rest <= history.Keys
      invariant found.Some? ==> found.value in history && !Before(found.value, probe)
      invariant forall k :: k in history && k !in rest ==>
        Before(k, probe) || (found.Some? && (k == found.value || Before(found.value, k)))
      decreases |rest|
    {
      var k :| k in rest;
      if !Before(k, probe) && (found.None? || Before(k, found.value)) {
        found := Some(k);
      }
      rest := rest - {k};
    }
  }

  /** What a lookup does to the context: nothing for an account that is marked as imported or not
      found; otherwise the found row's ABI is offered to the context and that one account is marked. */
  ghost predicate LooksUp(
    c: Cache, history: map<HistKey, Abi>, account: Account, head: u32, ready: bool, c': Cache, entry: Option<HistKey>)
  {
    if account in c.imported then ready && c' == c
    else
      && IsLowerBound(history, HistKey(account, head), entry)
      && ready == entry.Some?
      && (entry.None? ==> c' == c)
      && (entry.Some? ==>
          c' == Cache(SetAbiBin(c.contracts, account, history[entry.value]), c.imported + {account}))
  }

  /** The interactive branch of get_contract_abi_ready.  `entry` is the history row it used, if it
      had to look at all. */
  method GetReadyInteractive(c: Cache, history: map<HistKey, Abi>, account: Account, head: u32)
    returns (ready: bool, c': Cache, entry: Option<HistKey>)
    ensures LooksUp(c, history, account, head, ready, c', entry)
  {
    if account in c.imported {
      return true, c, None;
    }
    entry := LowerBound(history, HistKey(account, head));
    if entry.Some? {
      return true, Cache(SetAbiBin(c.contracts, account, history[entry.value]), c.imported + {account}), entry;
    }
    return false, c, entry;
  }

  /** One lookup: an account answered ready is in the context, and the context holds exactly the
      accounts marked as imported, unless the row it used holds no usable ABI. */
  lemma LookupIsUsableIff(
    c: Cache, history: map<HistKey, Abi>, account: Account, head: u32, ready: bool, c': Cache, entry: Option<HistKey>)
    requires LooksUp(c, history, account, head, ready, c', entry) && c.contracts.Keys == c.imported
    ensures c'.imported == c.imported + (if ready then {account} else {})
    ensures (ready ==> account in c'.contracts) && c'.contracts.Keys == c'.imported <==>
      account in c.imported || entry.None? || history[entry.value].WellFormed?
    ensures forall a :: a in c.contracts ==> a in c'.contracts && c'.contracts[a] == c.contracts[a]
  {
  }

  datatype Lookup = Lookup(account: Account, head: u32, ready: bool, entry: Option<HistKey>)

  /** A sequence of lookups; `cs` are the contexts before, between and after them. */
  ghost predicate Lookups(history: map<HistKey, Abi>, cs: seq<Cache>, ls: seq<Lookup>) {
    && |cs| == |ls| + 1
    && forall i :: 0 <= i < |ls| ==>
      LooksUp(cs[i], history, ls[i].account, ls[i].head, ls[i].ready, cs[i + 1], ls[i].entry)
  }

  /** Over any sequence of interactive lookups in a history of well-formed ABIs the context holds
      exactly the accounts marked as imported, it never forgets one, and whatever was answered ready
      is in it. */
  lemma {:induction false} LookupsKeepContext(history: map<HistKey, Abi>, cs: seq<Cache>, ls: seq<Lookup>, n: nat)
    requires Lookups(history, cs, ls) && n <= |ls| && cs[0].contracts.Keys == cs[0].imported
    requires forall k :: k in history ==> history[k].WellFormed?
    ensures cs[n].contracts.Keys == cs[n].imported
    ensures forall i :: 0 <= i < n && ls[i].ready ==> ls[i].account in cs[n].contracts
    ensures forall a :: a in cs[n].contracts ==>
      a in cs[0].contracts || exists i :: 0 <= i < n && ls[i].ready && ls[i].account == a
  {
    if n > 0 {
      LookupsKeepContext(history, cs, ls, n - 1);
      var l := ls[n - 1];
      assert LooksUp(cs[n - 1], history, l.account, l.head, l.ready, cs[n - 1 + 1], l.entry);
      hide LooksUp, IsLowerBound;
      LookupIsUsableIff(cs[n - 1], history, l.account, l.head, l.ready, cs[n], l.entry);
    }
  }

  ghost predicate HasEntry(history: map<HistKey, Abi>, account: Account, head: u32) {
    exists b: u32 :: b <= head && HistKey(account, b) in history
  }

  /** If the account has an entry at or below the block, the lookup finds its newest one, the one a
      linear search finds. */
  lemma LowerBoundIsSearch(history: map<HistKey, Abi>, account: Account, head: u32, found: Option<HistKey>)
    requires IsLowerBound(history, HistKey(account, head), found) && HasEntry(history, account, head)
    ensures found.Some? && found.value.account == account && found.value.block <= head
    ensures LinearSearch(history, account, head) == Some(history[found.value])
  {
    var b: u32 :| b <= head && HistKey(account, b) in history;
    assert !Before(HistKey(account, b), HistKey(account, head));
    var f := found.value;
    forall k: u32 | f.block < k <= head
      ensures HistKey(account, k) !in history
    {
      assert Before(HistKey(account, k), f) && !Before(f, HistKey(account, k));
    }
    SearchSkips(history, account, f.block, head);
  }

  /** The returned account is not compared with the requested one, so the lookup answers for the
      requested account (or not at all) if and only if that account has an entry at or below the
      block or no greater account has any entry. */
  lemma LookupOwnAccountIff(history: map<HistKey, Abi>, account: Account, head: u32, found: Option<HistKey>)
    requires IsLowerBound(history, HistKey(account, head), found)
    ensures (found.Some? ==> found.value.account == account) <==>
      HasEntry(history, account, head) || forall k :: k in history ==> k.account <= account
  {
    if HasEntry(history, account, head) {
      LowerBoundIsSearch(history, account, head, found);
    } else if k :| k in history && account < k.account {
      assert !Before(k, HistKey(account, head));
    }
  }

  /** It does happen: an account without any ABI is answered with another account's ABI, even one
      set after the requested block. */
  lemma LookupForeignAbi(ready: bool, cache: Cache, entry: Option<HistKey>)
    requires LooksUp(FRESH, map[HistKey(9, 50) := WellFormed(1)], 5, 20, ready, cache, entry)
    ensures ready && cache == Cache(map[5 := WellFormed(1)], {5})
  {
    var history := map[HistKey(9, 50) := WellFormed(1)];
    assert HistKey(9, 50) in history && !Before(HistKey(9, 50), HistKey(5, 20));
    assert entry == Some(HistKey(9, 50));
  }

  /** Put together: in a reachable database, looking up an account at a scanned block at which it has
      an entry gives the ABI that was recorded last when that block had just been scanned, and a fresh
      context decodes with it if it is well-formed. */
  lemma LookupGivesLastRecorded(
    c: ReceiverModel.Config, start: u32, w: World, account: Account, head: u32,
    ready: bool, cache: Cache, entry: Option<HistKey>)
    requires Reachable(c, start, w) && w.origin <= head <= w.origin + |w.log|
    requires LooksUp(FRESH, w.r.db.tables.abis.history, account, head, ready, cache, entry)
    requires HasEntry(w.r.db.tables.abis.history, account, head)
    ensures ready && entry.Some? && entry.value in w.r.db.tables.abis.history
    ensures var last := View(w.log[..head - w.origin], account).last;
      && Some(w.r.db.tables.abis.history[entry.value]) == last
      && Get(cache.contracts, account) == if last.value.WellFormed? then last else None
  {
    ReachableConsecutive(c, start, w);
    ReachableInv(c, start, w);
    LowerBoundIsSearch(w.r.db.tables.abis.history, account, head, entry);
    SearchLooksBack(w.log, w.origin, account, head);
  }
}
