/** The decoded-ABI context of abieos together with the receiver's list of accounts it has loaded
    there.  The context only grows: a second ABI for an account it already holds is ignored. */
module AbiCache {
  import opened Basics
  import opened Messages
  import opened Tables

  datatype Cache = Cache(contracts: map<Account, Abi>, imported: set<Account>)

  const FRESH := Cache(map[], {})

  /** `abieos_set_abi_bin`: refuses an ABI it cannot decode, never replaces one it holds. */
  function SetAbiBin(contracts: map<Account, Abi>, account: Account, abi: Abi): (r: map<Account, Abi>)
    ensures forall a :: a in contracts ==> a in r && r[a] == contracts[a]
    ensures forall a :: a in r <==> a in contracts || (a == account && abi.WellFormed?)
    ensures account in r && account !in contracts ==> r[account] == abi
  {
    if abi.WellFormed? && account !in contracts then contracts[account := abi] else contracts
  }

  /** Entries cannot be removed one by one, so the whole context goes. */
  function DropIfImported(c: Cache, account: Account): Cache {
    if account in c.imported then FRESH else c
  }

  function SaveInCache(c: Cache, account: Account, abi: Abi): Cache {
    var d := DropIfImported(c, account);
    if abi.WellFormed?
    then Cache(SetAbiBin(d.contracts, account, abi), d.imported + {account})
    else d
  }

  /** `get_contract_abi_ready` when scanning: loads the latest ABI on demand. */
  function LoadInCache(c: Cache, latest: map<Account, Abi>, account: Account): Cache {
    if account !in c.imported && account in latest
    then Cache(SetAbiBin(c.contracts, account, latest[account]), c.imported + {account})
    else c
  }

  function CacheRow(c: Cache, latest: map<Account, Abi>, row: Row): Cache {
    match row
    case AccountRow(present, account, abi) =>
      if !present then c
      else if abi.NoAbi? then DropIfImported(c, account)
      else SaveInCache(c, account, abi)
    case ContractRow(code) => LoadInCache(c, latest, code)
  }

  function CacheRows(c: Cache, t: AbiTables, at: u32, rows: seq<Row>): Cache {
    if rows == [] then c
    else CacheRow(CacheRows(c, t, at, Front(rows)), ApplyRows(t, at, Front(rows)).latest, Last(rows))
  }

  /** The latest-ABI table only ever holds ABIs that abieos accepts. */
  ghost predicate OnlyWellFormed(latest: map<Account, Abi>) {
    forall a :: a in latest ==> latest[a].WellFormed?
  }

  /** What the decoder relies on: every account marked as imported is in the context with exactly
      the ABI of the latest table, and the context holds no other account. */
  ghost predicate Coherent(c: Cache, latest: map<Account, Abi>) {
    && c.contracts.Keys == c.imported
    && forall a :: a in c.imported ==> a in latest && c.contracts[a] == latest[a]
  }

  lemma {:induction false} RowsKeepCoherence(c: Cache, t: AbiTables, at: u32, rows: seq<Row>)
    requires Coherent(c, t.latest) && OnlyWellFormed(t.latest)
    ensures Coherent(CacheRows(c, t, at, rows), ApplyRows(t, at, rows).latest)
    ensures OnlyWellFormed(ApplyRows(t, at, rows).latest)
  {
    if rows != [] {
      RowsKeepCoherence(c, t, at, Front(rows));
    }
  }

  lemma {:induction false} ReplayOnlyWellFormed(log: seq<Block>)
    ensures OnlyWellFormed(Replay(log).abis.latest)
  {
    if log != [] {
      ReplayOnlyWellFormed(Front(log));
      RowsKeepCoherence(FRESH, Replay(Front(log)).abis, Last(log).num, Last(log).rows);
    }
  }

  /** Coherence is what makes an on-demand lookup exact: afterwards the context answers for an
      account exactly when, and exactly what, the latest table does. */
  lemma LoadedAnswersLatest(c: Cache, latest: map<Account, Abi>, account: Account)
    requires Coherent(c, latest) && OnlyWellFormed(latest)
    ensures var d := LoadInCache(c, latest, account);
      && Coherent(d, latest)
      && (account in d.contracts <==> account in latest)
      && (account in latest ==> d.contracts[account] == latest[account])
  {
  }
}
