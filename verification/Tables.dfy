/** The four tables of the receiver's database and what one block, or a whole log of blocks,
    makes of them. */
module Tables {
  import opened Basics
  import opened Messages

  datatype StateRow = StateRow(head: u32, headId: BlockId, lib: u32, libId: BlockId)

  datatype HistKey = HistKey(account: Account, block: u32)

  /** Latest ABI per contract, and every ABI revision by account and block. */
  datatype AbiTables = AbiTables(latest: map<Account, Abi>, history: map<HistKey, Abi>)

  datatype Tables = Tables(state: Option<StateRow>, received: map<u32, BlockId>, abis: AbiTables)

  const EMPTY := Tables(None, map[], AbiTables(map[], map[]))

  /** `clear_contract_abi`: an account without a latest ABI leaves no trace. */
  function ClearAbi(t: AbiTables, at: u32, account: Account): AbiTables {
    if account in t.latest
    then AbiTables(t.latest - {account}, t.history[HistKey(account, at) := NoAbi])
    else t
  }

  /** `save_contract_abi`: the history takes every ABI, the latest table only well-formed ones. */
  function SaveAbi(t: AbiTables, at: u32, account: Account, abi: Abi): AbiTables {
    AbiTables(
      if abi.WellFormed? then t.latest[account := abi] else t.latest,
      t.history[HistKey(account, at) := abi])
  }

  function ApplyRow(t: AbiTables, at: u32, row: Row): AbiTables {
    match row
    case AccountRow(present, account, abi) =>
      if !present then t
      else if abi.NoAbi? then ClearAbi(t, at, account)
      else SaveAbi(t, at, account, abi)
    case ContractRow(_) => t
  }

  function ApplyRows(t: AbiTables, at: u32, rows: seq<Row>): AbiTables {
    if rows == [] then t
    else ApplyRow(ApplyRows(t, at, Front(rows)), at, Last(rows))
  }

  /** A block above the last irreversible one it reports. */
  predicate Live(m: Block) {
    m.lib < m.num
  }

  /** The received-blocks table after a block: live blocks enter it and push out what has become
      irreversible; irreversible blocks leave it alone. */
  function ApplyReceived(received: map<u32, BlockId>, m: Block): map<u32, BlockId> {
    if Live(m)
    then var r := received[m.num := m.id]; map k | k in r && m.lib <= k :: r[k]
    else received
  }

  function ApplyBlock(t: Tables, m: Block): Tables {
    Tables(
      Some(StateRow(m.num, m.id, m.lib, m.libId)),
      ApplyReceived(t.received, m),
      ApplyRows(t.abis, m.num, m.rows))
  }

  /** The database a fresh receiver would hold after scanning exactly `log`. */
  function Replay(log: seq<Block>): Tables {
    if log == [] then EMPTY else ApplyBlock(Replay(Front(log)), Last(log))
  }
}
