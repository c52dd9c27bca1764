/** What the receiver reads from the state history socket and what it publishes to its channels. */
module Messages {
  import opened Basics

  /** A 64-bit account name, used only as a key. */
  type Account = nat

  /** A block identifier (checksum256), compared only for equality. */
  type BlockId = nat

  /** A binary contract ABI, told apart by what abieos makes of it. */
  datatype Abi = NoAbi | WellFormed(tag: nat) | Malformed(tag: nat)

  /** One row of a block's table deltas.  `ContractRow` is a contract table row that passes the
      configured filters: decoding it needs the ABI of `code`. */
  datatype Row =
    | AccountRow(present: bool, account: Account, abi: Abi)
    | ContractRow(code: Account)

  /** What the receiver cannot read of a message, if anything: the block itself, some row of the
      deltas, or the traces.  It throws there: before it announces the block, inside the undo session,
      or after the block was stored. */
  datatype Fault = Sound | BadBlock | BadRows | BadTraces

  /** A `get_blocks_result_v0` that carries a block. */
  datatype Block = Block(
    num: u32,
    id: BlockId,
    prev: Option<BlockId>,
    lib: u32,
    libId: BlockId,
    rows: seq<Row>,
    fault: Fault)

  datatype Event =
    | ForkEvent(num: u32)
    | BlockEvent(num: u32, id: BlockId)
    | CompletedEvent(num: u32)
}
