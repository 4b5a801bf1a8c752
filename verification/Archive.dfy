/** The archive server's view of the trace log: what reading a block gives. */
module Archive {
  import opened Bytes
  import opened Trace

  datatype BlockData = BlockData(inflated: seq<byte>, txs: seq<Tx>)

  /** The frozen log: each block's inflated payload, `None` on an I/O or format fault. */
  type Log = nat -> Option<seq<byte>>

  datatype Range = Range(first: nat, last: nat) {
    predicate Has(n: nat) { first <= n <= last }
  }

  /** `None` on a fault; `Some(None)` when the entry is empty or does not parse. */
  function ReadBlock(log: Log, n: nat): Option<Option<BlockData>> {
    var inflated :- log(n);
    if inflated == [] then Some(None) else
    match ParseBlock(inflated)
    case None => Some(None)
    case Some(txs) => Some(Some(BlockData(inflated, txs)))
  }
}
