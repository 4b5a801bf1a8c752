/** What the sparse history means: the dense view read back from it, record by record. */
module WireRecords {
  import opened Bytes
  import opened WireHistory

  /** The state of the last block-final record of `account` at or before block `b`. */
  function LastFinal(records: seq<Record>, account: string, b: nat): Option<AccountState> {
    if records == [] then None else
    var r := records[|records| - 1];
    if r.BlockFinal? && r.account == account && r.block <= b then Some(r.state)
    else LastFinal(records[..|records| - 1], account, b)
  }

  lemma {:induction false} LastFinalConcat(x: seq<Record>, y: seq<Record>, a: string, b: nat)
    ensures LastFinal(x + y, a, b) == OrElse(LastFinal(y, a, b), LastFinal(x, a, b))
  {
    if y == [] {
      assert x + y == x;
    } else {
      var n := |y| - 1;
      LastFinalConcat(x, y[..n], a, b);
      assert (x + y)[..|x + y| - 1] == x + y[..n];
    }
  }

  lemma {:induction false} DeploymentsAreNotFinal(prior: seq<Action>, acts: seq<Action>, block: nat, a: string, b: nat)
    ensures LastFinal(DeploymentRecords(prior, acts, block), a, b) == None
  {
    hide Revision;
    if acts != [] {
      var n := |acts| - 1;
      DeploymentsAreNotFinal(prior, acts[..n], block, a, b);
      var all, init := DeploymentRecords(prior, acts, block), DeploymentRecords(prior, acts[..n], block);
      assert all == init || all[..|all| - 1] == init;
    }
  }

  /** The final records of one block speak of exactly the rows that changed something. */
  lemma {:induction false} FinalsOfBlock(before: seq<Block>, acts: seq<Action>, rows: seq<Row>, block: nat,
                                         a: string, b: nat)
    requires DistinctRows(rows)
    ensures LastFinal(FinalRecords(before, acts, rows, block), a, b) ==
      var last := LastRow(rows, a);
      if block <= b && last.Some? && Recorded(StateAfter(before, a), last.value) then last else None
  {
    hide Revision; hide StateAfter;
    if rows != [] {
      var n := |rows| - 1;
      FinalsOfBlock(before, acts, rows[..n], block, a, b);
      LastRowIsMembership(rows[..n], a);
      var all, init := FinalRecords(before, acts, rows, block), FinalRecords(before, acts, rows[..n], block);
      assert all == init || all[..|all| - 1] == init;
    }
  }

  function BlockRecords(before: seq<Block>, blk: Block): seq<Record> {
    var acts := SortActions(blk.actions);
    DeploymentRecords(Receipts(before), acts, |before| + 1)
    + FinalRecords(before, Receipts(before) + acts, blk.rows, |before| + 1)
  }

  lemma LastFinalOfBlock(before: seq<Block>, blk: Block, a: string, b: nat)
    requires DistinctRows(blk.rows)
    ensures LastFinal(BlockRecords(before, blk), a, b) ==
      var last := LastRow(blk.rows, a);
      if |before| + 1 <= b && last.Some? && Recorded(StateAfter(before, a), last.value) then last else None
  {
    hide DeploymentRecords; hide FinalRecords; hide LastRow; hide StateAfter; hide SortActions; hide LastFinal;
    var acts, n := SortActions(blk.actions), |before| + 1;
    var x := DeploymentRecords(Receipts(before), acts, n);
    var y := FinalRecords(before, Receipts(before) + acts, blk.rows, n);
    LastFinalConcat(x, y, a, b);
    DeploymentsAreNotFinal(Receipts(before), acts, n, a, b);
    FinalsOfBlock(before, Receipts(before) + acts, blk.rows, n, a, b);
  }

  /** The record on file stands for the state: they are equal, or neither carries an ABI. */
  predicate StandsFor(record: Option<AccountState>, state: Option<AccountState>) {
    record == state || (record == None && AbiOf(state) == [])
  }

  lemma {:induction false} RecordsStandForStates(blocks: seq<Block>, a: string, b: nat)
    requires BlocksExplained(blocks) && b <= |blocks|
    ensures StandsFor(LastFinal(Records(blocks), a, b), StateAfter(blocks[..b], a))
  {
    hide DeploymentRecords; hide FinalRecords; hide LastRow; hide SortActions; hide DeploymentsShow; hide LastFinal;
    if blocks == [] {
      NoRecords(a, b);
      assert blocks[..b] == [];
    } else {
      var n := |blocks| - 1;
      var before, blk := blocks[..n], blocks[n];
      assert Records(blocks) == Records(before) + BlockRecords(before, blk);
      LastFinalConcat(Records(before), BlockRecords(before, blk), a, b);
      LastFinalOfBlock(before, blk, a, b);
      if b <= n {
        RecordsStandForStates(before, a, b);
        assert before[..b] == blocks[..b];
      } else {
        RecordsStandForStates(before, a, n);
        LastFinalBound(before, a, n, b);
        assert before[..n] == before && blocks[..b] == blocks;
      }
    }
  }

  lemma NoRecords(a: string, b: nat)
    ensures LastFinal([], a, b) == None
  {
  }

  /** Records of `blocks` carry no higher block number. */
  lemma {:induction false} LastFinalBound(blocks: seq<Block>, a: string, b: nat, c: nat)
    requires |blocks| <= b <= c && BlocksExplained(blocks)
    ensures LastFinal(Records(blocks), a, b) == LastFinal(Records(blocks), a, c)
  {
    hide DeploymentRecords; hide FinalRecords; hide LastRow; hide SortActions; hide DeploymentsShow;
    hide LastFinal; hide StateAfter;
    if blocks == [] {
      NoRecords(a, b);
      NoRecords(a, c);
    } else {
      var n := |blocks| - 1;
      var before, blk := blocks[..n], blocks[n];
      assert Records(blocks) == Records(before) + BlockRecords(before, blk);
      LastFinalConcat(Records(before), BlockRecords(before, blk), a, b);
      LastFinalConcat(Records(before), BlockRecords(before, blk), a, c);
      LastFinalOfBlock(before, blk, a, b);
      LastFinalOfBlock(before, blk, a, c);
      LastFinalBound(before, a, b, c);
    }
  }

  /**
   In every completed scan the last block-final record at or before a block, or no ABI at all when
   there is none, is the account's ABI after folding every account delta through that block.
   */
  lemma HistoryMatchesChain(blocks: seq<Block>, a: string, b: nat)
    requires Sound(blocks) && b <= |blocks|
    ensures AbiOf(LastFinal(Records(blocks), a, b)) == AbiOf(StateAfter(blocks[..b], a))
  {
    RecordsStandForStates(blocks, a, b);
  }

  /**
   After block 1 an account takes a new, non-empty ABI only in a block whose last deployment to it
   carries exactly those bytes.
   */
  lemma NewAbiWasDeployed(blocks: seq<Block>, a: string, k: nat)
    requires Sound(blocks) && 1 <= k < |blocks|
    requires AbiOf(StateAfter(blocks[..k + 1], a)) != AbiOf(StateAfter(blocks[..k], a))
    requires AbiOf(StateAfter(blocks[..k + 1], a)) != []
    ensures LastDeployed(SortActions(blocks[k].actions), a) == Some(AbiOf(StateAfter(blocks[..k + 1], a)))
  {
    hide LastRow; hide LastDeployed; hide SortActions; hide DeploymentsShow; hide Consistent; hide Receipts;
    hide Sequenced; hide Counted;
    SoundSoFar(blocks, k + 1);
    var before, blk := blocks[..k], blocks[k];
    assert blocks[..k + 1][..k] == before && blocks[..k + 1][k] == blk;
    LastRowIsMembership(blk.rows, a);
    var i :| 0 <= i < |blk.rows| && blk.rows[i].account == a && LastRow(blk.rows, a) == Some(blk.rows[i].State());
    assert RowExplained(before, SortActions(blk.actions), blk.rows[i]);
  }
}
