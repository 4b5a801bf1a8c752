/** What the scan accepts and records, block by block and account by account, told from states and deployments. */
module WireLaws {
  import opened Bytes
  import opened WireHistory
  import opened WireRecords

  /**
   What one block may do to an account: a deployment must show, and without one the state stays, the account
   goes, or it is first seen without an ABI.
   */
  predicate Follows(prior: Option<AccountState>, after: Option<AccountState>, deployed: Option<Abi>) {
    match deployed
    case Some(abi) => after == Some(AccountState(true, abi))
    case None =>
      || after == prior
      || (after.Some? && !after.value.present)
      || (prior.None? && after.Some? && after.value.abi == [])
  }

  ghost predicate AllFollow(blocks: seq<Block>, blk: Block) {
    forall a: string ::
      Follows(StateAfter(blocks, a), StateAfter(blocks + [blk], a), LastDeployed(SortActions(blk.actions), a))
  }

  lemma StateSnoc(blocks: seq<Block>, blk: Block, a: string)
    ensures StateAfter(blocks + [blk], a) == OrElse(LastRow(blk.rows, a), StateAfter(blocks, a))
  {
    assert (blocks + [blk])[..|blocks|] == blocks;
  }

  lemma {:induction false} OneRowPerAccount(rows: seq<Row>, i: nat)
    requires DistinctRows(rows) && i < |rows|
    ensures LastRow(rows, rows[i].account) == Some(rows[i].State())
    decreases |rows|
  {
    var n := |rows| - 1;
    if i < n {
      assert rows[..n][i] == rows[i];
      OneRowPerAccount(rows[..n], i);
    }
  }

  lemma RowFollows(blocks: seq<Block>, acts: seq<Action>, rows: seq<Row>, i: nat)
    requires blocks != [] && DistinctRows(rows) && i < |rows|
    ensures
      var a := rows[i].account;
      RowExplained(blocks, acts, rows[i]) <==>
      Follows(StateAfter(blocks, a), OrElse(LastRow(rows, a), StateAfter(blocks, a)), LastDeployed(acts, a))
  {
    hide LastRow; hide StateAfter; hide LastDeployed;
    OneRowPerAccount(rows, i);
  }

  /** The checks on a later block are the law above, for every account. */
  lemma ChecksAreTheLaw(blocks: seq<Block>, blk: Block)
    requires blocks != [] && DistinctRows(blk.rows)
    ensures
      var acts := SortActions(blk.actions);
      RowsExplained(blocks, acts, blk.rows) && DeploymentsShow(blocks, acts, blk.rows) <==> AllFollow(blocks, blk)
  {
    hide LastRow; hide StateAfter; hide LastDeployed; hide SortActions; hide RowExplained;
    var acts, rows := SortActions(blk.actions), blk.rows;
    forall a: string
      ensures StateAfter(blocks + [blk], a) == OrElse(LastRow(rows, a), StateAfter(blocks, a))
    {
      StateSnoc(blocks, blk, a);
    }
    forall i: nat | i < |rows|
      ensures RowExplained(blocks, acts, rows[i]) <==> Follows(
        StateAfter(blocks, rows[i].account), StateAfter(blocks + [blk], rows[i].account),
        LastDeployed(acts, rows[i].account))
    {
      RowFollows(blocks, acts, rows, i);
    }
    if RowsExplained(blocks, acts, rows) && DeploymentsShow(blocks, acts, rows) {
      forall a: string
        ensures Follows(StateAfter(blocks, a), StateAfter(blocks + [blk], a), LastDeployed(acts, a))
      {
        LastRowIsMembership(rows, a);
      }
    }
  }

  /** The scan goes on over one more block exactly when its receipts fit and every account follows the law. */
  lemma NextBlockExactly(blocks: seq<Block>, blk: Block)
    requires Sound(blocks)
    ensures Sound(blocks + [blk]) <==>
      && (RawReceipts(blocks) != [] || blk.actions != [])
      && Sequenced(blocks + [blk]) && Counted(blocks + [blk])
      && DistinctRows(blk.rows) && AllFollow(blocks, blk)
  {
    hide Sequenced; hide Counted; hide AllFollow; hide BlocksExplained; hide SortActions; hide DeploymentsShow;
    assert (blocks + [blk])[..|blocks|] == blocks;
    assert RawReceipts(blocks + [blk]) == RawReceipts(blocks) + blk.actions;
    ExplainedSnoc(blocks, blk);
    if DistinctRows(blk.rows) { ChecksAreTheLaw(blocks, blk); }
  }

  predicate DeploysNothing(acts: seq<Action>) {
    forall i :: 0 <= i < |acts| ==> acts[i].deployment.None?
  }

  lemma {:induction false} NothingDeployed(acts: seq<Action>, a: string)
    requires DeploysNothing(acts)
    ensures LastDeployed(acts, a) == None
  {
    if acts != [] { NothingDeployed(acts[..|acts| - 1], a); }
  }

  lemma SortDeploysNothing(acts: seq<Action>)
    requires DeploysNothing(acts)
    ensures DeploysNothing(SortActions(acts))
  {
    hide SortActions;
    var s := SortActions(acts);
    forall i: nat | i < |s|
      ensures s[i].deployment.None?
    {
      SortKeepsMembers(acts, s[i]);
    }
  }

  /** A row without a deployment is refused exactly when it changes a known account's ABI or brings a new one. */
  predicate Refused(prior: Option<AccountState>, row: Row) {
    row.present && prior != Some(row.State()) && (prior.Some? || row.State().abi != [])
  }

  /** A later block that deploys nothing passes exactly when its receipts fit and no row of it is refused. */
  lemma QuietBlockExactly(blocks: seq<Block>, blk: Block)
    requires Sound(blocks) && DeploysNothing(blk.actions)
    requires (RawReceipts(blocks) != [] || blk.actions != []) && Sequenced(blocks + [blk]) && Counted(blocks + [blk])
    ensures Sound(blocks + [blk]) <==>
      DistinctRows(blk.rows) && forall i :: 0 <= i < |blk.rows| ==>
        !Refused(StateAfter(blocks, blk.rows[i].account), blk.rows[i])
  {
    hide Sequenced; hide Counted; hide Sound; hide SortActions; hide LastDeployed; hide StateAfter; hide LastRow;
    hide RawReceipts;
    SoundIsNotEmpty(blocks);
    NextBlockExactly(blocks, blk);
    SortDeploysNothing(blk.actions);
    var acts, rows := SortActions(blk.actions), blk.rows;
    forall a: string
      ensures LastDeployed(acts, a) == None
      ensures StateAfter(blocks + [blk], a) == OrElse(LastRow(rows, a), StateAfter(blocks, a))
    {
      NothingDeployed(acts, a);
      StateSnoc(blocks, blk, a);
    }
    if DistinctRows(rows) {
      forall i: nat | i < |rows|
        ensures LastRow(rows, rows[i].account) == Some(rows[i].State())
      {
        OneRowPerAccount(rows, i);
      }
      QuietAccounts(blocks, blk);
    }
  }

  lemma SoundIsNotEmpty(blocks: seq<Block>)
    requires Sound(blocks)
    ensures blocks != []
  {
  }

  lemma QuietAccounts(blocks: seq<Block>, blk: Block)
    requires DistinctRows(blk.rows)
    requires forall a: string :: LastDeployed(SortActions(blk.actions), a) == None
    requires forall a: string :: StateAfter(blocks + [blk], a) == OrElse(LastRow(blk.rows, a), StateAfter(blocks, a))
    ensures AllFollow(blocks, blk) <==> forall i :: 0 <= i < |blk.rows| ==>
      !Refused(StateAfter(blocks, blk.rows[i].account), blk.rows[i])
  {
    hide SortActions; hide LastDeployed; hide StateAfter; hide LastRow;
    var rows := blk.rows;
    forall i: nat | i < |rows|
      ensures Refused(StateAfter(blocks, rows[i].account), rows[i]) <==> !Follows(
        StateAfter(blocks, rows[i].account), StateAfter(blocks + [blk], rows[i].account),
        LastDeployed(SortActions(blk.actions), rows[i].account))
    {
      OneRowPerAccount(rows, i);
    }
    if forall i :: 0 <= i < |rows| ==> !Refused(StateAfter(blocks, rows[i].account), rows[i]) {
      forall a: string
        ensures Follows(StateAfter(blocks, a), StateAfter(blocks + [blk], a), LastDeployed(SortActions(blk.actions), a))
      {
        LastRowIsMembership(rows, a);
      }
    }
  }

  /** Rows that say again what is known are accepted and change nothing: the records stay the same. */
  method RepeatedRowsAreAccepted(blocks: seq<Block>, blk: Block)
    returns (r: Option<seq<Record>>, r': Option<seq<Record>>)
    requires Sound(blocks) && DeploysNothing(blk.actions) && DistinctRows(blk.rows)
    requires (RawReceipts(blocks) != [] || blk.actions != []) && Sequenced(blocks + [blk]) && Counted(blocks + [blk])
    requires forall i :: 0 <= i < |blk.rows| ==> StateAfter(blocks, blk.rows[i].account) == Some(blk.rows[i].State())
    ensures r.Some? && r' == r
  {
    hide Sound; hide Sequenced; hide Counted; hide RawReceipts; hide StateAfter;
    QuietBlockExactly(blocks, blk);
    NothingRecorded(blocks, blk);
    r := Scan(blocks);
    r' := Scan(blocks + [blk]);
  }

  lemma {:induction false} NoDeploymentRecords(prior: seq<Action>, acts: seq<Action>, block: nat)
    requires DeploysNothing(acts)
    ensures DeploymentRecords(prior, acts, block) == []
  {
    hide Revision;
    if acts != [] { NoDeploymentRecords(prior, acts[..|acts| - 1], block); }
  }

  lemma {:induction false} NoFinalRecords(before: seq<Block>, acts: seq<Action>, rows: seq<Row>, block: nat)
    requires forall i :: 0 <= i < |rows| ==> StateAfter(before, rows[i].account) == Some(rows[i].State())
    ensures FinalRecords(before, acts, rows, block) == []
  {
    hide Revision; hide StateAfter;
    if rows != [] { NoFinalRecords(before, acts, rows[..|rows| - 1], block); }
  }

  lemma NothingRecorded(blocks: seq<Block>, blk: Block)
    requires DeploysNothing(blk.actions)
    requires forall i :: 0 <= i < |blk.rows| ==> StateAfter(blocks, blk.rows[i].account) == Some(blk.rows[i].State())
    ensures Records(blocks + [blk]) == Records(blocks)
  {
    hide SortActions; hide StateAfter; hide Receipts; hide DeploymentRecords; hide FinalRecords;
    assert (blocks + [blk])[..|blocks|] == blocks;
    SortDeploysNothing(blk.actions);
    NoDeploymentRecords(Receipts(blocks), SortActions(blk.actions), |blocks| + 1);
    NoFinalRecords(blocks, Receipts(blocks) + SortActions(blk.actions), blk.rows, |blocks| + 1);
  }

  // The last deployment.

  /** `x` deploys to `a`, and nothing in `acts` does so after it. */
  predicate IsLatest(acts: seq<Action>, a: string, x: Action) {
    && x in acts && x.deployment.Some? && x.deployment.value.0 == a
    && forall y :: y in acts && y.deployment.Some? && y.deployment.value.0 == a ==> y.sequence <= x.sequence
  }

  /** The deployment that counts is the one with the highest sequence. */
  lemma LastDeployedIsLatest(acts: seq<Action>, a: string, abi: Abi)
    requires DistinctSequences(acts)
    ensures LastDeployed(SortActions(acts), a) == Some(abi) <==>
      exists x :: IsLatest(acts, a, x) && x.deployment.value.1 == abi
  {
    hide SortActions; hide LastDeployed;
    var s := SortActions(acts);
    SortAscends(acts);
    forall x: Action
      ensures x in s <==> x in acts
    {
      SortKeepsMembers(acts, x);
    }
    forall x: Action
      ensures IsLatest(s, a, x) <==> IsLatest(acts, a, x)
    {
    }
    hide IsLatest;
    LastOfAscending(s, a);
  }

  lemma {:induction false} LastOfAscending(s: seq<Action>, a: string)
    requires Ascending(s)
    ensures forall x :: IsLatest(s, a, x) ==> LastDeployed(s, a) == Some(x.deployment.value.1)
    ensures LastDeployed(s, a).Some? ==> exists x :: IsLatest(s, a, x)
  {
    if s != [] {
      var n := |s| - 1;
      var z := s[n];
      assert s == s[..n] + [z];
      assert forall x :: x in s[..n] ==> x.sequence < z.sequence;
      LastOfAscending(s[..n], a);
      assert LastDeployed(s, a) == if z.deployment.Some? && z.deployment.value.0 == a then Some(z.deployment.value.1)
                                   else LastDeployed(s[..n], a);
      hide LastDeployed; hide Ascending;
      if z.deployment.Some? && z.deployment.value.0 == a {
        assert IsLatest(s, a, z);
      } else {
        forall x: Action
          ensures IsLatest(s, a, x) <==> IsLatest(s[..n], a, x)
        {
        }
      }
    }
  }

  // What is recorded.

  /** The block-final records are exactly the changes of state, first sights without an ABI left out. */
  lemma {:induction false} FinalsAreTheChanges(blocks: seq<Block>, a: string, k: nat, st: AccountState, rev: nat)
    requires forall i :: 0 <= i < |blocks| ==> DistinctRows(blocks[i].rows)
    ensures BlockFinal(a, k, st, rev) in Records(blocks) <==>
      && 0 < k <= |blocks| && StateAfter(blocks[..k], a) == Some(st)
      && StateAfter(blocks[..k - 1], a) != Some(st)
      && (st.abi != [] || StateAfter(blocks[..k - 1], a).Some?)
      && rev == Revision(Receipts(blocks[..k]), a)
    decreases |blocks|
  {
    hide StateAfter; hide Receipts; hide Revision; hide SortActions; hide FinalRecords; hide DeploymentRecords;
    if blocks != [] {
      var n := |blocks| - 1;
      var before, blk := blocks[..n], blocks[n];
      FinalsAreTheChanges(before, a, k, st, rev);
      FinalsHere(before, blk, a, k, st, rev);
      assert blocks == before + [blk];
      if 0 < k <= n { assert before[..k] == blocks[..k] && before[..k - 1] == blocks[..k - 1]; }
      if k == n + 1 { assert blocks[..k] == blocks && blocks[..k - 1] == before; }
    }
  }

  lemma FinalsHere(before: seq<Block>, blk: Block, a: string, k: nat, st: AccountState, rev: nat)
    requires DistinctRows(blk.rows)
    ensures BlockFinal(a, k, st, rev) in BlockRecords(before, blk) <==>
      && k == |before| + 1 && StateAfter(before + [blk], a) == Some(st) && StateAfter(before, a) != Some(st)
      && (st.abi != [] || StateAfter(before, a).Some?)
      && rev == Revision(Receipts(before + [blk]), a)
  {
    hide StateAfter; hide Revision; hide SortActions; hide FinalRecords; hide DeploymentRecords; hide LastRow;
    var acts, n := SortActions(blk.actions), |before| + 1;
    assert Receipts(before + [blk]) == Receipts(before) + acts by { assert (before + [blk])[..|before|] == before; }
    hide Receipts;
    DeploymentsHoldNoFinal(Receipts(before), acts, n, BlockFinal(a, k, st, rev));
    FinalsOfRows(before, Receipts(before) + acts, blk.rows, n, a, k, st, rev);
    StateSnoc(before, blk, a);
  }

  lemma {:induction false} DeploymentsHoldNoFinal(prior: seq<Action>, acts: seq<Action>, block: nat, r: Record)
    requires r.BlockFinal?
    ensures r !in DeploymentRecords(prior, acts, block)
  {
    hide Revision;
    if acts != [] { DeploymentsHoldNoFinal(prior, acts[..|acts| - 1], block, r); }
  }

  lemma {:induction false} FinalsOfRows(before: seq<Block>, acts: seq<Action>, rows: seq<Row>, block: nat,
                                        a: string, k: nat, st: AccountState, rev: nat)
    requires DistinctRows(rows)
    ensures BlockFinal(a, k, st, rev) in FinalRecords(before, acts, rows, block) <==>
      && k == block && LastRow(rows, a) == Some(st) && Recorded(StateAfter(before, a), st)
      && rev == Revision(acts, a)
  {
    hide Revision; hide StateAfter;
    if rows != [] {
      var n := |rows| - 1;
      FinalsOfRows(before, acts, rows[..n], block, a, k, st, rev);
      LastRowIsMembership(rows[..n], a);
    }
  }

  /** `x` deployed `abi` to `a`, as the `rev`-th deployment to it among `acts`. */
  predicate DeployedAs(acts: seq<Action>, x: Action, a: string, abi: Abi, rev: nat) {
    x.deployment == Some((a, abi)) && rev == DeploymentsBelow(acts, a, x.sequence) + 1
  }

  /** The deployment records are exactly the deployments, each with its number. */
  lemma {:induction false} DeploymentsAreRecorded(blocks: seq<Block>, a: string, k: nat, abi: Abi, rev: nat)
    requires Sequenced(blocks)
    ensures Deployed(a, k, abi, rev) in Records(blocks) <==>
      0 < k <= |blocks|
      && exists x :: x in blocks[k - 1].actions && DeployedAs(RawReceipts(blocks[..k]), x, a, abi, rev)
    decreases |blocks|
  {
    hide SortActions; hide FinalRecords; hide DeploymentRecords; hide RawReceipts; hide Receipts; hide DeployedAs;
    if blocks != [] {
      var n := |blocks| - 1;
      var before, blk := blocks[..n], blocks[n];
      DeploymentsAreRecorded(before, a, k, abi, rev);
      assert blocks == before + [blk];
      DeploymentsHere(before, blk, a, k, abi, rev);
      if 0 < k <= n { assert before[..k] == blocks[..k] && before[k - 1] == blocks[k - 1]; }
      if k == n + 1 { assert blocks[..k] == blocks; }
    }
  }

  lemma DeploymentsHere(before: seq<Block>, blk: Block, a: string, k: nat, abi: Abi, rev: nat)
    requires Sequenced(before + [blk])
    ensures Deployed(a, k, abi, rev) in BlockRecords(before, blk) <==>
      k == |before| + 1
      && exists x :: x in blk.actions && DeployedAs(RawReceipts(before + [blk]), x, a, abi, rev)
  {
    hide SortActions; hide FinalRecords; hide DeploymentRecords; hide RawReceipts; hide Sequenced;
    var acts, all := SortActions(blk.actions), before + [blk];
    assert Receipts(all) == Receipts(before) + acts by { assert all[..|before|] == before; }
    hide Receipts;
    ReceiptsAscend(all);
    FinalsHoldNoDeployment(before, Receipts(before) + acts, blk.rows, |before| + 1, Deployed(a, k, abi, rev));
    DeploymentsOfActs(Receipts(before), acts, |acts|, |before| + 1, a, k, abi, rev);
    assert acts[..|acts|] == acts;
    forall x: Action
      ensures x in acts <==> x in blk.actions
      ensures DeployedAs(Receipts(all), x, a, abi, rev) <==> DeployedAs(RawReceipts(all), x, a, abi, rev)
    {
      SortKeepsMembers(blk.actions, x);
      BelowReceipts(all, a, x.sequence);
    }
    hide DeployedAs;
  }

  lemma {:induction false} FinalsHoldNoDeployment(before: seq<Block>, acts: seq<Action>, rows: seq<Row>, block: nat,
                                                  r: Record)
    requires r.Deployed?
    ensures r !in FinalRecords(before, acts, rows, block)
  {
    hide Revision; hide StateAfter;
    if rows != [] { FinalsHoldNoDeployment(before, acts, rows[..|rows| - 1], block, r); }
  }

  lemma {:induction false} DeploymentsOfActs(prior: seq<Action>, acts: seq<Action>, n: nat, block: nat, a: string,
                                             k: nat, abi: Abi, rev: nat)
    requires Ascending(prior + acts) && n <= |acts|
    ensures Deployed(a, k, abi, rev) in DeploymentRecords(prior, acts[..n], block) <==>
      k == block && exists x :: x in acts[..n] && DeployedAs(prior + acts, x, a, abi, rev)
  {
    hide Revision; hide DeploymentsBelow; hide Ascending;
    if n > 0 {
      var x := acts[n - 1];
      DeploymentsOfActs(prior, acts, n - 1, block, a, k, abi, rev);
      assert acts[..n] == acts[..n - 1] + [x] && acts[..n][..n - 1] == acts[..n - 1];
      hide DeployedAs;
      LastRecord(prior, acts, n - 1, block, a, k, abi, rev);
    }
  }

  lemma RevisionAt(prior: seq<Action>, acts: seq<Action>, i: nat, a: string)
    requires Ascending(prior + acts) && i < |acts|
    ensures acts[i].deployment.Some? && acts[i].deployment.value.0 == a ==>
      Revision(prior + acts[..i + 1], a) == DeploymentsBelow(prior + acts, a, acts[i].sequence) + 1
  {
    hide Revision; hide DeploymentsBelow; hide Ascending;
    var all := prior + acts;
    BelowIsRevision(all, |prior| + i, a);
    assert all[..|prior| + i] == prior + acts[..i];
    assert prior + acts[..i + 1] == (prior + acts[..i]) + [acts[i]];
    RevisionSnoc(prior + acts[..i], acts[i], a);
  }

  lemma LastRecord(prior: seq<Action>, acts: seq<Action>, i: nat, block: nat, a: string, k: nat, abi: Abi, rev: nat)
    requires Ascending(prior + acts) && i < |acts|
    ensures
      var x := acts[i];
      Deployed(a, k, abi, rev) in DeploymentRecords(prior, acts[..i + 1], block) <==>
      Deployed(a, k, abi, rev) in DeploymentRecords(prior, acts[..i], block)
      || (k == block && DeployedAs(prior + acts, x, a, abi, rev))
  {
    hide Revision; hide DeploymentsBelow; hide Ascending;
    RevisionAt(prior, acts, i, a);
    assert acts[..i + 1][..i] == acts[..i];
  }
}
