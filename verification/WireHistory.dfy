/**
 The Wire ABI history scan: blocks of receipts and account rows in, a sparse list of deployment and
 block-final records out, every claim cross-checked on the way. Block `k` of the chain is
 `blocks[k - 1]`. The receipts and rows are taken as decoded.
 */
module WireHistory {
  import opened Bytes

  type Abi = seq<byte>

  /** An account's final state in a block; an absent account has an empty ABI. */
  datatype AccountState = AccountState(present: bool, abi: Abi)

  datatype Row = Row(account: string, present: bool, abi: Abi) {
    function State(): AccountState {
      AccountState(present, if present then abi else [])
    }
  }

  /** One committed receipt: a setabi carries what it deployed, any other primary receipt the ABI
      revision it ran under, a notification neither. */
  datatype Action = Action(account: string, sequence: nat, abiSequence: Option<nat>, deployment: Option<(string, Abi)>)

  datatype Block = Block(rows: seq<Row>, actions: seq<Action>)

  datatype Record =
    | Deployed(account: string, block: nat, abi: Abi, revision: nat)
    | BlockFinal(account: string, block: nat, state: AccountState, revision: nat)

  // Receipts, sorted by global sequence.

  function InsertAction(a: Action, s: seq<Action>): seq<Action> {
    if s == [] || a.sequence < s[0].sequence then [a] + s else [s[0]] + InsertAction(a, s[1..])
  }

  function SortActions(s: seq<Action>): seq<Action> {
    if s == [] then [] else InsertAction(s[|s| - 1], SortActions(s[..|s| - 1]))
  }

  predicate Ascending(s: seq<Action>) {
    forall i, j :: 0 <= i < j < |s| ==> s[i].sequence < s[j].sequence
  }

  /** Every receipt up to and including `blocks`, in the order the scan takes them. */
  function Receipts(blocks: seq<Block>): seq<Action> {
    if blocks == [] then [] else
    Receipts(blocks[..|blocks| - 1]) + SortActions(blocks[|blocks| - 1].actions)
  }

  /** How often `account` was deployed to. */
  function Revision(acts: seq<Action>, account: string): nat {
    if acts == [] then 0 else
    var d := acts[|acts| - 1].deployment;
    Revision(acts[..|acts| - 1], account) + if d.Some? && d.value.0 == account then 1 else 0
  }

  /** The last ABI deployed to `account`. */
  function LastDeployed(acts: seq<Action>, account: string): Option<Abi> {
    if acts == [] then None else
    var d := acts[|acts| - 1].deployment;
    if d.Some? && d.value.0 == account then Some(d.value.1) else LastDeployed(acts[..|acts| - 1], account)
  }

  /** The account's state after its last row in `rows`. */
  function LastRow(rows: seq<Row>, account: string): Option<AccountState> {
    if rows == [] then None else
    var row := rows[|rows| - 1];
    if row.account == account then Some(row.State()) else LastRow(rows[..|rows| - 1], account)
  }

  function OrElse(a: Option<AccountState>, b: Option<AccountState>): Option<AccountState> {
    if a.Some? then a else b
  }

  /** The account's state obtained by folding every account delta of `blocks`. */
  function StateAfter(blocks: seq<Block>, account: string): Option<AccountState> {
    if blocks == [] then None else
    OrElse(LastRow(blocks[|blocks| - 1].rows, account), StateAfter(blocks[..|blocks| - 1], account))
  }

  function AbiOf(s: Option<AccountState>): Abi {
    if s.Some? then s.value.abi else []
  }

  // What a history must satisfy.

  /** Each primary non-setabi receipt carries the number of earlier deployments. */
  predicate RevisionsAgree(acts: seq<Action>) {
    forall i :: 0 <= i < |acts| && acts[i].deployment.None? && acts[i].abiSequence.Some? ==>
      acts[i].abiSequence.value == Revision(acts[..i], acts[i].account)
  }

  /** A row of a block is explained by the block's last deployment, or changes nothing. */
  predicate RowExplained(before: seq<Block>, acts: seq<Action>, row: Row) {
    var prior, state := StateAfter(before, row.account), row.State();
    match LastDeployed(acts, row.account)
    case Some(abi) => state == AccountState(true, abi)
    case None => before == [] || prior == Some(state) || !state.present || (prior.None? && state.abi == [])
  }

  predicate DistinctRows(rows: seq<Row>) {
    forall i, j :: 0 <= i < j < |rows| ==> rows[i].account != rows[j].account
  }

  /** A deployment shows in the account's state after the block, with or without a row. */
  ghost predicate DeploymentsShow(before: seq<Block>, acts: seq<Action>, rows: seq<Row>) {
    forall a: string :: LastDeployed(acts, a).Some? ==>
      OrElse(LastRow(rows, a), StateAfter(before, a)) == Some(AccountState(true, LastDeployed(acts, a).value))
  }

  predicate RowsExplained(before: seq<Block>, acts: seq<Action>, rows: seq<Row>) {
    DistinctRows(rows) && forall i :: 0 <= i < |rows| ==> RowExplained(before, acts, rows[i])
  }

  ghost predicate BlocksExplained(blocks: seq<Block>) {
    blocks == [] ||
    var n := |blocks| - 1;
    var before, acts, rows := blocks[..n], SortActions(blocks[n].actions), blocks[n].rows;
    BlocksExplained(before) && RowsExplained(before, acts, rows) && DeploymentsShow(before, acts, rows)
  }

  /** All receipts as the blocks carry them, in no particular order within a block. */
  function RawReceipts(blocks: seq<Block>): seq<Action> {
    if blocks == [] then [] else RawReceipts(blocks[..|blocks| - 1]) + blocks[|blocks| - 1].actions
  }

  predicate AllBefore(xs: seq<Action>, ys: seq<Action>) {
    forall x, y :: x in xs && y in ys ==> x.sequence < y.sequence
  }

  predicate DistinctSequences(s: seq<Action>) {
    forall i, j :: 0 <= i < j < |s| ==> s[i].sequence != s[j].sequence
  }

  /** No two receipts share a sequence, and those of an earlier block come before those of a later one. */
  predicate Sequenced(blocks: seq<Block>) {
    && (forall k :: 0 <= k < |blocks| ==> DistinctSequences(blocks[k].actions))
    && forall k, l :: 0 <= k < l < |blocks| ==> AllBefore(blocks[k].actions, blocks[l].actions)
  }

  /** How many of `acts` deploy to `account` under a sequence below `limit`. */
  function DeploymentsBelow(acts: seq<Action>, account: string, limit: nat): nat {
    if acts == [] then 0 else
    var a := acts[|acts| - 1];
    DeploymentsBelow(acts[..|acts| - 1], account, limit)
    + if a.deployment.Some? && a.deployment.value.0 == account && a.sequence < limit then 1 else 0
  }

  predicate CountsAmong(acts: seq<Action>, a: Action) {
    a.deployment.None? && a.abiSequence.Some? ==> a.abiSequence.value == DeploymentsBelow(acts, a.account, a.sequence)
  }

  /** Each primary non-setabi receipt carries the number of deployments to its account before it, anywhere. */
  predicate Counted(blocks: seq<Block>) {
    forall a :: a in RawReceipts(blocks) ==> CountsAmong(RawReceipts(blocks), a)
  }

  /** A history the scan completes. */
  ghost predicate Sound(blocks: seq<Block>) {
    && |blocks| > 0 && (|blocks| == 1 || RawReceipts(blocks) != [])
    && Sequenced(blocks) && Counted(blocks) && BlocksExplained(blocks)
  }

  // What it records.

  function DeploymentRecords(prior: seq<Action>, acts: seq<Action>, block: nat): seq<Record> {
    if acts == [] then [] else
    var n := |acts| - 1;
    var d := acts[n].deployment;
    DeploymentRecords(prior, acts[..n], block) +
    if d.Some? then [Deployed(d.value.0, block, d.value.1, Revision(prior + acts, d.value.0))] else []
  }

  /** A final state is recorded when it differs from the known one, unless it is the first sight of
      an account without an ABI. */
  predicate Recorded(prior: Option<AccountState>, state: AccountState) {
    prior != Some(state) && (state.abi != [] || prior.Some?)
  }

  function FinalRecords(before: seq<Block>, acts: seq<Action>, rows: seq<Row>, block: nat): seq<Record> {
    if rows == [] then [] else
    var n := |rows| - 1;
    var row := rows[n];
    FinalRecords(before, acts, rows[..n], block) +
    if Recorded(StateAfter(before, row.account), row.State())
    then [BlockFinal(row.account, block, row.State(), Revision(acts, row.account))] else []
  }

  function Records(blocks: seq<Block>): seq<Record> {
    if blocks == [] then [] else
    var n := |blocks| - 1;
    var before, acts := blocks[..n], SortActions(blocks[n].actions);
    Records(before) + (DeploymentRecords(Receipts(before), acts, n + 1)
                       + FinalRecords(before, Receipts(before) + acts, blocks[n].rows, n + 1))
  }

  // The scan.

  function Lookup<T>(m: map<string, T>, a: string): Option<T> {
    if a in m then Some(m[a]) else None
  }

  ghost predicate RevisionsOf(revisions: map<string, nat>, acts: seq<Action>) {
    forall a: string :: Revision(acts, a) == if a in revisions then revisions[a] else 0
  }

  ghost predicate ChangedOf(changed: map<string, Abi>, acts: seq<Action>, rows: seq<Row>) {
    forall a: string :: Lookup(changed, a) == if LastRow(rows, a).Some? then None else LastDeployed(acts, a)
  }

  ghost predicate CurrentOf(current: map<string, AccountState>, before: seq<Block>, rows: seq<Row>) {
    forall a: string :: Lookup(current, a) == OrElse(LastRow(rows, a), StateAfter(before, a))
  }

  function LastSequence(acts: seq<Action>): Option<nat> {
    if acts == [] then None else Some(acts[|acts| - 1].sequence)
  }

  lemma RevisionSnoc(acts: seq<Action>, act: Action, a: string)
    ensures Revision(acts + [act], a)
      == Revision(acts, a) + if act.deployment.Some? && act.deployment.value.0 == a then 1 else 0
    ensures LastDeployed(acts + [act], a)
      == if act.deployment.Some? && act.deployment.value.0 == a then Some(act.deployment.value.1)
         else LastDeployed(acts, a)
  {
    assert (acts + [act])[..|acts|] == acts;
  }

  lemma AscendingSnoc(acts: seq<Action>, act: Action)
    requires Ascending(acts)
    ensures Ascending(acts + [act]) <==> acts == [] || acts[|acts| - 1].sequence < act.sequence
  {
    var all := acts + [act];
    if acts != [] && Ascending(all) {
      assert all[|acts| - 1].sequence < all[|acts|].sequence;
    }
  }

  lemma RevisionsAgreeSnoc(acts: seq<Action>, act: Action)
    requires RevisionsAgree(acts)
    ensures RevisionsAgree(acts + [act]) <==>
      (act.deployment.None? && act.abiSequence.Some? ==> act.abiSequence.value == Revision(acts, act.account))
  {
    var all := acts + [act];
    assert all[..|acts|] == acts;
    forall i | 0 <= i < |acts|
      ensures all[..i] == acts[..i] && all[i] == acts[i]
    {
    }
    if RevisionsAgree(all) {
      assert all[|acts|] == act;
    }
  }

  /** Global sequences increase and every receipt's revision agrees. */
  predicate Consistent(acts: seq<Action>) {
    Ascending(acts) && RevisionsAgree(acts)
  }

  predicate NextConsistent(acts: seq<Action>, act: Action) {
    && (acts == [] || acts[|acts| - 1].sequence < act.sequence)
    && (act.deployment.None? && act.abiSequence.Some? ==> act.abiSequence.value == Revision(acts, act.account))
  }

  lemma ConsistentSnoc(acts: seq<Action>, act: Action)
    requires Consistent(acts)
    ensures Consistent(acts + [act]) <==> NextConsistent(acts, act)
  {
    AscendingSnoc(acts, act);
    RevisionsAgreeSnoc(acts, act);
  }

  lemma ConsistentPrefix(acts: seq<Action>, more: seq<Action>)
    requires Consistent(acts + more)
    ensures Consistent(acts)
  {
    var all := acts + more;
    forall i | 0 <= i < |acts|
      ensures all[..i] == acts[..i] && all[i] == acts[i]
    {
    }
  }

  lemma RevisionsOfSnoc(revisions: map<string, nat>, acts: seq<Action>, act: Action)
    requires RevisionsOf(revisions, acts)
    ensures RevisionsOf(
      if act.deployment.Some?
      then revisions[act.deployment.value.0 := Revision(acts, act.deployment.value.0) + 1] else revisions, acts + [act])
  {
    hide Revision; hide LastDeployed;
    forall a: string
      ensures Revision(acts + [act], a)
        == Revision(acts, a) + if act.deployment.Some? && act.deployment.value.0 == a then 1 else 0
    {
      RevisionSnoc(acts, act, a);
    }
  }

  lemma ChangedOfSnoc(changed: map<string, Abi>, acts: seq<Action>, act: Action)
    requires ChangedOf(changed, acts, [])
    ensures ChangedOf(
      if act.deployment.Some? then changed[act.deployment.value.0 := act.deployment.value.1] else changed,
      acts + [act], [])
  {
    hide Revision; hide LastDeployed;
    forall a: string
      ensures LastDeployed(acts + [act], a) ==
        if act.deployment.Some? && act.deployment.value.0 == a then Some(act.deployment.value.1)
        else LastDeployed(acts, a)
    {
      RevisionSnoc(acts, act, a);
    }
  }

  /** What one receipt does: checked against the revisions, and counted when it deploys. */
  method TakeAction(ghost done: seq<Action>, ghost taken: seq<Action>, act: Action, block: nat,
                    revisions0: map<string, nat>, last: Option<nat>, changed0: map<string, Abi>)
    returns (ok: bool, revisions: map<string, nat>, changed: map<string, Abi>, out: seq<Record>)
    requires RevisionsOf(revisions0, done) && last == LastSequence(done) && ChangedOf(changed0, taken, [])
    ensures ok <==> NextConsistent(done, act)
    ensures ok ==> RevisionsOf(revisions, done + [act]) && ChangedOf(changed, taken + [act], [])
    ensures ok && act.deployment.Some? ==>
      var (account, abi) := act.deployment.value;
      out == [Deployed(account, block, abi, Revision(done + [act], account))]
    ensures ok && act.deployment.None? ==> out == []
  {
    hide Revision; hide LastDeployed;
    revisions, changed, out := revisions0, changed0, [];
    RevisionsOfSnoc(revisions0, done, act);
    ChangedOfSnoc(changed0, taken, act);
    if last.Some? && act.sequence <= last.value { return false, revisions, changed, out; }
    if act.deployment.Some? {
      var (account, abi) := act.deployment.value;
      var revision := (if account in revisions then revisions[account] else 0) + 1;
      revisions := revisions[account := revision];
      out := [Deployed(account, block, abi, revision)];
      changed := changed[account := abi];
    } else if act.abiSequence.Some? {
      if act.abiSequence.value != (if act.account in revisions then revisions[act.account] else 0) {
        return false, revisions, changed, out;
      }
    }
    ok := true;
  }

  /** The receipt loop of one block. */
  method TakeActions(ghost prior: seq<Action>, acts: seq<Action>, block: nat, revisions0: map<string, nat>,
                     last0: Option<nat>, records0: seq<Record>)
    returns (ok: bool, revisions: map<string, nat>, last: Option<nat>, changed: map<string, Abi>, records: seq<Record>)
    requires RevisionsOf(revisions0, prior) && last0 == LastSequence(prior) && Consistent(prior)
    ensures ok <==> Consistent(prior + acts)
    ensures ok ==> RevisionsOf(revisions, prior + acts) && last == LastSequence(prior + acts)
    ensures ok ==> ChangedOf(changed, acts, []) && records == records0 + DeploymentRecords(prior, acts, block)
  {
    hide Consistent; hide NextConsistent; hide Revision; hide LastDeployed; hide RevisionsOf; hide DeploymentRecords;
    revisions, last, changed, records := revisions0, last0, map[], records0;
    assert prior + acts[..0] == prior;
    NothingTaken(changed, prior, acts[..0], block, records0);
    for i := 0 to |acts|
      invariant Consistent(prior + acts[..i])
      invariant RevisionsOf(revisions, prior + acts[..i]) && last == LastSequence(prior + acts[..i])
      invariant ChangedOf(changed, acts[..i], [])
      invariant records == records0 + DeploymentRecords(prior, acts[..i], block)
    {
      var act := acts[i];
      ghost var done := prior + acts[..i];
      assert done + [act] == prior + acts[..i + 1] && acts[..i + 1] == acts[..i] + [act];
      ConsistentSnoc(done, act);
      DeploymentSnoc(prior, acts[..i], act, block, records0);
      var out;
      ok, revisions, changed, out := TakeAction(done, acts[..i], act, block, revisions, last, changed);
      if !ok {
        assert prior + acts == (done + [act]) + acts[i + 1..];
        if Consistent(prior + acts) { ConsistentPrefix(done + [act], acts[i + 1..]); }
        return;
      }
      last, records := Some(act.sequence), records + out;
    }
    assert acts[..|acts|] == acts;
    ok := true;
  }

  lemma NothingTaken(changed: map<string, Abi>, prior: seq<Action>, acts: seq<Action>, block: nat, records: seq<Record>)
    requires changed == map[] && acts == []
    ensures ChangedOf(changed, acts, []) && records == records + DeploymentRecords(prior, acts, block)
  {
    assert DeploymentRecords(prior, acts, block) == [];
  }

  lemma DeploymentSnoc(prior: seq<Action>, acts: seq<Action>, act: Action, block: nat, records: seq<Record>)
    ensures
      var out := if act.deployment.None? then [] else
                 var (account, abi) := act.deployment.value;
                 [Deployed(account, block, abi, Revision(prior + acts + [act], account))];
      records + DeploymentRecords(prior, acts + [act], block) == records + DeploymentRecords(prior, acts, block) + out
  {
    hide Revision;
    assert (acts + [act])[..|acts|] == acts;
    assert prior + (acts + [act]) == prior + acts + [act];
  }

  lemma {:induction false} LastRowIsMembership(rows: seq<Row>, a: string)
    ensures LastRow(rows, a).Some? <==> exists i :: 0 <= i < |rows| && rows[i].account == a
    ensures LastRow(rows, a).Some? ==>
      exists i :: 0 <= i < |rows| && rows[i].account == a && LastRow(rows, a) == Some(rows[i].State())
  {
    if rows != [] {
      LastRowIsMembership(rows[..|rows| - 1], a);
    }
  }

  lemma LastRowSnoc(rows: seq<Row>, row: Row, a: string)
    ensures LastRow(rows + [row], a) == if row.account == a then Some(row.State()) else LastRow(rows, a)
  {
    assert (rows + [row])[..|rows|] == rows;
  }

  lemma RowsExplainedSnoc(before: seq<Block>, acts: seq<Action>, rows: seq<Row>, row: Row)
    requires RowsExplained(before, acts, rows)
    ensures RowsExplained(before, acts, rows + [row]) <==>
      LastRow(rows, row.account).None? && RowExplained(before, acts, row)
  {
    hide LastRow; hide RowExplained;
    LastRowIsMembership(rows, row.account);
    var all := rows + [row];
    assert all[|rows|] == row;
    if RowsExplained(before, acts, all) {
      forall i | 0 <= i < |rows|
        ensures rows[i].account != row.account
      {
        assert all[i].account != all[|rows|].account;
      }
    }
  }

  lemma RowsExplainedPrefix(before: seq<Block>, acts: seq<Action>, rows: seq<Row>, more: seq<Row>)
    requires RowsExplained(before, acts, rows + more)
    ensures RowsExplained(before, acts, rows)
  {
    hide RowExplained;
    var all := rows + more;
    assert forall i :: 0 <= i < |rows| ==> all[i] == rows[i];
  }

  /** The state maps after one more row. */
  lemma TakenRow(before: seq<Block>, acts: seq<Action>, rows: seq<Row>, row: Row,
                 current: map<string, AccountState>, changed: map<string, Abi>, seen: set<string>)
    requires CurrentOf(current, before, rows) && ChangedOf(changed, acts, rows) && SeenOf(seen, rows)
    ensures CurrentOf(current[row.account := row.State()], before, rows + [row])
    ensures ChangedOf(changed - {row.account}, acts, rows + [row])
    ensures SeenOf(seen + {row.account}, rows + [row])
  {
    hide LastRow; hide StateAfter; hide LastDeployed;
    forall a: string
      ensures LastRow(rows + [row], a) == if row.account == a then Some(row.State()) else LastRow(rows, a)
    {
      LastRowSnoc(rows, row, a);
    }
    var changed' := changed - {row.account};
    assert forall a: string ::
      Lookup(changed', a) == if a == row.account then None else Lookup(changed, a);
  }

  ghost predicate SeenOf(seen: set<string>, rows: seq<Row>) {
    forall a: string :: a in seen <==> LastRow(rows, a).Some?
  }

  /** The checks of one row, and whether its final state is recorded. */
  method CheckRow(ghost before: seq<Block>, ghost acts: seq<Action>, ghost all: seq<Action>, row: Row, block: nat,
                  revisions: map<string, nat>, changed: map<string, Abi>, current: map<string, AccountState>)
    returns (ok: bool, out: seq<Record>)
    requires block == |before| + 1 && RevisionsOf(revisions, all)
    requires Lookup(changed, row.account) == LastDeployed(acts, row.account)
    requires Lookup(current, row.account) == StateAfter(before, row.account)
    ensures ok <==> RowExplained(before, acts, row)
    ensures ok ==> out == if Recorded(StateAfter(before, row.account), row.State())
                          then [BlockFinal(row.account, block, row.State(), Revision(all, row.account))] else []
  {
    hide LastRow; hide StateAfter; hide LastDeployed; hide Revision;
    var account, state := row.account, row.State();
    if account in changed {
      if !(state.present && state.abi == changed[account]) { return false, []; }
    } else if block != 1 {
      if !((account in current && current[account] == state) || !state.present
           || (account !in current && state.abi == [])) {
        return false, [];
      }
    }
    var different := account !in current || current[account] != state;
    out := [];
    if different && (state.abi != [] || account in current) {
      out := [BlockFinal(account, block, state, if account in revisions then revisions[account] else 0)];
    }
    ok := true;
  }

  /** The account-row loop of one block. */
  method TakeRows(ghost before: seq<Block>, ghost acts: seq<Action>, ghost all: seq<Action>, rows: seq<Row>, block: nat,
                  revisions: map<string, nat>, changed0: map<string, Abi>, current0: map<string, AccountState>,
                  records0: seq<Record>)
    returns (ok: bool, changed: map<string, Abi>, current: map<string, AccountState>, records: seq<Record>)
    requires block == |before| + 1 && RevisionsOf(revisions, all)
    requires CurrentOf(current0, before, []) && ChangedOf(changed0, acts, [])
    ensures ok <==> RowsExplained(before, acts, rows)
    ensures ok ==> CurrentOf(current, before, rows) && ChangedOf(changed, acts, rows)
    ensures ok ==> records == records0 + FinalRecords(before, all, rows, block)
  {
    hide LastRow; hide StateAfter; hide LastDeployed; hide RowsExplained; hide RowExplained;
    hide FinalRecords; hide RevisionsOf;
    changed, current, records := changed0, current0, records0;
    var seen: set<string> := {};
    assert rows[..0] == [];
    NoRows(before, acts, all, block, records0);
    for i := 0 to |rows|
      invariant RowsExplained(before, acts, rows[..i]) && SeenOf(seen, rows[..i])
      invariant CurrentOf(current, before, rows[..i]) && ChangedOf(changed, acts, rows[..i])
      invariant records == records0 + FinalRecords(before, all, rows[..i], block)
    {
      var row := rows[i];
      ghost var taken := rows[..i];
      assert rows[..i + 1] == taken + [row] && rows == (taken + [row]) + rows[i + 1..];
      RowsExplainedSnoc(before, acts, taken, row);
      FinalSnoc(before, all, taken, row, block, records0);
      TakenRow(before, acts, taken, row, current, changed, seen);
      ok := row.account !in seen;
      var out := [];
      if ok {
        ok, out := CheckRow(before, acts, all, row, block, revisions, changed, current);
      }
      if !ok {
        if RowsExplained(before, acts, rows) { RowsExplainedPrefix(before, acts, taken + [row], rows[i + 1..]); }
        return;
      }
      seen, changed := seen + {row.account}, changed - {row.account};
      current, records := current[row.account := row.State()], records + out;
    }
    assert rows[..|rows|] == rows;
    ok := true;
  }

  lemma NoRows(before: seq<Block>, acts: seq<Action>, all: seq<Action>, block: nat, records: seq<Record>)
    ensures RowsExplained(before, acts, []) && SeenOf({}, [])
    ensures records == records + FinalRecords(before, all, [], block)
  {
  }

  lemma FinalSnoc(before: seq<Block>, all: seq<Action>, rows: seq<Row>, row: Row, block: nat, records: seq<Record>)
    ensures
      var out := if Recorded(StateAfter(before, row.account), row.State())
                 then [BlockFinal(row.account, block, row.State(), Revision(all, row.account))] else [];
      records + FinalRecords(before, all, rows + [row], block) == records + FinalRecords(before, all, rows, block) + out
  {
    hide StateAfter; hide Revision;
    assert (rows + [row])[..|rows|] == rows;
  }

  predicate Ordered(s: seq<Action>) {
    forall i, j :: 0 <= i < j < |s| ==> s[i].sequence <= s[j].sequence
  }

  lemma {:induction false} InsertActionKeeps(a: Action, s: seq<Action>)
    ensures multiset(InsertAction(a, s)) == multiset(s) + multiset{a}
  {
    if !(s == [] || a.sequence < s[0].sequence) {
      InsertActionKeeps(a, s[1..]);
      assert s == [s[0]] + s[1..];
    }
  }

  lemma {:induction false} InsertActionSorts(a: Action, s: seq<Action>, least: nat)
    requires Ordered(s) && a.sequence >= least && forall i :: 0 <= i < |s| ==> s[i].sequence >= least
    ensures Ordered(InsertAction(a, s))
    ensures forall i :: 0 <= i < |InsertAction(a, s)| ==> InsertAction(a, s)[i].sequence >= least
  {
    if !(s == [] || a.sequence < s[0].sequence) {
      InsertActionSorts(a, s[1..], s[0].sequence);
    }
  }

  /** Sorting keeps the receipts and orders them. */
  lemma {:induction false} SortActionsSorts(s: seq<Action>)
    ensures
      var r := SortActions(s);
      multiset(r) == multiset(s) && Ordered(r)
  {
    if s != [] {
      var n := |s| - 1;
      SortActionsSorts(s[..n]);
      InsertActionKeeps(s[n], SortActions(s[..n]));
      InsertActionSorts(s[n], SortActions(s[..n]), 0);
      assert s == s[..n] + [s[n]];
    }
  }

  lemma SortKeepsMembers(s: seq<Action>, a: Action)
    ensures a in SortActions(s) <==> a in s
  {
    hide SortActions;
    SortActionsSorts(s);
    assert a in SortActions(s) <==> a in multiset(SortActions(s));
    assert a in s <==> a in multiset(s);
  }

  predicate SequenceIsNew(s: seq<Action>, a: Action) {
    forall i :: 0 <= i < |s| ==> s[i].sequence != a.sequence
  }

  /** Inserting into an ordered sequence gives an ascending one exactly when it was and the sequence is new. */
  lemma {:induction false} InsertAscends(a: Action, s: seq<Action>)
    requires Ordered(s)
    ensures Ascending(InsertAction(a, s)) <==> Ascending(s) && SequenceIsNew(s, a)
  {
    if s == [] || a.sequence < s[0].sequence {
      AscendingCons(a, s);
    } else {
      InsertAscends(a, s[1..]);
      InsertFront(a, s[1..]);
      AscendingCons(s[0], InsertAction(a, s[1..]));
      AscendingCons(s[0], s[1..]);
      assert s == [s[0]] + s[1..];
      assert SequenceIsNew(s, a) <==> SequenceIsNew(s[1..], a) && s[0].sequence != a.sequence;
      hide Ascending; hide SequenceIsNew;
    }
  }

  lemma AscendingCons(a: Action, s: seq<Action>)
    requires Ordered(s)
    ensures Ascending([a] + s) <==> Ascending(s) && (s != [] ==> a.sequence < s[0].sequence)
  {
    var all := [a] + s;
    assert forall i :: 0 <= i < |s| ==> s[i] == all[i + 1];
    if Ascending(all) && s != [] { assert all[0].sequence < all[1].sequence; }
  }

  lemma InsertFront(a: Action, s: seq<Action>)
    requires Ordered(s)
    ensures
      var r := InsertAction(a, s);
      r != [] && r[0].sequence == if s == [] || a.sequence < s[0].sequence then a.sequence else s[0].sequence
    ensures Ordered(InsertAction(a, s))
  {
    InsertActionSorts(a, s, 0);
  }

  /** Sorting gives strictly increasing sequences exactly when no two were equal. */
  lemma {:induction false} SortAscends(s: seq<Action>)
    ensures Ascending(SortActions(s)) <==> DistinctSequences(s)
    decreases |s|
  {
    if s != [] {
      hide SortActions; hide Ascending; hide DistinctSequences;
      var n := |s| - 1;
      assert s == s[..n] + [s[n]];
      SortAscends(s[..n]);
      SortSnoc(s[..n], s[n]);
    }
  }

  lemma SortSnoc(s: seq<Action>, a: Action)
    requires Ascending(SortActions(s)) <==> DistinctSequences(s)
    ensures Ascending(SortActions(s + [a])) <==> DistinctSequences(s + [a])
  {
    assert SortActions(s + [a]) == InsertAction(a, SortActions(s)) by { assert (s + [a])[..|s|] == s; }
    hide SortActions; hide Ascending; hide SequenceIsNew; hide DistinctSequences; hide Ordered; hide InsertAction;
    SortActionsSorts(s);
    InsertAscends(a, SortActions(s));
    NewSequence(s, a);
    DistinctSnoc(s, a);
  }

  lemma NewSequence(s: seq<Action>, a: Action)
    ensures SequenceIsNew(SortActions(s), a) <==> SequenceIsNew(s, a)
  {
    hide SortActions;
    var r := SortActions(s);
    forall i | 0 <= i < |r|
      ensures r[i] in s
    {
      SortKeepsMembers(s, r[i]);
    }
    forall i | 0 <= i < |s|
      ensures s[i] in r
    {
      SortKeepsMembers(s, s[i]);
    }
  }

  lemma DistinctSnoc(s: seq<Action>, a: Action)
    ensures DistinctSequences(s + [a]) <==> DistinctSequences(s) && SequenceIsNew(s, a)
  {
    var all := s + [a];
    assert forall i :: 0 <= i < |s| ==> s[i] == all[i];
    if DistinctSequences(all) {
      assert forall i :: 0 <= i < |s| ==> all[i].sequence != all[|s|].sequence;
    }
  }

  // The receipts of all blocks, sorted or not.

  lemma {:induction false} SameReceipts(blocks: seq<Block>, a: Action)
    ensures a in Receipts(blocks) <==> a in RawReceipts(blocks)
    decreases |blocks|
  {
    hide SortActions;
    if blocks != [] {
      SameReceipts(blocks[..|blocks| - 1], a);
      SortKeepsMembers(blocks[|blocks| - 1].actions, a);
    }
  }

  lemma AscendingConcat(x: seq<Action>, y: seq<Action>)
    ensures Ascending(x + y) <==> Ascending(x) && Ascending(y) && AllBefore(x, y)
  {
    var all := x + y;
    assert forall i :: 0 <= i < |x| ==> x[i] == all[i];
    assert forall i :: 0 <= i < |y| ==> y[i] == all[|x| + i];
    if Ascending(all) {
      forall a, b | a in x && b in y
        ensures a.sequence < b.sequence
      {
        var i, j :| 0 <= i < |x| && x[i] == a && 0 <= j < |y| && y[j] == b;
        assert all[i].sequence < all[|x| + j].sequence;
      }
    }
  }

  ghost predicate SameMembers(x: seq<Action>, y: seq<Action>) {
    forall a :: a in x <==> a in y
  }

  lemma AllBeforeOfSame(x: seq<Action>, x': seq<Action>, y: seq<Action>, y': seq<Action>)
    requires SameMembers(x, x') && SameMembers(y, y')
    ensures AllBefore(x, y) <==> AllBefore(x', y')
  {
  }

  lemma {:induction false} AllBeforeRaw(blocks: seq<Block>, y: seq<Action>)
    ensures AllBefore(RawReceipts(blocks), y) <==> forall k :: 0 <= k < |blocks| ==> AllBefore(blocks[k].actions, y)
    decreases |blocks|
  {
    if blocks != [] {
      var n := |blocks| - 1;
      AllBeforeRaw(blocks[..n], y);
      AllBeforeConcat(RawReceipts(blocks[..n]), blocks[n].actions, y);
      hide AllBefore; hide RawReceipts;
      assert forall k :: 0 <= k < n ==> blocks[..n][k] == blocks[k];
    }
  }

  lemma AllBeforeConcat(x: seq<Action>, z: seq<Action>, y: seq<Action>)
    ensures AllBefore(x + z, y) <==> AllBefore(x, y) && AllBefore(z, y)
  {
  }

  lemma SequencedSnoc(before: seq<Block>, blk: Block)
    ensures Sequenced(before + [blk]) <==>
      Sequenced(before) && DistinctSequences(blk.actions) && AllBefore(RawReceipts(before), blk.actions)
  {
    hide AllBefore; hide DistinctSequences; hide RawReceipts;
    var all, n := before + [blk], |before|;
    AllBeforeRaw(before, blk.actions);
    assert forall k :: 0 <= k < n ==> all[k] == before[k];
    if Sequenced(all) {
      assert DistinctSequences(all[n].actions);
      assert forall k :: 0 <= k < n ==> AllBefore(all[k].actions, all[n].actions);
    }
  }

  lemma {:induction false} ReceiptsAscend(blocks: seq<Block>)
    ensures Ascending(Receipts(blocks)) <==> Sequenced(blocks)
    decreases |blocks|
  {
    if blocks != [] {
      var n := |blocks| - 1;
      var before, acts := blocks[..n], blocks[n].actions;
      ReceiptsAscend(before);
      assert Receipts(blocks) == Receipts(before) + SortActions(acts) && blocks == before + [blocks[n]];
      hide Ascending; hide Sequenced; hide Receipts; hide RawReceipts; hide SortActions; hide AllBefore;
      AscendingConcat(Receipts(before), SortActions(acts));
      SortAscends(acts);
      SequencedSnoc(before, blocks[n]);
      assert SameMembers(Receipts(before), RawReceipts(before)) && SameMembers(SortActions(acts), acts) by {
        forall a: Action
          ensures (a in Receipts(before) <==> a in RawReceipts(before)) && (a in SortActions(acts) <==> a in acts)
        {
          SameReceipts(before, a);
          SortKeepsMembers(acts, a);
        }
      }
      AllBeforeOfSame(Receipts(before), RawReceipts(before), SortActions(acts), acts);
    }
  }

  lemma {:induction false} BelowConcat(x: seq<Action>, y: seq<Action>, a: string, limit: nat)
    ensures DeploymentsBelow(x + y, a, limit) == DeploymentsBelow(x, a, limit) + DeploymentsBelow(y, a, limit)
    decreases |y|
  {
    if y == [] {
      assert x + y == x;
    } else {
      BelowConcat(x, y[..|y| - 1], a, limit);
      assert (x + y)[..|x + y| - 1] == x + y[..|y| - 1];
    }
  }

  lemma {:induction false} BelowInsert(act: Action, s: seq<Action>, a: string, limit: nat)
    ensures DeploymentsBelow(InsertAction(act, s), a, limit)
         == DeploymentsBelow([act], a, limit) + DeploymentsBelow(s, a, limit)
    decreases |s|
  {
    hide DeploymentsBelow;
    if s == [] || act.sequence < s[0].sequence {
      BelowConcat([act], s, a, limit);
    } else {
      BelowInsert(act, s[1..], a, limit);
      BelowConcat([s[0]], InsertAction(act, s[1..]), a, limit);
      BelowConcat([s[0]], s[1..], a, limit);
      assert s == [s[0]] + s[1..];
    }
  }

  lemma {:induction false} BelowSort(s: seq<Action>, a: string, limit: nat)
    ensures DeploymentsBelow(SortActions(s), a, limit) == DeploymentsBelow(s, a, limit)
    decreases |s|
  {
    hide DeploymentsBelow; hide InsertAction;
    if s != [] {
      var n := |s| - 1;
      BelowSort(s[..n], a, limit);
      BelowInsert(s[n], SortActions(s[..n]), a, limit);
      BelowConcat(s[..n], [s[n]], a, limit);
      assert s == s[..n] + [s[n]];
    }
  }

  lemma {:induction false} BelowReceipts(blocks: seq<Block>, a: string, limit: nat)
    ensures DeploymentsBelow(Receipts(blocks), a, limit) == DeploymentsBelow(RawReceipts(blocks), a, limit)
    decreases |blocks|
  {
    hide DeploymentsBelow; hide SortActions;
    if blocks != [] {
      var before, acts := blocks[..|blocks| - 1], blocks[|blocks| - 1].actions;
      BelowReceipts(before, a, limit);
      BelowSort(acts, a, limit);
      BelowConcat(Receipts(before), SortActions(acts), a, limit);
      BelowConcat(RawReceipts(before), acts, a, limit);
    }
  }

  lemma {:induction false} BelowAll(acts: seq<Action>, a: string, limit: nat)
    ensures (forall i :: 0 <= i < |acts| ==> acts[i].sequence < limit) ==>
      DeploymentsBelow(acts, a, limit) == Revision(acts, a)
    ensures (forall i :: 0 <= i < |acts| ==> acts[i].sequence >= limit) ==> DeploymentsBelow(acts, a, limit) == 0
    decreases |acts|
  {
    if acts != [] { BelowAll(acts[..|acts| - 1], a, limit); }
  }

  /** In ascending receipts, the deployments before a receipt are those under a smaller sequence. */
  lemma BelowIsRevision(acts: seq<Action>, i: nat, a: string)
    requires Ascending(acts) && i < |acts|
    ensures DeploymentsBelow(acts, a, acts[i].sequence) == Revision(acts[..i], a)
  {
    hide DeploymentsBelow; hide Revision;
    var limit := acts[i].sequence;
    assert acts == acts[..i] + acts[i..];
    BelowConcat(acts[..i], acts[i..], a, limit);
    BelowAll(acts[..i], a, limit);
    BelowAll(acts[i..], a, limit);
  }

  lemma RevisionsAreCounts(acts: seq<Action>)
    requires Ascending(acts)
    ensures RevisionsAgree(acts) <==> forall a :: a in acts ==> CountsAmong(acts, a)
  {
    hide DeploymentsBelow; hide Revision;
    forall i: nat | i < |acts|
      ensures DeploymentsBelow(acts, acts[i].account, acts[i].sequence) == Revision(acts[..i], acts[i].account)
    {
      BelowIsRevision(acts, i, acts[i].account);
    }
    hide Ascending;
    if forall a :: a in acts ==> CountsAmong(acts, a) {
      forall i | 0 <= i < |acts| && acts[i].deployment.None? && acts[i].abiSequence.Some?
        ensures acts[i].abiSequence.value == Revision(acts[..i], acts[i].account)
      {
        assert CountsAmong(acts, acts[i]);
      }
    }
  }

  /**
   What the receipt checks amount to, on the blocks as they are: the receipts pass exactly when sequences
   are distinct and increase from block to block, and each primary receipt other than a setabi carries the
   number of deployments to its account under smaller sequences in the whole history.
   */
  lemma ReceiptsAreOrderedAndCounted(blocks: seq<Block>)
    ensures Consistent(Receipts(blocks)) <==> Sequenced(blocks) && Counted(blocks)
  {
    hide Ascending; hide RevisionsAgree; hide Sequenced; hide Receipts; hide RawReceipts; hide DeploymentsBelow;
    ReceiptsAscend(blocks);
    var acts, raw := Receipts(blocks), RawReceipts(blocks);
    if Ascending(acts) {
      RevisionsAreCounts(acts);
      forall a: Action
        ensures (a in acts <==> a in raw) && (CountsAmong(acts, a) <==> CountsAmong(raw, a))
      {
        SameReceipts(blocks, a);
        BelowReceipts(blocks, a.account, a.sequence);
      }
    }
  }

  lemma NoReceipts(blocks: seq<Block>)
    ensures Receipts(blocks) == [] <==> RawReceipts(blocks) == []
  {
    if Receipts(blocks) != [] { SameReceipts(blocks, Receipts(blocks)[0]); }
    if RawReceipts(blocks) != [] { SameReceipts(blocks, RawReceipts(blocks)[0]); }
  }

  /** The receipts of a block in global order; equal sequences are refused. */
  method OrderActions(raw: seq<Action>) returns (r: Option<seq<Action>>)
    ensures r == if Ascending(SortActions(raw)) then Some(SortActions(raw)) else None
  {
    var out := [];
    for i := 0 to |raw|
      invariant out == SortActions(raw[..i])
    {
      assert raw[..i + 1][..i] == raw[..i];
      out := InsertAction(raw[i], out);
    }
    assert raw[..|raw|] == raw;
    hide SortActions; hide InsertAction;
    for i := 0 to |out|
      invariant Ascending(out[..i])
    {
      assert out[..i + 1] == out[..i] + [out[i]];
      AscendingSnoc(out[..i], out[i]);
      if i > 0 && out[i - 1].sequence >= out[i].sequence { return None; }
    }
    assert out[..|out|] == out;
    return Some(out);
  }

  /** Deployments without a row of their own must show in the state kept. */
  lemma LeftOverDeployments(before: seq<Block>, acts: seq<Action>, rows: seq<Row>,
                            changed: map<string, Abi>, current: map<string, AccountState>)
    requires RowsExplained(before, acts, rows)
    requires CurrentOf(current, before, rows) && ChangedOf(changed, acts, rows)
    ensures DeploymentsShow(before, acts, rows) <==>
      forall a: string :: a in changed ==> a in current && current[a] == AccountState(true, changed[a])
  {
    hide LastRow; hide LastDeployed; hide StateAfter;
    forall a: string | LastDeployed(acts, a).Some?
      ensures OrElse(LastRow(rows, a), StateAfter(before, a)) == Some(AccountState(true, LastDeployed(acts, a).value))
        <==> (a in changed ==> a in current && current[a] == AccountState(true, changed[a]))
    {
      LastRowIsMembership(rows, a);
      assert Lookup(changed, a) == (if LastRow(rows, a).Some? then None else LastDeployed(acts, a));
      assert Lookup(current, a) == OrElse(LastRow(rows, a), StateAfter(before, a));
    }
    forall a: string | a in changed
      ensures LastDeployed(acts, a).Some?
    {
      assert Lookup(changed, a).Some?;
    }
  }

  lemma {:induction false} ReceiptsPrefix(blocks: seq<Block>, k: nat)
    requires k <= |blocks|
    ensures Receipts(blocks[..k]) <= Receipts(blocks)
  {
    if k == |blocks| {
      assert blocks[..k] == blocks;
    } else {
      ReceiptsPrefix(blocks[..|blocks| - 1], k);
      assert blocks[..|blocks| - 1][..k] == blocks[..k];
    }
  }

  lemma {:induction false} ExplainedPrefix(blocks: seq<Block>, k: nat)
    requires k <= |blocks| && BlocksExplained(blocks)
    ensures BlocksExplained(blocks[..k])
  {
    if k == |blocks| {
      assert blocks[..k] == blocks;
    } else {
      ExplainedPrefix(blocks[..|blocks| - 1], k);
      assert blocks[..|blocks| - 1][..k] == blocks[..k];
    }
  }

  /** Everything a completed history promises holds of its prefixes. */
  lemma SoundSoFar(blocks: seq<Block>, k: nat)
    requires k <= |blocks| && Sound(blocks)
    ensures Consistent(Receipts(blocks[..k])) && BlocksExplained(blocks[..k])
  {
    hide Consistent; hide BlocksExplained; hide Receipts; hide Sequenced; hide Counted;
    ReceiptsAreOrderedAndCounted(blocks);
    ReceiptsPrefix(blocks, k);
    ExplainedPrefix(blocks, k);
    var all, acts := Receipts(blocks), Receipts(blocks[..k]);
    assert all == acts + all[|acts|..];
    ConsistentPrefix(acts, all[|acts|..]);
  }

  /** One block of the scan. */
  method ScanBlock(ghost before: seq<Block>, blk: Block, block: nat, revisions0: map<string, nat>, last0: Option<nat>,
                   current0: map<string, AccountState>, records0: seq<Record>)
    returns (ok: bool, revisions: map<string, nat>, last: Option<nat>, current: map<string, AccountState>,
             records: seq<Record>)
    requires block == |before| + 1 && Consistent(Receipts(before))
    requires RevisionsOf(revisions0, Receipts(before)) && last0 == LastSequence(Receipts(before))
    requires CurrentOf(current0, before, []) && records0 == Records(before)
    ensures ok <==> Consistent(Receipts(before + [blk])) && RowsExplained(before, SortActions(blk.actions), blk.rows)
                    && DeploymentsShow(before, SortActions(blk.actions), blk.rows)
    ensures ok ==> RevisionsOf(revisions, Receipts(before + [blk])) && last == LastSequence(Receipts(before + [blk]))
    ensures ok ==> CurrentOf(current, before + [blk], []) && records == Records(before + [blk])
  {
    hide LastRow; hide LastDeployed; hide RowsExplained; hide Consistent; hide RevisionsOf; hide SortActions;
    hide DeploymentRecords; hide FinalRecords; hide DeploymentsShow; hide Ascending;
    ghost var acts := SortActions(blk.actions);
    assert (before + [blk])[..|before|] == before;
    assert Receipts(before + [blk]) == Receipts(before) + acts;
    revisions, last, current, records := revisions0, last0, current0, records0;
    var ordered := OrderActions(blk.actions);
    if ordered.None? {
      AscendingSuffix(Receipts(before), acts);
      return false, revisions, last, current, records;
    }
    var changed;
    ok, revisions, last, changed, records :=
      TakeActions(Receipts(before), ordered.value, block, revisions, last, records);
    if !ok { return; }
    ok, changed, current, records :=
      TakeRows(before, acts, Receipts(before) + acts, blk.rows, block, revisions, changed, current, records);
    if !ok { return; }
    LeftOverDeployments(before, acts, blk.rows, changed, current);
    ok := forall a | a in changed :: a in current && current[a] == AccountState(true, changed[a]);
    StatesAfterBlock(before, blk, current);
  }

  lemma AscendingSuffix(prior: seq<Action>, acts: seq<Action>)
    ensures Consistent(prior + acts) ==> Ascending(acts)
  {
    if Consistent(prior + acts) {
      var all := prior + acts;
      assert forall i :: 0 <= i < |acts| ==> acts[i] == all[|prior| + i];
    }
  }

  lemma StatesAfterBlock(before: seq<Block>, blk: Block, current: map<string, AccountState>)
    requires CurrentOf(current, before, blk.rows)
    ensures CurrentOf(current, before + [blk], [])
  {
    assert (before + [blk])[..|before|] == before;
    forall a: string
      ensures OrElse(LastRow([], a), StateAfter(before + [blk], a))
           == OrElse(LastRow(blk.rows, a), StateAfter(before, a))
    {
    }
  }

  /**
   The whole scan: it completes exactly on the histories that explain every ABI change, and then
   writes exactly their records.
   */
  method Scan(blocks: seq<Block>) returns (r: Option<seq<Record>>)
    ensures r.Some? <==> Sound(blocks)
    ensures r.Some? ==> r.value == Records(blocks)
  {
    hide Consistent; hide BlocksExplained; hide Receipts; hide Records; hide RevisionsOf; hide RowsExplained;
    hide DeploymentsShow; hide LastRow; hide StateAfter; hide Sequenced; hide Counted; hide RawReceipts;
    if |blocks| == 0 { return None; }
    var revisions: map<string, nat>, current: map<string, AccountState>, records: seq<Record> := map[], map[], [];
    var last: Option<nat> := None;
    NothingScanned();
    assert blocks[..0] == [];
    for k := 0 to |blocks|
      invariant Consistent(Receipts(blocks[..k])) && BlocksExplained(blocks[..k])
      invariant RevisionsOf(revisions, Receipts(blocks[..k])) && last == LastSequence(Receipts(blocks[..k]))
      invariant CurrentOf(current, blocks[..k], []) && records == Records(blocks[..k])
    {
      var ok;
      assert blocks[..k + 1] == blocks[..k] + [blocks[k]];
      ExplainedSnoc(blocks[..k], blocks[k]);
      ok, revisions, last, current, records :=
        ScanBlock(blocks[..k], blocks[k], k + 1, revisions, last, current, records);
      if !ok {
        if Sound(blocks) { SoundSoFar(blocks, k + 1); }
        return None;
      }
    }
    assert blocks[..|blocks|] == blocks;
    ReceiptsAreOrderedAndCounted(blocks);
    NoReceipts(blocks);
    if |blocks| != 1 && last.None? { return None; }
    return Some(records);
  }

  lemma NothingScanned()
    ensures Consistent(Receipts([])) && BlocksExplained([]) && RevisionsOf(map[], Receipts([]))
    ensures CurrentOf(map[], [], []) && Records([]) == [] && Receipts([]) == []
  {
  }

  lemma ExplainedSnoc(before: seq<Block>, blk: Block)
    ensures BlocksExplained(before + [blk]) <==>
      BlocksExplained(before) && RowsExplained(before, SortActions(blk.actions), blk.rows)
      && DeploymentsShow(before, SortActions(blk.actions), blk.rows)
  {
    assert (before + [blk])[..|before|] == before;
  }
}
