/** The catalog rebuilt from the history, and the deployment it selects. */
module WireCatalog {
  import opened Bytes
  import opened Names
  import opened WireHistory
  import opened WireRecords
  import Search

  /** One catalog entry; no ABI when the account had none at this point. */
  datatype Deployment = Deployment(block: nat, abi: Option<Abi>)

  type Catalog = map<nat, seq<Deployment>>

  function EntryOf(r: Record): Deployment
    requires r.BlockFinal?
  {
    Deployment(r.block, if r.state.present && r.state.abi != [] then Some(r.state.abi) else None)
  }

  function Blocks(list: seq<Deployment>): (keys: seq<nat>)
    ensures |keys| == |list| && forall i :: 0 <= i < |list| ==> keys[i] == list[i].block
  {
    seq(|list|, i requires 0 <= i < |list| => list[i].block)
  }

  /** The account's latest entry at or before `block`, if it carries an ABI. */
  function Select(catalog: Catalog, code: nat, block: nat): Option<Abi> {
    if code !in catalog then None else
    var list := catalog[code];
    var pos := Search.Upper(Blocks(list), block);
    if pos == 0 then None else list[pos - 1].abi
  }

  // Loading.

  function Without(list: seq<Deployment>, block: nat): seq<Deployment> {
    if list == [] then [] else
    (if list[0].block == block then [] else [list[0]]) + Without(list[1..], block)
  }

  function InsertByBlock(d: Deployment, list: seq<Deployment>): seq<Deployment> {
    if list == [] || d.block < list[0].block then [d] + list else [list[0]] + InsertByBlock(d, list[1..])
  }

  function SortByBlock(list: seq<Deployment>): seq<Deployment> {
    if list == [] then [] else InsertByBlock(list[|list| - 1], SortByBlock(list[..|list| - 1]))
  }

  predicate Distinct(list: seq<Deployment>) {
    forall i, j :: 0 <= i < j < |list| ==> list[i].block != list[j].block
  }

  predicate Strict(list: seq<Deployment>) {
    forall i, j :: 0 <= i < j < |list| ==> list[i].block < list[j].block
  }

  /** A record of `code` that reaches the catalog. */
  predicate Concerns(r: Record, code: nat) {
    r.BlockFinal? && StringToName(r.account) == Some(code)
  }

  /**
   The entry that counts for `code` at block `b`, whatever the order of the lines: the highest
   block at or before `b`, and of two lines for one block the later one.
   */
  function Best(records: seq<Record>, code: nat, b: nat): Option<Deployment> {
    if records == [] then None else
    var r, best := records[|records| - 1], Best(records[..|records| - 1], code, b);
    if Concerns(r, code) && r.block <= b && (best.None? || best.value.block <= r.block) then Some(EntryOf(r)) else best
  }

  /** `r` is the entry of `list` with the highest block at or before `b`. */
  ghost predicate IsBest(list: seq<Deployment>, b: nat, r: Option<Deployment>) {
    match r
    case None => forall d <- list :: d.block > b
    case Some(best) => best in list && best.block <= b && forall d <- list :: d.block <= b ==> d.block <= best.block
  }

  ghost predicate Holds(list: seq<Deployment>, records: seq<Record>, code: nat) {
    Distinct(list) && forall b: nat :: IsBest(list, b, Best(records, code, b))
  }

  lemma {:induction false} WithoutDrops(list: seq<Deployment>, block: nat)
    ensures forall d :: d in Without(list, block) <==> d in list && d.block != block
    ensures Distinct(list) ==> Distinct(Without(list, block))
  {
    if list != [] {
      WithoutDrops(list[1..], block);
      assert list == [list[0]] + list[1..];
      var rest := Without(list[1..], block);
      if Distinct(list) {
        assert forall i :: 0 <= i < |rest| ==> rest[i] in list[1..];
        assert forall d <- list[1..] :: d.block != list[0].block;
      }
    }
  }

  lemma {:induction false} InsertKeepsStrict(d: Deployment, list: seq<Deployment>)
    requires Strict(list) && forall x <- list :: x.block != d.block
    ensures Strict(InsertByBlock(d, list))
    ensures forall x :: x in InsertByBlock(d, list) <==> x == d || x in list
  {
    if !(list == [] || d.block < list[0].block) {
      InsertKeepsStrict(d, list[1..]);
      assert list == [list[0]] + list[1..];
      var rest := InsertByBlock(d, list[1..]);
      assert InsertByBlock(d, list) == [list[0]] + rest;
      hide InsertByBlock;
      assert forall i :: 0 <= i < |rest| ==> rest[i] in rest;
    }
  }

  lemma {:induction false} SortIsStrict(list: seq<Deployment>)
    requires Distinct(list)
    ensures Strict(SortByBlock(list))
    ensures forall x :: x in SortByBlock(list) <==> x in list
  {
    if list != [] {
      var n := |list| - 1;
      SortIsStrict(list[..n]);
      assert list == list[..n] + [list[n]];
      InsertKeepsStrict(list[n], SortByBlock(list[..n]));
    }
  }

  /** Adding a line keeps the list's answer right for every block. */
  lemma AddLine(list: seq<Deployment>, records: seq<Record>, r: Record, code: nat)
    requires Holds(list, records, code) && Concerns(r, code)
    ensures Holds(Without(list, r.block) + [EntryOf(r)], records + [r], code)
  {
    hide Without; hide StringToName; hide Best;
    WithoutDrops(list, r.block);
    var kept := Without(list, r.block);
    var next := kept + [EntryOf(r)];
    assert forall i :: 0 <= i < |kept| ==> kept[i] in kept;
    forall b: nat
      ensures IsBest(next, b, Best(records + [r], code, b))
    {
      BestSnoc(records, r, code, b);
      assert IsBest(list, b, Best(records, code, b));
      assert EntryOf(r) in next;
    }
  }

  lemma BestSnoc(records: seq<Record>, r: Record, code: nat, b: nat)
    ensures Best(records + [r], code, b) ==
      var best := Best(records, code, b);
      if Concerns(r, code) && r.block <= b && (best.None? || best.value.block <= r.block) then
        Some(EntryOf(r))
      else
        best
  {
    assert (records + [r])[..|records|] == records;
  }

  lemma SkipLine(list: seq<Deployment>, records: seq<Record>, r: Record, code: nat)
    requires Holds(list, records, code) && !Concerns(r, code)
    ensures Holds(list, records + [r], code)
  {
    hide StringToName; hide Best;
    forall b: nat
      ensures IsBest(list, b, Best(records + [r], code, b))
    {
      BestSnoc(records, r, code, b);
      assert IsBest(list, b, Best(records, code, b));
    }
  }

  function ListOf(catalog: Catalog, code: nat): seq<Deployment> {
    if code in catalog then catalog[code] else []
  }

  /** Selecting in a sorted list finds the best entry. */
  lemma SelectFindsBest(list: seq<Deployment>, sorted: seq<Deployment>, records: seq<Record>, code: nat, b: nat)
    requires Holds(list, records, code) && sorted == SortByBlock(list)
    ensures
      var pos := Search.Upper(Blocks(sorted), b);
      (if pos == 0 then None else sorted[pos - 1].abi) ==
      (if Best(records, code, b).None? then None else Best(records, code, b).value.abi)
  {
    hide SortByBlock; hide Best; hide Search.Upper;
    SortIsStrict(list);
    var best, pos := Best(records, code, b), Search.Upper(Blocks(sorted), b);
    assert IsBest(list, b, best);
    if pos > 0 {
      var d := sorted[pos - 1];
      assert d in sorted && d.block == Blocks(sorted)[pos - 1] <= b;
      var k :| 0 <= k < |sorted| && sorted[k] == best.value;
      assert Blocks(sorted)[k] <= b;
    }
  }

  /** Loading succeeds exactly when every account name has an encoding, and the catalog then selects
      the entry that counts, for every account code and block. */
  method Load(records: seq<Record>) returns (r: Option<Catalog>)
    ensures r.Some? <==> forall i :: 0 <= i < |records| && records[i].BlockFinal? ==> Encodable(records[i].account)
    ensures r.Some? ==> forall code :: code in r.value ==> Strict(r.value[code])
    ensures r.Some? ==> forall code: nat, b: nat ::
      Select(r.value, code, b) == if Best(records, code, b).None? then None else Best(records, code, b).value.abi
  {
    hide StringToName; hide Best; hide Without; hide Encodable; hide Holds;
    var catalog: Catalog := map[];
    NoLines();
    assert records[..0] == [];
    for i := 0 to |records|
      invariant forall k :: 0 <= k < i && records[k].BlockFinal? ==> Encodable(records[k].account)
      invariant forall code: nat :: Holds(ListOf(catalog, code), records[..i], code)
    {
      var line := records[i];
      assert records[..i + 1] == records[..i] + [line];
      if !line.BlockFinal? {
        forall code: nat
          ensures Holds(ListOf(catalog, code), records[..i + 1], code)
        {
          SkipLine(ListOf(catalog, code), records[..i], line, code);
        }
        continue;
      }
      EncodableHasName(line.account);
      var code := StringToName(line.account);
      if code.None? { return None; }
      var list := Without(ListOf(catalog, code.value), line.block) + [EntryOf(line)];
      var next := catalog[code.value := list];
      forall c: nat
        ensures Holds(ListOf(next, c), records[..i + 1], c)
      {
        if c == code.value {
          AddLine(ListOf(catalog, c), records[..i], line, c);
        } else {
          SkipLine(ListOf(catalog, c), records[..i], line, c);
        }
      }
      catalog := next;
    }
    assert records[..|records|] == records;
    var sorted := map code | code in catalog :: SortByBlock(catalog[code]);
    forall code | code in sorted
      ensures Strict(sorted[code])
    {
      SortedAnswers(catalog, sorted, records, code, 0);
    }
    forall code: nat, b: nat
      ensures Select(sorted, code, b) == if Best(records, code, b).None? then None else Best(records, code, b).value.abi
    {
      SortedAnswers(catalog, sorted, records, code, b);
    }
    return Some(sorted);
  }

  lemma SortedAnswers(catalog: Catalog, sorted: Catalog, records: seq<Record>, code: nat, b: nat)
    requires sorted == map c | c in catalog :: SortByBlock(catalog[c])
    requires Holds(ListOf(catalog, code), records, code)
    ensures code in sorted ==> Strict(sorted[code])
    ensures Select(sorted, code, b) == if Best(records, code, b).None? then None else Best(records, code, b).value.abi
  {
    hide Best; hide IsBest; hide SortByBlock;
    SelectFindsBest(ListOf(catalog, code), SortByBlock(ListOf(catalog, code)), records, code, b);
    if code in catalog { SortIsStrict(catalog[code]); } else { NothingSorted(b); }
  }

  lemma NoLines()
    ensures forall code: nat :: Holds([], [], code)
  {
  }

  lemma NothingSorted(b: nat)
    ensures SortByBlock([]) == [] && Search.Upper(Blocks([]), b) == 0
  {
  }

  lemma EncodableHasName(s: string)
    ensures Encodable(s) <==> StringToName(s).Some?
  {
  }

  /** The lookup by binary search. */
  method SelectEntry(catalog: Catalog, code: nat, block: nat) returns (r: Option<Abi>)
    requires forall c :: c in catalog ==> Strict(catalog[c])
    ensures r == Select(catalog, code, block)
  {
    if code !in catalog { return None; }
    var pos := Search.PartitionPoint(Blocks(catalog[code]), block);
    if pos == 0 { return None; }
    return catalog[code][pos - 1].abi;
  }

  // The catalog of a completed scan.

  function NonEmpty(abi: Abi): Option<Abi> {
    if abi == [] then None else Some(abi)
  }

  /** `x` is not another spelling of `a`. */
  predicate Spells(x: string, a: string) {
    StringToName(x) == StringToName(a) ==> x == a
  }

  /** No account row of the history spells `a` in another way. */
  ghost predicate OneSpelling(blocks: seq<Block>, a: string) {
    forall k, i :: 0 <= k < |blocks| && 0 <= i < |blocks[k].rows| ==> Spells(blocks[k].rows[i].account, a)
  }

  /** Names rendered from the chain, which have no trailing dots, meet that. */
  lemma CanonicalNamesHaveOneSpelling(blocks: seq<Block>, a: string)
    requires Encodable(a) && Canonical(a)
    requires forall k, i :: 0 <= k < |blocks| && 0 <= i < |blocks[k].rows| ==> Canonical(blocks[k].rows[i].account)
    ensures OneSpelling(blocks, a)
  {
    hide StringToName; hide Encodable; hide Canonical;
    forall k, i | 0 <= k < |blocks| && 0 <= i < |blocks[k].rows|
      ensures Spells(blocks[k].rows[i].account, a)
    {
      var x := blocks[k].rows[i].account;
      EncodableHasName(x);
      EncodableHasName(a);
      if StringToName(x) == StringToName(a) { EncodingIsInjective(x, a); }
    }
  }

  /** Records in block order, none above `top`, finals under one spelling of `a`. */
  ghost predicate InOrder(records: seq<Record>, top: nat, a: string) {
    && (forall i :: 0 <= i < |records| ==> records[i].block <= top)
    && (forall i, j :: 0 <= i < j < |records| ==> records[i].block <= records[j].block)
    && (forall i :: 0 <= i < |records| && records[i].BlockFinal? ==> Spells(records[i].account, a))
  }

  predicate FiledAt(r: Record, block: nat, a: string) {
    r.block == block && (r.BlockFinal? ==> Spells(r.account, a))
  }

  predicate AllFiledAt(rs: seq<Record>, block: nat, a: string) {
    forall i :: 0 <= i < |rs| ==> FiledAt(rs[i], block, a)
  }

  lemma {:induction false} DeploymentsOfBlock(prior: seq<Action>, acts: seq<Action>, block: nat, a: string)
    ensures AllFiledAt(DeploymentRecords(prior, acts, block), block, a)
  {
    hide Revision; hide Spells;
    if acts != [] { DeploymentsOfBlock(prior, acts[..|acts| - 1], block, a); }
  }

  lemma {:induction false} FinalsUnderRowNames(before: seq<Block>, acts: seq<Action>, rows: seq<Row>, block: nat,
                                                     a: string)
    requires forall i :: 0 <= i < |rows| ==> Spells(rows[i].account, a)
    ensures AllFiledAt(FinalRecords(before, acts, rows, block), block, a)
  {
    hide Revision; hide StateAfter; hide Spells;
    if rows != [] {
      FinalsUnderRowNames(before, acts, rows[..|rows| - 1], block, a);
    }
  }

  lemma {:induction false} RecordsInOrder(blocks: seq<Block>, a: string)
    requires OneSpelling(blocks, a)
    ensures InOrder(Records(blocks), |blocks|, a)
  {
    hide DeploymentRecords; hide FinalRecords; hide Receipts; hide SortActions; hide Spells;
    if blocks != [] {
      var n := |blocks| - 1;
      var before, acts := blocks[..n], SortActions(blocks[n].actions);
      RecordsInOrder(before, a);
      DeploymentsOfBlock(Receipts(before), acts, n + 1, a);
      FinalsUnderRowNames(before, Receipts(before) + acts, blocks[n].rows, n + 1, a);
      InOrderConcat(Records(before), DeploymentRecords(Receipts(before), acts, n + 1)
                                     + FinalRecords(before, Receipts(before) + acts, blocks[n].rows, n + 1), n, a);
    }
  }

  lemma InOrderConcat(x: seq<Record>, y: seq<Record>, top: nat, a: string)
    requires InOrder(x, top, a) && AllFiledAt(y, top + 1, a)
    ensures InOrder(x + y, top + 1, a)
  {
    hide Spells;
    assert forall i :: 0 <= i < |y| ==> FiledAt(y[i], top + 1, a);
  }

  /** In block order the entry that counts is the last one. */
  lemma {:induction false} BestIsLast(records: seq<Record>, a: string, b: nat, top: nat)
    requires InOrder(records, top, a) && StringToName(a).Some?
    ensures
      var best, last := Best(records, StringToName(a).value, b), LastFinal(records, a, b);
      (best.Some? <==> last.Some?)
      && (best.Some? ==> best.value.block <= top)
      && (best.Some? ==>
            best.value.abi == if last.value.present && last.value.abi != [] then Some(last.value.abi) else None)
  {
    hide StringToName;
    if records != [] {
      var n := |records| - 1;
      var r := records[n];
      assert InOrder(records[..n], r.block, a);
      BestIsLast(records[..n], a, b, r.block);
    }
  }

  lemma {:induction false} AbsentHasNoAbi(blocks: seq<Block>, a: string)
    ensures StateAfter(blocks, a).Some? && !StateAfter(blocks, a).value.present ==>
      StateAfter(blocks, a).value.abi == []
  {
    if blocks != [] {
      LastRowIsMembership(blocks[|blocks| - 1].rows, a);
      AbsentHasNoAbi(blocks[..|blocks| - 1], a);
    }
  }

  /**
   The catalog loaded from a completed scan finds an ABI for an account at a block exactly when the
   chain gave it a non-empty one, and then finds that one; unless the history spells the account in
   another way too, since both spellings share an entry.
   */
  lemma SelectMatchesChain(blocks: seq<Block>, catalog: Catalog, a: string, b: nat)
    requires Sound(blocks) && StringToName(a).Some? && OneSpelling(blocks, a) && b <= |blocks|
    requires Select(catalog, StringToName(a).value, b) ==
      var best := Best(Records(blocks), StringToName(a).value, b);
      if best.None? then None else best.value.abi
    ensures Select(catalog, StringToName(a).value, b) == NonEmpty(AbiOf(StateAfter(blocks[..b], a)))
  {
    hide Records; hide Best; hide Select; hide LastFinal; hide StateAfter; hide StringToName; hide Sound;
    hide InOrder; hide OneSpelling;
    RecordsInOrder(blocks, a);
    BestIsLast(Records(blocks), a, b, |blocks|);
    assert BlocksExplained(blocks) by { SoundIsExplained(blocks); }
    RecordsStandForStates(blocks, a, b);
    AbsentHasNoAbi(blocks[..b], a);
  }

  lemma SoundIsExplained(blocks: seq<Block>)
    requires Sound(blocks)
    ensures BlocksExplained(blocks)
  {
  }

  /** The one-block history in which `a` and `x` come with different ABIs. */
  function TwoRows(a: string, own: Abi, x: string, other: Abi): seq<Block> {
    [Block([Row(a, true, own), Row(x, true, other)], [])]
  }

  /** Any other spelling can mislead: some history the scan completes gives `a` one ABI, and the catalog
      answers for `a` with the other spelling's. */
  lemma SpellingsShareAnEntry(a: string, own: Abi, x: string, other: Abi)
    requires StringToName(a).Some? && !Spells(x, a) && own != [] && other != []
    ensures
      var blocks := TwoRows(a, own, x, other);
      Sound(blocks) && StateAfter(blocks, a) == Some(AccountState(true, own))
      && Best(Records(blocks), StringToName(a).value, 1) == Some(Deployment(1, Some(other)))
  {
    hide StringToName;
    var blocks := TwoRows(a, own, x, other);
    var rows := blocks[0].rows;
    assert rows[..1] == [Row(a, true, own)];
    assert LastRow(rows, a) == LastRow(rows[..1], a) == Some(AccountState(true, own));
    TwoRowsAreSound(a, own, x, other);
    TwoRowsAreRecorded(a, own, x, other);
    BestSnoc([BlockFinal(a, 1, rows[0].State(), 0)], BlockFinal(x, 1, rows[1].State(), 0), StringToName(a).value, 1);
  }

  lemma TwoRowsAreSound(a: string, own: Abi, x: string, other: Abi)
    requires x != a
    ensures Sound(TwoRows(a, own, x, other))
  {
    var blocks := TwoRows(a, own, x, other);
    assert blocks[..0] == [] && RawReceipts(blocks[..0]) == [] && RawReceipts(blocks) == [];
    assert BlocksExplained(blocks[..0]) && SortActions(blocks[0].actions) == [];
    assert forall b: string :: LastDeployed([], b) == None;
    assert RowsExplained([], [], blocks[0].rows);
  }

  lemma TwoRowsAreRecorded(a: string, own: Abi, x: string, other: Abi)
    requires own != [] && other != []
    ensures Records(TwoRows(a, own, x, other)) ==
      [BlockFinal(a, 1, AccountState(true, own), 0)] + [BlockFinal(x, 1, AccountState(true, other), 0)]
  {
    var blocks := TwoRows(a, own, x, other);
    var rows := blocks[0].rows;
    assert blocks[..0] == [] && rows[..1] == [Row(a, true, own)] && rows[..1][..0] == [];
    assert FinalRecords([], [], rows[..1], 1) == [BlockFinal(a, 1, AccountState(true, own), 0)];
  }

  /** There are such spellings: a trailing dot makes one. */
  lemma TrailingDotIsASpelling()
    ensures StringToName("a").Some? && !Spells("a.", "a")
  {
    assert Sym('a').Some? && Sym('.') == Some(0);
    assert Encodable("a") && Encodable("a.");
    assert PaddedSymbols("a") == PaddedSymbols("a.");
  }

  /** Every final record's account has a name the catalog can file it under. */
  predicate Fileable(records: seq<Record>) {
    forall i :: 0 <= i < |records| && records[i].BlockFinal? ==> Encodable(records[i].account)
  }

  /** From blocks to answers: scan, load, select. */
  method ScanLoadSelect(blocks: seq<Block>, a: string, b: nat) returns (r: Option<Option<Abi>>)
    requires Encodable(a) && b <= |blocks|
    ensures r.Some? <==> Sound(blocks) && Fileable(Records(blocks))
    ensures r.Some? && OneSpelling(blocks, a) ==> r.value == NonEmpty(AbiOf(StateAfter(blocks[..b], a)))
  {
    hide Records; hide Best; hide Select; hide StateAfter; hide Sound; hide BlocksExplained; hide OneSpelling;
    hide StringToName; hide Encodable;
    EncodableHasName(a);
    var records := Scan(blocks);
    if records.None? { return None; }
    var catalog := Load(records.value);
    if catalog.None? { return None; }
    if OneSpelling(blocks, a) { SelectMatchesChain(blocks, catalog.value, a, b); }
    var abi := SelectEntry(catalog.value, StringToName(a).value, b);
    return Some(abi);
  }
}
