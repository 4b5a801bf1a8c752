/** Grouping the receipts of a transaction: one document per digest and canonical ordinal. */
module Receipts {
  import opened Bytes

  /** A processed action; `body` stands for the rest of its document. */
  datatype Proc = Proc(ordinal: nat, creator: nat, digest: string, receipt: string, body: string)

  datatype Doc = Doc(head: Proc, receipts: seq<string>)

  // Keys.

  function Decimal(n: nat): (s: string)
    ensures s != [] && forall i :: 0 <= i < |s| ==> '0' <= s[i] <= '9'
  {
    if n < 10 then [Digit(n)] else Decimal(n / 10) + [Digit(n % 10)]
  }

  function Key(digest: string, ordinal: nat): string {
    digest + [':'] + Decimal(ordinal)
  }

  lemma {:induction false} DecimalIsInjective(m: nat, n: nat)
    requires Decimal(m) == Decimal(n)
    ensures m == n
  {
    DecimalEnds(m);
    DecimalEnds(n);
    if m >= 10 && n >= 10 { DecimalIsInjective(m / 10, n / 10); }
  }

  lemma DecimalEnds(n: nat)
    ensures Decimal(n)[|Decimal(n)| - 1] == Digit(n % 10)
    ensures n < 10 ==> |Decimal(n)| == 1
    ensures n >= 10 ==> |Decimal(n)| > 1 && Decimal(n)[..|Decimal(n)| - 1] == Decimal(n / 10)
  {
  }

  /** Equal keys come from equal digests and ordinals, whatever characters the digest has. */
  lemma KeyIsInjective(d: string, m: nat, e: string, n: nat)
    requires Key(d, m) == Key(e, n)
    ensures d == e && m == n
  {
    hide Decimal;
    var k := Key(d, m);
    ColonIsLast(d, m);
    ColonIsLast(e, n);
    assert |d| == |e|;
    assert k[..|d|] == d && k[..|e|] == e;
    assert k[|d| + 1..] == Decimal(m) && k[|e| + 1..] == Decimal(n);
    DecimalIsInjective(m, n);
  }

  lemma ColonIsLast(d: string, m: nat)
    ensures |d| < |Key(d, m)| && Key(d, m)[|d|] == ':'
    ensures forall i :: |d| < i < |Key(d, m)| ==> Key(d, m)[i] != ':'
  {
    hide Decimal;
    forall i | |d| < i < |Key(d, m)|
      ensures Key(d, m)[i] != ':'
    {
      assert Key(d, m)[i] == Decimal(m)[i - |d| - 1];
    }
  }

  // Labels: digest and canonical ordinal.

  type Label = (string, nat)

  /** The digest of the last action with that ordinal. */
  function DigestOf(procs: seq<Proc>, ordinal: nat): Option<string> {
    if procs == [] then None
    else if procs[|procs| - 1].ordinal == ordinal then Some(procs[|procs| - 1].digest)
    else DigestOf(procs[..|procs| - 1], ordinal)
  }

  /** A notification, which repeats its creator's digest, counts under the creator. */
  function LabelOf(procs: seq<Proc>, p: Proc): Label {
    (p.digest, if p.creator > 0 && DigestOf(procs, p.creator) == Some(p.digest) then p.creator else p.ordinal)
  }

  function Labels(procs: seq<Proc>): (r: seq<Label>)
    ensures |r| == |procs|
  {
    seq(|procs|, i requires 0 <= i < |procs| => LabelOf(procs, procs[i]))
  }

  function ReceiptsOf(procs: seq<Proc>): (r: seq<string>)
    ensures |r| == |procs|
  {
    seq(|procs|, i requires 0 <= i < |procs| => procs[i].receipt)
  }

  // What grouping is to give.

  /** The items of one label, in order. */
  function Collect<L(==), R>(labels: seq<L>, items: seq<R>, l: L): seq<R>
    requires |labels| == |items|
  {
    if labels == [] then [] else
    var n := |labels| - 1;
    Collect(labels[..n], items[..n], l) + if labels[n] == l then [items[n]] else []
  }

  /** The first position of each label among the first `n`. */
  function Heads<L(==)>(labels: seq<L>, n: nat): (r: seq<nat>)
    requires n <= |labels|
    ensures forall i :: 0 <= i < |r| ==> r[i] < n
  {
    if n == 0 then [] else
    Heads(labels, n - 1) + if labels[n - 1] in labels[..n - 1] then [] else [n - 1]
  }

  function DocAt(procs: seq<Proc>, h: nat): Doc
    requires h < |procs|
  {
    Doc(procs[h], Collect(Labels(procs), ReceiptsOf(procs), Labels(procs)[h]))
  }

  function Docs(procs: seq<Proc>, heads: seq<nat>): (r: seq<Doc>)
    requires forall i :: 0 <= i < |heads| ==> heads[i] < |procs|
    ensures |r| == |heads| && forall i :: 0 <= i < |r| ==> r[i] == DocAt(procs, heads[i])
  {
    seq(|heads|, i requires 0 <= i < |heads| => DocAt(procs, heads[i]))
  }

  // What that means.

  /** The documents come in the order their labels first occur. */
  lemma {:induction false} HeadsAscend<L>(labels: seq<L>, n: nat)
    requires n <= |labels|
    ensures forall i, j :: 0 <= i < j < |Heads(labels, n)| ==> Heads(labels, n)[i] < Heads(labels, n)[j]
  {
    if n > 0 { HeadsAscend(labels, n - 1); }
  }

  lemma {:induction false} HeadsAreFirsts<L>(labels: seq<L>, n: nat, h: nat)
    requires n <= |labels|
    ensures h in Heads(labels, n) <==> h < n && labels[h] !in labels[..h]
  {
    if n > 0 { HeadsAreFirsts(labels, n - 1, h); }
  }

  lemma {:induction false} HeadExists<L>(labels: seq<L>, n: nat, j: nat) returns (d: nat)
    requires j < n <= |labels|
    ensures d < |Heads(labels, n)| && labels[Heads(labels, n)[d]] == labels[j]
    decreases n
  {
    if labels[n - 1] !in labels[..n - 1] && j == n - 1 {
      d := |Heads(labels, n)| - 1;
    } else if j < n - 1 {
      d := HeadExists(labels, n - 1, j);
    } else {
      var i :| 0 <= i < n - 1 && labels[..n - 1][i] == labels[n - 1];
      d := HeadExists(labels, n - 1, i);
    }
  }

  /** No two documents have the same label. */
  lemma HeadsDiffer<L>(labels: seq<L>, n: nat, c: nat, d: nat)
    requires n <= |labels| && c < d < |Heads(labels, n)|
    ensures labels[Heads(labels, n)[c]] != labels[Heads(labels, n)[d]]
  {
    hide Heads;
    var h := Heads(labels, n);
    HeadsAscend(labels, n);
    assert h[d] in h;
    HeadsAreFirsts(labels, n, h[d]);
    assert labels[..h[d]][h[c]] == labels[h[c]];
  }

  /** Action `j`'s receipt belongs to exactly one document, and two actions share it exactly when their labels agree. */
  lemma ExactlyOneDocument(procs: seq<Proc>, j: nat) returns (d: nat)
    requires j < |procs|
    ensures var heads := Heads(Labels(procs), |procs|);
            && d < |heads| && Labels(procs)[heads[d]] == Labels(procs)[j]
            && (forall c :: 0 <= c < |heads| && Labels(procs)[heads[c]] == Labels(procs)[j] ==> c == d)
  {
    hide Heads; hide Labels;
    d := HeadExists(Labels(procs), |procs|, j);
    var heads := Heads(Labels(procs), |procs|);
    forall c: nat | c < |heads| && c != d
      ensures Labels(procs)[heads[c]] != Labels(procs)[j]
    {
      if c < d { HeadsDiffer(Labels(procs), |procs|, c, d); } else { HeadsDiffer(Labels(procs), |procs|, d, c); }
    }
  }

  // Conservation.

  /** The items whose label is in `chosen`. */
  function Select<L(==), R>(labels: seq<L>, items: seq<R>, chosen: set<L>): seq<R>
    requires |labels| == |items|
  {
    if labels == [] then [] else
    var n := |labels| - 1;
    Select(labels[..n], items[..n], chosen) + if labels[n] in chosen then [items[n]] else []
  }

  lemma {:induction false} SelectGrows<L, R>(labels: seq<L>, items: seq<R>, chosen: set<L>, l: L)
    requires |labels| == |items| && l !in chosen
    ensures multiset(Select(labels, items, chosen + {l})) ==
            multiset(Select(labels, items, chosen)) + multiset(Collect(labels, items, l))
    decreases |labels|
  {
    if labels != [] {
      var n := |labels| - 1;
      SelectGrows(labels[..n], items[..n], chosen, l);
    }
  }

  lemma {:induction false} SelectAll<L, R>(labels: seq<L>, items: seq<R>, chosen: set<L>)
    requires |labels| == |items| && forall i :: 0 <= i < |labels| ==> labels[i] in chosen
    ensures Select(labels, items, chosen) == items
    decreases |labels|
  {
    if labels != [] {
      var n := |labels| - 1;
      SelectAll(labels[..n], items[..n], chosen);
      assert items == items[..n] + [items[n]];
    }
  }

  lemma {:induction false} SelectNone<L, R>(labels: seq<L>, items: seq<R>)
    requires |labels| == |items|
    ensures Select(labels, items, {}) == []
    decreases |labels|
  {
    if labels != [] { SelectNone(labels[..|labels| - 1], items[..|labels| - 1]); }
  }

  function AllReceipts(docs: seq<Doc>): seq<string> {
    if docs == [] then [] else AllReceipts(docs[..|docs| - 1]) + docs[|docs| - 1].receipts
  }

  lemma {:induction false} EmittedSoFar(procs: seq<Proc>, n: nat)
    requires n <= |procs|
    ensures multiset(AllReceipts(Docs(procs, Heads(Labels(procs), n)))) ==
            multiset(Select(Labels(procs), ReceiptsOf(procs), Elements(Labels(procs)[..n])))
  {
    hide Labels; hide ReceiptsOf; hide Select; hide Collect; hide DocAt;
    var labels, items := Labels(procs), ReceiptsOf(procs);
    if n == 0 {
      SelectNone(labels, items);
      assert Elements(labels[..0]) == {};
    } else {
      EmittedSoFar(procs, n - 1);
      var l := labels[n - 1];
      var before := Docs(procs, Heads(labels, n - 1));
      assert labels[..n] == labels[..n - 1] + [l];
      assert Elements(labels[..n]) == Elements(labels[..n - 1]) + {l};
      if l in labels[..n - 1] {
        assert Docs(procs, Heads(labels, n)) == before;
        assert Elements(labels[..n]) == Elements(labels[..n - 1]);
      } else {
        SelectGrows(labels, items, Elements(labels[..n - 1]), l);
        assert Docs(procs, Heads(labels, n)) == before + [DocAt(procs, n - 1)];
        AllReceiptsSnoc(before, DocAt(procs, n - 1));
        assert DocAt(procs, n - 1).receipts == Collect(labels, items, l) by { DocReceipts(procs, n - 1); }
      }
    }
  }

  lemma DocReceipts(procs: seq<Proc>, h: nat)
    requires h < |procs|
    ensures DocAt(procs, h).receipts == Collect(Labels(procs), ReceiptsOf(procs), Labels(procs)[h])
  {
  }

  lemma AllReceiptsSnoc(docs: seq<Doc>, d: Doc)
    ensures AllReceipts(docs + [d]) == AllReceipts(docs) + d.receipts
  {
    assert (docs + [d])[..|docs|] == docs;
  }

  /** No receipt is lost and none is repeated. */
  lemma ReceiptsAreConserved(procs: seq<Proc>)
    ensures multiset(AllReceipts(Docs(procs, Heads(Labels(procs), |procs|)))) == multiset(ReceiptsOf(procs))
  {
    hide Labels; hide ReceiptsOf; hide Heads; hide AllReceipts; hide Docs;
    var labels := Labels(procs);
    EmittedSoFar(procs, |procs|);
    assert labels[..|procs|] == labels;
    SelectAll(labels, ReceiptsOf(procs), Elements(labels));
  }

  // Which actions share a document, told from the actions alone.

  predicate DistinctOrdinals(procs: seq<Proc>) {
    forall i, j :: 0 <= i < j < |procs| ==> procs[i].ordinal != procs[j].ordinal
  }

  /** `j` is a notification of `i`: created by it, and a repetition of the same act. */
  predicate Notifies(procs: seq<Proc>, j: nat, i: nat)
    requires j < |procs| && i < |procs|
  {
    procs[j].creator == procs[i].ordinal > 0 && procs[j].digest == procs[i].digest
  }

  predicate IsNotification(procs: seq<Proc>, j: nat)
    requires j < |procs|
  {
    exists i: nat :: i < |procs| && Notifies(procs, j, i)
  }

  /** An action that is no notification shares with the notifications of it, and these with each other. */
  predicate Shares(procs: seq<Proc>, i: nat, j: nat)
    requires i < |procs| && j < |procs|
  {
    || i == j
    || (Notifies(procs, j, i) && !IsNotification(procs, i))
    || (Notifies(procs, i, j) && !IsNotification(procs, j))
    || exists c: nat :: c < |procs| && Notifies(procs, i, c) && Notifies(procs, j, c)
  }

  /** The receipts, among the first `n`, of the actions that share with `h`. */
  function SharedReceipts(procs: seq<Proc>, h: nat, n: nat): seq<string>
    requires h < |procs| && n <= |procs|
  {
    if n == 0 then [] else
    SharedReceipts(procs, h, n - 1) + if Shares(procs, h, n - 1) then [procs[n - 1].receipt] else []
  }

  predicate IsFirst(procs: seq<Proc>, h: nat)
    requires h < |procs|
  {
    forall i: nat :: i < h ==> !Shares(procs, i, h)
  }

  /** One document for each action that shares with none before it. */
  function Grouped(procs: seq<Proc>, n: nat): seq<Doc>
    requires n <= |procs|
  {
    if n == 0 then [] else
    Grouped(procs, n - 1)
    + if IsFirst(procs, n - 1) then [Doc(procs[n - 1], SharedReceipts(procs, n - 1, |procs|))] else []
  }

  lemma {:induction false} DigestOfOne(procs: seq<Proc>, i: nat)
    requires DistinctOrdinals(procs) && i < |procs|
    ensures DigestOf(procs, procs[i].ordinal) == Some(procs[i].digest)
    decreases |procs|
  {
    var n := |procs| - 1;
    if i < n {
      assert procs[..n][i] == procs[i];
      DigestOfOne(procs[..n], i);
    }
  }

  lemma {:induction false} DigestOfSome(procs: seq<Proc>, o: nat) returns (i: nat)
    requires DigestOf(procs, o).Some?
    ensures i < |procs| && procs[i].ordinal == o && DigestOf(procs, o) == Some(procs[i].digest)
    decreases |procs|
  {
    var n := |procs| - 1;
    if procs[n].ordinal == o { i := n; } else { i := DigestOfSome(procs[..n], o); }
  }

  /** The label of a notification is its creator's ordinal, and of any other action its own. */
  lemma LabelIsCanonical(procs: seq<Proc>, j: nat)
    requires DistinctOrdinals(procs) && j < |procs|
    ensures LabelOf(procs, procs[j]) ==
      (procs[j].digest, if IsNotification(procs, j) then procs[j].creator else procs[j].ordinal)
  {
    hide DigestOf;
    var p := procs[j];
    if DigestOf(procs, p.creator) == Some(p.digest) && p.creator > 0 {
      var i := DigestOfSome(procs, p.creator);
      assert Notifies(procs, j, i);
    }
    if IsNotification(procs, j) {
      var i: nat :| i < |procs| && Notifies(procs, j, i);
      DigestOfOne(procs, i);
    }
  }

  lemma LabelsAgreeExactly(procs: seq<Proc>, i: nat, j: nat)
    requires DistinctOrdinals(procs) && i < |procs| && j < |procs|
    ensures Labels(procs)[i] == Labels(procs)[j] <==> Shares(procs, i, j)
  {
    hide LabelOf; hide IsNotification;
    LabelIsCanonical(procs, i);
    LabelIsCanonical(procs, j);
    NotificationHasOne(procs, i);
    NotificationHasOne(procs, j);
  }

  /** A notification has exactly one creator. */
  lemma NotificationHasOne(procs: seq<Proc>, j: nat)
    requires DistinctOrdinals(procs) && j < |procs|
    ensures IsNotification(procs, j) ==> exists c: nat :: c < |procs| && Notifies(procs, j, c)
    ensures forall c: nat :: c < |procs| && Notifies(procs, j, c) ==> IsNotification(procs, j)
    ensures forall c: nat, e: nat ::
      c < |procs| && e < |procs| && Notifies(procs, j, c) && Notifies(procs, j, e) ==> c == e
  {
  }

  lemma {:induction false} CollectShared(procs: seq<Proc>, h: nat, n: nat)
    requires DistinctOrdinals(procs) && h < |procs| && n <= |procs|
    ensures Collect(Labels(procs)[..n], ReceiptsOf(procs)[..n], Labels(procs)[h]) == SharedReceipts(procs, h, n)
  {
    hide Labels; hide Shares; hide ReceiptsOf;
    if n > 0 {
      var labels, items := Labels(procs), ReceiptsOf(procs);
      CollectShared(procs, h, n - 1);
      LabelsAgreeExactly(procs, h, n - 1);
      assert labels[..n] == labels[..n - 1] + [labels[n - 1]] && items[..n] == items[..n - 1] + [items[n - 1]];
      CollectSnoc(labels[..n - 1], items[..n - 1], labels[n - 1], items[n - 1], labels[h]);
      assert items[n - 1] == procs[n - 1].receipt by { ReceiptAt(procs, n - 1); }
    }
  }

  lemma ReceiptAt(procs: seq<Proc>, i: nat)
    requires i < |procs|
    ensures ReceiptsOf(procs)[i] == procs[i].receipt
  {
  }

  lemma FirstIsNew(procs: seq<Proc>, h: nat)
    requires DistinctOrdinals(procs) && h < |procs|
    ensures IsFirst(procs, h) <==> Labels(procs)[h] !in Labels(procs)[..h]
  {
    hide Labels; hide Shares;
    forall i: nat | i < h
      ensures Shares(procs, i, h) <==> Labels(procs)[..h][i] == Labels(procs)[h]
    {
      LabelsAgreeExactly(procs, i, h);
    }
  }

  /** Grouping by label is grouping by who shares with whom. */
  lemma {:induction false} GroupedExactly(procs: seq<Proc>, n: nat)
    requires DistinctOrdinals(procs) && n <= |procs|
    ensures Docs(procs, Heads(Labels(procs), n)) == Grouped(procs, n)
  {
    hide Labels; hide IsFirst; hide SharedReceipts; hide DocAt; hide Collect; hide ReceiptsOf;
    if n > 0 {
      GroupedExactly(procs, n - 1);
      FirstIsNew(procs, n - 1);
      CollectShared(procs, n - 1, |procs|);
      var labels, items := Labels(procs), ReceiptsOf(procs);
      assert labels[..|procs|] == labels && items[..|procs|] == items;
      DocReceipts(procs, n - 1);
      assert DocAt(procs, n - 1).head == procs[n - 1] by { DocHead(procs, n - 1); }
    }
  }

  lemma DocHead(procs: seq<Proc>, h: nat)
    requires h < |procs|
    ensures DocAt(procs, h).head == procs[h]
  {
  }

  /** An action and the notifications of it are in one document. */
  lemma NotificationsJoin(procs: seq<Proc>, i: nat, j: nat, h: nat)
    requires DistinctOrdinals(procs) && i < |procs| && j < |procs| && h < |procs|
    requires Notifies(procs, j, i) && !IsNotification(procs, i)
    ensures Shares(procs, h, i) <==> Shares(procs, h, j)
  {
    hide IsNotification;
    NotificationHasOne(procs, h);
    NotificationHasOne(procs, i);
    NotificationHasOne(procs, j);
  }

  /** Two actions that are no notifications are never in one document. */
  lemma ActionsStayApart(procs: seq<Proc>, i: nat, j: nat, h: nat)
    requires DistinctOrdinals(procs) && i < |procs| && j < |procs| && i != j && h < |procs|
    requires !IsNotification(procs, i) && !IsNotification(procs, j)
    ensures !(Shares(procs, h, i) && Shares(procs, h, j))
  {
    hide IsNotification;
    NotificationHasOne(procs, h);
    NotificationHasOne(procs, i);
    NotificationHasOne(procs, j);
  }

  /** An inline action, whose creator has another digest or is absent, shares only with notifications of it. */
  lemma InlineStandsAlone(procs: seq<Proc>, i: nat, h: nat)
    requires DistinctOrdinals(procs) && i < |procs| && h < |procs| && h != i
    requires forall c: nat :: c < |procs| && procs[c].ordinal == procs[i].creator ==> procs[c].digest != procs[i].digest
    ensures Shares(procs, h, i) <==> Notifies(procs, h, i)
  {
  }

  lemma {:induction false} SharedReceiptIsSent(procs: seq<Proc>, h: nat, i: nat, n: nat)
    requires h < |procs| && i < n <= |procs| && Shares(procs, h, i)
    ensures procs[i].receipt in SharedReceipts(procs, h, n)
  {
    hide Shares;
    if i < n - 1 { SharedReceiptIsSent(procs, h, i, n - 1); }
  }

  lemma {:induction false} FirstIsSent(procs: seq<Proc>, h: nat, n: nat)
    requires h < n <= |procs| && IsFirst(procs, h)
    ensures Doc(procs[h], SharedReceipts(procs, h, |procs|)) in Grouped(procs, n)
  {
    hide IsFirst; hide SharedReceipts;
    if h < n - 1 { FirstIsSent(procs, h, n - 1); }
  }

  /** The document of action `i` is that of the one first action it shares with, and carries its receipt. */
  lemma DocumentOf(procs: seq<Proc>, i: nat) returns (h: nat)
    requires DistinctOrdinals(procs) && i < |procs|
    ensures h <= i && IsFirst(procs, h) && Shares(procs, h, i)
    ensures forall g: nat :: g < |procs| && IsFirst(procs, g) && Shares(procs, g, i) ==> g == h
    ensures Doc(procs[h], SharedReceipts(procs, h, |procs|)) in Grouped(procs, |procs|)
    ensures procs[i].receipt in SharedReceipts(procs, h, |procs|)
  {
    hide IsFirst; hide Shares; hide SharedReceipts; hide Grouped; hide Labels;
    var labels := Labels(procs);
    h := 0;
    while labels[h] != labels[i]
      invariant h <= i && labels[i] !in labels[..h]
      decreases i - h
    {
      assert labels[..h + 1] == labels[..h] + [labels[h]];
      h := h + 1;
    }
    LabelsAgreeExactly(procs, h, i);
    FirstIsNew(procs, h);
    FirstIsSent(procs, h, |procs|);
    SharedReceiptIsSent(procs, h, i, |procs|);
    forall g: nat | g < |procs| && IsFirst(procs, g) && Shares(procs, g, i)
      ensures g == h
    {
      LabelsAgreeExactly(procs, g, i);
      FirstIsNew(procs, g);
    }
  }

  /** So a notification's receipt goes out in the document of the action it repeats. */
  lemma NotificationIsCarried(procs: seq<Proc>, i: nat, j: nat) returns (d: Doc)
    requires DistinctOrdinals(procs) && i < |procs| && j < |procs|
    requires procs[j].creator == procs[i].ordinal > 0 && procs[j].digest == procs[i].digest
    requires !IsNotification(procs, i)
    ensures d in Grouped(procs, |procs|) && procs[i].receipt in d.receipts && procs[j].receipt in d.receipts
  {
    hide IsFirst; hide Shares; hide SharedReceipts; hide Grouped; hide IsNotification;
    var h := DocumentOf(procs, i);
    NotificationsJoin(procs, i, j, h);
    SharedReceiptIsSent(procs, h, j, |procs|);
    d := Doc(procs[h], SharedReceipts(procs, h, |procs|));
  }

  // The emitter, step by step.

  ghost predicate DigestsAre(m: map<nat, string>, procs: seq<Proc>) {
    forall o: nat :: DigestOf(procs, o) == if o in m then Some(m[o]) else None
  }

  method IndexDigests(procs: seq<Proc>) returns (m: map<nat, string>)
    ensures DigestsAre(m, procs)
  {
    m := map[];
    for i := 0 to |procs|
      invariant DigestsAre(m, procs[..i])
    {
      assert procs[..i + 1][..i] == procs[..i];
      m := m[procs[i].ordinal := procs[i].digest];
    }
    assert procs[..|procs|] == procs;
  }

  predicate KeysAre(keys: seq<string>, labels: seq<Label>) {
    |keys| == |labels| && forall i :: 0 <= i < |keys| ==> keys[i] == Key(labels[i].0, labels[i].1)
  }

  method MakeKeys(procs: seq<Proc>, digests: map<nat, string>) returns (keys: seq<string>)
    requires DigestsAre(digests, procs)
    ensures KeysAre(keys, Labels(procs))
  {
    hide Key; hide DigestOf;
    keys := [];
    for i := 0 to |procs|
      invariant |keys| == i && forall j :: 0 <= j < i ==> keys[j] == Key(Labels(procs)[j].0, Labels(procs)[j].1)
    {
      var p := procs[i];
      assert DigestOf(procs, p.creator) == if p.creator in digests then Some(digests[p.creator]) else None;
      var notified := p.creator > 0 && p.creator in digests && digests[p.creator] == p.digest;
      keys := keys + [Key(p.digest, if notified then p.creator else p.ordinal)];
    }
  }

  /** Keys agree exactly where labels do. */
  lemma KeysAgree(keys: seq<string>, labels: seq<Label>, i: nat, j: nat)
    requires KeysAre(keys, labels) && i < |keys| && j < |keys|
    ensures keys[i] == keys[j] <==> labels[i] == labels[j]
  {
    hide Key;
    if keys[i] == keys[j] { KeyIsInjective(labels[i].0, labels[i].1, labels[j].0, labels[j].1); }
  }

  lemma {:induction false} CollectAgrees<K, L, R>(keys: seq<K>, labels: seq<L>, items: seq<R>, k: K, l: L)
    requires |keys| == |labels| == |items| && forall i :: 0 <= i < |keys| ==> (keys[i] == k <==> labels[i] == l)
    ensures Collect(keys, items, k) == Collect(labels, items, l)
    decreases |keys|
  {
    if keys != [] { CollectAgrees(keys[..|keys| - 1], labels[..|keys| - 1], items[..|keys| - 1], k, l); }
  }

  predicate HoldsAt(m: map<string, seq<string>>, keys: seq<string>, items: seq<string>, k: string)
    requires |keys| == |items|
  {
    Collect(keys, items, k) == if k in m then m[k] else []
  }

  ghost predicate Holds(m: map<string, seq<string>>, keys: seq<string>, items: seq<string>)
    requires |keys| == |items|
  {
    (forall k :: HoldsAt(m, keys, items, k)) && forall i :: 0 <= i < |keys| ==> keys[i] in m
  }

  function Put(m: map<string, seq<string>>, k: string, r: string): map<string, seq<string>> {
    m[k := (if k in m then m[k] else []) + [r]]
  }

  lemma CollectSnoc<L, R>(labels: seq<L>, items: seq<R>, l: L, r: R, k: L)
    requires |labels| == |items|
    ensures Collect(labels + [l], items + [r], k) == Collect(labels, items, k) + if l == k then [r] else []
  {
    assert (labels + [l])[..|labels|] == labels && (items + [r])[..|items|] == items;
  }

  lemma HoldsStep(m: map<string, seq<string>>, keys: seq<string>, items: seq<string>, k: string, r: string)
    requires |keys| == |items| && Holds(m, keys, items)
    ensures Holds(Put(m, k, r), keys + [k], items + [r])
  {
    hide Collect;
    forall x: string
      ensures HoldsAt(Put(m, k, r), keys + [k], items + [r], x)
    {
      assert HoldsAt(m, keys, items, x);
      CollectSnoc(keys, items, k, r, x);
    }
  }

  method GroupReceipts(procs: seq<Proc>, keys: seq<string>) returns (m: map<string, seq<string>>)
    requires |keys| == |procs|
    ensures Holds(m, keys, ReceiptsOf(procs))
  {
    hide Collect; hide Holds; hide Put;
    m := map[];
    ghost var items := ReceiptsOf(procs);
    HoldsNone(keys, items);
    for i := 0 to |procs|
      invariant Holds(m, keys[..i], items[..i])
    {
      assert keys[..i + 1] == keys[..i] + [keys[i]] && items[..i + 1] == items[..i] + [items[i]];
      HoldsStep(m, keys[..i], items[..i], keys[i], items[i]);
      m := Put(m, keys[i], procs[i].receipt);
    }
    assert keys[..|keys|] == keys && items[..|items|] == items;
  }

  lemma HoldsNone(keys: seq<string>, items: seq<string>)
    requires |keys| == |items|
    ensures Holds(map[], keys[..0], items[..0])
  {
  }

  lemma GroupIsDoc(procs: seq<Proc>, keys: seq<string>, m: map<string, seq<string>>, h: nat)
    requires KeysAre(keys, Labels(procs)) && Holds(m, keys, ReceiptsOf(procs)) && h < |procs|
    ensures keys[h] in m && DocAt(procs, h) == Doc(procs[h], m[keys[h]])
  {
    hide Collect; hide Labels; hide ReceiptsOf; hide Key;
    var labels, items := Labels(procs), ReceiptsOf(procs);
    assert HoldsAt(m, keys, items, keys[h]);
    forall i: nat | i < |keys|
      ensures keys[i] == keys[h] <==> labels[i] == labels[h]
    {
      KeysAgree(keys, labels, i, h);
    }
    CollectAgrees(keys, labels, items, keys[h], labels[h]);
  }

  lemma NewKeyIsNewLabel(keys: seq<string>, labels: seq<Label>, i: nat)
    requires KeysAre(keys, labels) && i < |keys|
    ensures keys[i] in keys[..i] <==> labels[i] in labels[..i]
  {
    hide Key;
    forall j: nat | j < i
      ensures keys[..i][j] == keys[i] <==> labels[..i][j] == labels[i]
    {
      KeysAgree(keys, labels, i, j);
    }
  }

  lemma OneDoc(p: Proc)
    ensures Docs([p], Heads(Labels([p]), 1)) == [Doc(p, [p.receipt])]
  {
    var labels, items := Labels([p]), ReceiptsOf([p]);
    assert labels[..0] == [] && items[..0] == [];
    assert Heads(labels, 1) == [0];
    assert Collect(labels, items, labels[0]) == [p.receipt];
  }

  /** finalize_and_emit: the documents, in the order they are sent; the one-action shortcut included. */
  method Emit(procs: seq<Proc>) returns (docs: seq<Doc>)
    ensures docs == Docs(procs, Heads(Labels(procs), |procs|))
    ensures DistinctOrdinals(procs) ==> docs == Grouped(procs, |procs|)
  {
    hide Collect; hide Labels; hide DocAt; hide Holds; hide KeysAre; hide DistinctOrdinals; hide Grouped;
    if DistinctOrdinals(procs) { GroupedExactly(procs, |procs|); }
    docs := [];
    if procs == [] { return; }
    if |procs| == 1 {
      OneDoc(procs[0]);
      assert procs == [procs[0]];
      return [Doc(procs[0], [procs[0].receipt])];
    }
    var digests := IndexDigests(procs);
    var keys := MakeKeys(procs, digests);
    assert |keys| == |procs| by { KeysLength(keys, Labels(procs)); }
    var groups := GroupReceipts(procs, keys);
    ghost var labels := Labels(procs);
    var emitted: set<string> := {};
    for i := 0 to |procs|
      invariant emitted == Elements(keys[..i]) && docs == Docs(procs, Heads(labels, i))
    {
      NewKeyIsNewLabel(keys, labels, i);
      GroupIsDoc(procs, keys, groups, i);
      assert keys[..i + 1] == keys[..i] + [keys[i]];
      if keys[i] !in emitted {
        docs := docs + [Doc(procs[i], groups[keys[i]])];
        assert Heads(labels, i + 1) == Heads(labels, i) + [i];
      } else {
        assert Heads(labels, i + 1) == Heads(labels, i);
      }
      emitted := emitted + {keys[i]};
    }
  }

  lemma KeysLength(keys: seq<string>, labels: seq<Label>)
    requires KeysAre(keys, labels)
    ensures |keys| == |labels|
  {
  }
}
