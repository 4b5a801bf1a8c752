/** Assembling the log files of one kind into a contiguous catalog, and looking blocks up in it. */
module LogCatalog {
  import opened Bytes
  import Search

  /** A log file: the blocks `[begin, end)` it holds, its first and last ids when they can be read,
      and its place in the order found. */
  datatype LogFile = LogFile(begin: nat, end: nat, ids: Option<(seq<byte>, seq<byte>)>, found: nat) {
    predicate Holds(n: nat) { begin <= n < end }
  }

  predicate SameRange(x: LogFile, y: LogFile) {
    x.begin == y.begin && x.end == y.end
  }

  /** Equal ranges whose known end ids agree; files with unknown ids are nobody's copies. */
  predicate Copies(x: LogFile, y: LogFile) {
    SameRange(x, y) && x.ids.Some? && x.ids == y.ids
  }

  predicate Disjoint(x: LogFile, y: LogFile) {
    x.end <= y.begin || y.end <= x.begin
  }

  /** Opened files in the order found; none is empty. */
  predicate Listed(logs: seq<LogFile>) {
    && (forall i :: 0 <= i < |logs| ==> logs[i].begin < logs[i].end)
    && (forall i, j :: 0 <= i < j < |logs| ==> logs[i].found < logs[j].found)
  }

  predicate InWindow(x: LogFile, window: Option<(nat, nat)>) {
    window.Some? ==> x.begin < window.value.1 && window.value.0 < x.end
  }

  /** Any two files are copies of each other or share no block, and no block between two of them is
      missing. */
  ghost predicate Contiguous(logs: set<LogFile>) {
    && (forall x, y :: x in logs && y in logs && x != y ==> Copies(x, y) || Disjoint(x, y))
    && (forall x, y, n: nat :: x in logs && y in logs && x.begin <= n < y.end ==> Held(logs, n))
  }

  ghost predicate Held(logs: set<LogFile>, n: nat) {
    exists z :: z in logs && z.Holds(n)
  }

  /** Those files that meet the window. */
  ghost function Candidates(logs: seq<LogFile>, window: Option<(nat, nat)>): set<LogFile> {
    set x | x in logs && InWindow(x, window)
  }

  // The stable sort by range.

  /** The order of the sorted list: by range, then by the order found. */
  predicate Before(x: LogFile, y: LogFile) {
    x.begin < y.begin || (x.begin == y.begin && (x.end < y.end || (x.end == y.end && x.found < y.found)))
  }

  predicate Sorted(s: seq<LogFile>) {
    forall i, j :: 0 <= i < j < |s| ==> Before(s[i], s[j])
  }

  /** After every file with the same or a smaller range. */
  function InsertFile(x: LogFile, s: seq<LogFile>): seq<LogFile> {
    if s == [] || x.begin < s[0].begin || (x.begin == s[0].begin && x.end < s[0].end) then [x] + s
    else [s[0]] + InsertFile(x, s[1..])
  }

  lemma {:induction false} InsertFileSorts(x: LogFile, s: seq<LogFile>)
    requires Sorted(s) && forall y <- s :: y.found < x.found
    ensures Sorted(InsertFile(x, s))
    ensures Elements(InsertFile(x, s)) == Elements(s) + {x}
  {
    if s == [] || x.begin < s[0].begin || (x.begin == s[0].begin && x.end < s[0].end) {
      assert forall y :: y in [x] + s <==> y == x || y in s;
    } else {
      InsertFileSorts(x, s[1..]);
      assert forall y :: y in s <==> y == s[0] || y in s[1..];
      var rest := InsertFile(x, s[1..]);
      assert forall y :: y in [s[0]] + rest <==> y == s[0] || y in Elements(rest);
      forall i | 0 <= i < |rest|
        ensures Before(s[0], rest[i])
      {
        assert rest[i] in Elements(rest);
      }
    }
  }

  method SelectAndSort(logs: seq<LogFile>, window: Option<(nat, nat)>) returns (s: seq<LogFile>)
    requires Listed(logs)
    ensures Sorted(s) && Elements(s) == Candidates(logs, window)
  {
    hide InsertFile;
    s := [];
    for i := 0 to |logs|
      invariant Sorted(s) && Elements(s) == Candidates(logs[..i], window)
    {
      assert forall y :: y in logs[..i + 1] <==> y == logs[i] || y in logs[..i];
      if InWindow(logs[i], window) {
        forall y | y in s
          ensures y.found < logs[i].found
        {
          assert y in Elements(s);
        }
        InsertFileSorts(logs[i], s);
        s := InsertFile(logs[i], s);
      }
    }
    assert logs[..|logs|] == logs;
  }

  // The assembly loop.

  datatype Assembled = Refused | Files(files: seq<LogFile>)

  /** No file is empty, and successive files leave no gap. */
  predicate Chain(files: seq<LogFile>) {
    && (forall i :: 0 <= i < |files| ==> files[i].begin < files[i].end)
    && (forall i :: 0 < i < |files| ==> files[i].begin == files[i - 1].end)
  }

  /** `f` is kept for `x`: it is `x`, or a copy of it that comes before it. */
  predicate KeptFor(f: LogFile, x: LogFile) {
    f == x || (Copies(f, x) && Before(f, x))
  }

  /** The files kept of `s`: file `k` is `s[at[k]]`, and `s[i]` is represented by file `own[i]`. */
  predicate Kept(files: seq<LogFile>, s: seq<LogFile>, at: seq<nat>, own: seq<nat>) {
    && Chain(files) && |at| == |files| && |own| == |s|
    && (forall k :: 0 <= k < |files| ==> at[k] < |s| && s[at[k]] == files[k])
    && (forall i :: 0 <= i < |s| ==> own[i] < |files| && KeptFor(files[own[i]], s[i]))
  }

  /** Something is wrong with `s`: two files clash, or a block is missing. */
  ghost predicate Broken(s: seq<LogFile>) {
    || (exists x, y :: x in s && y in s && x != y && !Copies(x, y) && !Disjoint(x, y))
    || (exists x, y, n: nat :: x in s && y in s && x.begin <= n < y.end && !Held(Elements(s), n))
  }

  lemma BrokenIsNotContiguous(s: seq<LogFile>)
    ensures Broken(s) ==> !Contiguous(Elements(s))
  {
    assert forall x :: x in s <==> x in Elements(s);
  }

  /** `s[r]` reaches furthest among the first `i` files. */
  predicate Furthest(s: seq<LogFile>, i: nat, r: nat)
    requires r < i <= |s|
  {
    forall k :: 0 <= k < i ==> s[k].end <= s[r].end
  }

  lemma HoleIsBroken(s: seq<LogFile>, i: nat, r: nat)
    requires Sorted(s) && r < i < |s| && Furthest(s, i, r)
    requires s[r].begin < s[r].end < s[i].begin < s[i].end
    ensures Broken(s)
  {
    var n := s[r].end;
    forall k | 0 <= k < |s|
      ensures !s[k].Holds(n)
    {
    }
    assert s[r] in s && s[i] in s && s[r].begin <= n < s[i].end && !Held(Elements(s), n);
  }

  lemma ClashIsBroken(s: seq<LogFile>, i: nat, r: nat)
    requires Sorted(s) && r < i < |s| && s[r].begin < s[r].end && s[i].begin < s[i].end
    requires s[i].begin < s[r].end && !Copies(s[r], s[i])
    ensures Broken(s)
  {
    assert Before(s[r], s[i]);
    assert s[r] in s && s[i] in s && s[r] != s[i] && !Disjoint(s[r], s[i]);
  }

  lemma {:induction false} ChainCovers(files: seq<LogFile>, k: nat, n: nat) returns (m: nat)
    requires Chain(files) && k < |files| && files[k].begin <= n < files[|files| - 1].end
    ensures m < |files| && files[m].Holds(n)
    decreases |files| - k
  {
    if n < files[k].end {
      m := k;
    } else {
      m := ChainCovers(files, k + 1, n);
    }
  }

  lemma {:induction false} ChainIsOrdered(files: seq<LogFile>, i: nat, j: nat)
    requires Chain(files) && i < j < |files|
    ensures files[i].end <= files[j].begin
  {
    if i + 1 < j {
      ChainIsOrdered(files, i, j - 1);
    }
  }

  /** The loop over the sorted files. `dups` pairs each dropped copy with the file kept. */
  method AssembleSorted(s: seq<LogFile>)
    returns (r: Assembled, dups: seq<(LogFile, LogFile)>, ghost at: seq<nat>, ghost own: seq<nat>)
    requires Sorted(s) && forall i :: 0 <= i < |s| ==> s[i].begin < s[i].end
    ensures r.Refused? ==> Broken(s)
    ensures r.Files? ==> Kept(r.files, s, at, own) && |r.files| + |dups| == |s|
    ensures r.Files? ==> forall d :: 0 <= d < |dups| ==> Copies(dups[d].0, dups[d].1)
  {
    hide Broken; hide Kept; hide Sorted; hide Before;
    var files: seq<LogFile>, problems := [], false;
    var reach: Option<LogFile> := None;
    ghost var ri := 0;
    dups, at, own := [], [], [];
    assert Kept([], s[..0], [], []) by { NothingKept(s[..0]); }
    for i := 0 to |s|
      invariant reach.None? <==> i == 0
      invariant reach.Some? ==> ri < i && s[ri] == reach.value && Furthest(s, i, ri)
      invariant problems ==> Broken(s)
      invariant !problems ==> Kept(files, s[..i], at, own) && |files| + |dups| == i
      invariant !problems && i > 0 ==> files != [] && files[|files| - 1] == reach.value
      invariant !problems ==> forall d :: 0 <= d < |dups| ==> Copies(dups[d].0, dups[d].1)
    {
      var log := s[i];
      assert s[..i + 1] == s[..i] + [log];
      if reach.Some? {
        var prev := reach.value;
        if SameRange(prev, log) {
          if prev.ids.None? || log.ids.None? {
            ClashIsBroken(s, i, ri);
            return Refused, dups, at, own;
          }
          if prev.ids == log.ids {
            EarlierIsBefore(s, ri, i);
            if !problems {
              CopyIsKept(files, s[..i], log, at, own);
              own := own + [|files| - 1];
            }
            dups := dups + [(prev, log)];
          } else {
            ClashIsBroken(s, i, ri);
            problems := true;
          }
          continue;
        }
        if log.begin < prev.end {
          ClashIsBroken(s, i, ri);
          problems := true;
          if log.end > prev.end { reach, ri := Some(log), i; }
          continue;
        }
        if log.begin > prev.end {
          HoleIsBroken(s, i, ri);
          problems := true;
        }
      }
      if !problems {
        FileIsKept(files, s[..i], log, at, own);
        at, own := at + [i], own + [|files|];
      }
      files := files + [log];
      reach, ri := Some(log), i;
    }
    assert s[..|s|] == s;
    if problems { return Refused, dups, at, own; }
    return Files(files), dups, at, own;
  }

  lemma NothingKept(s: seq<LogFile>)
    requires s == []
    ensures Kept([], s, [], [])
  {
  }

  lemma EarlierIsBefore(s: seq<LogFile>, k: nat, i: nat)
    requires Sorted(s) && k < i < |s|
    ensures Before(s[k], s[i])
  {
  }

  lemma CopyIsKept(files: seq<LogFile>, s: seq<LogFile>, x: LogFile, at: seq<nat>, own: seq<nat>)
    requires Kept(files, s, at, own) && files != []
    requires Copies(files[|files| - 1], x) && Before(files[|files| - 1], x)
    ensures Kept(files, s + [x], at, own + [|files| - 1])
  {
    hide Copies; hide Before; hide Chain;
  }

  lemma FileIsKept(files: seq<LogFile>, s: seq<LogFile>, x: LogFile, at: seq<nat>, own: seq<nat>)
    requires Kept(files, s, at, own) && x.begin < x.end
    requires files != [] ==> files[|files| - 1].end == x.begin
    ensures Kept(files + [x], s + [x], at + [|s|], own + [|files|])
  {
    hide KeptFor; hide Chain;
    var files', s', at', own' := files + [x], s + [x], at + [|s|], own + [|files|];
    ChainSnoc(files, x);
    assert KeptFor(x, x) by { KeptForItself(x); }
    forall k | 0 <= k < |files'|
      ensures at'[k] < |s'| && s'[at'[k]] == files'[k]
    {
      if k < |files| { assert at[k] < |s| && s[at[k]] == files[k]; }
    }
    forall i | 0 <= i < |s'|
      ensures own'[i] < |files'| && KeptFor(files'[own'[i]], s'[i])
    {
      if i < |s| { assert own[i] < |files| && KeptFor(files[own[i]], s[i]); }
    }
  }

  lemma ChainSnoc(files: seq<LogFile>, x: LogFile)
    requires Chain(files) && x.begin < x.end && (files != [] ==> files[|files| - 1].end == x.begin)
    ensures Chain(files + [x])
  {
  }

  lemma KeptForItself(x: LogFile)
    ensures KeptFor(x, x)
  {
  }

  /** What a kept list stands for has no clash and no hole. */
  lemma KeptIsContiguous(files: seq<LogFile>, s: seq<LogFile>, at: seq<nat>, own: seq<nat>)
    requires Kept(files, s, at, own)
    ensures Contiguous(Elements(s))
  {
    hide Kept;
    forall x, y | x in Elements(s) && y in Elements(s) && x != y
      ensures Copies(x, y) || Disjoint(x, y)
    {
      var i :| 0 <= i < |s| && s[i] == x;
      var j :| 0 <= j < |s| && s[j] == y;
      KeptPair(files, s, at, own, i, j);
    }
    forall x, y, n: nat | x in Elements(s) && y in Elements(s) && x.begin <= n < y.end
      ensures Held(Elements(s), n)
    {
      var i :| 0 <= i < |s| && s[i] == x;
      var j :| 0 <= j < |s| && s[j] == y;
      var k := KeptHolds(files, s, at, own, i, j, n);
      assert s[k] in Elements(s);
    }
  }

  lemma KeptPair(files: seq<LogFile>, s: seq<LogFile>, at: seq<nat>, own: seq<nat>, i: nat, j: nat)
    requires Kept(files, s, at, own) && i < |s| && j < |s|
    ensures s[i] == s[j] || Copies(s[i], s[j]) || Disjoint(s[i], s[j])
  {
    hide Chain; hide Before;
    var k, l := own[i], own[j];
    if k < l {
      ChainIsOrdered(files, k, l);
    } else if l < k {
      ChainIsOrdered(files, l, k);
    }
  }

  lemma KeptHolds(files: seq<LogFile>, s: seq<LogFile>, at: seq<nat>, own: seq<nat>, i: nat, j: nat, n: nat)
    returns (k: nat)
    requires Kept(files, s, at, own) && i < |s| && j < |s| && s[i].begin <= n < s[j].end
    ensures k < |s| && s[k].Holds(n)
  {
    hide Chain; hide Before;
    if own[j] < |files| - 1 { LastIsFurthest(files, own[j]); }
    var m := ChainCovers(files, own[i], n);
    k := at[m];
  }

  lemma LastIsFurthest(files: seq<LogFile>, j: nat)
    requires Chain(files) && j < |files| - 1
    ensures files[j].end < files[|files| - 1].end
  {
    ChainIsOrdered(files, j, |files| - 1);
  }

  /** The files kept of a set of candidates: chained, one per range, each the first found. */
  ghost predicate CatalogOf(files: seq<LogFile>, logs: set<LogFile>) {
    && Chain(files)
    && (forall k :: 0 <= k < |files| ==> files[k] in logs)
    && (forall k, x :: 0 <= k < |files| && x in logs && SameRange(x, files[k]) ==> files[k].found <= x.found)
    && (forall x {:trigger Represented(files, x)} :: x in logs ==> Represented(files, x))
  }

  predicate Represented(files: seq<LogFile>, x: LogFile) {
    exists k :: 0 <= k < |files| && SameRange(files[k], x)
  }

  lemma KeptIsCatalog(files: seq<LogFile>, s: seq<LogFile>, at: seq<nat>, own: seq<nat>)
    requires Kept(files, s, at, own)
    ensures CatalogOf(files, Elements(s))
  {
    hide Kept; hide Chain;
    assert Chain(files) by { KeptChain(files, s, at, own); }
    forall k | 0 <= k < |files|
      ensures files[k] in Elements(s)
    {
      KeptFrom(files, s, at, own, k);
    }
    forall x | x in Elements(s)
      ensures Represented(files, x)
      ensures forall k :: 0 <= k < |files| && SameRange(x, files[k]) ==> files[k].found <= x.found
    {
      var i :| 0 <= i < |s| && s[i] == x;
      KeptFirst(files, s, at, own, i);
      assert SameRange(files[own[i]], x);
    }
  }

  lemma KeptChain(files: seq<LogFile>, s: seq<LogFile>, at: seq<nat>, own: seq<nat>)
    requires Kept(files, s, at, own)
    ensures Chain(files)
  {
  }

  lemma KeptFrom(files: seq<LogFile>, s: seq<LogFile>, at: seq<nat>, own: seq<nat>, k: nat)
    requires Kept(files, s, at, own) && k < |files|
    ensures files[k] in s
  {
    assert s[at[k]] in s;
  }

  lemma KeptFirst(files: seq<LogFile>, s: seq<LogFile>, at: seq<nat>, own: seq<nat>, i: nat)
    requires Kept(files, s, at, own) && i < |s|
    ensures i < |own| && own[i] < |files| && SameRange(files[own[i]], s[i])
    ensures forall k :: 0 <= k < |files| && SameRange(s[i], files[k]) ==> files[k].found <= s[i].found
  {
    var l := own[i];
    forall k | 0 <= k < |files| && SameRange(s[i], files[k])
      ensures files[k].found <= s[i].found
    {
      if k < l { ChainIsOrdered(files, k, l); }
      if l < k { ChainIsOrdered(files, l, k); }
    }
  }

  /**
   Assembly succeeds exactly when the files that meet the window, copies aside, are
   disjoint and gap-free; the catalog then holds one file per range, the first found, in block
   order, and no file at all only when there is no candidate.
   */
  method Assemble(logs: seq<LogFile>, window: Option<(nat, nat)>) returns (r: Assembled)
    requires Listed(logs)
    ensures r.Files? <==> Contiguous(Candidates(logs, window))
    ensures r.Files? ==> CatalogOf(r.files, Candidates(logs, window))
    ensures r.Files? ==> (r.files == [] <==> Candidates(logs, window) == {})
  {
    hide Contiguous; hide Kept; hide Sorted; hide CatalogOf; hide Broken;
    var s := SelectAndSort(logs, window);
    forall i | 0 <= i < |s|
      ensures s[i].begin < s[i].end
    {
      assert s[i] in Elements(s);
    }
    var dups;
    ghost var at, own;
    r, dups, at, own := AssembleSorted(s);
    if r.Refused? {
      BrokenIsNotContiguous(s);
    } else {
      KeptIsContiguous(r.files, s, at, own);
      KeptIsCatalog(r.files, s, at, own);
      NoFilesNoCandidates(r.files, Elements(s));
    }
  }

  /** The candidates are the files that hold a block of the window. Of a window that ends before it starts they
      are the files that hold both its ends. */
  lemma CandidatesHoldABlock(logs: seq<LogFile>, window: (nat, nat), x: LogFile)
    requires Listed(logs) && x in logs
    ensures x in Candidates(logs, None)
    ensures window.0 < window.1 ==>
      (x in Candidates(logs, Some(window)) <==> exists n: nat :: x.Holds(n) && window.0 <= n < window.1)
    ensures window.1 <= window.0 ==>
      (x in Candidates(logs, Some(window)) <==> window.1 > 0 && x.Holds(window.1 - 1) && x.Holds(window.0))
  {
    if window.0 < window.1 && InWindow(x, Some(window)) {
      assert x.Holds(Max(x.begin, window.0));
    }
  }

  /** The condition for assembly, block by block: two files hold one block only as copies with known, equal ids, and
      no block between two files is missing. */
  lemma ContiguousExactly(logs: set<LogFile>)
    requires forall x :: x in logs ==> x.begin < x.end
    ensures Contiguous(logs) <==>
      && (forall x, y, n: nat :: x in logs && y in logs && x != y && x.Holds(n) && y.Holds(n) ==>
            x.begin == y.begin && x.end == y.end && x.ids.Some? && x.ids == y.ids)
      && (forall x, y, n: nat :: x in logs && y in logs && x.begin <= n < y.end ==> Held(logs, n))
  {
    hide Held;
    forall x, y | x in logs && y in logs && x != y
      ensures Copies(x, y) || Disjoint(x, y) <==> forall n: nat :: x.Holds(n) && y.Holds(n) ==>
                x.begin == y.begin && x.end == y.end && x.ids.Some? && x.ids == y.ids
    {
      var n := Max(x.begin, y.begin);
      assert !Disjoint(x, y) ==> x.Holds(n) && y.Holds(n);
    }
    hide Copies; hide Disjoint;
  }

  lemma NoFilesNoCandidates(files: seq<LogFile>, logs: set<LogFile>)
    requires CatalogOf(files, logs)
    ensures files == [] <==> logs == {}
  {
    if files != [] {
      assert files[0] in logs;
    } else if logs != {} {
      var x :| x in logs;
      var _ := FileFor(files, logs, x);
    }
  }

  // Lookup.

  function Begins(files: seq<LogFile>): (keys: seq<nat>)
    ensures |keys| == |files| && forall i :: 0 <= i < |files| ==> keys[i] == files[i].begin
  {
    seq(|files|, i requires 0 <= i < |files| => files[i].begin)
  }

  /** The catalog's blocks, `[begin, end)`. */
  function RangeOf(files: seq<LogFile>): (nat, nat)
    requires files != []
  {
    (files[0].begin, files[|files| - 1].end)
  }

  /** The file holding `n`: the only one, and none exactly outside the catalog's range. */
  method Get(files: seq<LogFile>, n: nat) returns (r: Option<LogFile>)
    requires Chain(files) && files != []
    ensures r.Some? <==> RangeOf(files).0 <= n < RangeOf(files).1
    ensures r.Some? ==> r.value in files && forall f <- files :: f.Holds(n) <==> f == r.value
  {
    forall i, j | 0 <= i < j < |files|
      ensures Begins(files)[i] < Begins(files)[j]
    {
      ChainIsOrdered(files, i, j);
    }
    var after := Search.PartitionPoint(Begins(files), n);
    if after == 0 { return None; }
    var k := after - 1;
    var file := files[k];
    forall i | 0 <= i < |files| && i != k
      ensures !files[i].Holds(n)
    {
      if i < k { ChainIsOrdered(files, i, k); }
      if k + 1 < i { ChainIsOrdered(files, k + 1, i); }
    }
    if k < |files| - 1 { LastIsFurthest(files, k); }
    return if n < file.end then Some(file) else None;
  }

  lemma FileFor(files: seq<LogFile>, logs: set<LogFile>, x: LogFile) returns (k: nat)
    requires CatalogOf(files, logs) && x in logs
    ensures k < |files| && SameRange(files[k], x)
  {
    assert Represented(files, x);
    k :| k < |files| && SameRange(files[k], x);
  }

  lemma FileIsCandidate(files: seq<LogFile>, logs: set<LogFile>, k: nat)
    requires CatalogOf(files, logs) && k < |files|
    ensures Chain(files) && files[k] in logs
  {
  }

  /** The catalog covers exactly the blocks of its candidates. */
  lemma CatalogCoversCandidates(files: seq<LogFile>, logs: set<LogFile>, n: nat)
    requires CatalogOf(files, logs) && files != []
    ensures Held(logs, n) <==> RangeOf(files).0 <= n < RangeOf(files).1
  {
    hide CatalogOf;
    FileIsCandidate(files, logs, 0);
    if Held(logs, n) {
      var z :| z in logs && z.Holds(n);
      var k := FileFor(files, logs, z);
      if k > 0 { ChainIsOrdered(files, 0, k); }
      if k < |files| - 1 { LastIsFurthest(files, k); }
    }
    if RangeOf(files).0 <= n < RangeOf(files).1 {
      var m := ChainCovers(files, 0, n);
      FileIsCandidate(files, logs, m);
      assert files[m].Holds(n);
    }
  }
}
