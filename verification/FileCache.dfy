/**
 The cache of open files. `get` takes the lock twice: to look a path up and, after opening the file
 outside the lock, to insert it. Threads interleave between the two.
 */
module FileCache {
  import opened Bytes

  type Path = string

  datatype File = File(path: Path, handle: nat)

  /** What the lock protects: a clock, and for each open path its file and when it was last used. */
  datatype State = State(clock: nat, open: map<Path, (File, nat)>)

  function Touched(s: State, x: Path): State {
    State(s.clock + 1, if x in s.open then s.open[x := (s.open[x].0, s.clock + 1)] else s.open)
  }

  predicate Oldest(s: State, x: Path) {
    x in s.open && forall y :: y in s.open ==> s.open[x].1 <= s.open[y].1
  }

  /** Adding `f`, after closing the oldest file when `cap` are open. */
  ghost predicate Inserted(cap: nat, s: State, f: File, t: State) {
    && t.clock == s.clock
    && if |s.open| < cap then t.open == s.open[f.path := (f, s.clock)]
       else exists o :: Oldest(s, o) && t.open == (s.open - {o})[f.path := (f, s.clock)]
  }

  // Threads.

  /** The cache, the opens in flight by thread, and every use so far, oldest first. */
  datatype World = World(lru: State, opening: map<nat, Path>, uses: seq<Path>)

  datatype Step = Lookup(thread: nat, path: Path) | OpenFails(thread: nat) | OpenDone(thread: nat, file: File)

  ghost predicate Next(cap: nat, v: World, step: Step, w: World) {
    match step
    case Lookup(t, x) =>
      && t !in v.opening && w.lru == Touched(v.lru, x)
      && (if x in v.lru.open then w.opening == v.opening && w.uses == v.uses + [x]
          else w.opening == v.opening[t := x] && w.uses == v.uses)
    case OpenFails(t) => t in v.opening && w == v.(opening := v.opening - {t})
    case OpenDone(t, f) =>
      && t in v.opening && f.path == v.opening[t]
      && w.opening == v.opening - {t} && w.uses == v.uses + [f.path]
      && (if f.path in v.lru.open then w.lru == Touched(v.lru, f.path)
          else Inserted(cap, Touched(v.lru, f.path), f, w.lru))
  }

  const Initial := World(State(0, map[]), map[], [])

  ghost predicate Run(cap: nat, steps: seq<Step>, worlds: seq<World>) {
    && |worlds| == |steps| + 1 && worlds[0] == Initial
    && forall i :: 0 <= i < |steps| ==> Next(cap, worlds[i], steps[i], worlds[i + 1])
  }

  // Recency, stated on the uses alone.

  /** `x` was used, and fewer than `cap` other paths have been used since. */
  ghost predicate Recent(uses: seq<Path>, cap: nat, x: Path) {
    exists i :: 0 <= i < |uses| && uses[i] == x && x !in uses[i + 1..] && |Elements(uses[i + 1..])| < cap
  }

  // The uses as a list of distinct paths, most recent first.

  function Index(m: seq<Path>, x: Path): (k: nat)
    requires x in m
    ensures k < |m| && m[k] == x
  {
    if m[0] == x then 0 else 1 + Index(m[1..], x)
  }

  function Without(m: seq<Path>, x: Path): seq<Path> {
    if x in m then m[..Index(m, x)] + m[Index(m, x) + 1..] else m
  }

  function Mru(uses: seq<Path>): seq<Path> {
    if uses == [] then [] else [uses[|uses| - 1]] + Without(Mru(uses[..|uses| - 1]), uses[|uses| - 1])
  }

  predicate Distinct(m: seq<Path>) {
    forall i, j :: 0 <= i < j < |m| ==> m[i] != m[j]
  }

  lemma MruStep(uses: seq<Path>, x: Path)
    ensures Mru(uses + [x]) == [x] + Without(Mru(uses), x)
  {
    assert (uses + [x])[..|uses|] == uses;
  }

  lemma MovedIsDistinct(m: seq<Path>, x: Path)
    requires Distinct(m)
    ensures Distinct([x] + Without(m, x)) && Elements([x] + Without(m, x)) == Elements(m) + {x}
  {
    var w := Without(m, x);
    if x in m {
      var k := Index(m, x);
      forall y
        ensures y in w + [x] <==> y in m
      {
        if y in m {
          var j := Index(m, y);
          if j < k { assert w[j] == y; } else if j > k { assert w[j - 1] == y; }
        }
      }
    }
  }

  lemma {:induction false} MruIsDistinct(uses: seq<Path>)
    ensures Distinct(Mru(uses)) && Elements(Mru(uses)) == Elements(uses)
    decreases |uses|
  {
    if uses != [] {
      var init, x := uses[..|uses| - 1], uses[|uses| - 1];
      assert uses == init + [x];
      MruIsDistinct(init);
      MovedIsDistinct(Mru(init), x);
    }
  }

  lemma {:induction false} DistinctCount(m: seq<Path>)
    requires Distinct(m)
    ensures |Elements(m)| == |m|
    decreases |m|
  {
    if m != [] {
      DistinctCount(m[1..]);
      assert Elements(m) == Elements(m[1..]) + {m[0]};
    }
  }

  /** Where `x` was last used, and the paths used since: the ones before it in the list. */
  predicate LastUse(uses: seq<Path>, i: nat, k: nat) {
    && i < |uses| && k < |Mru(uses)| && uses[i] == Mru(uses)[k] && uses[i] !in uses[i + 1..]
    && Elements(Mru(uses)[..k]) == Elements(uses[i + 1..])
  }

  lemma WithoutAt(m: seq<Path>, x: Path, j: nat) returns (k: nat)
    requires Distinct(m) && j < |Without(m, x)|
    ensures k < |m| && m[k] == Without(m, x)[j] && m[k] != x
    ensures Elements([x] + Without(m, x)[..j]) == Elements(m[..k]) + {x}
  {
    var w := Without(m, x);
    if x in m && Index(m, x) <= j {
      var at := Index(m, x);
      k := j + 1;
      assert m[..k] == m[..at] + [x] + m[at + 1..k];
      assert w[..j] == m[..at] + m[at + 1..k];
    } else {
      k := j;
      assert w[..j] == m[..j];
    }
  }

  lemma LastUseStep(uses: seq<Path>, x: Path, i: nat, kk: nat, k: nat)
    requires LastUse(uses, i, kk) && k > 0 && k - 1 < |Without(Mru(uses), x)|
    requires Mru(uses)[kk] == Without(Mru(uses), x)[k - 1] != x
    requires Elements([x] + Without(Mru(uses), x)[..k - 1]) == Elements(Mru(uses)[..kk]) + {x}
    ensures LastUse(uses + [x], i, k)
  {
    MruStep(uses, x);
    hide Mru; hide Without;
    var all := uses + [x];
    assert all[i + 1..] == uses[i + 1..] + [x];
    assert Mru(all)[..k] == [x] + Without(Mru(uses), x)[..k - 1];
    assert Elements(all[i + 1..]) == Elements(uses[i + 1..]) + {x};
  }

  lemma {:induction false} FindLastUse(uses: seq<Path>, k: nat) returns (i: nat)
    requires k < |Mru(uses)|
    ensures LastUse(uses, i, k)
    decreases |uses|
  {
    hide Without;
    var init, x := uses[..|uses| - 1], uses[|uses| - 1];
    if k == 0 {
      i := |uses| - 1;
    } else {
      MruIsDistinct(init);
      var kk := WithoutAt(Mru(init), x, k - 1);
      i := FindLastUse(init, kk);
      hide LastUse;
      LastUseStep(init, x, i, kk, k);
      assert uses == init + [x];
    }
  }

  lemma LastUseIsUnique(uses: seq<Path>, i: nat, j: nat)
    requires i < |uses| && j < |uses| && uses[i] == uses[j]
    requires uses[i] !in uses[i + 1..] && uses[j] !in uses[j + 1..]
    ensures i == j
  {
    LaterIsIn(uses, i, j);
    LaterIsIn(uses, j, i);
  }

  /** Being among the first `cap` of the list is being recent. */
  lemma RecentIsFront(uses: seq<Path>, cap: nat, k: nat)
    requires k < |Mru(uses)|
    ensures Recent(uses, cap, Mru(uses)[k]) <==> k < cap
  {
    var i := FindLastUse(uses, k);
    var x := Mru(uses)[k];
    hide Mru;
    MruIsDistinct(uses);
    DistinctCount(Mru(uses)[..k]);
    forall j | 0 <= j < |uses| && uses[j] == x && x !in uses[j + 1..]
      ensures j == i
    {
      LastUseIsUnique(uses, i, j);
    }
  }

  // The invariant.

  function Front(m: seq<Path>, cap: nat): seq<Path> {
    m[..Min(cap, |m|)]
  }

  predicate Descending(s: State, f: seq<Path>) {
    && (forall i :: 0 <= i < |f| ==> f[i] in s.open)
    && forall i, j :: 0 <= i < j < |f| ==> s.open[f[i]].1 > s.open[f[j]].1
  }

  predicate FilesMatch(s: State) {
    forall x :: x in s.open ==> s.open[x].0.path == x && s.open[x].1 <= s.clock
  }

  /** The cache holds the paths of `f`, later used first, each with a file of its own path. */
  predicate Holds(s: State, f: seq<Path>) {
    s.open.Keys == Elements(f) && FilesMatch(s) && Descending(s, f)
  }

  predicate Inv(cap: nat, v: World) {
    Holds(v.lru, Front(Mru(v.uses), cap))
  }

  /** Moving position `k` to the front. */
  function Moved(f: seq<Path>, k: nat): (g: seq<Path>)
    requires k < |f|
    ensures |g| == |f| && g[0] == f[k] && forall j :: 0 < j < |g| ==> g[j] == f[if j <= k then j - 1 else j]
  {
    [f[k]] + f[..k] + f[k + 1..]
  }

  lemma MovedElements(f: seq<Path>, k: nat)
    requires k < |f|
    ensures Elements(Moved(f, k)) == Elements(f)
  {
    assert f == f[..k] + [f[k]] + f[k + 1..];
  }

  lemma MovedDescends(s: State, f: seq<Path>, k: nat)
    requires k < |f| && Distinct(f) && Descending(s, f) && FilesMatch(s)
    ensures Descending(Touched(s, f[k]), Moved(f, k))
  {
    var t, g := Touched(s, f[k]), Moved(f, k);
    hide Moved;
    forall j | 0 < j < |g|
      ensures g[j] in s.open && g[j] != f[k] && t.open[g[j]] == s.open[g[j]]
    {
    }
  }

  lemma FrontIndex(m: seq<Path>, cap: nat, x: Path)
    requires Distinct(m) && x in Front(m, cap)
    ensures x in m && Index(m, x) < |Front(m, cap)| && Front(m, cap)[Index(m, x)] == x
  {
    var j := Index(Front(m, cap), x);
    assert m[j] == m[Index(m, x)];
  }

  lemma TruncateMoved(m: seq<Path>, k: nat, n: nat)
    requires k < n <= |m|
    ensures ([m[k]] + (m[..k] + m[k + 1..]))[..n] == Moved(m[..n], k)
  {
    var a, b := [m[k]] + (m[..k] + m[k + 1..]), Moved(m[..n], k);
    hide Moved;
    assert |a| == |m| && a[0] == m[k] && forall j :: 0 < j < |a| ==> a[j] == m[if j <= k then j - 1 else j];
  }

  /** The front of the list after one of its own paths is used again. */
  lemma FrontMoves(m: seq<Path>, cap: nat, x: Path)
    requires Distinct(m) && x in Front(m, cap)
    ensures x in m && Index(m, x) < |Front(m, cap)| && Front(m, cap)[Index(m, x)] == x
    ensures Front([x] + Without(m, x), cap) == Moved(Front(m, cap), Index(m, x))
  {
    hide Distinct; hide Moved;
    FrontIndex(m, cap, x);
    TruncateMoved(m, Index(m, x), |Front(m, cap)|);
  }

  lemma IsElement(f: seq<Path>, x: Path)
    ensures x in Elements(f) <==> x in f
  {
  }

  lemma FrontIsDistinct(m: seq<Path>, cap: nat)
    requires Distinct(m)
    ensures Distinct(Front(m, cap))
  {
  }

  /** A hit moves its path to the front. */
  lemma HitKeeps(s: State, m: seq<Path>, cap: nat, x: Path)
    requires Distinct(m) && Holds(s, Front(m, cap)) && x in s.open
    ensures Holds(Touched(s, x), Front([x] + Without(m, x), cap))
  {
    hide Moved; hide Without; hide Elements; hide Descending; hide Front; hide Distinct;
    var f := Front(m, cap);
    IsElement(f, x);
    FrontMoves(m, cap, x);
    FrontIsDistinct(m, cap);
    MovedElements(f, Index(m, x));
    MovedDescends(s, f, Index(m, x));
    assert Touched(s, x).open.Keys == s.open.Keys;
  }

  lemma MissKeeps(s: State, m: seq<Path>, cap: nat, x: Path)
    requires Holds(s, Front(m, cap)) && x !in s.open
    ensures Holds(Touched(s, x), Front(m, cap))
  {
  }

  lemma HoldsCount(s: State, f: seq<Path>)
    requires Distinct(f) && Holds(s, f)
    ensures |s.open| == |f|
  {
    DistinctCount(f);
  }

  lemma OldestIsLast(s: State, f: seq<Path>, o: Path)
    requires f != [] && Holds(s, f) && Oldest(s, o)
    ensures o == f[|f| - 1]
  {
    assert o in Elements(f);
    var i := Index(f, o);
    assert s.open[f[|f| - 1]].1 >= s.open[f[i]].1;
  }

  /** The front of the list after a path outside it is used. */
  lemma FrontTakes(m: seq<Path>, cap: nat, x: Path)
    requires cap > 0 && x !in Front(m, cap)
    ensures Front([x] + Without(m, x), cap) ==
            [x] + if |m| < cap then m else Front(m, cap)[..cap - 1]
  {
    if x in m {
      FrontHasEarlier(m, cap, Index(m, x));
    }
  }

  lemma FrontHasEarlier(m: seq<Path>, cap: nat, k: nat)
    requires k < |m|
    ensures k < cap ==> m[k] in Front(m, cap)
  {
    if k < cap { assert Front(m, cap)[k] == m[k]; }
  }

  /** No file was used at the present clock. */
  predicate ClockAhead(s: State) {
    forall y :: y in s.open ==> s.open[y].1 < s.clock
  }

  lemma NotHeld(s: State, f: seq<Path>, x: Path)
    requires Holds(s, f) && x !in s.open
    ensures x !in f
  {
    IsElement(f, x);
  }

  lemma InsertKeeps(s: State, m: seq<Path>, cap: nat, f: File, t: State)
    requires cap > 0 && Distinct(m) && Holds(s, Front(m, cap)) && f.path !in s.open
    requires ClockAhead(s)
    requires Inserted(cap, s, f, t)
    ensures Holds(t, Front([f.path] + Without(m, f.path), cap))
  {
    var x, fr := f.path, Front(m, cap);
    hide Without; hide Holds; hide Distinct; hide ClockAhead;
    NotHeld(s, fr, x);
    FrontTakes(m, cap, x);
    FrontIsDistinct(m, cap);
    HoldsCount(s, fr);
    if |s.open| < cap {
      assert fr == m;
      FrontGrows(s, fr, f, t);
    } else {
      var o :| Oldest(s, o) && t.open == (s.open - {o})[x := (f, s.clock)];
      ReplaceLast(s, fr, f, o, t);
    }
  }

  lemma ReplaceLast(s: State, fr: seq<Path>, f: File, o: Path, t: State)
    requires fr != [] && Distinct(fr) && Holds(s, fr) && f.path !in s.open && Oldest(s, o)
    requires ClockAhead(s)
    requires t.clock == s.clock && t.open == (s.open - {o})[f.path := (f, s.clock)]
    ensures Holds(t, [f.path] + fr[..|fr| - 1])
  {
    hide Holds; hide Distinct;
    OldestIsLast(s, fr, o);
    var u := State(s.clock, s.open - {o});
    Dropped(s, fr, u);
    FrontGrows(u, fr[..|fr| - 1], f, t);
  }

  lemma FrontGrows(s: State, fr: seq<Path>, f: File, t: State)
    requires Holds(s, fr) && f.path !in s.open && ClockAhead(s)
    requires t.clock == s.clock && t.open == s.open[f.path := (f, s.clock)]
    ensures Holds(t, [f.path] + fr)
  {
    assert Elements([f.path] + fr) == Elements(fr) + {f.path};
    assert t.open.Keys == s.open.Keys + {f.path};
    hide Elements;
  }

  lemma Dropped(s: State, fr: seq<Path>, u: State)
    requires fr != [] && Distinct(fr) && Holds(s, fr)
    requires u == State(s.clock, s.open - {fr[|fr| - 1]})
    ensures Holds(u, fr[..|fr| - 1])
  {
    var g, last := fr[..|fr| - 1], fr[|fr| - 1];
    assert fr == g + [last];
    assert Elements(fr) == Elements(g) + {last};
    LastIsOut(fr);
    hide Elements; hide Distinct;
    assert u.open.Keys == s.open.Keys - {last};
    DroppedOrder(s, fr, u);
  }

  lemma DroppedOrder(s: State, fr: seq<Path>, u: State)
    requires fr != [] && FilesMatch(s) && Descending(s, fr) && fr[|fr| - 1] !in Elements(fr[..|fr| - 1])
    requires u == State(s.clock, s.open - {fr[|fr| - 1]})
    ensures FilesMatch(u) && Descending(u, fr[..|fr| - 1])
  {
    var g, last := fr[..|fr| - 1], fr[|fr| - 1];
    assert forall i :: 0 <= i < |g| ==> g[i] == fr[i] && g[i] in Elements(g);
  }

  lemma LastIsOut(fr: seq<Path>)
    requires fr != [] && Distinct(fr)
    ensures fr[|fr| - 1] !in Elements(fr[..|fr| - 1])
  {
  }

  lemma NextKeeps(cap: nat, v: World, step: Step, w: World)
    requires cap > 0 && Inv(cap, v) && Next(cap, v, step, w)
    ensures Inv(cap, w)
  {
    var m := Mru(v.uses);
    MruIsDistinct(v.uses);
    hide Mru; hide Without; hide Holds; hide Inserted;
    match step {
      case Lookup(t, x) =>
        MruStep(v.uses, x);
        if x in v.lru.open { HitKeeps(v.lru, m, cap, x); } else { MissKeeps(v.lru, m, cap, x); }
      case OpenFails(t) =>
      case OpenDone(t, f) =>
        MruStep(v.uses, f.path);
        if f.path in v.lru.open {
          HitKeeps(v.lru, m, cap, f.path);
        } else {
          MissKeeps(v.lru, m, cap, f.path);
          StampsBelow(v.lru, Front(m, cap), f.path);
          InsertKeeps(Touched(v.lru, f.path), m, cap, f, w.lru);
        }
    }
  }

  lemma StampsBelow(s: State, f: seq<Path>, x: Path)
    requires Holds(s, f) && x !in s.open
    ensures ClockAhead(Touched(s, x))
  {
  }

  lemma {:induction false} RunKeeps(cap: nat, steps: seq<Step>, worlds: seq<World>, i: nat)
    requires cap > 0 && Run(cap, steps, worlds) && i < |worlds|
    ensures Inv(cap, worlds[i])
    decreases i
  {
    if i > 0 {
      RunKeeps(cap, steps, worlds, i - 1);
      NextKeeps(cap, worlds[i - 1], steps[i - 1], worlds[i]);
    }
  }

  /**
   Under every interleaving, failed opens included: at most `cap` files are open, they are exactly the
   `cap` most recently used distinct paths, and each is a file of its own path.
   */
  lemma HoldsTheMostRecent(cap: nat, steps: seq<Step>, worlds: seq<World>, i: nat)
    requires cap > 0 && Run(cap, steps, worlds) && i < |worlds|
    ensures var v := worlds[i];
            && |v.lru.open| <= cap
            && (forall x :: x in v.lru.open <==> Recent(v.uses, cap, x))
            && (forall x :: x in v.lru.open ==> v.lru.open[x].0.path == x)
  {
    RunKeeps(cap, steps, worlds, i);
    var v := worlds[i];
    var m := Mru(v.uses);
    MruIsDistinct(v.uses);
    hide Mru; hide Run; hide Recent;
    HoldsCount(v.lru, Front(m, cap));
    forall x
      ensures x in v.lru.open <==> Recent(v.uses, cap, x)
    {
      if x in m {
        RecentIsFront(v.uses, cap, Index(m, x));
        FrontHasEarlier(m, cap, Index(m, x));
        if x in Front(m, cap) {
          var j := Index(Front(m, cap), x);
          assert m[j] == m[Index(m, x)];
        }
      } else {
        RecentWasUsed(v.uses, cap, x);
        assert x !in Elements(m);
      }
    }
  }

  lemma RecentWasUsed(uses: seq<Path>, cap: nat, x: Path)
    ensures Recent(uses, cap, x) ==> x in Elements(uses)
  {
  }

  // The sections a thread runs under the lock.

  class Lru {
    var clock: nat
    var open: map<Path, (File, nat)>

    ghost function Value(): State
      reads this
    {
      State(clock, open)
    }

    constructor ()
      ensures Value() == Initial.lru
    {
      clock, open := 0, map[];
    }

    method Touch(x: Path) returns (r: Option<File>)
      modifies this
      ensures Value() == Touched(old(Value()), x)
      ensures r == if x in old(open) then Some(old(open)[x].0) else None
    {
      clock := clock + 1;
      if x !in open { return None; }
      r := Some(open[x].0);
      open := open[x := (open[x].0, clock)];
    }

    method EvictOldest()
      modifies this
      ensures clock == old(clock)
      ensures old(open) == map[] ==> open == old(open)
      ensures old(open) != map[] ==> exists o :: Oldest(old(Value()), o) && open == old(open) - {o}
    {
      if open.Keys == {} { return; }
      var oldest :| oldest in open.Keys;
      var rest := open.Keys - {oldest};
      while rest != {}
        invariant rest <= open.Keys && oldest in open
        invariant forall y :: y in open.Keys - rest ==> open[oldest].1 <= open[y].1
        decreases rest
      {
        var x :| x in rest;
        if open[x].1 < open[oldest].1 { oldest := x; }
        rest := rest - {x};
      }
      assert Oldest(Value(), oldest);
      open := open - {oldest};
    }
  }

  class Cache {
    const cap: nat
    const lru: Lru

    constructor (cap: nat)
      ensures this.cap == (if cap == 0 then 1 else cap) && fresh(lru) && lru.Value() == Initial.lru
    {
      this.cap := if cap == 0 then 1 else cap;
      lru := new Lru();
    }

    /** The first section: a hit is returned, a miss sends the thread off to open the file. */
    method Lookup(path: Path) returns (r: Option<File>)
      modifies lru
      ensures lru.Value() == Touched(old(lru.Value()), path)
      ensures r.Some? <==> path in old(lru.open)
      ensures r.Some? ==> r.value == old(lru.open)[path].0
    {
      r := lru.Touch(path);
    }

    /** The second section, with the file just opened: a file that raced ahead is returned instead. */
    method Insert(f: File) returns (r: File)
      requires cap > 0 && |lru.open| <= cap
      modifies lru
      ensures f.path in old(lru.open) ==>
        r == old(lru.open)[f.path].0 && lru.Value() == Touched(old(lru.Value()), f.path)
      ensures f.path !in old(lru.open) ==> r == f && Inserted(cap, Touched(old(lru.Value()), f.path), f, lru.Value())
      ensures |lru.open| <= cap
    {
      var raced := lru.Touch(f.path);
      if raced.Some? { return raced.value; }
      ghost var s := lru.Value();
      while |lru.open| >= cap
        invariant lru.clock == s.clock && |lru.open| <= cap
        invariant |lru.open| < cap && |s.open| == cap ==> exists o :: Oldest(s, o) && lru.open == s.open - {o}
        invariant |lru.open| == cap || |s.open| < cap ==> lru.open == s.open
        decreases |lru.open|
      {
        lru.EvictOldest();
        ghost var o :| Oldest(s, o) && lru.open == s.open - {o};
        assert lru.open.Keys == s.open.Keys - {o};
      }
      lru.open := lru.open[f.path := (f, lru.clock)];
      assert lru.open.Keys <= old(lru.open.Keys) + {f.path};
      return f;
    }
  }
}
