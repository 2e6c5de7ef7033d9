/** Runs of the FAT allocator: any number of live chains, allocated, grown, cut and freed by the
    driver's own methods (src/fat/entry_io.rs, src/fat/cluster_map.rs), refusals included. */
module FatRuns {
  import opened Basics
  import opened ClusterMaps
  import opened FatCells
  import opened FatTables
  import opened FatVolumes

  /** A file or directory as its entry has it: where its chain starts and how long it is. */
  datatype Chain = Chain(first: nat, size: nat)

  /** A call; `i` names one of the chains there are. */
  datatype Call =
    | Allocate(n: nat)
    | Grow(i: nat, needed: nat)
    | Cut(i: nat, keep: nat)
    | Free(i: nat)

  ghost function SetOf(lists: seq<seq<nat>>): set<seq<nat>> { set s | s in lists }

  ghost predicate Apart(lists: seq<seq<nat>>) { forall i, j :: 0 <= i < j < |lists| ==> lists[i] != lists[j] }

  /** The chains start where their entries say and are long enough; they are the live chains of the
      table. */
  ghost predicate Live(fs: FatVolume, cs: nat, files: seq<Chain>, lists: seq<seq<nat>>)
    reads fs
  {
    && fs.Valid() && |files| == |lists|
    && (forall i :: 0 <= i < |lists| ==> Heads(files[i], lists[i], cs))
    && Apart(lists) && Owned(fs.Cells(), SetOf(lists))
  }

  ghost predicate Heads(f: Chain, s: seq<nat>, cs: nat) {
    s != [] && f.first == s[0] && f.size <= Units(|s|, cs)
  }

  /** What every run keeps: unusable clusters, and the number of free and owned ones together. */
  ghost predicate SameStock(t: Table, u: Table) {
    && |u| == |t| && LostSet(u) == LostSet(t)
    && |FreeSet(u)| + |OwnedSet(u)| == |FreeSet(t)| + |OwnedSet(t)|
  }

  // ---------------------------------------------------------------- runs in numbers

  /** A file by its length and the clusters it holds, and all files with the clusters that are free. */
  datatype File = File(size: nat, held: nat)

  datatype Plan = Plan(files: seq<File>, free: nat)

  ghost function PlanOf(t: Table, files: seq<Chain>, lists: seq<seq<nat>>): (p: Plan)
    requires |files| == |lists|
    ensures |p.files| == |files|
  {
    Plan(seq(|files|, i requires 0 <= i < |files| => File(files[i].size, |lists[i]|)), |FreeSet(t)|)
  }

  /** The clusters a growth takes. An open file counts as many whole clusters as its length needs, at
      least one, as covered. */
  function Wants(f: File, cs: nat, needed: nat): nat
    requires cs > 0
  {
    Lacking(f.held, Units(Max(1, DivCeil(f.size, cs)), cs), cs, needed)
  }

  /** What a call comes to: a growth goes ahead exactly when enough clusters are free, a cut keeps the
      clusters its length takes, at least one. */
  function Served(cs: nat, p: Plan, call: Call): Plan
    requires cs > 0
  {
    match call
    case Allocate(n) => if 0 < n <= p.free then Plan(p.files + [File(0, n)], p.free - n) else p
    case Grow(i, needed) =>
      if i < |p.files| && Wants(p.files[i], cs, needed) <= p.free then
        var f, n := p.files[i], Wants(p.files[i], cs, needed);
        Plan(p.files[i := File(Max(f.size, needed), f.held + n)], p.free - n)
      else p
    case Cut(i, keep) =>
      if i < |p.files| then
        var size := Min(keep, p.files[i].size);
        var k := Max(1, DivCeil(size, cs));
        Plan(p.files[i := File(size, k)], SatSub(p.free + p.files[i].held, k))
      else p
    case Free(i) =>
      if i < |p.files| then Plan(p.files[..i] + p.files[i + 1..], p.free + p.files[i].held) else p
  }

  function ServedAll(cs: nat, p: Plan, calls: seq<Call>): Plan
    requires cs > 0
    decreases |calls|
  {
    if calls == [] then p else ServedAll(cs, Served(cs, p, calls[0]), calls[1..])
  }

  lemma {:induction false} FreeCount(t: Table)
    ensures |FreeFrom(t, 2)| == |FreeSet(t)|
  {
    var free := FreeFrom(t, 2);
    FreeFromListed(t, 2);
    forall c: nat | c in FreeSet(t)
      ensures c in free
    {
      FreeFromHas(t, 2, c);
    }
    assert Elems(free) == FreeSet(t);
    ElemsCount(free);
  }

  /** Taking some free clusters, or giving them back, changes the number of free ones by so many. */
  lemma FreeLess(t: Table, u: Table, run: seq<nat>)
    requires |u| == |t| && Distinct(run)
    requires forall c: nat :: IsData(t, c) ==> (t[c].Free? <==> u[c].Free? || c in run)
    requires forall i :: 0 <= i < |run| ==> IsData(t, run[i]) && t[run[i]].Free? && !u[run[i]].Free?
    ensures |FreeSet(u)| + |run| == |FreeSet(t)|
  {
    ElemsCount(run);
    forall c | c in run
      ensures IsData(t, c) && t[c].Free? && !u[c].Free?
    {
      var i :| 0 <= i < |run| && run[i] == c;
    }
    assert FreeSet(u) == FreeSet(t) - Elems(run);
    assert Elems(run) <= FreeSet(t);
  }

  /** No cell of a chain is free. */
  lemma ChainTaken(t: Table, s: seq<nat>)
    requires IsChain(t, s)
    ensures forall i :: 0 <= i < |s| ==> IsData(t, s[i]) && !t[s[i]].Free?
  {
    ChainCells(t, s);
    forall i | 0 <= i < |s|
      ensures IsData(t, s[i]) && !t[s[i]].Free?
    {
      assert ChainCell(t, s, i);
    }
  }

  lemma LinkedLess(t: Table, u: Table, link: Option<nat>, run: seq<nat>)
    requires run != [] && IsLinked(t, u, link, run) && forall i :: 0 <= i < |run| ==> run[i] in FreeSet(t)
    requires link.Some? ==> IsData(t, link.value) && !t[link.value].Free?
    ensures |FreeSet(u)| + |run| == |FreeSet(t)|
  {
    ChainDistinct(u, run);
    ChainTaken(u, run);
    forall i | 0 <= i < |run|
      ensures IsData(t, run[i]) && t[run[i]].Free? && !u[run[i]].Free?
    {
      assert run[i] in FreeSet(t);
    }
    FreeLess(t, u, run);
  }

  /** The clusters a cut frees. */
  lemma CutMore(t: Table, u: Table, s: seq<nat>, k: nat)
    requires IsChain(t, s) && 0 < k <= |s| && IsCut(t, u, s, k)
    ensures |FreeSet(u)| == |FreeSet(t)| + (|s| - k)
  {
    ChainDistinct(t, s);
    ChainTaken(t, s);
    ChainTaken(u, s[..k]);
    var gone := s[k..];
    assert s == s[..k] + gone;
    forall c: nat | IsData(t, c)
      ensures u[c].Free? <==> t[c].Free? || c in gone
    {
      if c in s[..k] {
        var i :| 0 <= i < k && s[..k][i] == c;
        assert s[i] == c;
      } else if c in gone {
        var j :| 0 <= j < |gone| && gone[j] == c;
        assert s[k + j] == c;
      }
    }
    forall j | 0 <= j < |gone|
      ensures IsData(u, gone[j]) && u[gone[j]].Free? && !t[gone[j]].Free?
    {
      assert gone[j] == s[k + j];
    }
    FreeLess(u, t, gone);
  }

  lemma FreedMore(t: Table, u: Table, s: seq<nat>)
    requires IsChain(t, s) && IsFreed(t, u, s)
    ensures |FreeSet(u)| == |FreeSet(t)| + |s|
  {
    ChainDistinct(t, s);
    ChainTaken(t, s);
    forall i | 0 <= i < |s|
      ensures IsData(u, s[i]) && u[s[i]].Free? && !t[s[i]].Free?
    {
      assert s[i] in s;
    }
    forall c: nat | IsData(t, c)
      ensures u[c].Free? <==> t[c].Free? || c in s
    {
    }
    FreeLess(u, t, s);
  }

  /** Any calls in any order, refusals included: every call does to the lengths, the clusters held and
      the clusters free what the plan says; at the end the live chains are still acyclic and disjoint
      and own exactly the cells in use, no cluster has been lost or made, and FSInfo claims no free
      count once the table has changed. */
  method Perform(fs: FatVolume, cs: nat, files: seq<Chain>, calls: seq<Call>, ghost lists: seq<seq<nat>>)
      returns (now: seq<Chain>, ghost lists': seq<seq<nat>>)
    requires cs > 0 && fs.l.maxCluster <= U32_MAX && Live(fs, cs, files, lists)
    modifies fs
    ensures Live(fs, cs, now, lists') && SameStock(old(fs.Cells()), fs.Cells())
    ensures PlanOf(fs.Cells(), now, lists') == ServedAll(cs, PlanOf(old(fs.Cells()), files, lists), calls)
    ensures Honest(old(fs.Advised()), old(fs.Cells()), fs.Advised(), fs.Cells())
    ensures fs.Outside() == old(fs.Outside())
  {
    now, lists' := files, lists;
    for k := 0 to |calls|
      invariant Live(fs, cs, now, lists') && SameStock(old(fs.Cells()), fs.Cells())
      invariant ServedAll(cs, PlanOf(fs.Cells(), now, lists'), calls[k..]) ==
                ServedAll(cs, PlanOf(old(fs.Cells()), files, lists), calls)
      invariant Honest(old(fs.Advised()), old(fs.Cells()), fs.Advised(), fs.Cells())
      invariant fs.Outside() == old(fs.Outside())
    {
      assert calls[k..][1..] == calls[k + 1..];
      now, lists' := PerformOne(fs, cs, now, calls[k], lists');
    }
  }

  /** One call. A chain that is not there, or a volume that is full, leaves everything as it was. */
  method PerformOne(fs: FatVolume, cs: nat, files: seq<Chain>, call: Call, ghost lists: seq<seq<nat>>)
      returns (now: seq<Chain>, ghost lists': seq<seq<nat>>)
    requires cs > 0 && fs.l.maxCluster <= U32_MAX && Live(fs, cs, files, lists)
    modifies fs
    ensures Live(fs, cs, now, lists') && SameStock(old(fs.Cells()), fs.Cells())
    ensures PlanOf(fs.Cells(), now, lists') == Served(cs, PlanOf(old(fs.Cells()), files, lists), call)
    ensures Honest(old(fs.Advised()), old(fs.Cells()), fs.Advised(), fs.Cells())
    ensures fs.Outside() == old(fs.Outside())
  {
    now, lists' := files, lists;
    match call
    case Allocate(n) =>
      if n > 0 {
        now, lists' := AllocateChain(fs, cs, files, n, lists);
      }
    case Grow(i, needed) =>
      if i < |files| {
        now, lists' := GrowChain(fs, cs, files, i, needed, lists);
      }
    case Cut(i, keep) =>
      if i < |files| {
        now, lists' := CutChain(fs, cs, files, i, Min(keep, files[i].size), lists);
      }
    case Free(i) =>
      if i < |files| {
        now, lists' := FreeChain(fs, cs, files, i, lists);
      }
  }

  method AllocateChain(fs: FatVolume, cs: nat, files: seq<Chain>, n: nat, ghost lists: seq<seq<nat>>)
      returns (now: seq<Chain>, ghost lists': seq<seq<nat>>)
    requires cs > 0 && n > 0 && Live(fs, cs, files, lists)
    modifies fs
    ensures Live(fs, cs, now, lists') && SameStock(old(fs.Cells()), fs.Cells())
    ensures PlanOf(fs.Cells(), now, lists') == Served(cs, PlanOf(old(fs.Cells()), files, lists), Call.Allocate(n))
    ensures Honest(old(fs.Advised()), old(fs.Cells()), fs.Advised(), fs.Cells())
    ensures fs.Outside() == old(fs.Outside())
  {
    ghost var t := fs.Cells();
    FreeFromListed(t, 2);
    FreeCount(t);
    var run := fs.AllocateClusters(n, None);
    now, lists' := files, lists;
    if run.Ok? {
      now, lists' := files + [Chain(run.value[0], 0)], lists + [run.value];
      AllocatedStep(t, fs.Cells(), lists, run.value);
      LinkedLess(t, fs.Cells(), None, run.value);
      OneMore(t, fs.Cells(), files, lists, Chain(run.value[0], 0), run.value);
    }
  }

  method GrowChain(fs: FatVolume, cs: nat, files: seq<Chain>, i: nat, needed: nat, ghost lists: seq<seq<nat>>)
      returns (now: seq<Chain>, ghost lists': seq<seq<nat>>)
    requires cs > 0 && fs.l.maxCluster <= U32_MAX && i < |files| && Live(fs, cs, files, lists)
    modifies fs
    ensures Live(fs, cs, now, lists') && SameStock(old(fs.Cells()), fs.Cells())
    ensures PlanOf(fs.Cells(), now, lists') == Served(cs, PlanOf(old(fs.Cells()), files, lists), Call.Grow(i, needed))
    ensures Honest(old(fs.Advised()), old(fs.Cells()), fs.Advised(), fs.Cells())
    ensures fs.Outside() == old(fs.Outside())
  {
    ghost var t, s := fs.Cells(), lists[i];
    IsLive(t, lists, i);
    FreeCount(t);
    var chain := new FatClusterMap(fs, cs, files[i].size, files[i].first, s);
    ghost var n := Wants(File(files[i].size, |s|), cs, needed);
    assert n == Lacking(|chain.clusters|, chain.allocatedLen, cs, needed);
    var grown := chain.Extend(Some(files[i].first), None, needed);
    now, lists' := files, lists;
    if grown.Ok? {
      ghost var run := chain.clusters[|s|..];
      assert chain.clusters == s + run;
      now := files[i := Chain(grown.value.first, Max(files[i].size, needed))];
      lists' := lists[i := s + run];
      UnitsMono(|s|, |s + run|, cs);
      GrownStep(t, fs.Cells(), lists, i, run);
      PlanGrown(t, fs.Cells(), cs, files, lists, i, needed, now[i], s + run, n);
    } else {
      PlanStays(t, cs, files, lists, i, needed, n);
    }
  }

  lemma PlanGrown(t: Table, u: Table, cs: nat, files: seq<Chain>, lists: seq<seq<nat>>, i: nat, needed: nat, f: Chain,
      s: seq<nat>, n: nat)
    requires cs > 0 && i < |files| == |lists| && n == Wants(File(files[i].size, |lists[i]|), cs, needed)
    requires f.size == Max(files[i].size, needed) && |s| == |lists[i]| + n && |FreeSet(u)| + n == |FreeSet(t)|
    ensures PlanOf(u, files[i := f], lists[i := s]) == Served(cs, PlanOf(t, files, lists), Call.Grow(i, needed))
  {
    OneOther(t, u, files, lists, i, f, s);
  }

  lemma PlanStays(t: Table, cs: nat, files: seq<Chain>, lists: seq<seq<nat>>, i: nat, needed: nat, n: nat)
    requires cs > 0 && i < |files| == |lists| && n == Wants(File(files[i].size, |lists[i]|), cs, needed)
    requires |FreeSet(t)| < n
    ensures PlanOf(t, files, lists) == Served(cs, PlanOf(t, files, lists), Call.Grow(i, needed))
  {
  }

  method CutChain(fs: FatVolume, cs: nat, files: seq<Chain>, i: nat, keep: nat, ghost lists: seq<seq<nat>>)
      returns (now: seq<Chain>, ghost lists': seq<seq<nat>>)
    requires cs > 0 && fs.l.maxCluster <= U32_MAX && i < |files| && keep <= files[i].size && Live(fs, cs, files, lists)
    modifies fs
    ensures Live(fs, cs, now, lists') && SameStock(old(fs.Cells()), fs.Cells())
    ensures PlanOf(fs.Cells(), now, lists') == Served(cs, PlanOf(old(fs.Cells()), files, lists), Call.Cut(i, keep))
    ensures Honest(old(fs.Advised()), old(fs.Cells()), fs.Advised(), fs.Cells())
    ensures fs.Outside() == old(fs.Outside())
  {
    ghost var t, s := fs.Cells(), lists[i];
    IsLive(t, lists, i);
    var chain := new FatClusterMap(fs, cs, files[i].size, files[i].first, s);
    var cut := chain.FreeTail(files[i].first, keep);
    ghost var k := |chain.clusters|;
    now, lists' := files[i := Chain(files[i].first, keep)], lists[i := s[..k]];
    CutStep(t, fs.Cells(), lists, i, k);
    CutMore(t, fs.Cells(), s, k);
    OneOther(t, fs.Cells(), files, lists, i, now[i], s[..k]);
  }

  method FreeChain(fs: FatVolume, cs: nat, files: seq<Chain>, i: nat, ghost lists: seq<seq<nat>>)
      returns (now: seq<Chain>, ghost lists': seq<seq<nat>>)
    requires cs > 0 && i < |files| && Live(fs, cs, files, lists)
    modifies fs
    ensures Live(fs, cs, now, lists') && SameStock(old(fs.Cells()), fs.Cells())
    ensures PlanOf(fs.Cells(), now, lists') == Served(cs, PlanOf(old(fs.Cells()), files, lists), Call.Free(i))
    ensures Honest(old(fs.Advised()), old(fs.Cells()), fs.Advised(), fs.Cells())
    ensures fs.Outside() == old(fs.Outside())
  {
    ghost var t, s := fs.Cells(), lists[i];
    IsLive(t, lists, i);
    var freed := fs.FreeClusterChain(files[i].first);
    FreeWalkChain(t, s);
    now, lists' := files[..i] + files[i + 1..], lists[..i] + lists[i + 1..];
    FreedStep(t, fs.Cells(), lists, i);
    OneGone(t, fs.Cells(), files, lists, i);
  }

  lemma OneMore(t: Table, u: Table, files: seq<Chain>, lists: seq<seq<nat>>, f: Chain, s: seq<nat>)
    requires |files| == |lists|
    ensures PlanOf(u, files + [f], lists + [s]) ==
            Plan(PlanOf(t, files, lists).files + [File(f.size, |s|)], |FreeSet(u)|)
  {
  }

  lemma OneOther(t: Table, u: Table, files: seq<Chain>, lists: seq<seq<nat>>, i: nat, f: Chain, s: seq<nat>)
    requires i < |files| == |lists|
    ensures PlanOf(u, files[i := f], lists[i := s]) ==
            Plan(PlanOf(t, files, lists).files[i := File(f.size, |s|)], |FreeSet(u)|)
  {
  }

  lemma OneGone(t: Table, u: Table, files: seq<Chain>, lists: seq<seq<nat>>, i: nat)
    requires i < |files| == |lists|
    ensures var p := PlanOf(t, files, lists);
      PlanOf(u, files[..i] + files[i + 1..], lists[..i] + lists[i + 1..]) ==
        Plan(p.files[..i] + p.files[i + 1..], |FreeSet(u)|)
  {
  }

  // ---------------------------------------------------------------- one step

  lemma Stepped(a: Heap, op: Op, b: Heap)
    requires Owned(a.table, a.chains) && Does(a, op, b)
    ensures Owned(b.table, b.chains) && SameStock(a.table, b.table)
  {
    StepOwned(a, op, b);
    Conserved(a.table, b.table);
  }

  lemma GrownStep(t: Table, u: Table, lists: seq<seq<nat>>, i: nat, run: seq<nat>)
    requires i < |lists| && lists[i] != [] && Owned(t, SetOf(lists))
    requires Apart(lists)
    requires if run == [] then u == t else IsLinked(t, u, Some(lists[i][|lists[i]| - 1]), run)
    requires forall c :: c in run ==> c in FreeSet(t)
    ensures Owned(u, SetOf(lists[i := lists[i] + run])) && SameStock(t, u)
    ensures Apart(lists[i := lists[i] + run]) && |FreeSet(u)| + |run| == |FreeSet(t)|
  {
    if run == [] {
      assert lists[i] + run == lists[i] && lists[i := lists[i]] == lists;
      return;
    }
    FreeOfChains(t, SetOf(lists), run);
    IsLive(t, lists, i);
    ChainTaken(t, lists[i]);
    forall c | c in run
      ensures c in FreeSet(t)
    {
    }
    LinkedLess(t, u, Some(lists[i][|lists[i]| - 1]), run);
    forall j | 0 <= j < |lists| && j != i
      ensures lists[j] != lists[i] + run
    {
      assert lists[j] in SetOf(lists);
      assert run[0] !in lists[j] && run[0] in lists[i] + run;
    }
    Replaced(lists, i, lists[i] + run);
    Stepped(Heap(t, SetOf(lists)), Op.Extend(lists[i], run), Heap(u, SetOf(lists[i := lists[i] + run])));
  }

  lemma AllocatedStep(t: Table, u: Table, lists: seq<seq<nat>>, run: seq<nat>)
    requires run != [] && Apart(lists) && Owned(t, SetOf(lists)) && IsLinked(t, u, None, run)
    requires forall c :: c in run ==> IsData(t, c) && t[c] == FatEntry.Free
    ensures Owned(u, SetOf(lists + [run])) && SameStock(t, u) && Apart(lists + [run])
  {
    FreeOfChains(t, SetOf(lists), run);
    forall j | 0 <= j < |lists|
      ensures lists[j] != run
    {
      assert lists[j] in SetOf(lists) && run[0] in run;
    }
    Pushed(lists, run);
    Stepped(Heap(t, SetOf(lists)), Op.Allocate(run), Heap(u, SetOf(lists + [run])));
  }

  lemma CutStep(t: Table, u: Table, lists: seq<seq<nat>>, i: nat, k: nat)
    requires i < |lists| && Apart(lists) && Owned(t, SetOf(lists)) && 0 < k <= |lists[i]| && IsCut(t, u, lists[i], k)
    ensures Owned(u, SetOf(lists[i := lists[i][..k]])) && SameStock(t, u) && Apart(lists[i := lists[i][..k]])
  {
    var s := lists[i];
    forall j | 0 <= j < |lists| && j != i
      ensures lists[j] != s[..k]
    {
      assert lists[j] in SetOf(lists) && s in SetOf(lists) && s[0] in s && s[..k][0] == s[0];
    }
    Replaced(lists, i, s[..k]);
    Stepped(Heap(t, SetOf(lists)), Op.Truncate(s, k), Heap(u, SetOf(lists[i := s[..k]])));
  }

  lemma FreedStep(t: Table, u: Table, lists: seq<seq<nat>>, i: nat)
    requires i < |lists| && Apart(lists) && Owned(t, SetOf(lists)) && IsFreed(t, u, lists[i])
    ensures Owned(u, SetOf(lists[..i] + lists[i + 1..])) && SameStock(t, u) && Apart(lists[..i] + lists[i + 1..])
    ensures |FreeSet(u)| == |FreeSet(t)| + |lists[i]|
  {
    IsLive(t, lists, i);
    Removed(lists, i);
    Stepped(Heap(t, SetOf(lists)), Op.Release(lists[i]), Heap(u, SetOf(lists[..i] + lists[i + 1..])));
    FreedMore(t, u, lists[i]);
  }

  /** A live chain, and the FAT from its first cluster on. */
  lemma IsLive(t: Table, lists: seq<seq<nat>>, i: nat)
    requires i < |lists| && Owned(t, SetOf(lists))
    ensures IsChain(t, lists[i]) && 2 <= lists[i][0] < |t|
  {
    assert lists[i] in SetOf(lists);
    assert ChainCell(t, lists[i], 0);
  }

  // ---------------------------------------------------------------- lists of chains

  lemma Pushed(lists: seq<seq<nat>>, s: seq<nat>)
    ensures SetOf(lists + [s]) == SetOf(lists) + {s}
  {
  }

  lemma Replaced(lists: seq<seq<nat>>, i: nat, s: seq<nat>)
    requires i < |lists| && Apart(lists)
    ensures SetOf(lists[i := s]) == SetOf(lists) - {lists[i]} + {s}
  {
    forall r
      ensures r in lists[i := s] <==> r == s || (r in lists && r != lists[i])
    {
      if r in lists && r != lists[i] {
        var j :| 0 <= j < |lists| && lists[j] == r;
        assert lists[i := s][j] == r;
      }
      assert lists[i := s][i] == s;
    }
  }

  lemma Removed(lists: seq<seq<nat>>, i: nat)
    requires i < |lists| && Apart(lists)
    ensures SetOf(lists[..i] + lists[i + 1..]) == SetOf(lists) - {lists[i]}
  {
    var rest := lists[..i] + lists[i + 1..];
    forall r
      ensures r in rest <==> r in lists && r != lists[i]
    {
      if r in lists && r != lists[i] {
        var j :| 0 <= j < |lists| && lists[j] == r;
        assert rest[if j < i then j else j - 1] == r;
      }
    }
  }
}
