/** What the allocator's operations mean on a decoded table: the free clusters in order, cluster
    chains, who owns which cell, and which cells a chain free reaches. */
module FatTables {
  import opened Basics
  import opened FatCells
  import opened ClusterMaps

  type Table = seq<FatEntry>

  /** Every link of a decoded table names a data cluster. */
  predicate LinksIn(t: Table) {
    forall c :: 0 <= c < |t| && t[c].Next? ==> 2 <= t[c].cluster < |t|
  }

  predicate IsData(t: Table, c: nat) { 2 <= c < |t| }

  // ---------------------------------------------------------------- free clusters

  /** The free clusters at or after `c`, in ascending order. */
  function FreeFrom(t: Table, c: nat): seq<nat>
    decreases |t| - c
  {
    if c >= |t| then [] else if t[c] == Free then [c] + FreeFrom(t, c + 1) else FreeFrom(t, c + 1)
  }

  lemma {:induction false} FreeFromListed(t: Table, c: nat)
    ensures forall i :: 0 <= i < |FreeFrom(t, c)| ==> c <= FreeFrom(t, c)[i] < |t| && t[FreeFrom(t, c)[i]] == Free
    ensures forall i, j :: 0 <= i < j < |FreeFrom(t, c)| ==> FreeFrom(t, c)[i] < FreeFrom(t, c)[j]
    decreases |t| - c
  {
    if c >= |t| {
    } else {
      FreeFromListed(t, c + 1);
    }
  }

  lemma {:induction false} FreeFromBounded(t: Table, c: nat)
    ensures |FreeFrom(t, c)| <= Max(0, |t| - c)
    decreases |t| - c
  {
    if c >= |t| {
    } else {
      FreeFromBounded(t, c + 1);
    }
  }

  lemma {:induction false} FreeFromHas(t: Table, c: nat, x: nat)
    requires c <= x < |t| && t[x] == Free
    ensures x in FreeFrom(t, c)
    decreases |t| - c
  {
    if x != c {
      FreeFromHas(t, c + 1, x);
    }
  }

  /** The lowest free cluster heads the list. */
  lemma {:induction false} FreeFromSkips(t: Table, c: nat, d: nat)
    requires c <= d && forall x :: c <= x < d && x < |t| ==> t[x] != Free
    ensures FreeFrom(t, c) == FreeFrom(t, d)
    decreases d - c
  {
    if c < d && c < |t| {
      FreeFromSkips(t, c + 1, d);
    }
  }

  lemma {:induction false} FreeFromFrame(t: Table, u: Table, c: nat)
    requires |t| == |u| && forall x :: c <= x < |t| ==> (t[x] == Free <==> u[x] == Free)
    ensures FreeFrom(t, c) == FreeFrom(u, c)
    decreases |t| - c
  {
    if c >= |t| {
    } else {
      FreeFromFrame(t, u, c + 1);
    }
  }

  /** Claiming the lowest free cluster drops the head of the list. */
  lemma FreeFromClaim(t: Table, u: Table, c: nat, d: nat)
    requires |t| == |u| && c <= d < |t| && t[d] == Free && u[d] != Free
    requires forall x :: c <= x < d ==> t[x] != Free
    requires forall x :: c <= x < |t| && x != d ==> (t[x] == Free <==> u[x] == Free)
    ensures FreeFrom(t, c) == [d] + FreeFrom(u, c)
  {
    FreeFromSkips(t, c, d);
    FreeFromSkips(u, c, d);
    FreeFromFrame(t, u, d + 1);
  }

  /** No free cluster lies below `hint`. */
  ghost predicate HintFits(t: Table, hint: nat) {
    forall c :: 2 <= c < hint && c < |t| ==> t[c] != Free
  }

  /** A write keeps the hint sound exactly unless it makes a cell below it free without moving it
      down. */
  lemma HintKept(t: Table, hint: nat, c: nat, e: FatEntry, lowers: bool)
    requires HintFits(t, hint) && 2 <= c < |t|
    ensures HintFits(t[c := e], if lowers && c < hint then c else hint) <==> e != Free || lowers || c >= hint
  {
    assert t[c := e][c] == e;
  }

  // ---------------------------------------------------------------- chains

  /** `s` is a whole chain: each cell links to the next, the last one ends it. */
  ghost predicate IsChain(t: Table, s: seq<nat>) {
    s != [] && forall i: nat {:trigger ChainCell(t, s, i)} :: i < |s| ==> ChainCell(t, s, i)
  }

  ghost predicate ChainCell(t: Table, s: seq<nat>, i: nat)
    requires i < |s|
  {
    IsData(t, s[i]) && t[s[i]] == if i + 1 < |s| then Next(s[i + 1]) else End
  }

  /** Chains are acyclic. */
  lemma ChainDistinct(t: Table, s: seq<nat>)
    requires IsChain(t, s)
    ensures Distinct(s) && InHeap(s)
  {
    forall i: nat | i < |s|
      ensures s[i] >= 2
    {
      assert ChainCell(t, s, i);
    }
    forall i: nat, j: nat | i < j < |s|
      ensures s[i] != s[j]
    {
      ChainNoRepeat(t, s, i, j);
    }
  }

  lemma {:induction false} ChainNoRepeat(t: Table, s: seq<nat>, i: nat, j: nat)
    requires IsChain(t, s) && i < j < |s|
    ensures s[i] != s[j]
    decreases |s| - j
  {
    assert ChainCell(t, s, i) && ChainCell(t, s, j);
    if j + 1 < |s| {
      ChainNoRepeat(t, s, i + 1, j + 1);
    }
  }

  /** A chain is no longer than the volume has clusters. */
  lemma ChainBounded(t: Table, s: seq<nat>)
    requires IsChain(t, s)
    ensures |s| <= |t| - 2
  {
    ChainDistinct(t, s);
    assert ChainCell(t, s, 0);
    forall i | 0 <= i < |s|
      ensures 2 <= s[i] < |t|
    {
      assert ChainCell(t, s, i);
    }
    DistinctBounded(s, 2, |t|);
  }

  /** `run` was chained, in order, after `link`; no other cell changed. */
  ghost predicate IsLinked(t: Table, u: Table, link: Option<nat>, run: seq<nat>) {
    && |u| == |t|
    && (run != [] ==> IsChain(u, run))
    && (run != [] && link.Some? ==> link.value < |u| && u[link.value] == Next(run[0]))
    && forall c: nat :: c < |t| && c !in run && (link == Some(c) ==> run == []) ==> u[c] == t[c]
  }

  /** The chain `s` was cut after its first `k` clusters; no other cell changed. */
  ghost predicate IsCut(t: Table, u: Table, s: seq<nat>, k: nat)
    requires 0 < k <= |s|
  {
    && |u| == |t|
    && IsChain(u, s[..k])
    && (forall i :: k <= i < |s| ==> s[i] < |u| && u[s[i]] == Free)
    && forall c: nat :: c < |t| && c !in s ==> u[c] == t[c]
  }

  /** A truncation under way: the `k`th cluster ends the chain, those from `k` to `j` are free. */
  ghost predicate CutTo(t: Table, u: Table, s: seq<nat>, k: nat, j: nat)
    requires 0 < k <= j <= |s|
  {
    && |u| == |t| && InTable(t, s)
    && u[s[k - 1]] == End
    && (forall i :: k <= i < j ==> u[s[i]] == Free)
    && forall c: nat {:trigger u[c]} :: c < |t| && c != s[k - 1] && (forall i :: k <= i < j ==> s[i] != c) ==>
      u[c] == t[c]
  }

  predicate InTable(t: Table, s: seq<nat>) {
    forall i :: 0 <= i < |s| ==> IsData(t, s[i])
  }

  lemma ChainCells(t: Table, s: seq<nat>)
    requires IsChain(t, s)
    ensures InTable(t, s)
    ensures forall i :: 0 <= i < |s| ==> t[s[i]] == if i + 1 < |s| then Next(s[i + 1]) else End
  {
    forall i: nat | i < |s|
      ensures IsData(t, s[i]) && t[s[i]] == if i + 1 < |s| then Next(s[i + 1]) else End
    {
      assert ChainCell(t, s, i);
    }
  }

  lemma CutStep(t: Table, u: Table, s: seq<nat>, k: nat, j: nat)
    requires IsChain(t, s) && 0 < k <= j < |s| && CutTo(t, u, s, k, j)
    ensures u[s[j]] == t[s[j]] == if j + 1 < |s| then Next(s[j + 1]) else End
    ensures CutTo(t, u[s[j] := Free], s, k, j + 1)
  {
    ChainDistinct(t, s);
    assert ChainCell(t, s, j);
  }

  lemma CutDone(t: Table, u: Table, s: seq<nat>, k: nat)
    requires IsChain(t, s) && 0 < k <= |s| && CutTo(t, u, s, k, |s|)
    ensures IsCut(t, u, s, k)
  {
    ChainDistinct(t, s);
    forall i: nat | i < |s[..k]|
      ensures ChainCell(u, s[..k], i)
    {
      assert ChainCell(t, s, i);
    }
    forall c: nat | c < |t| && c !in s
      ensures u[c] == t[c]
    {
      assert s[k - 1] in s;
    }
  }

  /** Exactly the clusters of `s` became free. */
  ghost predicate IsFreed(t: Table, u: Table, s: seq<nat>) {
    |u| == |t| && forall c: nat :: c < |t| ==> u[c] == if c in s then Free else t[c]
  }

  /** Where the next cluster of a growing run is linked from. */
  function Tail(link: Option<nat>, run: seq<nat>): Option<nat> {
    if run == [] then link else Some(run[|run| - 1])
  }

  function Claimed(u: Table, prev: Option<nat>, c: nat): Table
    requires c < |u| && (prev.Some? ==> prev.value < |u|)
  {
    var u' := u[c := End];
    if prev.Some? then u'[prev.value := Next(c)] else u'
  }

  /** Claiming one more free cluster and linking it from the tail lengthens the run. */
  lemma LinkedPush(t: Table, u: Table, link: Option<nat>, run: seq<nat>, c: nat)
    requires IsLinked(t, u, link, run) && IsData(u, c) && u[c] == Free
    requires link.Some? ==> link.value < |t| && t[link.value] != Free && link.value !in run
    ensures Tail(link, run).Some? ==> Tail(link, run).value < |u| && u[Tail(link, run).value] != Free
    ensures IsLinked(t, Claimed(u, Tail(link, run), c), link, run + [c])
  {
    forall i: nat | i < |run|
      ensures run[i] < |u| && run[i] != c && u[run[i]] != Free
    {
      assert ChainCell(u, run, i);
    }
    var u', run' := Claimed(u, Tail(link, run), c), run + [c];
    if run != [] {
      ChainDistinct(u, run);
    }
    forall i: nat | i < |run'|
      ensures ChainCell(u', run', i)
    {
      if i < |run| {
        assert ChainCell(u, run, i);
      }
    }
  }

  /** An allocation under way: the run so far is chained after `link`, and the clusters free at
      the start are the run followed by those still free. */
  ghost predicate Partial(t: Table, u: Table, link: Option<nat>, run: seq<nat>, free: seq<nat>, left: seq<nat>) {
    && IsLinked(t, u, link, run)
    && free == run + left
    && (forall c :: c in free ==> IsData(t, c) && t[c] == Free)
    && (forall c :: c in left ==> IsData(u, c) && u[c] == Free)
    && (link.Some? ==> IsData(t, link.value) && t[link.value] != Free)
  }

  /** The tail a run grows from is in use. */
  lemma TailInUse(t: Table, u: Table, link: Option<nat>, run: seq<nat>, free: seq<nat>, left: seq<nat>)
    requires Partial(t, u, link, run, free, left)
    ensures Tail(link, run).Some? ==> IsData(u, Tail(link, run).value) && u[Tail(link, run).value] != Free
  {
    if run != [] {
      assert ChainCell(u, run, |run| - 1);
    } else if link.Some? {
      assert u[link.value] == t[link.value];
    }
  }

  lemma PartialPush(t: Table, u: Table, link: Option<nat>, run: seq<nat>, free: seq<nat>, left: seq<nat>,
      rest: seq<nat>)
    requires Partial(t, u, link, run, free, left) && left != [] && left == [left[0]] + rest && left[0] < |u|
    requires Tail(link, run).Some? ==> Tail(link, run).value < |u|
    requires forall c :: c in rest ==> IsData(u, c) && Claimed(u, Tail(link, run), left[0])[c] == Free
    ensures Partial(t, Claimed(u, Tail(link, run), left[0]), link, run + [left[0]], free, rest)
  {
    assert forall c :: c in run ==> c in free;
    LinkedPush(t, u, link, run, left[0]);
    assert run + left == (run + [left[0]]) + rest;
  }

  /** Undoing a partial run: its clusters free again, the tail it hung from ends the chain. */
  lemma Unwound(t: Table, u: Table, w: Table, link: Option<nat>, run: seq<nat>)
    requires IsLinked(t, u, link, run) && (forall c :: c in run ==> IsData(t, c) && t[c] == Free)
    requires link.Some? ==> link.value < |t| && link.value !in run
    requires |w| == |u| && forall c: nat :: c < |u| ==> w[c] == if c in run then Free else u[c]
    ensures (if link.Some? && run != [] then w[link.value := End] else w) ==
      if link.Some? && run != [] then t[link.value := End] else t
  {
    var a := if link.Some? && run != [] then w[link.value := End] else w;
    var b := if link.Some? && run != [] then t[link.value := End] else t;
    forall c: nat | c < |t|
      ensures a[c] == b[c]
    {
    }
  }

  // ---------------------------------------------------------------- ownership

  /** The live chains own exactly the linked and terminal cells, each cell by one chain. */
  ghost predicate Owned(t: Table, chains: set<seq<nat>>) {
    && (forall s :: s in chains ==> IsChain(t, s))
    && (forall s, r, c: nat :: s in chains && r in chains && c in s && c in r ==> s == r)
    && (forall c: nat :: IsData(t, c) && (t[c].Next? || t[c].End?) ==> exists s :: s in chains && c in s)
  }

  /** A cell is in use exactly when a live chain owns it. */
  lemma OwnedExactly(t: Table, chains: set<seq<nat>>, c: nat)
    requires Owned(t, chains) && IsData(t, c)
    ensures (exists s :: s in chains && c in s) <==> t[c].Next? || t[c].End?
  {
    if s :| s in chains && c in s {
      var i :| 0 <= i < |s| && s[i] == c;
      assert ChainCell(t, s, i);
    }
  }

  /** A chain none of whose cells changed is still that chain. */
  lemma ChainFrame(t: Table, u: Table, s: seq<nat>)
    requires |u| == |t| && IsChain(t, s) && forall c: nat :: c < |t| && c in s ==> u[c] == t[c]
    ensures IsChain(u, s)
  {
    forall i: nat | i < |s|
      ensures ChainCell(u, s, i)
    {
      assert ChainCell(t, s, i);
    }
  }

  /** A new chain of formerly free clusters joins the others. */
  lemma AllocateOwned(t: Table, u: Table, chains: set<seq<nat>>, run: seq<nat>)
    requires Owned(t, chains) && run != [] && IsLinked(t, u, None, run)
    requires forall c :: c in run ==> IsData(t, c) && t[c] == Free
    ensures Owned(u, chains + {run})
  {
    FreeOfChains(t, chains, run);
    forall s | s in chains
      ensures IsChain(u, s)
    {
      ChainFrame(t, u, s);
    }
  }

  lemma FreeOfChains(t: Table, chains: set<seq<nat>>, run: seq<nat>)
    requires Owned(t, chains) && forall c :: c in run ==> IsData(t, c) && t[c] == Free
    ensures forall s, c: nat :: s in chains && c in s ==> c !in run
  {
    forall s, c: nat | s in chains && c in s
      ensures c !in run
    {
      var i :| 0 <= i < |s| && s[i] == c;
      assert ChainCell(t, s, i);
    }
  }

  /** Appending formerly free clusters to a live chain makes it that longer chain. */
  lemma ExtendOwned(t: Table, u: Table, chains: set<seq<nat>>, s: seq<nat>, run: seq<nat>)
    requires Owned(t, chains) && s in chains && run != [] && IsLinked(t, u, Some(s[|s| - 1]), run)
    requires forall c :: c in run ==> IsData(t, c) && t[c] == Free
    ensures Owned(u, chains - {s} + {s + run})
  {
    FreeOfChains(t, chains, run);
    ChainExtend(t, u, s, run);
    forall r | r in chains && r != s
      ensures IsChain(u, r)
    {
      assert s[|s| - 1] in s;
      ChainFrame(t, u, r);
    }
  }

  lemma ChainExtend(t: Table, u: Table, s: seq<nat>, run: seq<nat>)
    requires IsChain(t, s) && run != [] && IsLinked(t, u, Some(s[|s| - 1]), run)
    requires forall c :: c in run ==> c !in s
    ensures IsChain(u, s + run)
  {
    ChainDistinct(t, s);
    forall i: nat | i < |s + run|
      ensures ChainCell(u, s + run, i)
    {
      if i < |s| {
        assert ChainCell(t, s, i);
        assert s[i] in s;
      } else {
        assert ChainCell(u, run, i - |s|);
      }
    }
  }

  /** Truncating a live chain leaves its prefix. */
  lemma CutOwned(t: Table, u: Table, chains: set<seq<nat>>, s: seq<nat>, k: nat)
    requires Owned(t, chains) && s in chains && 0 < k <= |s| && IsCut(t, u, s, k)
    ensures Owned(u, chains - {s} + {s[..k]})
  {
    forall r | r in chains && r != s
      ensures IsChain(u, r)
    {
      ChainFrame(t, u, r);
    }
    forall c: nat | IsData(u, c) && (u[c].Next? || u[c].End?)
      ensures exists r :: r in chains - {s} + {s[..k]} && c in r
    {
      if c in s {
        var i :| 0 <= i < |s| && s[i] == c;
        assert c == s[..k][i];
      } else {
        var r :| r in chains && c in r;
        assert r in chains - {s} + {s[..k]};
      }
    }
  }

  /** Freeing a whole live chain removes it. */
  lemma FreeOwned(t: Table, u: Table, chains: set<seq<nat>>, s: seq<nat>)
    requires Owned(t, chains) && s in chains && IsFreed(t, u, s)
    ensures Owned(u, chains - {s})
  {
    forall r | r in chains && r != s
      ensures IsChain(u, r)
    {
      ChainFrame(t, u, r);
    }
  }

  // ---------------------------------------------------------------- conservation

  ghost function FreeSet(t: Table): set<nat> { set c: nat | c < |t| && IsData(t, c) && t[c] == Free }

  ghost function OwnedSet(t: Table): set<nat> { set c: nat | c < |t| && IsData(t, c) && (t[c].Next? || t[c].End?) }

  ghost function LostSet(t: Table): set<nat> { set c: nat | c < |t| && IsData(t, c) && (t[c].Bad? || t[c].Reserved?) }

  ghost function DataSet(t: Table): set<nat> { set c: nat | c < |t| && IsData(t, c) }

  lemma FreeOrOwned(t: Table)
    ensures FreeSet(t) + OwnedSet(t) == DataSet(t) - LostSet(t)
    ensures |FreeSet(t)| + |OwnedSet(t)| == |DataSet(t) - LostSet(t)|
  {
    assert FreeSet(t) + OwnedSet(t) == DataSet(t) - LostSet(t);
    assert FreeSet(t) !! OwnedSet(t);
  }

  /** Free and owned clusters only trade places: with the unusable ones fixed, their sum is fixed. */
  lemma Conserved(t: Table, u: Table)
    requires |t| == |u| && LostSet(t) == LostSet(u)
    ensures |FreeSet(t)| + |OwnedSet(t)| == |FreeSet(u)| + |OwnedSet(u)|
  {
    FreeOrOwned(t);
    FreeOrOwned(u);
    assert DataSet(t) == DataSet(u);
  }

  // ---------------------------------------------------------------- runs

  datatype Heap = Heap(table: Table, chains: set<seq<nat>>)

  /** The four things the driver does to the table, as the methods of `FatVolume` and
      `FatClusterMap` are specified to do them. */
  datatype Op =
    | Allocate(run: seq<nat>)
    | Extend(chain: seq<nat>, run: seq<nat>)
    | Truncate(chain: seq<nat>, keep: nat)
    | Release(chain: seq<nat>)

  ghost predicate Does(a: Heap, op: Op, b: Heap) {
    match op
    case Allocate(run) =>
      && run != [] && (forall c :: c in run ==> IsData(a.table, c) && a.table[c] == Free)
      && IsLinked(a.table, b.table, None, run) && b.chains == a.chains + {run}
    case Extend(s, run) =>
      && s in a.chains && s != [] && run != [] && (forall c :: c in run ==> IsData(a.table, c) && a.table[c] == Free)
      && IsLinked(a.table, b.table, Some(s[|s| - 1]), run) && b.chains == a.chains - {s} + {s + run}
    case Truncate(s, keep) =>
      && s in a.chains && 0 < keep <= |s| && IsCut(a.table, b.table, s, keep)
      && b.chains == a.chains - {s} + {s[..keep]}
    case Release(s) =>
      && s in a.chains && IsFreed(a.table, b.table, s) && b.chains == a.chains - {s}
  }

  lemma StepOwned(a: Heap, op: Op, b: Heap)
    requires Owned(a.table, a.chains) && Does(a, op, b)
    ensures Owned(b.table, b.chains) && |b.table| == |a.table|
    ensures LostSet(b.table) == LostSet(a.table)
  {
    match op {
      case Allocate(run) => AllocateOwned(a.table, b.table, a.chains, run);
      case Extend(s, run) => ExtendOwned(a.table, b.table, a.chains, s, run);
      case Truncate(s, keep) => CutOwned(a.table, b.table, a.chains, s, keep);
      case Release(s) => FreeOwned(a.table, b.table, a.chains, s);
    }
    forall c: nat | IsData(a.table, c)
      ensures (b.table[c].Bad? || b.table[c].Reserved?) <==> (a.table[c].Bad? || a.table[c].Reserved?)
    {
      OwnedExactly(a.table, a.chains, c);
      OwnedExactly(b.table, b.chains, c);
      if b.table[c] != a.table[c] {
        Touched(a, op, b, c);
      }
    }
    assert forall c: nat :: c in LostSet(b.table) <==> c in LostSet(a.table);
  }

  /** A cell an operation changes was free or owned before and is free or owned after. */
  lemma Touched(a: Heap, op: Op, b: Heap, c: nat)
    requires Owned(a.table, a.chains) && Owned(b.table, b.chains) && Does(a, op, b)
    requires |b.table| == |a.table| && IsData(a.table, c) && a.table[c] != b.table[c]
    ensures a.table[c].Free? || a.table[c].Next? || a.table[c].End?
    ensures b.table[c].Free? || b.table[c].Next? || b.table[c].End?
  {
    OwnedExactly(a.table, a.chains, c);
    OwnedExactly(b.table, b.chains, c);
    match op {
      case Allocate(run) =>
        assert c in run && run in b.chains;
      case Extend(s, run) =>
        assert c in run || c == s[|s| - 1];
        assert s + run in b.chains && (c in s + run);
        assert s[|s| - 1] in s;
      case Truncate(s, keep) =>
        assert c in s;
        var i :| 0 <= i < |s| && s[i] == c;
        if i < keep {
          assert s[..keep][i] == c && s[..keep] in b.chains;
        }
      case Release(s) =>
        assert c in s;
    }
  }

  /** Over every run of allocations, growths, truncations and releases the live chains stay
      acyclic and disjoint, own exactly the cells in use, and clusters are conserved. */
  lemma {:induction false} RunOwned(heaps: seq<Heap>, ops: seq<Op>)
    requires |heaps| == |ops| + 1 && Owned(heaps[0].table, heaps[0].chains)
    requires forall i :: 0 <= i < |ops| ==> Does(heaps[i], ops[i], heaps[i + 1])
    ensures var last := heaps[|ops|];
      && Owned(last.table, last.chains)
      && LostSet(last.table) == LostSet(heaps[0].table)
      && |last.table| == |heaps[0].table|
      && |FreeSet(last.table)| + |OwnedSet(last.table)| == |FreeSet(heaps[0].table)| + |OwnedSet(heaps[0].table)|
  {
    if ops != [] {
      var n := |ops| - 1;
      RunOwned(heaps[..n + 1], ops[..n]);
      StepOwned(heaps[n], ops[n], heaps[n + 1]);
    }
    Conserved(heaps[0].table, heaps[|ops|].table);
  }

  // ---------------------------------------------------------------- freeing any table

  function NextOf(e: FatEntry): Option<nat> { if e.Next? then Some(e.cluster) else None }

  /** The cluster `k` links after `c`. */
  function Steps(t: Table, c: nat, k: nat): Option<nat>
    requires LinksIn(t) && c < |t|
    decreases k
  {
    if k == 0 then Some(c) else if t[c].Next? then Steps(t, t[c].cluster, k - 1) else None
  }

  ghost predicate Reaches(t: Table, c: nat, x: nat)
    requires LinksIn(t) && c < |t|
  {
    exists k: nat :: Steps(t, c, k) == Some(x)
  }

  /** Number of linked cells below `n`: what a chain free uses up. */
  function LinkCount(t: Table, n: nat): (k: nat)
    requires n <= |t|
    ensures k <= n
  {
    if n == 0 then 0 else LinkCount(t, n - 1) + if t[n - 1].Next? then 1 else 0
  }

  lemma {:induction false} LinkCountDrops(t: Table, c: nat, n: nat)
    requires c < |t| && n <= |t| && t[c].Next?
    ensures LinkCount(t[c := Free], n) == LinkCount(t, n) - if c < n then 1 else 0
  {
    if n == 0 {
    } else {
      LinkCountDrops(t, c, n - 1);
    }
  }

  /** Free cluster after cluster along the links until a cell is not a link. */
  function FreeWalk(t: Table, c: nat): (u: Table)
    requires LinksIn(t) && c < |t|
    ensures |u| == |t|
    decreases LinkCount(t, |t|)
  {
    var t' := t[c := Free];
    if t[c].Next? then (LinkCountDrops(t, c, |t|); FreeWalk(t', t[c].cluster)) else t'
  }

  lemma {:induction false} StepsCompose(t: Table, c: nat, j: nat, k: nat)
    requires LinksIn(t) && c < |t| && Steps(t, c, j).Some?
    ensures Steps(t, c, j).value < |t|
    ensures Steps(t, c, j + k) == Steps(t, Steps(t, c, j).value, k)
    decreases j
  {
    if j == 0 {
    } else {
      StepsCompose(t, t[c].cluster, j - 1, k);
    }
  }

  /** Dropping the link of `c` only loses routes through `c`. */
  lemma {:induction false} StepsAround(t: Table, c: nat, n: nat, k: nat)
    requires LinksIn(t) && c < |t| && n < |t|
    requires forall j: nat :: j < k ==> Steps(t, n, j) != Some(c)
    ensures Steps(t[c := Free], n, k) == Steps(t, n, k)
    decreases k
  {
    if k == 0 {
    } else {
      assert Steps(t, n, 0) == Some(n);
      if t[n].Next? {
        forall j: nat | j < k - 1
          ensures Steps(t, t[n].cluster, j) != Some(c)
        {
          assert Steps(t, n, j + 1) == Steps(t, t[n].cluster, j);
        }
        StepsAround(t, c, t[n].cluster, k - 1);
      }
    }
  }

  lemma {:induction false} StepsMonotone(t: Table, c: nat, n: nat, k: nat)
    requires LinksIn(t) && c < |t| && n < |t|
    requires Steps(t[c := Free], n, k).Some?
    ensures Steps(t, n, k) == Steps(t[c := Free], n, k)
    decreases k
  {
    if k == 0 {
    } else {
      StepsMonotone(t, c, t[n].cluster, k - 1);
    }
  }

  /** What `c`'s successor reaches in the whole table it reaches without `c`'s link, but for `c`. */
  lemma {:induction false} ReachesAround(t: Table, c: nat, k: nat, x: nat)
    requires LinksIn(t) && c < |t| && t[c].Next?
    requires Steps(t, t[c].cluster, k) == Some(x) && x != c
    ensures Reaches(t[c := Free], t[c].cluster, x)
    decreases k
  {
    var n := t[c].cluster;
    if j: nat :| j < k && Steps(t, n, j) == Some(c) {
      StepsCompose(t, n, j, k - j);
      assert Steps(t, c, k - j) == Steps(t, n, k - j - 1);
      ReachesAround(t, c, k - j - 1, x);
    } else {
      StepsAround(t, c, n, k);
    }
  }

  /** On any table, cyclic or not, the walk ends, and it frees exactly what the start reaches. */
  lemma {:induction false} FreeWalkReaches(t: Table, c: nat, x: nat)
    requires LinksIn(t) && c < |t| && x < |t|
    ensures FreeWalk(t, c)[x] == if Reaches(t, c, x) then Free else t[x]
    decreases LinkCount(t, |t|)
  {
    assert Steps(t, c, 0) == Some(c);
    if t[c].Next? {
      var n, t' := t[c].cluster, t[c := Free];
      LinkCountDrops(t, c, |t|);
      FreeWalkReaches(t', n, x);
      if x != c {
        if k: nat :| Steps(t, c, k) == Some(x) {
          assert k > 0;
          ReachesAround(t, c, k - 1, x);
        }
        if k: nat :| Steps(t', n, k) == Some(x) {
          StepsMonotone(t, c, n, k);
          assert Steps(t, c, k + 1) == Some(x);
        }
      }
    }
  }

  /** On a live chain the walk frees the chain. */
  lemma {:induction false} FreeWalkChain(t: Table, s: seq<nat>)
    requires LinksIn(t) && IsChain(t, s)
    ensures s[0] < |t| && IsFreed(t, FreeWalk(t, s[0]), s)
    decreases |s|
  {
    assert ChainCell(t, s, 0);
    if |s| <= 1 {
    } else {
      ChainDistinct(t, s);
      var t' := t[s[0] := Free];
      forall i: nat | i < |s[1..]|
        ensures ChainCell(t', s[1..], i)
      {
        assert ChainCell(t, s, i + 1);
      }
      FreeWalkChain(t', s[1..]);
    }
  }
}
