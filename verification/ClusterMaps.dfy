/** What an open stream may rely on in its cluster map (src/vfs/cluster_map.rs): the map holds a
    list of distinct clusters, growth appends to it and truncation keeps a prefix of it. The FAT
    and exFAT maps are proved to obey these laws in their own modules. */
module ClusterMaps {
  import opened Basics

  /** `cluster_to_offset` is affine: cluster 2 starts at `heap`. */
  datatype Geometry = Geometry(clusterSize: nat, heap: nat)

  /** The heap-independent part of a map's state. */
  datatype MapState = MapState(clusters: seq<nat>, allocatedLen: nat)

  predicate Distinct(s: seq<nat>) {
    forall i, j :: 0 <= i < j < |s| ==> s[i] != s[j]
  }

  /** Clusters 0 and 1 are reserved. */
  predicate InHeap(s: seq<nat>) {
    forall i :: 0 <= i < |s| ==> s[i] >= 2
  }

  /** Pigeonhole: distinct numbers from a range are no more than the range. */
  lemma {:induction false} DistinctBounded(s: seq<nat>, lo: nat, hi: nat)
    requires Distinct(s) && lo <= hi && forall i :: 0 <= i < |s| ==> lo <= s[i] < hi
    ensures |s| <= hi - lo
  {
    if s == [] {
    } else {
      assert lo <= s[0] < hi;
      if i :| 0 <= i < |s| && s[i] == hi - 1 {
        var r := s[..i] + s[i + 1..];
        DistinctBounded(r, lo, hi - 1);
      } else {
        DistinctBounded(s, lo, hi - 1);
      }
    }
  }

  function FirstOf(s: seq<nat>): Option<nat> { if s == [] then None else Some(s[0]) }

  /** The `first_cluster` field of a stream over this list: 0 when nothing is allocated. */
  function FirstField(s: seq<nat>): nat { if s == [] then 0 else s[0] }

  function LastOf(s: seq<nat>): Option<nat> { if s == [] then None else Some(s[|s| - 1]) }

  ghost predicate LawfulMap(m: MapState, cs: nat) {
    && cs > 0
    && Distinct(m.clusters)
    && InHeap(m.clusters)
    && |m.clusters| <= U32_MAX
    && m.allocatedLen <= Units(|m.clusters|, cs)
  }

  /** Appending one cluster that is not in the list yet. */
  lemma AppendLawful(m: MapState, cs: nat, c: nat)
    requires LawfulMap(m, cs) && c !in m.clusters && c >= 2 && |m.clusters| < U32_MAX
    ensures LawfulMap(MapState(m.clusters + [c], m.allocatedLen + cs), cs)
  {
    UnitsSplit(|m.clusters|, 1, cs);
  }

  /** `c` is the `i`th cluster of the list. */
  predicate At(clusters: seq<nat>, i: nat, c: nat) {
    i < |clusters| && clusters[i] == c
  }

  /** `next` walks the list. */
  ghost predicate LawfulNext(m: MapState, cluster: nat, next: Option<nat>) {
    forall i: nat :: At(m.clusters, i, cluster) ==>
      next == if i + 1 < |m.clusters| then Some(m.clusters[i + 1]) else None
  }

  /** The fewest clusters that make `held` clusters, which cover `covered` bytes, cover `needed`; an
      empty list gets one even for no bytes. */
  function Lacking(held: nat, covered: nat, cs: nat, needed: nat): nat
    requires cs > 0
    decreases if held == 0 then 1 else 0, Max(0, needed - covered)
  {
    if held != 0 && needed <= covered then 0 else 1 + Lacking(held + 1, covered + cs, cs, needed)
  }

  /** That many whole clusters. */
  lemma {:induction false} LackingIs(held: nat, covered: nat, cs: nat, needed: nat)
    requires cs > 0
    ensures held == 0 ==> Lacking(held, covered, cs, needed) == Max(1, DivCeil(Max(0, needed - covered), cs))
    ensures held != 0 ==> Lacking(held, covered, cs, needed) == DivCeil(Max(0, needed - covered), cs)
    decreases if held == 0 then 1 else 0, Max(0, needed - covered)
  {
    var left: nat := Max(0, needed - covered);
    DivCeilLeast(left, cs, 0);
    DivCeilLeast(left, cs, 1);
    if held == 0 || needed > covered {
      LackingIs(held + 1, covered + cs, cs, needed);
      if left > cs {
        OneLess(left, cs);
      }
    }
  }

  lemma OneLess(a: nat, cs: nat)
    requires cs > 0 && a > cs
    ensures DivCeil(a, cs) == 1 + DivCeil(a - cs, cs)
  {
    var n := DivCeil(a - cs, cs);
    DivCeilCovers(a - cs, cs);
    DivCeilLeast(a, cs, n);
    DivCeilLeast(a, cs, n + 1);
    if n > 0 {
      DivCeilLeast(a - cs, cs, n - 1);
    }
  }

  /** A successful growth keeps the old clusters in place and appends clusters that were free, as
      few as make the list cover `needed` bytes. */
  ghost predicate LawfulExtend(a: MapState, b: MapState, cs: nat, needed: nat, free: set<nat>) {
    && LawfulMap(b, cs)
    && a.clusters <= b.clusters
    && b.clusters != []
    && needed <= b.allocatedLen
    && |b.clusters| == |a.clusters| + Lacking(|a.clusters|, a.allocatedLen, cs, needed)
    && b.allocatedLen == a.allocatedLen + Units(Lacking(|a.clusters|, a.allocatedLen, cs, needed), cs)
    && forall i :: |a.clusters| <= i < |b.clusters| ==> b.clusters[i] in free
  }

  /** A growth to bytes that are covered. */
  lemma AlreadyCovered(a: MapState, cs: nat, needed: nat, free: set<nat>)
    requires LawfulMap(a, cs) && a.clusters != [] && needed <= a.allocatedLen
    ensures LawfulExtend(a, a, cs, needed, free) && Lacking(|a.clusters|, a.allocatedLen, cs, needed) == 0
  {
  }

  /** Truncation keeps a prefix of the list that still covers `keep` bytes. */
  ghost predicate LawfulFreeTail(a: MapState, b: MapState, cs: nat, keep: nat) {
    && LawfulMap(b, cs)
    && b.clusters <= a.clusters
    && keep <= b.allocatedLen
  }

  /** It keeps no more clusters than that takes, though one may stay for no bytes, and `held0` clusters
      that cover `covered0` bytes with no whole cluster to spare stay as they are. */
  ghost predicate Tight(held0: nat, covered0: nat, held: nat, cs: nat, keep: nat) {
    held <= 1 || Units(held - 1, cs) < keep || (held == held0 && covered0 < keep + cs)
  }

  lemma FewestTight(held0: nat, covered0: nat, cs: nat, keep: nat)
    requires cs > 0
    ensures Tight(held0, covered0, DivCeil(keep, cs), cs, keep)
    ensures Tight(held0, covered0, Max(1, DivCeil(keep, cs)), cs, keep)
    ensures DivCeil(covered0, cs) <= DivCeil(keep, cs) ==> Tight(held0, covered0, held0, cs, keep)
  {
    var n := DivCeil(keep, cs);
    if n > 0 {
      DivCeilLeast(keep, cs, n - 1);
    }
    DivCeilCovers(keep, cs);
    DivCeilCovers(covered0, cs);
    if DivCeil(covered0, cs) <= n {
      UnitsMono(DivCeil(covered0, cs), n, cs);
    }
  }

  /** What a growing map can draw on: clusters held, bytes they cover, and free clusters. */
  datatype Stock = Stock(held: nat, covered: nat, free: nat) {
    /** The clusters still missing for `needed` bytes. */
    function Lacks(cs: nat, needed: nat): nat
      requires cs > 0
    {
      Lacking(held, covered, cs, needed)
    }

    /** After a growth to `needed` bytes. */
    function Grown(cs: nat, needed: nat): Stock
      requires cs > 0
    {
      var n := Lacks(cs, needed);
      Stock(held + n, covered + Units(n, cs), SatSub(free, n))
    }
  }

  function Elems(s: seq<nat>): set<nat> { set c | c in s }

  lemma {:induction false} ElemsCount(s: seq<nat>)
    requires Distinct(s)
    ensures |Elems(s)| == |s|
  {
    if s == [] {
    } else {
      ElemsCount(s[1..]);
      assert Elems(s) == {s[0]} + Elems(s[1..]);
    }
  }

  /** `ExtendResult`. */
  datatype Ends = Ends(first: nat, tail: nat)

  function OffsetOf(g: Geometry, c: nat): nat
    requires c >= 2
  {
    g.heap + Units(c - 2, g.clusterSize)
  }

  /** The device address of byte `i` of the stream over `clusters`. */
  function Addr(g: Geometry, clusters: seq<nat>, i: nat): nat
    requires g.clusterSize > 0 && Unit(i, g.clusterSize) < |clusters|
    requires InHeap(clusters)
  {
    OffsetOf(g, clusters[Unit(i, g.clusterSize)]) + Within(i, g.clusterSize)
  }

  /** Every byte below the covered length has an address. */
  lemma Covered(i: nat, n: nat, cs: nat)
    requires cs > 0
    ensures i < Units(n, cs) <==> Unit(i, cs) < n
  {
    UnitsOf(i, Unit(i, cs), cs);
    if Unit(i, cs) < n {
      UnitsMono(Unit(i, cs) + 1, n, cs);
    } else {
      UnitsMono(n, Unit(i, cs), cs);
    }
  }

  /** Clusters do not overlap on the device. */
  lemma ClustersDisjoint(g: Geometry, c: nat, d: nat, u: nat, v: nat)
    requires 2 <= c && 2 <= d && u < g.clusterSize && v < g.clusterSize
    requires OffsetOf(g, c) + u == OffsetOf(g, d) + v
    ensures c == d && u == v
  {
    if c < d {
      UnitsMono(c - 2 + 1, d - 2, g.clusterSize);
    } else if d < c {
      UnitsMono(d - 2 + 1, c - 2, g.clusterSize);
    }
  }

  /** Where byte `i` of a stream is: cluster 2 starts at the heap, and the clusters follow in order. */
  lemma AddrExactly(g: Geometry, clusters: seq<nat>, i: nat)
    requires g.clusterSize > 0 && i / g.clusterSize < |clusters| && InHeap(clusters)
    ensures Unit(i, g.clusterSize) < |clusters|
    ensures Addr(g, clusters, i) ==
      g.heap + (clusters[i / g.clusterSize] - 2) * g.clusterSize + i % g.clusterSize
  {
    UnitIsQuotient(i, g.clusterSize);
    UnitsIsProduct(clusters[i / g.clusterSize] - 2, g.clusterSize);
  }

  /** Distinct bytes of a stream have distinct addresses. */
  lemma AddrInjective(g: Geometry, clusters: seq<nat>, i: nat, j: nat)
    requires g.clusterSize > 0 && Unit(i, g.clusterSize) < |clusters| && Unit(j, g.clusterSize) < |clusters|
    requires Distinct(clusters) && InHeap(clusters)
    requires Addr(g, clusters, i) == Addr(g, clusters, j)
    ensures i == j
  {
    var cs := g.clusterSize;
    ClustersDisjoint(g, clusters[Unit(i, cs)], clusters[Unit(j, cs)], Within(i, cs), Within(j, cs));
    UnitsOf(i, Unit(i, cs), cs);
    UnitsOf(j, Unit(j, cs), cs);
  }

  /** Over a stretch of physically adjacent clusters, addresses run on without a gap. */
  lemma AddrRun(g: Geometry, clusters: seq<nat>, i: nat, last: nat, k: nat)
    requires g.clusterSize > 0 && InHeap(clusters)
    requires Unit(i, g.clusterSize) <= last < |clusters|
    requires forall q :: Unit(i, g.clusterSize) <= q <= last ==>
      clusters[q] == clusters[Unit(i, g.clusterSize)] + (q - Unit(i, g.clusterSize))
    requires i + k < Units(last + 1, g.clusterSize)
    ensures Unit(i + k, g.clusterSize) <= last
    ensures Addr(g, clusters, i + k) == Addr(g, clusters, i) + k
  {
    var cs := g.clusterSize;
    var n, q := Unit(i, cs), Unit(i + k, cs);
    Covered(i + k, last + 1, cs);
    DivMono(i, i + k, cs);
    UnitsOf(i, n, cs);
    UnitsOf(i + k, q, cs);
    UnitsSplit(clusters[n] - 2, q - n, cs);
    UnitsSplit(n, q - n, cs);
    assert clusters[q] - 2 == (clusters[n] - 2) + (q - n);
  }
}
