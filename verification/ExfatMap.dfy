/** The exFAT cluster map of one open stream (src/exfat/cluster_map.rs): contiguous `NoFatChain`
    runs, their lazy conversion to FAT chains, growth and truncation. */
module ExfatMaps {
  import opened Basics
  import opened FatTables
  import opened ClusterMaps
  import opened ExfatHeaps
  import Cell = FatCells

  /** `s` is a physically contiguous run. */
  ghost predicate Contiguous(s: seq<nat>) {
    forall i :: 0 <= i < |s| ==> s[i] == s[0] + i
  }

  ghost predicate AllUsed(s: seq<nat>, used: set<nat>, count: nat) {
    forall i :: 0 <= i < |s| ==> 2 <= s[i] <= count + 1 && s[i] in used
  }

  /** The clusters of the heap whose bit is clear. */
  ghost function ClearIn(used: set<nat>, count: nat): set<nat> {
    set c: nat | c < count + 2 && Heap(c, count) && c !in used
  }

  predicate Heap(c: nat, count: nat) { 2 <= c <= count + 1 }

  /** Between two moments of a growth from `s0` to `s`: the new clusters were clear and are now
      used, and no cell outside the list changed. */
  ghost predicate Grew(s0: seq<nat>, used0: set<nat>, t0: Table, s: seq<nat>, used: set<nat>, t: Table, count: nat) {
    && s0 <= s && |t| == |t0|
    && (forall i :: |s0| <= i < |s| ==> s[i] in ClearIn(used0, count))
    && (forall c :: c in used <==> c in used0 || c in s[|s0|..])
    && forall c: nat :: c < |t| && c !in s ==> t[c] == t0[c]
  }

  /** A growth to `needed` bytes under way: what it has appended, and that it appends no cluster once
      the bytes are covered, but for the first cluster of an empty list. */
  ghost predicate Toward(held0: nat, covered0: nat, held: nat, covered: nat, cs: nat, needed: nat) {
    && held0 <= held && covered == covered0 + Units(held - held0, cs)
    && (held > held0 ==> covered < needed + cs || held == 1)
  }

  lemma TowardStep(held0: nat, covered0: nat, held: nat, covered: nat, cs: nat, needed: nat)
    requires Toward(held0, covered0, held, covered, cs, needed) && (held == 0 || needed > covered)
    ensures Toward(held0, covered0, held + 1, covered + cs, cs, needed)
  {
    UnitsSplit(held - held0, 1, cs);
  }

  /** So it has appended what was missing, or fewer when it is not done. */
  lemma TowardCount(held0: nat, covered0: nat, held: nat, covered: nat, cs: nat, needed: nat)
    requires cs > 0 && Toward(held0, covered0, held, covered, cs, needed) && (held0 == 0 ==> covered0 == 0)
    ensures held != 0 && needed <= covered ==> held - held0 == Lacking(held0, covered0, cs, needed)
    ensures held == 0 || needed > covered ==> held - held0 < Lacking(held0, covered0, cs, needed)
  {
    var n, most := held - held0, Lacking(held0, covered0, cs, needed);
    var left: nat := Max(0, needed - covered0);
    LackingIs(held0, covered0, cs, needed);
    DivCeilLeast(left, cs, n);
    if n > 0 {
      UnitsSplit(n - 1, 1, cs);
      DivCeilLeast(left, cs, n - 1);
    }
  }

  class ExfatClusterMap {
    const vol: ExfatHeap
    const clusterSize: nat
    var first: nat
    var noFatChain: bool
    var allocatedLen: nat
    ghost var clusters: seq<nat>

    ghost function State(): MapState
      reads this
    {
      MapState(clusters, allocatedLen)
    }

    ghost predicate Valid()
      reads this, vol
    {
      && vol.Valid()
      && LawfulMap(State(), clusterSize)
      && AllUsed(clusters, vol.Used(), vol.count)
      && (noFatChain ==>
        Contiguous(clusters) && |clusters| == DivCeil(allocatedLen, clusterSize) &&
        (clusters != [] ==> first == clusters[0]))
      && (!noFatChain && clusters != [] ==> IsChain(vol.Cells(), clusters))
    }

    /** A map over the clusters `s` of a directory entry whose geometry was validated. */
    constructor (vol: ExfatHeap, clusterSize: nat, first: nat, allocatedLen: nat, noFatChain: bool, ghost s: seq<nat>)
      requires vol.Valid() && LawfulMap(MapState(s, allocatedLen), clusterSize) && AllUsed(s, vol.Used(), vol.count)
      requires first == FirstField(s)
      requires noFatChain ==> Contiguous(s) && |s| == DivCeil(allocatedLen, clusterSize)
      requires !noFatChain && s != [] ==> IsChain(vol.Cells(), s)
      ensures Valid() && clusters == s && this.vol == vol && this.clusterSize == clusterSize
      ensures this.allocatedLen == allocatedLen && this.noFatChain == noFatChain
    {
      this.vol, this.clusterSize, this.first := vol, clusterSize, first;
      this.allocatedLen, this.noFatChain, clusters := allocatedLen, noFatChain, s;
    }

    /** The next cluster, computed on a contiguous run and read from the FAT on a chain. */
    method Next(cluster: nat) returns (r: Option<nat>)
      requires Valid() && cluster <= vol.count + 1
      ensures cluster in clusters ==> LawfulNext(State(), cluster, r)
    {
      if noFatChain {
        if first < 2 || allocatedLen == 0 || cluster < first {
          r := None;
        } else {
          var allocatedClusters := Min(DivCeil(allocatedLen, clusterSize), U32_MAX);
          r := if cluster - first + 1 < allocatedClusters then Some(cluster + 1) else None;
        }
        RunNotEmpty();
      } else {
        r := vol.NextCluster(cluster);
        forall i: nat | At(clusters, i, cluster)
          ensures r == if i + 1 < |clusters| then Some(clusters[i + 1]) else None
        {
          assert ChainCell(vol.Cells(), clusters, i);
        }
      }
    }

    lemma RunNotEmpty()
      requires Valid() && noFatChain
      ensures clusters != [] ==> allocatedLen > 0 && first >= 2
    {
      DivCeilLeast(allocatedLen, clusterSize, 0);
    }

    /** Walk a chain to its last cluster; the step bound is never hit. */
    method WalkToTail(from: nat) returns (r: Result<nat>)
      requires Valid() && !noFatChain && Some(from) == FirstOf(clusters)
      ensures r == Ok(clusters[|clusters| - 1])
    {
      var c, steps := from, 0;
      ChainBounded(vol.Cells(), clusters);
      while true
        invariant 0 <= steps && At(clusters, steps, c)
        decreases |clusters| - steps
      {
        assert ChainCell(vol.Cells(), clusters, steps);
        var next := vol.NextCluster(c);
        if next.None? {
          return Ok(c);
        }
        steps := steps + 1;
        if steps > vol.count {
          return Err(Corrupt);
        }
        c := next.value;
      }
    }

    /** Write the FAT links a contiguous run never had. The cluster list stays the same, and no
        cell outside it changes. */
    method MaterializeFatChain(from: nat, n: nat)
      requires Valid() && noFatChain && from == FirstField(clusters) && n == |clusters|
      modifies this`noFatChain, vol`fat
      ensures Valid() && clusters == old(clusters)
      ensures clusters != [] ==> !noFatChain && IsChain(vol.Cells(), clusters)
      ensures forall c: nat :: c < |vol.Cells()| && c !in clusters ==> vol.Cells()[c] == old(vol.Cells())[c]
    {
      if n == 0 {
        return;
      }
      LinkRun(vol, from, n, clusters);
      noFatChain := false;
    }

    /** Claim the lowest clear cluster of the heap and end a chain at it, linking it from `tail`
        when there is one. `None`, with nothing changed, when the heap is full. */
    method ClaimOne(tail: Option<nat>) returns (r: Option<nat>)
      requires vol.Valid() && (tail.Some? ==> vol.InHeap(tail.value) && tail.value in vol.Used())
      modifies vol
      ensures vol.Valid()
      ensures r.None? ==>
        vol.Cells() == old(vol.Cells()) && vol.Used() == old(vol.Used()) &&
        ClearIn(vol.Used(), vol.count) == {}
      ensures r.Some? ==> r.value in ClearIn(old(vol.Used()), vol.count) && vol.Used() == old(vol.Used()) + {r.value}
      ensures r.Some? ==> vol.Cells() == Claimed'(old(vol.Cells()), tail, r.value)
    {
      r := vol.FindFreeCluster();
      if r.Some? {
        var _ := vol.MarkAllocated(r.value);
        if tail.Some? {
          vol.WriteFatEntry(tail.value, r.value);
        }
        vol.WriteFatEntry(r.value, FAT_EOC);
      }
    }

    /** Give an empty stream its first cluster. */
    method SeedFirst() returns (r: Option<nat>)
      requires Valid() && clusters == []
      modifies this, vol
      ensures Valid()
      ensures r.None? ==> State() == old(State()) && noFatChain == old(noFatChain)
      ensures r.None? ==>
        vol.Cells() == old(vol.Cells()) && vol.Used() == old(vol.Used()) &&
        ClearIn(vol.Used(), vol.count) == {}
      ensures r.Some? ==> clusters == [r.value] && allocatedLen == clusterSize && !noFatChain
      ensures r.Some? ==> r.value in ClearIn(old(vol.Used()), vol.count) && vol.Used() == old(vol.Used()) + {r.value}
      ensures r.Some? ==> forall c: nat :: c < |vol.Cells()| && c !in clusters ==> vol.Cells()[c] == old(vol.Cells())[c]
    {
      r := ClaimOne(None);
      if r.Some? {
        SingleChain(vol.Cells(), clusterSize, r.value);
        clusters := [r.value];
        first := r.value;
        noFatChain := false;
        allocatedLen := clusterSize;
      }
    }

    /** Append one cluster to a chained stream. */
    method AppendOne(tail: nat) returns (r: Option<nat>)
      requires Valid() && clusters != [] && !noFatChain && tail == clusters[|clusters| - 1]
      modifies this, vol
      ensures Valid()
      ensures r.None? ==> State() == old(State()) && !noFatChain
      ensures r.None? ==>
        vol.Cells() == old(vol.Cells()) && vol.Used() == old(vol.Used()) &&
        ClearIn(vol.Used(), vol.count) == {}
      ensures r.Some? ==>
        clusters == old(clusters) + [r.value] && allocatedLen == old(allocatedLen) + clusterSize &&
        !noFatChain
      ensures r.Some? ==> r.value in ClearIn(old(vol.Used()), vol.count) && vol.Used() == old(vol.Used()) + {r.value}
      ensures r.Some? ==> forall c: nat :: c < |vol.Cells()| && c !in clusters ==> vol.Cells()[c] == old(vol.Cells())[c]
    {
      ghost var t, s := vol.Cells(), clusters;
      r := ClaimOne(Some(tail));
      if r.Some? {
        PushedLawful(t, vol.Cells(), State(), clusterSize, old(vol.Used()), r.value, vol.count);
        clusters := clusters + [r.value];
        noFatChain := false;
        allocatedLen := allocatedLen + clusterSize;
      }
    }

    /** One more cluster that was clear leaves a lawful list on a chain. */
    static lemma PushedLawful(t: Table, u: Table, m: MapState, cs: nat, used: set<nat>, c: nat, count: nat)
      requires LawfulMap(m, cs) && m.clusters != [] && IsChain(t, m.clusters) && AllUsed(m.clusters, used, count)
      requires c in ClearIn(used, count) && |t| == count + 2 <= U32_MAX + 1
      requires u == Claimed'(t, Some(m.clusters[|m.clusters| - 1]), c)
      ensures LawfulMap(MapState(m.clusters + [c], m.allocatedLen + cs), cs)
      ensures IsChain(u, m.clusters + [c]) && AllUsed(m.clusters + [c], used + {c}, count)
      ensures forall b: nat :: b < |u| && b !in m.clusters + [c] ==> u[b] == t[b]
    {
      ChainPush(t, m.clusters, c);
      ChainBounded(u, m.clusters + [c]);
      AppendLawful(m, cs, c);
    }

    /** The stream's links exist and its tail is known: a contiguous run is materialised first. */
    method Chained(firstOut: nat, known: nat) returns (tail: nat)
      requires Valid() && clusters != [] && firstOut == clusters[0]
      requires !noFatChain ==> known == clusters[|clusters| - 1]
      modifies this`noFatChain, vol`fat
      ensures Valid() && !noFatChain && clusters == old(clusters) && tail == clusters[|clusters| - 1]
      ensures forall c: nat :: c < |vol.Cells()| && c !in clusters ==> vol.Cells()[c] == old(vol.Cells())[c]
    {
      tail := known;
      if noFatChain {
        var n := Min(DivCeil(allocatedLen, clusterSize), U32_MAX);
        MaterializeFatChain(firstOut, n);
        var walked := WalkToTail(firstOut);
        tail := walked.value;
      }
    }

    /** Grow to cover `needed` bytes. Growth appends only clusters whose bit was clear. When the
        heap runs out, what was claimed so far stays in the list: the list is unchanged exactly
        when the heap was full from the start. */
    method Extend(firstIn: Option<nat>, tailIn: Option<nat>, needed: nat) returns (r: Result<Ends>)
      requires Valid() && firstIn == FirstOf(clusters) && (tailIn == None || tailIn == LastOf(clusters))
      modifies this, vol
      ensures Valid()
      ensures old(Idle(needed)) ==> r == Ok(Ends(firstIn.value, if tailIn.Some? then tailIn.value else firstIn.value))
      ensures old(Idle(needed)) ==> Now() == old(Now())
      ensures Grew(old(clusters), old(vol.Used()), old(vol.Cells()), clusters, vol.Used(), vol.Cells(), vol.count)
      ensures r.Ok? ==> LawfulExtend(old(State()), State(), clusterSize, needed, ClearIn(old(vol.Used()), vol.count))
      ensures r.Ok? && !old(Idle(needed)) ==> r.value == Ends(clusters[0], clusters[|clusters| - 1]) && !noFatChain
      ensures r.Err? ==> r.error == StorageFull && ClearIn(vol.Used(), vol.count) == {}
      ensures r.Err? ==> (clusters == old(clusters) <==> ClearIn(old(vol.Used()), vol.count) == {})
      ensures r.Err? <==>
        |ClearIn(old(vol.Used()), vol.count)| < old(Lacking(|clusters|, allocatedLen, clusterSize, needed))
      ensures noFatChain ==> old(noFatChain)
    {
      if firstIn.Some? && needed <= allocatedLen {
        NothingLacks(needed);
        return Ok(Ends(firstIn.value, if tailIn.Some? then tailIn.value else firstIn.value));
      }
      ghost var a, used0, t0 := State(), vol.Used(), vol.Cells();
      r := GrowFrom(firstIn, tailIn, needed, clusters, used0, t0, allocatedLen);
      Settled(a, State(), clusterSize, needed, used0, t0, vol.Used(), vol.Cells(), vol.count, r.Ok?);
    }

    lemma NothingLacks(needed: nat)
      requires Valid() && Idle(needed)
      ensures Lacking(|clusters|, allocatedLen, clusterSize, needed) == 0
      ensures Grew(clusters, vol.Used(), vol.Cells(), clusters, vol.Used(), vol.Cells(), vol.count)
      ensures LawfulExtend(State(), State(), clusterSize, needed, ClearIn(vol.Used(), vol.count))
    {
    }

    /** Nothing to do: the stream has clusters, and enough of them. */
    ghost predicate Idle(needed: nat)
      reads this
    {
      clusters != [] && needed <= allocatedLen
    }

    /** Everything a call may change. */
    ghost function Now(): (MapState, bool, set<nat>, Table)
      requires Valid()
      reads this, vol
    {
      (State(), noFatChain, vol.Used(), vol.Cells())
    }

    /** Find where to grow from, then grow. */
    method GrowFrom(firstIn: Option<nat>, tailIn: Option<nat>, needed: nat, ghost s0: seq<nat>, ghost used0: set<nat>,
        ghost t0: Table, ghost len0: nat) returns (r: Result<Ends>)
      requires Valid() && firstIn == FirstOf(clusters) && (tailIn == None || tailIn == LastOf(clusters))
      requires s0 == clusters && used0 == vol.Used() && t0 == vol.Cells() && len0 == allocatedLen && !Idle(needed)
      modifies this, vol
      ensures Valid()
      ensures Grew(s0, used0, t0, clusters, vol.Used(), vol.Cells(), vol.count)
      ensures r.Ok? ==>
        needed <= allocatedLen && clusters != [] &&
        r.value == Ends(clusters[0], clusters[|clusters| - 1]) && !noFatChain
      ensures r.Err? ==> r.error == StorageFull && ClearIn(vol.Used(), vol.count) == {}
      ensures noFatChain ==> old(noFatChain)
      ensures Toward(|s0|, len0, |clusters|, allocatedLen, clusterSize, needed)
      ensures r.Err? ==> clusters == [] || needed > allocatedLen
    {
      var start := Start(firstIn, tailIn, needed, s0, used0, t0, len0);
      if start.None? {
        return Err(StorageFull);
      }
      if allocatedLen >= needed {
        return Ok(start.value);
      }
      r := GrowTo(start.value.first, start.value.tail, needed, s0, used0, t0, len0);
    }

    /** Where a growth starts from: a fresh first cluster for an empty stream, else the head and,
        on a chain, the true tail. */
    method Start(firstIn: Option<nat>, tailIn: Option<nat>, needed: nat, ghost s0: seq<nat>, ghost used0: set<nat>,
        ghost t0: Table, ghost len0: nat) returns (r: Option<Ends>)
      requires Valid() && firstIn == FirstOf(clusters) && (tailIn == None || tailIn == LastOf(clusters))
      requires s0 == clusters && used0 == vol.Used() && t0 == vol.Cells() && len0 == allocatedLen && !Idle(needed)
      modifies this, vol
      ensures Valid() && Grew(s0, used0, t0, clusters, vol.Used(), vol.Cells(), vol.count)
      ensures r.Some? ==> clusters != [] && r.value.first == clusters[0]
      ensures r.Some? && !noFatChain ==> r.value.tail == clusters[|clusters| - 1]
      ensures old(clusters) != [] ==> r.Some? && allocatedLen < needed
      ensures r.Some? && old(clusters) == [] ==> !noFatChain
      ensures r.None? ==> ClearIn(vol.Used(), vol.count) == {}
      ensures noFatChain ==> old(noFatChain)
      ensures Toward(|s0|, len0, |clusters|, allocatedLen, clusterSize, needed) && (r.None? ==> clusters == [])
    {
      GrewNothing(s0, used0, t0, vol.count);
      if firstIn.None? {
        var seeded := SeedFirst();
        if seeded.None? {
          return None;
        }
        GrewPush(s0, used0, t0, s0, used0, t0, seeded.value, vol.Used(), vol.Cells(), vol.count);
        TowardStep(0, 0, 0, 0, clusterSize, needed);
        return Some(Ends(seeded.value, seeded.value));
      }
      var tailOut := if tailIn.Some? then tailIn.value else firstIn.value;
      if !noFatChain && tailIn.None? && allocatedLen < needed {
        var walked := WalkToTail(firstIn.value);
        tailOut := walked.value;
      }
      r := Some(Ends(firstIn.value, tailOut));
    }

    /** One turn of the growth loop: the new tail, or `None` when the heap is full. */
    method GrowStep(firstOut: nat, known: nat, ghost s0: seq<nat>, ghost used0: set<nat>, ghost t0: Table)
        returns (r: Option<nat>)
      requires Valid() && clusters != [] && firstOut == clusters[0]
      requires !noFatChain ==> known == clusters[|clusters| - 1]
      requires Grew(s0, used0, t0, clusters, vol.Used(), vol.Cells(), vol.count)
      modifies this, vol
      ensures Valid() && !noFatChain && clusters != [] && firstOut == clusters[0]
      ensures Grew(s0, used0, t0, clusters, vol.Used(), vol.Cells(), vol.count)
      ensures r.None? ==> State() == old(State()) && ClearIn(vol.Used(), vol.count) == {}
      ensures r.Some? ==> allocatedLen == old(allocatedLen) + clusterSize && r.value == clusters[|clusters| - 1]
      ensures r.Some? ==> |clusters| == |old(clusters)| + 1
    {
      ghost var t := vol.Cells();
      var tailOut := Chained(firstOut, known);
      GrewLinked(s0, used0, t0, clusters, vol.Used(), t, vol.Cells(), vol.count);
      r := AppendGrown(tailOut, s0, used0, t0);
    }

    /** The same, while bytes are still missing. */
    method GrowPaced(firstOut: nat, known: nat, ghost needed: nat, ghost s0: seq<nat>, ghost used0: set<nat>,
        ghost t0: Table, ghost len0: nat) returns (r: Option<nat>)
      requires Valid() && clusters != [] && firstOut == clusters[0] && allocatedLen < needed
      requires !noFatChain ==> known == clusters[|clusters| - 1]
      requires Grew(s0, used0, t0, clusters, vol.Used(), vol.Cells(), vol.count)
      requires Toward(|s0|, len0, |clusters|, allocatedLen, clusterSize, needed)
      modifies this, vol
      ensures Valid() && !noFatChain && clusters != [] && firstOut == clusters[0]
      ensures Grew(s0, used0, t0, clusters, vol.Used(), vol.Cells(), vol.count)
      ensures r.None? ==> allocatedLen == old(allocatedLen) && ClearIn(vol.Used(), vol.count) == {}
      ensures r.Some? ==> allocatedLen == old(allocatedLen) + clusterSize && r.value == clusters[|clusters| - 1]
      ensures Toward(|s0|, len0, |clusters|, allocatedLen, clusterSize, needed)
    {
      TowardStep(|s0|, len0, |clusters|, allocatedLen, clusterSize, needed);
      r := GrowStep(firstOut, known, s0, used0, t0);
    }

    /** Append one cluster, growth accounted for. */
    method AppendGrown(tail: nat, ghost s0: seq<nat>, ghost used0: set<nat>, ghost t0: Table) returns (r: Option<nat>)
      requires Valid() && clusters != [] && !noFatChain && tail == clusters[|clusters| - 1]
      requires Grew(s0, used0, t0, clusters, vol.Used(), vol.Cells(), vol.count)
      modifies this, vol
      ensures Valid() && !noFatChain && clusters != [] && clusters[0] == old(clusters[0])
      ensures Grew(s0, used0, t0, clusters, vol.Used(), vol.Cells(), vol.count)
      ensures r.None? ==> State() == old(State()) && ClearIn(vol.Used(), vol.count) == {}
      ensures r.Some? ==> allocatedLen == old(allocatedLen) + clusterSize && r.value == clusters[|clusters| - 1]
      ensures r.Some? ==> |clusters| == |old(clusters)| + 1
    {
      ghost var s, used, u := clusters, vol.Used(), vol.Cells();
      r := AppendOne(tail);
      if r.Some? {
        GrewPush(s0, used0, t0, s, used, u, r.value, vol.Used(), vol.Cells(), vol.count);
      }
    }

    /** Append clusters until `needed` bytes are covered. */
    method GrowTo(firstOut: nat, known: nat, needed: nat, ghost s0: seq<nat>, ghost used0: set<nat>, ghost t0: Table,
        ghost len0: nat) returns (r: Result<Ends>)
      requires Valid() && clusters != [] && firstOut == clusters[0]
      requires !noFatChain ==> known == clusters[|clusters| - 1]
      requires allocatedLen < needed && Toward(|s0|, len0, |clusters|, allocatedLen, clusterSize, needed)
      requires Grew(s0, used0, t0, clusters, vol.Used(), vol.Cells(), vol.count)
      modifies this, vol
      ensures Valid()
      ensures Grew(s0, used0, t0, clusters, vol.Used(), vol.Cells(), vol.count)
      ensures r.Ok? ==>
        needed <= allocatedLen && clusters != [] &&
        r.value == Ends(clusters[0], clusters[|clusters| - 1]) && !noFatChain
      ensures r.Err? ==> r.error == StorageFull && ClearIn(vol.Used(), vol.count) == {}
      ensures noFatChain ==> old(noFatChain)
      ensures Toward(|s0|, len0, |clusters|, allocatedLen, clusterSize, needed)
      ensures r.Err? ==> clusters == [] || needed > allocatedLen
    {
      var tailOut := known;
      while allocatedLen < needed
        invariant Valid() && clusters != [] && firstOut == clusters[0]
        invariant if noFatChain then needed > allocatedLen else tailOut == clusters[|clusters| - 1]
        invariant Grew(s0, used0, t0, clusters, vol.Used(), vol.Cells(), vol.count)
        invariant noFatChain ==> old(noFatChain)
        invariant Toward(|s0|, len0, |clusters|, allocatedLen, clusterSize, needed)
        decreases needed - allocatedLen
      {
        var grown := GrowPaced(firstOut, tailOut, needed, s0, used0, t0, len0);
        if grown.None? {
          return Err(StorageFull);
        }
        tailOut := grown.value;
      }
      r := Ok(Ends(firstOut, tailOut));
    }

    /** Free the whole stream. */
    method DropAll(firstIn: nat, oldCount: nat)
      requires Valid() && clusters != [] && firstIn == clusters[0] && oldCount == DivCeil(allocatedLen, clusterSize)
      modifies this, vol
      ensures Valid() && clusters == [] && allocatedLen == 0 && !noFatChain
      ensures Dropped(old(clusters), 0, old(vol.Used()), old(vol.Cells()), vol.Used(), vol.Cells())
    {
      ghost var s, used0, t0 := clusters, vol.Used(), vol.Cells();
      assert s[0..] == s;
      if noFatChain {
        RunBounds(s, used0, vol.count);
        vol.FreeRun(firstIn, oldCount);
        RunDropped(s, 0, used0, t0, vol.Used());
      } else {
        WalkedChain(t0, s);
        var freed := vol.FreeChain(firstIn);
      }
      clusters := [];
      allocatedLen := 0;
      noFatChain := false;
    }

    /** Free the clusters of a contiguous run after its first `keep`. */
    method CutRun(firstIn: nat, keep: nat, n: nat)
      requires Valid() && noFatChain && At(clusters, 0, firstIn) && 0 < keep && keep + n == |clusters|
      modifies vol`bitmap
      ensures vol.Valid()
      ensures Dropped(clusters, keep, old(vol.Used()), old(vol.Cells()), vol.Used(), vol.Cells())
    {
      ghost var s, used0, t0 := clusters, vol.Used(), vol.Cells();
      RunBounds(s, used0, vol.count);
      vol.FreeRun(firstIn + keep, n);
      RunDropped(s, keep, used0, t0, vol.Used());
    }

    /** Follow `n` links from the head. */
    method WalkLinks(firstIn: nat, n: nat) returns (cur: nat)
      requires Valid() && !noFatChain && At(clusters, 0, firstIn) && n < |clusters|
      ensures At(clusters, n, cur)
    {
      cur := firstIn;
      for i := 0 to n
        invariant At(clusters, i, cur)
      {
        assert ChainCell(vol.Cells(), clusters, i);
        var next := vol.NextCluster(cur);
        if next.None? {
          break;
        }
        cur := next.value;
      }
    }

    /** End the chain after its first `keep` clusters and free the rest. */
    method CutChain(firstIn: nat, keep: nat)
      requires Valid() && !noFatChain && At(clusters, 0, firstIn) && 0 < keep <= |clusters|
      modifies vol
      ensures vol.Valid() && IsChain(vol.Cells(), clusters[..keep])
      ensures Dropped(clusters, keep, old(vol.Used()), old(vol.Cells()), vol.Used(), vol.Cells())
    {
      var cur := WalkLinks(firstIn, keep - 1);
      ghost var t, s := vol.Cells(), clusters;
      assert ChainCell(t, s, keep - 1);
      var tail := vol.NextCluster(cur);
      vol.WriteFatEntry(cur, FAT_EOC);
      CutTwo(t, s, keep);
      if tail.Some? {
        FreeRest(tail.value, t, s, keep);
      }
    }

    /** Free what comes after the first `keep` clusters, already cut off. */
    method FreeRest(head: nat, ghost t: Table, ghost s: seq<nat>, ghost keep: nat)
      requires vol.Valid() && Distinct(s) && AllUsed(s, vol.Used(), vol.count) && 0 < keep < |s| && head == s[keep]
      requires IsChain(vol.Cells(), s[..keep]) && IsChain(vol.Cells(), s[keep..])
      requires |t| == |vol.Cells()|
      requires forall c: nat :: c < |t| && c !in s ==> vol.Cells()[c] == t[c]
      modifies vol
      ensures vol.Valid() && IsChain(vol.Cells(), s[..keep])
      ensures Dropped(s, keep, old(vol.Used()), t, vol.Used(), vol.Cells())
    {
      ghost var u := vol.Cells();
      WalkedChain(u, s[keep..]);
      var freed := vol.FreeChain(head);
      HeadStays(u, vol.Cells(), s, keep);
    }

    /** How many clusters `FreeTail` keeps. */
    ghost function Kept(keepLen: nat): nat
      requires clusterSize > 0
      reads this
    {
      if DivCeil(keepLen, clusterSize) < DivCeil(allocatedLen, clusterSize) then DivCeil(keepLen, clusterSize)
        else |clusters|
    }

    /** Free clusters past the prefix that holds `keepLen` bytes. */
    method Truncate(firstIn: nat, keepLen: nat) returns (r: nat)
      requires Valid() && clusters != [] && firstIn == clusters[0] && keepLen <= allocatedLen
      modifies this, vol
      ensures Valid() && r == FirstField(clusters)
      ensures clusters <= old(clusters) && |clusters| == old(Kept(keepLen))
      ensures Dropped(old(clusters), |clusters|, old(vol.Used()), old(vol.Cells()), vol.Used(), vol.Cells())
      ensures keepLen <= allocatedLen && (noFatChain ==> old(noFatChain))
    {
      NothingDropped(clusters, vol.Used(), vol.Cells());
      FirstInHeap();
      CountsFit(keepLen);
      var oldCount := Min(DivCeil(allocatedLen, clusterSize), U32_MAX);
      var keep := Min(DivCeil(keepLen, clusterSize), U32_MAX);
      if oldCount <= keep {
        return firstIn;
      }
      if keep == 0 {
        DropAll(firstIn, oldCount);
        return 0;
      }
      ghost var s := clusters;
      if noFatChain {
        CutRun(firstIn, keep, oldCount - keep);
      } else {
        CutChain(firstIn, keep);
      }
      PrefixLawful(s, keep, clusterSize, vol.count);
      DroppedUsed(s, keep, old(vol.Used()), old(vol.Cells()), vol.Used(), vol.Cells(), vol.count);
      allocatedLen := Units(keep, clusterSize);
      clusters := s[..keep];
      r := firstIn;
    }

    /** `free_tail`: exactly the prefix that holds `keepLen` bytes remains, exactly the dropped
        bits are cleared, and no cell outside the stream changes. */
    method FreeTail(firstIn: nat, keepLen: nat) returns (r: nat)
      requires Valid() && firstIn == FirstField(clusters) && (clusters != [] ==> keepLen <= allocatedLen)
      modifies this, vol
      ensures Valid() && r == FirstField(clusters)
      ensures clusters <= old(clusters) && |clusters| == old(Kept(keepLen))
      ensures Dropped(old(clusters), |clusters|, old(vol.Used()), old(vol.Cells()), vol.Used(), vol.Cells())
      ensures old(clusters) != [] ==> LawfulFreeTail(old(State()), State(), clusterSize, keepLen)
      ensures Tight(|old(clusters)|, old(allocatedLen), |clusters|, clusterSize, keepLen)
      ensures noFatChain ==> old(noFatChain)
    {
      if clusters != [] {
        FirstInHeap();
      }
      if firstIn < 2 {
        NothingDropped(clusters, vol.Used(), vol.Cells());
        allocatedLen := 0;
        NoUnits();
        r := 0;
      } else {
        FewestTight(|clusters|, allocatedLen, clusterSize, keepLen);
        r := Truncate(firstIn, keepLen);
      }
    }

    lemma FirstInHeap()
      requires Valid() && clusters != []
      ensures clusters[0] >= 2
    {
    }

    lemma NoUnits()
      ensures clusterSize > 0 ==> DivCeil(0, clusterSize) == 0
    {
      if clusterSize > 0 {
        DivCeilUnits(0, clusterSize);
      }
    }

    lemma CountsFit(keepLen: nat)
      requires Valid() && clusters != [] && keepLen <= allocatedLen
      ensures DivCeil(keepLen, clusterSize) <= DivCeil(allocatedLen, clusterSize) <= |clusters|
      ensures keepLen <= Units(DivCeil(keepLen, clusterSize), clusterSize)
      ensures DivCeil(keepLen, clusterSize) == 0 ==> keepLen == 0
    {
      DivCeilCovers(allocatedLen, clusterSize);
      DivCeilLeast(keepLen, clusterSize, DivCeil(allocatedLen, clusterSize));
      DivCeilLeast(allocatedLen, clusterSize, |clusters|);
      DivCeilCovers(keepLen, clusterSize);
    }
  }

  /** The clusters of `s` from `k` on lost their bits, nothing else did, and no cell outside `s`
      changed. */
  ghost predicate Dropped(s: seq<nat>, k: nat, used0: set<nat>, t0: Table, used: set<nat>, t: Table) {
    && k <= |s| && |t| == |t0|
    && (forall c :: c in used <==> c in used0 && c !in s[k..])
    && forall c: nat :: c < |t| && c !in s ==> t[c] == t0[c]
  }

  /** A contiguous run in use lies inside the heap. */
  lemma RunBounds(s: seq<nat>, used: set<nat>, count: nat)
    requires s != [] && Contiguous(s) && AllUsed(s, used, count)
    ensures 2 <= s[0] && s[0] + |s| <= count + 2
  {
    assert s[|s| - 1] == s[0] + (|s| - 1);
  }

  lemma RunDropped(s: seq<nat>, k: nat, used0: set<nat>, t: Table, used: set<nat>)
    requires k <= |s| && s != [] && Contiguous(s)
    requires forall c :: c in used <==> c in used0 && !(s[0] + k <= c < s[0] + |s|)
    ensures Dropped(s, k, used0, t, used, t)
  {
    forall c: nat
      ensures c in s[k..] <==> s[0] + k <= c < s[0] + |s|
    {
      if s[0] + k <= c < s[0] + |s| {
        assert s[c - s[0]] == c && s[k..][c - s[0] - k] == c;
      }
    }
  }

  /** A prefix of the list is again a lawful list. */
  lemma PrefixLawful(s: seq<nat>, k: nat, cs: nat, count: nat)
    requires cs > 0 && Distinct(s) && InHeap(s) && |s| <= U32_MAX && k <= |s|
    ensures LawfulMap(MapState(s[..k], Units(k, cs)), cs) && DivCeil(Units(k, cs), cs) == k
    ensures Contiguous(s) ==> Contiguous(s[..k])
  {
    DivCeilUnits(k, cs);
  }

  /** The kept clusters are still marked. */
  lemma DroppedUsed(s: seq<nat>, k: nat, used0: set<nat>, t0: Table, used: set<nat>, t: Table, count: nat)
    requires k <= |s| && Distinct(s) && AllUsed(s, used0, count) && Dropped(s, k, used0, t0, used, t)
    ensures AllUsed(s[..k], used, count)
  {
  }

  lemma NothingDropped(s: seq<nat>, used: set<nat>, t: Table)
    ensures Dropped(s, |s|, used, t, used, t)
  {
  }

  /** Ending a chain early leaves two chains. */
  lemma CutTwo(t: Table, s: seq<nat>, k: nat)
    requires IsChain(t, s) && 0 < k <= |s|
    ensures s[k - 1] < |t| && IsChain(t[s[k - 1] := Cell.End], s[..k])
    ensures k < |s| ==> IsChain(t[s[k - 1] := Cell.End], s[k..])
  {
    ChainDistinct(t, s);
    assert ChainCell(t, s, k - 1);
    var u := t[s[k - 1] := Cell.End];
    forall i: nat | i < k
      ensures ChainCell(u, s[..k], i)
    {
      assert ChainCell(t, s, i);
    }
    forall i: nat | i < |s| - k
      ensures ChainCell(u, s[k..], i)
    {
      assert ChainCell(t, s, k + i);
    }
  }

  /** Freeing the second of two chains leaves the first. */
  lemma HeadStays(u: Table, w: Table, s: seq<nat>, k: nat)
    requires k < |s| && IsChain(u, s[..k]) && IsFreed(u, w, s[k..]) && Distinct(s)
    ensures IsChain(w, s[..k])
  {
    forall c | c in s[..k]
      ensures c !in s[k..]
    {
    }
    ChainFrame(u, w, s[..k]);
  }

  /** What a growth appended is no longer clear. */
  lemma GrewCount(s0: seq<nat>, used0: set<nat>, t0: Table, s: seq<nat>, used: set<nat>, t: Table, count: nat)
    requires Grew(s0, used0, t0, s, used, t, count) && Distinct(s)
    ensures |ClearIn(used0, count)| == |ClearIn(used, count)| + |s| - |s0|
  {
    var run := s[|s0|..];
    ElemsCount(run);
    forall c | c in run
      ensures c in ClearIn(used0, count)
    {
      var k :| 0 <= k < |run| && run[k] == c;
      assert s[|s0| + k] in ClearIn(used0, count);
    }
    assert ClearIn(used0, count) == ClearIn(used, count) + Elems(run);
    assert ClearIn(used, count) !! Elems(run);
  }

  /** A growth that got what it wanted appended what was missing; one that ran out of clusters had too
      few. */
  lemma GrewExactly(a: MapState, b: MapState, cs: nat, needed: nat, used0: set<nat>, t0: Table, used: set<nat>,
      t: Table, count: nat)
    requires Grew(a.clusters, used0, t0, b.clusters, used, t, count) && LawfulMap(a, cs) && LawfulMap(b, cs)
    requires Toward(|a.clusters|, a.allocatedLen, |b.clusters|, b.allocatedLen, cs, needed)
    ensures b.clusters != [] && needed <= b.allocatedLen ==>
      |b.clusters| == |a.clusters| + Lacking(|a.clusters|, a.allocatedLen, cs, needed) &&
      Lacking(|a.clusters|, a.allocatedLen, cs, needed) <= |ClearIn(used0, count)|
    ensures (b.clusters == [] || needed > b.allocatedLen) && ClearIn(used, count) == {} ==>
      |ClearIn(used0, count)| < Lacking(|a.clusters|, a.allocatedLen, cs, needed)
  {
    GrewCount(a.clusters, used0, t0, b.clusters, used, t, count);
    TowardCount(|a.clusters|, a.allocatedLen, |b.clusters|, b.allocatedLen, cs, needed);
  }

  lemma GrewNothing(s: seq<nat>, used: set<nat>, t: Table, count: nat)
    ensures Grew(s, used, t, s, used, t, count)
  {
  }

  /** A growth that ran out of clusters appended none exactly when none was clear. */
  lemma StuckExactly(s0: seq<nat>, used0: set<nat>, t0: Table, s: seq<nat>, used: set<nat>, t: Table, count: nat)
    requires Grew(s0, used0, t0, s, used, t, count)
    ensures ClearIn(used, count) == {} ==> (s == s0 <==> ClearIn(used0, count) == {})
  {
    assert |s| > |s0| ==> s[|s0|] in ClearIn(used0, count);
    if s == s0 {
      assert used == used0;
    }
  }

  /** A growth that covers `needed` bytes is a lawful extension. */
  lemma GrewExtends(a: MapState, b: MapState, cs: nat, needed: nat, used0: set<nat>, t0: Table, used: set<nat>,
      t: Table, count: nat)
    requires Grew(a.clusters, used0, t0, b.clusters, used, t, count) && LawfulMap(b, cs)
    requires b.clusters != [] && needed <= b.allocatedLen
    requires |b.clusters| == |a.clusters| + Lacking(|a.clusters|, a.allocatedLen, cs, needed)
    requires b.allocatedLen == a.allocatedLen + Units(|b.clusters| - |a.clusters|, cs)
    ensures LawfulExtend(a, b, cs, needed, ClearIn(used0, count))
  {
  }

  /** How a growth that stopped has ended. */
  lemma Settled(a: MapState, b: MapState, cs: nat, needed: nat, used0: set<nat>, t0: Table, used: set<nat>, t: Table,
      count: nat, ok: bool)
    requires Grew(a.clusters, used0, t0, b.clusters, used, t, count) && LawfulMap(a, cs) && LawfulMap(b, cs)
    requires Toward(|a.clusters|, a.allocatedLen, |b.clusters|, b.allocatedLen, cs, needed)
    requires if ok then b.clusters != [] && needed <= b.allocatedLen
             else (b.clusters == [] || needed > b.allocatedLen) && ClearIn(used, count) == {}
    ensures ok ==> LawfulExtend(a, b, cs, needed, ClearIn(used0, count))
    ensures !ok ==> (b.clusters == a.clusters <==> ClearIn(used0, count) == {})
    ensures ok <==> Lacking(|a.clusters|, a.allocatedLen, cs, needed) <= |ClearIn(used0, count)|
  {
    GrewExactly(a, b, cs, needed, used0, t0, used, t, count);
    if ok {
      GrewExtends(a, b, cs, needed, used0, t0, used, t, count);
    } else {
      StuckExactly(a.clusters, used0, t0, b.clusters, used, t, count);
    }
  }

  lemma GrewPush(s0: seq<nat>, used0: set<nat>, t0: Table, s: seq<nat>, used: set<nat>, t: Table, c: nat,
      used': set<nat>, t': Table, count: nat)
    requires Grew(s0, used0, t0, s, used, t, count)
    requires c in ClearIn(used, count) && used' == used + {c} && |t'| == |t|
    requires forall d: nat :: d < |t| && d !in s + [c] ==> t'[d] == t[d]
    ensures Grew(s0, used0, t0, s + [c], used', t', count)
  {
    assert (s + [c])[|s0|..] == s[|s0|..] + [c];
  }

  lemma GrewLinked(s0: seq<nat>, used0: set<nat>, t0: Table, s: seq<nat>, used: set<nat>, t: Table, t': Table,
      count: nat)
    requires Grew(s0, used0, t0, s, used, t, count) && |t'| == |t|
    requires forall d: nat :: d < |t| && d !in s ==> t'[d] == t[d]
    ensures Grew(s0, used0, t0, s, used, t', count)
  {
  }

  function Claimed'(t: Table, tail: Option<nat>, c: nat): Table
    requires c < |t| && (tail.Some? ==> tail.value < |t|)
  {
    (if tail.Some? then t[tail.value := Cell.Next(c)] else t)[c := Cell.End]
  }

  lemma SingleChain(t: Table, cs: nat, c: nat)
    requires IsData(t, c) && t[c] == Cell.End && cs > 0
    ensures IsChain(t, [c]) && LawfulMap(MapState([c], cs), cs)
  {
    AppendLawful(MapState([], 0), cs, c);
    assert [] + [c] == [c];
    assert ChainCell(t, [c], 0);
  }

  /** Linking a cluster outside the chain after its tail lengthens the chain. */
  lemma ChainPush(t: Table, s: seq<nat>, c: nat)
    requires IsChain(t, s) && c !in s && IsData(t, c) && s[|s| - 1] < |t|
    ensures IsChain(Claimed'(t, Some(s[|s| - 1]), c), s + [c])
  {
    ChainDistinct(t, s);
    var u, s' := Claimed'(t, Some(s[|s| - 1]), c), s + [c];
    forall i: nat | i < |s'|
      ensures ChainCell(u, s', i)
    {
      if i < |s| {
        assert ChainCell(t, s, i) && s[i] in s;
      }
    }
  }

  /** Link a contiguous run cell by cell and end it. */
  method LinkRun(vol: ExfatHeap, from: nat, n: nat, ghost s: seq<nat>)
    requires vol.Valid() && s != [] && |s| == n && s[0] == from && Contiguous(s) && Distinct(s)
    requires forall i :: 0 <= i < |s| ==> vol.InHeap(s[i])
    modifies vol`fat
    ensures vol.Valid() && IsChain(vol.Cells(), s)
    ensures forall c: nat :: c < |vol.Cells()| && c !in s ==> vol.Cells()[c] == old(vol.Cells())[c]
  {
    ghost var t := vol.Cells();
    for i := 0 to SatSub(n, 1)
      invariant vol.Valid() && Linking(t, vol.Cells(), s, i)
    {
      assert s[i] == from + i && s[i + 1] == from + i + 1;
      LinkingStep(t, vol.Cells(), s, i, Cell.Next(from + i + 1));
      vol.WriteFatEntry(from + i, from + i + 1);
    }
    assert s[n - 1] == from + (n - 1);
    LinkingStep(t, vol.Cells(), s, n - 1, Cell.End);
    vol.WriteFatEntry(from + n - 1, FAT_EOC);
    Linked(t, vol.Cells(), s);
  }

  lemma LinkingStep(t: Table, u: Table, s: seq<nat>, n: nat, e: Cell.FatEntry)
    requires Linking(t, u, s, n) && n < |s| && Distinct(s)
    requires e == if n + 1 < |s| then Cell.Next(s[n + 1]) else Cell.End
    ensures Linking(t, u[s[n] := e], s, n + 1)
  {
  }

  /** The first `n` links of the list are in place; cells outside it are as before. */
  ghost predicate Linking(t: Table, u: Table, s: seq<nat>, n: nat) {
    && |u| == |t| && n <= |s|
    && (forall i :: 0 <= i < |s| ==> IsData(u, s[i]))
    && (forall i :: 0 <= i < n ==> u[s[i]] == if i + 1 < |s| then Cell.Next(s[i + 1]) else Cell.End)
    && forall c: nat :: c < |t| && c !in s ==> u[c] == t[c]
  }

  lemma Linked(t: Table, u: Table, s: seq<nat>)
    requires s != [] && Linking(t, u, s, |s|)
    ensures IsChain(u, s)
  {
    forall i: nat | i < |s|
      ensures ChainCell(u, s, i)
    {
    }
  }

  /** Why growth must link from the true tail: linking `c` from any earlier cluster of the chain
      cuts the chain there, and every later cluster stays allocated outside it. This is what
      happens when a stream keeps an old tail after a growth that failed half-way. */
  lemma StaleTailOrphans(t: Table, s: seq<nat>, i: nat, c: nat)
    requires IsChain(t, s) && i < |s| - 1 && IsData(t, c) && c !in s && s[i] < |t|
    ensures IsChain(Claimed'(t, Some(s[i]), c), s[..i + 1] + [c])
    ensures forall j :: i < j < |s| ==>
      s[j] !in s[..i + 1] + [c] && s[j] < |t| &&
      Claimed'(t, Some(s[i]), c)[s[j]] == t[s[j]] != Cell.Free
  {
    ChainDistinct(t, s);
    var u, s' := Claimed'(t, Some(s[i]), c), s[..i + 1] + [c];
    forall j: nat | j < |s'|
      ensures ChainCell(u, s', j)
    {
      if j <= i {
        assert ChainCell(t, s, j) && s[j] in s;
      }
    }
    forall j: nat | i < j < |s|
      ensures s[j] !in s' && s[j] < |t| && u[s[j]] == t[s[j]] != Cell.Free
    {
      assert ChainCell(t, s, j) && s[j] in s;
    }
  }
}
