/** The FAT cluster allocator (src/fat/sector_io.rs, src/fat/entry_io.rs, src/fat/cluster_map.rs)
    over the volume's bytes. */
module FatVolumes {
  import opened Basics
  import opened FatCells
  import opened FatTables
  import opened ClusterMaps

  datatype FsInfo = FsInfo(freeCount: nat, firstFree: nat)

  /** FSInfo in memory, and whether it is to be written back. */
  datatype Advice = Advice(info: Option<FsInfo>, modified: bool)

  /** FSInfo after the table went from `t` to `u`: it claims no free count any more, or the one it
      claimed while the table is what it was, and a change will be written back. */
  ghost predicate Honest(a: Advice, t: Table, b: Advice, u: Table) {
    && (b.info.Some? <==> a.info.Some?) && (a.modified ==> b.modified)
    && (b.info.Some? ==>
          b.info.value.freeCount == U32_MAX || (u == t && b.info.value.freeCount == a.info.value.freeCount))
    && (b.info.Some? && u != t ==> b.modified)
  }

  /** FSInfo naming `cluster` as the first free one. */
  ghost function Pointing(a: Advice, cluster: nat): Advice {
    if a.info.Some? then Advice(Some(a.info.value.(firstFree := cluster)), true) else a
  }

  /** A mounted FAT volume as far as the table is concerned. `image` is the volume's bytes as the
      sector cache shows them. */
  class FatVolume {
    const l: Layout
    var image: seq<Byte>
    /** The allocator's search hint. */
    var firstFree: nat
    /** FAT32's advisory FSInfo; `None` on FAT16. */
    var fsInfo: Option<FsInfo>
    var fsinfoModified: bool

    ghost predicate Valid()
      reads this
    {
      Fits(image, l) && HintFits(Cells(), firstFree)
    }

    ghost function Cells(): (t: Table)
      requires Fits(image, l)
      reads this
      ensures |t| == l.maxCluster + 1
    {
      TableOf(image, l)
    }

    ghost function Advised(): Advice
      reads this`fsInfo, this`fsinfoModified
    {
      Advice(fsInfo, fsinfoModified)
    }

    /** Everything but the table: the bytes before and after the FAT region. */
    ghost function Outside(): (seq<Byte>, seq<Byte>)
      requires Fits(image, l)
      reads this
    {
      (image[..FatStart(l)], image[FatEnd(l)..])
    }

    constructor (l: Layout, image: seq<Byte>, fsInfo: Option<FsInfo>)
      requires Fits(image, l)
      ensures Valid() && this.l == l && this.image == image && Advised() == Advice(fsInfo, false)
    {
      this.l, this.image, this.fsInfo := l, image, fsInfo;
      firstFree := 2;
      fsinfoModified := false;
    }

    /** `check_fat_index`. */
    predicate InRange(cluster: nat) { 2 <= cluster <= l.maxCluster }

    method ReadFat(cluster: nat) returns (r: Result<FatEntry>)
      requires Fits(image, l)
      ensures r == if InRange(cluster) then Ok(Cells()[cluster]) else Err(Corrupt)
    {
      if !InRange(cluster) {
        return Err(Corrupt);
      }
      CellsApart(l, ActiveCopy(l), cluster, ActiveCopy(l), cluster);
      var at := CellAt(l, ActiveCopy(l), cluster);
      r := Ok(DecodeCell(LeValue(image[at..at + Width(l.ty)]), l.maxCluster, l.ty));
    }

    method NextCluster(cluster: nat) returns (r: Result<Option<nat>>)
      requires Fits(image, l)
      ensures r == if InRange(cluster) then Ok(NextOf(Cells()[cluster])) else Err(Corrupt)
    {
      var e := ReadFat(cluster);
      r := match e
        case Ok(Next(n)) => Ok(Some(n))
        case Ok(_) => Ok(None)
        case Err(error) => Err(error);
    }

    /** Store `v` into the cell of `cluster` in the copies `lo..hi`. */
    method StoreCells(cluster: nat, v: nat, lo: nat, hi: nat)
      requires Fits(image, l) && cluster <= l.maxCluster && v < Pow256(Width(l.ty)) && lo <= hi <= l.copies
      modifies this`image
      ensures CellWritten(old(image), image, l, lo, hi, cluster, v)
    {
      assert CellWritten(image, image, l, lo, lo, cluster, v) by {
        forall k: nat, c': nat | k < l.copies && c' <= l.maxCluster
          ensures CellAt(l, k, c') + Width(l.ty) <= |image|
        {
          CellsApart(l, k, c', k, c');
        }
      }
      for k := lo to hi
        invariant CellWritten(old(image), image, l, lo, k, cluster, v)
      {
        ghost var before := image;
        StoreCell(image, l, k, cluster, v);
        image := Splice(image, CellAt(l, k, cluster), LeBytes(v, Width(l.ty)));
        CellWrittenThen(old(image), before, image, l, lo, k, k + 1, cluster, v);
      }
    }

    /** Store `value` into the cell of `cluster`: in every copy while mirroring, else in the
        active one. */
    method StoreValue(cluster: nat, value: FatWrite) returns (ghost v: nat)
      requires Fits(image, l) && InRange(cluster)
      modifies this`image
      ensures Fits(image, l) && Outside() == old(Outside())
      ensures Cells() == old(Cells())[cluster := StoredAs(value, l.maxCluster, l.ty)]
      ensures ReservedKept(old(image), l, cluster, v)
      ensures l.mirroring ==> CellWritten(old(image), image, l, 0, l.copies, cluster, v)
      ensures !l.mirroring ==> CellWritten(old(image), image, l, l.activeFat, l.activeFat + 1, cluster, v)
    {
      NewCellFits(image, l, cluster, value);
      var cell := NewCell(RawCell(image, l, ActiveCopy(l), cluster), value, l.ty);
      v := cell;
      var lo, hi := if l.mirroring then 0 else l.activeFat, if l.mirroring then l.copies else l.activeFat + 1;
      StoreCells(cluster, cell, lo, hi);
      TableUpdated(old(image), image, l, lo, hi, cluster, v);
      assert image[..FatStart(l)] == old(image)[..FatStart(l)] && image[FatEnd(l)..] == old(image)[FatEnd(l)..];
    }

    /** A link that reads back as a free cell. */
    predicate LinkToFree(value: FatWrite) { value.PutNext? && StoredAs(value, l.maxCluster, l.ty) == Free }

    /** Store a cell and keep the allocator's hints tight. They stay sound exactly unless a link that
        masks to 0, which reads back as a free cell, is stored below them; a link to a data cluster
        reads back as that link. */
    method WriteFat(cluster: nat, value: FatWrite) returns (r: Result<()>, ghost v: nat)
      requires Valid()
      modifies this
      ensures Fits(image, l) && Outside() == old(Outside())
      ensures r == if InRange(cluster) then Ok(()) else Err(Corrupt)
      ensures r.Err? ==> Advised() == old(Advised())
      ensures r.Ok? && old(fsInfo).Some? ==> fsinfoModified && fsInfo == Some(FsInfo(U32_MAX,
        if value.PutFree? then Min(cluster, old(fsInfo).value.firstFree) else old(fsInfo).value.firstFree))
      ensures Honest(old(Advised()), old(Cells()), Advised(), Cells())
      ensures Cells() == if r.Ok? then old(Cells())[cluster := StoredAs(value, l.maxCluster, l.ty)] else old(Cells())
      ensures Valid() <==> r.Err? || cluster >= old(firstFree) || !LinkToFree(value)
      ensures Storable(value, l.maxCluster) ==> Valid()
      ensures r.Ok? && Storable(value, l.maxCluster) ==> Cells() == old(Cells())[cluster := EntryOf(value)]
      ensures old(CopiesAgree(image, l)) && l.mirroring ==> CopiesAgree(image, l)
      ensures r.Ok? ==> ReservedKept(old(image), l, cluster, v)
      ensures r.Ok? && l.mirroring ==> CellWritten(old(image), image, l, 0, l.copies, cluster, v)
      ensures r.Ok? && !l.mirroring ==> CellWritten(old(image), image, l, l.activeFat, l.activeFat + 1, cluster, v)
    {
      if !InRange(cluster) {
        return Err(Corrupt), 0;
      }
      v := StoreValue(cluster, value);
      CellStored(value, 0, l.maxCluster, l.ty);
      HintKept(old(Cells()), firstFree, cluster, StoredAs(value, l.maxCluster, l.ty), value.PutFree?);
      if l.mirroring && old(CopiesAgree(image, l)) {
        MirrorsStayEqual(old(image), image, l, cluster, v);
      }
      if value.PutFree? && cluster < firstFree {
        firstFree := cluster;
      }
      if fsInfo.Some? {
        var info := fsInfo.value;
        fsInfo := Some(FsInfo(U32_MAX, if value.PutFree? && cluster < info.firstFree then cluster else info.firstFree));
        fsinfoModified := true;
      }
      r := Ok(());
    }

    /** The lowest free cluster of the whole table, whatever FSInfo claims; `None` when full. */
    method NextFreeCluster() returns (r: Option<nat>)
      requires Valid()
      modifies this`firstFree, this`fsInfo, this`fsinfoModified
      ensures Valid()
      ensures Honest(old(Advised()), old(Cells()), Advised(), Cells())
      ensures Advised() == if r.Some? then Pointing(old(Advised()), r.value) else old(Advised())
      ensures r == if FreeFrom(Cells(), 2) == [] then None else Some(FreeFrom(Cells(), 2)[0])
    {
      var cluster: nat := firstFree;
      if fsInfo.Some? && fsInfo.value.firstFree != U32_MAX && fsInfo.value.firstFree <= l.maxCluster {
        cluster := Min(firstFree, fsInfo.value.firstFree);
      }
      cluster := Max(cluster, 2);
      while cluster <= l.maxCluster
        invariant 2 <= cluster && HintFits(Cells(), cluster) && Advised() == old(Advised())
      {
        var e := ReadFat(cluster);
        if e == Ok(Free) {
          FreeFromSkips(Cells(), 2, cluster);
          firstFree := cluster;
          if fsInfo.Some? {
            fsInfo := Some(fsInfo.value.(firstFree := cluster));
            fsinfoModified := true;
          }
          return Some(cluster);
        }
        cluster := cluster + 1;
      }
      FreeFromSkips(Cells(), 2, cluster);
      firstFree := l.maxCluster;
      r := None;
    }

    /** Allocate the `n` lowest free clusters, chained in that order after `linkFrom`. With fewer
        than `n` free, every claimed cluster is freed again and `linkFrom` is made an end of
        chain: the table is restored unless `linkFrom` was not one before. */
    method AllocateClusters(n: nat, linkFrom: Option<nat>) returns (r: Result<seq<nat>>)
      requires Valid() && n > 0
      requires linkFrom.Some? ==> InRange(linkFrom.value) && Cells()[linkFrom.value] != Free
      modifies this
      ensures Valid() && Outside() == old(Outside())
      ensures Honest(old(Advised()), old(Cells()), Advised(), Cells())
      ensures r.Ok? <==> n <= |old(FreeFrom(Cells(), 2))|
      ensures r.Ok? ==> r.value == old(FreeFrom(Cells(), 2))[..n] && IsLinked(old(Cells()), Cells(), linkFrom, r.value)
      ensures r.Err? ==> r.error == StorageFull
      ensures r.Err? ==>
        (Cells() == old(Cells()) <==>
          linkFrom == None || old(Cells()[linkFrom.value]) == End ||
          old(FreeFrom(Cells(), 2)) == [])
    {
      ghost var t, free := Cells(), FreeFrom(Cells(), 2);
      FreeFromListed(t, 2);
      var claimed: seq<nat> := [];
      for k := 0 to n
        invariant Valid() && Outside() == old(Outside()) && |claimed| == k
        invariant Honest(old(Advised()), t, Advised(), Cells())
        invariant Partial(t, Cells(), linkFrom, claimed, free, FreeFrom(Cells(), 2))
      {
        var next := ClaimNext(linkFrom, claimed, t, free);
        if next.None? {
          Unwind(claimed, linkFrom, t);
          return Err(StorageFull);
        }
        claimed := claimed + [next.value];
      }
      r := Ok(claimed);
    }

    /** Claim the next free cluster of an allocation under way, if there is one, and link it. */
    method ClaimNext(linkFrom: Option<nat>, claimed: seq<nat>, ghost t: Table, ghost free: seq<nat>)
        returns (next: Option<nat>)
      requires Valid() && Partial(t, Cells(), linkFrom, claimed, free, FreeFrom(Cells(), 2))
      modifies this
      ensures Valid() && Outside() == old(Outside())
      ensures Honest(old(Advised()), old(Cells()), Advised(), Cells())
      ensures next.None? ==> Cells() == old(Cells()) && FreeFrom(Cells(), 2) == []
      ensures next.Some? ==> Partial(t, Cells(), linkFrom, claimed + [next.value], free, FreeFrom(Cells(), 2))
    {
      ghost var left := FreeFrom(Cells(), 2);
      next := NextFreeCluster();
      if next.Some? {
        ghost var u := Cells();
        TailInUse(t, u, linkFrom, claimed, free, left);
        Claim(next.value, Tail(linkFrom, claimed));
        FreeFromListed(Cells(), 2);
        PartialPush(t, u, linkFrom, claimed, free, left, FreeFrom(Cells(), 2));
      }
    }

    /** Claim the lowest free cluster and link it from `prev`. */
    method Claim(cluster: nat, prev: Option<nat>)
      requires Valid() && FreeFrom(Cells(), 2) != [] && cluster == FreeFrom(Cells(), 2)[0]
      requires prev.Some? ==> InRange(prev.value) && Cells()[prev.value] != Free
      modifies this
      ensures Valid() && Outside() == old(Outside())
      ensures Honest(old(Advised()), old(Cells()), Advised(), Cells())
      ensures cluster < |old(Cells())| && Cells() == Claimed(old(Cells()), prev, cluster)
      ensures old(FreeFrom(Cells(), 2)) == [cluster] + FreeFrom(Cells(), 2)
    {
      ghost var u := Cells();
      FreeFromListed(u, 2);
      ghost var v;
      var w;
      w, v := WriteFat(cluster, PutEnd);
      if prev.Some? {
        w, v := WriteFat(prev.value, PutNext(cluster));
      }
      forall x | 2 <= x < cluster
        ensures u[x] != Free
      {
        if u[x] == Free {
          FreeFromHas(u, 2, x);
        }
      }
      FreeFromClaim(u, Cells(), 2, cluster);
    }

    /** Free a partial run and unhook it. */
    method Unwind(claimed: seq<nat>, linkFrom: Option<nat>, ghost t: Table)
      requires Valid() && |t| == l.maxCluster + 1 && IsLinked(t, Cells(), linkFrom, claimed)
      requires forall c :: c in claimed ==> IsData(t, c) && t[c] == Free
      requires linkFrom.Some? ==> InRange(linkFrom.value) && t[linkFrom.value] != Free
      modifies this
      ensures Valid() && Outside() == old(Outside())
      ensures Honest(old(Advised()), old(Cells()), Advised(), Cells())
      ensures Cells() == if linkFrom.Some? && claimed != [] then t[linkFrom.value := End] else t
    {
      ghost var u := Cells();
      ghost var v;
      var w;
      for i := 0 to |claimed|
        invariant Valid() && Outside() == old(Outside())
        invariant Honest(old(Advised()), u, Advised(), Cells())
        invariant forall c: nat :: c < |u| ==> Cells()[c] == if c in claimed[..i] then Free else u[c]
      {
        w, v := WriteFat(claimed[i], PutFree);
        PrefixGrows(claimed, i);
      }
      PrefixWhole(claimed);
      Unwound(t, u, Cells(), linkFrom, claimed);
      if linkFrom.Some? && claimed != [] {
        w, v := WriteFat(linkFrom.value, PutEnd);
      }
    }

    /** Free every cluster the start reaches; it terminates on every table. */
    method FreeClusterChain(first: nat) returns (r: Result<()>)
      requires Valid()
      modifies this
      ensures Valid() && Outside() == old(Outside())
      ensures Honest(old(Advised()), old(Cells()), Advised(), Cells())
      ensures r == if InRange(first) then Ok(()) else Err(Corrupt)
      ensures r.Ok? ==> LinksIn(old(Cells())) && Cells() == FreeWalk(old(Cells()), first)
      ensures r.Err? ==> Cells() == old(Cells())
    {
      LinksOf(image, l);
      var cluster := first;
      while true
        invariant Valid() && Outside() == old(Outside()) && LinksIn(Cells()) && LinksIn(old(Cells()))
        invariant Honest(old(Advised()), old(Cells()), Advised(), Cells())
        invariant InRange(first) ==> InRange(cluster) && FreeWalk(old(Cells()), first) == FreeWalk(Cells(), cluster)
        invariant !InRange(first) ==> cluster == first && Cells() == old(Cells())
        decreases LinkCount(Cells(), |Cells()|)
      {
        var next := NextCluster(cluster);
        if next.Err? {
          return Err(next.error);
        }
        ghost var t := Cells();
        ghost var v;
        var w;
        w, v := WriteFat(cluster, PutFree);
        if next.value.None? {
          return Ok(());
        }
        LinkCountDrops(t, cluster, |t|);
        cluster := next.value.value;
      }
    }
  }

  lemma PrefixGrows(s: seq<nat>, i: nat)
    requires i < |s|
    ensures forall c: nat :: c in s[..i + 1] <==> c in s[..i] || c == s[i]
  {
    assert s[..i + 1] == s[..i] + [s[i]];
  }

  lemma PrefixWhole(s: seq<nat>)
    ensures s[..|s|] == s
  {
  }

  /** Decoded links stay inside the volume. */
  lemma LinksOf(image: seq<Byte>, l: Layout)
    requires Fits(image, l)
    ensures LinksIn(TableOf(image, l))
  {
  }

  /** `FatClusterMap`: one open file's chain. `clusters` is that chain. */
  class FatClusterMap {
    const fs: FatVolume
    const clusterSize: nat
    var allocatedLen: nat
    ghost var clusters: seq<nat>

    ghost function State(): MapState
      reads this
    {
      MapState(clusters, allocatedLen)
    }

    ghost predicate Valid()
      reads this, fs
    {
      && fs.Valid()
      && (clusters != [] ==> IsChain(fs.Cells(), clusters))
      && LawfulMap(State(), clusterSize)
    }

    /** A map over the chain at `first`; the chain must cover the file, as opening it checks. */
    constructor (fs: FatVolume, clusterSize: nat, fileSize: nat, first: nat, ghost s: seq<nat>)
      requires fs.Valid() && clusterSize > 0 && fs.l.maxCluster <= U32_MAX
      requires first == FirstField(s) && (s != [] ==> IsChain(fs.Cells(), s))
      requires fileSize <= Units(|s|, clusterSize)
      ensures Valid() && this.fs == fs && this.clusterSize == clusterSize && clusters == s
      ensures fileSize <= allocatedLen
      ensures allocatedLen == if s == [] then 0 else Units(Max(1, DivCeil(fileSize, clusterSize)), clusterSize)
    {
      this.fs, this.clusterSize := fs, clusterSize;
      allocatedLen := if first < 2 then 0 else if fileSize == 0 then clusterSize
        else Units(DivCeil(fileSize, clusterSize), clusterSize);
      clusters := s;
      if s != [] {
        ChainDistinct(fs.Cells(), s);
        ChainBounded(fs.Cells(), s);
        assert ChainCell(fs.Cells(), s, 0);
        UnitsMono(1, |s|, clusterSize);
      }
      DivCeilLeast(fileSize, clusterSize, |s|);
      DivCeilCovers(fileSize, clusterSize);
      UnitsMono(DivCeil(fileSize, clusterSize), |s|, clusterSize);
    }

    method Next(cluster: nat) returns (r: Result<Option<nat>>)
      requires Valid()
      ensures r == if fs.InRange(cluster) then Ok(NextOf(fs.Cells()[cluster])) else Err(Corrupt)
      ensures cluster in clusters ==> r.Ok? && LawfulNext(State(), cluster, r.value)
    {
      r := fs.NextCluster(cluster);
      forall i: nat | At(clusters, i, cluster)
        ensures r == Ok(if i + 1 < |clusters| then Some(clusters[i + 1]) else None)
      {
        assert ChainCell(fs.Cells(), clusters, i);
      }
      if cluster in clusters {
        var i :| 0 <= i < |clusters| && clusters[i] == cluster;
        assert At(clusters, i, cluster);
      }
    }

    /** Walk to the chain's last cluster; the step bound is never hit on a chain. */
    method WalkToTail(first: nat) returns (r: Result<nat>)
      requires Valid() && Some(first) == FirstOf(clusters)
      ensures r == Ok(clusters[|clusters| - 1])
    {
      var c, steps := first, 0;
      ChainBounded(fs.Cells(), clusters);
      while true
        invariant 0 <= steps && At(clusters, steps, c)
        decreases |clusters| - steps
      {
        var next := Next(c);
        if next.Err? {
          return Err(Corrupt);
        }
        if next.value.None? {
          return Ok(c);
        }
        steps := steps + 1;
        if steps > fs.l.maxCluster {
          return Err(Corrupt);
        }
        c := next.value.value;
      }
    }

    /** How many clusters a growth to `needed` bytes asks for. */
    function Wanted(linked: bool, needed: nat): nat
      requires clusterSize > 0
      reads this
    {
      var bytes := if linked then SatSub(needed, allocatedLen) else Max(needed, clusterSize);
      Min(Max(DivCeil(bytes, clusterSize), 1), U32_MAX)
    }

    /** Grow the chain to cover `needed` bytes. The new clusters were free and are linked, in
        order, after the old tail; when too few are free nothing changes. */
    method Extend(first: Option<nat>, tail: Option<nat>, needed: nat) returns (r: Result<Ends>)
      requires Valid() && first == FirstOf(clusters) && (tail == None || tail == LastOf(clusters))
      modifies this, fs
      ensures Valid() && fs.Outside() == old(fs.Outside())
      ensures Honest(old(fs.Advised()), old(fs.Cells()), fs.Advised(), fs.Cells())
      ensures r.Ok? ==> LawfulExtend(old(State()), State(), clusterSize, needed, old(FreeSet(fs.Cells())))
      ensures r.Ok? ==> r.value == EndsOf(clusters)
      ensures r.Ok? && old(needed > allocatedLen || clusters == []) ==>
        IsLinked(old(fs.Cells()), fs.Cells(), old(LastOf(clusters)), clusters[|old(clusters)|..])
      ensures r.Ok? && !old(needed > allocatedLen || clusters == []) ==>
        fs.Cells() == old(fs.Cells()) &&
        State() == old(State())
      ensures r.Err? ==> r.error == StorageFull && fs.Cells() == old(fs.Cells()) && State() == old(State())
      ensures r.Err? <==>
        |old(FreeFrom(fs.Cells(), 2))| < old(Lacking(|clusters|, allocatedLen, clusterSize, needed))
    {
      var firstOut := if first.Some? then first.value else 0;
      HeadInHeap();
      var last := FindTail(first, tail);
      assert fs.Cells() == old(fs.Cells()) && State() == old(State());
      if needed <= allocatedLen && firstOut >= 2 {
        AlreadyCovered(State(), clusterSize, needed, FreeSet(fs.Cells()));
        return Ok(Ends(firstOut, last.value));
      }
      r := Append(firstOut, last, needed);
    }

    /** The chain's last cluster, walked to when it is not known. */
    method FindTail(first: Option<nat>, tail: Option<nat>) returns (last: Option<nat>)
      requires Valid() && first == FirstOf(clusters) && (tail == None || tail == LastOf(clusters))
      ensures last == LastOf(clusters)
    {
      last := tail;
      if tail.None? && first.Some? {
        var walked := WalkToTail(first.value);
        last := Some(walked.value);
      }
    }

    /** Count the `n` clusters just linked, the first ones that were free in `t`. */
    method Count(firstOut: nat, run: seq<nat>, hadTail: bool, n: nat, needed: nat, ghost t: Table) returns (e: Ends)
      requires firstOut == FirstField(clusters) && (clusters != [] ==> firstOut >= 2)
      requires fs.Valid() && LawfulMap(State(), clusterSize) && (clusters != [] ==> IsChain(t, clusters))
      requires run != [] && |run| <= |FreeFrom(t, 2)| && run == FreeFrom(t, 2)[..|run|] && |t| <= U32_MAX
      requires IsLinked(t, fs.Cells(), LastOf(clusters), run) && hadTail == (clusters != [])
      requires |run| == n == Lacking(|clusters|, allocatedLen, clusterSize, needed)
      modifies this`allocatedLen, this`clusters
      ensures Valid() && clusters == old(clusters) + run && e == EndsOf(clusters)
      ensures LawfulExtend(old(State()), State(), clusterSize, needed, FreeSet(t))
    {
      ghost var m := State();
      WantedCovers(needed);
      e := Joined(firstOut, clusters, run);
      allocatedLen := if hadTail then allocatedLen + Units(n, clusterSize) else Units(n, clusterSize);
      clusters := clusters + run;
      Appended(t, fs.Cells(), m, State(), clusterSize, needed, run);
    }

    /** Allocate and link what a growth to `needed` bytes wants. */
    method Append(firstOut: nat, linkFrom: Option<nat>, needed: nat) returns (r: Result<Ends>)
      requires Valid() && firstOut == FirstField(clusters) && linkFrom == LastOf(clusters) &&
        (needed > allocatedLen || clusters == [])
      modifies this, fs
      ensures Valid() && fs.Outside() == old(fs.Outside())
      ensures Honest(old(fs.Advised()), old(fs.Cells()), fs.Advised(), fs.Cells())
      ensures r.Ok? ==> LawfulExtend(old(State()), State(), clusterSize, needed, old(FreeSet(fs.Cells())))
      ensures r.Ok? ==> r.value == EndsOf(clusters)
      ensures r.Ok? ==> IsLinked(old(fs.Cells()), fs.Cells(), old(LastOf(clusters)), clusters[|old(clusters)|..])
      ensures r.Err? ==> r.error == StorageFull && fs.Cells() == old(fs.Cells()) && State() == old(State())
      ensures r.Err? <==>
        |old(FreeFrom(fs.Cells(), 2))| < old(Lacking(|clusters|, allocatedLen, clusterSize, needed))
    {
      HeadInHeap();
      var n := Wanted(linkFrom.Some?, needed);
      ghost var t, s := fs.Cells(), clusters;
      WantedLacks(t, needed);
      var got := fs.AllocateClusters(n, linkFrom);
      if got.Err? {
        return Err(got.error);
      }
      var ends := Count(firstOut, got.value, linkFrom.Some?, n, needed, t);
      assert clusters[|s|..] == got.value;
      r := Ok(ends);
    }

    /** What is asked for is what is missing, unless that is more than there can be. */
    lemma WantedLacks(t: Table, needed: nat)
      requires LawfulMap(State(), clusterSize) && 2 <= |t| <= U32_MAX && (needed > allocatedLen || clusters == [])
      ensures |FreeFrom(t, 2)| < Wanted(clusters != [], needed) <==>
        |FreeFrom(t, 2)| < Lacking(|clusters|, allocatedLen, clusterSize, needed)
      ensures Wanted(clusters != [], needed) <= |FreeFrom(t, 2)| ==>
        Wanted(clusters != [], needed) == Lacking(|clusters|, allocatedLen, clusterSize, needed)
    {
      FreeFromBounded(t, 2);
      LackingIs(|clusters|, allocatedLen, clusterSize, needed);
      if clusters != [] {
        DivCeilLeast(needed - allocatedLen, clusterSize, 0);
      } else {
        DivCeilUnits(1, clusterSize);
        DivCeilLeast(needed, clusterSize, 1);
      }
    }

    lemma WantedCovers(needed: nat)
      requires LawfulMap(State(), clusterSize)
      ensures needed <= allocatedLen + Units(Lacking(|clusters|, allocatedLen, clusterSize, needed), clusterSize)
    {
      var n := Lacking(|clusters|, allocatedLen, clusterSize, needed);
      LackingIs(|clusters|, allocatedLen, clusterSize, needed);
      DivCeilLeast(Max(0, needed - allocatedLen), clusterSize, n);
    }

    /** Keep the clusters that hold the first `keepLen` bytes, at least one; free the rest. */
    method FreeTail(first: nat, keepLen: nat) returns (r: Result<nat>)
      requires Valid() && first == FirstField(clusters) && (clusters != [] ==> keepLen <= allocatedLen)
      modifies this, fs
      ensures Valid() && fs.Outside() == old(fs.Outside()) && r == Ok(FirstField(clusters))
      ensures Honest(old(fs.Advised()), old(fs.Cells()), fs.Advised(), fs.Cells())
      ensures clusters == [] ==> old(clusters) == [] && fs.Cells() == old(fs.Cells())
      ensures clusters != [] ==>
        var k := Max(1, DivCeil(keepLen, clusterSize));
        k <= |old(clusters)| && clusters == old(clusters)[..k] && IsCut(old(fs.Cells()), fs.Cells(), old(clusters), k)
      ensures clusters != [] ==> LawfulFreeTail(old(State()), State(), clusterSize, keepLen)
      ensures Tight(|old(clusters)|, old(allocatedLen), |clusters|, clusterSize, keepLen)
    {
      HeadInHeap();
      if first < 2 {
        allocatedLen := 0;
        return Ok(0);
      }
      ghost var s := clusters;
      ghost var k := Max(1, DivCeil(keepLen, clusterSize));
      var keep := if keepLen == 0 then 1 else Min(DivCeil(keepLen, clusterSize), U32_MAX);
      KeepFits(keepLen);
      FewestTight(|clusters|, allocatedLen, clusterSize, keepLen);
      var cur := WalkLinks(first, SatSub(keep, 1));
      CutAfter(cur, k);
      allocatedLen := Units(keep, clusterSize);
      clusters := s[..k];
      CutLawful(fs.Cells(), s, k, keepLen);
      r := Ok(first);
    }

    /** Follow `n` links from the head, or as many as there are. */
    method WalkLinks(first: nat, n: nat) returns (cur: nat)
      requires Valid() && At(clusters, 0, first) && n < |clusters|
      ensures At(clusters, n, cur)
    {
      cur := first;
      for i := 0 to n
        invariant At(clusters, i, cur)
      {
        var step := Next(cur);
        if step.value.None? {
          break;
        }
        cur := step.value.value;
      }
    }

    /** End the chain at its `k`th cluster, `cur`, and free every cluster after it. */
    method CutAfter(cur: nat, ghost k: nat)
      requires Valid() && 0 < k && At(clusters, k - 1, cur)
      modifies fs
      ensures fs.Valid() && fs.Outside() == old(fs.Outside())
      ensures Honest(old(fs.Advised()), old(fs.Cells()), fs.Advised(), fs.Cells())
      ensures IsCut(old(fs.Cells()), fs.Cells(), clusters, k)
    {
      ghost var s, t := clusters, fs.Cells();
      ChainDistinct(t, s);
      ChainCells(t, s);
      var next := fs.NextCluster(cur);
      ghost var v;
      var w;
      w, v := fs.WriteFat(cur, PutEnd);
      ghost var j := k;
      while next.value.Some?
        invariant next.Ok? && next.value == (if j < |s| then Some(s[j]) else None) && k <= j <= |s|
        invariant fs.Valid() && fs.Outside() == old(fs.Outside())
        invariant Honest(old(fs.Advised()), t, fs.Advised(), fs.Cells())
        invariant CutTo(t, fs.Cells(), s, k, j)
        decreases |s| - j
      {
        var c := next.value.value;
        next := fs.NextCluster(c);
        CutStep(t, fs.Cells(), s, k, j);
        w, v := fs.WriteFat(c, PutFree);
        j := j + 1;
      }
      CutDone(t, fs.Cells(), s, k);
    }

    lemma KeepFits(keepLen: nat)
      requires Valid() && clusters != [] && keepLen <= allocatedLen
      ensures DivCeil(keepLen, clusterSize) <= |clusters| && (keepLen == 0 ==> DivCeil(keepLen, clusterSize) == 0)
      ensures keepLen > 0 ==> DivCeil(keepLen, clusterSize) > 0
    {
      DivCeilLeast(keepLen, clusterSize, |clusters|);
      DivCeilLeast(keepLen, clusterSize, 0);
    }

    lemma CutLawful(u: Table, s: seq<nat>, k: nat, keepLen: nat)
      requires LawfulMap(MapState(s, Units(|s|, clusterSize)), clusterSize)
      requires 0 < k <= |s| && k == Max(1, DivCeil(keepLen, clusterSize))
      ensures LawfulMap(MapState(s[..k], Units(k, clusterSize)), clusterSize)
      ensures keepLen <= Units(k, clusterSize)
    {
      DivCeilLeast(keepLen, clusterSize, k);
    }

    lemma HeadInHeap()
      requires Valid()
      ensures clusters != [] ==>
        clusters[0] >= 2 && fs.InRange(clusters[|clusters| - 1]) &&
        fs.Cells()[clusters[|clusters| - 1]] == End
    {
      if clusters != [] {
        assert ChainCell(fs.Cells(), clusters, 0) && ChainCell(fs.Cells(), clusters, |clusters| - 1);
      }
    }
  }

  /** Appending a run of formerly free clusters is a lawful growth. */
  function EndsOf(s: seq<nat>): Ends
    requires s != []
  {
    Ends(s[0], s[|s| - 1])
  }

  /** The ends of the chain at `firstOut` with `run` behind it. */
  method Joined(firstOut: nat, ghost s: seq<nat>, run: seq<nat>) returns (e: Ends)
    requires run != [] && firstOut == FirstField(s) && (s != [] ==> firstOut >= 2)
    ensures e == EndsOf(s + run)
  {
    e := Ends(if firstOut >= 2 then firstOut else run[0], run[|run| - 1]);
  }

  lemma Appended(t: Table, u: Table, m: MapState, m': MapState, cs: nat, needed: nat, run: seq<nat>)
    requires LawfulMap(m, cs) && (m.clusters != [] ==> IsChain(t, m.clusters))
    requires run != [] && |run| <= |FreeFrom(t, 2)| && run == FreeFrom(t, 2)[..|run|]
    requires IsLinked(t, u, LastOf(m.clusters), run) && |t| <= U32_MAX
    requires |run| == Lacking(|m.clusters|, m.allocatedLen, cs, needed)
    requires m'.clusters == m.clusters + run
    requires m'.allocatedLen == (if m.clusters != [] then m.allocatedLen else 0) + Units(|run|, cs) &&
      needed <= m'.allocatedLen
    ensures IsChain(u, m'.clusters) && LawfulExtend(m, m', cs, needed, FreeSet(t))
  {
    FreshRun(t, m.clusters, run);
    if m.clusters != [] {
      ChainExtend(t, u, m.clusters, run);
    } else {
      assert m.clusters + run == run;
    }
    ChainDistinct(u, m'.clusters);
    ChainBounded(u, m'.clusters);
    UnitsSplit(|m.clusters|, |run|, cs);
    forall i | |m.clusters| <= i < |m'.clusters|
      ensures m'.clusters[i] in FreeSet(t)
    {
      assert m'.clusters[i] in run;
    }
  }

  /** Clusters taken from the free list are not in a chain. */
  lemma FreshRun(t: Table, s: seq<nat>, run: seq<nat>)
    requires |run| <= |FreeFrom(t, 2)| && run == FreeFrom(t, 2)[..|run|] && (s != [] ==> IsChain(t, s))
    ensures forall c :: c in run ==> IsData(t, c) && t[c] == Free && c !in s
  {
    FreeFromListed(t, 2);
    forall i: nat | i < |s|
      ensures s[i] < |t| && t[s[i]] != Free
    {
      assert ChainCell(t, s, i);
    }
  }

  /** The stored cell keeps the reserved bits of the active copy's old cell. */
  ghost predicate ReservedKept(before: seq<Byte>, l: Layout, cluster: nat, v: nat)
    requires Fits(before, l)
  {
    && CellAt(l, ActiveCopy(l), cluster) + Width(l.ty) <= |before|
    && ReservedBits(v, l.ty) == ReservedBits(RawCell(before, l, ActiveCopy(l), cluster), l.ty)
  }

  /** The cell `write_fat` stores over `raw`: new value bits, old reserved bits. */
  function NewCell(raw: nat, value: FatWrite, ty: FatType): nat {
    ValueOf(value, ty) + ReservedBits(raw, ty)
  }

  lemma NewCellFits(image: seq<Byte>, l: Layout, cluster: nat, value: FatWrite)
    requires Fits(image, l) && cluster <= l.maxCluster
    ensures CellAt(l, ActiveCopy(l), cluster) + Width(l.ty) <= |image|
    ensures var v := NewCell(RawCell(image, l, ActiveCopy(l), cluster), value, l.ty);
      && v < Pow256(Width(l.ty))
      && DecodeCell(v, l.maxCluster, l.ty) == StoredAs(value, l.maxCluster, l.ty)
      && ReservedKept(image, l, cluster, v)
  {
    CellsApart(l, ActiveCopy(l), cluster, ActiveCopy(l), cluster);
    var at := CellAt(l, ActiveCopy(l), cluster);
    LeValueBound(image[at..at + Width(l.ty)]);
    CellBound(value, RawCell(image, l, ActiveCopy(l), cluster), l.ty);
    CellStored(value, RawCell(image, l, ActiveCopy(l), cluster), l.maxCluster, l.ty);
  }

  lemma CellBound(value: FatWrite, raw: nat, ty: FatType)
    requires raw < Pow256(Width(ty))
    ensures ValueOf(value, ty) + ReservedBits(raw, ty) < Pow256(Width(ty))
  {
    assert Pow256(2) == 0x1_0000 && Pow256(4) == 0x1_0000_0000;
    if ty.Fat32? {
      assert ReservedBits(raw, ty) == (raw / 0x1000_0000) * 0x1000_0000;
    }
  }

  /** Writing a cell of the active copy updates the decoded table there and nowhere else. */
  lemma TableUpdated(before: seq<Byte>, after: seq<Byte>, l: Layout, lo: nat, hi: nat, cluster: nat, v: nat)
    requires Fits(before, l) && cluster <= l.maxCluster && lo <= ActiveCopy(l) < hi
    requires CellWritten(before, after, l, lo, hi, cluster, v)
    ensures TableOf(after, l) == TableOf(before, l)[cluster := DecodeCell(v, l.maxCluster, l.ty)]
  {
    forall c: nat | c <= l.maxCluster
      ensures TableOf(after, l)[c] == TableOf(before, l)[cluster := DecodeCell(v, l.maxCluster, l.ty)][c]
    {
      assert RawCell(after, l, ActiveCopy(l), c) == if c == cluster then v else RawCell(before, l, ActiveCopy(l), c);
    }
  }
}
