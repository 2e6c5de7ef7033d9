/** The stream shared by both backends (src/vfs/stream.rs), over a lawful cluster map and a flat
    byte store, proved to behave as a growable byte sequence with a cursor. */
module StreamFiles {
  import opened Basics
  import opened ClusterMaps
  import opened FileSpec

  ghost predicate InStore(size: nat, g: Geometry, c: nat) {
    c >= 2 && OffsetOf(g, c) + g.clusterSize <= size
  }

  /** Every cluster lies inside the store. */
  ghost predicate Mapped(size: nat, g: Geometry, clusters: seq<nat>) {
    && g.clusterSize > 0
    && InHeap(clusters)
    && forall k :: 0 <= k < |clusters| ==> InStore(size, g, clusters[k])
  }

  /** Byte `i` of the stream as the store holds it, whether or not the file shows it. */
  ghost function Peek(bytes: seq<Byte>, g: Geometry, clusters: seq<nat>, i: nat): Byte
    requires Mapped(|bytes|, g, clusters)
  {
    if Unit(i, g.clusterSize) < |clusters| then bytes[Addr(g, clusters, i)] else 0
  }

  ghost predicate Owned(g: Geometry, clusters: seq<nat>, a: nat)
    requires g.clusterSize > 0 && InHeap(clusters)
  {
    exists i: nat :: Unit(i, g.clusterSize) < |clusters| && Addr(g, clusters, i) == a
  }

  /** The file's bytes: the initialised prefix from the store, zeros from there to the end. */
  ghost function Shown(bytes: seq<Byte>, g: Geometry, clusters: seq<nat>, validLen: nat, len: nat): (r: seq<Byte>)
    requires Mapped(|bytes|, g, clusters)
    ensures |r| == len
  {
    seq(len, i requires 0 <= i => if i < validLen then Peek(bytes, g, clusters, i) else 0)
  }

  /** `after` is `before` with `data` stored at stream position `pos`; nothing outside the
      stream's own clusters differs. */
  ghost predicate Poked(before: seq<Byte>, after: seq<Byte>, g: Geometry, clusters: seq<nat>, pos: nat, data: seq<Byte>)
    requires Mapped(|before|, g, clusters)
  {
    && |after| == |before|
    && (forall i: nat {:trigger Peek(after, g, clusters, i)} :: Unit(i, g.clusterSize) < |clusters| ==>
         Peek(after, g, clusters, i) == if pos <= i < pos + |data| then data[i - pos] else Peek(before, g, clusters, i))
    && (forall a: nat {:trigger after[a]} :: a < |before| && !Owned(g, clusters, a) ==> after[a] == before[a])
  }

  /** A run of adjacent clusters maps stream positions to addresses by a shift. */
  lemma RunAddresses(size: nat, g: Geometry, clusters: seq<nat>, pos: nat, last: nat, n: nat)
    requires Mapped(size, g, clusters)
    requires Adjacent(clusters, Unit(pos, g.clusterSize), last)
    requires 0 < n && pos + n <= Units(last + 1, g.clusterSize)
    ensures Addr(g, clusters, pos) + n <= size
    ensures forall i: nat :: pos <= i < pos + n ==>
      Unit(i, g.clusterSize) < |clusters| && Addr(g, clusters, i) == Addr(g, clusters, pos) + (i - pos)
  {
    forall i: nat | pos <= i < pos + n
      ensures Unit(i, g.clusterSize) < |clusters| && Addr(g, clusters, i) == Addr(g, clusters, pos) + (i - pos)
    {
      AddrRun(g, clusters, pos, last, i - pos);
    }
    AddrRun(g, clusters, pos, last, n - 1);
  }

  /** Storing at an address that runs on contiguously stores at the stream position. */
  lemma SplicePokes(before: seq<Byte>, g: Geometry, clusters: seq<nat>, pos: nat, last: nat, data: seq<Byte>)
    requires Mapped(|before|, g, clusters) && Distinct(clusters)
    requires Adjacent(clusters, Unit(pos, g.clusterSize), last)
    requires pos + |data| <= Units(last + 1, g.clusterSize) && data != []
    ensures Addr(g, clusters, pos) + |data| <= |before|
    ensures Poked(before, Splice(before, Addr(g, clusters, pos), data), g, clusters, pos, data)
  {
    RunAddresses(|before|, g, clusters, pos, last, |data|);
    var base := Addr(g, clusters, pos);
    var after := Splice(before, base, data);
    forall a: nat | base <= a < base + |data|
      ensures Owned(g, clusters, a)
    {
      assert Addr(g, clusters, pos + (a - base)) == a;
    }
    forall i: nat | Unit(i, g.clusterSize) < |clusters|
      ensures Peek(after, g, clusters, i) == if pos <= i < pos + |data| then data[i - pos]
        else Peek(before, g, clusters, i)
    {
      SplicedPeek(before, g, clusters, pos, data, i);
    }
  }

  lemma SplicedPeek(before: seq<Byte>, g: Geometry, clusters: seq<nat>, pos: nat, data: seq<Byte>, i: nat)
    requires Mapped(|before|, g, clusters) && Distinct(clusters) && data != []
    requires Unit(pos, g.clusterSize) < |clusters| && Addr(g, clusters, pos) + |data| <= |before|
    requires forall i: nat :: pos <= i < pos + |data| ==>
      Unit(i, g.clusterSize) < |clusters| && Addr(g, clusters, i) == Addr(g, clusters, pos) + (i - pos)
    requires Unit(i, g.clusterSize) < |clusters|
    ensures Peek(Splice(before, Addr(g, clusters, pos), data), g, clusters, i) ==
      if pos <= i < pos + |data| then data[i - pos] else Peek(before, g, clusters, i)
  {
    var base, a := Addr(g, clusters, pos), Addr(g, clusters, i);
    if !(pos <= i < pos + |data|) && base <= a < base + |data| {
      AddrInjective(g, clusters, i, pos + (a - base));
    }
  }

  lemma PokedThen(a: seq<Byte>, b: seq<Byte>, c: seq<Byte>, g: Geometry, clusters: seq<nat>, pos: nat, d: seq<Byte>,
      e: seq<Byte>)
    requires Mapped(|a|, g, clusters)
    requires Poked(a, b, g, clusters, pos, d) && Poked(b, c, g, clusters, pos + |d|, e)
    ensures Poked(a, c, g, clusters, pos, d + e)
  {
  }

  /** The shown bytes depend only on the covered prefix of the cluster list. */
  lemma ShownPrefix(bytes: seq<Byte>, g: Geometry, clusters: seq<nat>, longer: seq<nat>, validLen: nat, len: nat)
    requires Mapped(|bytes|, g, clusters) && Mapped(|bytes|, g, longer)
    requires clusters <= longer && validLen <= Units(|clusters|, g.clusterSize)
    ensures Shown(bytes, g, longer, validLen, len) == Shown(bytes, g, clusters, validLen, len)
  {
    forall i | 0 <= i < len
      ensures Shown(bytes, g, longer, validLen, len)[i] == Shown(bytes, g, clusters, validLen, len)[i]
    {
      Covered(i, |clusters|, g.clusterSize);
    }
  }

  /** Lowering both marks cuts the shown bytes. */
  lemma ShownCut(bytes: seq<Byte>, g: Geometry, clusters: seq<nat>, validLen: nat, len: nat, size: nat)
    requires Mapped(|bytes|, g, clusters) && size <= len
    ensures Shown(bytes, g, clusters, Min(validLen, size), size) == Shown(bytes, g, clusters, validLen, len)[..size]
  {
  }

  /** Storing past the initialised prefix is invisible. */
  lemma ShownHidden(before: seq<Byte>, after: seq<Byte>, g: Geometry, clusters: seq<nat>, validLen: nat, len: nat,
      pos: nat, data: seq<Byte>)
    requires Mapped(|before|, g, clusters) && Poked(before, after, g, clusters, pos, data)
    requires validLen <= Units(|clusters|, g.clusterSize) && validLen <= pos
    ensures Shown(after, g, clusters, validLen, len) == Shown(before, g, clusters, validLen, len)
  {
    forall i | 0 <= i < len
      ensures Shown(after, g, clusters, validLen, len)[i] == Shown(before, g, clusters, validLen, len)[i]
    {
      Covered(i, |clusters|, g.clusterSize);
    }
  }

  /** Storing anywhere changes at most the shown bytes of that range. */
  lemma ShownTorn(before: seq<Byte>, after: seq<Byte>, g: Geometry, clusters: seq<nat>, validLen: nat, len: nat,
      pos: nat, data: seq<Byte>)
    requires Mapped(|before|, g, clusters) && Poked(before, after, g, clusters, pos, data)
    requires validLen <= Units(|clusters|, g.clusterSize)
    ensures forall i :: 0 <= i < len && !(pos <= i < pos + |data|) ==>
      Shown(after, g, clusters, validLen, len)[i] == Shown(before, g, clusters, validLen, len)[i]
  {
    forall i | 0 <= i < len && !(pos <= i < pos + |data|)
      ensures Shown(after, g, clusters, validLen, len)[i] == Shown(before, g, clusters, validLen, len)[i]
    {
      Covered(i, |clusters|, g.clusterSize);
    }
  }

  /** Zeroing the gap below `pos`, storing `data` and raising both marks is a write of the file. */
  lemma ShownWritten(b0: seq<Byte>, b1: seq<Byte>, b2: seq<Byte>, g: Geometry, clusters: seq<nat>, validLen: nat,
      len: nat, pos: nat, data: seq<Byte>)
    requires Mapped(|b0|, g, clusters) && validLen <= len
    requires Poked(b0, b1, g, clusters, validLen, Zeros(Max(0, pos - validLen)))
    requires Poked(b1, b2, g, clusters, pos, data) && data != []
    requires Max(validLen, pos + |data|) <= Units(|clusters|, g.clusterSize)
    ensures Shown(b2, g, clusters, Max(validLen, pos + |data|), Max(len, pos + |data|)) ==
      Written(Shown(b0, g, clusters, validLen, len), pos, data)
  {
    var new', old' := Shown(b2, g, clusters, Max(validLen, pos + |data|), Max(len, pos + |data|)),
      Shown(b0, g, clusters, validLen, len);
    forall i: nat | i < |new'|
      ensures new'[i] == Written(old', pos, data)[i]
    {
      ShownAt(b0, b1, b2, g, clusters, validLen, len, pos, data, i);
    }
  }

  lemma ShownAt(b0: seq<Byte>, b1: seq<Byte>, b2: seq<Byte>, g: Geometry, clusters: seq<nat>, validLen: nat,
      len: nat, pos: nat, data: seq<Byte>, i: nat)
    requires Mapped(|b0|, g, clusters) && validLen <= len
    requires Poked(b0, b1, g, clusters, validLen, Zeros(Max(0, pos - validLen)))
    requires Poked(b1, b2, g, clusters, pos, data) && data != []
    requires Max(validLen, pos + |data|) <= Units(|clusters|, g.clusterSize) && i < Max(len, pos + |data|)
    ensures Shown(b2, g, clusters, Max(validLen, pos + |data|), Max(len, pos + |data|))[i] ==
      Written(Shown(b0, g, clusters, validLen, len), pos, data)[i]
  {
    var end := Max(validLen, pos + |data|);
    Covered(i, |clusters|, g.clusterSize);
    if i < end {
      assert Shown(b2, g, clusters, end, Max(len, pos + |data|))[i] == Peek(b2, g, clusters, i);
      PeekWritten(b0, b1, b2, g, clusters, validLen, pos, data, i);
    }
  }

  lemma PeekWritten(b0: seq<Byte>, b1: seq<Byte>, b2: seq<Byte>, g: Geometry, clusters: seq<nat>, validLen: nat,
      pos: nat, data: seq<Byte>, i: nat)
    requires Mapped(|b0|, g, clusters) && Unit(i, g.clusterSize) < |clusters|
    requires Poked(b0, b1, g, clusters, validLen, Zeros(Max(0, pos - validLen)))
    requires Poked(b1, b2, g, clusters, pos, data)
    ensures Peek(b2, g, clusters, i) ==
      if pos <= i < pos + |data| then data[i - pos] else if validLen <= i < pos then 0 else Peek(b0, g, clusters, i)
  {
    assert Peek(b2, g, clusters, i) == if pos <= i < pos + |data| then data[i - pos] else Peek(b1, g, clusters, i);
  }

  /** Zeroing from the initialised prefix up to a new size and raising both marks resizes. */
  lemma ShownZeroed(before: seq<Byte>, after: seq<Byte>, g: Geometry, clusters: seq<nat>, len: nat, size: nat)
    requires Mapped(|before|, g, clusters) && len <= size <= Units(|clusters|, g.clusterSize)
    requires Poked(before, after, g, clusters, len, Zeros(size - len))
    ensures Shown(after, g, clusters, size, size) == Resized(Shown(before, g, clusters, len, len), size)
  {
    forall i | 0 <= i < size
      ensures Shown(after, g, clusters, size, size)[i] == Resized(Shown(before, g, clusters, len, len), size)[i]
    {
      Covered(i, |clusters|, g.clusterSize);
    }
  }

  /** Two stores in a row leave everything outside the stream's clusters alone. */
  lemma OutsideKept(b0: seq<Byte>, b1: seq<Byte>, b2: seq<Byte>, g: Geometry, clusters: seq<nat>, p: nat, d: seq<Byte>,
      q: nat, e: seq<Byte>)
    requires Mapped(|b0|, g, clusters)
    requires Poked(b0, b1, g, clusters, p, d) && Poked(b1, b2, g, clusters, q, e)
    ensures |b2| == |b0| && forall a: nat :: a < |b0| && !Owned(g, clusters, a) ==> b2[a] == b0[a]
  {
  }

  /** Clusters `first..=last` of the list are physically consecutive. */
  ghost predicate Adjacent(clusters: seq<nat>, first: nat, last: nat) {
    first <= last < |clusters| && forall q :: first <= q <= last ==> clusters[q] == clusters[first] + (q - first)
  }

  /** The bytes in a row from the `nth` cluster on, `avail` of them counted already, until there are
      `wanted`. */
  function Row(clusters: seq<nat>, nth: nat, avail: nat, wanted: nat, cs: nat): (r: nat)
    requires nth < |clusters|
    ensures r >= avail
    decreases |clusters| - nth
  {
    if avail >= wanted || nth + 1 >= |clusters| || clusters[nth + 1] != clusters[nth] + 1 then avail
    else Row(clusters, nth + 1, avail + cs, wanted, cs)
  }

  /** The next cluster lies right behind. */
  lemma OneFurther(clusters: seq<nat>, first: nat, last: nat, avail: nat, wanted: nat, cs: nat)
    requires Adjacent(clusters, first, last) && last + 1 < |clusters| && clusters[last + 1] == clusters[last] + 1
    requires avail < wanted && cs > 0
    ensures Adjacent(clusters, first, last + 1) && Units(last + 1 - first, cs) == Units(last - first, cs) + cs
    ensures Row(clusters, last, avail, wanted, cs) == Row(clusters, last + 1, avail + cs, wanted, cs)
  {
    UnitsSplit(last - first, 1, cs);
  }

  /** How many of `wanted` bytes at `pos` one device access reaches. */
  function AtOnce(clusters: seq<nat>, pos: nat, wanted: nat, cs: nat): nat
    requires cs > 0
  {
    if Unit(pos, cs) >= |clusters| then 0
    else Min(wanted, Row(clusters, Unit(pos, cs), cs - Within(pos, cs), wanted, cs))
  }

  /** How many bytes one read into a buffer of `room` bytes answers: as many zeros as are asked for past
      the initialised prefix, else what one device access reaches. */
  function ReadCount(clusters: seq<nat>, pos: nat, len: nat, validLen: nat, room: nat, cs: nat): nat
    requires cs > 0
  {
    if pos >= len then 0
    else if pos >= validLen then Min(len - pos, room)
    else AtOnce(clusters, pos, Min(room, validLen - pos), cs)
  }

  /** The device accesses that failed so far. */
  class FaultCounter {
    var count: nat

    constructor ()
      ensures count == 0
    {
      count := 0;
    }

    /** An access, which fails or not. */
    method Access() returns (failed: bool)
      modifies this
      ensures Blamed(old(count), count, failed)
    {
      failed := *;
      count := count + if failed then 1 else 0;
    }
  }

  /** A device error is answered exactly when an access failed. */
  predicate Blamed(before: nat, after: nat, failed: bool) { if failed then after > before else after == before }

  predicate IsIo<T>(r: Result<T>) { r.Err? && r.error == Io }

  /** The flat byte store below the stream: what the sector cache is proved to be. A failing
      write leaves a prefix of it applied. */
  class FlatStore {
    var bytes: seq<Byte>
    /** The bytes as of the last flush that succeeded. */
    ghost var durable: seq<Byte>
    /** A directory entry was handed down since. */
    ghost var waiting: bool

    constructor (bytes: seq<Byte>)
      ensures this.bytes == durable == bytes && !waiting
    {
      this.bytes, durable, waiting := bytes, bytes, false;
    }

    method ReadAt(offset: nat, n: nat, faults: FaultCounter) returns (r: Result<seq<Byte>>)
      modifies faults
      ensures r.Ok? ==> offset + n <= |bytes| && r.value == bytes[offset..offset + n]
      ensures r.Err? ==> r.error == Io || offset + n > |bytes|
      ensures Blamed(old(faults.count), faults.count, IsIo(r))
    {
      if offset + n > |bytes| {
        return Err(Corrupt);
      }
      var fault := faults.Access();
      r := if fault then Err(Io) else Ok(bytes[offset..offset + n]);
    }

    method WriteAt(offset: nat, data: seq<Byte>, faults: FaultCounter) returns (r: Result<()>, ghost landed: nat)
      requires offset + |data| <= |bytes|
      modifies this`bytes, faults
      ensures landed <= |data| && bytes == Splice(old(bytes), offset, data[..landed])
      ensures if r.Ok? then landed == |data| else r.error == Io
      ensures Blamed(old(faults.count), faults.count, IsIo(r))
    {
      var fault := faults.Access();
      var cut: nat :| cut <= |data| && (!fault ==> cut == |data|);
      bytes := Splice(bytes, offset, data[..cut]);
      landed := cut;
      r := if fault then Err(Io) else Ok(());
    }

    /** Hand a directory entry down. */
    method WriteEntry(faults: FaultCounter) returns (failed: bool)
      modifies this`waiting, faults
      ensures waiting && Blamed(old(faults.count), faults.count, failed)
    {
      waiting := true;
      failed := faults.Access();
    }

    method Flush(faults: FaultCounter) returns (r: Result<()>)
      modifies this`durable, this`waiting, faults
      ensures r.Err? ==> r.error == Io
      ensures durable == (if r.Ok? then bytes else old(durable)) && waiting == (old(waiting) && r.Err?)
      ensures Blamed(old(faults.count), faults.count, IsIo(r))
    {
      var fault := faults.Access();
      if !fault {
        durable, waiting := bytes, false;
      }
      r := if fault then Err(Io) else Ok(());
    }
  }

  /** A reference cluster map: the list itself, and the clusters of the volume nobody owns. */
  class ListMap {
    const g: Geometry
    const size: nat
    var clusters: seq<nat>
    var allocatedLen: nat
    var noFatChain: bool
    var free: set<nat>

    ghost predicate Valid()
      reads this
    {
      && LawfulMap(State(), g.clusterSize)
      && Mapped(size, g, clusters)
      && |clusters| + |free| <= U32_MAX
      && forall c :: c in free ==> InStore(size, g, c) && c !in clusters
    }

    ghost function Stock(): Stock
      reads this
    {
      ClusterMaps.Stock(|clusters|, allocatedLen, |free|)
    }

    ghost function State(): MapState
      reads this
    {
      MapState(clusters, allocatedLen)
    }

    constructor (g: Geometry, size: nat, clusters: seq<nat>, allocatedLen: nat, noFatChain: bool, free: set<nat>)
      requires LawfulMap(MapState(clusters, allocatedLen), g.clusterSize) && Mapped(size, g, clusters)
      requires |clusters| + |free| <= U32_MAX && forall c :: c in free ==> InStore(size, g, c) && c !in clusters
      ensures Valid() && State() == MapState(clusters, allocatedLen) && this.free == free && this.g == g &&
        this.size == size
      ensures this.noFatChain == noFatChain
    {
      this.g, this.size, this.clusters, this.allocatedLen := g, size, clusters, allocatedLen;
      this.noFatChain, this.free := noFatChain, free;
    }

    method Next(cluster: nat, faults: FaultCounter) returns (r: Result<Option<nat>>)
      requires Valid()
      modifies faults
      ensures r.Ok? ==> LawfulNext(State(), cluster, r.value)
      ensures r.Err? ==> r.error == Io
      ensures Blamed(old(faults.count), faults.count, IsIo(r))
    {
      var fault := faults.Access();
      if fault {
        return Err(Io);
      }
      for i := 0 to |clusters|
        invariant forall j :: 0 <= j < i ==> clusters[j] != cluster
      {
        if clusters[i] == cluster {
          return Ok(if i + 1 < |clusters| then Some(clusters[i + 1]) else None);
        }
      }
      r := Ok(None);
    }

    /** Free clusters appended to a list until it covers `needed` bytes, and what is left of them;
        `None` when they run out, exactly when there are too few. */
    static method Grow(m: MapState, cs: nat, free: set<nat>, needed: nat) returns (r: Option<(MapState, set<nat>)>)
      requires LawfulMap(m, cs) && |m.clusters| + |free| <= U32_MAX
      requires forall c :: c in free ==> c >= 2 && c !in m.clusters
      ensures r.Some? ==> LawfulExtend(m, r.value.0, cs, needed, free)
      ensures r.Some? ==> r.value.1 <= free && forall c :: c in r.value.1 ==> c !in r.value.0.clusters
      ensures r.Some? ==> |r.value.1| == |free| - Lacking(|m.clusters|, m.allocatedLen, cs, needed)
      ensures r.None? <==> |free| < Lacking(|m.clusters|, m.allocatedLen, cs, needed)
    {
      var grown, left := m, free;
      while grown.allocatedLen < needed || grown.clusters == []
        invariant LawfulMap(grown, cs) && m.clusters <= grown.clusters
        invariant left <= free && forall c :: c in left ==> c !in grown.clusters
        invariant forall i :: |m.clusters| <= i < |grown.clusters| ==> grown.clusters[i] in free
        invariant |free| - |left| == |grown.clusters| - |m.clusters|
        invariant grown.allocatedLen == m.allocatedLen + Units(|grown.clusters| - |m.clusters|, cs)
        invariant |grown.clusters| - |m.clusters| + Lacking(|grown.clusters|, grown.allocatedLen, cs, needed) ==
                  Lacking(|m.clusters|, m.allocatedLen, cs, needed)
        decreases |left|
      {
        if left == {} {
          return None;
        }
        var c :| c in left;
        AppendLawful(grown, cs, c);
        UnitsSplit(|grown.clusters| - |m.clusters|, 1, cs);
        grown, left := MapState(grown.clusters + [c], grown.allocatedLen + cs), left - {c};
      }
      r := Some((grown, left));
    }

    /** Grow to cover `needed` bytes; having too few free clusters for it, and only that, refuses it and
        changes nothing. */
    method Extend(first: Option<nat>, tail: Option<nat>, needed: nat) returns (r: Result<Ends>)
      requires Valid() && first == FirstOf(clusters) && (tail == None || tail == LastOf(clusters))
      requires needed > allocatedLen || clusters == []
      modifies this
      ensures Valid()
      ensures r.Ok? ==> LawfulExtend(old(State()), State(), g.clusterSize, needed, old(free))
      ensures r.Ok? ==> r.value == Ends(clusters[0], clusters[|clusters| - 1])
      ensures r.Ok? ==> free <= old(free) && Stock() == old(Stock()).Grown(g.clusterSize, needed) && !noFatChain
      ensures r.Err? <==> old(Stock()).Lacks(g.clusterSize, needed) > old(Stock()).free
      ensures r.Err? ==>
        r.error == StorageFull && State() == old(State()) && free == old(free) &&
        noFatChain == old(noFatChain)
    {
      var grown := Grow(MapState(clusters, allocatedLen), g.clusterSize, free, needed);
      if grown.None? {
        return Err(StorageFull);
      }
      free := grown.value.1;
      clusters, allocatedLen := grown.value.0.clusters, grown.value.0.allocatedLen;
      noFatChain := false;
      r := Ok(Ends(clusters[0], clusters[|clusters| - 1]));
    }

    /** Keep the clusters that hold the first `keep` bytes, or a first one on FAT; the rest become
        free. */
    method FreeTail(first: nat, keep: nat) returns (r: Result<nat>)
      requires Valid() && Some(first) == FirstOf(clusters) && keep <= allocatedLen
      modifies this
      ensures Valid() && r == Ok(FirstField(clusters))
      ensures LawfulFreeTail(old(State()), State(), g.clusterSize, keep)
      ensures Tight(|old(clusters)|, old(allocatedLen), |clusters|, g.clusterSize, keep)
      ensures free == old(free) + Elems(old(clusters)[|clusters|..])
      ensures |clusters| + |free| == |old(clusters)| + |old(free)|
    {
      var fat: bool := *;
      var n := Max(DivCeil(keep, g.clusterSize), if fat then 1 else 0);
      ghost var s := clusters;
      CutLawful(State(), g.clusterSize, keep, n);
      CutKept(clusters, n, free, size, g);
      free := free + Elems(clusters[n..]);
      clusters := clusters[..n];
      assert |clusters| == n && clusters == s[..n];
      allocatedLen := Units(n, g.clusterSize);
      r := Ok(FirstField(clusters));
    }
  }

  /** A kept prefix, and what is dropped after it. */
  lemma CutLawful(m: MapState, cs: nat, keep: nat, n: nat)
    requires LawfulMap(m, cs) && m.clusters != [] && keep <= m.allocatedLen
    requires n == DivCeil(keep, cs) || n == Max(1, DivCeil(keep, cs))
    ensures n <= |m.clusters| && LawfulFreeTail(m, MapState(m.clusters[..n], Units(n, cs)), cs, keep)
    ensures Tight(|m.clusters|, m.allocatedLen, n, cs, keep)
  {
    DivCeilLeast(keep, cs, |m.clusters|);
    DivCeilLeast(keep, cs, n);
    FewestTight(|m.clusters|, m.allocatedLen, cs, keep);
  }

  /** Dropped clusters may be free: they are in the store and not in the kept prefix. */
  lemma CutKept(s: seq<nat>, n: nat, free: set<nat>, size: nat, g: Geometry)
    requires n <= |s| && Distinct(s) && Mapped(size, g, s)
    requires forall c :: c in free ==> InStore(size, g, c) && c !in s
    ensures Mapped(size, g, s[..n])
    ensures forall c :: c in free + Elems(s[n..]) ==> InStore(size, g, c) && c !in s[..n]
    ensures |free + Elems(s[n..])| == |free| + |s| - n
  {
    ElemsCount(s[n..]);
    assert free !! Elems(s[n..]);
    forall c | c in s[n..]
      ensures InStore(size, g, c) && c !in s[..n]
    {
      var i :| 0 <= i < |s[n..]| && s[n..][i] == c;
      assert s[n + i] == c;
    }
  }

  /** What `flush_entry` writes into the directory entry. */
  datatype Entry = Entry(size: nat, validSize: nat, firstCluster: nat, noFatChain: bool)

  const CHUNK: nat := 512

  /** Rust's `as u32`. */
  function AsU32(x: nat): nat { x % 0x1_0000_0000 }

  /** What is fixed for an open stream. */
  datatype Mount = Mount(writable: bool, fatSizeCap: bool, clusterSize: nat)

  /** How many of `n` bytes a write at `pos` may take: FAT caps files at 4 GiB - 1. */
  function Admitted(m: Mount, pos: nat, n: nat): nat {
    if m.fatSizeCap then Min(n, SatSub(U32_MAX, pos)) else n
  }

  /** Where a write of `n` bytes at `pos` ends. */
  function WriteEnd(m: Mount, pos: nat, n: nat): nat {
    pos + Admitted(m, pos, n)
  }

  /** Why a write is refused. */
  function WriteRefusal(m: Mount, pos: nat, n: nat, k: Stock): Option<Error>
    requires m.clusterSize > 0
  {
    if n == 0 then None
    else if !m.writable then Some(ReadOnly)
    else if if m.fatSizeCap then pos >= U32_MAX else pos + n > U64_MAX then Some(FileTooLarge)
    else if k.Lacks(m.clusterSize, WriteEnd(m, pos, n)) > k.free then Some(StorageFull)
    else None
  }

  /** Why a resize is refused. */
  function SetLenRefusal(m: Mount, len: nat, size: nat, k: Stock): Option<Error>
    requires m.clusterSize > 0
  {
    if !m.writable then Some(ReadOnly)
    else if size <= len then None
    else if m.fatSizeCap && size > U32_MAX then Some(FileTooLarge)
    else if k.Lacks(m.clusterSize, size) > k.free then Some(StorageFull)
    else None
  }

  /** A truncation to `keep` bytes took `a` to `b`: what is no longer held is free again, and no more is
      held than it takes. */
  ghost predicate Trimmed(a: Stock, b: Stock, cs: nat, keep: nat) {
    && b.held <= a.held && b.held + b.free == a.held + a.free && keep <= b.covered
    && Tight(a.held, a.covered, b.held, cs, keep)
  }

  /** What a resize from `len` to `size` bytes does to the stock. */
  ghost predicate Resupplied(m: Mount, len: nat, size: nat, a: Stock, b: Stock)
    requires m.clusterSize > 0
  {
    if SetLenRefusal(m, len, size, a).Some? || size == len then b == a
    else if size > len then b == a.Grown(m.clusterSize, size)
    else Trimmed(a, b, m.clusterSize, size)
  }

  /** A request for `needed` bytes drew on `a` and left `b`: it was refused exactly when more clusters
      were missing than free, and then took none. */
  ghost predicate Stocked(a: Stock, r: Result<()>, b: Stock, cs: nat, needed: nat)
    requires cs > 0
  {
    && (r.Ok? <==> a.Lacks(cs, needed) <= a.free)
    && b == if r.Ok? then a.Grown(cs, needed) else a
  }

  class StreamFile {
    const store: FlatStore
    const chain: ListMap
    const faults: FaultCounter
    const writable: bool
    const updateTimes: bool
    const fatSizeCap: bool
    var pos: nat
    var len: nat
    var validLen: nat
    var firstCluster: nat
    var chainTail: Option<nat>
    var currentCluster: Option<nat>
    var currentIndex: nat
    var dirty: bool
    /** The directory entry on disk. */
    var entry: Entry

    /** The hints name true positions of the chain. */
    ghost predicate HintsTrue()
      reads this, chain
    {
      && firstCluster == FirstField(chain.clusters)
      && (chainTail.Some? ==> chainTail == LastOf(chain.clusters))
      && (currentCluster.Some? ==>
        currentIndex < |chain.clusters| &&
        chain.clusters[currentIndex] == currentCluster.value)
    }

    ghost predicate Valid()
      reads this, store, chain
    {
      && chain.Valid() && chain.size == |store.bytes|
      && HintsTrue()
      && validLen <= len <= chain.allocatedLen
      && pos <= U64_MAX && len <= U64_MAX
      && (fatSizeCap ==> validLen == len <= U32_MAX)
      && (!dirty ==> entry == Entry(len, validLen, firstCluster, chain.noFatChain))
    }

    ghost function Content(): (r: seq<Byte>)
      requires Valid()
      reads this, store, chain
      ensures |r| == len
    {
      Shown(store.bytes, chain.g, chain.clusters, validLen, len)
    }

    ghost function Fixed(): Mount
      reads this
    {
      Mount(writable, fatSizeCap, chain.g.clusterSize)
    }

    ghost function Abstract(): File
      requires Valid()
      reads this, store, chain
    {
      File(Content(), pos)
    }

    constructor (store: FlatStore, chain: ListMap, faults: FaultCounter, entry: Entry, writable: bool,
        updateTimes: bool, fatSizeCap: bool)
      requires chain.Valid() && chain.size == |store.bytes|
      requires entry.validSize <= entry.size <= chain.allocatedLen && entry.size <= U64_MAX
      requires entry.firstCluster == FirstField(chain.clusters) && entry.noFatChain == chain.noFatChain
      requires fatSizeCap ==> entry.validSize == entry.size <= U32_MAX
      ensures Valid() && this.store == store && this.chain == chain && this.faults == faults
      ensures this.entry == entry && this.updateTimes == updateTimes
      ensures this.writable == writable && this.fatSizeCap == fatSizeCap && !dirty
      ensures Abstract() == File(Shown(store.bytes, chain.g, chain.clusters, entry.validSize, entry.size), 0)
    {
      this.store, this.chain, this.faults, this.entry := store, chain, faults, entry;
      this.writable, this.updateTimes, this.fatSizeCap := writable, updateTimes, fatSizeCap;
      pos := 0;
      len := entry.size;
      validLen := Min(entry.validSize, entry.size);
      firstCluster := entry.firstCluster;
      chainTail := None;
      currentCluster := if entry.firstCluster >= 2 then Some(entry.firstCluster) else None;
      currentIndex := 0;
      dirty := false;
    }

    /** Follow the chain from its `idx`th cluster to its `nth`; `None` when it is shorter. */
    method Walk(from: nat, start: nat, nth: nat) returns (r: Result<Option<nat>>)
      requires chain.Valid() && At(chain.clusters, start, from) && start <= nth
      modifies faults
      ensures r.Ok? ==> r.value == if nth < |chain.clusters| then Some(chain.clusters[nth]) else None
      ensures r.Err? ==> r.error == Io
      ensures Blamed(old(faults.count), faults.count, IsIo(r))
    {
      var cur: nat, idx: nat := from, start;
      while idx < nth
        invariant At(chain.clusters, idx, cur) && idx <= nth && faults.count == old(faults.count)
      {
        var next := chain.Next(cur, faults);
        if next.Err? {
          return Err(next.error);
        }
        if next.value.None? {
          return Ok(None);
        }
        cur, idx := next.value.value, idx + 1;
      }
      r := Ok(Some(cur));
    }

    /** Position the walk hint on the `nth` cluster, or clear it when the chain is shorter. */
    method SeekToCluster(nth: nat) returns (r: Result<()>)
      requires chain.Valid() && HintsTrue()
      modifies this`currentCluster, this`currentIndex, faults
      ensures HintsTrue()
      ensures r.Ok? ==> currentCluster == (if nth < |chain.clusters| then Some(chain.clusters[nth]) else None)
      ensures r.Ok? && currentCluster.Some? ==> currentIndex == nth
      ensures r.Err? ==> r.error == Io
      ensures Blamed(old(faults.count), faults.count, IsIo(r))
    {
      if firstCluster < 2 {
        currentCluster := None;
        return Ok(());
      }
      var cur: nat, idx: nat := firstCluster, 0;
      if currentCluster.Some? && currentIndex <= nth {
        cur, idx := currentCluster.value, currentIndex;
      }
      var found := Walk(cur, idx, nth);
      if found.Err? {
        return Err(found.error);
      }
      currentCluster := found.value;
      currentIndex := if found.value.Some? then nth else currentIndex;
      r := Ok(());
    }

    /** The furthest cluster reachable from the `nth` through adjacent ones before `wanted`
        bytes are covered, and the bytes covered then. */
    method Coalesce(first: nat, nth: nat, rest: nat, wanted: nat) returns (r: Result<(nat, nat)>)
      requires chain.Valid() && At(chain.clusters, nth, first)
      modifies faults
      ensures r.Ok? ==> Adjacent(chain.clusters, nth, r.value.0)
      ensures r.Ok? ==> r.value.1 == rest + Units(r.value.0 - nth, chain.g.clusterSize)
      ensures r.Ok? ==> r.value.1 == Row(chain.clusters, nth, rest, wanted, chain.g.clusterSize)
      ensures r.Err? ==> r.error == Io
      ensures Blamed(old(faults.count), faults.count, IsIo(r))
    {
      var cs := chain.g.clusterSize;
      var avail: nat, last: nat, idx: nat := rest, first, nth;
      while avail < wanted
        invariant Adjacent(chain.clusters, nth, idx) && At(chain.clusters, idx, last)
        invariant Row(chain.clusters, idx, avail, wanted, cs) == Row(chain.clusters, nth, rest, wanted, cs)
        invariant avail == rest + Units(idx - nth, cs) && faults.count == old(faults.count)
        decreases wanted - avail
      {
        var next := chain.Next(last, faults);
        if next.Err? {
          return Err(next.error);
        }
        if next.value != Some(last + 1) {
          assert Row(chain.clusters, idx, avail, wanted, cs) == avail;
          break;
        }
        OneFurther(chain.clusters, nth, idx, avail, wanted, cs);
        last, idx, avail := last + 1, idx + 1, avail + cs;
      }
      r := Ok((idx, avail));
    }

    /** Bytes reachable in one contiguous device access from the `nth` cluster, `rest` of which
        remain; leaves the walk hint on the last cluster of the span. */
    method ContiguousSpan(first: nat, nth: nat, rest: nat, wanted: nat) returns (r: Result<nat>, ghost last: nat)
      requires chain.Valid() && HintsTrue() && At(chain.clusters, nth, first)
      modifies this`currentCluster, this`currentIndex, faults
      ensures HintsTrue()
      ensures r.Ok? ==> Adjacent(chain.clusters, nth, last) && r.value == rest + Units(last - nth, chain.g.clusterSize)
      ensures r.Ok? ==> r.value == Row(chain.clusters, nth, rest, wanted, chain.g.clusterSize)
      ensures r.Err? ==> r.error == Io
      ensures Blamed(old(faults.count), faults.count, IsIo(r))
    {
      var span := Coalesce(first, nth, rest, wanted);
      if span.Err? {
        return Err(span.error), nth;
      }
      last := span.value.0;
      currentCluster := Some(first + (span.value.0 - nth));
      currentIndex := span.value.0;
      r := Ok(span.value.1);
    }

    /** Make sure the first `neededEnd` bytes are backed by clusters. */
    method EnsureAllocation(neededEnd: nat) returns (r: Result<()>)
      requires Valid()
      modifies this`firstCluster, this`chainTail, this`currentCluster, this`currentIndex, this`dirty, chain
      ensures Valid() && old(chain.clusters) <= chain.clusters
      ensures r.Ok? ==> neededEnd <= chain.allocatedLen && chain.clusters != []
      ensures r.Ok? ==> forall i :: |old(chain.clusters)| <= i < |chain.clusters| ==>
        chain.clusters[i] in old(chain.free)
      ensures r.Err? ==> r.error == StorageFull && chain.clusters == old(chain.clusters)
      ensures Stocked(old(chain.Stock()), r, chain.Stock(), chain.g.clusterSize, neededEnd)
    {
      if neededEnd <= chain.allocatedLen && firstCluster >= 2 {
        return Ok(());
      }
      var first := if firstCluster >= 2 then Some(firstCluster) else None;
      var res := chain.Extend(first, chainTail, neededEnd);
      if res.Err? {
        return Err(res.error);
      }
      firstCluster := res.value.first;
      chainTail := if res.value.tail >= 2 then Some(res.value.tail) else None;
      currentCluster := None;
      currentIndex := 0;
      dirty := true;
      r := Ok(());
    }

    /** Store `data` at stream position `pos`, whose cluster is `cluster`, through adjacent
        clusters up to the `last`. A failure leaves a prefix stored. */
    method Store(pos: nat, cluster: nat, ghost last: nat, data: seq<Byte>) returns (r: Result<()>, ghost landed: nat)
      requires chain.Valid() && chain.size == |store.bytes|
      requires At(chain.clusters, Unit(pos, chain.g.clusterSize), cluster)
      requires Adjacent(chain.clusters, Unit(pos, chain.g.clusterSize), last)
      requires pos + |data| <= Units(last + 1, chain.g.clusterSize) && data != []
      modifies store, faults
      ensures landed <= |data| && (if r.Ok? then landed == |data| else r.error == Io)
      ensures Poked(old(store.bytes), store.bytes, chain.g, chain.clusters, pos, data[..landed])
      ensures Blamed(old(faults.count), faults.count, IsIo(r))
    {
      var base := OffsetOf(chain.g, cluster) + Within(pos, chain.g.clusterSize);
      SplicePokes(store.bytes, chain.g, chain.clusters, pos, last, data);
      r, landed := store.WriteAt(base, data, faults);
      if landed > 0 {
        SplicePokes(old(store.bytes), chain.g, chain.clusters, pos, last, data[..landed]);
      } else {
        assert store.bytes == old(store.bytes);
      }
    }

    /** Zero the next chunk of `[at, to)`, which stays within one cluster. */
    method ZeroChunk(at: nat, to: nat) returns (r: Result<nat>, ghost landed: nat)
      requires chain.Valid() && chain.size == |store.bytes| && HintsTrue()
      requires at < to <= Units(|chain.clusters|, chain.g.clusterSize)
      modifies this`currentCluster, this`currentIndex, store, faults
      ensures HintsTrue()
      ensures Poked(old(store.bytes), store.bytes, chain.g, chain.clusters, at, Zeros(landed))
      ensures landed <= to - at && if r.Ok? then 0 < r.value == landed else r.error == Io
      ensures Blamed(old(faults.count), faults.count, IsIo(r))
    {
      var cs := chain.g.clusterSize;
      var nth := Unit(at, cs);
      var inCluster := Within(at, cs);
      Covered(at, |chain.clusters|, cs);
      landed := 0;
      var sought := SeekToCluster(AsU32(nth));
      if sought.Err? {
        return Err(sought.error), 0;
      }
      if currentCluster.None? {
        return Err(Corrupt), landed;
      }
      var n := Min(Min(cs - inCluster, to - at), CHUNK);
      UnitsOf(at, nth, cs);
      UnitsSplit(nth, 1, cs);
      var stored;
      stored, landed := Store(at, currentCluster.value, nth, Zeros(n));
      assert Zeros(n)[..landed] == Zeros(landed);
      r := if stored.Ok? then Ok(n) else Err(stored.error);
    }

    /** Zero the stream bytes `[from, to)` in chunks that stay within one cluster. */
    method ZeroRange(from: nat, to: nat) returns (r: Result<()>, ghost landed: nat)
      requires chain.Valid() && chain.size == |store.bytes| && HintsTrue()
      requires to <= Units(|chain.clusters|, chain.g.clusterSize)
      modifies this`currentCluster, this`currentIndex, store, faults
      ensures HintsTrue()
      ensures Poked(old(store.bytes), store.bytes, chain.g, chain.clusters, from, Zeros(landed))
      ensures if r.Ok? then landed == Max(0, to - from) else r.error == Io && from + landed <= to
      ensures Blamed(old(faults.count), faults.count, IsIo(r))
    {
      var at := from;
      landed := 0;
      while at < to
        invariant at == from + landed && (at <= to || landed == 0)
        invariant HintsTrue() && faults.count == old(faults.count)
        invariant Poked(old(store.bytes), store.bytes, chain.g, chain.clusters, from, Zeros(landed))
      {
        ghost var before, done := store.bytes, landed;
        var chunk, more := ZeroChunk(at, to);
        landed := done + more;
        assert Zeros(done) + Zeros(more) == Zeros(landed);
        PokedThen(old(store.bytes), before, store.bytes, chain.g, chain.clusters, from, Zeros(done), Zeros(more));
        if chunk.Err? {
          return Err(chunk.error), landed;
        }
        at := at + chunk.value;
      }
      r := Ok(());
    }

    method TouchAccessed()
      modifies this`dirty
      ensures dirty == (old(dirty) || (writable && updateTimes))
    {
      if writable && updateTimes {
        dirty := true;
      }
    }

    /** The initialised bytes at the cursor that one device access reaches, at most `wanted`. */
    method Fetch(wanted: nat) returns (r: Result<seq<Byte>>)
      requires Valid() && pos < validLen && 0 < wanted <= validLen - pos
      modifies this`currentCluster, this`currentIndex, faults
      ensures HintsTrue()
      ensures r.Ok? ==> 0 < |r.value| <= wanted && r.value == old(Content())[pos..pos + |r.value|]
      ensures r.Ok? ==> |r.value| == AtOnce(chain.clusters, pos, wanted, chain.g.clusterSize)
      ensures r.Err? ==> r.error == Io
      ensures Blamed(old(faults.count), faults.count, IsIo(r))
    {
      var run, last := RunAtCursor(wanted);
      if run.Err? {
        return Err(run.error);
      }
      r := FetchRun(OffsetOf(chain.g, run.value.0) + Within(pos, chain.g.clusterSize), last, run.value.1);
    }

    /** The cluster of the cursor, and how many of `wanted` bytes lie in a row from there. */
    method RunAtCursor(wanted: nat) returns (r: Result<(nat, nat)>, ghost last: nat)
      requires chain.Valid() && HintsTrue() && wanted > 0 && pos < Units(|chain.clusters|, chain.g.clusterSize)
      modifies this`currentCluster, this`currentIndex, faults
      ensures HintsTrue()
      ensures r.Ok? ==> At(chain.clusters, Unit(pos, chain.g.clusterSize), r.value.0)
      ensures r.Ok? ==> Adjacent(chain.clusters, Unit(pos, chain.g.clusterSize), last)
      ensures r.Ok? ==> 0 < r.value.1 <= wanted && pos + r.value.1 <= Units(last + 1, chain.g.clusterSize)
      ensures r.Ok? ==> r.value.1 == AtOnce(chain.clusters, pos, wanted, chain.g.clusterSize)
      ensures r.Err? ==> r.error == Io
      ensures Blamed(old(faults.count), faults.count, IsIo(r))
    {
      last := 0;
      var cs := chain.g.clusterSize;
      var nth := Unit(pos, cs);
      var inCluster := Within(pos, cs);
      Covered(pos, |chain.clusters|, cs);
      assert AsU32(nth) == nth;
      var sought := SeekToCluster(AsU32(nth));
      if sought.Err? {
        return Err(sought.error), 0;
      }
      if currentCluster.None? {
        return Err(Corrupt), last;
      }
      var cluster := currentCluster.value;
      var span;
      span, last := ContiguousSpan(cluster, nth, cs - inCluster, wanted);
      if span.Err? {
        return Err(span.error), last;
      }
      SpanEnd(pos, last, cs);
      r := Ok((cluster, Min(wanted, span.value)));
    }

    /** Read `n` initialised bytes that lie in a row at `at`. */
    method FetchRun(at: nat, ghost last: nat, n: nat) returns (r: Result<seq<Byte>>)
      requires Valid() && 0 < n <= validLen - pos && Unit(pos, chain.g.clusterSize) <= last < |chain.clusters|
      requires forall q :: Unit(pos, chain.g.clusterSize) <= q <= last ==>
        chain.clusters[q] == chain.clusters[Unit(pos, chain.g.clusterSize)] + (q - Unit(pos, chain.g.clusterSize))
      requires pos + n <= Units(last + 1, chain.g.clusterSize)
      requires at == OffsetOf(chain.g, chain.clusters[Unit(pos, chain.g.clusterSize)])
        + Within(pos, chain.g.clusterSize)
      modifies faults
      ensures r.Ok? ==> |r.value| == n && r.value == Content()[pos..pos + n]
      ensures r.Err? ==> r.error == Io
      ensures Blamed(old(faults.count), faults.count, IsIo(r))
    {
      RunAddresses(|store.bytes|, chain.g, chain.clusters, pos, last, n);
      r := store.ReadAt(at, n, faults);
    }

    /** What a read at the cursor may return: zeros past the initialised prefix, else bytes
        fetched from the store. */
    method Available(room: nat) returns (r: Result<seq<Byte>>)
      requires Valid() && pos < len && room > 0
      modifies this`currentCluster, this`currentIndex, faults
      ensures HintsTrue()
      ensures r.Ok? ==> 0 < |r.value| <= Min(room, len - pos) && r.value == old(Content())[pos..pos + |r.value|]
      ensures r.Ok? ==> |r.value| == ReadCount(chain.clusters, pos, len, validLen, room, chain.g.clusterSize)
      ensures r.Err? ==> r.error == Io
      ensures Blamed(old(faults.count), faults.count, IsIo(r))
    {
      if pos >= validLen {
        return Ok(Zeros(Min(len - pos, room)));
      }
      r := Fetch(Min(room, validLen - pos));
    }

    /** Read at the cursor. Short counts are allowed, but only an exhausted file or an empty
        buffer yields 0. */
    method Read(buf: array<Byte>) returns (r: Result<nat>)
      requires Valid()
      modifies this`pos, this`currentCluster, this`currentIndex, this`dirty, buf, faults
      ensures Valid() && Content() == old(Content())
      ensures r.Ok? ==> r.value <= buf.Length && (r.value == 0 <==> buf.Length == 0 || old(pos) >= len)
      ensures r.Ok? ==> pos == old(pos) + r.value
      ensures r.Ok? ==>
        r.value == ReadCount(chain.clusters, old(pos), len, validLen, buf.Length, chain.g.clusterSize)
      ensures r.Ok? && r.value > 0 ==> pos <= len && buf[..r.value] == Content()[old(pos)..pos]
      ensures r.Ok? ==> buf[r.value..] == old(buf[r.value..])
      ensures r.Err? ==> r.error == Io && pos == old(pos) && buf[..] == old(buf[..])
      ensures dirty == (old(dirty) || (writable && updateTimes && r.Ok? && r.value > 0))
      ensures Blamed(old(faults.count), faults.count, IsIo(r))
    {
      if buf.Length == 0 || pos >= len {
        return Ok(0);
      }
      var data := Available(buf.Length);
      if data.Err? {
        return Err(data.error);
      }
      Deliver(data.value, buf);
      r := Ok(|data.value|);
    }

    /** Hand `data` out and move past it. */
    method Deliver(data: seq<Byte>, buf: array<Byte>)
      requires Valid() && |data| <= buf.Length && pos + |data| <= len
      modifies this`pos, this`dirty, buf
      ensures Valid() && Content() == old(Content()) && pos == old(pos) + |data|
      ensures buf[..|data|] == data && buf[|data|..] == old(buf[|data|..])
      ensures dirty == (old(dirty) || (writable && updateTimes))
    {
      CopyOut(data, buf);
      pos := pos + |data|;
      TouchAccessed();
    }

    /** Which bytes of `buf` a write at the cursor may take: FAT caps files at 4 GiB - 1. */
    method Admit(buf: seq<Byte>) returns (r: Result<seq<Byte>>)
      requires pos <= U64_MAX && buf != []
      ensures r.Err? <==> (fatSizeCap && pos >= U32_MAX) || (!fatSizeCap && pos + |buf| > U64_MAX)
      ensures r.Err? ==> r.error == FileTooLarge
      ensures r.Ok? ==> |r.value| == Admitted(Fixed(), pos, |buf|) > 0 && r.value <= buf
      ensures r.Ok? ==> WriteEnd(Fixed(), pos, |buf|) <= if fatSizeCap then U32_MAX else U64_MAX
    {
      var taken := buf;
      if fatSizeCap {
        if pos >= U32_MAX {
          return Err(FileTooLarge);
        }
        if Min(pos + |buf|, U64_MAX) > U32_MAX {
          taken := buf[..Min(U32_MAX - pos, |buf|)];
        }
      }
      if pos + |taken| > U64_MAX {
        return Err(FileTooLarge);
      }
      r := Ok(taken);
    }

    /** Store `data` at the cursor, as far as one device access reaches. */
    method StoreAtCursor(data: seq<Byte>) returns (r: Result<nat>, ghost landed: nat)
      requires chain.Valid() && chain.size == |store.bytes| && HintsTrue() && data != []
      requires pos + |data| <= Units(|chain.clusters|, chain.g.clusterSize)
      modifies this`currentCluster, this`currentIndex, store, faults
      ensures HintsTrue()
      ensures r.Ok? ==> r.value == AtOnce(chain.clusters, pos, |data|, chain.g.clusterSize)
      ensures landed <= |data| && (if r.Ok? then 0 < r.value == landed else r.error == Io)
      ensures Poked(old(store.bytes), store.bytes, chain.g, chain.clusters, pos, data[..landed])
      ensures Blamed(old(faults.count), faults.count, IsIo(r))
    {
      landed := 0;
      var run, last := RunAtCursor(|data|);
      if run.Err? {
        return Err(run.error), 0;
      }
      var n := run.value.1;
      var stored;
      stored, landed := Store(pos, run.value.0, last, data[..n]);
      assert data[..n][..landed] == data[..landed];
      r := if stored.Ok? then Ok(n) else Err(stored.error);
    }

    /** Zero the gap below the cursor, if any, and store `data` there. `len` and `validLen` stay. */
    method Place(data: seq<Byte>) returns (r: Result<nat>, ghost zeroed: seq<Byte>, ghost gap: nat, ghost landed: nat)
      requires chain.Valid() && chain.size == |store.bytes| && HintsTrue() && data != []
      requires pos + |data| <= Units(|chain.clusters|, chain.g.clusterSize)
      modifies this`currentCluster, this`currentIndex, store, faults
      ensures HintsTrue() && landed <= |data|
      ensures r.Ok? ==> r.value == AtOnce(chain.clusters, pos, |data|, chain.g.clusterSize)
      ensures if r.Ok? then 0 < r.value == landed else r.error == Io
      ensures gap <= Max(0, pos - validLen) && (r.Ok? || landed > 0 ==> gap == Max(0, pos - validLen))
      ensures Poked(old(store.bytes), zeroed, chain.g, chain.clusters, validLen, Zeros(gap))
      ensures Poked(zeroed, store.bytes, chain.g, chain.clusters, pos, data[..landed])
      ensures Blamed(old(faults.count), faults.count, IsIo(r))
    {
      gap := 0;
      landed := 0;
      zeroed := store.bytes;
      if pos > validLen {
        var filled;
        filled, gap := ZeroRange(validLen, pos);
        zeroed := store.bytes;
        if filled.Err? {
          return Err(filled.error), zeroed, gap, 0;
        }
      }
      r, landed := StoreAtCursor(data);
    }

    /** Advance the cursor and the marks over `n` bytes just stored. */
    method Advance(n: nat)
      requires n > 0
      modifies this`pos, this`validLen, this`len, this`dirty
      ensures pos == old(pos) + n && dirty
      ensures validLen == Max(old(validLen), pos) && len == Max(old(len), pos)
    {
      pos := pos + n;
      if pos > validLen {
        validLen := pos;
      }
      if pos > len {
        len := pos;
      }
      dirty := true;
    }

    /** Back the first `neededEnd` bytes with clusters; the file shows the same bytes. */
    method Reserve(neededEnd: nat) returns (r: Result<()>)
      requires Valid()
      modifies this`firstCluster, this`chainTail, this`currentCluster, this`currentIndex, this`dirty, chain
      ensures Valid() && old(chain.clusters) <= chain.clusters && Content() == old(Content())
      ensures r.Ok? ==> neededEnd <= chain.allocatedLen <= Units(|chain.clusters|, chain.g.clusterSize)
      ensures r.Err? ==> r.error == StorageFull
      ensures Stocked(old(chain.Stock()), r, chain.Stock(), chain.g.clusterSize, neededEnd)
    {
      r := EnsureAllocation(neededEnd);
      ShownPrefix(store.bytes, chain.g, old(chain.clusters), chain.clusters, validLen, len);
    }

    /** Write over clusters already reserved. */
    method WriteReserved(data: seq<Byte>) returns (r: Result<nat>)
      requires Valid() && data != []
      requires pos + |data| <= Units(|chain.clusters|, chain.g.clusterSize)
      requires pos + |data| <= (if fatSizeCap then U32_MAX else U64_MAX) && pos + |data| <= chain.allocatedLen
      modifies this`pos, this`validLen, this`len, this`dirty, this`currentCluster, this`currentIndex, store, faults
      ensures Valid()
      ensures r.Ok? ==> r.value == AtOnce(chain.clusters, old(pos), |data|, chain.g.clusterSize)
      ensures r.Ok? ==> 0 < r.value <= |data| && pos == old(pos) + r.value
      ensures r.Ok? ==> Content() == Written(old(Content()), old(pos), data[..r.value])
      ensures r.Err? ==> r.error == Io && pos == old(pos) && len == old(len)
      ensures r.Err? ==> forall i :: 0 <= i < len && !(pos <= i < pos + |data|) ==> Content()[i] == old(Content())[i]
      ensures |store.bytes| == |old(store.bytes)|
      ensures forall a: nat :: a < |store.bytes| && !Owned(chain.g, chain.clusters, a) ==>
        store.bytes[a] == old(store.bytes)[a]
      ensures Blamed(old(faults.count), faults.count, IsIo(r))
    {
      ghost var b0 := store.bytes;
      ghost var zeroed, gap, landed;
      r, zeroed, gap, landed := Place(data);
      OutsideKept(b0, zeroed, store.bytes, chain.g, chain.clusters, validLen, Zeros(gap), pos, data[..landed]);
      if r.Err? {
        ShownHidden(b0, zeroed, chain.g, chain.clusters, validLen, len, validLen, Zeros(gap));
        ShownTorn(zeroed, store.bytes, chain.g, chain.clusters, validLen, len, pos, data[..landed]);
      } else {
        ShownWritten(b0, zeroed, store.bytes, chain.g, chain.clusters, validLen, len, pos, data[..landed]);
        Advance(r.value);
      }
    }

    /** What a write at the cursor may take of `buf`, clusters for it reserved. */
    method Prepare(buf: seq<Byte>) returns (r: Result<seq<Byte>>)
      requires Valid() && buf != []
      modifies this`firstCluster, this`chainTail, this`currentCluster, this`currentIndex, this`dirty, chain
      ensures Valid() && old(chain.clusters) <= chain.clusters && Content() == old(Content())
      ensures var no := WriteRefusal(Fixed(), pos, |buf|, old(chain.Stock()));
        if no.Some? then r == Err(no.value) && chain.Stock() == old(chain.Stock())
        else r.Ok? && chain.Stock() == old(chain.Stock()).Grown(chain.g.clusterSize, WriteEnd(Fixed(), pos, |buf|))
      ensures r.Ok? ==> r.value != [] && r.value <= buf && |r.value| == Admitted(Fixed(), pos, |buf|)
      ensures r.Ok? ==>
        pos + |r.value| <= (if fatSizeCap then U32_MAX else U64_MAX) &&
        pos + |r.value| <= chain.allocatedLen <= Units(|chain.clusters|, chain.g.clusterSize)
    {
      if !writable {
        return Err(ReadOnly);
      }
      var admitted := Admit(buf);
      if admitted.Err? {
        return Err(admitted.error);
      }
      var end := pos + |admitted.value|;
      assert end == WriteEnd(Fixed(), pos, |buf|);
      var grown := Reserve(end);
      r := if grown.Ok? then admitted else Err(grown.error);
    }

    /** Write at the cursor. Short counts are allowed, but a non-empty buffer never yields 0.
        A refused write leaves the file as it was; one that fails on the device leaves everything
        outside the written range as it was. */
    method Write(buf: seq<Byte>) returns (r: Result<nat>)
      requires Valid()
      modifies this, store, chain, faults
      ensures Valid() && old(chain.clusters) <= chain.clusters
      ensures buf == [] ==> r == Ok(0) && Abstract() == old(Abstract())
      ensures buf != [] && !writable ==> r == Err(ReadOnly)
      ensures r.Ok? && buf != [] ==> 0 < r.value <= |buf|
      ensures r.Ok? && buf != [] ==>
        r.value == AtOnce(chain.clusters, old(pos), Admitted(Fixed(), old(pos), |buf|), chain.g.clusterSize)
      ensures r.Ok? && buf != [] ==>
        Abstract()
        == File(Written(old(Content()), old(pos), buf[..r.value]), old(pos) + r.value)
      ensures r.Err? ==> pos == old(pos) && len == old(len)
      ensures var no := WriteRefusal(Fixed(), old(pos), |buf|, old(chain.Stock()));
        if no.Some? then r == Err(no.value) && chain.Stock() == old(chain.Stock())
        else (r.Ok? || r.error == Io) && chain.Stock() == if buf == [] then old(chain.Stock())
          else old(chain.Stock()).Grown(chain.g.clusterSize, WriteEnd(Fixed(), old(pos), |buf|))
      ensures r.Err? && r.error != Io ==> Content() == old(Content())
      ensures r.Err? ==> forall i :: 0 <= i < len && !(pos <= i < pos + |buf|) ==> Content()[i] == old(Content())[i]
      ensures |store.bytes| == |old(store.bytes)|
      ensures forall a: nat :: a < |store.bytes| && !Owned(chain.g, chain.clusters, a) ==>
        store.bytes[a] == old(store.bytes)[a]
      ensures Blamed(old(faults.count), faults.count, IsIo(r))
    {
      if buf == [] {
        return Ok(0);
      }
      var admitted := Prepare(buf);
      if admitted.Err? {
        return Err(admitted.error);
      }
      var data := admitted.value;
      r := WriteReserved(data);
      assert r.Ok? ==> data[..r.value] == buf[..r.value];
    }

    /** The growing half of `set_len`: on FAT the new range is zeroed on disk, on exFAT the
        initialised prefix simply stays where it was. */
    method Grow(size: nat) returns (r: Result<()>)
      requires Valid() && len < size <= U64_MAX
      modifies this`firstCluster, this`chainTail, this`currentCluster, this`currentIndex, this`dirty, this`len,
        this`validLen, chain, store, faults
      ensures Valid() && old(chain.clusters) <= chain.clusters
      ensures r.Ok? ==> Content() == Resized(old(Content()), size)
      ensures r.Err? ==> Content() == old(Content())
      ensures writable ==>
        var no := SetLenRefusal(Fixed(), old(len), size, old(chain.Stock()));
        if no.Some? then r == Err(no.value) && chain.Stock() == old(chain.Stock())
        else (r.Ok? || r.error == Io) && chain.Stock() == old(chain.Stock()).Grown(chain.g.clusterSize, size)
      ensures |store.bytes| == |old(store.bytes)|
      ensures forall a: nat :: a < |store.bytes| && !Owned(chain.g, chain.clusters, a) ==>
        store.bytes[a] == old(store.bytes)[a]
      ensures Blamed(old(faults.count), faults.count, IsIo(r))
    {
      if fatSizeCap && size > U32_MAX {
        return Err(FileTooLarge);
      }
      r := Reserve(size);
      if r.Err? {
        return;
      }
      if fatSizeCap {
        r := ZeroUpTo(size);
        if r.Err? {
          return;
        }
        validLen := size;
      }
      len := size;
      dirty := true;
    }

    /** Zero the stream from its initialised prefix up to `size`. */
    method ZeroUpTo(size: nat) returns (r: Result<()>)
      requires Valid() && len < size <= Units(|chain.clusters|, chain.g.clusterSize) && fatSizeCap
      modifies this`currentCluster, this`currentIndex, store, faults
      ensures Valid()
      ensures r.Ok? ==> Shown(store.bytes, chain.g, chain.clusters, size, size) == Resized(old(Content()), size)
      ensures r.Err? ==> r.error == Io && Content() == old(Content())
      ensures |store.bytes| == |old(store.bytes)|
      ensures forall a: nat :: a < |store.bytes| && !Owned(chain.g, chain.clusters, a) ==>
        store.bytes[a] == old(store.bytes)[a]
      ensures Blamed(old(faults.count), faults.count, IsIo(r))
    {
      ghost var before := store.bytes;
      ghost var zeroed;
      r, zeroed := ZeroRange(validLen, size);
      if r.Err? {
        ShownHidden(before, store.bytes, chain.g, chain.clusters, validLen, len, validLen, Zeros(zeroed));
      } else {
        ShownZeroed(before, store.bytes, chain.g, chain.clusters, len, size);
      }
    }

    /** Give back the clusters past the first `size` bytes, and forget the hints. */
    method DropTail(size: nat)
      requires Valid() && size <= chain.allocatedLen
      modifies this`firstCluster, this`chainTail, this`currentCluster, this`currentIndex, chain
      ensures chain.Valid() && HintsTrue() && chain.clusters <= old(chain.clusters) && size <= chain.allocatedLen
      ensures Trimmed(old(chain.Stock()), chain.Stock(), chain.g.clusterSize, size)
    {
      if firstCluster >= 2 {
        var res := chain.FreeTail(firstCluster, size);
        firstCluster := res.value;
      }
      chainTail := None;
      currentCluster := None;
      currentIndex := 0;
    }

    /** The shrinking half of `set_len`: tail clusters go back to the map. */
    method Shrink(size: nat)
      requires Valid() && size < len
      modifies this`firstCluster, this`chainTail, this`currentCluster, this`currentIndex, this`dirty, this`len,
        this`validLen, chain
      ensures Valid() && chain.clusters <= old(chain.clusters)
      ensures Content() == Resized(old(Content()), size)
      ensures Trimmed(old(chain.Stock()), chain.Stock(), chain.g.clusterSize, size)
    {
      ghost var clusters := chain.clusters;
      ShownCut(store.bytes, chain.g, chain.clusters, validLen, len, size);
      DropTail(size);
      len := size;
      validLen := Min(validLen, size);
      dirty := true;
      ShownPrefix(store.bytes, chain.g, chain.clusters, clusters, validLen, len);
    }

    /** Resize the file; the cursor stays. A failure leaves the file as it was. */
    method SetLen(size: nat) returns (r: Result<()>)
      requires Valid() && size <= U64_MAX
      modifies this, chain, store, faults
      ensures Valid()
      ensures r.Ok? ==> Abstract() == File(Resized(old(Content()), size), old(pos))
      ensures r.Err? ==> Abstract() == old(Abstract())
      ensures var no := SetLenRefusal(Fixed(), old(len), size, old(chain.Stock()));
        if no.Some? then r == Err(no.value) else r.Ok? || (r.error == Io && size > old(len))
      ensures Resupplied(Fixed(), old(len), size, old(chain.Stock()), chain.Stock())
      ensures if old(len) < size then old(chain.clusters) <= chain.clusters else chain.clusters <= old(chain.clusters)
      ensures |store.bytes| == |old(store.bytes)|
      ensures forall a: nat :: a < |store.bytes| && !Owned(chain.g, chain.clusters, a) ==>
        store.bytes[a] == old(store.bytes)[a]
      ensures Blamed(old(faults.count), faults.count, IsIo(r))
    {
      if !writable {
        return Err(ReadOnly);
      }
      if size == len {
        assert Content()[..size] == Content();
        r := Ok(());
      } else if size < len {
        Shrink(size);
        r := Ok(());
      } else {
        r := Grow(size);
      }
    }

    /** Move the cursor; before byte 0 is refused, past the word saturates. */
    method Seek(whence: Whence) returns (r: Result<nat>)
      requires Valid()
      requires whence.FromStart? ==> whence.n <= U64_MAX
      modifies this`pos
      ensures Valid()
      ensures match Target(old(Abstract()), whence)
        case Some(p) => r == Ok(p) && Abstract() == File(old(Content()), p)
        case None => r == Err(InvalidSeek) && Abstract() == old(Abstract())
    {
      var base, d;
      match whence {
        case FromStart(n) =>
          base, d := n, 0;
        case FromCurrent(delta) =>
          base, d := pos, delta;
        case FromEnd(delta) =>
          base, d := len, delta;
      }
      if d < 0 && base < -d {
        return Err(InvalidSeek);
      }
      pos := Min(base + d, U64_MAX);
      r := Ok(pos);
    }

    /** Chain before entry: the store is flushed, then the entry is patched, then flushed again. */
    method Flush() returns (r: Result<()>)
      requires Valid()
      modifies this`dirty, this`entry, store`durable, store`waiting, faults
      ensures Valid() && Abstract() == old(Abstract())
      ensures r.Ok? ==> store.durable == store.bytes && !store.waiting
      ensures entry != old(entry) ==> store.durable == store.bytes
      ensures r.Ok? && (writable || !old(dirty)) ==>
        !dirty &&
        entry == Entry(len, validLen, firstCluster, chain.noFatChain)
      ensures !writable ==> entry == old(entry) && dirty == old(dirty)
      ensures r.Err? ==> r.error == Io
      ensures Blamed(old(faults.count), faults.count, IsIo(r))
    {
      r := store.Flush(faults);
      if r.Err? {
        return;
      }
      if dirty && writable {
        var fault := store.WriteEntry(faults);
        if fault {
          return Err(Io);
        }
        entry := Entry(len, validLen, firstCluster, chain.noFatChain);
        dirty := false;
      }
      r := store.Flush(faults);
    }
  }

  method CopyOut(data: seq<Byte>, buf: array<Byte>)
    requires |data| <= buf.Length
    modifies buf
    ensures buf[..|data|] == data && buf[|data|..] == old(buf[|data|..])
  {
    forall k | 0 <= k < |data| {
      buf[k] := data[k];
    }
  }

  /** Where the span from `pos` through cluster `last` ends. */
  lemma SpanEnd(pos: nat, last: nat, cs: nat)
    requires cs > 0 && Unit(pos, cs) <= last
    ensures pos + (cs - Within(pos, cs)) + Units(last - Unit(pos, cs), cs) == Units(last + 1, cs)
  {
    UnitsOf(pos, Unit(pos, cs), cs);
    UnitsSplit(Unit(pos, cs), last - Unit(pos, cs), cs);
    UnitsSplit(last, 1, cs);
  }
}
