/** Where the slots of a FAT directory lie on the device (src/fat/dir_slots.rs): the positions of a
    fixed root region or of a cluster chain, in order, and the step from one to the next. */
module SlotPlaces {
  import opened Basics
  import opened ClusterMaps
  import opened FatCells
  import opened FatTables
  import opened FatSlots
  import opened SlotBlocks

  /** A slot's byte offset and the cluster it lies in, `None` in the fixed root. */
  datatype SlotPos = SlotPos(offset: nat, cluster: Option<nat>)

  datatype FatDir = FixedRoot | Clusters(first: nat)

  /** The parts of a volume that hold directories: the fixed root region, and the data region whose
      clusters have `perCluster` slots each. */
  datatype Area = Area(rootStart: nat, rootSlots: nat, dataStart: nat, perCluster: nat)

  predicate Regular(a: Area) {
    0 < a.perCluster && a.rootStart + SLOT_SIZE * a.rootSlots <= a.dataStart
  }

  function RootAt(a: Area, i: nat): SlotPos { SlotPos(a.rootStart + SLOT_SIZE * i, None) }

  /** Slot `j` of cluster `c`. */
  function SlotAt(a: Area, c: nat, j: nat): SlotPos
    requires c >= 2
  {
    SlotPos(a.dataStart + SLOT_SIZE * (Units(c - 2, a.perCluster) + j), Some(c))
  }

  /** Where slot `j` of cluster `c` is, in bytes. */
  lemma SlotExactly(a: Area, c: nat, j: nat)
    requires c >= 2
    ensures SlotAt(a, c, j).offset == a.dataStart + 32 * ((c - 2) * a.perCluster + j)
  {
    UnitsIsProduct(c - 2, a.perCluster);
  }

  function RootPlaces(a: Area): (r: seq<SlotPos>)
    ensures |r| == a.rootSlots
  {
    seq(a.rootSlots, i requires i >= 0 => RootAt(a, i))
  }

  function ClusterPlaces(a: Area, c: nat): (r: seq<SlotPos>)
    requires c >= 2
    ensures |r| == a.perCluster
  {
    seq(a.perCluster, j requires j >= 0 => SlotAt(a, c, j))
  }

  function ChainPlaces(a: Area, s: seq<nat>): seq<SlotPos>
    requires InHeap(s)
  {
    if s == [] then [] else ClusterPlaces(a, s[0]) + ChainPlaces(a, s[1..])
  }

  /** The directory's chain: none for the fixed root. */
  ghost predicate Lies(dir: FatDir, s: seq<nat>, t: Table) {
    match dir
    case FixedRoot => s == []
    case Clusters(first) => IsChain(t, s) && s[0] == first
  }

  /** All positions of a directory, in order. */
  function Places(a: Area, dir: FatDir, s: seq<nat>): seq<SlotPos>
    requires InHeap(s)
  {
    if dir.FixedRoot? then RootPlaces(a) else ChainPlaces(a, s)
  }

  lemma LiesInHeap(dir: FatDir, s: seq<nat>, t: Table)
    requires Lies(dir, s, t)
    ensures InHeap(s) && Distinct(s) && InTable(t, s)
  {
    if dir.Clusters? {
      ChainDistinct(t, s);
      ChainCells(t, s);
    }
  }

  // ---------------------------------------------------------------- stepping

  /** `next_slot`. */
  function NextPos(a: Area, t: Table, pos: SlotPos): Option<SlotPos>
    requires pos.cluster.Some? ==> IsData(t, pos.cluster.value)
    requires LinksIn(t)
  {
    var next := pos.offset + SLOT_SIZE;
    match pos.cluster
    case None => if next < a.rootStart + SLOT_SIZE * a.rootSlots then Some(SlotPos(next, None)) else None
    case Some(c) =>
      if next < SlotAt(a, c, 0).offset + SLOT_SIZE * a.perCluster then Some(SlotPos(next, Some(c)))
      else if t[c].Next? then Some(SlotAt(a, t[c].cluster, 0)) else None
  }

  /** Position `i` of the chain from cluster `k` on. */
  lemma {:induction false} ChainPlace(a: Area, s: seq<nat>, i: nat)
    requires InHeap(s) && a.perCluster > 0
    ensures |ChainPlaces(a, s)| == Units(|s|, a.perCluster)
    ensures i < |ChainPlaces(a, s)| ==>
      Unit(i, a.perCluster) < |s| && ChainPlaces(a, s)[i]
        == SlotAt(a, s[Unit(i, a.perCluster)], Within(i, a.perCluster))
  {
    var n := a.perCluster;
    if s == [] {
    } else {
      if i < n {
        ChainPlace(a, s[1..], 0);
        UnitsOf(i, 0, n);
      } else {
        ChainPlace(a, s[1..], i - n);
        UnitsOf(i - n, Unit(i - n, n), n);
        UnitsOf(i, Unit(i - n, n) + 1, n);
      }
    }
  }

  /** The step from each position is the next one, across cluster borders, and there is none from
      the last. */
  lemma StepsThrough(a: Area, dir: FatDir, s: seq<nat>, t: Table, i: nat)
    requires Regular(a) && LinksIn(t) && Lies(dir, s, t) && InHeap(s) && i < |Places(a, dir, s)|
    ensures var p := Places(a, dir, s);
      && (p[i].cluster.Some? ==> IsData(t, p[i].cluster.value))
      && NextPos(a, t, p[i]) == if i + 1 < |p| then Some(p[i + 1]) else None
  {
    if dir.Clusters? {
      var k := Unit(i, a.perCluster);
      ChainPlace(a, s, i);
      ChainPlace(a, s, i + 1);
      NextUnit(i, a.perCluster, |s|);
      assert ChainCell(t, s, k);
    }
  }

  /** The slot after the `i`th lies in the same cluster or starts the next one. */
  lemma NextUnit(i: nat, n: nat, len: nat)
    requires n > 0 && Unit(i, n) < len
    ensures var k, j := Unit(i, n), Within(i, n);
      && (j + 1 < n ==> Unit(i + 1, n) == k && Within(i + 1, n) == j + 1 && i + 1 < Units(len, n))
      && (j + 1 == n ==> Unit(i + 1, n) == k + 1 && Within(i + 1, n) == 0 && (i + 1 < Units(len, n) <==> k + 1 < len))
  {
    var k, j := Unit(i, n), Within(i, n);
    UnitsOf(i, k, n);
    UnitsSplit(k, 1, n);
    if j + 1 < n {
      UnitsOf(i + 1, k, n);
      UnitsMono(k + 1, len, n);
    } else {
      UnitsOf(i + 1, k + 1, n);
      if k + 1 < len {
        UnitsSplit(k + 1, 1, n);
        UnitsMono(k + 2, len, n);
      }
    }
  }

  // ---------------------------------------------------------------- contents

  /** Distinct positions have distinct offsets. */
  ghost predicate Apart(p: seq<SlotPos>) {
    forall i, j :: 0 <= i < j < |p| ==> p[i].offset != p[j].offset
  }

  lemma SlotsApart(a: Area, c: nat, i: nat, d: nat, j: nat)
    requires c >= 2 && d >= 2 && i < a.perCluster && j < a.perCluster &&
      SlotAt(a, c, i).offset == SlotAt(a, d, j).offset
    ensures c == d && i == j
  {
    var at := Units(c - 2, a.perCluster) + i;
    UnitsOf(at, c - 2, a.perCluster);
    UnitsOf(at, d - 2, a.perCluster);
  }

  lemma PlacesApart(a: Area, dir: FatDir, s: seq<nat>)
    requires Regular(a) && InHeap(s) && Distinct(s)
    ensures Apart(Places(a, dir, s))
  {
    var p, n := Places(a, dir, s), a.perCluster;
    if dir.Clusters? {
      forall i, j | 0 <= i < j < |p|
        ensures p[i].offset != p[j].offset
      {
        ChainPlace(a, s, i);
        ChainPlace(a, s, j);
        if p[i].offset == p[j].offset {
          SlotsApart(a, s[Unit(i, n)], Within(i, n), s[Unit(j, n)], Within(j, n));
          assert Unit(i, n) == Unit(j, n);
          UnitsOf(i, Unit(i, n), n);
          UnitsOf(j, Unit(i, n), n);
        }
      }
    }
  }

  type Device = map<nat, Slot>

  /** Every slot of the area is there. */
  ghost predicate Backed(a: Area, d: Device, clusters: nat) {
    && (forall o :: o in d ==> Sized(d[o]))
    && (forall i {:trigger RootAt(a, i)} :: 0 <= i < a.rootSlots ==> RootAt(a, i).offset in d)
    && (forall c, j {:trigger SlotAt(a, c, j)} :: 2 <= c < clusters && 0 <= j < a.perCluster ==>
      SlotAt(a, c, j).offset in d)
  }

  ghost predicate On(p: seq<SlotPos>, d: Device) {
    forall i :: 0 <= i < |p| ==> p[i].offset in d && Sized(d[p[i].offset])
  }

  lemma PlacesOn(a: Area, dir: FatDir, s: seq<nat>, d: Device, t: Table)
    requires Regular(a) && InHeap(s) && InTable(t, s) && Backed(a, d, |t|)
    ensures On(Places(a, dir, s), d)
  {
    var p := Places(a, dir, s);
    forall i | 0 <= i < |p|
      ensures p[i].offset in d && Sized(d[p[i].offset])
    {
      if dir.FixedRoot? {
        assert p[i] == RootAt(a, i);
      } else {
        ChainPlace(a, s, i);
      }
    }
  }

  /** The slots at the positions. */
  function Contents(d: Device, p: seq<SlotPos>): (r: seq<Slot>)
    requires On(p, d)
    ensures |r| == |p| && AllSized(r)
  {
    seq(|p|, i requires 0 <= i < |p| => d[p[i].offset])
  }

  lemma WriteOne(d: Device, p: seq<SlotPos>, i: nat, b: Slot)
    requires On(p, d) && Apart(p) && i < |p| && Sized(b)
    ensures var e := d[p[i].offset := b]; On(p, e) && Contents(e, p) == Contents(d, p)[i := b]
  {
    var e := d[p[i].offset := b];
    forall k | 0 <= k < |p|
      ensures Contents(e, p)[k] == Contents(d, p)[i := b][k]
    {
    }
  }

  ghost function Offsets(p: seq<SlotPos>): set<nat> { set i | 0 <= i < |p| :: p[i].offset }

  lemma OffsetsBoth(p: seq<SlotPos>, q: seq<SlotPos>)
    ensures Offsets(p + q) == Offsets(p) + Offsets(q)
  {
    forall o
      ensures o in Offsets(p + q) <==> o in Offsets(p) || o in Offsets(q)
    {
      if i :| 0 <= i < |p| && p[i].offset == o {
        assert (p + q)[i] == p[i];
      }
      if j :| 0 <= j < |q| && q[j].offset == o {
        assert (p + q)[|p| + j] == q[j];
      }
    }
  }

  /** Only slots at the given positions differ. */
  ghost predicate Elsewhere(d: Device, e: Device, p: seq<SlotPos>) {
    d.Keys == e.Keys && forall o :: o in d && o !in Offsets(p) ==> e[o] == d[o]
  }

  // ---------------------------------------------------------------- writing

  const ZERO_SLOT: Slot := [0, 0, 0, 0, 0, 0, 0, 0, 0, 0, 0, 0, 0, 0, 0, 0, 0, 0, 0, 0, 0, 0, 0, 0, 0, 0, 0, 0, 0, 0, 0,
    0]

  lemma {:induction false} ChainPlacesBoth(a: Area, all: seq<nat>, s: seq<nat>, run: seq<nat>)
    requires InHeap(s) && InHeap(run) && all == s + run && InHeap(all)
    ensures ChainPlaces(a, all) == ChainPlaces(a, s) + ChainPlaces(a, run)
  {
    if s == [] {
      assert all == run;
    } else {
      ChainPlacesBoth(a, all[1..], s[1..], run);
      Regroup(ClusterPlaces(a, s[0]), ChainPlaces(a, s[1..]), ChainPlaces(a, run), ChainPlaces(a, s),
        ChainPlaces(a, all[1..]), ChainPlaces(a, all));
    }
  }

  lemma PlacesAfter(a: Area, s: seq<nat>, run: seq<nat>)
    requires InHeap(s) && InHeap(run)
    ensures InHeap(s + run) && ChainPlaces(a, s + run) == ChainPlaces(a, s) + ChainPlaces(a, run)
  {
    ChainPlacesBoth(a, s + run, s, run);
  }

  function Zeros(n: nat): (r: seq<Slot>)
    ensures |r| == n && AllSized(r) && forall i :: 0 <= i < n ==> r[i] == ZERO_SLOT
  {
    seq(n, i => ZERO_SLOT)
  }

  /** Every slot at the positions is zero. */
  ghost predicate Zeroed(d: Device, p: seq<SlotPos>) {
    forall i :: 0 <= i < |p| ==> p[i].offset in d && d[p[i].offset] == ZERO_SLOT
  }

  /** Some slots were zeroed, no other slot changed. */
  ghost predicate OnlyZeroed(d: Device, e: Device) {
    e.Keys == d.Keys && forall o :: o in d ==> e[o] == d[o] || e[o] == ZERO_SLOT
  }

  lemma StaysZeroed(d: Device, e: Device, p: seq<SlotPos>)
    requires Zeroed(d, p) && OnlyZeroed(d, e)
    ensures Zeroed(e, p)
  {
  }

  lemma ElsewhereThen(d: Device, e: Device, f: Device, p: seq<SlotPos>, q: seq<SlotPos>)
    requires Elsewhere(d, e, p) && Elsewhere(e, f, q)
    ensures Elsewhere(d, f, p + q)
  {
    OffsetsBoth(p, q);
  }

  lemma ZeroedBoth(d: Device, p: seq<SlotPos>, q: seq<SlotPos>)
    requires Zeroed(d, p) && Zeroed(d, q)
    ensures Zeroed(d, p + q)
  {
  }

  /** Slots appended to a directory elsewhere on the device, all zero. */
  lemma ContentsGrow(d: Device, e: Device, p: seq<SlotPos>, q: seq<SlotPos>)
    requires On(p, d) && On(p + q, e) && Apart(p + q) && Elsewhere(d, e, q) && Zeroed(e, q)
    ensures Contents(e, p + q) == Contents(d, p) + Zeros(|q|)
  {
    var c := Contents(e, p + q);
    forall i | 0 <= i < |c|
      ensures c[i] == (Contents(d, p) + Zeros(|q|))[i]
    {
      if i < |p| {
        forall k | 0 <= k < |q|
          ensures q[k].offset != p[i].offset
        {
          assert (p + q)[|p| + k] == q[k] && (p + q)[i] == p[i];
        }
      } else {
        assert (p + q)[i] == q[i - |p|];
      }
    }
  }

  function Span(p: seq<SlotPos>, f: nat, n: nat): (r: seq<SlotPos>)
    requires f + n <= |p|
    ensures |r| == n
  {
    p[f..f + n]
  }

  /** `slots` written over the positions from `f` on. */
  function Written(d: Device, p: seq<SlotPos>, f: nat, slots: seq<Slot>): Device
    requires f + |slots| <= |p|
    decreases |slots|
  {
    if slots == [] then d else Written(d[p[f].offset := slots[0]], p, f + 1, slots[1..])
  }

  lemma OneElsewhere(d: Device, pos: SlotPos, b: Slot)
    requires pos.offset in d
    ensures Elsewhere(d, d[pos.offset := b], [pos])
  {
    assert [pos][0] == pos;
  }

  lemma SplicedHead<T>(c: seq<T>, f: nat, data: seq<T>)
    requires data != [] && f + |data| <= |c|
    ensures Splice(c[f := data[0]], f + 1, data[1..]) == Splice(c, f, data)
  {
  }

  /** Writing a run changes those slots of the directory, and nothing else on the device. */
  lemma {:induction false} WrittenAs(d: Device, p: seq<SlotPos>, f: nat, slots: seq<Slot>)
    requires On(p, d) && Apart(p) && f + |slots| <= |p| && AllSized(slots)
    ensures var e := Written(d, p, f, slots);
      On(p, e) && Contents(e, p) == Splice(Contents(d, p), f, slots) && Elsewhere(d, e, Span(p, f, |slots|))
    decreases |slots|
  {
    if slots == [] {
    } else {
      var d' := d[p[f].offset := slots[0]];
      WriteOne(d, p, f, slots[0]);
      OneElsewhere(d, p[f], slots[0]);
      WrittenAs(d', p, f + 1, slots[1..]);
      SplicedHead(Contents(d, p), f, slots);
      ElsewhereThen(d, d', Written(d, p, f, slots), [p[f]], p[f + 1..f + |slots|]);
      assert p[f..f + |slots|] == [p[f]] + p[f + 1..f + |slots|];
    }
  }

  lemma OnePlace(a: Area, c: nat)
    requires c >= 2
    ensures InHeap([c]) && ChainPlaces(a, [c]) == ClusterPlaces(a, c)
  {
    assert [c][1..] == [];
  }

  lemma SpanWithin(d: Device, e: Device, p: seq<SlotPos>, f: nat, n: nat)
    requires f + n <= |p| && Elsewhere(d, e, Span(p, f, n))
    ensures Elsewhere(d, e, p)
  {
    forall o | o in Offsets(Span(p, f, n))
      ensures o in Offsets(p)
    {
      var i :| 0 <= i < n && Span(p, f, n)[i].offset == o;
      assert p[f + i].offset == o;
    }
  }

  lemma ElsewhereBoth(d: Device, e: Device, g: Device, p: seq<SlotPos>)
    requires Elsewhere(d, e, p) && Elsewhere(e, g, p)
    ensures Elsewhere(d, g, p)
  {
  }

  lemma ElsewhereIn(d: Device, e: Device, p: seq<SlotPos>, q: seq<SlotPos>)
    requires Elsewhere(d, e, q)
    ensures Elsewhere(d, e, p + q)
  {
    OffsetsBoth(p, q);
  }

  lemma ClusterOn(a: Area, c: nat, d: Device, clusters: nat)
    requires Backed(a, d, clusters) && 2 <= c < clusters
    ensures On(ClusterPlaces(a, c), d)
  {
    var q := ClusterPlaces(a, c);
    forall j | 0 <= j < |q|
      ensures q[j].offset in d && Sized(d[q[j].offset])
    {
      assert q[j] == SlotAt(a, c, j);
    }
  }

  lemma BackedStill(a: Area, d: Device, e: Device, clusters: nat)
    requires Backed(a, d, clusters) && OnlyZeroed(d, e)
    ensures Backed(a, e, clusters)
  {
  }

  /** Zero every slot of a cluster. */
  method ZeroCluster(a: Area, d: Device, c: nat) returns (e: Device)
    requires c >= 2 && On(ClusterPlaces(a, c), d)
    ensures Elsewhere(d, e, ClusterPlaces(a, c)) && OnlyZeroed(d, e) && Zeroed(e, ClusterPlaces(a, c))
  {
    ghost var q := ClusterPlaces(a, c);
    e := d;
    for k := 0 to a.perCluster
      invariant Elsewhere(d, e, q) && OnlyZeroed(d, e) && Zeroed(e, q[..k])
    {
      assert q[k] == SlotAt(a, c, k) && q[..k + 1] == q[..k] + [q[k]] && q[k].offset in Offsets(q);
      e := e[SlotAt(a, c, k).offset := ZERO_SLOT];
    }
    assert q[..a.perCluster] == q;
  }
}
