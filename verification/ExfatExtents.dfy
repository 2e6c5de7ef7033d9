/** Allocating the extent of a new exFAT file (src/exfat/create.rs): a contiguous run when there is
    one, scattered clusters chained together otherwise. */
module ExfatExtents {
  import opened Basics
  import opened FatTables
  import opened ClusterMaps
  import opened ExfatHeaps
  import opened ExfatMaps
  import Cell = FatCells
  import Bits = Bitmaps

  /** `n` clusters from `first` on, all clear. */
  ghost predicate FreeRunAt(used: set<nat>, count: nat, first: nat, n: nat) {
    2 <= first && first + n <= count + 2 && forall c :: first <= c < first + n ==> c !in used
  }

  /** The extent `(first, noFatChain)` of `n` clusters over `s`, allocated between two moments. */
  ghost predicate Allocated(used0: set<nat>, t0: Table, used: set<nat>, t: Table, count: nat, s: seq<nat>, n: nat,
      noFatChain: bool) {
    && |s| == n && Distinct(s) && |t| == |t0|
    && (forall c :: c in s ==> c in ClearIn(used0, count))
    && (forall c :: c in used <==> c in used0 || c in s)
    && (forall c: nat :: c < |t| && (noFatChain || c !in s) ==> t[c] == t0[c])
    && if noFatChain then Contiguous(s) else s != [] ==> IsChain(t, s)
  }

  lemma ClearDrops(used: set<nat>, count: nat, c: nat)
    requires c in ClearIn(used, count)
    ensures ClearIn(used + {c}, count) == ClearIn(used, count) - {c}
    ensures |ClearIn(used + {c}, count)| == |ClearIn(used, count)| - 1
  {
    assert ClearIn(used + {c}, count) == ClearIn(used, count) - {c};
  }

  /** The clusters claimed so far, lowest first. */
  ghost predicate Claiming(used0: set<nat>, used: set<nat>, count: nat, s: seq<nat>) {
    && Distinct(s)
    && (forall c :: c in s ==> c in ClearIn(used0, count))
    && (forall c :: c in used <==> c in used0 || c in s)
    && |ClearIn(used, count)| + |s| == |ClearIn(used0, count)|
  }

  lemma ClaimStep(used0: set<nat>, used: set<nat>, count: nat, s: seq<nat>, c: nat)
    requires Claiming(used0, used, count, s) && c in ClearIn(used, count)
    ensures Claiming(used0, used + {c}, count, s + [c])
  {
    ClearDrops(used, count, c);
  }

  /** Mark the clusters of a clear run. */
  method MarkRange(vol: ExfatHeap, first: nat, n: nat)
    requires vol.Valid() && 2 <= first && first + n <= vol.count + 2
    modifies vol`bitmap
    ensures vol.Valid() && forall c :: c in vol.Used() <==> c in old(vol.Used()) || first <= c < first + n
  {
    for i := 0 to n
      invariant vol.Valid() && forall c :: c in vol.Used() <==> c in old(vol.Used()) || first <= c < first + i
    {
      var _ := vol.MarkAllocated(first + i);
    }
  }

  /** Claim the `n` lowest clear clusters. When there are fewer, all of them stay marked. */
  method ClaimLowest(vol: ExfatHeap, n: nat) returns (r: Result<seq<nat>>)
    requires vol.Valid()
    modifies vol`bitmap
    ensures vol.Valid()
    ensures r.Ok? ==> |r.value| == n && Claiming(old(vol.Used()), vol.Used(), vol.count, r.value)
    ensures r.Err? ==>
      r.error == StorageFull && ClearIn(vol.Used(), vol.count) == {} &&
      |ClearIn(old(vol.Used()), vol.count)| < n
  {
    var chain: seq<nat> := [];
    for i := 0 to n
      invariant vol.Valid() && |chain| == i && Claiming(old(vol.Used()), vol.Used(), vol.count, chain)
    {
      var c := vol.FindFreeCluster();
      if c.None? {
        assert ClearIn(vol.Used(), vol.count) == {};
        return Err(StorageFull);
      }
      ClaimStep(old(vol.Used()), vol.Used(), vol.count, chain, c.value);
      var _ := vol.MarkAllocated(c.value);
      chain := chain + [c.value];
    }
    r := Ok(chain);
  }

  /** Link the clusters of `chain` in order and end it. */
  method LinkChain(vol: ExfatHeap, chain: seq<nat>)
    requires vol.Valid() && chain != [] && Distinct(chain)
    requires forall i :: 0 <= i < |chain| ==> vol.InHeap(chain[i])
    modifies vol`fat
    ensures vol.Valid() && IsChain(vol.Cells(), chain)
    ensures forall c: nat :: c < |vol.Cells()| && c !in chain ==> vol.Cells()[c] == old(vol.Cells())[c]
  {
    ghost var t := vol.Cells();
    for i := 0 to |chain| - 1
      invariant vol.Valid() && Linking(t, vol.Cells(), chain, i)
    {
      LinkingStep(t, vol.Cells(), chain, i, Cell.Next(chain[i + 1]));
      vol.WriteFatEntry(chain[i], chain[i + 1]);
    }
    LinkingStep(t, vol.Cells(), chain, |chain| - 1, Cell.End);
    vol.WriteFatEntry(chain[|chain| - 1], FAT_EOC);
    Linked(t, vol.Cells(), chain);
  }

  /** The leftmost clear run of `n` clusters, in terms of the clusters in use. */
  method FindRun(vol: ExfatHeap, n: nat) returns (r: Option<nat>)
    requires vol.Valid() && n > 0
    ensures r.None? ==> forall s: nat :: !FreeRunAt(vol.Used(), vol.count, s, n)
    ensures r.Some? ==> FreeRunAt(vol.Used(), vol.count, r.value, n)
    ensures r.Some? ==> forall s: nat :: s < r.value ==> !FreeRunAt(vol.Used(), vol.count, s, n)
  {
    r := Bits.FindFreeContiguousRun(vol.bitmap, vol.count, n);
    forall s: nat
      ensures Bits.ClearRun(vol.bitmap, vol.count, s, n) <==> FreeRunAt(vol.Used(), vol.count, s, n)
    {
      RunIsClear(vol.bitmap, vol.count, s, n);
    }
  }

  lemma RunIsClear(bitmap: seq<Byte>, count: nat, s: nat, n: nat)
    requires Bits.Sized(bitmap, count)
    ensures Bits.ClearRun(bitmap, count, s, n) <==> FreeRunAt(UsedIn(bitmap, count), count, s, n)
  {
    if 2 <= s && s + n <= count + 2 {
      forall d: nat | s <= d < s + n
        ensures Bits.Covers(bitmap, d) && (Bits.Marked(bitmap, d) <==> d in UsedIn(bitmap, count))
      {
        Bits.HeapCovered(bitmap, count, d);
      }
    }
  }

  /** `allocate_extent`. `s` names the clusters of the extent. It fails exactly when fewer than
      `n` clusters are clear, and then every clear cluster has been marked: the marks leak. */
  method AllocateExtent(vol: ExfatHeap, n: nat) returns (r: Result<(nat, bool)>, ghost s: seq<nat>)
    requires vol.Valid()
    modifies vol
    ensures vol.Valid()
    ensures r.Ok? ==> Allocated(old(vol.Used()), old(vol.Cells()), vol.Used(), vol.Cells(), vol.count, s, n, r.value.1)
    ensures r.Ok? ==> r.value.0 == FirstField(s) && (n == 0 ==> !r.value.1)
    ensures r.Ok? && n > 0 ==> (r.value.1 <==> exists c: nat :: FreeRunAt(old(vol.Used()), vol.count, c, n))
    ensures r.Ok? && r.value.1 ==> forall c: nat :: FreeRunAt(old(vol.Used()), vol.count, c, n) ==> s[0] <= c
    ensures r.Err? <==> |ClearIn(old(vol.Used()), vol.count)| < n
    ensures r.Err? ==> r.error == StorageFull && ClearIn(vol.Used(), vol.count) == {} && vol.Cells() == old(vol.Cells())
  {
    s := [];
    if n == 0 {
      return Ok((0, false)), [];
    }
    var run := FindRun(vol, n);
    if run.Some? {
      MarkRange(vol, run.value, n);
      s := seq(n, i requires 0 <= i < n => run.value + i);
      RunAllocated(old(vol.Used()), vol.Used(), vol.Cells(), vol.count, s, run.value, n);
      DistinctWithin(s, ClearIn(old(vol.Used()), vol.count));
      return Ok((run.value, true)), s;
    }
    var chain := ClaimLowest(vol, n);
    if chain.Err? {
      return Err(chain.error), [];
    }
    s := chain.value;
    assert forall i :: 0 <= i < |s| ==> s[i] in s;
    DistinctWithin(s, ClearIn(old(vol.Used()), vol.count));
    LinkChain(vol, chain.value);
    r := Ok((chain.value[0], false));
  }

  lemma {:induction false} DistinctWithin(s: seq<nat>, within: set<nat>)
    requires Distinct(s) && forall c :: c in s ==> c in within
    ensures |s| <= |within|
  {
    if s == [] {
    } else {
      DistinctWithin(s[1..], within - {s[0]});
    }
  }

  lemma RunAllocated(used0: set<nat>, used: set<nat>, t: Table, count: nat, s: seq<nat>, first: nat, n: nat)
    requires FreeRunAt(used0, count, first, n) && |s| == n && forall i :: 0 <= i < n ==> s[i] == first + i
    requires forall c :: c in used <==> c in used0 || first <= c < first + n
    ensures Allocated(used0, t, used, t, count, s, n, true)
  {
    forall c: nat
      ensures c in s <==> first <= c < first + n
    {
      if first <= c < first + n {
        assert s[c - first] == c;
      }
    }
  }
}
