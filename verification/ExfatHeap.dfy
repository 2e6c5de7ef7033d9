/** The exFAT cluster heap (src/exfat/bitmap.rs, src/exfat/fat_io.rs, src/exfat/create.rs): the
    allocation bitmap and the FAT, and what claiming and freeing do to both. */
module ExfatHeaps {
  import opened Basics
  import opened FatTables
  import opened ClusterMaps
  import Cell = FatCells
  import Bits = Bitmaps

  const FAT_EOC: nat := 0xFFFF_FFFF
  const FAT_BAD: nat := 0xFFFF_FFF7

  /** `classify_fat_entry`; `End` is the end-of-chain marker, `Reserved` everything invalid. */
  function Classify(raw: nat, count: nat): Cell.FatEntry {
    if raw == 0 then Cell.Free
    else if raw == FAT_BAD then Cell.Bad
    else if raw == FAT_EOC then Cell.End
    else if raw >= 2 && raw - 1 <= count then Cell.Next(raw)
    else Cell.Reserved
  }

  /** What a FAT word says: data clusters are 2 to `count + 1`, and anything that names none is a
      marker. */
  lemma ClassifiedAs(raw: nat, count: nat)
    requires count + 1 < 0xFFFF_FFF7
    ensures Classify(raw, count).Next? <==> 2 <= raw < count + 2
    ensures Classify(raw, count).Next? ==> Classify(raw, count).cluster == raw
    ensures Classify(raw, count).Free? <==> raw == 0
    ensures Classify(raw, count).Bad? <==> raw == 0xFFFF_FFF7
    ensures Classify(raw, count).End? <==> raw == 0xFFFF_FFFF
  {
  }

  ghost function TableOf(fat: seq<nat>, count: nat): (t: Table)
    ensures |t| == |fat| && LinksIn'(t, count)
  {
    seq(|fat|, c requires 0 <= c < |fat| => Classify(fat[c], count))
  }

  predicate LinksIn'(t: Table, count: nat) {
    forall c :: 0 <= c < |t| && t[c].Next? ==> 2 <= t[c].cluster <= count + 1
  }

  ghost function UsedIn(bitmap: seq<Byte>, count: nat): set<nat> {
    set c: nat | c < count + 2 && Bits.InHeap(c, count) && Bits.Covers(bitmap, c) && Bits.Marked(bitmap, c)
  }

  /** What freeing a chain from `c` does to the FAT: like `FreeWalk`, but a bad cluster that the
      chain leads to stays as it is. */
  function ExWalk(t: Table, c: nat): (u: Table)
    requires LinksIn(t) && c < |t|
    ensures |u| == |t|
    decreases LinkCount(t, |t|)
  {
    var t' := t[c := Cell.Free];
    if t[c].Bad? then t
    else if t[c].Next? then (LinkCountDrops(t, c, |t|); ExWalk(t', t[c].cluster))
    else t'
  }

  /** The clusters whose bit it clears. */
  function Walked(t: Table, c: nat): set<nat>
    requires LinksIn(t) && c < |t|
    decreases LinkCount(t, |t|)
  {
    var t' := t[c := Cell.Free];
    if t[c].Bad? then {}
    else if t[c].Next? then (LinkCountDrops(t, c, |t|); {c} + Walked(t', t[c].cluster))
    else {c}
  }

  lemma {:induction false} ExWalkIsFreeWalk(t: Table, c: nat, x: nat)
    requires LinksIn(t) && c < |t| && x < |t|
    ensures ExWalk(t, c)[x] == if t[x].Bad? then t[x] else FreeWalk(t, c)[x]
    ensures x in Walked(t, c) ==> FreeWalk(t, c)[x] == Cell.Free && !t[x].Bad?
    ensures FreeWalk(t, c)[x] != t[x] ==> x in Walked(t, c) || t[x].Bad?
    decreases LinkCount(t, |t|)
  {
    if t[c].Next? {
      LinkCountDrops(t, c, |t|);
      ExWalkIsFreeWalk(t[c := Cell.Free], t[c].cluster, x);
      FreeWalkReaches(t[c := Cell.Free], t[c].cluster, x);
    }
  }

  /** On any FAT the cells and bits freed are exactly those of the clusters the start reaches,
      but for a bad one. */
  lemma {:induction false} WalkedReaches(t: Table, c: nat, x: nat)
    requires LinksIn(t) && c < |t| && x < |t|
    ensures x in Walked(t, c) <==> Reaches(t, c, x) && !t[x].Bad?
    ensures ExWalk(t, c)[x] == if Reaches(t, c, x) && !t[x].Bad? then Cell.Free else t[x]
    decreases LinkCount(t, |t|)
  {
    FreeWalkReaches(t, c, x);
    ExWalkIsFreeWalk(t, c, x);
    assert Steps(t, c, 0) == Some(c);
    if t[c].Next? {
      var n, t' := t[c].cluster, t[c := Cell.Free];
      LinkCountDrops(t, c, |t|);
      WalkedReaches(t', n, x);
      if x != c {
        if k: nat :| Steps(t, c, k) == Some(x) {
          assert k > 0;
          ReachesAround(t, c, k - 1, x);
        }
        if k: nat :| Steps(t', n, k) == Some(x) {
          StepsMonotone(t, c, n, k);
          assert Steps(t, c, k + 1) == Some(x);
        }
      }
    } else {
      OnlyStart(t, c, x);
    }
  }

  lemma OnlyStart(t: Table, c: nat, x: nat)
    requires LinksIn(t) && c < |t| && x < |t| && !t[c].Next?
    ensures Reaches(t, c, x) <==> x == c
  {
    assert Steps(t, c, 0) == Some(c);
  }

  /** A live chain is what its head reaches. */
  lemma {:induction false} WalkedChain(t: Table, s: seq<nat>)
    requires LinksIn(t) && IsChain(t, s)
    ensures s[0] < |t| && IsFreed(t, ExWalk(t, s[0]), s)
    ensures forall c: nat :: c in Walked(t, s[0]) <==> c in s
    decreases |s|
  {
    assert ChainCell(t, s, 0);
    if |s| <= 1 {
    } else {
      ChainDistinct(t, s);
      var t' := t[s[0] := Cell.Free];
      forall i: nat | i < |s[1..]|
        ensures ChainCell(t', s[1..], i)
      {
        assert ChainCell(t, s, i + 1);
      }
      WalkedChain(t', s[1..]);
    }
  }

  /** Links at data clusters only: what the free loop can follow. */
  function DataLinks(t: Table, n: nat): (k: nat)
    requires n <= |t|
    ensures k <= if n < 2 then 0 else n - 2
  {
    if n <= 2 then 0 else DataLinks(t, n - 1) + if t[n - 1].Next? then 1 else 0
  }

  lemma {:induction false} DataLinksDrop(t: Table, c: nat, n: nat)
    requires 2 <= c < |t| && n <= |t| && t[c].Next?
    ensures DataLinks(t[c := Cell.Free], n) == DataLinks(t, n) - if c < n then 1 else 0
  {
    if n <= 2 {
    } else {
      DataLinksDrop(t, c, n - 1);
    }
  }

  class ExfatHeap {
    /** The number of clusters; valid ones are `2..=count + 1`. */
    const count: nat
    var bitmap: seq<Byte>
    /** The FAT, one word a cluster. */
    var fat: seq<nat>

    ghost predicate Valid()
      reads this
    {
      && |fat| == count + 2
      && count + 1 < FAT_BAD
      && Bits.Sized(bitmap, count)
    }

    ghost function Cells(): (t: Table)
      requires Valid()
      reads this
      ensures |t| == count + 2 && LinksIn(t)
    {
      TableOf(fat, count)
    }

    ghost function Used(): set<nat>
      reads this
    {
      UsedIn(bitmap, count)
    }

    predicate InHeap(c: nat) { 2 <= c <= count + 1 }

    constructor (count: nat, bitmap: seq<Byte>, fat: seq<nat>)
      requires |fat| == count + 2 && count + 1 < FAT_BAD && Bits.Sized(bitmap, count)
      ensures Valid() && this.count == count && this.bitmap == bitmap && this.fat == fat
    {
      this.count, this.bitmap, this.fat := count, bitmap, fat;
    }

    method ReadFatEntry(c: nat) returns (e: Cell.FatEntry)
      requires Valid() && c < |fat|
      ensures e == Cells()[c]
    {
      e := Classify(fat[c], count);
    }

    /** The next cluster of a FAT chain. */
    method NextCluster(c: nat) returns (next: Option<nat>)
      requires Valid() && c < |fat|
      ensures next == NextOf(Cells()[c])
    {
      var e := ReadFatEntry(c);
      next := if e.Next? then Some(e.cluster) else None;
    }

    method WriteFatEntry(c: nat, value: nat)
      requires Valid() && c < |fat|
      modifies this`fat
      ensures Valid() && Cells() == old(Cells())[c := Classify(value, count)]
    {
      fat := fat[c := value];
      assert Cells() == old(Cells())[c := Classify(value, count)];
    }

    /** Set the bitmap bit of `c`. A cluster the bitmap has no bit for is refused. */
    method MarkAllocated(c: nat) returns (r: Result<()>)
      requires Valid()
      modifies this`bitmap
      ensures Valid() && r == if Bits.Covers(bitmap, c) then Ok(()) else Err(Unsupported)
      ensures r.Err? ==> bitmap == old(bitmap)
      ensures r.Ok? ==> Bits.OneChanged(old(bitmap), bitmap, c, true)
      ensures InHeap(c) ==> r.Ok? && Used() == old(Used()) + {c}
    {
      r := WriteMark(c, true);
    }

    /** Clear the bitmap bit of `c`. A cluster the bitmap has no bit for is refused. */
    method MarkFree(c: nat) returns (r: Result<()>)
      requires Valid()
      modifies this`bitmap
      ensures Valid() && r == if Bits.Covers(bitmap, c) then Ok(()) else Err(Unsupported)
      ensures r.Err? ==> bitmap == old(bitmap)
      ensures r.Ok? ==> Bits.OneChanged(old(bitmap), bitmap, c, false)
      ensures InHeap(c) ==> r.Ok? && Used() == old(Used()) - {c}
    {
      r := WriteMark(c, false);
    }

    method WriteMark(c: nat, on: bool) returns (r: Result<()>)
      requires Valid()
      modifies this`bitmap
      ensures Valid() && r == if Bits.Covers(bitmap, c) then Ok(()) else Err(Unsupported)
      ensures r.Err? ==> bitmap == old(bitmap)
      ensures r.Ok? ==> Bits.OneChanged(old(bitmap), bitmap, c, on)
      ensures InHeap(c) ==> r.Ok? && Used() == if on then old(Used()) + {c} else old(Used()) - {c}
    {
      if !Bits.Covers(bitmap, c) {
        if InHeap(c) {
          Bits.HeapCovered(bitmap, count, c);
        }
        return Err(Unsupported);
      }
      ghost var before := bitmap;
      bitmap := Bits.WithMark(bitmap, c, on);
      Bits.WithMarkAt(before, c, on);
      if InHeap(c) {
        MarkUses(before, bitmap, count, c, on);
      }
      r := Ok(());
    }

    /** The lowest cluster whose bit is clear; `None` when the volume is full. */
    method FindFreeCluster() returns (r: Option<nat>)
      requires Valid()
      ensures r.None? ==> forall c :: InHeap(c) ==> c in Used()
      ensures r.Some? ==> InHeap(r.value) && r.value !in Used() && forall c :: 2 <= c < r.value ==> c in Used()
    {
      r := Bits.FindFreeCluster(bitmap, count);
      UsedBelow(bitmap, count, if r.Some? then r.value else count + 2);
    }

    /** Clear the bits of a contiguous run. */
    method FreeRun(first: nat, n: nat)
      requires Valid() && 2 <= first && first + n <= count + 2
      modifies this`bitmap
      ensures Valid() && forall c :: c in Used() <==> c in old(Used()) && !(first <= c < first + n)
    {
      for i := 0 to n
        invariant Valid() && forall c :: c in Used() <==> c in old(Used()) && !(first <= c < first + i)
      {
        var _ := MarkFree(first + i);
      }
    }

    /** Free a FAT chain: clear the bits and the cells of every cluster the start reaches, a bad
        one excepted. The loop cap is never hit. */
    method FreeChain(first: nat) returns (r: Result<()>)
      requires Valid() && InHeap(first)
      modifies this
      ensures Valid() && r == Ok(())
      ensures Cells() == ExWalk(old(Cells()), first)
      ensures Used() == old(Used()) - Walked(old(Cells()), first)
    {
      var cur, visited := first, 0;
      ghost var gone: set<nat> := {};
      while visited <= count
        invariant Valid() && InHeap(cur)
        invariant visited + DataLinks(Cells(), count + 2) <= count
        invariant ExWalk(old(Cells()), first) == ExWalk(Cells(), cur)
        invariant Walked(old(Cells()), first) == gone + Walked(Cells(), cur)
        invariant Used() == old(Used()) - gone
        decreases count + 1 - visited
      {
        var next := ReadFatEntry(cur);
        if next.Bad? {
          return Ok(());
        }
        ghost var t := Cells();
        var _ := MarkFree(cur);
        WriteFatEntry(cur, 0);
        gone := gone + {cur};
        if !next.Next? {
          return Ok(());
        }
        DataLinksDrop(t, cur, count + 2);
        LinkCountDrops(t, cur, |t|);
        cur := next.cluster;
        visited := visited + 1;
      }
      r := Err(Corrupt);
    }
  }

  lemma MarkUses(before: seq<Byte>, after: seq<Byte>, count: nat, c: nat, on: bool)
    requires Bits.Sized(before, count) && Bits.InHeap(c, count) && Bits.OneChanged(before, after, c, on)
    ensures UsedIn(after, count) == if on then UsedIn(before, count) + {c} else UsedIn(before, count) - {c}
  {
    forall d: nat | Bits.InHeap(d, count)
      ensures d in UsedIn(after, count) <==> if d == c then on else d in UsedIn(before, count)
    {
      Bits.HeapCovered(before, count, d);
    }
  }

  lemma UsedBelow(bitmap: seq<Byte>, count: nat, c: nat)
    requires Bits.Sized(bitmap, count) && Bits.FullBelow(bitmap, count, c)
    ensures forall d: nat :: Bits.InHeap(d, count) && d < c ==> d in UsedIn(bitmap, count)
  {
    forall d: nat | Bits.InHeap(d, count) && d < c
      ensures d in UsedIn(bitmap, count)
    {
      Bits.HeapCovered(bitmap, count, d);
    }
  }
}
