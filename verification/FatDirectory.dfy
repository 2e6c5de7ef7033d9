/** Slot I/O of FAT directories (src/fat/dir_slots.rs, src/fat/entry_io.rs): finding room, growing
    over a cluster chain, inserting and removing entries. */
module FatDirectories {
  import opened Basics
  import opened ClusterMaps
  import opened FatCells
  import opened FatTables
  import opened FatVolumes
  import opened FatSlots
  import opened SlotBlocks
  import opened SlotPlaces
  import D = FatDirShape
  import L = LfnParser

  /** A directory can hold this many slots. */
  const MAX_SCAN: nat := 0xFFFF

  // ---------------------------------------------------------------- runs of free slots

  ghost predicate AllFree(c: seq<Slot>, f: nat, n: nat) {
    f + n <= |c| && forall i :: f <= i < f + n ==> D.Free(c[i])
  }

  /** No run of `n` free slots ends at or before slot `end`. */
  ghost predicate NoRoom(c: seq<Slot>, n: nat, end: nat) {
    forall f: nat {:trigger AllFree(c, f, n)} :: f + n <= end ==> !AllFree(c, f, n)
  }

  /** The run of free slots that ends at slot `i`, as far left as it goes. */
  ghost predicate EndsAt(c: seq<Slot>, i: nat, n: nat) {
    n <= i <= |c| && AllFree(c, i - n, n) && (n < i ==> !D.Free(c[i - n - 1]))
  }

  lemma RunLonger(c: seq<Slot>, i: nat, n: nat)
    requires EndsAt(c, i, n) && i < |c|
    ensures EndsAt(c, i + 1, if D.Free(c[i]) then n + 1 else 0)
  {
  }

  lemma StillNoRoom(c: seq<Slot>, n: nat, i: nat, run: nat)
    requires NoRoom(c, n, i) && i < |c| && EndsAt(c, i + 1, run) && run < n
    ensures NoRoom(c, n, i + 1)
  {
    forall f: nat | f + n <= i + 1
      ensures !AllFree(c, f, n)
    {
      if f + n == i + 1 {
        assert !D.Free(c[i - run]);
      }
    }
  }

  /** The first run found is the leftmost one, and starts as far left as it goes. */
  lemma FirstRun(c: seq<Slot>, n: nat, i: nat)
    requires n > 0 && i < |c| && EndsAt(c, i + 1, n) && NoRoom(c, n, i)
    ensures FreeRun(c, i + 1 - n, n, D.Free) && NoRoom(c, n, i)
  {
  }

  /** A chain lengthened by free clusters is a chain of the directory. */
  lemma ChainGrows(a: Area, s: seq<nat>, run: seq<nat>, t: Table, u: Table)
    requires IsChain(t, s) && run != [] && |run| <= |FreeFrom(t, 2)| && run == FreeFrom(t, 2)[..|run|]
    requires IsLinked(t, u, Some(s[|s| - 1]), run)
    ensures IsChain(u, s + run) && InHeap(s + run) && InHeap(s) && InHeap(run)
    ensures ChainPlaces(a, s + run) == ChainPlaces(a, s) + ChainPlaces(a, run)
  {
    FreshRun(t, s, run);
    ChainExtend(t, u, s, run);
    ChainDistinct(t, s);
    ChainDistinct(u, s + run);
    forall i | 0 <= i < |run|
      ensures run[i] >= 2
    {
      assert run[i] in run;
    }
    PlacesAfter(a, s, run);
  }

  // ---------------------------------------------------------------- the directory

  /** Where an entry's slots are. */
  datatype SlotChain = SlotChain(first: SlotPos, len: nat)

  /** What a scan for room ends with: the start of a run, the end of the directory with its last
      position and the free run there, or the cap. */
  datatype Scan = Room(first: SlotPos) | NoneLeft(last: SlotPos, start: Option<SlotPos>, len: nat) | Capped

  /** The outcome of a scan of the slots `c` at positions `p`: the leftmost run of `n` free slots
      among the first 65535, or how the directory ends without one. `f` is where the run, or the
      free slots at the end, start. */
  ghost predicate Scanned(c: seq<Slot>, p: seq<SlotPos>, n: nat, r: Scan, f: nat)
    requires |c| == |p|
  {
    match r
    case Room(first) =>
      f + n <= |p| && f + n <= MAX_SCAN && n > 0 && first == p[f] && FreeRun(c, f, n, D.Free) && NoRoom(c, n, f + n - 1)
    case NoneLeft(last, start, len) =>
      && 0 < |p| <= MAX_SCAN && NoRoom(c, n, |p|) && last == p[|p| - 1]
      && len < n && EndsAt(c, |p|, len) && f == |p| - len && start == if len > 0 then Some(p[f]) else None
    case Capped => |p| > MAX_SCAN && NoRoom(c, n, MAX_SCAN)
  }

  /** A scan that has examined `i` slots. */
  ghost predicate Scanning(c: seq<Slot>, p: seq<SlotPos>, n: nat, i: nat, pos: SlotPos, start: Option<SlotPos>,
      len: nat)
    requires |c| == |p|
  {
    && i < |p| && i <= MAX_SCAN && pos == p[i]
    && EndsAt(c, i, len) && NoRoom(c, n, i) && len < n && start == if len > 0 then Some(p[i - len]) else None
  }

  lemma ScanOne(c: seq<Slot>, p: seq<SlotPos>, n: nat, i: nat, pos: SlotPos, start: Option<SlotPos>, len: nat,
      start': Option<SlotPos>, len': nat)
    requires |c| == |p| && Scanning(c, p, n, i, pos, start, len) && i < MAX_SCAN
    requires len' == if D.Free(c[i]) then len + 1 else 0
    requires start' == if D.Free(c[i]) then (if start.Some? then start else Some(pos)) else None
    ensures len' >= n ==> start'.Some? && i + 1 >= n && Scanned(c, p, n, Room(start'.value), i + 1 - n)
    ensures len' < n && i + 1 < |p| ==> Scanning(c, p, n, i + 1, p[i + 1], start', len')
    ensures len' < n && i + 1 == |p| ==> len' <= |p| && Scanned(c, p, n, NoneLeft(pos, start', len'), |p| - len')
  {
    RunLonger(c, i, len);
    if len' >= n {
      FirstRun(c, n, i);
    } else {
      StillNoRoom(c, n, i, len');
    }
  }

  /** The scan from slot `i` on, with `len` free slots just before it. */
  function ScanFrom(c: seq<Slot>, p: seq<SlotPos>, n: nat, i: nat, start: Option<SlotPos>, len: nat): Scan
    requires |c| == |p| && i < |p| && n > 0
    decreases |p| - i
  {
    if i >= MAX_SCAN then Capped
    else
      var free := D.Free(c[i]);
      var start' := if free then Some(if start.Some? then start.value else p[i]) else None;
      var len' := if free then len + 1 else 0;
      if len' >= n then Room(start'.value)
      else if i + 1 < |p| then ScanFrom(c, p, n, i + 1, start', len')
      else NoneLeft(p[i], start', len')
  }

  /** The scan finds the leftmost run there is. */
  lemma {:induction false} ScanFinds(c: seq<Slot>, p: seq<SlotPos>, n: nat, i: nat, start: Option<SlotPos>, len: nat)
      returns (f: nat)
    requires |c| == |p| && n > 0 && i < |p| && Scanning(c, p, n, i, p[i], start, len)
    ensures Scanned(c, p, n, ScanFrom(c, p, n, i, start, len), f)
    decreases |p| - i
  {
    f := 0;
    if i >= MAX_SCAN {
    } else {
      var free := D.Free(c[i]);
      var start' := if free then Some(if start.Some? then start.value else p[i]) else None;
      var len' := if free then len + 1 else 0;
      ScanOne(c, p, n, i, p[i], start, len, start', len');
      if len' >= n {
        f := i + 1 - n;
      } else if i + 1 < |p| {
        f := ScanFinds(c, p, n, i + 1, start', len');
      } else {
        f := |p| - len';
      }
    }
  }

  /** The clusters a request for `n` slots needs beyond `len` free slots at the end. */
  function Extra(a: Area, n: nat, len: nat): nat
    requires a.perCluster > 0 && len <= n
  {
    DivCeil(n - len, a.perCluster)
  }

  /** How many of the free clusters a request for `n` slots takes: those that the slots missing at
      the end need, when the scan found no room, and none when that is more than there are. */
  function Taken(a: Area, dir: FatDir, scan: Scan, n: nat, free: seq<nat>): (run: seq<nat>)
    requires a.perCluster > 0
    ensures run <= free
  {
    if scan.NoneLeft? && dir.Clusters? && scan.len < n && Extra(a, n, scan.len) <= |free|
    then free[..Extra(a, n, scan.len)] else []
  }

  /** How a request ends without room: the fixed root cannot grow, and everything else is full. */
  function Refusal(dir: FatDir, scan: Scan): Error {
    if scan.NoneLeft? && dir.FixedRoot? then RootDirectoryFull else StorageFull
  }

  /** There are `n` free slots from position `f` on, as far left as their run goes. */
  ghost predicate RoomAt(c: seq<Slot>, p: seq<SlotPos>, n: nat, first: SlotPos, f: nat)
    requires |c| == |p|
  {
    f + n <= |p| && f < |p| && f <= MAX_SCAN && first == p[f] && FreeRun(c, f, n, D.Free)
  }

  lemma EndsInZeros(c: seq<Slot>, n: nat, len: nat, more: nat)
    requires EndsAt(c, |c|, len) && len < n <= len + more
    ensures FreeRun(c + Zeros(more), |c| - len, n, D.Free)
  {
    var all := c + Zeros(more);
    forall i | |c| - len <= i < |c| - len + n
      ensures D.Free(all[i])
    {
      assert i >= |c| ==> all[i] == Zeros(more)[i - |c|];
    }
  }

  /** The free slots at the end and the new clusters together have room. */
  lemma GrownRoom(a: Area, c: seq<Slot>, p: seq<SlotPos>, n: nat, last: SlotPos, start: Option<SlotPos>, len: nat,
      run: seq<nat>, f: nat)
    requires |c| == |p| && InHeap(run) && a.perCluster > 0 && Scanned(c, p, n, NoneLeft(last, start, len), f)
    requires run != [] && |run| == Extra(a, n, len)
    ensures var q := ChainPlaces(a, run);
      RoomAt(c + Zeros(|q|), p + q, n, if start.Some? then start.value else SlotAt(a, run[0], 0), f)
  {
    ChainPlace(a, run, 0);
    UnitsMono(1, |run|, a.perCluster);
    UnitsOf(0, 0, a.perCluster);
    DivCeilCovers(n - len, a.perCluster);
    EndsInZeros(c, n, len, |ChainPlaces(a, run)|);
  }

  class FatDirectory {
    const fs: FatVolume
    const a: Area
    /** The 32-byte slots of the root region and the data clusters by byte offset. */
    var device: Device

    ghost predicate Valid()
      reads this, fs
    {
      fs.Valid() && Regular(a) && a.perCluster <= 0xFFFF && Backed(a, device, fs.l.maxCluster + 1)
    }

    /** `p` are the positions of directory `dir`, in order. */
    ghost predicate Laid(dir: FatDir, p: seq<SlotPos>)
      reads fs
    {
      exists s :: LaidOn(dir, s, p)
    }

    /** Directory `dir` lies on chain `s`, its slots at positions `p`. */
    ghost predicate LaidOn(dir: FatDir, s: seq<nat>, p: seq<SlotPos>)
      reads fs
    {
      && fs.Valid() && Regular(a) && Lies(dir, s, fs.Cells()) && InHeap(s)
      && p == Places(a, dir, s) && Apart(p) && p != []
    }

    /** Every directory on a live chain is laid out, and its slots are on the device. */
    lemma Opens(dir: FatDir, s: seq<nat>)
      requires Valid() && Lies(dir, s, fs.Cells()) && (dir.FixedRoot? ==> a.rootSlots > 0)
      ensures InHeap(s) && Laid(dir, Places(a, dir, s)) && On(Places(a, dir, s), device)
    {
      LiesInHeap(dir, s, fs.Cells());
      PlacesApart(a, dir, s);
      PlacesOn(a, dir, s, device, fs.Cells());
      if dir.Clusters? {
        LastPlace(a, s, fs.Cells());
      }
      assert LaidOn(dir, s, Places(a, dir, s));
    }

    /** Positions are in the table's range, and each leads to the next. */
    lemma Step(dir: FatDir, p: seq<SlotPos>, i: nat)
      requires Laid(dir, p) && i < |p|
      ensures fs.Valid() && LinksIn(fs.Cells()) && (p[i].cluster.Some? ==> fs.InRange(p[i].cluster.value))
      ensures NextPos(a, fs.Cells(), p[i]) == if i + 1 < |p| then Some(p[i + 1]) else None
    {
      var s :| LaidOn(dir, s, p);
      LinksOf(fs.image, fs.l);
      StepsThrough(a, dir, s, fs.Cells(), i);
    }

    lemma LaidApart(dir: FatDir, p: seq<SlotPos>)
      requires Laid(dir, p)
      ensures Apart(p) && p != [] && fs.Valid() && Regular(a)
    {
    }

    lemma FirstPlace(dir: FatDir, p: seq<SlotPos>)
      requires Laid(dir, p)
      ensures p != [] && (dir.Clusters? ==> dir.first >= 2)
      ensures p[0] == if dir.FixedRoot? then RootAt(a, 0) else SlotAt(a, dir.first, 0)
    {
      var s :| LaidOn(dir, s, p);
      if dir.Clusters? {
        assert ChainCell(fs.Cells(), s, 0);
      }
    }

    constructor (fs: FatVolume, a: Area, device: Device)
      requires fs.Valid() && Regular(a) && a.perCluster <= 0xFFFF && Backed(a, device, fs.l.maxCluster + 1)
      ensures Valid() && this.fs == fs && this.a == a && this.device == device
    {
      this.fs, this.a, this.device := fs, a, device;
    }

    method DirFirstSlot(dir: FatDir, ghost p: seq<SlotPos>) returns (pos: SlotPos)
      requires Laid(dir, p)
      ensures p != [] && pos == p[0]
    {
      FirstPlace(dir, p);
      match dir {
        case FixedRoot => pos := RootAt(a, 0);
        case Clusters(first) => pos := SlotAt(a, first, 0);
      }
    }

    method NextSlot(pos: SlotPos) returns (r: Result<Option<SlotPos>>)
      requires fs.Valid() && (pos.cluster.Some? ==> fs.InRange(pos.cluster.value))
      ensures LinksIn(fs.Cells()) && r == Ok(NextPos(a, fs.Cells(), pos))
    {
      LinksOf(fs.image, fs.l);
      var next := pos.offset + SLOT_SIZE;
      match pos.cluster {
        case None =>
          r := Ok(if next < a.rootStart + SLOT_SIZE * a.rootSlots then Some(SlotPos(next, None)) else None);
        case Some(c) =>
          if next < SlotAt(a, c, 0).offset + SLOT_SIZE * a.perCluster {
            return Ok(Some(SlotPos(next, Some(c))));
          }
          var link := fs.NextCluster(c);
          r := Ok(if link.value.Some? && link.value.value <= fs.l.maxCluster then Some(SlotAt(a, link.value.value, 0))
            else None);
      }
    }

    /** The step from the `i`th position of a directory. */
    method Advance(pos: SlotPos, ghost dir: FatDir, ghost p: seq<SlotPos>, ghost i: nat) returns (next: Option<SlotPos>)
      requires Laid(dir, p) && i < |p| && pos == p[i]
      ensures next == if i + 1 < |p| then Some(p[i + 1]) else None
    {
      Step(dir, p, i);
      var r := NextSlot(pos);
      next := r.value;
    }

    method ReadSlot(pos: SlotPos) returns (b: Slot)
      requires pos.offset in device
      ensures b == device[pos.offset]
    {
      b := device[pos.offset];
    }

    method WriteSlot(pos: SlotPos, b: Slot)
      requires pos.offset in device
      modifies this`device
      ensures device == old(device)[pos.offset := b]
    {
      device := device[pos.offset := b];
    }

    /** Mark one slot deleted. */
    method FreeSlot(pos: SlotPos)
      requires pos.offset in device && Sized(device[pos.offset])
      modifies this`device
      ensures device == old(device)[pos.offset := D.Killed(old(device)[pos.offset])]
    {
      var b: Slot := device[pos.offset][0 := SLOT_DELETED];
      device := device[pos.offset := b];
    }

    /** The slot `n` positions further, if there is one. */
    method NthSlot(pos: SlotPos, n: nat, ghost dir: FatDir, ghost p: seq<SlotPos>, ghost i: nat)
        returns (r: Option<SlotPos>)
      requires Laid(dir, p) && i < |p| && pos == p[i]
      ensures r == if i + n < |p| then Some(p[i + n]) else None
    {
      var cur := pos;
      for k := 0 to n
        invariant i + k < |p| && cur == p[i + k]
      {
        var next := Advance(cur, dir, p, i + k);
        if next.None? {
          return None;
        }
        cur := next.value;
      }
      r := Some(cur);
    }

    // -------------------------------------------------------------- room for an entry

    /** The first run of `needed` free slots among the first 65535. */
    method ScanForRoom(dir: FatDir, needed: nat, ghost p: seq<SlotPos>) returns (r: Scan)
      requires Laid(dir, p) && On(p, device) && needed > 0
      ensures r == ScanFrom(Contents(device, p), p, needed, 0, None, 0)
    {
      ghost var c := Contents(device, p);
      var pos := DirFirstSlot(dir, p);
      var runStart: Option<SlotPos> := None;
      var runLen: nat := 0;
      var examined: nat := 0;
      while true
        invariant examined < |p| && pos == p[examined]
        invariant ScanFrom(c, p, needed, 0, None, 0) == ScanFrom(c, p, needed, examined, runStart, runLen)
        decreases |p| - examined
      {
        if examined >= MAX_SCAN {
          return Capped;
        }
        var b := ReadSlot(pos);
        assert b == c[examined];
        if b[0] == SLOT_END || b[0] == SLOT_DELETED {
          runStart, runLen := Some(if runStart.Some? then runStart.value else pos), runLen + 1;
          if runLen >= needed {
            return Room(runStart.value);
          }
        } else {
          runStart, runLen := None, 0;
        }
        var next := Advance(pos, dir, p, examined);
        if next.None? {
          return NoneLeft(pos, runStart, runLen);
        }
        pos, examined := next.value, examined + 1;
      }
    }

    method ZeroClusters(run: seq<nat>)
      requires Valid() && InHeap(run) && InTable(fs.Cells(), run)
      modifies this`device
      ensures Valid() && Elsewhere(old(device), device, ChainPlaces(a, run)) && Zeroed(device, ChainPlaces(a, run))
    {
      ghost var done: seq<nat> := [];
      for k := 0 to |run|
        invariant Valid() && done == run[..k] && InHeap(done)
        invariant Elsewhere(old(device), device, ChainPlaces(a, done)) && Zeroed(device, ChainPlaces(a, done))
      {
        ghost var was := device;
        ClusterOn(a, run[k], device, fs.l.maxCluster + 1);
        device := ZeroCluster(a, device, run[k]);
        BackedStill(a, was, device, fs.l.maxCluster + 1);
        StaysZeroed(was, device, ChainPlaces(a, done));
        OnePlace(a, run[k]);
        PlacesAfter(a, done, [run[k]]);
        ElsewhereThen(old(device), was, device, ChainPlaces(a, done), ClusterPlaces(a, run[k]));
        ZeroedBoth(device, ChainPlaces(a, done), ClusterPlaces(a, run[k]));
        done := done + [run[k]];
      }
      assert run[..|run|] == run;
    }

    /** Append `extra` zeroed clusters to a directory's chain; all or nothing. */
    method Grow(last: SlotPos, extra: nat, dir: FatDir, ghost p: seq<SlotPos>) returns (r: Result<seq<nat>>)
      requires Valid() && Laid(dir, p) && On(p, device) && dir.Clusters? && p != [] && last == p[|p| - 1] && extra > 0
      modifies this`device, fs
      ensures Valid()
      ensures r.Ok? <==> extra <= |old(FreeFrom(fs.Cells(), 2))|
      ensures r.Ok? ==>
        && r.value == old(FreeFrom(fs.Cells(), 2))[..extra] && InHeap(r.value) &&
          IsLinked(old(fs.Cells()), fs.Cells(), p[|p| - 1].cluster, r.value)
        && Laid(dir, p + ChainPlaces(a, r.value)) && On(p + ChainPlaces(a, r.value), device)
        && Contents(device, p + ChainPlaces(a, r.value)) == old(Contents(device, p)) + Zeros(|ChainPlaces(a, r.value)|)
        && Elsewhere(old(device), device, ChainPlaces(a, r.value))
      ensures r.Err? ==>
        r.error == StorageFull && device == old(device) && fs.Cells() == old(fs.Cells()) &&
        Laid(dir, p)
    {
      ghost var t := fs.Cells();
      ghost var d := device;
      ghost var s :| LaidOn(dir, s, p);
      LastPlace(a, s, t);
      r := fs.AllocateClusters(extra, last.cluster);
      if r.Ok? {
        ChainGrows(a, s, r.value, t, fs.Cells());
        ChainCells(fs.Cells(), s + r.value);
        assert InTable(fs.Cells(), r.value) by {
          assert forall i :: 0 <= i < |r.value| ==> r.value[i] == (s + r.value)[|s| + i];
        }
        ZeroClusters(r.value);
        Opens(dir, s + r.value);
        ContentsGrow(d, device, p, ChainPlaces(a, r.value));
      } else {
        assert LaidOn(dir, s, p);
      }
    }

    /** Find room for `needed` slots, growing a chain-backed directory when there is none: `run` are
        the clusters added, `f` the index of the position returned among the positions `q` the
        directory then has. */
    method ReserveSlots(dir: FatDir, needed: nat, ghost p: seq<SlotPos>)
      returns (r: Result<SlotPos>, ghost scan: Scan, ghost run: seq<nat>, ghost f: nat, ghost q: seq<SlotPos>)
      requires Valid() && Laid(dir, p) && On(p, device) && needed > 0
      modifies this`device, fs
      ensures scan == ScanFrom(old(Contents(device, p)), p, needed, 0, None, 0)
      ensures Valid()
      ensures InHeap(run) && q == p + ChainPlaces(a, run) && Laid(dir, q) && On(q, device)
      ensures Contents(device, q) == old(Contents(device, p)) + Zeros(|ChainPlaces(a, run)|)
      ensures Elsewhere(old(device), device, ChainPlaces(a, run))
      ensures run == [] ==> device == old(device) && fs.Cells() == old(fs.Cells())
      ensures run == Taken(a, dir, scan, needed, old(FreeFrom(fs.Cells(), 2)))
      ensures r.Ok? <==> run != [] || scan.Room?
      ensures r.Err? ==> r.error == Refusal(dir, scan)
      ensures r.Ok? ==> RoomAt(Contents(device, q), q, needed, r.value, f)
    {
      ghost var c := Contents(device, p);
      LaidApart(dir, p);
      run, q := [], p;
      assert p + [] == p && c + Zeros(0) == c;
      var found := ScanForRoom(dir, needed, p);
      scan := found;
      f := ScanFinds(c, p, needed, 0, None, 0);
      match found {
        case Room(first) => r := Ok(first);
        case Capped => r := Err(StorageFull);
        case NoneLeft(last, start, len) =>
          if dir.FixedRoot? {
            r := Err(RootDirectoryFull);
          } else {
            var more := GrowFor(last, needed, len, dir, p);
            if more.Err? {
              r := Err(more.error);
            } else {
              run := more.value;
              q := p + ChainPlaces(a, run);
              r := Ok(if start.Some? then start.value else SlotAt(a, more.value[0], 0));
              GrownRoom(a, c, p, needed, last, start, len, run, f);
            }
          }
      }
    }

    /** Grow by as many clusters as room for `needed` slots takes, `len` of them at the end. */
    method GrowFor(last: SlotPos, needed: nat, len: nat, dir: FatDir, ghost p: seq<SlotPos>)
        returns (r: Result<seq<nat>>)
      requires Valid() && Laid(dir, p) && On(p, device) && dir.Clusters? && p != [] && last == p[|p| - 1] &&
        len < needed
      modifies this`device, fs
      ensures Valid()
      ensures r.Ok? <==> Extra(a, needed, len) <= |old(FreeFrom(fs.Cells(), 2))|
      ensures r.Ok? ==>
        && r.value == old(FreeFrom(fs.Cells(), 2))[..Extra(a, needed, len)] && r.value != [] && InHeap(r.value)
        && Laid(dir, p + ChainPlaces(a, r.value)) && On(p + ChainPlaces(a, r.value), device)
        && Contents(device, p + ChainPlaces(a, r.value)) == old(Contents(device, p)) + Zeros(|ChainPlaces(a, r.value)|)
        && Elsewhere(old(device), device, ChainPlaces(a, r.value))
      ensures r.Err? ==>
        r.error == StorageFull && device == old(device) && fs.Cells() == old(fs.Cells()) &&
        Laid(dir, p)
    {
      DivCeilLeast(needed - len, a.perCluster, 0);
      r := Grow(last, DivCeil(needed - len, a.perCluster), dir, p);
    }

    // -------------------------------------------------------------- entries

    /** Write `slots` from position `f` on, following the directory across clusters. */
    method WriteSlotRun(start: SlotPos, slots: seq<Slot>, dir: FatDir, ghost p: seq<SlotPos>, ghost f: nat)
        returns (r: Result<()>)
      requires Laid(dir, p) && On(p, device) && f + |slots| <= |p| && (slots != [] ==> start == p[f]) && AllSized(slots)
      modifies this`device
      ensures r == Ok(()) && device == Written(old(device), p, f, slots)
    {
      var pos := start;
      for i := 0 to |slots|
        invariant device.Keys == old(device).Keys && (i < |slots| ==> pos == p[f + i])
        invariant Written(device, p, f + i, slots[i..]) == Written(old(device), p, f, slots)
      {
        WriteSlot(pos, slots[i]);
        if i + 1 < |slots| {
          var next := Advance(pos, dir, p, f + i);
          if next.None? {
            return Err(Corrupt);
          }
          pos := next.value;
        }
      }
      r := Ok(());
    }

    /** Insert an entry: its slots are written into the room found for it, in the clusters added if
        need be; nothing else on the device changes. `q` are the directory's positions afterwards,
        `f` the index of the entry's first. */
    method InsertEntry(e: Props, dir: FatDir, ghost p: seq<SlotPos>)
      returns (r: Result<SlotChain>, ghost scan: Scan, ghost run: seq<nat>, ghost f: nat, ghost q: seq<SlotPos>)
      requires Valid() && Laid(dir, p) && On(p, device) && Composable(e)
      modifies this`device, fs
      ensures scan == ScanFrom(old(Contents(device, p)), p, |Compose(e)|, 0, None, 0)
      ensures InHeap(run) && q == p + ChainPlaces(a, run) && Laid(dir, q) && On(q, device)
      ensures run == Taken(a, dir, scan, |Compose(e)|, old(FreeFrom(fs.Cells(), 2)))
      ensures r.Ok? <==> run != [] || scan.Room?
      ensures r.Ok? ==>
        r.value.len == |Compose(e)| &&
        RoomAt(old(Contents(device, p)) + Zeros(|ChainPlaces(a, run)|), q, r.value.len, r.value.first, f)
      ensures r.Ok? ==> Contents(device, q) == Splice(old(Contents(device, p)) + Zeros(|ChainPlaces(a, run)|), f,
        Compose(e))
      ensures r.Ok? ==> Elsewhere(old(device), device, ChainPlaces(a, run) + Span(q, f, r.value.len))
      ensures r.Err? ==> r.error == Refusal(dir, scan) && device == old(device) && fs.Cells() == old(fs.Cells())
    {
      var slots := ComposeEntry(e);
      var n := |slots|;
      assert device == old(device) && n == |Compose(e)|;
      var first: Result<SlotPos>;
      first, scan, run, f, q := ReserveSlots(dir, n, p);
      if first.Err? {
        r := Err(first.error);
      } else {
        ghost var d := device;
        var wrote := WriteSlotRun(first.value, slots, dir, q, f);
        LaidApart(dir, q);
        WrittenAs(d, q, f, slots);
        ElsewhereThen(old(device), d, device, ChainPlaces(a, run), Span(q, f, n));
        r := Ok(SlotChain(first.value, n));
      }
    }

    /** Mark the slots of an entry deleted. */
    method RemoveEntrySet(chain: SlotChain, dir: FatDir, ghost p: seq<SlotPos>, ghost f: nat)
      requires Laid(dir, p) && On(p, device) && chain.len > 0 && f + chain.len <= |p| && chain.first == p[f]
      modifies this`device
      ensures device == KillRun(old(device), p, f, chain.len)
    {
      var pos, len := chain.first, chain.len;
      ghost var at, left := f, len;
      for i := 0 to len
        invariant On(p, device) && at == f + i && left == len - i && (i < len ==> pos == p[at])
        invariant KillRun(device, p, at, left) == KillRun(old(device), p, f, len)
      {
        FreeOne(pos, p, at, left);
        if i + 1 < len {
          var next := Advance(pos, dir, p, at);
          if next.None? {
            break;
          }
          pos := next.value;
        }
        at, left := at + 1, left - 1;
      }
    }

    /** The first of the slots still to be marked. */
    method FreeOne(pos: SlotPos, ghost p: seq<SlotPos>, ghost at: nat, ghost left: nat)
      requires On(p, device) && 0 < left && at + left <= |p| && pos == p[at]
      modifies this`device
      ensures On(p, device) && KillRun(device, p, at + 1, left - 1) == KillRun(old(device), p, at, left)
    {
      KillNext(device, p, at, left);
      FreeSlot(pos);
    }
  }

  /** The `n` slots from position `f` on marked deleted. */
  function KillRun(d: Device, p: seq<SlotPos>, f: nat, n: nat): Device
    requires f + n <= |p|
    decreases n
  {
    if n == 0 || p[f].offset !in d then d else KillRun(d[p[f].offset := D.Killed(d[p[f].offset])], p, f + 1, n - 1)
  }

  lemma KillNext(d: Device, p: seq<SlotPos>, at: nat, n: nat)
    requires On(p, d) && 0 < n && at + n <= |p|
    ensures var e := d[p[at].offset := D.Killed(d[p[at].offset])];
      On(p, e) && KillRun(d, p, at, n) == KillRun(e, p, at + 1, n - 1)
  {
  }

  lemma KilledHead(c: seq<Slot>, f: nat, n: nat)
    requires 0 < n && f + n <= |c|
    ensures var c' := c[f := D.Killed(c[f])];
      Struck(c', f + 1, n - 1, D.Killed) == Struck(c, f, n, D.Killed)
  {
    var c' := c[f := D.Killed(c[f])];
    var part := c[f..f + n];
    assert part[1..] == c'[f + 1..f + n] && part[0] == c[f];
  }

  lemma NothingStruck(c: seq<Slot>, f: nat)
    requires f <= |c|
    ensures Struck(c, f, 0, D.Killed) == c
  {
  }

  /** Marking a run of slots deleted changes those slots of the directory, and nothing else on the
      device. */
  lemma {:induction false} KillRunAs(d: Device, p: seq<SlotPos>, f: nat, n: nat)
    requires On(p, d) && Apart(p) && f + n <= |p|
    ensures var e := KillRun(d, p, f, n);
      On(p, e) && Contents(e, p) == Struck(Contents(d, p), f, n, D.Killed) && Elsewhere(d, e, Span(p, f, n))
    decreases n
  {
    if n == 0 {
      assert KillRun(d, p, f, n) == d;
      NothingStruck(Contents(d, p), f);
    } else {
      var b := D.Killed(d[p[f].offset]);
      var d' := d[p[f].offset := b];
      WriteOne(d, p, f, b);
      OneElsewhere(d, p[f], b);
      KillRunAs(d', p, f + 1, n - 1);
      KilledHead(Contents(d, p), f, n);
      assert KillRun(d, p, f, n) == KillRun(d', p, f + 1, n - 1);
      assert Span(p, f, n) == [p[f]] + Span(p, f + 1, n - 1);
      ElsewhereThen(d, d', KillRun(d, p, f, n), [p[f]], Span(p, f + 1, n - 1));
    }
  }

  /** Removing a listed entry leaves a tidy directory that lists everything but it. */
  lemma Removed(d: Device, p: seq<SlotPos>, e: L.Found)
    requires On(p, d) && Apart(p) && D.Tidy(Contents(d, p)) && e in D.ReadSet(Contents(d, p))
    ensures e.len > 0 && e.first + e.len <= |p| && On(p, KillRun(d, p, e.first, e.len))
    ensures D.Tidy(Contents(KillRun(d, p, e.first, e.len), p))
    ensures D.ReadSet(Contents(KillRun(d, p, e.first, e.len), p)) == D.ReadSet(Contents(d, p)) - {e}
  {
    D.TidyRemove(Contents(d, p), e);
    KillRunAs(d, p, e.first, e.len);
  }

  /** Entry `e` written at the start of a free run of the directory grown by `more` zeroed slots. */
  lemma InsertedInto(c: seq<Slot>, more: nat, e: Props, f: nat)
    requires D.Tidy(c) && Composable(e) && f <= MAX_SCAN && FreeRun(c + Zeros(more), f, |Compose(e)|, D.Free)
    ensures var c' := Splice(c + Zeros(more), f, Compose(e));
      D.Tidy(c') && D.ReadSet(c') == D.ReadSet(c) + {Placed(D.EntryOf(e), f, |Compose(e)|)}
  {
    D.TidyGrow(c, Zeros(more));
    D.TidyInsert(c + Zeros(more), e, f);
  }

  /** The last position of a chain lies in its last cluster. */
  lemma LastPlace(a: Area, s: seq<nat>, t: Table)
    requires Regular(a) && IsChain(t, s)
    ensures InHeap(s) && ChainPlaces(a, s) != []
    ensures var p := ChainPlaces(a, s);
      p[|p| - 1].cluster == Some(s[|s| - 1]) && IsData(t, s[|s| - 1]) && t[s[|s| - 1]] == End
  {
    ChainDistinct(t, s);
    assert ChainCell(t, s, |s| - 1);
    ChainPlace(a, s, 0);
    UnitsMono(1, |s|, a.perCluster);
    var last := |ChainPlaces(a, s)| - 1;
    ChainPlace(a, s, last);
    UnitsOf(last, |s| - 1, a.perCluster);
  }
}
