/** Stream-addressed directory I/O of exFAT (src/exfat/dir_io.rs): a directory's clusters as one run
    of slots, appending an entry set (growing the directory and chaining a contiguous one), locating
    and unlinking sets, and rewriting them in place. */
module ExfatDirectories {
  import opened Basics
  import opened ClusterMaps
  import opened FatTables
  import opened ExfatHeaps
  import opened ExfatMaps
  import opened ExfatSets
  import L = LfnParser
  import opened SlotBlocks
  import opened SlotPlaces
  import Cell = FatCells
  import D = ExfatDirShape

  /** How a directory's clusters are found. */
  datatype DirExtent = DirExtent(first: nat, noFatChain: bool, maxClusters: nat)

  /** `s` are the clusters of the directory: a contiguous run of the length the extent says, or the
      FAT chain from its first cluster. */
  ghost predicate Spans(ext: DirExtent, s: seq<nat>, t: Table) {
    && s != [] && s[0] == ext.first && Distinct(s) && InTable(t, s)
    && if ext.noFatChain then Contiguous(s) && |s| == ext.maxClusters else IsChain(t, s)
  }

  /** The device slots from `offset` on, one after the other, overwritten by `data`. */
  function WriteRun(d: Device, offset: nat, data: seq<Slot>): Device
    decreases |data|
  {
    if data == [] then d else WriteRun(d[offset := data[0]], offset + SLOT_SIZE, data[1..])
  }

  function OffsetAt(p: seq<SlotPos>, f: nat, k: nat): nat
    requires f + k < |p|
  {
    p[f + k].offset
  }

  /** Positions `f` to `f + n` lie one after the other on the device. */
  ghost predicate InARow(p: seq<SlotPos>, f: nat, n: nat) {
    f + n <= |p| && forall k: nat :: k < n ==> OffsetAt(p, f, k) == OffsetAt(p, f, 0) + SLOT_SIZE * k
  }

  lemma RowTail(p: seq<SlotPos>, f: nat, n: nat)
    requires InARow(p, f, n) && n > 1
    ensures InARow(p, f + 1, n - 1) && OffsetAt(p, f + 1, 0) == OffsetAt(p, f, 0) + SLOT_SIZE
  {
    forall k: nat | k < n - 1
      ensures OffsetAt(p, f + 1, k) == OffsetAt(p, f, 0) + SLOT_SIZE + SLOT_SIZE * k
    {
      assert OffsetAt(p, f + 1, k) == OffsetAt(p, f, k + 1);
    }
  }

  lemma {:induction false} WriteRunAs(d: Device, p: seq<SlotPos>, f: nat, data: seq<Slot>, at: nat)
    requires InARow(p, f, |data|) && (data != [] ==> at == OffsetAt(p, f, 0))
    ensures WriteRun(d, at, data) == Written(d, p, f, data)
    decreases |data|
  {
    if |data| > 1 {
      RowTail(p, f, |data|);
    }
    if data == [] {
    } else {
      WriteRunAs(d[at := data[0]], p, f + 1, data[1..], at + SLOT_SIZE);
    }
  }

  lemma {:induction false} WrittenTwice(d: Device, p: seq<SlotPos>, f: nat, g: nat, a: seq<Slot>, b: seq<Slot>,
      all: seq<Slot>)
    requires all == a + b && f + |all| <= |p| && g == f + |a|
    ensures Written(Written(d, p, f, a), p, g, b) == Written(d, p, f, all)
    decreases |a|
  {
    if a == [] {
      assert all == b;
    } else {
      assert all[1..] == a[1..] + b;
      WrittenTwice(d[p[f].offset := a[0]], p, f + 1, g, a[1..], b, all[1..]);
    }
  }

  class ExfatDirectory {
    const vol: ExfatHeap
    const a: Area
    /** The 32-byte slots of the cluster heap by byte offset. */
    var device: Device

    ghost predicate Valid()
      reads this, vol
    {
      vol.Valid() && Regular(a) && Backed(a, device, vol.count + 2)
    }

    constructor (vol: ExfatHeap, a: Area, device: Device)
      requires vol.Valid() && Regular(a) && Backed(a, device, vol.count + 2)
      ensures Valid() && this.vol == vol && this.a == a && this.device == device
    {
      this.vol, this.a, this.device := vol, a, device;
    }

    /** Every directory's slots are on the device, at distinct places. */
    lemma Opens(s: seq<nat>)
      requires Valid() && InTable(vol.Cells(), s) && Distinct(s)
      ensures InHeap(s) && On(ChainPlaces(a, s), device) && Apart(ChainPlaces(a, s))
    {
      PlacesApart(a, Clusters(0), s);
      PlacesOn(a, Clusters(0), s, device, vol.Cells());
    }

    // -------------------------------------------------------------- the stream

    /** The next cluster, computed or read from the FAT. */
    method NextCluster(c: nat, noFatChain: bool) returns (next: Option<nat>)
      requires vol.Valid() && vol.InHeap(c)
      ensures next == if noFatChain then (if c + 1 <= vol.count + 1 then Some(c + 1) else None)
        else NextOf(vol.Cells()[c])
    {
      if noFatChain {
        next := if c + 1 > vol.count + 1 then None else Some(c + 1);
      } else {
        next := vol.NextCluster(c);
      }
    }

    /** The directory's clusters. The walk ends on any FAT; only one longer than the volume is
        refused. */
    method CollectClusters(ext: DirExtent, ghost s: seq<nat>) returns (r: Result<seq<nat>>)
      requires vol.Valid() && vol.InHeap(ext.first)
      ensures Spans(ext, s, vol.Cells()) ==> r == Ok(s)
      ensures r.Err? ==> r.error == Corrupt && !ext.noFatChain
    {
      var out: seq<nat> := [];
      var cur := Some(ext.first);
      var walked: nat := 0;
      ghost var spans := Spans(ext, s, vol.Cells());
      SpansBounded(ext, s, vol.Cells());
      while cur.Some?
        invariant cur.Some? ==> vol.InHeap(cur.value)
        invariant !ext.noFatChain ==> walked <= vol.count
        invariant ext.noFatChain ==> walked <= ext.maxClusters
        invariant spans ==> walked <= |s| && out == s[..walked]
        invariant spans && walked < |s| ==> cur == Some(s[walked])
        invariant spans && walked == |s| && !ext.noFatChain ==> cur == None
        decreases if ext.noFatChain then ext.maxClusters - walked else vol.count - walked, if cur.Some? then 1 else 0
      {
        if ext.noFatChain {
          if walked >= ext.maxClusters {
            break;
          }
        } else if walked >= vol.count {
          return Err(Corrupt);
        }
        SpansStep(ext, s, vol.Cells(), walked);
        assert spans ==> s[..walked + 1] == s[..walked] + [s[walked]];
        out := out + [cur.value];
        walked := walked + 1;
        cur := NextCluster(cur.value, ext.noFatChain);
      }
      assert spans ==> s[..|s|] == s;
      r := Ok(out);
    }

    /** The whole directory as one buffer. */
    method ReadStream(clusters: seq<nat>) returns (buf: seq<Slot>)
      requires InHeap(clusters) && Regular(a) && On(ChainPlaces(a, clusters), device)
      ensures buf == Contents(device, ChainPlaces(a, clusters))
    {
      buf := [];
      ghost var p := ChainPlaces(a, clusters);
      for i := 0 to |clusters|
        invariant |buf| == Units(i, a.perCluster) <= |p|
        invariant buf == Contents(device, p)[..|buf|]
      {
        ChainPlace(a, clusters, 0);
        UnitsMono(i + 1, |clusters|, a.perCluster);
        for j := 0 to a.perCluster
          invariant |buf| == Units(i, a.perCluster) + j <= |p|
          invariant buf == Contents(device, p)[..|buf|]
        {
          ChainPlace(a, clusters, |buf|);
          UnitsOf(|buf|, i, a.perCluster);
          assert Contents(device, p)[..|buf| + 1] == Contents(device, p)[..|buf|] + [device[p[|buf|].offset]];
          buf := buf + [device[SlotAt(a, clusters[i], j).offset]];
        }
      }
      ChainPlace(a, clusters, 0);
    }

    /** The device offset of a slot of the stream, and how many slots remain in its cluster. */
    method LocateInStream(clusters: seq<nat>, at: nat) returns (r: Result<(nat, nat)>)
      requires InHeap(clusters) && Regular(a)
      ensures r.Ok? <==> at < |ChainPlaces(a, clusters)|
      ensures r.Ok? ==>
        r.value.1 > 0 && r.value.0 == OffsetAt(ChainPlaces(a, clusters), at, 0) &&
        InARow(ChainPlaces(a, clusters), at, r.value.1)
      ensures r.Err? ==> r.error == Corrupt
    {
      ChainPlace(a, clusters, at);
      var idx, within := at / a.perCluster, at % a.perCluster;
      UnitIsQuotient(at, a.perCluster);
      PlacedAt(a, clusters, at);
      if idx >= |clusters| {
        return Err(Corrupt);
      }
      r := Ok((SlotAt(a, clusters[idx], within).offset, a.perCluster - within));
    }

    /** Write `slots` at slot `at` of the stream, scattering them over the clusters. */
    method WriteStreamAt(clusters: seq<nat>, at: nat, slots: seq<Slot>) returns (r: Result<()>)
      requires InHeap(clusters) && Regular(a) && at + |slots| <= |ChainPlaces(a, clusters)|
      modifies this`device
      ensures r == Ok(()) && device == Written(old(device), ChainPlaces(a, clusters), at, slots)
    {
      var written: nat := 0;
      ghost var p := ChainPlaces(a, clusters);
      while written < |slots|
        invariant written <= |slots|
        invariant device == Written(old(device), p, at, slots[..written])
      {
        ghost var was := device;
        var next := at + written;
        var n := WriteChunk(clusters, next, slots[written..]);
        if n.Err? {
          return Err(Corrupt);
        }
        var done := written + n.value;
        assert slots[..written] + slots[written..][..n.value] == slots[..done];
        WrittenTwice(old(device), p, at, next, slots[..written], slots[written..][..n.value], slots[..done]);
        written := done;
      }
      assert slots[..|slots|] == slots;
      r := Ok(());
    }

    /** Write as many of `slots` as go into the cluster that slot `at` is in. */
    method WriteChunk(clusters: seq<nat>, at: nat, slots: seq<Slot>) returns (r: Result<nat>)
      requires InHeap(clusters) && Regular(a) && slots != [] && at + |slots| <= |ChainPlaces(a, clusters)|
      modifies this`device
      ensures r.Ok? && 0 < r.value <= |slots| &&
        device == Written(old(device), ChainPlaces(a, clusters), at, slots[..r.value])
    {
      var loc := LocateInStream(clusters, at);
      if loc.Err? {
        return Err(Corrupt);
      }
      var chunk := Min(loc.value.1, |slots|);
      WriteRunAs(device, ChainPlaces(a, clusters), at, slots[..chunk], loc.value.0);
      device := WriteRun(device, loc.value.0, slots[..chunk]);
      r := Ok(chunk);
    }

    /** Read `len` slots from slot `at` of the stream. */
    method ReadStreamAt(clusters: seq<nat>, at: nat, len: nat) returns (r: Result<seq<Slot>>)
      requires InHeap(clusters) && Regular(a) && On(ChainPlaces(a, clusters), device) &&
        at + len <= |ChainPlaces(a, clusters)|
      ensures r == Ok(Stretch(Contents(device, ChainPlaces(a, clusters)), at, len))
    {
      var out: seq<Slot> := [];
      ghost var c := Contents(device, ChainPlaces(a, clusters));
      while |out| < len
        invariant |out| <= len && out == c[at..at + |out|]
        decreases len - |out|
      {
        var next := at + |out|;
        var chunk := ReadChunk(clusters, next, len - |out|);
        if chunk.Err? {
          return Err(Corrupt);
        }
        assert c[at..next] + c[next..next + |chunk.value|] == c[at..next + |chunk.value|];
        out := out + chunk.value;
      }
      r := Ok(out);
    }

    /** Read as many of `len` slots as lie in the cluster that slot `at` is in. */
    method ReadChunk(clusters: seq<nat>, at: nat, len: nat) returns (r: Result<seq<Slot>>)
      requires InHeap(clusters) && Regular(a) && On(ChainPlaces(a, clusters), device) && len > 0 &&
        at + len <= |ChainPlaces(a, clusters)|
      ensures r.Ok? && 0 < |r.value| <= len &&
        r.value == Contents(device, ChainPlaces(a, clusters))[at..at + |r.value|]
    {
      var loc := LocateInStream(clusters, at);
      if loc.Err? {
        return Err(Corrupt);
      }
      var chunk := Min(loc.value.1, len);
      var out: seq<Slot> := [];
      ghost var c := Contents(device, ChainPlaces(a, clusters));
      for k := 0 to chunk
        invariant |out| == k && out == c[at..at + k]
      {
        assert OffsetAt(ChainPlaces(a, clusters), at, k) == loc.value.0 + SLOT_SIZE * k;
        out := out + [device[loc.value.0 + SLOT_SIZE * k]];
      }
      r := Ok(out);
    }

    /** The first end marker of the stream, or its end. */
    method FindEnd(buf: seq<Slot>) returns (insert: nat)
      requires AllSized(buf)
      ensures insert == D.FirstEnd(buf)
    {
      insert := |buf|;
      var pos: nat := 0;
      while pos < |buf|
        invariant pos <= |buf| && insert == |buf| && D.NoEnd(buf[..pos])
      {
        if buf[pos][0] == END_OF_DIRECTORY {
          insert := pos;
          break;
        }
        assert buf[..pos + 1] == buf[..pos] + [buf[pos]];
        pos := pos + 1;
      }
      assert insert == |buf| ==> buf[..insert] == buf;
      D.FirstEndIs(buf, insert);
    }

    // -------------------------------------------------------------- growth

    /** Append one zeroed cluster to the directory. `None`, with nothing changed, when the heap is
        full. */
    method AppendCluster(tail: nat, ghost s: seq<nat>) returns (r: Option<nat>)
      requires Valid() && Ended(vol.Cells(), s) && tail == s[|s| - 1] && vol.InHeap(tail) &&
        AllUsed(s, vol.Used(), vol.count)
      modifies this`device, vol
      ensures Valid()
      ensures r.None? ==>
        ClearIn(vol.Used(), vol.count) == {} && vol.Used() == old(vol.Used()) &&
        vol.Cells() == old(vol.Cells()) && device == old(device)
      ensures r.Some? ==> r.value in ClearIn(old(vol.Used()), vol.count) && vol.Used() == old(vol.Used()) + {r.value}
      ensures r.Some? ==> vol.Cells() == Claimed'(old(vol.Cells()), Some(tail), r.value)
      ensures r.Some? ==>
        Zeroed(device, ClusterPlaces(a, r.value)) &&
        Elsewhere(old(device), device, ClusterPlaces(a, r.value)) && OnlyZeroed(old(device), device)
    {
      r := vol.FindFreeCluster();
      if r.Some? {
        var _ := vol.MarkAllocated(r.value);
        vol.WriteFatEntry(tail, r.value);
        vol.WriteFatEntry(r.value, FAT_EOC);
        ClusterOn(a, r.value, device, vol.count + 2);
        ghost var was := device;
        device := ZeroCluster(a, device, r.value);
        BackedStill(a, was, device, vol.count + 2);
      }
    }

    /** Write the links a contiguous directory never had; its last cluster is linked by the growth. */
    method LinkUp(clusters: seq<nat>)
      requires vol.Valid() && clusters != [] && Distinct(clusters) && InTable(vol.Cells(), clusters)
      modifies vol`fat
      ensures vol.Valid() && Ended(vol.Cells(), clusters) && |vol.Cells()| == |old(vol.Cells())|
      ensures forall c: nat :: c < |vol.Cells()| && c !in clusters ==> vol.Cells()[c] == old(vol.Cells())[c]
    {
      ghost var t := vol.Cells();
      for i := 0 to |clusters| - 1
        invariant vol.Valid() && Linking(t, vol.Cells(), clusters, i)
      {
        LinkingStep(t, vol.Cells(), clusters, i, Cell.Next(clusters[i + 1]));
        vol.WriteFatEntry(clusters[i], clusters[i + 1]);
      }
      LinkingStep(t, vol.Cells(), clusters, |clusters| - 1, Cell.End);
      Linked(t, vol.Cells()[clusters[|clusters| - 1] := Cell.End], clusters);
    }

    /** Append `extra` zeroed clusters to the chain. It fails exactly when fewer are clear, and then
        every clear cluster has been appended. `run` are the clusters appended. */
    method GrowBy(clusters: seq<nat>, extra: nat) returns (r: Result<seq<nat>>, ghost run: seq<nat>)
      requires Valid() && Ended(vol.Cells(), clusters) && AllUsed(clusters, vol.Used(), vol.count)
      modifies this`device, vol
      ensures Valid() && Grown(a, vol.count, clusters, run, old(Moment(device, vol.Used(), vol.Cells())),
        Moment(device, vol.Used(), vol.Cells()))
      ensures r.Ok? <==> extra <= |ClearIn(old(vol.Used()), vol.count)|
      ensures r.Ok? ==> |run| == extra && r.value == clusters + run
      ensures r.Err? ==>
        r.error == StorageFull && ClearIn(vol.Used(), vol.count) == {} &&
        |run| == |ClearIn(old(vol.Used()), vol.count)|
      ensures run == [] ==> vol.Cells() == old(vol.Cells())
    {
      ghost var m0 := Moment(device, vol.Used(), vol.Cells());
      var all := clusters;
      run := [];
      NothingGrown(a, vol.count, clusters, m0);
      for k := 0 to extra
        invariant Valid() && all == clusters + run && |run| == k
        invariant Grown(a, vol.count, clusters, run, m0, Moment(device, vol.Used(), vol.Cells()))
        invariant run == [] ==> vol.Cells() == m0.table
      {
        var c := GrowOne(all, clusters, run, m0);
        if c.None? {
          return Err(StorageFull), run;
        }
        all, run := all + [c.value], run + [c.value];
      }
      r := Ok(all);
    }

    /** Make the directory a chain and grow it. */
    method GrowDirectory(ext: DirExtent, clusters: seq<nat>, extra: nat)
        returns (r: Result<seq<nat>>, ghost run: seq<nat>)
      requires Valid() && Spans(ext, clusters, vol.Cells()) && AllUsed(clusters, vol.Used(), vol.count)
      modifies this`device, vol
      ensures Valid() && InHeap(run) && Distinct(clusters + run) && InTable(vol.Cells(), clusters + run)
      ensures Grew(clusters, old(vol.Used()), old(vol.Cells()), clusters + run, vol.Used(), vol.Cells(), vol.count)
      ensures Zeroed(device, ChainPlaces(a, run)) && Elsewhere(old(device), device, ChainPlaces(a, run))
      ensures r.Ok? <==> extra <= |ClearIn(old(vol.Used()), vol.count)|
      ensures r.Ok? ==>
        |run| == extra && r.value == clusters + run
      ensures run != [] ==> IsChain(vol.Cells(), clusters + run)
      ensures run == [] && !ext.noFatChain ==> vol.Cells() == old(vol.Cells())
      ensures r.Err? ==>
        r.error == StorageFull && ClearIn(vol.Used(), vol.count) == {} &&
        |run| == |ClearIn(old(vol.Used()), vol.count)|
    {
      ghost var t0 := vol.Cells();
      if ext.noFatChain {
        LinkUp(clusters);
      } else {
        ChainEnded(vol.Cells(), clusters);
      }
      ghost var t := vol.Cells();
      r, run := GrowBy(clusters, extra);
      GrewRelinked(clusters, old(vol.Used()), t0, t, clusters + run, vol.Used(), vol.Cells(), vol.count);
      EndedDistinct(vol.Cells(), clusters + run);
    }

    // -------------------------------------------------------------- entry sets

    /** Append an entry set at the first end marker, growing the directory by the clusters that are
        missing. It fails exactly when fewer clusters are clear; the stream is then unchanged, but
        every clear cluster has been claimed and linked to the directory's chain. `run` are the
        clusters added. */
    method AppendEntrySet(ext: DirExtent, set': FileSet, ghost s: seq<nat>) returns (r: Result<()>, ghost run: seq<nat>)
      requires Valid() && Spans(ext, s, vol.Cells()) && AllUsed(s, vol.Used(), vol.count) && SetFits(set') &&
        InHeap(s) && On(ChainPlaces(a, s), device)
      modifies this`device, vol
      ensures Valid() && Grew(s, old(vol.Used()), old(vol.Cells()), s + run, vol.Used(), vol.Cells(), vol.count)
      ensures InHeap(run) && InHeap(s + run) && On(ChainPlaces(a, s + run), device)
      ensures Elsewhere(old(device), device, ChainPlaces(a, s + run))
      ensures Spans(ext, Reached(ext, s, run), vol.Cells()) && AllUsed(Reached(ext, s, run), vol.Used(), vol.count)
      ensures run != [] ==> IsChain(vol.Cells(), s + run)
      ensures r.Err? ==>
        r.error == StorageFull && ClearIn(vol.Used(), vol.count) == {} &&
        |run| == |ClearIn(old(vol.Used()), vol.count)|
      ensures r.Ok? <==>
        Added(a, old(Contents(device, ChainPlaces(a, s))), |Encode(set')|) <= |ClearIn(old(vol.Used()), vol.count)|
      ensures r.Ok? ==> |run| == Added(a, old(Contents(device, ChainPlaces(a, s))), |Encode(set')|)
      ensures r.Ok? ==> Appended(old(Contents(device, ChainPlaces(a, s))), |ChainPlaces(a, run)|, set',
        Contents(device, ChainPlaces(a, s + run)))
      ensures r.Err? ==>
        Contents(device, ChainPlaces(a, s + run)) == old(Contents(device, ChainPlaces(a, s)))
        + Zeros(|ChainPlaces(a, run)|)
    {
      run := [];
      Opens(s);
      var collected := CollectClusters(ext, s);
      var clusters := collected.value;
      var buf := ReadStream(clusters);
      var insert := FindEnd(buf);
      var slots := Encode(set');
      if insert + |slots| <= |buf| {
        assert s + [] == s;
        PutSet(clusters, set', slots, insert, buf, 0);
        r := Ok(());
        GrewNothing(s, vol.Used(), vol.Cells(), vol.count);
      } else {
        r, run := AppendGrowing(ext, clusters, set', slots, insert, buf);
      }
    }

    /** The set does not fit in the stream. */
    method AppendGrowing(ext: DirExtent, s: seq<nat>, set': FileSet, slots: seq<Slot>, insert: nat, buf: seq<Slot>)
        returns (r: Result<()>, ghost run: seq<nat>)
      requires Valid() && Spans(ext, s, vol.Cells()) && AllUsed(s, vol.Used(), vol.count) && SetFits(set') &&
        InHeap(s) && On(ChainPlaces(a, s), device)
      requires slots == Encode(set') && buf == Contents(device, ChainPlaces(a, s)) && insert == D.FirstEnd(buf) &&
        insert + |slots| > |buf|
      modifies this`device, vol
      ensures Valid() && Grew(s, old(vol.Used()), old(vol.Cells()), s + run, vol.Used(), vol.Cells(), vol.count)
      ensures InHeap(run) && InHeap(s + run) && On(ChainPlaces(a, s + run), device)
      ensures Elsewhere(old(device), device, ChainPlaces(a, s + run))
      ensures Spans(ext, Reached(ext, s, run), vol.Cells()) && AllUsed(Reached(ext, s, run), vol.Used(), vol.count)
      ensures run != [] ==> IsChain(vol.Cells(), s + run)
      ensures r.Err? ==>
        r.error == StorageFull && ClearIn(vol.Used(), vol.count) == {} &&
        |run| == |ClearIn(old(vol.Used()), vol.count)|
      ensures r.Ok? <==> Missing(a, insert, |slots|, |buf|) <= |ClearIn(old(vol.Used()), vol.count)|
      ensures r.Ok? ==> |run| == Missing(a, insert, |slots|, |buf|)
      ensures r.Ok? ==> Appended(buf, |ChainPlaces(a, run)|, set', Contents(device, ChainPlaces(a, s + run)))
      ensures r.Err? ==> Contents(device, ChainPlaces(a, s + run)) == buf + Zeros(|ChainPlaces(a, run)|)
    {
      var grown: Result<seq<nat>>;
      grown, run := ExtendStream(ext, s, Missing(a, insert, |slots|, |buf|));
      if grown.Err? {
        return Err(StorageFull), run;
      }
      AddedEnough(a, insert, |slots|, |buf|, run);
      ghost var d := device;
      PutSet(grown.value, set', slots, insert, buf, |ChainPlaces(a, run)|);
      ElsewhereBoth(old(device), d, device, ChainPlaces(a, s + run));
      r := Ok(());
    }

    /** Write an encoded set at the stream's first end marker. */
    method PutSet(clusters: seq<nat>, set': FileSet, slots: seq<Slot>, insert: nat, ghost c: seq<Slot>, ghost more: nat)
      requires Valid() && InHeap(clusters) && On(ChainPlaces(a, clusters), device) && Apart(ChainPlaces(a, clusters))
      requires SetFits(set') && slots == Encode(set') && insert == D.FirstEnd(c) && insert + |slots| <= |c| + more
      requires Contents(device, ChainPlaces(a, clusters)) == c + Zeros(more)
      modifies this`device
      ensures Valid() && On(ChainPlaces(a, clusters), device) &&
        Appended(c, more, set', Contents(device, ChainPlaces(a, clusters)))
      ensures Elsewhere(old(device), device, ChainPlaces(a, clusters))
    {
      ghost var d, p := device, ChainPlaces(a, clusters);
      WrittenAs(d, p, insert, slots);
      WrittenBacked(a, d, p, insert, slots, vol.count + 2);
      SpanWithin(d, Written(d, p, insert, slots), p, insert, |slots|);
      var wrote := WriteStreamAt(clusters, insert, slots);
    }

    /** Grow the directory: its stream gains zeroed slots at the end. */
    method ExtendStream(ext: DirExtent, clusters: seq<nat>, extra: nat)
        returns (r: Result<seq<nat>>, ghost run: seq<nat>)
      requires Valid() && Spans(ext, clusters, vol.Cells()) && AllUsed(clusters, vol.Used(), vol.count) &&
        InHeap(clusters) && On(ChainPlaces(a, clusters), device)
      modifies this`device, vol
      ensures Valid() && Grew(clusters, old(vol.Used()), old(vol.Cells()), clusters + run, vol.Used(), vol.Cells(),
        vol.count)
      ensures InHeap(run) && InHeap(clusters + run) && On(ChainPlaces(a, clusters + run), device) &&
        Apart(ChainPlaces(a, clusters + run))
      ensures Spans(ext, Reached(ext, clusters, run), vol.Cells()) &&
        AllUsed(Reached(ext, clusters, run), vol.Used(), vol.count)
      ensures Contents(device, ChainPlaces(a, clusters + run)) == old(Contents(device, ChainPlaces(a, clusters)))
        + Zeros(|ChainPlaces(a, run)|)
      ensures Elsewhere(old(device), device, ChainPlaces(a, clusters + run))
      ensures r.Ok? <==> extra <= |ClearIn(old(vol.Used()), vol.count)|
      ensures r.Ok? ==>
        |run| == extra && r.value == clusters + run
      ensures run != [] ==> IsChain(vol.Cells(), clusters + run)
      ensures r.Err? ==>
        r.error == StorageFull && ClearIn(vol.Used(), vol.count) == {} &&
        |run| == |ClearIn(old(vol.Used()), vol.count)|
    {
      ghost var d, used0, t0 := device, vol.Used(), vol.Cells();
      r, run := GrowDirectory(ext, clusters, extra);
      ReachedSpans(ext, clusters, run, used0, t0, vol.Used(), vol.Cells(), vol.count);
      Opens(clusters + run);
      PlacesAfter(a, clusters, run);
      ContentsGrow(d, device, ChainPlaces(a, clusters), ChainPlaces(a, run));
      ElsewhereIn(d, device, ChainPlaces(a, clusters), ChainPlaces(a, run));
    }

    /** Locate a set by name in the stream. */
    method LocateEntrySet(ext: DirExtent, matches: seq<Unit16> -> bool, ghost s: seq<nat>)
        returns (r: Option<(nat, nat)>)
      requires Valid() && Spans(ext, s, vol.Cells()) && InHeap(s) && On(ChainPlaces(a, s), device)
      ensures r == D.LocateFrom(Contents(device, ChainPlaces(a, s)), 0, matches)
    {
      var clusters := CollectClusters(ext, s);
      var buf := ReadStream(clusters.value);
      r := LocateInBuffer(buf, matches);
    }

    /** Clear the in-use bit of every entry of the first set with a matching name. */
    method UnlinkEntrySet(ext: DirExtent, matches: seq<Unit16> -> bool, ghost s: seq<nat>) returns (r: Result<()>)
      requires Valid() && Spans(ext, s, vol.Cells()) && InHeap(s) && On(ChainPlaces(a, s), device) &&
        D.Tidy(Contents(device, ChainPlaces(a, s)))
      modifies this`device
      ensures Valid() && On(ChainPlaces(a, s), device) && Elsewhere(old(device), device, ChainPlaces(a, s))
      ensures D.Tidy(Contents(device, ChainPlaces(a, s)))
      ensures Unlinked(old(Contents(device, ChainPlaces(a, s))), Contents(device, ChainPlaces(a, s)), matches, r)
    {
      ghost var c := Contents(device, ChainPlaces(a, s));
      var loc := LocateEntrySet(ext, matches, s);
      D.LocateIsFirst(c, matches);
      if loc.None? {
        return Err(NotFound);
      }
      var collected := CollectClusters(ext, s);
      var clusters := collected.value;
      FoundWithin(c, loc.value.0, loc.value.1, matches);
      UnlinkedSo(c, loc.value.0, loc.value.1, matches, Mapped(D.Killed, Stretch(c, loc.value.0, loc.value.1)));
      Opens(s);
      KillAt(clusters, loc.value.0, loc.value.1);
      r := Ok(());
    }

    /** Clear the in-use bits of some slots of the stream. */
    method KillAt(clusters: seq<nat>, at: nat, n: nat)
      requires Valid() && InHeap(clusters) && On(ChainPlaces(a, clusters), device) && Apart(ChainPlaces(a, clusters))
      requires at + n <= |ChainPlaces(a, clusters)|
      modifies this`device
      ensures Valid() && On(ChainPlaces(a, clusters), device) &&
        Elsewhere(old(device), device, ChainPlaces(a, clusters))
      ensures Contents(device, ChainPlaces(a, clusters)) == Splice(old(Contents(device, ChainPlaces(a, clusters))), at,
        Mapped(D.Killed, Stretch(old(Contents(device, ChainPlaces(a, clusters))), at, n)))
    {
      var raw := ReadStreamAt(clusters, at, n);
      var killed := KillAll(raw.value);
      RewriteAt(clusters, at, killed);
    }

    /** Overwrite some slots of the stream. */
    method RewriteAt(clusters: seq<nat>, at: nat, slots: seq<Slot>)
      requires Valid() && InHeap(clusters) && On(ChainPlaces(a, clusters), device) && Apart(ChainPlaces(a, clusters))
      requires AllSized(slots) && at + |slots| <= |ChainPlaces(a, clusters)|
      modifies this`device
      ensures Valid() && On(ChainPlaces(a, clusters), device) &&
        Elsewhere(old(device), device, ChainPlaces(a, clusters))
      ensures Contents(device, ChainPlaces(a, clusters))
        == Splice(old(Contents(device, ChainPlaces(a, clusters))), at, slots)
    {
      ghost var d, p := device, ChainPlaces(a, clusters);
      WrittenAs(d, p, at, slots);
      WrittenBacked(a, d, p, at, slots, vol.count + 2);
      SpanWithin(d, Written(d, p, at, slots), p, at, |slots|);
      var wrote := WriteStreamAt(clusters, at, slots);
    }

    /** After growing a sub-directory, rewrite its own entry in the parent directory: it is longer by
        `added` bytes and no longer contiguous. */
    method PatchAfterGrowth(ext: DirExtent, at: nat, len: nat, added: nat, ghost s: seq<nat>, ghost e: D.Found)
        returns (r: Result<()>)
      requires Valid() && Spans(ext, s, vol.Cells()) && InHeap(s) && On(ChainPlaces(a, s), device) &&
        D.Tidy(Contents(device, ChainPlaces(a, s)))
      requires e in D.ReadSet(Contents(device, ChainPlaces(a, s))) && at == e.first && len == e.len
      requires e.entry.stream.dataLength + added <= U64_MAX
      modifies this`device
      ensures Valid() && On(ChainPlaces(a, s), device) && Elsewhere(old(device), device, ChainPlaces(a, s))
      ensures r == Ok(()) && D.Tidy(Contents(device, ChainPlaces(a, s)))
      ensures D.ReadSet(Contents(device, ChainPlaces(a, s))) ==
              old(D.ReadSet(Contents(device, ChainPlaces(a, s)))) - {e}
                + {Placed(e.entry.(stream := Lengthened(e.entry.stream, added)), e.first, e.len)}
    {
      ghost var c := Contents(device, ChainPlaces(a, s));
      ghost var was := D.ListedSet(c, e);
      SetRoundTrip(was, []);
      assert Encode(was) + [] == Encode(was);
      var collected := CollectClusters(ext, s);
      var clusters := collected.value;
      var raw := ReadStreamAt(clusters, at, len);
      var decoded := Decode(raw.value);
      if decoded.None? {
        return Err(Corrupt);
      }
      var patched := decoded.value.0.(stream := Lengthened(decoded.value.0.stream, added));
      Opens(s);
      PatchedListed(c, e, was, added);
      RewriteAt(clusters, at, Encode(patched));
      r := Ok(());
    }

    method GrowOne(all: seq<nat>, ghost s: seq<nat>, ghost run: seq<nat>, ghost m0: Moment) returns (r: Option<nat>)
      requires Valid() && all == s + run && Grown(a, vol.count, s, run, m0, Moment(device, vol.Used(), vol.Cells()))
      modifies this`device, vol
      ensures Valid()
      ensures r.None? ==>
        ClearIn(vol.Used(), vol.count) == {} &&
        Moment(device, vol.Used(), vol.Cells()) == old(Moment(device, vol.Used(), vol.Cells()))
      ensures r.Some? ==> all + [r.value] == s + (run + [r.value])
      ensures r.Some? ==> Grown(a, vol.count, s, run + [r.value], m0, Moment(device, vol.Used(), vol.Cells()))
    {
      ghost var m := Moment(device, vol.Used(), vol.Cells());
      GrownTail(a, vol.count, s, run, m0, m);
      r := AppendCluster(all[|all| - 1], all);
      if r.Some? {
        GrownPush(a, vol.count, s, run, m0, m, r.value, Moment(device, vol.Used(), vol.Cells()));
      }
    }
  }

  /** `set_no_fat_chain(false)` and both lengths: what growth does to a directory's stream
      extension. */
  function Lengthened(st: Stream, added: nat): Stream {
    st.(flags := if st.flags / 2 % 2 == 1 then st.flags - 2
      else st.flags, validLength := st.dataLength + added, dataLength := st.dataLength + added)
  }

  /** Only `NoFatChain`, bit 1, is cleared, and both lengths become the allocated one. */
  lemma LengthenedExactly(st: Stream, added: nat, n: nat)
    requires n > 1
    ensures var now := Lengthened(st, added);
      && ToBits(now.flags, n) == ToBits(st.flags, n)[1 := false]
      && now.dataLength == now.validLength == st.dataLength + added
      && now == st.(flags := now.flags, dataLength := now.dataLength, validLength := now.validLength)
  {
    var low: nat := if st.flags / 2 % 2 == 1 then st.flags - 2 else st.flags;
    BitOne(low, n);
  }

  /** The rewritten set is listed in place of the old one. */
  lemma PatchedListed(c: seq<Slot>, e: D.Found, was: FileSet, added: nat)
    requires D.Tidy(c) && e in D.ReadSet(c) && D.Listable(was) && D.EntryOf(was) == e.entry && |Encode(was)| == e.len
    requires was.stream.dataLength + added <= U64_MAX
    ensures var now := was.(stream := Lengthened(was.stream, added));
      && SetFits(now) && |Encode(now)| == e.len && e.first + e.len <= |c|
      && D.Tidy(Splice(c, e.first, Encode(now)))
      && D.ReadSet(Splice(c, e.first, Encode(now))) == D.ReadSet(c) - {e}
        + {Placed(e.entry.(stream := Lengthened(e.entry.stream, added)), e.first, e.len)}
  {
    var now := was.(stream := Lengthened(was.stream, added));
    EntryPatched(was, added);
    D.TidyUpdate(c, e, now);
  }

  lemma EntryPatched(was: FileSet, added: nat)
    requires D.Listable(was) && was.stream.dataLength + added <= U64_MAX
    ensures var now := was.(stream := Lengthened(was.stream, added));
      && D.Listable(now) && |Encode(now)| == |Encode(was)| &&
        D.EntryOf(now) == D.EntryOf(was).(stream := Lengthened(D.EntryOf(was).stream, added))
  {
  }

  /** Whether an unlink did what it should: with no entry of that name nothing changes; otherwise the
      first one listed under it, and only that one, is gone. The first end marker stays where it is. */
  ghost predicate Unlinked(c: seq<Slot>, now: seq<Slot>, matches: seq<Unit16> -> bool, r: Result<()>) {
    && D.FirstEnd(now) == D.FirstEnd(c)
    && if r.Err? then r.error == NotFound && now == c && forall e :: e in D.ReadSet(c) ==> !matches(e.entry.name)
       else exists e :: D.IsFirst(c, e, matches) && D.ReadSet(now) == D.ReadSet(c) - {e}
  }

  lemma FoundWithin(c: seq<Slot>, at: nat, n: nat, matches: seq<Unit16> -> bool)
    requires D.Tidy(c) && D.LocateFrom(c, 0, matches) == Some((at, n))
    ensures n > 0 && at + n <= |c|
  {
    D.LocateIsFirst(c, matches);
    var e :| D.IsFirst(c, e, matches) && (at, n) == (e.first, e.len);
    D.TidyUnlink(c, e);
  }

  lemma UnlinkedSo(c: seq<Slot>, at: nat, n: nat, matches: seq<Unit16> -> bool, killed: seq<Slot>)
    requires D.Tidy(c) && D.LocateFrom(c, 0, matches) == Some((at, n)) && at + n <= |c| &&
      killed == Mapped(D.Killed, Stretch(c, at, n))
    ensures at + |killed| <= |c| && D.Tidy(Splice(c, at, killed)) && Unlinked(c, Splice(c, at, killed), matches, Ok(()))
  {
    D.LocateIsFirst(c, matches);
    var e :| D.IsFirst(c, e, matches) && (at, n) == (e.first, e.len);
    D.TidyUnlink(c, e);
    assert Splice(c, at, killed) == Struck(c, e.first, e.len, D.Killed);
  }

  method KillAll(slots: seq<Slot>) returns (r: seq<Slot>)
    requires AllSized(slots)
    ensures r == Mapped(D.Killed, slots) && AllSized(r)
  {
    r := [];
    for i := 0 to |slots|
      invariant |r| == i && AllSized(r) && r + Mapped(D.Killed, slots[i..]) == Mapped(D.Killed, slots)
    {
      r := r + [D.Killed(slots[i])];
    }
  }

  /** `DirEntryDecoder`: yields the entry sets of a buffer one by one. */
  class DirEntryDecoder {
    const buf: seq<Slot>
    var pos: nat

    ghost predicate Valid()
      reads this
    {
      pos <= |buf| && AllSized(buf)
    }

    ghost function Rest(): seq<D.Found>
      requires Valid()
      reads this
    {
      D.ReadFrom(buf[pos..], pos)
    }

    constructor (buf: seq<Slot>)
      requires AllSized(buf)
      ensures Valid() && this.buf == buf && Rest() == D.ReadFrom(buf, 0)
    {
      this.buf, pos := buf, 0;
      new;
      assert buf[0..] == buf;
    }

    /** The next entry: exactly the next one the buffer lists. */
    method Next() returns (r: Option<D.ExEntry>, ghost found: Option<D.Found>)
      requires Valid()
      modifies this
      ensures Valid() && old(Rest()) == (if found.Some? then [found.value] else []) + Rest()
      ensures found.None? ==> old(Rest()) == []
      ensures r == if found.Some? then Some(found.value.entry) else None
    {
      while pos < |buf|
        invariant Valid() && Rest() == old(Rest())
      {
        var ty := buf[pos][0];
        assert buf[pos..][1..] == buf[pos + 1..];
        if ty == END_OF_DIRECTORY {
          return None, None;
        }
        if ty == TYPE_FILE {
          var set' := D.TryDecode(buf[pos..]);
          if set'.Some? {
            var (e, n) := set'.value;
            assert buf[pos..][n..] == buf[pos + n..];
            found := Some(Placed(e, pos, n));
            pos := pos + n;
            return Some(e), found;
          }
        }
        pos := pos + 1;
      }
      r, found := None, None;
    }
  }

  /** The first entry of a stretch of slots, decoded by itself. */
  method FirstOf(stretch: seq<Slot>) returns (first: Option<D.ExEntry>)
    requires AllSized(stretch)
    ensures first == D.FirstEntry(stretch)
  {
    var decoder := new DirEntryDecoder(stretch);
    ghost var found;
    first, found := decoder.Next();
  }

  /** One step of the search. */
  lemma LocateStep(buf: seq<Slot>, pos: nat, n: nat, next: nat, matches: seq<Unit16> -> bool,
      first: seq<Slot> -> Option<D.ExEntry>)
    requires AllSized(buf) && pos < |buf| && n == 1 + CountOf(buf[pos]) && next == pos + n
    ensures buf[pos][0] == END_OF_DIRECTORY ==> D.LocateWith(buf[pos..], pos, matches, first) == None
    ensures buf[pos][0] != END_OF_DIRECTORY &&
            (buf[pos][0] != TYPE_FILE || next > |buf| || first(buf[pos..next]) == None) ==>
              D.LocateWith(buf[pos..], pos, matches, first) == D.LocateWith(buf[pos + 1..], pos + 1, matches, first)
    ensures buf[pos][0] == TYPE_FILE && next <= |buf| && first(buf[pos..next]).Some? ==>
              D.LocateWith(buf[pos..], pos, matches, first) == if matches(first(buf[pos..next]).value.name)
                then Some((pos, n)) else D.LocateWith(buf[next..], next, matches, first)
  {
    var rest := buf[pos..];
    assert rest[0] == buf[pos] && rest[1..] == buf[pos + 1..];
    if next <= |buf| {
      assert rest[..n] == buf[pos..next] && rest[n..] == buf[next..];
    }
  }

  /** Search a buffer for the first set with a matching name. */
  method LocateInBuffer(buf: seq<Slot>, matches: seq<Unit16> -> bool) returns (r: Option<(nat, nat)>)
    requires AllSized(buf)
    ensures r == D.LocateFrom(buf, 0, matches)
  {
    var pos: nat := 0;
    ghost var first := D.FirstEntry;
    assert buf[0..] == buf;
    while pos < |buf|
      invariant pos <= |buf| && D.LocateWith(buf[pos..], pos, matches, first) == D.LocateFrom(buf, 0, matches)
    {
      var ty := buf[pos][0];
      var n: nat := 1 + CountOf(buf[pos]);
      var next := pos + n;
      LocateStep(buf, pos, n, next, matches, first);
      if ty == END_OF_DIRECTORY {
        return None;
      }
      if ty == TYPE_FILE && next <= |buf| {
        var entry := FirstOf(buf[pos..next]);
        if entry.Some? {
          if matches(entry.value.name) {
            return Some((pos, n));
          }
          pos := next;
          continue;
        }
      }
      pos := pos + 1;
    }
    r := None;
  }

  /** The clusters the extent, not rewritten yet, leads to after `run` was appended: a contiguous one
      still only to those it had. */
  function Reached(ext: DirExtent, s: seq<nat>, run: seq<nat>): seq<nat> { if ext.noFatChain then s else s + run }

  lemma ReachedSpans(ext: DirExtent, s: seq<nat>, run: seq<nat>, used0: set<nat>, t0: Table, used: set<nat>, t: Table,
      count: nat)
    requires Spans(ext, s, t0) && AllUsed(s, used0, count) && Grew(s, used0, t0, s + run, used, t, count)
    requires Distinct(s + run) && InTable(t, s + run) && (run != [] ==> IsChain(t, s + run))
    requires run == [] && !ext.noFatChain ==> t == t0
    ensures Spans(ext, Reached(ext, s, run), t) && AllUsed(Reached(ext, s, run), used, count)
  {
    if run == [] {
      assert s + run == s;
    }
    forall i | 0 <= i < |s + run|
      ensures 2 <= (s + run)[i] <= count + 1 && (s + run)[i] in used
    {
      if i >= |s| {
        assert (s + run)[|s|..][i - |s|] == (s + run)[i];
      }
    }
    forall i | 0 <= i < |s|
      ensures IsData(t, s[i])
    {
      assert (s + run)[i] == s[i];
    }
  }

  /** How many clusters an append adds. */
  function Added(a: Area, c: seq<Slot>, n: nat): nat
    requires a.perCluster > 0
  {
    AddedAt(a, D.FirstEnd(c), n, |c|)
  }

  /** The same, for a set of `n` slots at slot `at` of `len`. */
  function AddedAt(a: Area, at: nat, n: nat, len: nat): nat
    requires a.perCluster > 0
  {
    if at + n <= len then 0 else Missing(a, at, n, len)
  }

  /** The clusters `n` slots at slot `at` need beyond the `len` slots there are. */
  function Missing(a: Area, at: nat, n: nat, len: nat): nat
    requires a.perCluster > 0 && at + n >= len
  {
    DivCeil(at + n - len, a.perCluster)
  }

  /** The directory stream after an append that added `more` zeroed slots. */
  function AppendedTo(c: seq<Slot>, more: nat, set': FileSet): seq<Slot>
    requires SetFits(set') && D.FirstEnd(c) + |Encode(set')| <= |c| + more
  {
    Splice(c + Zeros(more), D.FirstEnd(c), Encode(set'))
  }

  ghost predicate Appended(c: seq<Slot>, more: nat, set': FileSet, now: seq<Slot>)
    requires SetFits(set')
  {
    D.FirstEnd(c) + |Encode(set')| <= |c| + more && now == AppendedTo(c, more, set')
  }

  /** An append on a well-formed stream: the listing gains exactly the new entry, at the first end
      marker, and everything after it is still an end marker. */
  lemma AppendListed(c: seq<Slot>, more: nat, set': FileSet)
    requires D.Tidy(c) && D.Listable(set') && D.FirstEnd(c) + |Encode(set')| <= |c| + more
    ensures D.Tidy(AppendedTo(c, more, set'))
    ensures D.ReadSet(AppendedTo(c, more, set')) == D.ReadSet(c)
      + {Placed(D.EntryOf(set'), D.FirstEnd(c), |Encode(set')|)}
  {
    ZerosEnd(more);
    D.TidyGrow(c, Zeros(more));
    D.TidyAppend(c + Zeros(more), set', D.FirstEnd(c));
  }

  lemma ZerosEnd(n: nat)
    ensures Each(Zeros(n), Sized) && EndsFrom(Zeros(n), 0, D.IsEnd)
  {
  }

  /** What was added is enough. */
  lemma AddedEnough(a: Area, at: nat, n: nat, len: nat, run: seq<nat>)
    requires a.perCluster > 0 && InHeap(run) && at + n >= len && |run| == Missing(a, at, n, len)
    ensures at + n <= len + |ChainPlaces(a, run)|
  {
    ChainPlace(a, run, 0);
    DivCeilCovers(at + n - len, a.perCluster);
  }

  /** The state growth works on. */
  datatype Moment = Moment(device: Device, used: set<nat>, table: Table)

  /** Between two moments the directory's chain grew from `s` to `s + run`: the new clusters were
      clear and are now used, zeroed and linked; nothing else changed. */
  ghost predicate Grown(a: Area, count: nat, s: seq<nat>, run: seq<nat>, m0: Moment, m: Moment) {
    && Grew(s, m0.used, m0.table, s + run, m.used, m.table, count) && Ended(m.table, s + run) &&
      AllUsed(s, m0.used, count)
    && (run != [] ==> IsChain(m.table, s + run))
    && InHeap(run) && Zeroed(m.device, ChainPlaces(a, run)) && Elsewhere(m0.device, m.device, ChainPlaces(a, run))
    && |ClearIn(m.used, count)| + |run| == |ClearIn(m0.used, count)|
  }

  lemma EndedDistinct(t: Table, s: seq<nat>)
    requires Ended(t, s)
    ensures Distinct(s) && InTable(t, s)
  {
    ChainDistinct(t[s[|s| - 1] := Cell.End], s);
  }

  lemma WrittenBacked(a: Area, d: Device, p: seq<SlotPos>, f: nat, slots: seq<Slot>, clusters: nat)
    requires Backed(a, d, clusters) && On(p, d) && f + |slots| <= |p| && AllSized(slots)
    ensures Backed(a, Written(d, p, f, slots), clusters)
    decreases |slots|
  {
    if slots != [] {
      WrittenBacked(a, d[p[f].offset := slots[0]], p, f + 1, slots[1..], clusters);
    }
  }

  lemma ChainEnded(t: Table, s: seq<nat>)
    requires IsChain(t, s)
    ensures Ended(t, s)
  {
    ChainCells(t, s);
    assert ChainCell(t, s, |s| - 1);
    assert t[s[|s| - 1] := Cell.End] == t;
  }

  lemma GrewRelinked(s0: seq<nat>, used0: set<nat>, t0: Table, t: Table, s: seq<nat>, used: set<nat>, t': Table,
      count: nat)
    requires Grew(s0, used0, t, s, used, t', count) && |t| == |t0| && forall c: nat :: c < |t0| && c !in s0 ==>
      t[c] == t0[c]
    ensures Grew(s0, used0, t0, s, used, t', count)
  {
    assert forall c :: c in s0 ==> c in s;
  }

  lemma NothingGrown(a: Area, count: nat, s: seq<nat>, m: Moment)
    requires Ended(m.table, s) && AllUsed(s, m.used, count)
    ensures Grown(a, count, s, [], m, m)
  {
    assert s + [] == s;
  }

  /** The tail the next cluster is linked from. */
  lemma GrownTail(a: Area, count: nat, s: seq<nat>, run: seq<nat>, m0: Moment, m: Moment)
    requires Grown(a, count, s, run, m0, m)
    ensures AllUsed(s + run, m.used, count)
  {
    forall i | 0 <= i < |s + run|
      ensures 2 <= (s + run)[i] <= count + 1 && (s + run)[i] in m.used
    {
      if i >= |s| {
        assert (s + run)[|s|..][i - |s|] == (s + run)[i];
      }
    }
  }

  /** Claiming one more cluster. */
  lemma GrownPush(a: Area, count: nat, s: seq<nat>, run: seq<nat>, m0: Moment, m: Moment, c: nat, m': Moment)
    requires Grown(a, count, s, run, m0, m) && c in ClearIn(m.used, count) && m'.used == m.used + {c} && c < |m.table|
    requires m'.table == Claimed'(m.table, Some((s + run)[|s + run| - 1]), c)
    requires Zeroed(m'.device, ClusterPlaces(a, c)) && Elsewhere(m.device, m'.device, ClusterPlaces(a, c)) &&
      OnlyZeroed(m.device, m'.device)
    ensures Grown(a, count, s, run + [c], m0, m')
  {
    GrownTail(a, count, s, run, m0, m);
    var all := s + run;
    assert all + [c] == s + (run + [c]);
    EndedPush(m.table, all, c);
    GrewPush(s, m0.used, m0.table, all, m.used, m.table, c, m'.used, m'.table, count);
    assert ClearIn(m'.used, count) == ClearIn(m.used, count) - {c};
    StaysZeroed(m.device, m'.device, ChainPlaces(a, run));
    OnePlace(a, c);
    PlacesAfter(a, run, [c]);
    ZeroedBoth(m'.device, ChainPlaces(a, run), ClusterPlaces(a, c));
    ElsewhereThen(m0.device, m.device, m'.device, ChainPlaces(a, run), ClusterPlaces(a, c));
  }

  lemma EndedPush(t: Table, s: seq<nat>, c: nat)
    requires Ended(t, s) && IsData(t, c) && c !in s
    ensures Ended(Claimed'(t, Some(s[|s| - 1]), c), s + [c]) && IsChain(Claimed'(t, Some(s[|s| - 1]), c), s + [c])
  {
    var last := s[|s| - 1];
    ChainPush(t[last := Cell.End], s, c);
    assert Claimed'(t[last := Cell.End], Some(last), c) == Claimed'(t, Some(last), c);
    var u, s' := Claimed'(t, Some(last), c), s + [c];
    assert u[c := Cell.End] == u;
    ChainCells(u, s');
  }

  /** The chain `s` but for its end marker. */
  ghost predicate Ended(t: Table, s: seq<nat>) {
    s != [] && InTable(t, s) && IsChain(t[s[|s| - 1] := Cell.End], s)
  }

  lemma SpansBounded(ext: DirExtent, s: seq<nat>, t: Table)
    ensures Spans(ext, s, t) ==> 0 < |s| && |s| <= |t| - 2 && s[0] == ext.first
  {
    if Spans(ext, s, t) {
      assert IsData(t, s[0]);
      DistinctBounded(s, 2, |t|);
    }
  }

  /** What follows cluster `i` of the directory. */
  lemma SpansStep(ext: DirExtent, s: seq<nat>, t: Table, i: nat)
    ensures Spans(ext, s, t) && i < |s| && !ext.noFatChain ==>
      s[i] < |t| &&
      NextOf(t[s[i]]) == if i + 1 < |s| then Some(s[i + 1]) else None
    ensures Spans(ext, s, t) && i + 1 < |s| && ext.noFatChain ==> s[i + 1] == s[i] + 1 < |t|
  {
    if Spans(ext, s, t) && i < |s| && !ext.noFatChain {
      assert ChainCell(t, s, i);
    }
  }

  /** A slot of the stream: its place, and the row of places to the end of its cluster. */
  lemma PlacedAt(a: Area, s: seq<nat>, at: nat)
    requires InHeap(s) && a.perCluster > 0
    ensures Unit(at, a.perCluster) < |s| <==> at < |ChainPlaces(a, s)|
    ensures at < |ChainPlaces(a, s)| ==> InARow(ChainPlaces(a, s), at, a.perCluster - Within(at, a.perCluster))
  {
    var n, p := a.perCluster, ChainPlaces(a, s);
    var u, w := Unit(at, n), Within(at, n);
    ChainPlace(a, s, at);
    UnitsOf(at, u, n);
    if u < |s| {
      UnitsMono(u + 1, |s|, n);
      forall k | 0 <= k < n - w
        ensures OffsetAt(p, at, k) == OffsetAt(p, at, 0) + SLOT_SIZE * k
      {
        OffsetInRow(a, s, at, k);
      }
    } else {
      UnitsMono(|s|, u, n);
    }
  }

  lemma OffsetInRow(a: Area, s: seq<nat>, at: nat, k: nat)
    requires InHeap(s) && a.perCluster > 0 && at + k < |ChainPlaces(a, s)|
    requires Within(at, a.perCluster) + k < a.perCluster
    ensures OffsetAt(ChainPlaces(a, s), at, k) == OffsetAt(ChainPlaces(a, s), at, 0) + SLOT_SIZE * k
  {
    ChainPlace(a, s, at);
    ChainPlace(a, s, at + k);
    UnitsOf(at, Unit(at, a.perCluster), a.perCluster);
    UnitsOf(at + k, Unit(at, a.perCluster), a.perCluster);
  }
}
