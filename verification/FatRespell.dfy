/** Respelling an entry of a FAT directory in place (src/vfs/engine.rs, the case-only branch of
    `rename`, over src/fat/directory.rs and src/fat/entry_io.rs): the entry's slots are marked
    deleted, the new spelling is inserted, and if that fails the old one is. When the entry survives,
    in terms of the slots and clusters there are before the call. */
module FatRespells {
  import opened Basics
  import opened FatTables
  import opened FatSlots
  import opened SlotBlocks
  import opened SlotPlaces
  import opened FatDirectories
  import SN = ShortNames
  import D = FatDirShape
  import L = LfnParser

  // ---------------------------------------------------------------- room

  /** Slot `i` may be written: it is free, or one of the `len` slots from `f` on that the entry being
      respelt gives up. */
  predicate Open(c: seq<Slot>, f: nat, len: nat, i: nat)
    requires i < |c|
  {
    D.Free(c[i]) || f <= i < f + len
  }

  ghost predicate AllOpen(c: seq<Slot>, f: nat, len: nat, g: nat, n: nat) {
    g + n <= |c| && forall i :: g <= i < g + n ==> Open(c, f, len, i)
  }

  /** Some `n` slots in a row of the first 65535 may be written. */
  ghost predicate HasRun(c: seq<Slot>, f: nat, len: nat, n: nat) {
    exists g: nat :: g + n <= MAX_SCAN && AllOpen(c, f, len, g, n)
  }

  /** How many of the first `m` slots may be written at their end. */
  function TailRun(c: seq<Slot>, f: nat, len: nat, m: nat): (k: nat)
    requires m <= |c|
    ensures k <= m
  {
    if m == 0 || !Open(c, f, len, m - 1) then 0 else 1 + TailRun(c, f, len, m - 1)
  }

  /** `n` slots find room: in a run there is, or after growing the directory by no more than `free`
      clusters. */
  ghost predicate HasRoom(a: Area, dir: FatDir, c: seq<Slot>, f: nat, len: nat, n: nat, free: nat)
    requires a.perCluster > 0
  {
    var tail := TailRun(c, f, len, |c|);
    HasRun(c, f, len, n) || (dir.Clusters? && |c| <= MAX_SCAN && tail < n && Extra(a, n, tail) <= free)
  }

  /** The slots that may be written are the free ones once the entry is deleted. */
  lemma StruckOpen(c: seq<Slot>, f: nat, len: nat, i: nat)
    requires AllSized(c) && f + len <= |c| && i < |c|
    ensures D.Free(Struck(c, f, len, D.Killed)[i]) <==> Open(c, f, len, i)
  {
    var part := Stretch(c, f, len);
    if f <= i < f + len {
      assert Struck(c, f, len, D.Killed)[i] == Mapped(D.Killed, part)[i - f];
      MappedAt(D.Killed, part, i - f);
    }
  }

  lemma {:induction false} TailEnds(c: seq<Slot>, f: nat, len: nat, m: nat, k: nat)
    requires AllSized(c) && f + len <= |c| && m <= |c| && EndsAt(Struck(c, f, len, D.Killed), m, k)
    ensures TailRun(c, f, len, m) == k
  {
    var s := Struck(c, f, len, D.Killed);
    if m == 0 {
    } else {
      StruckOpen(c, f, len, m - 1);
      if k == 0 {
        assert !D.Free(s[m - 1]);
      } else {
        assert D.Free(s[m - 1]);
        assert EndsAt(s, m - 1, k - 1);
        TailEnds(c, f, len, m - 1, k - 1);
      }
    }
  }

  lemma RunStruck(c: seq<Slot>, f: nat, len: nat, g: nat, n: nat)
    requires AllSized(c) && f + len <= |c|
    ensures AllFree(Struck(c, f, len, D.Killed), g, n) <==> AllOpen(c, f, len, g, n)
  {
    forall i | g <= i < g + n && g + n <= |c|
      ensures D.Free(Struck(c, f, len, D.Killed)[i]) <==> Open(c, f, len, i)
    {
      StruckOpen(c, f, len, i);
    }
  }

  /** By how many clusters the directory must grow to take `n` slots. */
  ghost function Growth(a: Area, c: seq<Slot>, f: nat, len: nat, n: nat): nat
    requires a.perCluster > 0 && n > 0
  {
    if HasRun(c, f, len, n) then 0 else Extra(a, n, Min(TailRun(c, f, len, |c|), n - 1))
  }

  /** An insert into the directory without the entry finds room exactly when there is, and then adds
      exactly the clusters it must grow by. */
  lemma RoomExactly(a: Area, dir: FatDir, c: seq<Slot>, f: nat, len: nat, p: seq<SlotPos>, n: nat, free: seq<nat>)
    requires a.perCluster > 0 && AllSized(c) && |c| == |p| && p != [] && f + len <= |c| && n > 0
    ensures var scan := ScanFrom(Struck(c, f, len, D.Killed), p, n, 0, None, 0);
      Taken(a, dir, scan, n, free) != [] || scan.Room? <==> HasRoom(a, dir, c, f, len, n, |free|)
    ensures HasRoom(a, dir, c, f, len, n, |free|) ==>
      |Taken(a, dir, ScanFrom(Struck(c, f, len, D.Killed), p, n, 0, None, 0), n, free)| == Growth(a, c, f, len, n)
  {
    var s := Struck(c, f, len, D.Killed);
    var scan := ScanFrom(s, p, n, 0, None, 0);
    var at := ScanFinds(s, p, n, 0, None, 0);
    match scan {
      case Room(first) =>
        RunStruck(c, f, len, at, n);
        assert AllOpen(c, f, len, at, n);
      case NoneLeft(last, start, k) =>
        TailEnds(c, f, len, |c|, k);
        NoRunStruck(c, f, len, n, |p|);
        DivCeilLeast(n - k, a.perCluster, 0);
      case Capped =>
        NoRunStruck(c, f, len, n, MAX_SCAN);
    }
  }

  lemma NoRunStruck(c: seq<Slot>, f: nat, len: nat, n: nat, end: nat)
    requires AllSized(c) && f + len <= |c| && NoRoom(Struck(c, f, len, D.Killed), n, end)
    requires end == MAX_SCAN || end == |c|
    ensures !HasRun(c, f, len, n)
  {
    forall g: nat | g + n <= MAX_SCAN
      ensures !AllOpen(c, f, len, g, n)
    {
      RunStruck(c, f, len, g, n);
    }
  }

  /** There is room exactly when the directory need not grow, or can grow by that much. */
  lemma GrowthFits(a: Area, dir: FatDir, c: seq<Slot>, f: nat, len: nat, n: nat, free: nat)
    requires a.perCluster > 0 && n > 0
    ensures HasRoom(a, dir, c, f, len, n, free) <==>
      Growth(a, c, f, len, n) == 0 ||
      (dir.Clusters? && |c| <= MAX_SCAN && Growth(a, c, f, len, n) <= free)
  {
    var tail := TailRun(c, f, len, |c|);
    TailOpen(c, f, len, |c|);
    assert |c| <= MAX_SCAN && n <= tail ==> AllOpen(c, f, len, |c| - n, n);
    var short: nat := n - Min(tail, n - 1);
    DivCeilLeast(short, a.perCluster, 0);
  }

  lemma {:induction false} TailOpen(c: seq<Slot>, f: nat, len: nat, m: nat)
    requires m <= |c|
    ensures AllOpen(c, f, len, m - TailRun(c, f, len, m), TailRun(c, f, len, m))
  {
    if m == 0 || !Open(c, f, len, m - 1) {
    } else {
      TailOpen(c, f, len, m - 1);
    }
  }

  /** A spelling that needs no more slots than the entry has always finds room. */
  lemma OwnSlotsSuffice(a: Area, dir: FatDir, c: seq<Slot>, f: nat, len: nat, n: nat, free: nat)
    requires a.perCluster > 0 && f + len <= |c| && f + len <= MAX_SCAN && n <= len
    ensures HasRoom(a, dir, c, f, len, n, free)
  {
    assert AllOpen(c, f, len, f, n);
  }

  /** In a directory without a free slot that cannot grow, a spelling that needs more slots than the
      entry has finds none. */
  lemma FullHasNoRoom(a: Area, dir: FatDir, c: seq<Slot>, f: nat, len: nat, n: nat, free: nat)
    requires a.perCluster > 0 && len < n && (dir.FixedRoot? || free == 0)
    requires forall i :: 0 <= i < |c| ==> !D.Free(c[i])
    ensures !HasRoom(a, dir, c, f, len, n, free)
  {
    forall g: nat | g + n <= |c|
      ensures !AllOpen(c, f, len, g, n)
    {
      if f <= g < f + len {
        assert !Open(c, f, len, g + n - 1);
      } else {
        assert !Open(c, f, len, g);
      }
    }
    DivCeilLeast(n - Min(TailRun(c, f, len, |c|), n), a.perCluster, 0);
  }

  // ---------------------------------------------------------------- respelling

  /** The listing after an attempt to insert `p`: one entry more, or as before. */
  ghost predicate Gained(was: set<L.Found>, now: set<L.Found>, ok: bool, p: Props)
    requires Composable(p)
  {
    if ok then exists at :: now == was + {Placed(D.EntryOf(p), at, |Compose(p)|)} else now == was
  }

  /** Insert an entry and account for the listing. */
  method InsertListed(d: FatDirectory, p: Props, dir: FatDir, ghost q: seq<SlotPos>)
      returns (r: Result<SlotChain>, ghost q': seq<SlotPos>)
    requires d.Valid() && d.Laid(dir, q) && On(q, d.device) && Composable(p) && D.Tidy(Contents(d.device, q))
    modifies d`device, d.fs
    ensures d.Laid(dir, q') && On(q', d.device) && D.Tidy(Contents(d.device, q'))
    ensures Gained(old(D.ReadSet(Contents(d.device, q))), D.ReadSet(Contents(d.device, q')), r.Ok?, p)
    ensures q != []
    ensures r.Ok? <==>
      var scan := ScanFrom(old(Contents(d.device, q)), q, |Compose(p)|, 0, None, 0);
      Taken(d.a, dir, scan, |Compose(p)|, old(FreeFrom(d.fs.Cells(), 2))) != [] || scan.Room?
    ensures r.Err? ==> d.Valid() && q' == q && d.device == old(d.device) && d.fs.Cells() == old(d.fs.Cells())
    ensures r.Err? ==> r.error in {StorageFull, RootDirectoryFull}
  {
    ghost var c := Contents(d.device, q);
    d.LaidApart(dir, q);
    ghost var scan, run, f;
    r, scan, run, f, q' := d.InsertEntry(p, dir, q);
    if r.Ok? {
      InsertedInto(c, |ChainPlaces(d.a, run)|, p, f);
    } else {
      assert q' == q;
      d.LaidApart(dir, q);
    }
  }

  lemma KillBacked(a: Area, d: Device, p: seq<SlotPos>, f: nat, n: nat, clusters: nat)
    requires Backed(a, d, clusters) && f + n <= |p|
    ensures Backed(a, KillRun(d, p, f, n), clusters)
    decreases n
  {
    if n > 0 && p[f].offset in d {
      KillBacked(a, d[p[f].offset := D.Killed(d[p[f].offset])], p, f + 1, n - 1, clusters);
    }
  }

  /** Delete a listed entry and account for the listing. */
  method DeleteListed(d: FatDirectory, chain: SlotChain, dir: FatDir, ghost p: seq<SlotPos>, ghost e: L.Found)
    requires d.Valid() && d.Laid(dir, p) && On(p, d.device) && D.Tidy(Contents(d.device, p))
    requires IsAt(Contents(d.device, p), p, chain, e)
    modifies d`device
    ensures d.Valid() && On(p, d.device) && D.Tidy(Contents(d.device, p))
    ensures e.first + e.len <= |p| && e.len > 0
    ensures Contents(d.device, p) == Struck(old(Contents(d.device, p)), e.first, e.len, D.Killed)
    ensures D.ReadSet(Contents(d.device, p)) == old(D.ReadSet(Contents(d.device, p))) - {e}
  {
    d.LaidApart(dir, p);
    D.TidyRemove(Contents(d.device, p), e);
    KillRunAs(d.device, p, e.first, e.len);
    KillBacked(d.a, d.device, p, e.first, e.len, d.fs.l.maxCluster + 1);
    d.RemoveEntrySet(chain, dir, p, e.first);
  }

  /** `chain` says where the listed entry `e` is. */
  ghost predicate IsAt(c: seq<Slot>, p: seq<SlotPos>, chain: SlotChain, e: L.Found)
    requires |c| == |p|
  {
    e in D.ReadSet(c) && e.first < |p| && chain == SlotChain(p[e.first], e.len)
  }

  /** Respell the entry `e`: delete it, insert it as `now`, and when there is no room for that insert
      it as `back`. The respelling succeeds exactly when there is room for `now`; when it fails the
      entry survives, as `back`, exactly when there is room for `back`; room is a matter of the slots
      free before the call, those the entry has, and the free clusters. Every other entry stays. */
  method RespellEntry(d: FatDirectory, chain: SlotChain, now: Props, back: Props, dir: FatDir, ghost p: seq<SlotPos>,
      ghost e: L.Found) returns (r: Result<SlotChain>, survived: bool, ghost q: seq<SlotPos>)
    requires d.Valid() && d.Laid(dir, p) && On(p, d.device) && D.Tidy(Contents(d.device, p))
    requires IsAt(Contents(d.device, p), p, chain, e) && Composable(now) && Composable(back)
    modifies d`device, d.fs
    ensures d.a.perCluster > 0 && d.Laid(dir, q) && On(q, d.device) && D.Tidy(Contents(d.device, q))
    ensures r.Ok? <==> HasRoom(d.a, dir, old(Contents(d.device, p)), e.first, e.len, |Compose(now)|,
      |old(FreeFrom(d.fs.Cells(), 2))|)
    ensures survived <==> r.Ok? || HasRoom(d.a, dir, old(Contents(d.device, p)), e.first, e.len, |Compose(back)|,
      |old(FreeFrom(d.fs.Cells(), 2))|)
    ensures Gained(old(D.ReadSet(Contents(d.device, p))) - {e}, D.ReadSet(Contents(d.device, q)), survived,
      if r.Ok? then now else back)
    ensures r.Err? ==> r.error in {StorageFull, RootDirectoryFull}
  {
    ghost var c := Contents(d.device, p);
    ghost var free := FreeFrom(d.fs.Cells(), 2);
    DeleteListed(d, chain, dir, p, e);
    RoomExactly(d.a, dir, c, e.first, e.len, p, |Compose(now)|, free);
    RoomExactly(d.a, dir, c, e.first, e.len, p, |Compose(back)|, free);
    r, q := InsertListed(d, now, dir, p);
    survived := true;
    if r.Err? {
      var undone: Result<SlotChain>;
      undone, q := InsertListed(d, back, dir, p);
      survived := undone.Ok?;
    }
  }

  // ---------------------------------------------------------------- a losing input

  /** `README.TXT` as an entry that is its own short name: one slot. */
  const README_SFN: SN.Sfn := SN.Sfn([0x52, 0x45, 0x41, 0x44, 0x4D, 0x45, 0x20, 0x20], [0x54, 0x58, 0x54])

  const README_UPPER: seq<L.Unit16> := [0x52, 0x45, 0x41, 0x44, 0x4D, 0x45, 0x2E, 0x54, 0x58, 0x54]
  const README_LOWER: seq<L.Unit16> := [0x72, 0x65, 0x61, 0x64, 0x6D, 0x65, 0x2E, 0x74, 0x78, 0x74]
  const README_MIXED: seq<L.Unit16> := [0x52, 0x65, 0x61, 0x64, 0x6D, 0x65, 0x2E, 0x74, 0x78, 0x74]

  /** A name of at most 13 units with a lower-case letter takes two slots. */
  lemma LowerTakesTwo(p: Props, i: nat)
    requires Composable(p) && |p.name| <= CHARS_PER_LFN && i < |p.name| && 'a' as int <= p.name[i] <= 'z' as int
    ensures |Compose(p)| == 2
  {
    var t := Text(p.name);
    assert t[i] == p.name[i] as char;
    assert t[i] != '.' && !SN.IsSfnChar(t[i]);
    if SN.AllLegal(t) {
      SN.AllLegalAt(t);
    }
  }

  lemma ReadmeIsShort(p: Props)
    requires Composable(p) && p.name == README_UPPER && p.sfn == README_SFN
    ensures |Compose(p)| == 1
  {
    SN.PlainIsShort("README", "TXT");
    assert Text(p.name) == "README" + "." + "TXT";
    assert SN.Padded(SN.BytesOf("README"), SN.NAME_LEN) == README_SFN.name;
    assert SN.Padded(SN.BytesOf("TXT"), SN.EXT_LEN) == README_SFN.ext;
  }

  /** The entry `README.TXT`, renamed by a caller who spells it `readme.txt` to `Readme.txt`, in a
      directory with no free slot that cannot grow: neither spelling finds room, and the entry is
      lost. */
  lemma ReadmeLost(a: Area, dir: FatDir, c: seq<Slot>, f: nat, stored: Props, now: Props, back: Props, free: nat)
    requires a.perCluster > 0 && (dir.FixedRoot? || free == 0) && forall i :: 0 <= i < |c| ==> !D.Free(c[i])
    requires Composable(stored) && stored.name == README_UPPER && stored.sfn == README_SFN
    requires Composable(now) && now.name == README_MIXED && Composable(back) && back.name == README_LOWER
    ensures |Compose(stored)| == 1
    ensures !HasRoom(a, dir, c, f, |Compose(stored)|, |Compose(now)|, free)
    ensures !HasRoom(a, dir, c, f, |Compose(stored)|, |Compose(back)|, free)
  {
    ReadmeIsShort(stored);
    LowerTakesTwo(now, 1);
    LowerTakesTwo(back, 0);
    FullHasNoRoom(a, dir, c, f, 1, 2, free);
  }

  /** The smallest such directory: a root of one slot. */
  lemma ReadmeAlone(stored: Props)
    requires Composable(stored) && stored.name == README_UPPER && stored.sfn == README_SFN
    ensures |Compose(stored)| == 1 && !D.Free(Compose(stored)[0])
    ensures D.Tidy(Compose(stored)) && D.ReadSet(Compose(stored)) == {Placed(D.EntryOf(stored), 0, 1)}
  {
    ReadmeIsShort(stored);
    AloneTidy(stored);
  }

  /** A directory of one entry in one slot. */
  lemma AloneTidy(p: Props)
    requires Composable(p) && |Compose(p)| == 1
    ensures !D.Free(Compose(p)[0])
    ensures D.Tidy(Compose(p)) && D.ReadSet(Compose(p)) == {Placed(D.EntryOf(p), 0, 1)}
  {
    D.ComposedTaken(p, 0);
    BlankTidy(1);
    assert D.Free(ZERO_SLOT);
    assert FreeRun(Zeros(1), 0, 1, D.Free);
    D.TidyInsert(Zeros(1), p, 0);
    SpliceAll(Zeros(1), Compose(p));
  }

  lemma SpliceAll(c: seq<Slot>, s: seq<Slot>)
    requires |c| == |s|
    ensures Splice(c, 0, s) == s
  {
  }

  /** A directory of end markers lists nothing. */
  lemma BlankTidy(n: nat)
    ensures D.Tidy(Zeros(n)) && D.ReadSet(Zeros(n)) == {}
  {
    var none: seq<D.DirBlock> := [];
    assert forall i :: 0 <= i < n ==> D.IsEnd(Zeros(n)[i]);
    assert Holds(Zeros(n), none, D.FatLaw());
    D.HoldsTidy(Zeros(n), none);
  }
}
