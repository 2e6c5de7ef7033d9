/** Where the path engine meets the directories: the growth its operations are given is the one the
    directory's slots ask for, and its room is the room the directory's own insert finds. */
module Rooms {
  import opened Basics
  import opened Crash
  import opened Mounted
  import opened PathEngine
  import opened SlotBlocks
  import opened SlotPlaces
  import FD = FatDirectories
  import FR = FatRespells
  import FT = FatTables
  import FC = FatCells
  import FS = FatSlots
  import D = FatDirShape
  import XD = ExfatDirShape
  import ED = ExfatDirectories
  import ER = ExfatRespells
  import ES = ExfatSets
  import EM = ExfatMaps

  // ---------------------------------------------------------------- FAT

  /** Directory number `d` of the engine's volume is `dir`, on a volume with the table `t`. */
  ghost predicate OnFat(vol: Volume, d: nat, dir: FatDir, t: FT.Table)
    reads vol`disk
  {
    && !vol.exfat && (dir.FixedRoot? <==> vol.fixedRoot && d == ROOT)
    && vol.Free() == FT.FreeSet(t)
  }

  ghost function FreeAfter(t: FT.Table, c: nat): set<nat> { set x: nat | c <= x < |t| && t[x] == FC.Free }

  /** The free clusters in order are as many as in the set. */
  lemma {:induction false} FreeCounted(t: FT.Table, c: nat)
    ensures |FT.FreeFrom(t, c)| == |FreeAfter(t, c)|
    decreases |t| - c
  {
    if c >= |t| {
      assert FreeAfter(t, c) == {};
    } else {
      FreeCounted(t, c + 1);
      assert FreeAfter(t, c) == FreeAfter(t, c + 1) + if t[c] == FC.Free then {c} else {};
    }
  }

  lemma FreeAgrees(vol: Volume, d: nat, dir: FatDir, t: FT.Table)
    requires OnFat(vol, d, dir, t)
    ensures |vol.Free()| == |FT.FreeFrom(t, 2)|
  {
    FreeCounted(t, 2);
    assert FT.FreeSet(t) == FreeAfter(t, 2);
  }

  /** Respelling an entry of `len` slots from slot `f` on as one of `n`: the engine finds room, at
      first and after a failed attempt, exactly when the directory does. Inserting is the case
      `len == 0`. */
  lemma FatRoom(vol: Volume, d: nat, a: Area, dir: FatDir, c: seq<FS.Slot>, f: nat, len: nat, n: nat, t: FT.Table)
    requires OnFat(vol, d, dir, t) && a.perCluster > 0 && n > 0 && |c| <= FD.MAX_SCAN
    ensures vol.Fits(d, FR.Growth(a, c, f, len, n)) <==> FR.HasRoom(a, dir, c, f, len, n, |FT.FreeFrom(t, 2)|)
    ensures FitsStill(vol, vol.disk.used, d, FR.Growth(a, c, f, len, n)) <==>
      FR.HasRoom(a, dir, c, f, len, n, |FT.FreeFrom(t, 2)|)
  {
    FreeAgrees(vol, d, dir, t);
    FR.GrowthFits(a, dir, c, f, len, n, |FT.FreeFrom(t, 2)|);
  }

  /** What the engine asks before linking an entry of `n` slots is whether the directory's insert will
      succeed, and the growth it is given is the number of clusters the insert adds. */
  lemma FatInserts(vol: Volume, d: nat, a: Area, dir: FatDir, c: seq<FS.Slot>, p: seq<SlotPos>, n: nat, t: FT.Table)
    requires OnFat(vol, d, dir, t) && a.perCluster > 0 && n > 0
    requires FS.AllSized(c) && |c| == |p| <= FD.MAX_SCAN && p != []
    ensures var scan := FD.ScanFrom(c, p, n, 0, None, 0);
      var run := FD.Taken(a, dir, scan, n, FT.FreeFrom(t, 2));
      && (vol.Fits(d, FR.Growth(a, c, 0, 0, n)) <==> run != [] || scan.Room?)
      && (vol.Fits(d, FR.Growth(a, c, 0, 0, n)) ==> |run| == FR.Growth(a, c, 0, 0, n))
  {
    FatRoom(vol, d, a, dir, c, 0, 0, n, t);
    FR.RoomExactly(a, dir, c, 0, 0, p, n, FT.FreeFrom(t, 2));
    assert Struck(c, 0, 0, D.Killed) == c;
  }

  // ---------------------------------------------------------------- exFAT

  /** Directory number `d` of the engine's volume is the one at `ext`, on a heap of `count` clusters
      of which `used` are in use. */
  ghost predicate OnExfat(vol: Volume, d: nat, ext: ED.DirExtent, used: set<nat>, count: nat)
    reads vol`disk, vol`contiguous
  {
    && vol.exfat && !vol.fixedRoot && (ext.noFatChain <==> d in vol.contiguous)
    && vol.Free() == EM.ClearIn(used, count)
  }

  /** Before linking a set of `n` entries the engine asks whether the directory's append will succeed,
      and after a failed one whether an append still will. */
  lemma ExfatRoom(vol: Volume, d: nat, ext: ED.DirExtent, a: Area, c: seq<ES.Slot>, n: nat, used: set<nat>, count: nat)
    requires OnExfat(vol, d, ext, used, count) && a.perCluster > 0
    ensures vol.Fits(d, ED.Added(a, c, n)) <==> ED.Added(a, c, n) <= |EM.ClearIn(used, count)|
    ensures FitsStill(vol, vol.disk.used, d, ED.Added(a, c, n)) <==>
      ER.RoomStill(ext, a, c, n, |EM.ClearIn(used, count)|)
  {
  }

  /** Both spellings of a name in the engine's terms: each finds room exactly when its set does in the
      directory, and where the new one finds none the old one finds none. */
  lemma ExfatRespelt(vol: Volume, d: nat, ext: ED.DirExtent, a: Area, c: seq<ES.Slot>, name: seq<ES.Unit16>,
      back: seq<ES.Unit16>, meta: seq<Byte>, stream: ES.Stream, used: set<nat>, count: nat)
    requires OnExfat(vol, d, ext, used, count) && a.perCluster > 0
    requires |name| == |back| <= 255 && |meta| == 28 && ES.StreamFits(stream)
    ensures ES.SetFits(XD.NewSet(name, meta, stream)) && ES.SetFits(XD.NewSet(back, meta, stream))
    ensures var n := |ES.Encode(XD.NewSet(name, meta, stream))|;
      var m := |ES.Encode(XD.NewSet(back, meta, stream))|;
      && (vol.Fits(d, ED.Added(a, c, n)) <==> ED.Added(a, c, n) <= |EM.ClearIn(used, count)|)
      && (FitsStill(vol, vol.disk.used, d, ED.Added(a, c, m)) <==>
          ER.RoomStill(ext, a, c, m, |EM.ClearIn(used, count)|))
      && (FitsStill(vol, vol.disk.used, d, ED.Added(a, c, m)) ==> vol.Fits(d, ED.Added(a, c, n)))
  {
    ER.SameLength(name, back, meta, stream);
    var n := |ES.Encode(XD.NewSet(name, meta, stream))|;
    ExfatRoom(vol, d, ext, a, c, n, used, count);
    if ED.Added(a, c, n) > |EM.ClearIn(used, count)| {
      ER.NoSecondChance(ext, a, c, n, |EM.ClearIn(used, count)|);
    }
  }
}
