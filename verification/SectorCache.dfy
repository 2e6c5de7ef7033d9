/** The byte-addressed write-back sector cache (src/store/cache.rs) over a device
    whose accesses may fail, and its refinement of one flat byte array. */
module Storage {
  import opened Basics

  const SLOTS: nat := 8

  /** One cached sector; `sector == None` is the source's `EMPTY`. */
  datatype Slot = Slot(sector: Option<nat>, dirty: bool, stamp: nat, buf: seq<Byte>)

  /** Everything a moment of a run consists of: the slots and the device bytes. */
  datatype Image = Image(slots: seq<Slot>, device: seq<Byte>)

  predicate Holds(slots: seq<Slot>, i: nat, sector: nat) {
    i < |slots| && slots[i].sector == Some(sector)
  }

  predicate Sized(slots: seq<Slot>, ss: nat) {
    forall i :: 0 <= i < |slots| ==> |slots[i].buf| == ss
  }

  ghost predicate Distinct(slots: seq<Slot>) {
    forall i: nat, j: nat, s: nat :: Holds(slots, i, s) && Holds(slots, j, s) ==> i == j
  }

  function DeviceAt(device: seq<Byte>, p: nat): Option<Byte> {
    if p < |device| then Some(device[p]) else None
  }

  /** The flat byte array the cache stands for: a cached byte wins over the device's.
      `None` past the end of the medium. */
  ghost function LogicalAt(im: Image, ss: nat, p: nat): (r: Option<Byte>)
    requires ss > 0 && Sized(im.slots, ss)
  {
    if exists i: nat :: Holds(im.slots, i, Unit(p, ss)) then
      var i: nat :| Holds(im.slots, i, Unit(p, ss));
      Some(im.slots[i].buf[Within(p, ss)])
    else
      DeviceAt(im.device, p)
  }

  /** A clean slot repeats the device. */
  ghost predicate CleanAgrees(slot: Slot, device: seq<Byte>, ss: nat) {
    slot.sector.Some? && !slot.dirty ==>
      Units(slot.sector.value, ss) + ss <= |device| &&
      slot.buf == device[Units(slot.sector.value, ss)..Units(slot.sector.value, ss) + ss]
  }

  ghost predicate Coherent(im: Image, ss: nat) {
    && ss > 0
    && |im.slots| == SLOTS
    && Sized(im.slots, ss)
    && Distinct(im.slots)
    && forall i :: 0 <= i < |im.slots| ==> CleanAgrees(im.slots[i], im.device, ss)
  }

  /** `b` may follow `a` in a run that only changes logical bytes of `[lo, hi)`: outside
      that range the flat array is the same, and every device byte is either the one it
      was or the logical one. */
  ghost predicate Tracks(a: Image, b: Image, ss: nat, lo: nat, hi: nat) {
    && Coherent(a, ss) && Coherent(b, ss)
    && |b.device| == |a.device|
    && forall p: nat {:trigger LogicalAt(b, ss, p)} :: !(lo <= p < hi) ==>
         && LogicalAt(b, ss, p) == LogicalAt(a, ss, p)
         && (p < |a.device| ==> b.device[p] == a.device[p] || Some(b.device[p]) == LogicalAt(a, ss, p))
  }

  /** The flat array of `b` is that of `a` with `data` written at `offset`. */
  ghost predicate Wrote(a: Image, b: Image, ss: nat, offset: nat, data: seq<Byte>)
    requires Coherent(a, ss) && Coherent(b, ss)
  {
    forall p: nat {:trigger LogicalAt(b, ss, p)} ::
      LogicalAt(b, ss, p) == if offset <= p < offset + |data| then Some(data[p - offset]) else LogicalAt(a, ss, p)
  }

  /** An image with these device contents has been recorded. */
  ghost predicate Seen(moments: set<Image>, device: seq<Byte>) { exists m :: m in moments && m.device == device }

  /** The recorded moments grew, each new one tracks the image before, and the device as it is now is
      among them. */
  ghost predicate Run(a: Image, before: set<Image>, b: Image, after: set<Image>, ss: nat, lo: nat, hi: nat) {
    && Tracks(a, b, ss, lo, hi)
    && before <= after && Seen(after, b.device)
    && forall m :: m in after && m !in before ==> Tracks(a, m, ss, lo, hi)
  }

  lemma TracksThen(a: Image, b: Image, c: Image, ss: nat, lo: nat, hi: nat)
    requires Tracks(a, b, ss, lo, hi) && Tracks(b, c, ss, lo, hi)
    ensures Tracks(a, c, ss, lo, hi)
  {
    forall p: nat | !(lo <= p < hi)
      ensures LogicalAt(c, ss, p) == LogicalAt(a, ss, p)
      ensures p < |a.device| ==> c.device[p] == a.device[p] || Some(c.device[p]) == LogicalAt(a, ss, p)
    {
      assert LogicalAt(c, ss, p) == LogicalAt(b, ss, p);
    }
  }

  lemma RunThen(a: Image, m0: set<Image>, b: Image, m1: set<Image>, c: Image, m2: set<Image>, ss: nat, lo: nat, hi: nat)
    requires Run(a, m0, b, m1, ss, lo, hi) && Run(b, m1, c, m2, ss, lo, hi)
    ensures Run(a, m0, c, m2, ss, lo, hi)
  {
    TracksThen(a, b, c, ss, lo, hi);
    forall m | m in m2 && m !in m0
      ensures Tracks(a, m, ss, lo, hi)
    {
      if m !in m1 {
        TracksThen(a, b, m, ss, lo, hi);
      }
    }
  }

  lemma TracksWiden(a: Image, b: Image, ss: nat, lo: nat, hi: nat, lo': nat, hi': nat)
    requires Tracks(a, b, ss, lo, hi) && (lo >= hi || (lo' <= lo && hi <= hi'))
    ensures Tracks(a, b, ss, lo', hi')
  {
  }

  lemma RunWiden(a: Image, m0: set<Image>, b: Image, m1: set<Image>, ss: nat, lo: nat, hi: nat, lo': nat, hi': nat)
    requires Run(a, m0, b, m1, ss, lo, hi) && (lo >= hi || (lo' <= lo && hi <= hi'))
    ensures Run(a, m0, b, m1, ss, lo', hi')
  {
    TracksWiden(a, b, ss, lo, hi, lo', hi');
    forall m | m in m1 && m !in m0
      ensures Tracks(a, m, ss, lo', hi')
    {
      TracksWiden(a, m, ss, lo, hi, lo', hi');
    }
  }

  /** A quiet run before a write does not disturb it. */
  lemma QuietWrote(a: Image, b: Image, c: Image, ss: nat, offset: nat, data: seq<Byte>)
    requires Coherent(b, ss) && Coherent(c, ss)
    requires Tracks(a, b, ss, 0, 0) && Wrote(b, c, ss, offset, data)
    ensures Wrote(a, c, ss, offset, data)
  {
  }

  lemma WroteThen(a: Image, b: Image, c: Image, ss: nat, offset: nat, data: seq<Byte>, more: seq<Byte>)
    requires Coherent(a, ss) && Coherent(b, ss) && Coherent(c, ss)
    requires Wrote(a, b, ss, offset, data) && Wrote(b, c, ss, offset + |data|, more)
    ensures Wrote(a, c, ss, offset, data + more)
  {
  }

  /** The slot holding `p`'s sector decides `p`. */
  lemma SlotDecides(im: Image, ss: nat, i: nat, p: nat)
    requires Coherent(im, ss) && Holds(im.slots, i, Unit(p, ss))
    ensures LogicalAt(im, ss, p) == Some(im.slots[i].buf[Within(p, ss)])
  {
  }

  /** A clean slot's bytes are the device's own, read through the flat array. */
  lemma CleanByte(im: Image, ss: nat, i: nat, p: nat)
    requires Coherent(im, ss) && Holds(im.slots, i, Unit(p, ss)) && !im.slots[i].dirty
    ensures p < |im.device| && im.slots[i].buf[Within(p, ss)] == im.device[p]
  {
    UnitsOf(p, Unit(p, ss), ss);
  }

  /** Where every slot is clean, the flat array is the device. */
  lemma AllClean(im: Image, ss: nat)
    requires Coherent(im, ss)
    requires forall i :: 0 <= i < |im.slots| ==> !im.slots[i].dirty
    ensures forall p: nat :: LogicalAt(im, ss, p) == DeviceAt(im.device, p)
  {
    forall p: nat
      ensures LogicalAt(im, ss, p) == DeviceAt(im.device, p)
    {
      if i: nat :| Holds(im.slots, i, Unit(p, ss)) {
        SlotDecides(im, ss, i, p);
        CleanByte(im, ss, i, p);
      }
    }
  }

  /** Writing slot `i` to its place on the device and marking it clean moves no logical byte. */
  lemma WriteBackTracks(a: Image, b: Image, ss: nat, i: nat, s: nat)
    requires Coherent(a, ss) && Holds(a.slots, i, s) && Units(s, ss) + ss <= |a.device|
    requires b.device == Splice(a.device, Units(s, ss), a.slots[i].buf)
    requires b.slots == a.slots || b.slots == a.slots[i := a.slots[i].(dirty := false)]
    requires b.slots == a.slots ==> a.slots[i].dirty
    ensures Tracks(a, b, ss, 0, 0)
  {
    forall j: nat | j < |b.slots|
      ensures CleanAgrees(b.slots[j], b.device, ss)
    {
      WriteBackKeepsClean(a, b, ss, i, s, j);
    }
    assert forall j: nat, t: nat :: Holds(b.slots, j, t) <==> Holds(a.slots, j, t);
    forall p: nat
      ensures LogicalAt(b, ss, p) == LogicalAt(a, ss, p)
      ensures p < |a.device| ==> b.device[p] == a.device[p] || Some(b.device[p]) == LogicalAt(a, ss, p)
    {
      WriteBackByte(a, b, ss, i, s, p);
    }
  }

  lemma WriteBackKeepsClean(a: Image, b: Image, ss: nat, i: nat, s: nat, j: nat)
    requires Coherent(a, ss) && Holds(a.slots, i, s) && Units(s, ss) + ss <= |a.device|
    requires b.device == Splice(a.device, Units(s, ss), a.slots[i].buf)
    requires b.slots == a.slots[i := a.slots[i].(dirty := false)] || (b.slots == a.slots && a.slots[i].dirty)
    requires j < |a.slots|
    ensures CleanAgrees(b.slots[j], b.device, ss)
  {
    if j == i {
      assert b.device[Units(s, ss)..Units(s, ss) + ss] == a.slots[i].buf;
    } else if b.slots[j].sector.Some? && !b.slots[j].dirty {
      var t := b.slots[j].sector.value;
      assert Holds(a.slots, j, t) && t != s;
      if t < s { UnitsMono(t + 1, s, ss); } else { UnitsMono(s + 1, t, ss); }
      assert b.device[Units(t, ss)..Units(t, ss) + ss] == a.device[Units(t, ss)..Units(t, ss) + ss];
    }
  }

  lemma WriteBackByte(a: Image, b: Image, ss: nat, i: nat, s: nat, p: nat)
    requires Coherent(a, ss) && Coherent(b, ss) && Holds(a.slots, i, s) && Units(s, ss) + ss <= |a.device|
    requires b.device == Splice(a.device, Units(s, ss), a.slots[i].buf)
    requires b.slots == a.slots || b.slots == a.slots[i := a.slots[i].(dirty := false)]
    ensures LogicalAt(b, ss, p) == LogicalAt(a, ss, p)
    ensures p < |a.device| ==> b.device[p] == a.device[p] || Some(b.device[p]) == LogicalAt(a, ss, p)
  {
    assert forall j: nat, t: nat :: Holds(b.slots, j, t) <==> Holds(a.slots, j, t);
    UnitsOf(p, s, ss);
    if j: nat :| Holds(a.slots, j, Unit(p, ss)) {
      SlotDecides(a, ss, j, p);
      SlotDecides(b, ss, j, p);
    }
  }

  /** Replacing one slot, on an unchanged device, by one that is coherent with the others. */
  lemma SlotChange(a: Image, b: Image, ss: nat, i: nat)
    requires Coherent(a, ss) && i < |a.slots| && |b.slots| == |a.slots| && b.device == a.device
    requires forall j :: 0 <= j < |a.slots| && j != i ==> b.slots[j] == a.slots[j]
    requires |b.slots[i].buf| == ss && CleanAgrees(b.slots[i], a.device, ss)
    requires b.slots[i].sector.Some? ==> forall j: nat :: Holds(a.slots, j, b.slots[i].sector.value) ==> j == i
    ensures Coherent(b, ss)
    ensures forall j: nat, t: nat :: Holds(b.slots, j, t) <==> if j == i then b.slots[i].sector == Some(t)
      else Holds(a.slots, j, t)
  {
    assert forall j: nat, t: nat :: Holds(b.slots, j, t) <==> if j == i then b.slots[i].sector == Some(t)
      else Holds(a.slots, j, t);
  }

  /** Emptying a clean slot moves no logical byte. */
  lemma DropTracks(a: Image, b: Image, ss: nat, i: nat)
    requires Coherent(a, ss) && i < |a.slots| && (a.slots[i].sector.Some? ==> !a.slots[i].dirty)
    requires b == a.(slots := a.slots[i := a.slots[i].(sector := None)])
    ensures Tracks(a, b, ss, 0, 0)
  {
    assert forall j: nat, t: nat :: Holds(b.slots, j, t) <==> j != i && Holds(a.slots, j, t);
    forall p: nat
      ensures LogicalAt(b, ss, p) == LogicalAt(a, ss, p)
    {
      if j: nat :| Holds(a.slots, j, Unit(p, ss)) {
        SlotDecides(a, ss, j, p);
        if j == i {
          CleanByte(a, ss, i, p);
        } else {
          SlotDecides(b, ss, j, p);
        }
      }
    }
  }

  /** Loading a sector no slot holds into an empty slot, as the device has it. */
  lemma LoadTracks(a: Image, b: Image, ss: nat, i: nat, s: nat, stamp: nat)
    requires Coherent(a, ss) && i < |a.slots| && a.slots[i].sector.None?
    requires forall j: nat :: !Holds(a.slots, j, s)
    requires Units(s, ss) + ss <= |a.device|
    requires b == a.(slots := a.slots[i := Slot(Some(s), false, stamp, a.device[Units(s, ss)..Units(s, ss) + ss])])
    ensures Tracks(a, b, ss, 0, 0)
  {
    SlotChange(a, b, ss, i);
    forall p: nat
      ensures LogicalAt(b, ss, p) == LogicalAt(a, ss, p)
    {
      LoadByte(a, b, ss, i, s, p);
    }
  }

  lemma LoadByte(a: Image, b: Image, ss: nat, i: nat, s: nat, p: nat)
    requires Coherent(a, ss) && Coherent(b, ss) && i < |a.slots| && a.slots[i].sector.None?
    requires forall j: nat :: !Holds(a.slots, j, s)
    requires forall j: nat, t: nat :: Holds(b.slots, j, t) <==> (if j == i then t == s else Holds(a.slots, j, t))
    requires forall j :: 0 <= j < |a.slots| && j != i ==> b.slots[j] == a.slots[j]
    requires b.device == a.device && !b.slots[i].dirty
    ensures LogicalAt(b, ss, p) == LogicalAt(a, ss, p)
  {
    if j: nat :| Holds(b.slots, j, Unit(p, ss)) {
      SlotDecides(b, ss, j, p);
      if j == i {
        CleanByte(b, ss, i, p);
      } else {
        SlotDecides(a, ss, j, p);
      }
    }
  }

  /** Restamping a slot, or clearing the flag of an empty one, moves no logical byte. */
  lemma StampTracks(a: Image, b: Image, ss: nat, i: nat)
    requires Coherent(a, ss) && i < |a.slots| && |b.slots| == |a.slots| && b.device == a.device
    requires forall j :: 0 <= j < |a.slots| && j != i ==> b.slots[j] == a.slots[j]
    requires b.slots[i].sector == a.slots[i].sector && b.slots[i].buf == a.slots[i].buf
    requires b.slots[i].dirty == a.slots[i].dirty || a.slots[i].sector.None?
    ensures Tracks(a, b, ss, 0, 0)
  {
    assert forall j: nat, t: nat :: Holds(b.slots, j, t) <==> Holds(a.slots, j, t);
    forall p: nat
      ensures LogicalAt(b, ss, p) == LogicalAt(a, ss, p)
    {
      if j: nat :| Holds(a.slots, j, Unit(p, ss)) {
        SlotDecides(a, ss, j, p);
        SlotDecides(b, ss, j, p);
      }
    }
  }

  /** Overwriting part of a slot (all of it, when its sector was not loaded) and marking it
      dirty changes exactly the logical bytes of that part. */
  lemma PatchTracks(a: Image, b: Image, ss: nat, i: nat, s: nat, within: nat, data: seq<Byte>)
    requires Coherent(a, ss) && i < |a.slots| && within + |data| <= ss
    requires forall j: nat :: Holds(a.slots, j, s) ==> j == i
    requires Holds(a.slots, i, s) || (a.slots[i].sector.None? && within == 0 && |data| == ss)
    requires b.device == a.device && |b.slots| == |a.slots|
    requires forall j :: 0 <= j < |a.slots| && j != i ==> b.slots[j] == a.slots[j]
    requires b.slots[i].sector == Some(s) && b.slots[i].dirty
    requires b.slots[i].buf == Splice(a.slots[i].buf, within, data)
    ensures Tracks(a, b, ss, Units(s, ss) + within, Units(s, ss) + within + |data|)
    ensures Wrote(a, b, ss, Units(s, ss) + within, data)
  {
    SlotChange(a, b, ss, i);
    forall p: nat
      ensures LogicalAt(b, ss, p) ==
        if Units(s, ss) + within <= p < Units(s, ss) + within + |data| then Some(data[p - Units(s, ss) - within])
          else LogicalAt(a, ss, p)
    {
      PatchByte(a, b, ss, i, s, within, data, p);
    }
  }

  lemma PatchByte(a: Image, b: Image, ss: nat, i: nat, s: nat, within: nat, data: seq<Byte>, p: nat)
    requires Coherent(a, ss) && Coherent(b, ss) && i < |a.slots| && within + |data| <= ss
    requires forall j: nat, t: nat :: Holds(b.slots, j, t) <==> (if j == i then t == s else Holds(a.slots, j, t))
    requires Holds(a.slots, i, s) || (a.slots[i].sector.None? && within == 0 && |data| == ss)
    requires forall j :: 0 <= j < |a.slots| && j != i ==> b.slots[j] == a.slots[j]
    requires b.device == a.device && b.slots[i].buf == Splice(a.slots[i].buf, within, data)
    ensures LogicalAt(b, ss, p) ==
      if Units(s, ss) + within <= p < Units(s, ss) + within + |data| then Some(data[p - Units(s, ss) - within])
        else LogicalAt(a, ss, p)
  {
    UnitsOf(p, s, ss);
    if Unit(p, ss) == s {
      SlotDecides(b, ss, i, p);
      if Holds(a.slots, i, s) {
        SlotDecides(a, ss, i, p);
      }
    } else if j: nat :| Holds(b.slots, j, Unit(p, ss)) {
      SlotDecides(b, ss, j, p);
      SlotDecides(a, ss, j, p);
    }
  }

  /** A quiet run followed by overwriting part of a slot writes that part. */
  lemma PatchRun(a: Image, m0: set<Image>, base: Image, m1: set<Image>, b: Image, ss: nat, i: nat, s: nat, within: nat,
      data: seq<Byte>)
    requires Run(a, m0, base, m1, ss, 0, 0)
    requires i < |base.slots| && within + |data| <= ss
    requires forall j: nat :: Holds(base.slots, j, s) ==> j == i
    requires Holds(base.slots, i, s) || (base.slots[i].sector.None? && within == 0 && |data| == ss)
    requires b.device == base.device && |b.slots| == |base.slots|
    requires forall j :: 0 <= j < |base.slots| && j != i ==> b.slots[j] == base.slots[j]
    requires b.slots[i].sector == Some(s) && b.slots[i].dirty
    requires b.slots[i].buf == Splice(base.slots[i].buf, within, data)
    ensures Run(a, m0, b, m1 + {b}, ss, Units(s, ss) + within, Units(s, ss) + within + |data|)
    ensures Wrote(a, b, ss, Units(s, ss) + within, data)
  {
    var lo, hi := Units(s, ss) + within, Units(s, ss) + within + |data|;
    PatchTracks(base, b, ss, i, s, within, data);
    RunWiden(a, m0, base, m1, ss, 0, 0, lo, hi);
    RunThen(a, m0, base, m1, b, m1 + {b}, ss, lo, hi);
    QuietWrote(a, base, b, ss, lo, data);
  }

  /** A write of one more piece stays within the whole. */
  lemma PieceRun(a: Image, m0: set<Image>, b: Image, m1: set<Image>, c: Image, m2: set<Image>, ss: nat, offset: nat,
      len: nat, count: nat, n: nat)
    requires count + n <= len
    requires Run(a, m0, b, m1, ss, offset, offset + len)
    requires Run(b, m1, c, m2, ss, offset + count, offset + count + n)
    ensures Run(a, m0, c, m2, ss, offset, offset + len)
  {
    RunWiden(b, m1, c, m2, ss, offset + count, offset + count + n, offset, offset + len);
    RunThen(a, m0, b, m1, c, m2, ss, offset, offset + len);
  }

  /** It extends a prefix write, or, when nothing of it was written, leaves it. */
  lemma PieceWrote(a: Image, b: Image, c: Image, ss: nat, offset: nat, buf: seq<Byte>, count: nat, n: nat)
    requires count + n <= |buf| && Coherent(a, ss) && Coherent(b, ss) && Coherent(c, ss)
    requires Wrote(a, b, ss, offset, buf[..count])
    ensures Wrote(b, c, ss, offset + count, buf[count..count + n]) ==> Wrote(a, c, ss, offset, buf[..count + n])
    ensures Wrote(b, c, ss, offset + count, []) ==> Wrote(a, c, ss, offset, buf[..count])
  {
    assert buf[..count] + buf[count..count + n] == buf[..count + n];
    if Wrote(b, c, ss, offset + count, buf[count..count + n]) {
      WroteThen(a, b, c, ss, offset, buf[..count], buf[count..count + n]);
    }
    if Wrote(b, c, ss, offset + count, []) {
      assert buf[..count] + [] == buf[..count];
      WroteThen(a, b, c, ss, offset, buf[..count], []);
    }
  }

  /** One more piece of a write that stands at `count`, landed or not. */
  lemma PieceDone(a: Image, m0: set<Image>, b: Image, m1: set<Image>, c: Image, m2: set<Image>, ss: nat, offset: nat,
      buf: seq<Byte>, count: nat, pos: nat, next: nat, landed: bool)
    requires count <= next <= |buf| && pos == offset + count
    requires Run(a, m0, b, m1, ss, offset, offset + |buf|) && Wrote(a, b, ss, offset, buf[..count])
    requires Run(b, m1, c, m2, ss, pos, pos + (next - count))
    requires Wrote(b, c, ss, pos, if landed then buf[count..next] else [])
    ensures Run(a, m0, c, m2, ss, offset, offset + |buf|)
    ensures Wrote(a, c, ss, offset, buf[..if landed then next else count])
  {
    PieceRun(a, m0, b, m1, c, m2, ss, offset, |buf|, count, next - count);
    PieceWrote(a, b, c, ss, offset, buf, count, next - count);
  }

  /** A range whose sectors all differ from `t` lies wholly below or above sector `t`. */
  lemma MissesSector(at: nat, n: nat, t: nat, ss: nat)
    requires ss > 0
    requires n > 0 ==> t < Unit(at, ss) || t > Unit(at + n - 1, ss)
    ensures n == 0 || at + n <= Units(t, ss) || Units(t, ss) + ss <= at
  {
    if n > 0 {
      UnitsOf(at, Unit(at, ss), ss);
      UnitsOf(at + n - 1, Unit(at + n - 1, ss), ss);
      if t < Unit(at, ss) {
        UnitsMono(t + 1, Unit(at, ss), ss);
      } else {
        UnitsMono(Unit(at + n - 1, ss) + 1, t, ss);
      }
    }
  }

  /** A direct device write over `[at, at + n)` when no slot holds any sector of that range. */
  lemma ThroughTracks(a: Image, b: Image, ss: nat, at: nat, data: seq<Byte>)
    requires Coherent(a, ss) && at + |data| <= |a.device|
    requires forall i: nat, s: nat {:trigger Holds(a.slots, i, s)} :: Holds(a.slots, i, s) && |data| > 0 ==>
      s < Unit(at, ss) || s > Unit(at + |data| - 1, ss)
    requires b == a.(device := Splice(a.device, at, data))
    ensures Tracks(a, b, ss, at, at + |data|)
    ensures Wrote(a, b, ss, at, data)
  {
    forall j | 0 <= j < |b.slots|
      ensures CleanAgrees(b.slots[j], b.device, ss)
    {
      if b.slots[j].sector.Some? && !b.slots[j].dirty {
        var t := b.slots[j].sector.value;
        assert Holds(a.slots, j, t);
        MissesSector(at, |data|, t, ss);
        assert b.device[Units(t, ss)..Units(t, ss) + ss] == a.device[Units(t, ss)..Units(t, ss) + ss];
      }
    }
    forall p: nat
      ensures LogicalAt(b, ss, p) == if at <= p < at + |data| then Some(data[p - at]) else LogicalAt(a, ss, p)
      ensures p < |a.device| && !(at <= p < at + |data|) ==> b.device[p] == a.device[p]
    {
      if at <= p < at + |data| {
        DivMono(at, p, ss);
        DivMono(p, at + |data| - 1, ss);
      }
      if j: nat :| Holds(a.slots, j, Unit(p, ss)) {
        SlotDecides(a, ss, j, p);
        SlotDecides(b, ss, j, p);
      }
    }
  }

  /** A call fails exactly when one of its device accesses has failed, given that it `fits`: that it
      needs none past the end of the medium. */
  predicate Accounted(failed: bool, fits: bool, before: nat, after: nat) {
    && before <= after
    && (!failed ==> after == before)
    && (failed && fits ==> after > before)
  }

  /** The N-way write-back cache owning the storage. `moments` remembers every image the
      run has passed through: one after each device write and one after each logical change. */
  class SectorCache {
    const sectorSize: nat
    var device: seq<Byte>
    var slots: seq<Slot>
    var tick: nat
    ghost var moments: set<Image>
    /** Accesses of the device that have failed so far. */
    ghost var faults: nat
    /** The device as of the last flush of the device itself that succeeded. */
    ghost var settled: seq<Byte>

    function Now(): Image
      reads this
    {
      Image(slots, device)
    }

    ghost predicate Valid()
      reads this
    {
      Coherent(Now(), sectorSize) && Seen(moments, device)
    }

    ghost function View(p: nat): Option<Byte>
      requires Valid()
      reads this
    {
      LogicalAt(Now(), sectorSize, p)
    }

    /** Every cached sector lies on the device. */
    ghost predicate Inside()
      reads this
    {
      forall i :: 0 <= i < |slots| && slots[i].sector.Some? ==> OnDevice(slots[i].sector.value)
    }

    ghost predicate OnDevice(sector: nat)
      reads this`device
    {
      Units(sector, sectorSize) + sectorSize <= |device|
    }

    /** Every sector of a range lies on the device. */
    ghost predicate Reaches(offset: nat, len: nat)
      requires sectorSize > 0
      reads this`device
    {
      len > 0 ==> OnDevice(Unit(offset + len - 1, sectorSize))
    }

    constructor (storage: seq<Byte>, sectorSize: nat)
      requires sectorSize > 0
      ensures Valid() && device == storage && this.sectorSize == sectorSize
      ensures moments == {Now()} && Inside() && faults == 0 && settled == storage
      ensures forall p: nat :: View(p) == DeviceAt(storage, p)
    {
      this.sectorSize := sectorSize;
      device, settled := storage, storage;
      slots := seq(SLOTS, _ => Slot(None, false, 0, seq(sectorSize, _ => 0)));
      tick := 0;
      faults := 0;
      new;
      moments := {Now()};
    }

    lemma OnDeviceBelow(a: nat, b: nat)
      requires a <= b && OnDevice(b)
      ensures OnDevice(a)
    {
      UnitsMono(a, b, sectorSize);
    }

    ghost method Record()
      modifies this`moments
      ensures moments == old(moments) + {Now()} && Seen(moments, device)
    {
      moments := moments + {Now()};
    }

    method NextStamp() returns (t: nat)
      modifies this`tick
      ensures t == old(tick) + 1 == tick
    {
      t := tick + 1;
      tick := t;
    }

    /** A device write. The medium is bounded and may fail; a failing write leaves a
        prefix that ends on a sector boundary (sectors do not tear). */
    method DeviceWrite(at: nat, data: seq<Byte>) returns (ok: bool, ghost landed: nat)
      requires sectorSize > 0 && Seen(moments, device)
      modifies this`device, this`faults
      ensures faults == if !ok && at + |data| <= |old(device)| then old(faults) + 1 else old(faults)
      ensures landed <= |data| && (ok ==> landed == |data|)
      ensures landed == 0 || landed == |data| || Within(at + landed, sectorSize) == 0
      ensures landed == 0 ==> device == old(device)
      ensures landed > 0 ==> at + |data| <= |old(device)| && device == Splice(old(device), at, data[..landed])
      ensures ok ==> at + |data| <= |old(device)|
    {
      landed := 0;
      if at + |data| > |device| {
        return false, 0;
      }
      var fault: bool := *;
      if fault {
        faults := faults + 1;
        var cut: nat :| cut <= |data| && (cut == 0 || cut == |data| || Within(at + cut, sectorSize) == 0);
        if cut > 0 {
          device := Splice(device, at, data[..cut]);
        }
        return false, cut;
      }
      assert data[..|data|] == data;
      device := Splice(device, at, data);
      assert |data| == 0 ==> device == old(device);
      return true, |data|;
    }

    /** Write slot `i` back to the device; nothing to do when it is clean or empty. */
    method WriteBack(i: nat) returns (r: Result<()>)
      requires Valid() && i < SLOTS
      modifies this`slots, this`device, this`moments, this`faults
      ensures Run(old(Now()), old(moments), Now(), moments, sectorSize, 0, 0)
      ensures r.Ok? ==> slots == old(slots)[i := old(slots)[i].(dirty := false)]
      ensures r.Err? ==> slots == old(slots) && r.error == Io
      ensures Accounted(r.Err?, old(Inside()), old(faults), faults) && (old(Inside()) ==> Inside())
    {
      var slot := slots[i];
      if !slot.dirty || slot.sector.None? {
        slots := slots[i := slot.(dirty := false)];
        StampTracks(old(Now()), Now(), sectorSize, i);
        return Ok(());
      }
      var s := slot.sector.value;
      assert Holds(slots, i, s);
      var ok, landed := DeviceWrite(Units(s, sectorSize), slot.buf);
      UnitsOf(Units(s, sectorSize) + landed, s, sectorSize);
      if ok {
        slots := slots[i := slot.(dirty := false)];
      }
      if landed > 0 {
        assert slot.buf[..landed] == slot.buf;
        WriteBackTracks(old(Now()), Now(), sectorSize, i, s);
        Record();
      }
      r := if ok then Ok(()) else Err(Io);
    }

    /** Index of the slot holding `sector`, else of a least recently used slot, emptied. */
    method Find(sector: nat) returns (i: nat, hit: bool)
      requires |slots| == SLOTS
      ensures i < SLOTS
      ensures hit ==> Holds(slots, i, sector)
      ensures !hit ==> forall j: nat :: !Holds(slots, j, sector)
      ensures !hit ==> forall j :: 0 <= j < SLOTS ==> slots[i].stamp <= slots[j].stamp
    {
      i := 0;
      while i < |slots|
        invariant i <= |slots|
        invariant forall j: nat :: j < i ==> !Holds(slots, j, sector)
      {
        if slots[i].sector == Some(sector) {
          return i, true;
        }
        i := i + 1;
      }
      i := 0;
      for k := 1 to |slots|
        invariant i < |slots|
        invariant forall j :: 0 <= j < k ==> slots[i].stamp <= slots[j].stamp
      {
        if slots[k].stamp < slots[i].stamp {
          i := k;
        }
      }
      hit := false;
    }

    /** Write slot `i` back and empty it. */
    method Evict(i: nat) returns (r: Result<()>)
      requires Valid() && i < SLOTS
      modifies this`slots, this`device, this`moments, this`faults
      ensures Run(old(Now()), old(moments), Now(), moments, sectorSize, 0, 0)
      ensures r.Err? ==> slots == old(slots) && r.error == Io
      ensures Accounted(r.Err?, old(Inside()), old(faults), faults) && (old(Inside()) ==> Inside())
      ensures r.Ok? ==> slots == old(slots)[i := old(slots)[i].(dirty := false, sector := None)]
    {
      r := WriteBack(i);
      if r.Ok? {
        ghost var cleaned := Now();
        slots := slots[i := slots[i].(sector := None)];
        DropTracks(cleaned, Now(), sectorSize, i);
        RunThen(old(Now()), old(moments), cleaned, moments, Now(), moments, sectorSize, 0, 0);
      }
    }

    /** Fill the empty slot `i` with a sector no slot holds. */
    method Load(i: nat, sector: nat) returns (r: Result<()>)
      requires Valid() && i < SLOTS && slots[i].sector.None?
      requires forall j: nat :: !Holds(slots, j, sector)
      modifies this`slots, this`tick, this`faults
      ensures Tracks(old(Now()), Now(), sectorSize, 0, 0)
      ensures r.Err? ==> slots == old(slots) && r.error == if OnDevice(sector) then Io else Corrupt
      ensures Accounted(r.Err?, OnDevice(sector), old(faults), faults) && (old(Inside()) ==> Inside())
      ensures r.Ok? ==> Holds(slots, i, sector) && slots[i].stamp == tick == old(tick) + 1
    {
      if Units(sector, sectorSize) + sectorSize > |device| {
        return Err(Corrupt);
      }
      var fault: bool := *;
      if fault {
        faults := faults + 1;
        return Err(Io);
      }
      var buf := device[Units(sector, sectorSize)..Units(sector, sectorSize) + sectorSize];
      var stamp := NextStamp();
      slots := slots[i := Slot(Some(sector), false, stamp, buf)];
      LoadTracks(old(Now()), Now(), sectorSize, i, sector, stamp);
      r := Ok(());
    }

    /** Index of the slot holding `sector`, now the most recently used, loading it on a miss after writing the least
        recently used slot back. With `fillOnly` the device is not read: the caller must
        overwrite the whole slot, and `base` is the image with that slot still empty. */
    method SlotIndex(sector: nat, fillOnly: bool) returns (r: Result<nat>, ghost base: Image)
      requires Valid()
      modifies this`slots, this`device, this`moments, this`tick, this`faults
      ensures base.device == device
      ensures Run(old(Now()), old(moments), base, moments, sectorSize, 0, 0)
      ensures r.Err? ==> base == Now()
      ensures r.Ok? ==> r.value < SLOTS && forall j: nat :: Holds(base.slots, j, sector) ==> j == r.value
      ensures r.Ok? ==> Holds(slots, r.value, sector) && slots[r.value].stamp == tick == old(tick) + 1
      ensures r.Err? ==> r.error == Io || (r.error == Corrupt && !OnDevice(sector))
      ensures Accounted(r.Err?, old(Inside()) && OnDevice(sector), old(faults), faults)
      ensures old(Inside()) && (fillOnly ==> OnDevice(sector)) ==> Inside()
      ensures r.Ok? && Holds(base.slots, r.value, sector) ==> base == Now()
      ensures r.Ok? && !Holds(base.slots, r.value, sector) ==>
        && fillOnly
        && base.slots[r.value].sector.None?
        && slots == base.slots[r.value := Slot(Some(sector), false, tick, base.slots[r.value].buf)]
    {
      var i, hit := Find(sector);
      if hit {
        var stamp := NextStamp();
        slots := slots[i := slots[i].(stamp := stamp)];
        StampTracks(old(Now()), Now(), sectorSize, i);
        assert Holds(slots, i, sector);
        return Ok(i), Now();
      }
      var wb := Evict(i);
      base := Now();
      if wb.Err? {
        return Err(wb.error), base;
      }
      assert forall j: nat, t: nat :: Holds(slots, j, t) ==> Holds(old(slots), j, t);
      if fillOnly {
        var stamp := NextStamp();
        slots := slots[i := Slot(Some(sector), false, stamp, slots[i].buf)];
        return Ok(i), base;
      }
      var ld := Load(i, sector);
      RunThen(old(Now()), old(moments), base, moments, Now(), moments, sectorSize, 0, 0);
      base := Now();
      r := if ld.Ok? then Ok(i) else Err(ld.error);
    }

    /** What a slot holds of its sector is what the flat array holds there. */
    lemma SlotRange(i: nat, sector: nat, within: nat, n: nat)
      requires Valid() && Holds(slots, i, sector) && within + n <= sectorSize
      ensures forall p: nat :: Units(sector, sectorSize) + within <= p < Units(sector, sectorSize) + within + n ==>
        View(p) == Some(slots[i].buf[p - Units(sector, sectorSize)])
    {
      forall p: nat | Units(sector, sectorSize) + within <= p < Units(sector, sectorSize) + within + n
        ensures View(p) == Some(slots[i].buf[p - Units(sector, sectorSize)])
      {
        UnitsOf(p, sector, sectorSize);
        SlotDecides(Now(), sectorSize, i, p);
      }
    }

    /** A range that reaches no sector past the medium. */
    lemma LastReaches(offset: nat, len: nat, p: nat)
      requires sectorSize > 0 && offset <= p < offset + len
      ensures Reaches(offset, len) ==> OnDevice(Unit(p, sectorSize))
    {
      DivMono(p, offset + len - 1, sectorSize);
      if Reaches(offset, len) {
        OnDeviceBelow(Unit(p, sectorSize), Unit(offset + len - 1, sectorSize));
      }
    }

    /** Cached read of `buf.Length` bytes at `offset`. */
    method ReadAt(offset: nat, buf: array<Byte>) returns (r: Result<()>)
      requires Valid()
      modifies this`slots, this`device, this`moments, this`tick, this`faults, buf
      ensures Run(old(Now()), old(moments), Now(), moments, sectorSize, 0, 0)
      ensures r.Ok? ==> forall p: nat :: offset <= p < offset + buf.Length ==> old(View(p)) == Some(buf[p - offset])
      ensures r.Err? ==> r.error == Io || (r.error == Corrupt && !Reaches(offset, buf.Length))
      ensures Accounted(r.Err?, old(Inside()) && Reaches(offset, buf.Length), old(faults), faults)
      ensures old(Inside()) ==> Inside()
    {
      var done := 0;
      while done < buf.Length
        invariant done <= buf.Length && faults == old(faults) && (old(Inside()) ==> Inside())
        invariant Run(old(Now()), old(moments), Now(), moments, sectorSize, 0, 0)
        invariant forall p: nat :: offset <= p < offset + done ==> old(View(p)) == Some(buf[p - offset])
      {
        var pos := offset + done;
        var sector := Unit(pos, sectorSize);
        var within := Within(pos, sectorSize);
        UnitsOf(pos, sector, sectorSize);
        var n := Min(sectorSize - within, buf.Length - done);
        ghost var before, m := Now(), moments;
        LastReaches(offset, buf.Length, pos);
        var si, base := SlotIndex(sector, false);
        RunThen(old(Now()), old(moments), before, m, Now(), moments, sectorSize, 0, 0);
        if si.Err? {
          return Err(si.error);
        }
        var i := si.value;
        SlotRange(i, sector, within, n);
        assert forall p: nat :: pos <= p < pos + n ==> View(p) == old(View(p));
        forall k | 0 <= k < n {
          buf[done + k] := slots[i].buf[within + k];
        }
        done := done + n;
      }
      r := Ok(());
    }

    /** One sector's worth of a cached write. */
    method WritePiece(pos: nat, data: seq<Byte>) returns (r: Result<()>)
      requires Valid() && 0 < |data| && Within(pos, sectorSize) + |data| <= sectorSize
      modifies this`slots, this`device, this`moments, this`tick, this`faults
      ensures Run(old(Now()), old(moments), Now(), moments, sectorSize, pos, pos + |data|)
      ensures Wrote(old(Now()), Now(), sectorSize, pos, if r.Ok? then data else [])
      ensures r.Err? ==> Run(old(Now()), old(moments), Now(), moments, sectorSize, 0, 0)
      ensures r.Err? ==> r.error == Io || (r.error == Corrupt && !OnDevice(Unit(pos, sectorSize)))
      ensures Accounted(r.Err?, old(Inside()) && OnDevice(Unit(pos, sectorSize)), old(faults), faults)
      ensures old(Inside()) && OnDevice(Unit(pos, sectorSize)) ==> Inside()
    {
      var sector := Unit(pos, sectorSize);
      var within := Within(pos, sectorSize);
      UnitsOf(pos, sector, sectorSize);
      var full := within == 0 && |data| == sectorSize;
      var si, base := SlotIndex(sector, full);
      if si.Err? {
        RunWiden(old(Now()), old(moments), base, moments, sectorSize, 0, 0, pos, pos + |data|);
        return Err(si.error);
      }
      var i := si.value;
      Patch(i, sector, within, data, old(Now()), old(moments), base);
      r := Ok(());
    }

    /** Overwrite part of the slot that holds `sector`, or, when it has not been loaded since `base`, all
        of it. */
    method Patch(i: nat, sector: nat, within: nat, data: seq<Byte>, ghost a: Image, ghost m: set<Image>,
        ghost base: Image)
      requires Run(a, m, base, moments, sectorSize, 0, 0) && base.device == device && within + |data| <= sectorSize
      requires Holds(slots, i, sector) && forall j: nat :: Holds(base.slots, j, sector) ==> j == i
      requires |slots| == |base.slots| && slots[i].buf == base.slots[i].buf
      requires forall j :: 0 <= j < |slots| && j != i ==> slots[j] == base.slots[j]
      requires Holds(base.slots, i, sector) || (base.slots[i].sector.None? && within == 0 && |data| == sectorSize)
      modifies this`slots, this`moments
      ensures Run(a, m, Now(), moments, sectorSize, Units(sector, sectorSize) + within,
        Units(sector, sectorSize) + within + |data|)
      ensures Wrote(a, Now(), sectorSize, Units(sector, sectorSize) + within, data)
      ensures old(Inside()) ==> Inside()
    {
      ghost var loaded := moments;
      slots := slots[i := slots[i].(buf := Splice(slots[i].buf, within, data), dirty := true)];
      Record();
      PatchRun(a, m, base, loaded, Now(), sectorSize, i, sector, within, data);
    }

    /** Cached write-back write. A failure leaves a prefix of the write applied. */
    method WriteAt(offset: nat, buf: seq<Byte>) returns (r: Result<()>, ghost done: nat)
      requires Valid()
      modifies this`slots, this`device, this`moments, this`tick, this`faults
      ensures Run(old(Now()), old(moments), Now(), moments, sectorSize, offset, offset + |buf|)
      ensures done <= |buf| && (r.Ok? ==> done == |buf|)
      ensures Wrote(old(Now()), Now(), sectorSize, offset, buf[..done])
      ensures r.Err? && Within(offset, sectorSize) + |buf| <= sectorSize ==> done == 0
      ensures done == 0 ==> Run(old(Now()), old(moments), Now(), moments, sectorSize, 0, 0)
      ensures r.Err? ==> r.error == Io || (r.error == Corrupt && !Reaches(offset, |buf|))
      ensures Accounted(r.Err?, old(Inside()) && Reaches(offset, |buf|), old(faults), faults)
      ensures old(Inside()) && Reaches(offset, |buf|) ==> Inside()
    {
      var count := 0;
      done := 0;
      while count < |buf|
        invariant count == done <= |buf| && faults == old(faults)
        invariant old(Inside()) && Reaches(offset, |buf|) ==> Inside()
        invariant Run(old(Now()), old(moments), Now(), moments, sectorSize, offset, offset + |buf|)
        invariant Wrote(old(Now()), Now(), sectorSize, offset, buf[..done])
        invariant Within(offset, sectorSize) + |buf| <= sectorSize ==> done == 0 || done == |buf|
        invariant done == 0 ==> Run(old(Now()), old(moments), Now(), moments, sectorSize, 0, 0)
      {
        var pos := offset + count;
        var n := Min(sectorSize - Within(pos, sectorSize), |buf| - count);
        assert count == 0 ==> pos == offset;
        ghost var before, m := Now(), moments;
        LastReaches(offset, |buf|, pos);
        r := WritePiece(pos, buf[count..count + n]);
        PieceDone(old(Now()), old(moments), before, m, Now(), moments, sectorSize, offset, buf, count, pos, count + n,
          r.Ok?);
        if r.Err? {
          if done == 0 {
            RunThen(old(Now()), old(moments), before, m, Now(), moments, sectorSize, 0, 0);
          }
          return;
        }
        count := count + n;
        done := count;
      }
      r := Ok(());
    }

    /** Write back every slot overlapping the range, and empty it when `invalidate` is set. */
    method WritebackOverlap(offset: nat, len: nat, invalidate: bool) returns (r: Result<()>)
      requires Valid()
      modifies this`slots, this`device, this`moments, this`faults
      ensures Run(old(Now()), old(moments), Now(), moments, sectorSize, 0, 0)
      ensures r.Ok? && len > 0 ==>
        forall i: nat, s: nat :: Holds(slots, i, s) &&
          Unit(offset, sectorSize) <= s <= Unit(offset + len - 1, sectorSize)
          ==> !invalidate && !slots[i].dirty
      ensures r.Err? ==> r.error == Io
      ensures Accounted(r.Err?, old(Inside()), old(faults), faults) && (old(Inside()) ==> Inside())
    {
      if len == 0 {
        return Ok(());
      }
      var first, last := Unit(offset, sectorSize), Unit(offset + len - 1, sectorSize);
      var k := 0;
      while k < |slots|
        invariant k <= |slots| == SLOTS && faults == old(faults) && (old(Inside()) ==> Inside())
        invariant Run(old(Now()), old(moments), Now(), moments, sectorSize, 0, 0)
        invariant forall i: nat, s: nat :: i < k && Holds(slots, i, s) && first <= s <= last ==>
          !invalidate &&
          !slots[i].dirty
      {
        if slots[k].sector.Some? && first <= slots[k].sector.value <= last {
          ghost var before, m := Now(), moments;
          if invalidate {
            r := Evict(k);
          } else {
            r := WriteBack(k);
          }
          RunThen(old(Now()), old(moments), before, m, Now(), moments, sectorSize, 0, 0);
          if r.Err? {
            return;
          }
          assert forall i: nat, s: nat :: i < k && Holds(slots, i, s) ==> Holds(before.slots, i, s);
        }
        k := k + 1;
      }
      r := Ok(());
    }

    /** Where no dirty slot overlaps a range, the device already shows the flat array. */
    lemma DirectRange(offset: nat, len: nat)
      requires Valid() && len > 0 && offset + len <= |device|
      requires
        forall i: nat, s: nat :: Holds(slots, i, s) &&
          Unit(offset, sectorSize) <= s <= Unit(offset + len - 1, sectorSize)
          ==> !slots[i].dirty
      ensures forall p: nat :: offset <= p < offset + len ==> View(p) == Some(device[p])
    {
      forall p: nat | offset <= p < offset + len
        ensures View(p) == Some(device[p])
      {
        DivMono(offset, p, sectorSize);
        DivMono(p, offset + len - 1, sectorSize);
        if j: nat :| Holds(slots, j, Unit(p, sectorSize)) {
          SlotDecides(Now(), sectorSize, j, p);
          CleanByte(Now(), sectorSize, j, p);
        }
      }
    }

    /** Uncached bulk read, coherent with the cached writes. */
    method ReadThrough(offset: nat, buf: array<Byte>) returns (r: Result<()>)
      requires Valid()
      modifies this`slots, this`device, this`moments, this`faults, buf
      ensures Run(old(Now()), old(moments), Now(), moments, sectorSize, 0, 0)
      ensures r.Ok? ==> forall p: nat :: offset <= p < offset + buf.Length ==> old(View(p)) == Some(buf[p - offset])
      ensures r.Err? ==> r.error == Io || (r.error == Corrupt && offset + buf.Length > |device|)
      ensures Accounted(r.Err?, old(Inside()) && offset + buf.Length <= |device|, old(faults), faults)
      ensures old(Inside()) ==> Inside()
    {
      r := WritebackOverlap(offset, buf.Length, false);
      if r.Err? {
        return;
      }
      var fault: bool := *;
      if offset + buf.Length > |device| {
        return Err(Corrupt);
      }
      if fault {
        faults := faults + 1;
        return Err(Io);
      }
      if buf.Length > 0 {
        DirectRange(offset, buf.Length);
      }
      assert forall p: nat :: offset <= p < offset + buf.Length ==> View(p) == old(View(p));
      forall k | 0 <= k < buf.Length {
        buf[k] := device[offset + k];
      }
    }

    /** Uncached bulk write, coherent with later cached reads. A failure leaves a prefix
        of the write applied. */
    method WriteThrough(offset: nat, buf: seq<Byte>) returns (r: Result<()>, ghost done: nat)
      requires Valid()
      modifies this`slots, this`device, this`moments, this`faults
      ensures Run(old(Now()), old(moments), Now(), moments, sectorSize, offset, offset + |buf|)
      ensures done <= |buf| && (r.Ok? ==> done == |buf|)
      ensures Wrote(old(Now()), Now(), sectorSize, offset, buf[..done])
      ensures r.Err? ==> r.error == Io
      ensures Accounted(r.Err?, old(Inside()) && offset + |buf| <= |device|, old(faults), faults)
      ensures old(Inside()) ==> Inside()
    {
      r := WritebackOverlap(offset, |buf|, true);
      ghost var before, m := Now(), moments;
      RunWiden(old(Now()), old(moments), before, m, sectorSize, 0, 0, offset, offset + |buf|);
      if r.Err? {
        return r, 0;
      }
      var ok, landed := DeviceWrite(offset, buf);
      done := landed;
      if landed > 0 {
        DivMono(offset + landed - 1, offset + |buf| - 1, sectorSize);
        ThroughTracks(before, Now(), sectorSize, offset, buf[..landed]);
        Record();
        RunWiden(before, m, Now(), moments, sectorSize, offset, offset + landed, offset, offset + |buf|);
        RunThen(old(Now()), old(moments), before, m, Now(), moments, sectorSize, offset, offset + |buf|);
        QuietWrote(old(Now()), before, Now(), sectorSize, offset, buf[..landed]);
      }
      r := if ok then Ok(()) else Err(Io);
    }

    /** Write every dirty slot back; on success the device is the flat array. */
    method Flush() returns (r: Result<()>)
      requires Valid()
      modifies this`slots, this`device, this`moments, this`faults
      ensures Run(old(Now()), old(moments), Now(), moments, sectorSize, 0, 0)
      ensures r.Ok? ==> forall p: nat :: DeviceAt(device, p) == View(p)
      ensures r.Err? ==> r.error == Io
      ensures Accounted(r.Err?, old(Inside()), old(faults), faults) && (old(Inside()) ==> Inside())
    {
      var k := 0;
      while k < |slots|
        invariant k <= |slots| == SLOTS && faults == old(faults) && (old(Inside()) ==> Inside())
        invariant Run(old(Now()), old(moments), Now(), moments, sectorSize, 0, 0)
        invariant forall i :: 0 <= i < k ==> !slots[i].dirty
      {
        ghost var before, m := Now(), moments;
        r := WriteBack(k);
        RunThen(old(Now()), old(moments), before, m, Now(), moments, sectorSize, 0, 0);
        if r.Err? {
          return;
        }
        k := k + 1;
      }
      AllClean(Now(), sectorSize);
      r := Ok(());
    }

    /** Device-level flush: nothing moves, but the medium may report an error. */
    method FlushDevice() returns (r: Result<()>)
      modifies this`faults, this`settled
      ensures r.Err? ==> r.error == Io
      ensures settled == if r.Ok? then device else old(settled)
      ensures Accounted(r.Err?, true, old(faults), faults)
    {
      var fault: bool := *;
      if fault {
        faults := faults + 1;
      } else {
        settled := device;
      }
      r := if fault then Err(Io) else Ok(());
    }
  }
}
