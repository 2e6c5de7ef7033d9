/** The exFAT `VolumeDirty` protocol (src/exfat/mod.rs) over the sector cache: whenever the
    flag on the device is clear, the device holds everything the volume logically holds. */
module VolumeDirty {
  import opened Basics
  import opened Storage

  const VOLUME_FLAGS_OFFSET: nat := 106
  const PERCENT_IN_USE_OFFSET: nat := 112

  /** A 16-bit word by its bytes, as the device has it: the low one first. */
  datatype Word = Word(lo: Byte, hi: Byte)

  /** Bit 1 of `VolumeFlags`, and the word with that bit raised or lowered. */
  predicate DirtyBit(flags: Word) { (flags.lo / 2) % 2 == 1 }

  function Raised(flags: Word): (r: Word)
    ensures DirtyBit(r)
  {
    if DirtyBit(flags) then flags else Word(flags.lo + 2, flags.hi)
  }

  function Lowered(flags: Word): (r: Word)
    ensures !DirtyBit(r)
  {
    if DirtyBit(flags) then Word(flags.lo - 2, flags.hi) else flags
  }

  /** Raising and lowering leave every other bit alone, and lowering undoes raising. */
  lemma OtherBitsKept(flags: Word, n: nat)
    requires n > 1
    ensures ToBits(Raised(flags).lo, n) == ToBits(flags.lo, n)[1 := true] && Raised(flags).hi == flags.hi
    ensures ToBits(Lowered(flags).lo, n) == ToBits(flags.lo, n)[1 := false] && Lowered(flags).hi == flags.hi
    ensures !DirtyBit(flags) ==> Lowered(Raised(flags)) == flags
  {
    var low: nat := if DirtyBit(flags) then flags.lo - 2 else flags.lo;
    PlusTwo(low);
    BitOne(low, n);
  }

  /** `VolumeFlags` as it stands on the device. */
  function FlagsOn(device: seq<Byte>): Word
    requires |device| > PERCENT_IN_USE_OFFSET
  {
    Word(device[VOLUME_FLAGS_OFFSET], device[VOLUME_FLAGS_OFFSET + 1])
  }

  /** The three boot-sector bytes the protocol itself rewrites. */
  predicate ProtocolByte(p: nat) {
    p == VOLUME_FLAGS_OFFSET || p == VOLUME_FLAGS_OFFSET + 1 || p == PERCENT_IN_USE_OFFSET
  }

  /** The `VolumeDirty` bit as it stands on the device. */
  predicate FlagSet(device: seq<Byte>) {
    |device| > PERCENT_IN_USE_OFFSET && (device[VOLUME_FLAGS_OFFSET] / 2) % 2 == 1
  }

  /** The device and the flat array agree everywhere but at the protocol's own bytes. */
  ghost predicate Synced(im: Image, ss: nat)
    requires Coherent(im, ss)
  {
    forall p: nat :: !ProtocolByte(p) ==> LogicalAt(im, ss, p) == DeviceAt(im.device, p)
  }

  /** The promise of the flag: clear on the device means nothing is missing from the device. */
  ghost predicate Safe(im: Image, ss: nat) {
    Coherent(im, ss) && (!FlagSet(im.device) ==> Synced(im, ss))
  }

  /** The flat array of `b` is that of `a` with `data` at `offset`, the protocol's own bytes aside. */
  ghost predicate Puts(a: Image, b: Image, ss: nat, offset: nat, data: seq<Byte>) {
    && Coherent(a, ss) && Coherent(b, ss)
    && forall p: nat {:trigger LogicalAt(b, ss, p)} :: !ProtocolByte(p) ==>
         LogicalAt(b, ss, p) == if offset <= p < offset + |data| then Some(data[p - offset]) else LogicalAt(a, ss, p)
  }

  /** Flag bytes read `w` through the cache. */
  ghost predicate ShowsFlags(im: Image, ss: nat, w: Word)
    requires Coherent(im, ss)
  {
    && LogicalAt(im, ss, VOLUME_FLAGS_OFFSET) == Some(w.lo)
    && LogicalAt(im, ss, VOLUME_FLAGS_OFFSET + 1) == Some(w.hi)
  }

  /** The device already shows the word, too. */
  ghost predicate Flagged(im: Image, ss: nat, w: Word)
    requires Coherent(im, ss)
  {
    && |im.device| > PERCENT_IN_USE_OFFSET
    && FlagsOn(im.device) == w
    && ShowsFlags(im, ss, w)
  }

  /** The usage marker reads "not available", on the device and through the cache. */
  ghost predicate Unavailable(im: Image, ss: nat)
    requires Coherent(im, ss)
  {
    && |im.device| > PERCENT_IN_USE_OFFSET && im.device[PERCENT_IN_USE_OFFSET] == 0xFF
    && LogicalAt(im, ss, PERCENT_IN_USE_OFFSET) == Some(0xFF)
  }

  /** A range without protocol bytes. */
  ghost predicate Aside(lo: nat, hi: nat) { forall p: nat :: lo <= p < hi ==> !ProtocolByte(p) }

  /** While device and flat array agree, a run confined to protocol bytes keeps every moment safe. */
  lemma SyncedRun(a: Image, m0: set<Image>, b: Image, m1: set<Image>, ss: nat, lo: nat, hi: nat)
    requires Run(a, m0, b, m1, ss, lo, hi) && Synced(a, ss)
    requires forall p: nat :: lo <= p < hi ==> ProtocolByte(p)
    ensures Synced(b, ss)
    ensures forall m :: m in m1 && m !in m0 ==> Safe(m, ss)
  {
    SyncedTracks(a, b, ss, lo, hi);
    forall m | m in m1 && m !in m0
      ensures Safe(m, ss)
    {
      SyncedTracks(a, m, ss, lo, hi);
    }
  }

  lemma SyncedTracks(a: Image, b: Image, ss: nat, lo: nat, hi: nat)
    requires Tracks(a, b, ss, lo, hi) && Synced(a, ss)
    requires forall p: nat :: lo <= p < hi ==> ProtocolByte(p)
    ensures Synced(b, ss)
  {
    forall p: nat | !ProtocolByte(p)
      ensures LogicalAt(b, ss, p) == DeviceAt(b.device, p)
    {
      assert !(lo <= p < hi);
      assert LogicalAt(b, ss, p) == LogicalAt(a, ss, p);
    }
  }

  /** While the device shows the raised flag, a step away from the protocol bytes keeps them there. */
  lemma FlaggedTracks(a: Image, b: Image, ss: nat, lo: nat, hi: nat, w: Word)
    requires Tracks(a, b, ss, lo, hi) && Flagged(a, ss, w) && DirtyBit(w) && Aside(lo, hi)
    ensures Flagged(b, ss, w) && FlagSet(b.device)
    ensures Unavailable(a, ss) ==> Unavailable(b, ss)
  {
    assert ProtocolByte(VOLUME_FLAGS_OFFSET) && ProtocolByte(VOLUME_FLAGS_OFFSET + 1);
    assert ProtocolByte(PERCENT_IN_USE_OFFSET);
    assert LogicalAt(b, ss, VOLUME_FLAGS_OFFSET) == LogicalAt(a, ss, VOLUME_FLAGS_OFFSET);
    assert LogicalAt(b, ss, VOLUME_FLAGS_OFFSET + 1) == LogicalAt(a, ss, VOLUME_FLAGS_OFFSET + 1);
    assert LogicalAt(b, ss, PERCENT_IN_USE_OFFSET) == LogicalAt(a, ss, PERCENT_IN_USE_OFFSET);
  }

  lemma FlaggedRun(a: Image, m0: set<Image>, b: Image, m1: set<Image>, ss: nat, lo: nat, hi: nat, w: Word)
    requires Run(a, m0, b, m1, ss, lo, hi) && Flagged(a, ss, w) && DirtyBit(w) && Aside(lo, hi)
    ensures Flagged(b, ss, w)
    ensures Unavailable(a, ss) ==> Unavailable(b, ss)
    ensures forall m :: m in m1 && m !in m0 ==> Safe(m, ss)
  {
    FlaggedTracks(a, b, ss, lo, hi, w);
    forall m | m in m1 && m !in m0
      ensures Safe(m, ss)
    {
      FlaggedTracks(a, m, ss, lo, hi, w);
    }
  }

  /** The protocol's invariant: outside a dirty window nothing is missing from the device,
      inside one (or on a volume mounted dirty) the device shows the mounted word with the flag
      raised; the cache shows that or the mounted word; and every moment of the run so far was safe. */
  ghost predicate Protocol(im: Image, moments: set<Image>, ss: nat, flags: Word, dirtySinceMount: bool,
      volumeDirty: bool) {
    && Coherent(im, ss)
    && |im.device| > PERCENT_IN_USE_OFFSET
    && dirtySinceMount == DirtyBit(flags)
    && (dirtySinceMount ==> !volumeDirty && Flagged(im, ss, flags))
    && (volumeDirty ==> Flagged(im, ss, Raised(flags)) && Unavailable(im, ss))
    && (ShowsFlags(im, ss, flags) || ShowsFlags(im, ss, Raised(flags)))
    && (!dirtySinceMount && !volumeDirty ==> Synced(im, ss))
    && forall m :: m in moments ==> Safe(m, ss)
  }

  /** A run that leaves the protocol bytes alone, or that touches only those while device and flat
      array agree and ends with the mounted word in the cache, raised or not, keeps the invariant. */
  lemma ProtocolKept(a: Image, m0: set<Image>, b: Image, m1: set<Image>, ss: nat, flags: Word, dirtySinceMount: bool,
      volumeDirty: bool, lo: nat, hi: nat)
    requires Protocol(a, m0, ss, flags, dirtySinceMount, volumeDirty)
    requires Run(a, m0, b, m1, ss, lo, hi)
    requires dirtySinceMount || volumeDirty ==> Aside(lo, hi)
    requires !dirtySinceMount && !volumeDirty ==> forall p: nat :: lo <= p < hi ==> ProtocolByte(p)
    requires !dirtySinceMount && !volumeDirty ==> ShowsFlags(b, ss, flags) || ShowsFlags(b, ss, Raised(flags))
    ensures Protocol(b, m1, ss, flags, dirtySinceMount, volumeDirty)
  {
    if dirtySinceMount || volumeDirty {
      FlaggedRun(a, m0, b, m1, ss, lo, hi, if dirtySinceMount then flags else Raised(flags));
    } else {
      SyncedRun(a, m0, b, m1, ss, lo, hi);
    }
  }

  /** A run that changes nothing keeps it. */
  lemma QuietKept(a: Image, m0: set<Image>, b: Image, m1: set<Image>, ss: nat, flags: Word, dirtySinceMount: bool,
      volumeDirty: bool)
    requires Protocol(a, m0, ss, flags, dirtySinceMount, volumeDirty) && Run(a, m0, b, m1, ss, 0, 0)
    ensures Protocol(b, m1, ss, flags, dirtySinceMount, volumeDirty)
  {
    WordKept(a, b, ss, 0, 0);
    ProtocolKept(a, m0, b, m1, ss, flags, dirtySinceMount, volumeDirty, 0, 0);
  }

  /** A step away from the word's bytes keeps it in the cache. */
  lemma WordKept(a: Image, b: Image, ss: nat, lo: nat, hi: nat)
    requires Tracks(a, b, ss, lo, hi)
    requires lo >= hi || hi <= VOLUME_FLAGS_OFFSET || lo > VOLUME_FLAGS_OFFSET + 1
    ensures forall w :: ShowsFlags(a, ss, w) ==> ShowsFlags(b, ss, w)
  {
    assert LogicalAt(b, ss, VOLUME_FLAGS_OFFSET) == LogicalAt(a, ss, VOLUME_FLAGS_OFFSET);
    assert LogicalAt(b, ss, VOLUME_FLAGS_OFFSET + 1) == LogicalAt(a, ss, VOLUME_FLAGS_OFFSET + 1);
  }

  /** Once the raised flag has reached the device, the dirty window is open. */
  lemma WindowOpens(im: Image, moments: set<Image>, ss: nat, flags: Word)
    requires Protocol(im, moments, ss, flags, false, false)
    requires ShowsFlags(im, ss, Raised(flags)) && LogicalAt(im, ss, PERCENT_IN_USE_OFFSET) == Some(0xFF)
    requires forall p: nat :: ProtocolByte(p) ==> LogicalAt(im, ss, p) == DeviceAt(im.device, p)
    ensures Protocol(im, moments, ss, flags, false, true) && FlagSet(im.device)
  {
    assert ProtocolByte(VOLUME_FLAGS_OFFSET) && ProtocolByte(VOLUME_FLAGS_OFFSET + 1);
    assert ProtocolByte(PERCENT_IN_USE_OFFSET);
    assert Flagged(im, ss, Raised(flags)) && Unavailable(im, ss);
  }

  /** When the device holds what the cache shows, it holds the word. */
  lemma DeviceWord(im: Image, ss: nat, w: Word)
    requires Coherent(im, ss) && ShowsFlags(im, ss, w) && |im.device| > PERCENT_IN_USE_OFFSET
    requires forall p: nat :: DeviceAt(im.device, p) == LogicalAt(im, ss, p)
    ensures FlagsOn(im.device) == w && (FlagSet(im.device) <==> DirtyBit(w))
  {
    assert DeviceAt(im.device, VOLUME_FLAGS_OFFSET) == Some(w.lo);
    assert DeviceAt(im.device, VOLUME_FLAGS_OFFSET + 1) == Some(w.hi);
  }

  /** A mounted exFAT volume, as far as the flag is concerned. */
  class ExfatVolume {
    const cache: SectorCache
    /** `VolumeFlags` as read at mount. */
    const flags: Word
    const dirtySinceMount: bool
    var volumeDirty: bool

    function Now(): Image
      reads this, cache
    {
      cache.Now()
    }

    ghost predicate Valid()
      reads this, cache
    {
      && cache.Valid()
      && cache.sectorSize > PERCENT_IN_USE_OFFSET
      && Protocol(Now(), cache.moments, cache.sectorSize, flags, dirtySinceMount, volumeDirty)
    }

    /** The boot sector is on the device, and so is every cached sector. */
    ghost predicate Sane()
      reads this, cache
    {
      cache.OnDevice(0) && cache.Inside()
    }

    /** Mounting takes over the storage and reads the flags; the cache starts empty. */
    constructor (storage: seq<Byte>, sectorSize: nat)
      requires sectorSize > PERCENT_IN_USE_OFFSET && |storage| > PERCENT_IN_USE_OFFSET
      ensures Valid() && fresh(cache) && cache.device == storage && !volumeDirty
      ensures forall p: nat :: cache.View(p) == DeviceAt(storage, p)
      ensures dirtySinceMount == FlagSet(storage) && flags == FlagsOn(storage) && cache.Inside()
      ensures cache.sectorSize == sectorSize
    {
      var c := new SectorCache(storage, sectorSize);
      cache := c;
      var w := FlagsOn(storage);
      flags := w;
      dirtySinceMount := DirtyBit(w);
      volumeDirty := false;
      new;
      assert cache.View(VOLUME_FLAGS_OFFSET) == DeviceAt(storage, VOLUME_FLAGS_OFFSET);
      assert cache.View(VOLUME_FLAGS_OFFSET + 1) == DeviceAt(storage, VOLUME_FLAGS_OFFSET + 1);
    }

    /** Flush pending metadata to the device. */
    method Sync() returns (r: Result<()>)
      requires Valid()
      modifies cache
      ensures Valid() && old(cache.moments) <= cache.moments && |cache.device| == |old(cache.device)|
      ensures Accounted(r.Err?, old(Sane()), old(cache.faults), cache.faults) && (old(Sane()) ==> Sane())
      ensures Puts(old(Now()), Now(), cache.sectorSize, 0, [])
      ensures forall w :: old(ShowsFlags(Now(), cache.sectorSize, w)) ==> ShowsFlags(Now(), cache.sectorSize, w)
      ensures cache.View(PERCENT_IN_USE_OFFSET) == old(cache.View(PERCENT_IN_USE_OFFSET))
      ensures r.Ok? ==> cache.settled == cache.device && forall p: nat :: DeviceAt(cache.device, p) == cache.View(p)
    {
      r := cache.Flush();
      WordKept(old(Now()), Now(), cache.sectorSize, 0, 0);
      QuietKept(old(Now()), old(cache.moments), Now(), cache.moments, cache.sectorSize, flags, dirtySinceMount,
        volumeDirty);
      if r.Ok? {
        r := cache.FlushDevice();
      }
    }

    /** Store `w` into the boot sector's `VolumeFlags`, through the cache. */
    method WriteVolumeFlags(w: Word) returns (r: Result<()>)
      requires cache.Valid() && cache.sectorSize > PERCENT_IN_USE_OFFSET
      modifies cache
      ensures cache.Valid() && |cache.device| == |old(cache.device)|
      ensures Accounted(r.Err?, old(Sane()), old(cache.faults), cache.faults) && (old(Sane()) ==> Sane())
      ensures Run(old(Now()), old(cache.moments), Now(), cache.moments, cache.sectorSize, VOLUME_FLAGS_OFFSET,
        VOLUME_FLAGS_OFFSET + 2)
      ensures r.Ok? ==> ShowsFlags(Now(), cache.sectorSize, w)
      ensures r.Err? ==> Run(old(Now()), old(cache.moments), Now(), cache.moments, cache.sectorSize, 0, 0)
    {
      UnitsOf(VOLUME_FLAGS_OFFSET, 0, cache.sectorSize);
      ghost var done;
      r, done := cache.WriteAt(VOLUME_FLAGS_OFFSET, [w.lo, w.hi]);
    }

    /** Put the raised flag and the "not available" usage marker into the cache. */
    method StampRaised() returns (r: Result<()>)
      requires Valid() && !dirtySinceMount && !volumeDirty
      modifies cache
      ensures Valid() && old(cache.moments) <= cache.moments && |cache.device| == |old(cache.device)|
      ensures Accounted(r.Err?, old(Sane()), old(cache.faults), cache.faults) && (old(Sane()) ==> Sane())
      ensures Puts(old(Now()), Now(), cache.sectorSize, 0, [])
      ensures r.Ok? ==>
        ShowsFlags(Now(), cache.sectorSize, Raised(flags)) && cache.View(PERCENT_IN_USE_OFFSET) == Some(0xFF)
    {
      r := WriteVolumeFlags(Raised(flags));
      if r.Err? {
        WordKept(old(Now()), Now(), cache.sectorSize, 0, 0);
      }
      ProtocolKept(old(Now()), old(cache.moments), Now(), cache.moments, cache.sectorSize, flags, false, false,
        VOLUME_FLAGS_OFFSET, VOLUME_FLAGS_OFFSET + 2);
      if r.Ok? {
        r := StampUsage();
      }
    }

    method StampUsage() returns (r: Result<()>)
      requires Valid() && !dirtySinceMount && !volumeDirty && ShowsFlags(Now(), cache.sectorSize, Raised(flags))
      modifies cache
      ensures Valid() && old(cache.moments) <= cache.moments && |cache.device| == |old(cache.device)|
      ensures Accounted(r.Err?, old(Sane()), old(cache.faults), cache.faults) && (old(Sane()) ==> Sane())
      ensures Puts(old(Now()), Now(), cache.sectorSize, 0, [])
      ensures ShowsFlags(Now(), cache.sectorSize, Raised(flags))
      ensures r.Ok? ==> cache.View(PERCENT_IN_USE_OFFSET) == Some(0xFF)
    {
      UnitsOf(PERCENT_IN_USE_OFFSET, 0, cache.sectorSize);
      ghost var done;
      r, done := cache.WriteAt(PERCENT_IN_USE_OFFSET, [0xFF]);
      WordKept(old(Now()), Now(), cache.sectorSize, PERCENT_IN_USE_OFFSET, PERCENT_IN_USE_OFFSET + 1);
      ProtocolKept(old(Now()), old(cache.moments), Now(), cache.moments, cache.sectorSize, flags, false, false,
        PERCENT_IN_USE_OFFSET, PERCENT_IN_USE_OFFSET + 1);
    }

    /** Raise `VolumeDirty` on the device once per dirty window. */
    method EnsureVolumeDirty() returns (r: Result<()>)
      requires Valid()
      modifies this`volumeDirty, cache
      ensures Valid() && old(cache.moments) <= cache.moments && |cache.device| == |old(cache.device)|
      ensures Accounted(r.Err?, old(Sane()), old(cache.faults), cache.faults) && (old(Sane()) ==> Sane())
      ensures r.Ok? ==> dirtySinceMount || volumeDirty
      ensures r.Ok? ==> FlagSet(cache.device) && |cache.device| > PERCENT_IN_USE_OFFSET
      ensures r.Ok? ==> FlagsOn(cache.device) == if dirtySinceMount then flags else Word(flags.lo + 2, flags.hi)
      ensures r.Ok? && !dirtySinceMount ==> cache.device[PERCENT_IN_USE_OFFSET] == 0xFF
      ensures Puts(old(Now()), Now(), cache.sectorSize, 0, [])
      ensures old(volumeDirty) ==> volumeDirty
    {
      if dirtySinceMount || volumeDirty {
        return Ok(());
      }
      r := StampRaised();
      if r.Err? {
        return;
      }
      r := Sync();
      if r.Ok? {
        WindowOpens(Now(), cache.moments, cache.sectorSize, flags);
        volumeDirty := true;
      }
    }

    /** Lower the flag this session raised. Called once everything is durable. */
    method ClearVolumeDirty() returns (r: Result<()>)
      requires Valid()
      requires Synced(Now(), cache.sectorSize)
      modifies this`volumeDirty, cache
      ensures Valid() && old(cache.moments) <= cache.moments && |cache.device| == |old(cache.device)|
      ensures Accounted(r.Err?, old(Sane()), old(cache.faults), cache.faults) && (old(Sane()) ==> Sane())
      ensures Puts(old(Now()), Now(), cache.sectorSize, 0, [])
      ensures r.Ok? && old(volumeDirty) ==> !volumeDirty && ShowsFlags(Now(), cache.sectorSize, flags)
      ensures cache.View(PERCENT_IN_USE_OFFSET) == old(cache.View(PERCENT_IN_USE_OFFSET))
      ensures !old(volumeDirty) ==> !volumeDirty && Now() == old(Now())
    {
      if dirtySinceMount || !volumeDirty {
        return Ok(());
      }
      r := WriteVolumeFlags(Lowered(flags));
      if r.Err? {
        QuietKept(old(Now()), old(cache.moments), Now(), cache.moments, cache.sectorSize, flags, dirtySinceMount,
          volumeDirty);
      } else {
        SyncedRun(old(Now()), old(cache.moments), Now(), cache.moments, cache.sectorSize, VOLUME_FLAGS_OFFSET,
          VOLUME_FLAGS_OFFSET + 2);
        volumeDirty := false;
      }
    }

    /** The user-facing flush. When it succeeds the device is the flat array, and the flag on a
        volume mounted clean is down, except when an earlier, failed attempt to raise it left it
        raised in the cache without entering the dirty window. */
    method Flush() returns (r: Result<()>)
      requires Valid()
      modifies this`volumeDirty, cache
      ensures Valid() && old(cache.moments) <= cache.moments && |cache.device| == |old(cache.device)|
      ensures Accounted(r.Err?, old(Sane()), old(cache.faults), cache.faults) && (old(Sane()) ==> Sane())
      ensures Puts(old(Now()), Now(), cache.sectorSize, 0, [])
      ensures r.Ok? ==> !volumeDirty && forall p: nat :: DeviceAt(cache.device, p) == cache.View(p)
      ensures r.Ok? && !dirtySinceMount ==>
        (FlagSet(cache.device) <==> !old(volumeDirty) && (old(cache.View(VOLUME_FLAGS_OFFSET)).value / 2) % 2 == 1)
      ensures |cache.device| > PERCENT_IN_USE_OFFSET
      ensures r.Ok? ==>
        FlagsOn(cache.device) == flags ||
        (!dirtySinceMount && !old(volumeDirty) && FlagsOn(cache.device) == Word(flags.lo + 2, flags.hi))
      ensures r.Ok? && old(volumeDirty) ==> cache.device[PERCENT_IN_USE_OFFSET] == 0xFF
    {
      r := Sync();
      if r.Err? {
        return;
      }
      assert Synced(Now(), cache.sectorSize);
      r := ClearVolumeDirty();
      if r.Err? {
        return;
      }
      ghost var w := ShownWord();
      r := Sync();
      if r.Ok? {
        assert cache.View(VOLUME_FLAGS_OFFSET) == Some(w.lo) && cache.View(VOLUME_FLAGS_OFFSET + 1) == Some(w.hi);
        DeviceWord(Now(), cache.sectorSize, w);
      }
    }

    /** The word in the cache. */
    ghost function ShownWord(): (w: Word)
      requires Valid()
      reads this, cache
      ensures ShowsFlags(Now(), cache.sectorSize, w) && (w == flags || w == Raised(flags))
    {
      if ShowsFlags(Now(), cache.sectorSize, flags) then flags else Raised(flags)
    }

    /** Cached write anywhere past the protocol's bytes. */
    method WriteAt(offset: nat, buf: seq<Byte>) returns (r: Result<()>, ghost done: nat)
      requires Valid() && offset > PERCENT_IN_USE_OFFSET
      modifies this`volumeDirty, cache
      ensures Valid() && old(cache.moments) <= cache.moments && done <= |buf|
      ensures |cache.device| == |old(cache.device)|
      ensures r.Ok? ==> done == |buf| && FlagSet(cache.device)
      ensures Accounted(r.Err?, old(Sane()) && cache.Reaches(offset, |buf|), old(cache.faults), cache.faults)
      ensures old(Sane()) && cache.Reaches(offset, |buf|) ==> Sane()
      ensures Puts(old(Now()), Now(), cache.sectorSize, offset, buf[..done])
    {
      r := EnsureVolumeDirty();
      if r.Err? {
        return r, 0;
      }
      label raised:
      r, done := cache.WriteAt(offset, buf);
      ProtocolKept(old@raised(Now()), old@raised(cache.moments), Now(), cache.moments, cache.sectorSize, flags,
        dirtySinceMount, volumeDirty, offset, offset + |buf|);
    }

    /** Uncached payload write anywhere past the protocol's bytes. */
    method WriteThroughAt(offset: nat, buf: seq<Byte>) returns (r: Result<()>, ghost done: nat)
      requires Valid() && offset > PERCENT_IN_USE_OFFSET
      modifies this`volumeDirty, cache
      ensures Valid() && old(cache.moments) <= cache.moments && done <= |buf|
      ensures |cache.device| == |old(cache.device)|
      ensures r.Ok? ==> done == |buf| && FlagSet(cache.device)
      ensures Accounted(r.Err?, old(Sane()) && offset + |buf| <= |cache.device|, old(cache.faults), cache.faults)
      ensures old(Sane()) ==> Sane()
      ensures Puts(old(Now()), Now(), cache.sectorSize, offset, buf[..done])
    {
      r := EnsureVolumeDirty();
      if r.Err? {
        return r, 0;
      }
      label raised:
      r, done := cache.WriteThrough(offset, buf);
      ProtocolKept(old@raised(Now()), old@raised(cache.moments), Now(), cache.moments, cache.sectorSize, flags,
        dirtySinceMount, volumeDirty, offset, offset + |buf|);
    }

    method ReadAt(offset: nat, buf: array<Byte>) returns (r: Result<()>)
      requires Valid()
      modifies cache, buf
      ensures Valid() && old(cache.moments) <= cache.moments && |cache.device| == |old(cache.device)|
      ensures Accounted(r.Err?, old(Sane()) && cache.Reaches(offset, buf.Length), old(cache.faults), cache.faults)
      ensures old(Sane()) ==> Sane()
      ensures Puts(old(Now()), Now(), cache.sectorSize, 0, [])
      ensures r.Ok? ==>
        forall p: nat :: offset <= p < offset + buf.Length ==> old(cache.View(p)) == Some(buf[p - offset])
    {
      r := cache.ReadAt(offset, buf);
      QuietKept(old(Now()), old(cache.moments), Now(), cache.moments, cache.sectorSize, flags, dirtySinceMount,
        volumeDirty);
    }
  }

  /** A call on the volume; `Through` bypasses the cache. */
  datatype Call =
    | Read(offset: nat, len: nat)
    | Write(offset: nat, data: seq<Byte>)
    | Through(offset: nat, data: seq<Byte>)
    | Sync
    | Flush

  /** What one call may change of the flat array. */
  predicate Touches(c: Call, p: nat) {
    (c.Write? || c.Through?) && c.offset <= p < c.offset + |c.data|
  }

  /** The call needs no sector past the end of a device of `size` bytes. */
  predicate Reaching(c: Call, size: nat, ss: nat)
    requires ss > 0
  {
    match c
    case Read(offset, len) => len > 0 ==> Units(Unit(offset + len - 1, ss), ss) + ss <= size
    case Write(offset, data) => |data| > 0 ==> Units(Unit(offset + |data| - 1, ss), ss) + ss <= size
    case Through(offset, data) => offset + |data| <= size
    case _ => true
  }

  /** So do the first `n` of a run. */
  ghost predicate AllReach(calls: seq<Call>, n: nat, size: nat, ss: nat)
    requires ss > 0
  {
    n <= |calls| && forall i :: 0 <= i < n ==> Reaching(calls[i], size, ss)
  }

  /** What a call does to the flat array: a write that succeeds puts its data there, one that fails may
      leave part of it, nothing else changes; after a flush or a sync the device holds all of it. */
  ghost predicate Does(a: Image, c: Call, out: Result<()>, b: Image, ss: nat) {
    && Coherent(a, ss) && Coherent(b, ss)
    && (forall p: nat {:trigger LogicalAt(b, ss, p)} :: !ProtocolByte(p) && !Touches(c, p) ==>
          LogicalAt(b, ss, p) == LogicalAt(a, ss, p))
    && (forall p: nat {:trigger LogicalAt(b, ss, p)} :: out.Ok? && Touches(c, p) ==>
          LogicalAt(b, ss, p) == Some(c.data[p - c.offset]))
    && (out.Ok? && (c.Sync? || c.Flush?) ==> Synced(b, ss))
  }

  /** A run, call after call. */
  ghost predicate Done(images: seq<Image>, calls: seq<Call>, outs: seq<Result<()>>, ss: nat) {
    && |outs| == |calls| && |images| == |calls| + 1
    && forall i :: 0 <= i < |calls| ==> Does(images[i], calls[i], outs[i], images[i + 1], ss)
  }

  lemma DoneThen(images: seq<Image>, calls: seq<Call>, k: nat, outs: seq<Result<()>>, out: Result<()>, b: Image,
      ss: nat)
    requires k < |calls| && Done(images, calls[..k], outs, ss) && Does(images[k], calls[k], out, b, ss)
    ensures Done(images + [b], calls[..k + 1], outs + [out], ss)
  {
    var now, upTo, all := images + [b], calls[..k + 1], outs + [out];
    forall i | 0 <= i < |upTo|
      ensures Does(now[i], upTo[i], all[i], now[i + 1], ss)
    {
      if i < k {
        assert Does(images[i], calls[..k][i], outs[i], images[i + 1], ss);
      }
    }
  }

  /** Any calls in any order, whether they succeed or fail: each does to the flat array what it says; at
      every moment of the run, a clear flag on the device means that nothing is missing from it, and of
      `VolumeFlags` only the flag ever changes. While the device answers, every call that stays on it
      succeeds. */
  method Perform(v: ExfatVolume, calls: seq<Call>) returns (outs: seq<Result<()>>, ghost images: seq<Image>)
    requires v.Valid()
    requires forall i :: 0 <= i < |calls| && (calls[i].Write? || calls[i].Through?) ==>
      calls[i].offset > PERCENT_IN_USE_OFFSET
    modifies v`volumeDirty, v.cache
    ensures v.Valid() && old(v.cache.moments) <= v.cache.moments
    ensures forall m :: m in v.cache.moments ==> Safe(m, v.cache.sectorSize)
    ensures !FlagSet(v.cache.device) ==>
      forall p: nat :: !ProtocolByte(p) ==> v.cache.View(p) == DeviceAt(v.cache.device, p)
    ensures Done(images, calls, outs, v.cache.sectorSize) && images[0] == old(v.Now()) && images[|calls|] == v.Now()
    ensures v.cache.View(VOLUME_FLAGS_OFFSET + 1) == Some(v.flags.hi)
    ensures v.cache.View(VOLUME_FLAGS_OFFSET) in {Some(v.flags.lo), Some(Raised(v.flags).lo)}
    ensures v.cache.faults == old(v.cache.faults) && old(v.Sane()) ==>
      AllReach(calls, |calls|, |old(v.cache.device)|, v.cache.sectorSize) ==>
      forall i :: 0 <= i < |outs| ==> outs[i].Ok?
  {
    outs, images := [], [v.Now()];
    ghost var size, ss := |v.cache.device|, v.cache.sectorSize;
    for i := 0 to |calls|
      invariant v.Valid() && old(v.cache.moments) <= v.cache.moments && |v.cache.device| == size
      invariant Done(images, calls[..i], outs, ss) && images[0] == old(v.Now()) && images[i] == v.Now()
      invariant v.cache.faults >= old(v.cache.faults)
      invariant old(v.Sane()) && AllReach(calls, i, size, ss) ==>
        v.Sane() && (v.cache.faults == old(v.cache.faults) ==> forall j :: 0 <= j < i ==> outs[j].Ok?)
    {
      var out := PerformOne(v, calls[i]);
      DoneThen(images, calls, i, outs, out, v.Now(), ss);
      outs, images := outs + [out], images + [v.Now()];
    }
    assert calls[..|calls|] == calls;
    FlagPromise(v);
  }

  method PerformOne(v: ExfatVolume, c: Call) returns (out: Result<()>)
    requires v.Valid() && (c.Write? || c.Through? ==> c.offset > PERCENT_IN_USE_OFFSET)
    modifies v`volumeDirty, v.cache
    ensures v.Valid() && old(v.cache.moments) <= v.cache.moments && |v.cache.device| == |old(v.cache.device)|
    ensures Does(old(v.Now()), c, out, v.Now(), v.cache.sectorSize)
    ensures Accounted(out.Err?, old(v.Sane()) && Reaching(c, |v.cache.device|, v.cache.sectorSize),
      old(v.cache.faults), v.cache.faults)
    ensures old(v.Sane()) && Reaching(c, |v.cache.device|, v.cache.sectorSize) ==> v.Sane()
  {
    match c
    case Read(offset, len) =>
      var buf := new Byte[len];
      out := v.ReadAt(offset, buf);
    case Write(_, _) =>
      out := PerformWrite(v, c);
    case Through(_, _) =>
      out := PerformWrite(v, c);
    case Sync =>
      out := v.Sync();
    case Flush =>
      out := v.Flush();
  }

  method PerformWrite(v: ExfatVolume, c: Call) returns (out: Result<()>)
    requires v.Valid() && (c.Write? || c.Through?) && c.offset > PERCENT_IN_USE_OFFSET
    modifies v`volumeDirty, v.cache
    ensures v.Valid() && old(v.cache.moments) <= v.cache.moments && |v.cache.device| == |old(v.cache.device)|
    ensures Does(old(v.Now()), c, out, v.Now(), v.cache.sectorSize)
    ensures Accounted(out.Err?, old(v.Sane()) && Reaching(c, |v.cache.device|, v.cache.sectorSize),
      old(v.cache.faults), v.cache.faults)
    ensures old(v.Sane()) && Reaching(c, |v.cache.device|, v.cache.sectorSize) ==> v.Sane()
  {
    ghost var done;
    if c.Write? {
      out, done := v.WriteAt(c.offset, c.data);
    } else {
      out, done := v.WriteThroughAt(c.offset, c.data);
    }
  }

  /** In a valid volume a clear flag on the device means that the device holds the flat array. */
  lemma FlagPromise(v: ExfatVolume)
    requires v.Valid()
    ensures !FlagSet(v.cache.device) ==>
      forall p: nat :: !ProtocolByte(p) ==> v.cache.View(p) == DeviceAt(v.cache.device, p)
  {
    if v.dirtySinceMount {
    } else if v.volumeDirty {
    }
  }
}
