/** The path engine (src/vfs/engine.rs): create, remove, recursive remove and rename over a mounted
    volume. Each operation is stated on the tree of links, on the clusters it claims and frees,
    and on every state a crash could leave behind. Paths are normalized component lists. */
module PathEngine {
  import opened Basics
  import opened Crash
  import opened Trees
  import opened Handles
  import opened Mounted
  import P = Paths

  /** Every moment since `before` is safe against a crash. */
  ghost predicate SafeSince(before: set<Moment>, now: set<Moment>) {
    forall m :: m in now && m !in before ==> CrashSafe(m)
  }

  lemma SolidSince(x: Op, moments: set<Moment>)
    requires Since(x, moments) && x.solid
    ensures SafeSince(x.seen, moments)
  {
    forall m | m in moments && m !in x.seen
      ensures CrashSafe(m)
    {
      CrashSafeExactly(m);
    }
  }

  // ---------------------------------------------------------------- resolving paths

  /** Walking a path: a missing component is `NotFound`, a file on the way `NotADirectory`. */
  function Opened(l: Links, p: Path): Result<nat>
    decreases |p|
  {
    if p == [] then Ok(ROOT)
    else
      match Opened(l, p[..|p| - 1])
      case Err(e) => Err(e)
      case Ok(d) =>
        var s := Slot(d, p[|p| - 1]);
        if s !in l then Err(NotFound) else if l[s].isDir then Ok(l[s].id) else Err(NotADirectory)
  }

  lemma {:induction false} OpenedWalks(l: Links, p: Path)
    ensures Opened(l, p).Ok? <==> Walk(l, p).Some?
    ensures Opened(l, p).Ok? ==> Walk(l, p) == Some(Opened(l, p).value)
    ensures Opened(l, p).Err? ==> Opened(l, p).error in {NotFound, NotADirectory}
    decreases |p|
  {
    if p == [] {
    } else {
      OpenedWalks(l, p[..|p| - 1]);
    }
  }

  lemma {:induction false} OpenedFails(l: Links, p: Path, i: nat)
    requires i <= |p| && Opened(l, p[..i]).Err?
    ensures Opened(l, p) == Opened(l, p[..i])
    decreases |p|
  {
    if i < |p| {
      assert p[..|p| - 1][..i] == p[..i];
      OpenedFails(l, p[..|p| - 1], i);
    } else {
      assert p[..i] == p;
    }
  }

  method OpenDir(vol: Volume, path: Path) returns (r: Result<nat>)
    ensures r == Opened(vol.disk.links, P.FoldPath(vol.fold, path))
    ensures r.Ok? <==> Walk(vol.disk.links, P.FoldPath(vol.fold, path)).Some?
    ensures r.Ok? ==> Walk(vol.disk.links, P.FoldPath(vol.fold, path)) == Some(r.value)
    ensures r.Err? ==> r.error in {NotFound, NotADirectory}
  {
    var l, p := vol.disk.links, P.FoldPath(vol.fold, path);
    OpenedWalks(l, p);
    var d := ROOT;
    for i := 0 to |path|
      invariant Opened(l, p[..i]) == Ok(d)
    {
      assert p[..i + 1][..i] == p[..i];
      var slot := Slot(d, P.Fold(vol.fold, path[i]));
      if slot !in l {
        OpenedFails(l, p, i + 1);
        return Err(NotFound);
      }
      if !l[slot].isDir {
        OpenedFails(l, p, i + 1);
        return Err(NotADirectory);
      }
      d := l[slot].id;
    }
    assert p[..|path|] == p;
    r := Ok(d);
  }

  /** The folded parent path is the parent of the folded path. */
  lemma FoldedParent(fold: char -> char, path: Path)
    requires path != []
    ensures var p, q := P.FoldPath(fold, path), P.FoldPath(fold, path[..|path| - 1]);
      q == p[..|p| - 1] && p[|p| - 1] == P.Fold(fold, path[|path| - 1])
  {
  }

  /** So is the path of a child. */
  lemma FoldedChild(fold: char -> char, path: Path, name: Name)
    ensures P.FoldPath(fold, path + [name]) == P.FoldPath(fold, path) + [P.Fold(fold, name)]
  {
  }

  /** What a directory that a path leads to is: the root, or an object with a live link. */
  lemma Live(vol: Volume, p: Path)
    requires vol.Logged() && Sound(vol.disk, vol.fold) && Known(vol.Now(), vol.nextId) && Walk(vol.disk.links, p).Some?
    ensures var d := Walk(vol.disk.links, p).value;
      && LiveDir(vol.disk, d)
      && vol.disk.Tail(d) <= vol.disk.used && d < vol.nextId
  {
    ViewBetween(vol.Now());
    if p != [] {
      var q := p[..|p| - 1];
      var s := Slot(Walk(vol.disk.links, q).value, p[|p| - 1]);
      assert s in vol.disk.links && MayLink(vol.Now(), s, vol.disk.links[s]);
      assert vol.disk.Refs(vol.disk.links[s]) <= vol.disk.used;
    }
  }

  // ---------------------------------------------------------------- create

  lemma InsertedSound(a: Disk, b: Disk, d: nat, t: Path, slot: Slot, e: Entry, cs: set<nat>, fold: char -> char)
    requires Sound(a, fold) && Inserted(a, b, d, slot, e, cs) && Names(a.links, t, slot) && slot !in a.links
    requires LiveDir(a, d)
    requires Newcomer(a, e) && e.id != d && slot.key == P.Fold(fold, e.name)
    ensures Sound(b, fold) && Leaked(b) == Leaked(a) - e.data
  {
    var g := Disk(a.links, b.used, b.hung);
    GrownSound(a, g, d, cs, fold);
    AddedSound(g, t, slot, e, fold);
    assert b == g.(links := a.links[slot := e]);
  }

  /** An unheard-of object with clusters claimed for it. */
  lemma Unheard(m: Moment, e: Entry, next: nat)
    requires Known(m, next) && e.id >= next && e.data <= Leaked(ApplyAll(m.base, m.pending))
    ensures Newcomer(ApplyAll(m.base, m.pending), e)
  {
    var d := ApplyAll(m.base, m.pending);
    ViewBetween(m);
    forall s | s in d.links
      ensures d.links[s].id != e.id && s.dir != e.id
    {
      assert MayLink(m, s, d.links[s]);
    }
    assert forall c :: c in d.Tail(e.id) ==> MayHang(m, e.id, c);
  }

  /** Nothing is missing from the device. */
  ghost predicate Durable(vol: Volume)
    reads vol`disk, vol`base, vol`pending
  {
    vol.Now() == Moment(vol.disk, [])
  }

  /** Make the operation durable: on both formats a barrier. */
  method Commit(vol: Volume, ghost x: Op)
    requires Sound(vol.disk, vol.fold) && vol.Track(x)
    modifies vol`base, vol`pending, vol`moments
    ensures Sound(vol.disk, vol.fold) && vol.Track(x) && old(vol.moments) <= vol.moments
    ensures Durable(vol) && Solid(vol.Now())
  {
    vol.Barrier(x);
  }

  /** End an operation that stayed solid. */
  method Finish(vol: Volume, ghost x: Op)
    requires Sound(vol.disk, vol.fold) && vol.Track(x) && x.solid
    modifies vol`base, vol`pending, vol`moments
    ensures vol.Logged() && Known(vol.Now(), x.next) && Durable(vol) && Solid(vol.Now())
    ensures SafeSince(x.seen, vol.moments)
  {
    Commit(vol, x);
    SolidSince(x, vol.moments);
  }

  lemma TakenSound(a: Disk, c: nat, fold: char -> char)
    requires Sound(a, fold) && c !in a.used
    ensures Sound(Apply(a, Take(c)), fold) && Leaked(Apply(a, Take(c))) == Leaked(a) + {c}
  {
    var b := Apply(a, Take(c));
    forall s | s in a.links
      ensures a.Refs(a.links[s]) <= a.used && b.Refs(b.links[s]) == a.Refs(a.links[s])
    {
    }
    forall x
      ensures Referred(b, x) <==> Referred(a, x)
    {
      if s :| s in b.links && x in b.Refs(b.links[s]) {
        assert x in a.Refs(a.links[s]);
      }
      if s :| s in a.links && x in a.Refs(a.links[s]) {
        assert x in b.Refs(b.links[s]);
      }
    }
    assert !Referred(a, c);
  }

  /** The same links and clusters in use, the same chains. */
  ghost predicate SameDisk(a: Disk, b: Disk) {
    a.links == b.links && a.used == b.used && forall id :: a.Tail(id) == b.Tail(id)
  }

  /** Why a directory takes no entry more. */
  function NoSpace(vol: Volume, d: nat): Error {
    if vol.fixedRoot && d == ROOT then RootDirectoryFull else StorageFull
  }

  /** Link a new entry at a free slot of an open directory. */
  method MakeEntry(vol: Volume, d: nat, slot: Slot, e: Entry, growth: nat, ghost t: Path, ghost x: Op)
      returns (r: Result<()>, ghost cs: set<nat>)
    requires Sound(vol.disk, vol.fold) && vol.Track(x) && Solid(vol.Now()) && slot in x.but &&
      (x.solid ==> vol.Quiet(d, growth))
    requires Names(vol.disk.links, t, slot) && slot !in vol.disk.links && slot.dir == d
    requires e.id == vol.nextId && x.next == vol.nextId + 1 && Known(vol.Now(), vol.nextId) &&
      slot.key == P.Fold(vol.fold, e.name)
    requires e.data <= Leaked(vol.disk) && Backed(vol.Now(), e)
    modifies vol`disk, vol`base, vol`pending, vol`moments, vol`contiguous
    ensures vol.Track(x) && old(vol.moments) <= vol.moments
    ensures r.Ok? ==> Inserted(old(vol.disk), vol.disk, d, slot, e, cs) && Solid(vol.Now())
    ensures Sound(vol.disk, vol.fold)
    ensures r.Ok? ==> Leaked(vol.disk) == old(Leaked(vol.disk)) - e.data
    ensures r.Ok? ==> vol.contiguous == old(vol.StillContiguous(d, growth))
    ensures r.Ok? <==> old(vol.Fits(d, growth))
    ensures r.Err? ==>
      Grown(old(vol.disk), vol.disk, d, cs, !old(vol.Calm(d, growth))) &&
      vol.contiguous == old(vol.contiguous)
    ensures r.Err? ==> growth > 0 && r.error == NoSpace(vol, d) && (!vol.exfat ==> cs == {})
    ensures r.Err? && !vol.exfat && old(vol.Quiet(d, growth)) ==> vol.Now() == old(vol.Now())
    ensures old(!vol.Quiet(d, growth)) ==> exists m :: m in vol.moments && !CrashSafe(m)
  {
    Live(vol, t[..|t| - 1]);
    Unheard(vol.Now(), e, vol.nextId);
    BackedView(vol.Now(), e);
    ghost var a := vol.disk;
    r, cs := vol.Insert(d, slot, e, growth, x);
    if r.Ok? {
      InsertedSound(a, vol.disk, d, t, slot, e, cs, vol.fold);
    } else {
      FailedSound(a, vol.disk, d, cs, !old(vol.Calm(d, growth)), vol.fold);
    }
  }

  /** A growth that failed half-way leaves a sound volume. */
  lemma FailedSound(a: Disk, b: Disk, d: nat, cs: set<nat>, hang: bool, fold: char -> char)
    requires Sound(a, fold) && Grown(a, b, d, cs, hang)
    requires LiveDir(a, d)
    ensures Sound(b, fold)
  {
    if hang {
      GrownSound(a, b, d, cs, fold);
    } else {
      GrownSafe(a, b, d, cs, hang);
      forall s | s in b.links
        ensures b.Refs(b.links[s]) == a.Refs(a.links[s])
      {
      }
    }
  }

  /** Claim a cluster for a new directory and make it durable before anything links it. */
  method SeedDirectory(vol: Volume, ghost x: Op) returns (r: Option<nat>)
    requires Sound(vol.disk, vol.fold) && vol.Track(x) && Solid(vol.Now())
    modifies vol`disk, vol`base, vol`pending, vol`moments
    ensures Sound(vol.disk, vol.fold) && vol.Track(x) && Solid(vol.Now()) && old(vol.moments) <= vol.moments
    ensures old(Known(vol.Now(), vol.nextId)) ==> Known(vol.Now(), vol.nextId)
    ensures r.None? ==> vol.disk == old(vol.disk) && !old(vol.HasFree())
    ensures r.Some? ==>
      2 <= r.value <= vol.count + 1 && r.value !in old(vol.disk.used) &&
      vol.Now() == Moment(vol.disk, [])
    ensures r.Some? ==> (vol.HasFree() <==> old(TwoFree(vol)))
    ensures r.None? ==> !old(TwoFree(vol))
    ensures r.Some? <==> old(vol.HasFree())
    ensures r.Some? ==> |vol.Free()| + 1 == old(|vol.Free()|)
    ensures r.Some? ==>
      vol.disk == Apply(old(vol.disk), Take(r.value)) &&
      Leaked(vol.disk) == old(Leaked(vol.disk)) + {r.value}
  {
    r := vol.FindFree();
    if r.Some? {
      TakenSound(vol.disk, r.value, vol.fold);
      if Known(vol.Now(), vol.nextId) {
        KnownThen(vol.Now(), Take(r.value), vol.nextId);
        KnownBarrier(Then(vol.Now(), Take(r.value)), vol.nextId);
      }
      OneLessFree(vol.disk.used, r.value, vol.count);
      vol.Take(r.value, x);
      vol.Barrier(x);
    }
  }

  lemma OneLessFree(used: set<nat>, a: nat, count: nat)
    requires 2 <= a <= count + 1 && a !in used
    ensures (exists c :: 2 <= c <= count + 1 && c !in used + {a}) <==>
      exists b, c :: b != c && 2 <= b <= count + 1 && 2 <= c <= count + 1 && b !in used && c !in used
    ensures |FreeIn(used + {a}, count)| + 1 == |FreeIn(used, count)|
  {
    FreeLeft(used, used + {a}, {a}, count);
    if c :| 2 <= c <= count + 1 && c !in used + {a} {
      assert a != c;
    }
  }

  /** What a successful create has done: one entry more, for an object unheard of before, with the
      clusters claimed for it; nothing leaked. */
  ghost predicate Created(a: Disk, b: Disk, next: nat, fold: char -> char, path: Path, isDir: bool) {
    path != [] &&
    exists slot, made ::
      && Names(a.links, P.FoldPath(fold, path), slot) && slot !in a.links
      && b.links == a.links[slot := made]
      && made.name == path[|path| - 1] && made.isDir == isDir && !made.readOnly && made.id == next
      && made.data !! a.used && (made.data == {} <==> !isDir)
      && Leaked(b) == Leaked(a)
  }

  lemma IsCreated(a: Disk, b: Disk, fold: char -> char, path: Path, slot: Slot, made: Entry)
    requires path != [] && Names(a.links, P.FoldPath(fold, path), slot) && slot !in a.links
    requires b.links == a.links[slot := made] && made.name == path[|path| - 1] && !made.readOnly
    requires made.data !! a.used && (made.data == {} <==> !made.isDir) && Leaked(b) == Leaked(a)
    ensures Created(a, b, made.id, fold, path, made.isDir)
  {
  }

  /** A path that names nothing yet, in a directory that exists. */
  predicate Vacant(l: Links, p: Path) {
    p != [] && Walk(l, p[..|p| - 1]).Some? && Slot(Walk(l, p[..|p| - 1]).value, p[|p| - 1]) !in l
  }

  /** The directory that holds `p`. */
  function Home(l: Links, p: Path): nat
    requires p != [] && Walk(l, p[..|p| - 1]).Some?
  {
    Walk(l, p[..|p| - 1]).value
  }

  /** Why there is no free slot for `p`: its directory does not open, or the name is taken. */
  function PlaceRefusal(l: Links, p: Path): Option<Error>
    requires p != []
  {
    match Opened(l, p[..|p| - 1])
    case Err(e) => Some(e)
    case Ok(d) => if Slot(d, p[|p| - 1]) in l then Some(AlreadyExists) else None
  }

  /** Why `p` names no entry: its directory does not open, or has no such name. */
  function SeekRefusal(l: Links, p: Path): Option<Error>
    requires p != []
  {
    match Opened(l, p[..|p| - 1])
    case Err(e) => Some(e)
    case Ok(d) => if Slot(d, p[|p| - 1]) in l then None else Some(NotFound)
  }

  /** Find the free slot of `path`. */
  method Place(vol: Volume, path: Path) returns (r: Result<Slot>)
    requires path != []
    ensures r.Ok? <==> Vacant(vol.disk.links, P.FoldPath(vol.fold, path))
    ensures r.Ok? ==> Names(vol.disk.links, P.FoldPath(vol.fold, path), r.value) && r.value !in vol.disk.links
    ensures r.Ok? ==> r.value.key == P.Fold(vol.fold, path[|path| - 1])
    ensures r.Err? ==> Some(r.error) == PlaceRefusal(vol.disk.links, P.FoldPath(vol.fold, path))
    ensures r.Ok? ==> PlaceRefusal(vol.disk.links, P.FoldPath(vol.fold, path)) == None
    ensures r.Ok? ==> RefusedAt(vol, vol.disk.links, P.FoldPath(vol.fold, path)) == NoSpace(vol, r.value.dir)
  {
    FoldedParent(vol.fold, path);
    var parent := OpenDir(vol, path[..|path| - 1]);
    if parent.Err? {
      return Err(parent.error);
    }
    var slot := Slot(parent.value, P.Fold(vol.fold, path[|path| - 1]));
    r := if slot in vol.disk.links then Err(AlreadyExists) else Ok(slot);
  }

  ghost predicate AllSafe(moments: set<Moment>) {
    forall m :: m in moments ==> CrashSafe(m)
  }

  /** Whether making room for `path` stays safe against crashes. */
  ghost predicate QuietFor(vol: Volume, path: Path, growth: nat)
    reads vol
  {
    var p := P.FoldPath(vol.fold, path);
    Vacant(vol.disk.links, p) ==> vol.Quiet(Home(vol.disk.links, p), growth)
  }

  /** The directories without a FAT chain once the directory of `path` has grown. */
  ghost function ContiguousAfter(vol: Volume, path: Path, growth: nat): set<nat>
    reads vol`disk, vol`contiguous
  {
    var p := P.FoldPath(vol.fold, path);
    if p != [] && Walk(vol.disk.links, p[..|p| - 1]).Some? then vol.StillContiguous(Home(vol.disk.links, p), growth)
    else vol.contiguous
  }

  /** `path` is free, and its directory has or can make room for it. */
  ghost predicate RoomFor(vol: Volume, path: Path, growth: nat)
    reads vol
  {
    var p := P.FoldPath(vol.fold, path);
    Vacant(vol.disk.links, p) && vol.Fits(Home(vol.disk.links, p), growth)
  }

  /** Why nothing can be created at `path`, if not for want of a cluster of its own. */
  ghost function CreateRefusal(vol: Volume, path: Path): Error
    requires path != []
    reads vol
  {
    RefusedAt(vol, vol.disk.links, P.FoldPath(vol.fold, path))
  }

  function RefusedAt(vol: Volume, l: Links, p: Path): Error
    requires p != []
  {
    match Opened(l, p[..|p| - 1])
    case Err(e) => e
    case Ok(d) => if Slot(d, p[|p| - 1]) in l then AlreadyExists else NoSpace(vol, d)
  }

  /** `create_empty_file`: links an empty file, durably; it succeeds exactly when the path is free in
      a directory with room. Refusals change nothing; running out of space gives everything back on
      FAT. Its crash points are all safe exactly when the directory need not
      hang a cluster on its FAT chain. */
  method CreateEmptyFile(vol: Volume, path: Path, growth: nat) returns (r: Result<()>)
    requires vol.Valid() && Solid(vol.Now())
    modifies vol
    ensures vol.Valid()
    ensures r.Ok? <==> old(RoomFor(vol, path, growth))
    ensures r.Ok? ==> Durable(vol) && Solid(vol.Now())
    ensures r.Ok? ==> Created(old(vol.disk), vol.disk, old(vol.nextId), vol.fold, path, false)
    ensures vol.contiguous == if r.Ok? then old(ContiguousAfter(vol, path, growth)) else old(vol.contiguous)
    ensures old(vol.moments) <= vol.moments
    ensures r.Err? ==> r.error == if path == [] then IsADirectory else old(CreateRefusal(vol, path))
    ensures r.Err? ==> vol.disk.links == old(vol.disk.links) && (!vol.exfat ==> SameDisk(old(vol.disk), vol.disk))
    ensures r.Err? && r.error !in {StorageFull, RootDirectoryFull} ==>
      vol.disk == old(vol.disk) &&
      vol.Now() == old(vol.Now())
    ensures old(AllSafe(vol.moments)) ==> (AllSafe(vol.moments) <==> old(QuietFor(vol, path, growth)))
  {
    if path == [] {
      return Err(IsADirectory);
    }
    var place := Place(vol, path);
    if place.Err? {
      return Err(place.error);
    }
    ghost var a, next := vol.disk, vol.nextId;
    r := MakeFile(vol, place.value, path[|path| - 1], growth, P.FoldPath(vol.fold, path));
    if r.Ok? {
      IsCreated(a, vol.disk, vol.fold, path, place.value, Entry(path[|path| - 1], false, false, next, {}));
    }
  }

  /** Link an empty file at a free slot, as an operation of its own. */
  method MakeFile(vol: Volume, slot: Slot, name: Name, growth: nat, ghost t: Path) returns (r: Result<()>)
    requires vol.Valid() && Solid(vol.Now())
    requires Names(vol.disk.links, t, slot) && slot !in vol.disk.links && slot.key == P.Fold(vol.fold, name)
    modifies vol`disk, vol`base, vol`pending, vol`moments, vol`contiguous, vol`nextId
    ensures vol.Valid() && old(vol.moments) <= vol.moments
    ensures r.Ok? <==> old(vol.Fits(slot.dir, growth))
    ensures r.Ok? ==> vol.disk.links == old(vol.disk.links[slot := Entry(name, false, false, vol.nextId, {})])
    ensures vol.contiguous == if r.Ok? then old(vol.StillContiguous(slot.dir, growth)) else old(vol.contiguous)
    ensures r.Ok? ==> Durable(vol) && Solid(vol.Now()) && Leaked(vol.disk) == old(Leaked(vol.disk))
    ensures r.Err? ==> vol.disk.links == old(vol.disk.links) && (!vol.exfat ==> SameDisk(old(vol.disk), vol.disk))
    ensures r.Err? ==> r.error == NoSpace(vol, slot.dir)
    ensures old(AllSafe(vol.moments)) ==> (AllSafe(vol.moments) <==> old(vol.Quiet(slot.dir, growth)))
  {
    ghost var x := Op(vol.moments, vol.Now(), {slot}, vol.Quiet(slot.dir, growth), vol.nextId + 1);
    r := LinkFile(vol, slot, name, growth, t, x);
    vol.nextId := vol.nextId + 1;
    if x.solid {
      SolidSince(x, vol.moments);
    }
  }

  method LinkFile(vol: Volume, slot: Slot, name: Name, growth: nat, ghost t: Path, ghost x: Op) returns (r: Result<()>)
    requires Sound(vol.disk, vol.fold) && vol.Track(x) && Solid(vol.Now()) && slot in x.but &&
      (x.solid ==> vol.Quiet(slot.dir, growth))
    requires Names(vol.disk.links, t, slot) && slot !in vol.disk.links && slot.key == P.Fold(vol.fold, name)
    requires x.next == vol.nextId + 1 && Known(vol.Now(), vol.nextId)
    modifies vol`disk, vol`base, vol`pending, vol`moments, vol`contiguous
    ensures Sound(vol.disk, vol.fold) && vol.Track(x)
    ensures r.Ok? <==> old(vol.Fits(slot.dir, growth))
    ensures r.Ok? ==> vol.disk.links == old(vol.disk.links)[slot := Entry(name, false, false, vol.nextId, {})]
    ensures vol.contiguous == if r.Ok? then old(vol.StillContiguous(slot.dir, growth)) else old(vol.contiguous)
    ensures r.Ok? ==> Durable(vol) && Solid(vol.Now()) && Leaked(vol.disk) == old(Leaked(vol.disk))
    ensures r.Err? ==> vol.disk.links == old(vol.disk.links) && (!vol.exfat ==> SameDisk(old(vol.disk), vol.disk))
    ensures r.Err? ==> growth > 0 && r.error == NoSpace(vol, slot.dir)
    ensures old(!vol.Quiet(slot.dir, growth)) ==> exists m :: m in vol.moments && !CrashSafe(m)
  {
    var e := Entry(name, false, false, vol.nextId, {});
    Unheard(vol.Now(), e, vol.nextId);
    ghost var cs;
    r, cs := MakeEntry(vol, slot.dir, slot, e, growth, t, x);
    if r.Ok? {
      Commit(vol, x);
    }
  }

  /** The directory that `path` leads to has no FAT chain. */
  ghost predicate IsContiguous(vol: Volume, path: Path)
    reads vol`disk, vol`contiguous
  {
    var d := Walk(vol.disk.links, P.FoldPath(vol.fold, path));
    d.Some? && d.value in vol.contiguous
  }

  /** A new file leaves the directory it is in where it was. */
  lemma ParentStays(a: Disk, b: Disk, next: nat, fold: char -> char, parent: Path, name: Name)
    requires OneParent(a.links) && Created(a, b, next, fold, parent + [name], false)
    ensures Walk(b.links, P.FoldPath(fold, parent)) == Walk(a.links, P.FoldPath(fold, parent))
    ensures Walk(a.links, P.FoldPath(fold, parent)).Some?
  {
    FoldedChild(fold, parent, name);
    var t := P.FoldPath(fold, parent + [name]);
    assert t[..|t| - 1] == P.FoldPath(fold, parent);
    var slot, made :| Names(a.links, t, slot) && slot !in a.links && b.links == a.links[slot := made] && !made.isDir;
    AddedWalk(a.links, t, slot, made, P.FoldPath(fold, parent));
  }

  /** A directory with a FAT chain that has to grow, and can, is not quiet. */
  lemma ChainNotQuiet(vol: Volume, parent: Path, name: Name, growth: nat)
    requires vol.exfat && !vol.fixedRoot && growth > 0 && !IsContiguous(vol, parent)
    requires RoomFor(vol, parent + [name], growth)
    ensures !QuietFor(vol, parent + [name], growth)
  {
    FoldedChild(vol.fold, parent, name);
    var p := P.FoldPath(vol.fold, parent + [name]);
    assert p[..|p| - 1] == P.FoldPath(vol.fold, parent);
  }

  /** Two files created in one exFAT directory, each in room the directory has to grow for. Even a
      contiguous directory, whose first growth is safe, is a FAT chain from then on: the second growth
      passes through a moment that is not safe against a crash. */
  method CreateTwice(vol: Volume, parent: Path, first: Name, second: Name, growth: nat, more: nat)
      returns (r: Result<()>, s: Result<()>, ghost between: set<Moment>)
    requires vol.Valid() && Solid(vol.Now()) && vol.exfat && growth > 0 && more > 0
    modifies vol
    ensures vol.Valid() && old(vol.moments) <= between <= vol.moments
    ensures r.Ok? <==> old(RoomFor(vol, parent + [first], growth))
    ensures r.Ok? && old(AllSafe(vol.moments)) ==> (AllSafe(between) <==> old(IsContiguous(vol, parent)))
    ensures r.Ok? && s.Ok? ==> !AllSafe(vol.moments)
  {
    ghost var a, next := vol.disk, vol.nextId;
    if !IsContiguous(vol, parent) && RoomFor(vol, parent + [first], growth) {
      ChainNotQuiet(vol, parent, first, growth);
    }
    FoldedChild(vol.fold, parent, first);
    r := CreateEmptyFile(vol, parent + [first], growth);
    between := vol.moments;
    if r.Err? {
      return r, Err(r.error), between;
    }
    ParentStays(a, vol.disk, next, vol.fold, parent, first);
    if RoomFor(vol, parent + [second], more) {
      ChainNotQuiet(vol, parent, second, more);
    }
    s := CreateEmptyFile(vol, parent + [second], more);
  }

  /** At least two clusters are free. */
  ghost predicate TwoFree(vol: Volume)
    reads vol`disk
  {
    exists b, c :: b != c && 2 <= b <= vol.count + 1 && 2 <= c <= vol.count + 1 && b !in vol.disk.used &&
      c !in vol.disk.used
  }

  /** Whether making room for a new directory at `path` stays safe against crashes. */
  ghost predicate QuietForDir(vol: Volume, path: Path, growth: nat)
    reads vol
  {
    var p := P.FoldPath(vol.fold, path);
    Vacant(vol.disk.links, p) ==> QuietAfterSeed(vol, Home(vol.disk.links, p), growth)
  }

  ghost predicate RoomForDir(vol: Volume, path: Path, growth: nat)
    reads vol
  {
    var p := P.FoldPath(vol.fold, path);
    Vacant(vol.disk.links, p) && FitsAfterSeed(vol, Home(vol.disk.links, p), growth)
  }

  /** A cluster is free for the new directory, and its parent can grow with what is left. */
  ghost predicate FitsAfterSeed(vol: Volume, d: nat, growth: nat)
    reads vol
  {
    vol.HasFree() && (growth == 0 || (!(vol.fixedRoot && d == ROOT) && growth < |vol.Free()|))
  }

  ghost predicate QuietAfterSeed(vol: Volume, d: nat, growth: nat)
    reads vol
  {
    vol.Calm(d, growth) || (vol.fixedRoot && d == ROOT) || !TwoFree(vol)
  }

  /** Why no directory can be created at `path`: no slot, no cluster for it, or no room. */
  ghost function CreateDirRefusal(vol: Volume, path: Path): Error
    requires path != []
    reads vol
  {
    if PlaceRefusal(vol.disk.links, P.FoldPath(vol.fold, path)).None? && !vol.HasFree() then StorageFull
    else CreateRefusal(vol, path)
  }

  /** `create_dir`: claims a cluster, makes it durable, then links it as an empty directory; it
      succeeds exactly when the path is free and there is room for both. Refusals change nothing;
      running out of space gives everything back on FAT. */
  method CreateDir(vol: Volume, path: Path, growth: nat) returns (r: Result<()>)
    requires vol.Valid() && Solid(vol.Now())
    modifies vol
    ensures vol.Valid()
    ensures r.Ok? <==> old(RoomForDir(vol, path, growth))
    ensures r.Ok? ==> Durable(vol) && Solid(vol.Now())
    ensures r.Ok? ==> Created(old(vol.disk), vol.disk, old(vol.nextId), vol.fold, path, true)
    ensures vol.contiguous == if r.Err? then old(vol.contiguous)
      else old(ContiguousAfter(vol, path, growth)) + if vol.exfat then {old(vol.nextId)} else {}
    ensures old(vol.moments) <= vol.moments
    ensures r.Err? ==> r.error == if path == [] then AlreadyExists else old(CreateDirRefusal(vol, path))
    ensures r.Err? ==> vol.disk.links == old(vol.disk.links) && (!vol.exfat ==> SameDisk(old(vol.disk), vol.disk))
    ensures r.Err? && r.error !in {StorageFull, RootDirectoryFull} ==>
      vol.disk == old(vol.disk) &&
      vol.Now() == old(vol.Now())
    ensures old(AllSafe(vol.moments)) ==> (AllSafe(vol.moments) <==> old(QuietForDir(vol, path, growth)))
  {
    if path == [] {
      return Err(AlreadyExists);
    }
    var place := Place(vol, path);
    if place.Err? {
      return Err(place.error);
    }
    ghost var a := vol.disk;
    var next, c := vol.nextId, 0;
    r, c := MakeDir(vol, place.value, path[|path| - 1], growth, P.FoldPath(vol.fold, path));
    if r.Ok? {
      IsCreated(a, vol.disk, vol.fold, path, place.value, Entry(path[|path| - 1], true, false, next, {c}));
    }
    if r.Ok? && vol.exfat {
      vol.contiguous := vol.contiguous + {next};
    }
  }

  /** Link an empty directory at a free slot, as an operation of its own. */
  method MakeDir(vol: Volume, slot: Slot, name: Name, growth: nat, ghost t: Path) returns (r: Result<()>, c: nat)
    requires vol.Valid() && Solid(vol.Now())
    requires Names(vol.disk.links, t, slot) && slot !in vol.disk.links && slot.key == P.Fold(vol.fold, name)
    modifies vol`disk, vol`base, vol`pending, vol`moments, vol`contiguous, vol`nextId
    ensures vol.Valid() && old(vol.moments) <= vol.moments
    ensures r.Ok? <==> old(FitsAfterSeed(vol, slot.dir, growth))
    ensures r.Ok? ==> c !in old(vol.disk.used)
    ensures r.Ok? ==> vol.disk.links == old(vol.disk.links)[slot := Entry(name, true, false, old(vol.nextId), {c})]
    ensures vol.contiguous == if r.Ok? then old(vol.StillContiguous(slot.dir, growth)) else old(vol.contiguous)
    ensures r.Ok? ==> Durable(vol) && Solid(vol.Now()) && Leaked(vol.disk) == old(Leaked(vol.disk))
    ensures r.Err? ==> vol.disk.links == old(vol.disk.links) && (!vol.exfat ==> SameDisk(old(vol.disk), vol.disk))
    ensures r.Err? ==> r.error == if old(vol.HasFree()) then NoSpace(vol, slot.dir) else StorageFull
    ensures old(AllSafe(vol.moments)) ==> (AllSafe(vol.moments) <==> old(QuietAfterSeed(vol, slot.dir, growth)))
  {
    ghost var x := Op(vol.moments, vol.Now(), {slot}, QuietAfterSeed(vol, slot.dir, growth), vol.nextId + 1);
    r, c := LinkDir(vol, slot, name, growth, t, x);
    vol.nextId := vol.nextId + 1;
    if x.solid {
      SolidSince(x, vol.moments);
    }
  }

  method LinkDir(vol: Volume, slot: Slot, name: Name, growth: nat, ghost t: Path, ghost x: Op)
      returns (r: Result<()>, c: nat)
    requires Sound(vol.disk, vol.fold) && vol.Track(x) && Solid(vol.Now()) && slot in x.but &&
      (x.solid ==> QuietAfterSeed(vol, slot.dir, growth))
    requires Names(vol.disk.links, t, slot) && slot !in vol.disk.links && slot.key == P.Fold(vol.fold, name)
    requires x.next == vol.nextId + 1 && Known(vol.Now(), vol.nextId)
    modifies vol`disk, vol`base, vol`pending, vol`moments, vol`contiguous
    ensures Sound(vol.disk, vol.fold) && vol.Track(x)
    ensures r.Ok? <==> old(FitsAfterSeed(vol, slot.dir, growth))
    ensures r.Ok? ==> Durable(vol)
    ensures r.Ok? ==> c !in old(vol.disk.used)
    ensures vol.contiguous == if r.Ok? then old(vol.StillContiguous(slot.dir, growth)) else old(vol.contiguous)
    ensures r.Ok? ==> vol.disk.links == old(vol.disk.links)[slot := Entry(name, true, false, vol.nextId, {c})]
    ensures r.Ok? ==> Solid(vol.Now()) && Leaked(vol.disk) == old(Leaked(vol.disk))
    ensures r.Err? ==> vol.disk.links == old(vol.disk.links) && (!vol.exfat ==> SameDisk(old(vol.disk), vol.disk))
    ensures r.Err? ==> growth > 0 || !old(vol.HasFree())
    ensures r.Err? ==> r.error == if old(vol.HasFree()) then NoSpace(vol, slot.dir) else StorageFull
    ensures old(!QuietAfterSeed(vol, slot.dir, growth)) ==> exists m :: m in vol.moments && !CrashSafe(m)
  {
    ghost var a := vol.disk;
    var seed := SeedDirectory(vol, x);
    if seed.None? {
      return Err(StorageFull), 0;
    }
    c := seed.value;
    r := LinkOrGiveBack(vol, slot, name, c, growth, a, t, x);
  }

  /** The durable cluster `c` becomes the new directory's, or goes back where the format does that. */
  method LinkOrGiveBack(vol: Volume, slot: Slot, name: Name, c: nat, growth: nat, ghost a: Disk, ghost t: Path,
      ghost x: Op) returns (r: Result<()>)
    requires Sound(vol.disk, vol.fold) && vol.Track(x) && Solid(vol.Now()) && slot in x.but &&
      (x.solid ==> vol.Quiet(slot.dir, growth))
    requires Names(vol.disk.links, t, slot) && slot !in vol.disk.links && slot.key == P.Fold(vol.fold, name)
    requires x.next == vol.nextId + 1 && Known(vol.Now(), vol.nextId) && c in Leaked(vol.disk)
    requires Safe(a) && c !in a.used && vol.disk == Apply(a, Take(c)) && vol.Now() == Moment(vol.disk, [])
    modifies vol`disk, vol`base, vol`pending, vol`moments, vol`contiguous
    ensures Sound(vol.disk, vol.fold) && vol.Track(x)
    ensures r.Ok? <==> old(vol.Fits(slot.dir, growth))
    ensures r.Ok? ==> Durable(vol) && Solid(vol.Now()) && Leaked(vol.disk) == old(Leaked(vol.disk)) - {c}
    ensures r.Ok? ==> vol.disk.links == a.links[slot := Entry(name, true, false, vol.nextId, {c})]
    ensures vol.contiguous == if r.Ok? then old(vol.StillContiguous(slot.dir, growth)) else old(vol.contiguous)
    ensures r.Err? ==> vol.disk.links == a.links && (!vol.exfat ==> SameDisk(a, vol.disk))
    ensures r.Err? ==> growth > 0 && r.error == NoSpace(vol, slot.dir)
    ensures old(!vol.Quiet(slot.dir, growth)) ==> exists m :: m in vol.moments && !CrashSafe(m)
  {
    r := LinkSeeded(vol, slot, name, c, growth, t, x);
    if r.Ok? {
      Commit(vol, x);
    } else if !vol.exfat {
      GiveBack(vol, c, a, x);
    }
  }

  /** Link a directory that starts in the durable cluster `c`. */
  method LinkSeeded(vol: Volume, slot: Slot, name: Name, c: nat, growth: nat, ghost t: Path, ghost x: Op)
      returns (r: Result<()>)
    requires Sound(vol.disk, vol.fold) && vol.Track(x) && Solid(vol.Now()) && slot in x.but &&
      (x.solid ==> vol.Quiet(slot.dir, growth))
    requires Names(vol.disk.links, t, slot) && slot !in vol.disk.links && slot.key == P.Fold(vol.fold, name)
    requires x.next == vol.nextId + 1 && Known(vol.Now(), vol.nextId) && c in Leaked(vol.disk) &&
      vol.Now() == Moment(vol.disk, [])
    modifies vol`disk, vol`base, vol`pending, vol`moments, vol`contiguous
    ensures Sound(vol.disk, vol.fold) && vol.Track(x) && old(vol.moments) <= vol.moments
    ensures r.Ok? <==> old(vol.Fits(slot.dir, growth))
    ensures r.Ok? ==> vol.disk.links == old(vol.disk.links)[slot := Entry(name, true, false, vol.nextId, {c})]
    ensures r.Ok? ==> Solid(vol.Now()) && Leaked(vol.disk) == old(Leaked(vol.disk)) - {c}
    ensures vol.contiguous == if r.Ok? then old(vol.StillContiguous(slot.dir, growth)) else old(vol.contiguous)
    ensures r.Err? ==> vol.disk.links == old(vol.disk.links) && (!vol.exfat ==> SameDisk(old(vol.disk), vol.disk))
    ensures r.Err? ==> growth > 0 && r.error == NoSpace(vol, slot.dir)
    ensures r.Err? && !vol.exfat && x.solid ==> vol.Now() == old(vol.Now())
    ensures old(!vol.Quiet(slot.dir, growth)) ==> exists m :: m in vol.moments && !CrashSafe(m)
  {
    var e := Entry(name, true, false, vol.nextId, {c});
    Unheard(vol.Now(), e, vol.nextId);
    BackedBarrier(vol.disk, e);
    ghost var cs;
    r, cs := MakeEntry(vol, slot.dir, slot, e, growth, t, x);
  }

  /** Free the cluster of a directory that could not be linked. */
  method GiveBack(vol: Volume, c: nat, ghost a: Disk, ghost x: Op)
    requires Sound(vol.disk, vol.fold) && vol.Track(x)
    requires Safe(a) && c !in a.used && SameDisk(Apply(a, Take(c)), vol.disk)
    requires x.solid ==> vol.Now() == Moment(Apply(a, Take(c)), [])
    modifies vol`disk, vol`pending, vol`moments
    ensures Sound(vol.disk, vol.fold) && vol.Track(x) && old(vol.moments) <= vol.moments && SameDisk(a, vol.disk)
  {
    ghost var b := Apply(vol.disk, Release(c));
    NotReferred(a, vol.disk, c);
    NotReferred(a, Apply(a, Take(c)), c);
    SolidBarrier(Apply(a, Take(c)));
    FreedSound(vol.disk, {c}, vol.fold);
    assert Sound(b, vol.fold);
    vol.Release(c, x);
    assert vol.disk == b;
    SameAgain(a, vol.disk, c);
  }

  lemma SameAgain(a: Disk, d: Disk, c: nat)
    requires c !in a.used && d.links == a.links && d.used == a.used + {c} - {c} &&
      forall id :: Apply(a, Take(c)).Tail(id) == d.Tail(id)
    ensures SameDisk(a, d)
  {
    forall id
      ensures a.Tail(id) == d.Tail(id)
    {
      assert Apply(a, Take(c)).Tail(id) == a.Tail(id);
    }
  }

  lemma NotReferred(a: Disk, b: Disk, c: nat)
    requires Safe(a) && c !in a.used && SameDisk(Apply(a, Take(c)), b)
    ensures !Referred(b, c)
  {
    if s :| s in b.links && c in b.Refs(b.links[s]) {
      assert false;
    }
  }

  // ---------------------------------------------------------------- remove

  /** The lock key of a path. */
  function KeyOf(fold: char -> char, path: Path): string { P.Render(P.FoldPath(fold, path)) }

  /** Look an entry up in its parent directory. */
  method Seek(vol: Volume, path: Path) returns (r: Result<Slot>)
    requires path != []
    ensures r.Ok? <==> Find(vol.disk.links, P.FoldPath(vol.fold, path)).Some?
    ensures r.Ok? ==> Names(vol.disk.links, P.FoldPath(vol.fold, path), r.value) && r.value in vol.disk.links
    ensures r.Err? ==> Some(r.error) == SeekRefusal(vol.disk.links, P.FoldPath(vol.fold, path))
    ensures r.Ok? ==> SeekRefusal(vol.disk.links, P.FoldPath(vol.fold, path)) == None
    ensures r.Ok? ==> Find(vol.disk.links, P.FoldPath(vol.fold, path)) == Some(vol.disk.links[r.value])
    ensures r.Ok? ==> Opened(vol.disk.links, P.FoldPath(vol.fold, path)[..|path| - 1]) == Ok(r.value.dir)
  {
    FoldedParent(vol.fold, path);
    var parent := OpenDir(vol, path[..|path| - 1]);
    if parent.Err? {
      return Err(parent.error);
    }
    var slot := Slot(parent.value, P.Fold(vol.fold, path[|path| - 1]));
    r := if slot in vol.disk.links then Ok(slot) else Err(NotFound);
  }

  /** `r` lists the entries of directory `d`, each once. */
  ghost predicate Lists(l: Links, d: nat, r: seq<Slot>) {
    && (forall s :: s in r <==> s in l && s.dir == d)
    && forall i, j :: 0 <= i < j < |r| ==> r[i].key != r[j].key
  }

  /** The names of the first `n` entries. */
  ghost function NamesTo(r: seq<Slot>, n: nat): set<Name>
    requires n <= |r|
  {
    if n == 0 then {} else NamesTo(r, n - 1) + {r[n - 1].key}
  }

  lemma {:induction false} NamesToHas(r: seq<Slot>, n: nat, k: Name)
    requires n <= |r|
    ensures k in NamesTo(r, n) <==> exists j :: 0 <= j < n && r[j].key == k
  {
    if n == 0 {
    } else {
      NamesToHas(r, n - 1, k);
    }
  }

  /** The next entry of a listing is there and has not come before. */
  lemma NextListed(l: Links, d: nat, r: seq<Slot>, i: nat)
    requires Lists(l, d, r) && i < |r|
    ensures r[i] in l && r[i].dir == d && r[i].key !in NamesTo(r, i)
    ensures NamesTo(r, i + 1) == NamesTo(r, i) + {r[i].key}
  {
    assert r[i] in r;
    NamesToHas(r, i, r[i].key);
  }

  lemma AllListed(l: Links, d: nat, r: seq<Slot>)
    requires Lists(l, d, r)
    ensures forall s :: s in l && s.dir == d ==> s.key in NamesTo(r, |r|)
  {
    forall s | s in l && s.dir == d
      ensures s.key in NamesTo(r, |r|)
    {
      var j :| 0 <= j < |r| && r[j] == s;
      NamesToHas(r, |r|, s.key);
    }
  }

  /** The entries of a directory, each once. */
  method ListEntries(vol: Volume, d: nat) returns (r: seq<Slot>)
    ensures Lists(vol.disk.links, d, r)
  {
    r := [];
    var left := vol.disk.links.Keys;
    while left != {}
      invariant left <= vol.disk.links.Keys
      invariant forall s :: s in r <==> s in vol.disk.links && s.dir == d && s !in left
      invariant forall i, j :: 0 <= i < j < |r| ==> r[i].key != r[j].key
      decreases left
    {
      var s :| s in left;
      if s.dir == d {
        forall i | 0 <= i < |r|
          ensures r[i].key != s.key
        {
          assert r[i] in r;
        }
        r := r + [s];
      }
      left := left - {s};
    }
  }

  /** A file that may be removed. */
  predicate Removable(l: Links, p: Path) {
    p != [] && Find(l, p).Some? && !Find(l, p).value.isDir && !Find(l, p).value.readOnly
  }

  /** Removing a leaf is cutting its path. */
  method RemoveLeaf(vol: Volume, slot: Slot, ghost p: Path, ghost x: Op)
    requires Sound(vol.disk, vol.fold) && Solid(vol.Now()) && vol.Track(x) && slot in x.but
    requires Names(vol.disk.links, p, slot) && slot in vol.disk.links
    requires vol.disk.links[slot].isDir ==> forall s :: s in vol.disk.links ==> s.dir != vol.disk.links[slot].id
    modifies vol`disk, vol`base, vol`pending, vol`moments
    ensures Sound(vol.disk, vol.fold) && Solid(vol.Now()) && vol.Track(x) && old(vol.moments) <= vol.moments
    ensures vol.disk.links == old(vol.disk.links) - {slot} == Cut(old(vol.disk.links), p)
    ensures Leaked(vol.disk) == old(Leaked(vol.disk))
  {
    CutLeaf(vol.disk.links, p, slot);
    vol.RemoveEntry(slot, x);
  }

  /** Remove a leaf as an operation of its own. */
  method DeleteLeaf(vol: Volume, slot: Slot, ghost p: Path)
    requires vol.Valid() && Solid(vol.Now())
    requires Names(vol.disk.links, p, slot) && slot in vol.disk.links
    requires vol.disk.links[slot].isDir ==> forall s :: s in vol.disk.links ==> s.dir != vol.disk.links[slot].id
    modifies vol`disk, vol`base, vol`pending, vol`moments
    ensures vol.Valid() && Solid(vol.Now()) && SafeSince(old(vol.moments), vol.moments)
    ensures vol.disk.links == Cut(old(vol.disk.links), p) && Leaked(vol.disk) == old(Leaked(vol.disk)) && Durable(vol)
  {
    ghost var x := Op(vol.moments, vol.Now(), {slot}, true, vol.nextId);
    RemoveLeaf(vol, slot, p, x);
    Finish(vol, x);
  }

  /** Why the entry at `p` is not removed as a file. */
  function RemoveFileRefusal(l: Links, p: Path): Error
    requires p != []
  {
    match SeekRefusal(l, p)
    case Some(e) => e
    case None => if Find(l, p).Some? && Find(l, p).value.isDir then IsADirectory else ReadOnlyFile
  }

  ghost function RemoveFileError(vol: Volume, path: Path): Error
    reads vol, vol.handles
  {
    if path == [] then IsADirectory
    else if KeyOf(vol.fold, path) in vol.handles.modes then FileLocked
    else RemoveFileRefusal(vol.disk.links, P.FoldPath(vol.fold, path))
  }

  /** `remove_file`: unlinks exactly that file and frees exactly its clusters, safe at every crash
      point. Refusals change nothing. */
  method RemoveFile(vol: Volume, path: Path) returns (r: Result<()>)
    requires vol.Valid() && Solid(vol.Now())
    modifies vol, vol.handles
    ensures vol.Valid() && Solid(vol.Now()) && vol.handles.modes == old(vol.handles.modes)
    ensures r.Ok? <==>
      old(Removable(vol.disk.links, P.FoldPath(vol.fold, path))) &&
      KeyOf(vol.fold, path) !in old(vol.handles.modes)
    ensures r.Ok? ==>
      Durable(vol) && vol.disk.links == Cut(old(vol.disk.links), P.FoldPath(vol.fold, path)) &&
      Leaked(vol.disk) == old(Leaked(vol.disk))
    ensures r.Err? ==> vol.disk == old(vol.disk) && vol.Now() == old(vol.Now())
    ensures r.Err? ==> r.error == old(RemoveFileError(vol, path))
    ensures SafeSince(old(vol.moments), vol.moments)
  {
    if path == [] {
      return Err(IsADirectory);
    }
    var key := KeyOf(vol.fold, path);
    var locked := vol.handles.LockRw(key);
    if locked.Err? {
      return Err(locked.error);
    }
    r := RemoveFileLocked(vol, path);
    vol.handles.ReleaseRw(key);
  }

  method RemoveFileLocked(vol: Volume, path: Path) returns (r: Result<()>)
    requires path != [] && vol.Valid() && Solid(vol.Now())
    modifies vol
    ensures vol.Valid() && Solid(vol.Now())
    ensures r.Ok? <==> old(Removable(vol.disk.links, P.FoldPath(vol.fold, path)))
    ensures r.Err? ==> r.error == RemoveFileRefusal(old(vol.disk.links), P.FoldPath(vol.fold, path))
    ensures r.Ok? ==>
      Durable(vol) && vol.disk.links == Cut(old(vol.disk.links), P.FoldPath(vol.fold, path)) &&
      Leaked(vol.disk) == old(Leaked(vol.disk))
    ensures r.Err? ==> vol.disk == old(vol.disk) && vol.Now() == old(vol.Now())
    ensures SafeSince(old(vol.moments), vol.moments)
  {
    var slot := Seek(vol, path);
    if slot.Err? {
      return Err(slot.error);
    }
    var e := vol.disk.links[slot.value];
    if e.isDir {
      return Err(IsADirectory);
    }
    if e.readOnly {
      return Err(ReadOnlyFile);
    }
    DeleteLeaf(vol, slot.value, P.FoldPath(vol.fold, path));
    r := Ok(());
  }

  /** A directory without entries. */
  ghost predicate EmptyDir(l: Links, p: Path) {
    p != [] && Walk(l, p).Some? && forall s :: s in l ==> s.dir != Walk(l, p).value
  }

  /** Why the directory at `p` is not removed. */
  function RemoveDirRefusal(l: Links, p: Path): Error {
    match Opened(l, p)
    case Err(e) => e
    case Ok(_) => DirectoryNotEmpty
  }

  ghost function RemoveDirError(vol: Volume, path: Path): Error
    reads vol, vol.handles
  {
    if path == [] then InvalidInput
    else if KeyOf(vol.fold, path) in vol.handles.modes then FileLocked
    else RemoveDirRefusal(vol.disk.links, P.FoldPath(vol.fold, path))
  }

  /** `remove_dir`: unlinks exactly that empty directory. */
  method RemoveDir(vol: Volume, path: Path) returns (r: Result<()>)
    requires vol.Valid() && Solid(vol.Now())
    modifies vol, vol.handles
    ensures vol.Valid() && Solid(vol.Now()) && vol.handles.modes == old(vol.handles.modes)
    ensures r.Ok? <==>
      old(EmptyDir(vol.disk.links, P.FoldPath(vol.fold, path))) &&
      KeyOf(vol.fold, path) !in old(vol.handles.modes)
    ensures r.Ok? ==>
      Durable(vol) && vol.disk.links == Cut(old(vol.disk.links), P.FoldPath(vol.fold, path)) &&
      Leaked(vol.disk) == old(Leaked(vol.disk))
    ensures r.Err? ==> vol.disk == old(vol.disk) && vol.Now() == old(vol.Now())
    ensures r.Err? ==> r.error == old(RemoveDirError(vol, path))
    ensures SafeSince(old(vol.moments), vol.moments)
  {
    if path == [] {
      return Err(InvalidInput);
    }
    var key := KeyOf(vol.fold, path);
    var locked := vol.handles.LockRw(key);
    if locked.Err? {
      return Err(locked.error);
    }
    r := RemoveDirLocked(vol, path);
    vol.handles.ReleaseRw(key);
  }

  method RemoveDirLocked(vol: Volume, path: Path) returns (r: Result<()>)
    requires path != [] && vol.Valid() && Solid(vol.Now())
    modifies vol
    ensures vol.Valid() && Solid(vol.Now())
    ensures r.Ok? <==> old(EmptyDir(vol.disk.links, P.FoldPath(vol.fold, path)))
    ensures r.Err? ==> r.error == RemoveDirRefusal(old(vol.disk.links), P.FoldPath(vol.fold, path))
    ensures r.Ok? ==>
      Durable(vol) && vol.disk.links == Cut(old(vol.disk.links), P.FoldPath(vol.fold, path)) &&
      Leaked(vol.disk) == old(Leaked(vol.disk))
    ensures r.Err? ==> vol.disk == old(vol.disk) && vol.Now() == old(vol.Now())
    ensures SafeSince(old(vol.moments), vol.moments)
  {
    var child := OpenDir(vol, path);
    if child.Err? {
      return Err(child.error);
    }
    var entries := ListEntries(vol, child.value);
    if entries != [] {
      assert entries[0] in entries;
      return Err(DirectoryNotEmpty);
    }
    var slot := Seek(vol, path);
    if slot.Err? {
      return Err(NotFound);
    }
    if !vol.disk.links[slot.value].isDir {
      return Err(NotADirectory);
    }
    DeleteLeaf(vol, slot.value, P.FoldPath(vol.fold, path));
    r := Ok(());
  }

  // ---------------------------------------------------------------- recursive remove

  /** A read-only file lies below `p`. */
  ghost predicate ReadOnlyBelow(l: Links, p: Path) {
    exists q, s :: p < q && ReadOnlyFileAt(l, q, s)
  }

  /** A read-only file is at `c` or lies below it. */
  ghost predicate ReadOnlyUnder(l: Links, c: Path) {
    exists q, s :: Under(c, q) && ReadOnlyFileAt(l, q, s)
  }

  ghost predicate ReadOnlyFileAt(l: Links, q: Path, s: Slot) {
    Names(l, q, s) && s in l && !l[s].isDir && l[s].readOnly
  }

  /** Whether any regular file below `path` is read-only. */
  method SubtreeHasReadOnly(vol: Volume, path: Path, ghost bound: nat) returns (r: Result<bool>)
    requires OneParent(vol.disk.links) && Keyed(vol.disk.links, vol.fold) && |vol.disk.links| <= bound
    ensures r.Ok? <==> Walk(vol.disk.links, P.FoldPath(vol.fold, path)).Some?
    ensures r.Ok? ==> r.value == ReadOnlyBelow(vol.disk.links, P.FoldPath(vol.fold, path))
    ensures r.Err? ==> Opened(vol.disk.links, P.FoldPath(vol.fold, path)) == Err(r.error)
    decreases bound - |path|
  {
    ghost var l, p := vol.disk.links, P.FoldPath(vol.fold, path);
    var d := OpenDir(vol, path);
    if d.Err? {
      return Err(d.error);
    }
    PathShort(l, p);
    var entries := ListEntries(vol, d.value);
    for i := 0 to |entries|
      invariant ReadOnlyNone(l, p, entries, i)
    {
      NextListed(l, d.value, entries, i);
      var found := ChildHasReadOnly(vol, path, entries[i], bound);
      if found {
        UnderIsBelow(l, p, entries[i].key);
        return Ok(true);
      }
    }
    BelowIsUnder(l, p, d.value, entries);
    r := Ok(false);
  }

  /** None of the first `n` children is or holds a read-only file. */
  ghost predicate ReadOnlyNone(l: Links, p: Path, entries: seq<Slot>, n: nat) {
    n <= |entries| && forall j :: 0 <= j < n ==> !ReadOnlyUnder(l, p + [entries[j].key])
  }

  method ChildHasReadOnly(vol: Volume, path: Path, slot: Slot, ghost bound: nat) returns (found: bool)
    requires OneParent(vol.disk.links) && Keyed(vol.disk.links, vol.fold) && |vol.disk.links| <= bound &&
      |path| <= bound
    requires slot in vol.disk.links && Walk(vol.disk.links, P.FoldPath(vol.fold, path)) == Some(slot.dir)
    ensures found == ReadOnlyUnder(vol.disk.links, P.FoldPath(vol.fold, path) + [slot.key])
    decreases bound - |path|, 0
  {
    ghost var l, p := vol.disk.links, P.FoldPath(vol.fold, path);
    var e := vol.disk.links[slot];
    ghost var c := p + [slot.key];
    assert c[..|c| - 1] == p && Names(l, c, slot);
    ReadOnlyChild(l, c, slot);
    if e.isDir {
      FoldedChild(vol.fold, path, e.name);
      PathShort(l, c);
      var below := SubtreeHasReadOnly(vol, path + [e.name], bound);
      found := below.value;
    } else {
      found := e.readOnly;
    }
  }

  /** A child holds a read-only file when it is one or one lies below it. */
  lemma ReadOnlyChild(l: Links, c: Path, slot: Slot)
    requires slot in l && Names(l, c, slot)
    ensures ReadOnlyUnder(l, c) == if l[slot].isDir then ReadOnlyBelow(l, c) else l[slot].readOnly
  {
    if ReadOnlyUnder(l, c) {
      var q, s :| Under(c, q) && ReadOnlyFileAt(l, q, s);
      if q != c {
        WalkPrefix(l, c, q[..|q| - 1]);
      }
    }
    if l[slot].isDir && ReadOnlyBelow(l, c) {
      var q, s :| c < q && ReadOnlyFileAt(l, q, s);
      assert Under(c, q);
    }
    if !l[slot].isDir && l[slot].readOnly {
      assert Under(c, c) && ReadOnlyFileAt(l, c, slot);
    }
  }

  lemma UnderIsBelow(l: Links, p: Path, k: Name)
    requires ReadOnlyUnder(l, p + [k])
    ensures ReadOnlyBelow(l, p)
  {
    var q, s :| Under(p + [k], q) && ReadOnlyFileAt(l, q, s);
    assert p < q;
  }

  lemma BelowIsUnder(l: Links, p: Path, d: nat, entries: seq<Slot>)
    requires Walk(l, p) == Some(d) && Lists(l, d, entries) && ReadOnlyNone(l, p, entries, |entries|)
    ensures !ReadOnlyBelow(l, p)
  {
    if ReadOnlyBelow(l, p) {
      var j := BelowFound(l, p, d, entries);
    }
  }

  lemma BelowFound(l: Links, p: Path, d: nat, entries: seq<Slot>) returns (j: nat)
    requires Walk(l, p) == Some(d) && Lists(l, d, entries) && ReadOnlyBelow(l, p)
    ensures j < |entries| && ReadOnlyUnder(l, p + [entries[j].key])
  {
    var q, s :| p < q && ReadOnlyFileAt(l, q, s);
    ChildOf(l, p, q, s);
    var c := Slot(d, q[|p|]);
    j :| 0 <= j < |entries| && entries[j] == c;
    assert Under(p + [c.key], q);
  }

  /** The slots an operation on the subtree at `p` may touch. */
  ghost predicate MayTouch(l: Links, p: Path, x: Op) {
    forall s :: s in l && Within'(l, p, s) ==> s in x.but
  }

  /** Depth-first delete of everything below `path`, then of `path`: exactly that subtree goes. */
  method RemoveTree(vol: Volume, path: Path, ghost bound: nat, ghost x: Op) returns (r: Result<()>)
    requires path != [] && Sound(vol.disk, vol.fold) && Solid(vol.Now()) && vol.Track(x)
    requires Walk(vol.disk.links, P.FoldPath(vol.fold, path)).Some? && |vol.disk.links| <= bound
    requires MayTouch(vol.disk.links, P.FoldPath(vol.fold, path), x)
    modifies vol`disk, vol`base, vol`pending, vol`moments
    ensures Sound(vol.disk, vol.fold) && Solid(vol.Now()) && vol.Track(x) && old(vol.moments) <= vol.moments
    ensures r.Ok? && vol.disk.links == Cut(old(vol.disk.links), P.FoldPath(vol.fold, path))
    ensures Leaked(vol.disk) == old(Leaked(vol.disk))
    decreases bound - |path|
  {
    ghost var l, p := vol.disk.links, P.FoldPath(vol.fold, path);
    PathShort(l, p);
    var d := OpenDir(vol, path);
    var entries := ListEntries(vol, d.value);
    RestNone(l, p);
    for i := 0 to |entries|
      invariant Sound(vol.disk, vol.fold) && Solid(vol.Now()) && vol.Track(x) && old(vol.moments) <= vol.moments
      invariant vol.disk.links == Rest(l, p, NamesTo(entries, i)) && Leaked(vol.disk) == old(Leaked(vol.disk))
    {
      NextListed(l, d.value, entries, i);
      RemoveChild(vol, path, entries[i], l, NamesTo(entries, i), bound, x);
    }
    AllListed(l, d.value, entries);
    RemoveEmptied(vol, path, l, NamesTo(entries, |entries|), x);
    r := Ok(());
  }

  /** Remove a directory all of whose children are gone from its parent. */
  method RemoveEmptied(vol: Volume, path: Path, ghost l: Links, ghost gone: set<Name>, ghost x: Op)
    requires path != [] && Sound(vol.disk, vol.fold) && Solid(vol.Now()) && vol.Track(x)
    requires OneParent(l) && Walk(l, P.FoldPath(vol.fold, path)).Some? && MayTouch(l, P.FoldPath(vol.fold, path), x)
    requires vol.disk.links == Rest(l, P.FoldPath(vol.fold, path), gone)
    requires forall s :: s in l && s.dir == Walk(l, P.FoldPath(vol.fold, path)).value ==> s.key in gone
    modifies vol`disk, vol`base, vol`pending, vol`moments
    ensures Sound(vol.disk, vol.fold) && Solid(vol.Now()) && vol.Track(x) && old(vol.moments) <= vol.moments
    ensures vol.disk.links == Cut(l, P.FoldPath(vol.fold, path)) && Leaked(vol.disk) == old(Leaked(vol.disk))
  {
    ghost var p := P.FoldPath(vol.fold, path);
    RestEmpty(l, p, gone);
    RestWalk(l, p, gone, p);
    RestPart(l, p, gone);
    var slot := Seek(vol, path);
    if slot.Ok? {
      RestAll(l, p, gone, slot.value);
      assert Under(p, p);
      RemoveLeaf(vol, slot.value, p, x);
    }
  }

  /** Remove one child of the directory at `path`: a file at once, a directory with all below. */
  method RemoveChild(vol: Volume, path: Path, slot: Slot, ghost l: Links, ghost gone: set<Name>, ghost bound: nat,
      ghost x: Op)
    requires Sound(vol.disk, vol.fold) && Solid(vol.Now()) && vol.Track(x)
    requires OneParent(l) && |l| <= bound && |path| <= bound && slot in l && slot.key !in gone
    requires Walk(l, P.FoldPath(vol.fold, path)) == Some(slot.dir) && MayTouch(l, P.FoldPath(vol.fold, path), x)
    requires vol.disk.links == Rest(l, P.FoldPath(vol.fold, path), gone)
    modifies vol`disk, vol`base, vol`pending, vol`moments
    ensures Sound(vol.disk, vol.fold) && Solid(vol.Now()) && vol.Track(x) && old(vol.moments) <= vol.moments
    ensures vol.disk.links == Rest(l, P.FoldPath(vol.fold, path), gone + {slot.key})
    ensures Leaked(vol.disk) == old(Leaked(vol.disk))
    decreases bound - |path|, 0
  {
    ghost var c := P.FoldPath(vol.fold, path) + [slot.key];
    ChildReady(l, P.FoldPath(vol.fold, path), gone, slot, x);
    var e := vol.disk.links[slot];
    if e.isDir {
      FoldedChild(vol.fold, path, e.name);
      var done := RemoveTree(vol, path + [e.name], bound, x);
    } else {
      RemoveLeaf(vol, slot, c, x);
    }
  }

  /** What removing the next child may rely on, and what it is to leave. */
  lemma ChildReady(l: Links, p: Path, gone: set<Name>, slot: Slot, x: Op)
    requires OneParent(l) && slot in l && slot.key !in gone && Walk(l, p) == Some(slot.dir) && MayTouch(l, p, x)
    ensures var c, m := p + [slot.key], Rest(l, p, gone);
      && slot in m && m[slot] == l[slot] && slot in x.but && Names(m, c, slot)
      && Cut(m, c) == Rest(l, p, gone + {slot.key})
      && |m| <= |l| && MayTouch(m, c, x)
      && (m[slot].isDir ==> Walk(m, c).Some? && |p| < |l|)
  {
    var c, m := p + [slot.key], Rest(l, p, gone);
    assert c[..|c| - 1] == p && Under(p, c);
    RestChild(l, p, gone, slot.key);
    RestPart(l, p, gone);
    RestStep(l, p, gone, slot.key);
    TouchPart(l, m, p, slot.key, x);
    assert Within'(l, p, slot);
    if m[slot].isDir {
      PathShort(m, c);
    }
  }

  lemma TouchPart(l: Links, m: Links, p: Path, k: Name, x: Op)
    requires MayTouch(l, p, x) && m.Keys <= l.Keys && forall q, s :: Names(m, q, s) ==> Names(l, q, s)
    ensures MayTouch(m, p + [k], x)
  {
    forall s | s in m && Within'(m, p + [k], s)
      ensures s in x.but
    {
      var q :| Names(m, q, s) && Under(p + [k], q);
      assert Names(l, q, s) && Under(p, q);
    }
  }

  /** `remove_dir_all`: refused up front, with nothing changed, when a handle is open at or below
      the path or a file below it is read-only. Otherwise it ends, removes exactly that subtree
      and frees exactly its clusters, safe at every crash point. */
  method RemoveDirAll(vol: Volume, path: Path) returns (r: Result<()>)
    requires vol.Valid() && Solid(vol.Now())
    modifies vol, vol.handles
    ensures vol.Valid() && Solid(vol.Now()) && vol.handles.modes == old(vol.handles.modes)
    ensures r.Ok? <==>
      path != [] && old(Walk(vol.disk.links, P.FoldPath(vol.fold, path)).Some?) &&
      !old(OpenBelow(vol, path)) && !old(ReadOnlyBelow(vol.disk.links, P.FoldPath(vol.fold, path)))
    ensures r.Ok? ==>
      Durable(vol) && vol.disk.links == Cut(old(vol.disk.links), P.FoldPath(vol.fold, path)) &&
      Leaked(vol.disk) == old(Leaked(vol.disk))
    ensures r.Err? ==> vol.disk == old(vol.disk) && vol.Now() == old(vol.Now())
    ensures r.Err? ==> r.error == if path == [] then InvalidInput else old(RemoveTreeRefusal(vol, path))
    ensures SafeSince(old(vol.moments), vol.moments)
  {
    if path == [] {
      return Err(InvalidInput);
    }
    var key := KeyOf(vol.fold, path);
    r := MayRemoveTree(vol, path);
    if r.Err? {
      return;
    }
    assert Covers(key, key);
    var locked := vol.handles.LockRw(key);
    if locked.Err? {
      return Err(FileLocked);
    }
    r := RemoveTreeLocked(vol, path);
    vol.handles.ReleaseRw(key);
  }

  /** Why the tree at `path` is not removed. */
  ghost function RemoveTreeRefusal(vol: Volume, path: Path): Error
    reads vol, vol.handles
  {
    if OpenBelow(vol, path) then FileLocked
    else
      match Opened(vol.disk.links, P.FoldPath(vol.fold, path))
      case Err(e) => e
      case Ok(_) => ReadOnlyFile
  }

  /** The checks of `remove_dir_all`, before it changes anything. */
  method MayRemoveTree(vol: Volume, path: Path) returns (r: Result<()>)
    requires vol.handles.Valid() && OneParent(vol.disk.links) && Keyed(vol.disk.links, vol.fold)
    ensures r.Ok? <==>
      Walk(vol.disk.links, P.FoldPath(vol.fold, path)).Some? && !OpenBelow(vol, path) &&
      !ReadOnlyBelow(vol.disk.links, P.FoldPath(vol.fold, path))
    ensures r.Err? ==> r.error == RemoveTreeRefusal(vol, path)
  {
    OpenedWalks(vol.disk.links, P.FoldPath(vol.fold, path));
    var open := vol.handles.AnyOpenUnder(KeyOf(vol.fold, path));
    if open {
      return Err(FileLocked);
    }
    var blocked := SubtreeHasReadOnly(vol, path, |vol.disk.links| + |path|);
    if blocked.Err? {
      return Err(blocked.error);
    }
    r := if blocked.value then Err(ReadOnlyFile) else Ok(());
  }

  /** A handle is open at or below `path`. */
  ghost predicate OpenBelow(vol: Volume, path: Path)
    reads vol.handles
  {
    exists k :: k in vol.handles.modes && Covers(KeyOf(vol.fold, path), k)
  }

  method RemoveTreeLocked(vol: Volume, path: Path) returns (r: Result<()>)
    requires path != [] && vol.Valid() && Solid(vol.Now()) && Walk(vol.disk.links, P.FoldPath(vol.fold, path)).Some?
    modifies vol`disk, vol`base, vol`pending, vol`moments
    ensures vol.Valid() && Solid(vol.Now()) && r.Ok?
    ensures vol.disk.links == Cut(old(vol.disk.links), P.FoldPath(vol.fold, path)) &&
      Leaked(vol.disk) == old(Leaked(vol.disk)) && Durable(vol)
    ensures SafeSince(old(vol.moments), vol.moments)
  {
    ghost var x := Op(vol.moments, vol.Now(), vol.disk.links.Keys, true, vol.nextId);
    r := RemoveTree(vol, path, |vol.disk.links|, x);
    Finish(vol, x);
  }

  // ---------------------------------------------------------------- rename

  /** What is linked in the cache's view is backed at a solid moment. */
  lemma BackedLink(m: Moment, s: Slot)
    requires Solid(m) && s in ApplyAll(m.base, m.pending).links
    ensures Backed(m, ApplyAll(m.base, m.pending).links[s])
  {
    ViewBetween(m);
    var e := ApplyAll(m.base, m.pending).links[s];
    assert MayLink(m, s, e);
    forall c | c in e.data || MayHang(m, e.id, c)
      ensures Firm(m, c)
    {
      assert Refers(m, c);
    }
  }

  lemma SolidView(m: Moment)
    requires Solid(m)
    ensures Safe(ApplyAll(m.base, m.pending))
  {
    AllIsSome(m.base, m.pending, UpTo(|m.pending|));
    SolidIsSafe(m, UpTo(|m.pending|));
  }

  /** The disk after a move: the new link made with the clusters `cs`, the old one dropped. */
  lemma MoveSound(a: Disk, b: Disk, d: nat, f: Path, t: Path, from: Slot, to: Slot, e: Entry, cs: set<nat>,
      fold: char -> char)
    requires Sound(a, fold) && Inserted(a, b, d, to, e, cs) && MayMove(a.links, f, t, from, to, e) &&
      e.data == a.links[from].data
    requires LiveDir(a, d)
    requires to.key == P.Fold(fold, e.name)
    ensures Sound(Apply(b, Drop(from)), fold) && Leaked(Apply(b, Drop(from))) == Leaked(a)
    ensures Apply(b, Drop(from)).links == Moved(a.links, from, to, e)
  {
    var g := Disk(a.links, b.used, b.hung);
    GrownSound(a, g, d, cs, fold);
    MovedSound(g, f, t, from, to, e, fold);
    MoveShape(a.links, b, from, to, e);
    assert Apply(b, Drop(from)) == g.(links := Moved(a.links, from, to, e));
  }

  lemma MoveShape(l: Links, b: Disk, from: Slot, to: Slot, e: Entry)
    requires b.links == l[to := e] && from != to
    ensures Apply(b, Drop(from)).links == Moved(l, from, to, e)
  {
  }

  /** At every moment since `before` object `id` is linked at `from` or at `to` whatever a crash
      does, given that it was so at `start`. */
  ghost predicate StaysLinked(before: set<Moment>, now: set<Moment>, start: Moment, from: Slot, to: Slot, id: nat) {
    Held(start, from, id) ==> forall m :: m in now && m !in before ==> Held(m, from, id) || Held(m, to, id)
  }

  /** Link an entry that is linked already once more, or fail. */
  method LinkAgain(vol: Volume, slot: Slot, e: Entry, growth: nat, ghost t: Path, ghost x: Op)
      returns (r: Result<()>, ghost cs: set<nat>)
    requires Sound(vol.disk, vol.fold) && vol.Track(x) && Solid(vol.Now()) && slot in x.but &&
      (x.solid ==> vol.Quiet(slot.dir, growth))
    requires Names(vol.disk.links, t, slot) && Known(vol.Now(), vol.nextId) && x.next == vol.nextId &&
      IsLinked(vol.disk.links, e)
    modifies vol`disk, vol`base, vol`pending, vol`moments, vol`contiguous
    ensures vol.Track(x) && old(vol.moments) <= vol.moments
    ensures r.Ok? <==> old(vol.Fits(slot.dir, growth))
    ensures vol.contiguous == if r.Ok? then old(vol.StillContiguous(slot.dir, growth)) else old(vol.contiguous)
    ensures r.Ok? ==> Inserted(old(vol.disk), vol.disk, slot.dir, slot, e, cs) && Solid(vol.Now())
    ensures r.Err? ==>
      Sound(vol.disk, vol.fold) &&
      Grown(old(vol.disk), vol.disk, slot.dir, cs, !old(vol.Calm(slot.dir, growth)))
    ensures r.Err? ==> (!vol.exfat ==> cs == {}) && growth > 0 && r.error == NoSpace(vol, slot.dir)
    ensures LiveDir(old(vol.disk), slot.dir)
    ensures old(!vol.Quiet(slot.dir, growth)) ==> exists m :: m in vol.moments && !CrashSafe(m)
  {
    ghost var a, hang := vol.disk, !vol.Calm(slot.dir, growth);
    Live(vol, t[..|t| - 1]);
    LinkReady(vol.Now(), e, vol.nextId);
    BackedView(vol.Now(), e);
    r, cs := vol.Insert(slot.dir, slot, e, growth, x);
    if r.Err? {
      FailedSound(a, vol.disk, slot.dir, cs, hang, vol.fold);
    }
  }

  /** First half of a move: link the entry under its new name and make that durable. */
  method LinkNew(vol: Volume, slot: Slot, e: Entry, growth: nat, ghost t: Path, ghost x: Op)
      returns (r: Result<()>, ghost cs: set<nat>)
    requires Sound(vol.disk, vol.fold) && vol.Track(x) && Solid(vol.Now()) && slot in x.but &&
      (x.solid ==> vol.Quiet(slot.dir, growth))
    requires Names(vol.disk.links, t, slot) && Known(vol.Now(), vol.nextId) && x.next == vol.nextId &&
      IsLinked(vol.disk.links, e)
    modifies vol`disk, vol`base, vol`pending, vol`moments, vol`contiguous
    ensures vol.Track(x) && old(vol.moments) <= vol.moments
    ensures r.Ok? <==> old(vol.Fits(slot.dir, growth))
    ensures vol.contiguous == if r.Ok? then old(vol.StillContiguous(slot.dir, growth)) else old(vol.contiguous)
    ensures r.Ok? ==>
      Inserted(old(vol.disk), vol.disk, slot.dir, slot, e, cs) && vol.Now() == Moment(vol.disk, []) &&
      Solid(vol.Now())
    ensures r.Err? ==>
      Sound(vol.disk, vol.fold) && vol.disk.links == old(vol.disk.links) &&
      (!vol.exfat ==> SameDisk(old(vol.disk), vol.disk))
    ensures r.Err? ==> growth > 0 && r.error == NoSpace(vol, slot.dir)
    ensures LiveDir(old(vol.disk), slot.dir)
    ensures old(!vol.Quiet(slot.dir, growth)) ==> exists m :: m in vol.moments && !CrashSafe(m)
  {
    ghost var a, hang := vol.disk, !vol.Calm(slot.dir, growth);
    r, cs := LinkAgain(vol, slot, e, growth, t, x);
    if r.Err? {
      GrownNone(a, vol.disk, slot.dir, cs, hang);
    } else {
      SolidView(vol.Now());
      vol.Barrier(x);
    }
  }

  lemma GrownNone(a: Disk, b: Disk, d: nat, cs: set<nat>, hang: bool)
    requires Grown(a, b, d, cs, hang)
    ensures a.links == b.links && (cs == {} ==> SameDisk(a, b))
  {
  }

  /** `e` is a linked entry, perhaps under another name. */
  ghost predicate IsLinked(l: Links, e: Entry) {
    exists s :: s in l && l[s].(name := e.name) == e
  }

  lemma LinkReady(m: Moment, e: Entry, next: nat)
    requires Solid(m) && Known(m, next) && IsLinked(ApplyAll(m.base, m.pending).links, e)
    ensures Backed(m, e) && e.id < next
  {
    var l := ApplyAll(m.base, m.pending).links;
    var s :| s in l && l[s].(name := e.name) == e;
    BackedLink(m, s);
    KnownEntry(m, s, next);
  }

  lemma KnownEntry(m: Moment, s: Slot, next: nat)
    requires Known(m, next) && s in ApplyAll(m.base, m.pending).links
    ensures ApplyAll(m.base, m.pending).links[s].id < next && s.dir < next
  {
    ViewBetween(m);
    assert MayLink(m, s, ApplyAll(m.base, m.pending).links[s]);
  }

  /** Second half: unlink the old name. */
  method UnlinkOld(vol: Volume, from: Slot, ghost x: Op)
    requires vol.Track(x) && Solid(vol.Now()) && x.but == {from} && Sound(Apply(vol.disk, Drop(from)), vol.fold)
    modifies vol`disk, vol`base, vol`pending, vol`moments
    ensures vol.Track(x) && old(vol.moments) <= vol.moments && Solid(vol.Now()) && Sound(vol.disk, vol.fold)
    ensures vol.disk == Apply(old(vol.disk), Drop(from)) && Durable(vol)
  {
    ghost var b := Apply(vol.disk, Drop(from));
    vol.Unlink(from, x);
    assert vol.disk == b;
    Commit(vol, x);
  }

  /** Why the entry at `from` is not moved to `to`, or not respelt so. */
  ghost function MoveRefusal(vol: Volume, from: Path, to: Path): Error
    requires from != [] && to != []
    reads vol
  {
    var l, f, t := vol.disk.links, P.FoldPath(vol.fold, from), P.FoldPath(vol.fold, to);
    if SeekRefusal(l, f).Some? then SeekRefusal(l, f).value
    else if f == t then NoSpace(vol, Opened(l, f[..|f| - 1]).value)
    else RefusedAt(vol, l, t)
  }

  /** `rename` to another name or place, with the locks held. */
  method MoveLocked(vol: Volume, from: Path, to: Path, growth: nat) returns (r: Result<()>)
    requires from != [] && to != [] && vol.Valid() && Solid(vol.Now())
    requires !Under(P.FoldPath(vol.fold, from), P.FoldPath(vol.fold, to))
    modifies vol`disk, vol`base, vol`pending, vol`moments, vol`contiguous
    ensures vol.Valid()
    ensures r.Ok? <==> old(Findable(vol, from) && RoomFor(vol, to, growth))
    ensures r.Err? ==> r.error == old(MoveRefusal(vol, from, to))
    ensures vol.contiguous == if r.Ok? then old(ContiguousAfter(vol, to, growth)) else old(vol.contiguous)
    ensures r.Ok? ==> Durable(vol) && Solid(vol.Now()) && Leaked(vol.disk) == old(Leaked(vol.disk))
    ensures r.Ok? ==> Renamed(old(vol.disk.links), vol.disk.links, P.FoldPath(vol.fold, from),
      P.FoldPath(vol.fold, to), to[|to| - 1])
    ensures r.Err? ==> vol.disk.links == old(vol.disk.links) && (!vol.exfat ==> SameDisk(old(vol.disk), vol.disk))
    ensures !old(Findable(vol, from) && Vacant(vol.disk.links, P.FoldPath(vol.fold, to))) ==>
      vol.disk == old(vol.disk) && vol.Now() == old(vol.Now()) && vol.moments == old(vol.moments)
    ensures LinkedThroughout(old(vol.disk.links), P.FoldPath(vol.fold, from), P.FoldPath(vol.fold, to),
      old(vol.moments), vol.moments, old(vol.Now()))
    ensures old(AllSafe(vol.moments)) ==> (AllSafe(vol.moments) <==>
      (old(Findable(vol, from)) ==> old(QuietFor(vol, to, growth))))
  {
    var source := Seek(vol, from);
    if source.Err? {
      return Err(source.error);
    }
    var place := Place(vol, to);
    if place.Err? {
      return Err(place.error);
    }
    r := Move(vol, source.value, place.value, to[|to| - 1], growth, P.FoldPath(vol.fold, from),
      P.FoldPath(vol.fold, to));
  }

  /** A path names one slot. */
  lemma LinkedByName(l: Links, f: Path, t: Path, from: Slot, to: Slot, before: set<Moment>, now: set<Moment>,
      start: Moment)
    requires from in l && Names(l, f, from) && Names(l, t, to)
    requires StaysLinked(before, now, start, from, to, l[from].id)
    ensures LinkedThroughout(l, f, t, before, now, start)
  {
    forall s, s' | s in l && Names(l, f, s) && Names(l, t, s')
      ensures s == from && s' == to
    {
    }
  }

  /** The path names an entry. */
  ghost predicate Findable(vol: Volume, path: Path)
    requires path != []
    reads vol`disk
  {
    Find(vol.disk.links, P.FoldPath(vol.fold, path)).Some?
  }

  /** Link under the new name, barrier, unlink the old name. `y` is the second half. */
  method MoveSteps(vol: Volume, from: Slot, to: Slot, e: Entry, growth: nat, ghost f: Path, ghost t: Path, ghost x: Op)
      returns (r: Result<()>, ghost y: Op)
    requires Sound(vol.disk, vol.fold) && vol.Track(x) && Solid(vol.Now()) && x.but == {to} &&
      (x.solid ==> vol.Quiet(to.dir, growth))
    requires Known(vol.Now(), vol.nextId) && x.next == vol.nextId && to.key == P.Fold(vol.fold, e.name)
    requires MayMove(vol.disk.links, f, t, from, to, e) && e == vol.disk.links[from].(name := e.name)
    modifies vol`disk, vol`base, vol`pending, vol`moments, vol`contiguous
    ensures vol.Logged() && Sound(vol.disk, vol.fold) && Known(vol.Now(), vol.nextId) && Since(x, y.seen)
    ensures r.Ok? <==> old(vol.Fits(to.dir, growth))
    ensures vol.contiguous == if r.Ok? then old(vol.StillContiguous(to.dir, growth)) else old(vol.contiguous)
    ensures r.Ok? ==> Since(y, vol.moments) && y.but == {from} && y.solid && Kept(y.start, to, e.id)
    ensures r.Ok? ==>
      Durable(vol) && Solid(vol.Now()) && Leaked(vol.disk) == old(Leaked(vol.disk)) &&
      vol.disk.links == Moved(old(vol.disk.links), from, to, e)
    ensures r.Err? ==> y.seen == vol.moments && growth > 0 && r.error == NoSpace(vol, to.dir)
    ensures r.Err? ==> vol.disk.links == old(vol.disk.links) && (!vol.exfat ==> SameDisk(old(vol.disk), vol.disk))
    ensures old(!vol.Quiet(to.dir, growth)) ==> exists m :: m in y.seen && !CrashSafe(m)
  {
    ghost var a := vol.disk;
    ghost var cs;
    r, cs := LinkNew(vol, to, e, growth, t, x);
    y := Op(vol.moments, vol.Now(), {from}, true, vol.nextId);
    if r.Ok? {
      FinishMove(vol, a, from, to, e, f, t, cs, y);
    }
  }

  method FinishMove(vol: Volume, ghost a: Disk, from: Slot, to: Slot, ghost e: Entry, ghost f: Path, ghost t: Path,
      ghost cs: set<nat>, ghost y: Op)
    requires vol.Track(y) && Solid(vol.Now()) && y.but == {from} && vol.Now() == Moment(vol.disk, []) &&
      y.start == vol.Now()
    requires Sound(a, vol.fold) && Inserted(a, vol.disk, to.dir, to, e, cs) && LiveDir(a, to.dir) &&
      to.key == P.Fold(vol.fold, e.name)
    requires MayMove(a.links, f, t, from, to, e) && e == a.links[from].(name := e.name)
    modifies vol`disk, vol`base, vol`pending, vol`moments
    ensures vol.Track(y) && Sound(vol.disk, vol.fold) && Solid(vol.Now()) && Leaked(vol.disk) == Leaked(a)
    ensures Durable(vol)
    ensures vol.disk.links == Moved(a.links, from, to, e) && Kept(y.start, to, e.id) && old(vol.moments) <= vol.moments
  {
    MoveSound(a, vol.disk, to.dir, f, t, from, to, e, cs, vol.fold);
    UnlinkOld(vol, from, y);
  }

  lemma BothSafe(x: Op, y: Op, moments: set<Moment>)
    requires Since(x, y.seen) && x.solid && (y.seen == moments || (Since(y, moments) && y.solid))
    ensures SafeSince(x.seen, moments)
  {
    SolidSince(x, y.seen);
    if y.seen != moments {
      SolidSince(y, moments);
    }
  }

  method Move(vol: Volume, from: Slot, to: Slot, name: Name, growth: nat, ghost f: Path, ghost t: Path)
      returns (r: Result<()>)
    requires vol.Valid() && Solid(vol.Now()) && from in vol.disk.links && to.key == P.Fold(vol.fold, name)
    requires MayMove(vol.disk.links, f, t, from, to, vol.disk.links[from].(name := name))
    modifies vol`disk, vol`base, vol`pending, vol`moments, vol`contiguous
    ensures vol.Valid()
    ensures r.Ok? <==> old(vol.Fits(to.dir, growth))
    ensures vol.contiguous == if r.Ok? then old(vol.StillContiguous(to.dir, growth)) else old(vol.contiguous)
    ensures r.Ok? ==> Durable(vol) && Solid(vol.Now()) && Leaked(vol.disk) == old(Leaked(vol.disk))
    ensures r.Ok? ==> Renamed(old(vol.disk.links), vol.disk.links, f, t, name)
    ensures LinkedThroughout(old(vol.disk.links), f, t, old(vol.moments), vol.moments, old(vol.Now()))
    ensures r.Err? ==> vol.disk.links == old(vol.disk.links) && (!vol.exfat ==> SameDisk(old(vol.disk), vol.disk))
    ensures r.Err? ==> growth > 0 && r.error == NoSpace(vol, to.dir)
    ensures old(AllSafe(vol.moments)) ==> (AllSafe(vol.moments) <==> old(vol.Quiet(to.dir, growth)))
  {
    var e := vol.disk.links[from].(name := name);
    ghost var x := Op(vol.moments, vol.Now(), {to}, vol.Quiet(to.dir, growth), vol.nextId);
    ghost var y;
    ghost var l := vol.disk.links;
    r, y := MoveSteps(vol, from, to, e, growth, f, t, x);
    if r.Ok? {
      MoveKeeps(x, y, vol.moments, from, to, e.id);
    } else {
      OldStays(x, vol.moments, from, to, e.id);
    }
    if x.solid {
      BothSafe(x, y, vol.moments);
    } else {
      assert forall m :: m in y.seen ==> m in vol.moments;
    }
    LinkedByName(l, f, t, from, to, x.seen, vol.moments, x.start);
  }

  lemma MoveKeeps(x: Op, y: Op, moments: set<Moment>, from: Slot, to: Slot, id: nat)
    requires Since(x, y.seen) && Since(y, moments) && x.but == {to} && y.but == {from} && from != to
    requires Kept(y.start, to, id)
    ensures StaysLinked(x.seen, moments, x.start, from, to, id)
  {
    HeldExactly(x.start, from, id);
    forall m | m in moments && m !in x.seen && Held(x.start, from, id)
      ensures Held(m, from, id) || Held(m, to, id)
    {
      HeldExactly(m, from, id);
      HeldExactly(m, to, id);
    }
  }

  /** While only the new name is being written, the old one stays linked. */
  lemma OldStays(x: Op, moments: set<Moment>, from: Slot, to: Slot, id: nat)
    requires Since(x, moments) && x.but == {to} && from != to
    ensures StaysLinked(x.seen, moments, x.start, from, to, id)
  {
    HeldExactly(x.start, from, id);
    forall m | m in moments && m !in x.seen && Held(x.start, from, id)
      ensures Held(m, from, id)
    {
      HeldExactly(m, from, id);
    }
  }

  // ---------------------------------------------------------------- case-only respelling

  lemma RespeltSound(a: Disk, slot: Slot, e: Entry, fold: char -> char)
    requires Sound(a, fold) && slot in a.links && e == a.links[slot].(name := e.name) &&
      slot.key == P.Fold(fold, e.name)
    ensures Sound(a.(links := a.links[slot := e]), fold) && Leaked(a.(links := a.links[slot := e])) == Leaked(a)
  {
    var b := a.(links := a.links[slot := e]);
    RespeltTree(a.links, slot, e);
    forall s | s in b.links
      ensures s in a.links && b.Refs(b.links[s]) == a.Refs(a.links[s]) && b.links[s].id == a.links[s].id
    {
    }
    SameRefsSound(a, b);
    RespeltLeak(a, b);
  }

  /** Entries that refer to what they did stay separate, safe and exclusive. */
  lemma SameRefsSound(a: Disk, b: Disk)
    requires Separate(a.links) && Safe(a) && Exclusive(a)
    requires a.used == b.used && a.links.Keys == b.links.Keys && a.Tail(ROOT) == b.Tail(ROOT)
    requires forall s :: s in b.links ==>
      s in a.links && b.Refs(b.links[s]) == a.Refs(a.links[s]) && b.links[s].id == a.links[s].id
    ensures Separate(b.links) && Safe(b) && Exclusive(b)
  {
    forall s, t | s in b.links && t in b.links && b.links[s].id == b.links[t].id
      ensures s == t
    {
      assert s in a.links && t in a.links;
    }
    forall s | s in b.links
      ensures b.Refs(b.links[s]) <= b.used
    {
      assert a.Refs(a.links[s]) <= a.used;
    }
  }

  lemma RespeltLeak(a: Disk, b: Disk)
    requires a.used == b.used && a.links.Keys == b.links.Keys && a.Tail(ROOT) == b.Tail(ROOT)
    requires forall s :: s in b.links ==> s in a.links && b.Refs(b.links[s]) == a.Refs(a.links[s])
    ensures Leaked(b) == Leaked(a)
  {
    forall c
      ensures Referred(a, c) <==> Referred(b, c)
    {
      if s :| s in a.links && c in a.Refs(a.links[s]) {
        assert s in b.links && c in b.Refs(b.links[s]);
      }
      if s :| s in b.links && c in b.Refs(b.links[s]) {
        assert c in a.Refs(a.links[s]);
      }
    }
  }

  /** `b` is `a` with the entry at `slot` gone. */
  predicate Without(a: Disk, b: Disk, slot: Slot) { b == Apply(a, Drop(slot)) }

  lemma WithoutSafe(a: Disk, b: Disk, slot: Slot)
    requires Safe(a) && Without(a, b, slot)
    ensures Safe(b)
  {
    forall s | s in b.links
      ensures b.Refs(b.links[s]) <= b.used
    {
      assert a.Refs(a.links[s]) <= a.used;
    }
  }

  /** The directory of an entry is live without that entry. */
  lemma LiveWithout(a: Disk, b: Disk, f: Path, slot: Slot, fold: char -> char)
    requires Sound(a, fold) && Without(a, b, slot) && Names(a.links, f, slot) && slot in a.links
    ensures LiveDir(a, slot.dir) && LiveDir(b, slot.dir)
    ensures b.Tail(slot.dir) <= b.used
  {
    if slot.dir != ROOT {
      var q := f[..|f| - 1];
      LinkedDir(a.links, q);
      var s :| s in a.links && a.links[s].isDir && a.links[s].id == slot.dir;
      if s == slot {
        NotInItself(a.links, f, slot);
      }
      assert s in b.links && b.links[s].id == slot.dir;
      assert a.Refs(a.links[s]) <= a.used;
    } else {
      assert a.Tail(ROOT) <= a.used;
    }
  }

  lemma WithoutGrown(a: Disk, b: Disk, c: Disk, slot: Slot, cs: set<nat>, hang: bool)
    requires Without(a, b, slot) && c.used == b.used + cs && cs !! b.used
    requires forall id :: c.Tail(id) == if id == slot.dir && hang then b.Tail(id) + cs else b.Tail(id)
    ensures Grown(a, Disk(a.links, c.used, c.hung), slot.dir, cs, hang)
  {
    var g := Disk(a.links, c.used, c.hung);
    forall id
      ensures g.Tail(id) == if id == slot.dir && hang then a.Tail(id) + cs else a.Tail(id)
    {
      assert g.Tail(id) == c.Tail(id) && a.Tail(id) == b.Tail(id);
    }
  }

  /** Linking `e` again where it was dropped from gives back a sound volume. */
  lemma RelinkedSound(a: Disk, b: Disk, c: Disk, slot: Slot, e: Entry, cs: set<nat>, fold: char -> char)
    requires Sound(a, fold) && Without(a, b, slot) && Inserted(b, c, slot.dir, slot, e, cs)
    requires slot in a.links && e == a.links[slot].(name := e.name) && slot.key == P.Fold(fold, e.name)
    requires LiveDir(a, slot.dir)
    ensures Sound(c, fold) && Leaked(c) == Leaked(a) && c.links == a.links[slot := e]
  {
    var g := Disk(a.links, c.used, c.hung);
    WithoutGrown(a, b, c, slot, cs, true);
    GrownSound(a, g, slot.dir, cs, fold);
    RespeltSound(g, slot, e, fold);
    RelinkedShape(a, b, c, slot, e);
  }

  lemma RelinkedShape(a: Disk, b: Disk, c: Disk, slot: Slot, e: Entry)
    requires Without(a, b, slot) && c.links == b.links[slot := e]
    ensures c.links == a.links[slot := e] && c == Disk(a.links, c.used, c.hung).(links := a.links[slot := e])
  {
  }

  /** A failed growth while the entry is dropped is a failed growth with it in place. */
  lemma FailedWithout(a: Disk, b: Disk, c: Disk, slot: Slot, cs: set<nat>, hang: bool, fold: char -> char)
    requires Sound(a, fold) && Without(a, b, slot) && Grown(b, c, slot.dir, cs, hang)
    requires LiveDir(a, slot.dir)
    ensures var a' := Disk(a.links, c.used, c.hung);
      Sound(a', fold) && Without(a', c, slot) && Grown(a, a', slot.dir, cs, hang)
  {
    var a' := Disk(a.links, c.used, c.hung);
    WithoutGrown(a, b, c, slot, cs, hang);
    FailedSound(a, a', slot.dir, cs, hang, fold);
  }

  /** Unlink an entry for respelling, durably. From here to the relink nothing links the object. */
  method DropForRespell(vol: Volume, slot: Slot, ghost f: Path, ghost x: Op)
    requires Sound(vol.disk, vol.fold) && vol.Track(x) && Solid(vol.Now()) && slot in x.but
    requires slot in vol.disk.links && Names(vol.disk.links, f, slot)
    modifies vol`disk, vol`base, vol`pending, vol`moments
    ensures vol.Track(x) && Solid(vol.Now()) && old(vol.moments) <= vol.moments
    ensures Without(old(vol.disk), vol.disk, slot) && vol.Now() == Moment(vol.disk, []) && vol.Now() in vol.moments
    ensures !Held(vol.Now(), slot, old(vol.disk.links[slot]).id)
  {
    ghost var b := Apply(vol.disk, Drop(slot));
    WithoutSafe(vol.disk, b, slot);
    vol.Unlink(slot, x);
    assert vol.disk == b;
    vol.Barrier(x);
    HeldExactly(vol.Now(), slot, old(vol.disk.links[slot]).id);
  }

  /** Link an object again where it has just been unlinked. */
  method Relink(vol: Volume, slot: Slot, e: Entry, growth: nat, ghost a: Disk, ghost f: Path, ghost x: Op)
      returns (r: Result<()>, cs: set<nat>)
    requires vol.Track(x) && Safe(vol.disk) && slot in x.but && (x.solid ==> vol.Quiet(slot.dir, growth))
    requires Sound(a, vol.fold) && Without(a, vol.disk, slot) && Names(a.links, f, slot) && slot in a.links
    requires e == a.links[slot].(name := e.name) && slot.key == P.Fold(vol.fold, e.name) && e.id < x.next &&
      slot.dir < x.next
    requires x.solid ==> Backed(vol.Now(), e)
    modifies vol`disk, vol`base, vol`pending, vol`moments, vol`contiguous
    ensures vol.Track(x) && old(vol.moments) <= vol.moments
    ensures r.Ok? <==> old(vol.Fits(slot.dir, growth))
    ensures r.Ok? ==> Sound(vol.disk, vol.fold) && Leaked(vol.disk) == Leaked(a) && vol.disk.links == a.links[slot := e]
    ensures r.Ok? ==> vol.contiguous == old(vol.StillContiguous(slot.dir, growth))
    ensures r.Ok? && old(Solid(vol.Now()) && Backed(vol.Now(), e)) ==> Solid(vol.Now())
    ensures r.Err? ==>
      growth > 0 && r.error == NoSpace(vol, slot.dir) && vol.contiguous == old(vol.contiguous) &&
      Grown(old(vol.disk), vol.disk, slot.dir, cs, !old(vol.Calm(slot.dir, growth)))
    ensures r.Err? ==> cs == if vol.exfat && !(vol.fixedRoot && slot.dir == ROOT) then old(vol.Free()) else {}
    ensures r.Err? && old(vol.Quiet(slot.dir, growth)) ==> OnlyTook(old(vol.Now()), vol.Now())
    ensures old(!vol.Quiet(slot.dir, growth)) ==> exists m :: m in vol.moments && !CrashSafe(m)
  {
    ghost var b := vol.disk;
    LiveWithout(a, b, f, slot, vol.fold);
    assert a.Refs(a.links[slot]) <= a.used;
    r, cs := vol.Insert(slot.dir, slot, e, growth, x);
    if r.Ok? {
      RelinkedSound(a, b, vol.disk, slot, e, cs, vol.fold);
    }
  }

  /** Link the object under the caller's spelling of the old name after a failed relink. `a` is the
      disk before the entry was dropped, `b` the one right after. */
  method Restore(vol: Volume, slot: Slot, e: Entry, need: nat, ghost a: Disk, ghost b: Disk, ghost cs: set<nat>,
      ghost hang: bool, ghost f: Path, ghost x: Op) returns (r: Result<()>)
    requires vol.Track(x) && slot in x.but && e.id < x.next && slot.dir < x.next
    requires Sound(a, vol.fold) && Without(a, b, slot) && Grown(b, vol.disk, slot.dir, cs, hang) &&
      Names(a.links, f, slot)
    requires slot in a.links && e == a.links[slot].(name := e.name) && slot.key == P.Fold(vol.fold, e.name)
    requires x.solid ==> vol.Quiet(slot.dir, need) && Backed(vol.Now(), e)
    modifies vol`disk, vol`base, vol`pending, vol`moments, vol`contiguous
    ensures vol.Track(x) && old(vol.moments) <= vol.moments
    ensures r.Ok? <==> old(vol.Fits(slot.dir, need))
    ensures vol.contiguous == if r.Ok? then old(vol.StillContiguous(slot.dir, need)) else old(vol.contiguous)
    ensures r.Ok? ==> Sound(vol.disk, vol.fold) && vol.disk.links == a.links[slot := e]
    ensures r.Ok? && cs == {} ==> Leaked(vol.disk) == Leaked(a)
    ensures r.Err? ==> vol.disk.links == b.links && (!e.isDir ==> Sound(vol.disk, vol.fold))
  {
    ghost var a' := Disk(a.links, vol.disk.used, vol.disk.hung);
    RestoreReady(a, b, vol.disk, slot, cs, hang, f, vol.fold);
    ghost var c, more := vol.disk, {};
    r, more := Relink(vol, slot, e, need, a', f, x);
    if r.Err? && !e.isDir {
      LostSound(a', c, vol.disk, slot, more, !old(vol.Calm(slot.dir, need)), f, vol.fold);
    }
  }

  lemma RestoreReady(a: Disk, b: Disk, c: Disk, slot: Slot, cs: set<nat>, hang: bool, f: Path, fold: char -> char)
    requires Sound(a, fold) && Without(a, b, slot) && Grown(b, c, slot.dir, cs, hang) && Names(a.links, f, slot) &&
      slot in a.links
    ensures var a' := Disk(a.links, c.used, c.hung);
      Sound(a', fold) && Without(a', c, slot) && Safe(c) && (cs == {} ==> Leaked(a') == Leaked(a))
  {
    var a' := Disk(a.links, c.used, c.hung);
    LiveWithout(a, b, f, slot, fold);
    FailedWithout(a, b, c, slot, cs, hang, fold);
    WithoutSafe(a', c, slot);
    if cs == {} {
      GrownLeak(a, a', slot.dir, cs);
    }
  }

  /** A file that could not be linked again leaves a sound volume without it. */
  lemma LostSound(a: Disk, b: Disk, c: Disk, slot: Slot, cs: set<nat>, hang: bool, f: Path, fold: char -> char)
    requires Sound(a, fold) && Without(a, b, slot) && Grown(b, c, slot.dir, cs, hang) && Names(a.links, f, slot)
    requires slot in a.links && !a.links[slot].isDir
    ensures Sound(c, fold)
  {
    RestoreReady(a, b, c, slot, cs, hang, f, fold);
    var a' := Disk(a.links, c.used, c.hung);
    DroppedSound(a', slot, fold);
    assert c == a'.(links := a'.links - {slot});
  }

  /** The directory `d` has or can make room that takes `n` more clusters once an attempt to make
      room has failed. On FAT such an attempt gives everything back. On exFAT it keeps every cluster
      that was free: on the directory's chain, or, when the directory was contiguous, out of reach. */
  ghost predicate FitsStill(vol: Volume, used: set<nat>, d: nat, n: nat)
    reads vol`contiguous
  {
    n == 0 || (!(vol.fixedRoot && d == ROOT) && n <= |FreeIn(used, vol.count)| && !(vol.exfat && d in vol.contiguous))
  }

  /** The clusters still missing when `got` have been appended. */
  function Missing(n: nat, got: nat): nat { if n <= got then 0 else n - got }

  lemma StillFits(free: set<nat>, now: set<nat>, cs: set<nat>, n: nat)
    requires now == free - cs && (cs == free || cs == {})
    ensures Missing(n, |cs|) == 0 || Missing(n, |cs|) <= |now| <==> n <= |free|
  {
    if cs == free {
      assert now == {};
    }
  }

  /** What the old spelling then needs fits when it still does, and makes no contiguous directory a
      chain. */
  lemma BackFits(vol: Volume, used: set<nat>, d: nat, cs: set<nat>, n: nat, need: nat)
    requires vol.disk.used == used + cs && cs == (if vol.exfat then FreeIn(used, vol.count) else {})
    requires need == (if vol.exfat && d in vol.contiguous then n else Missing(n, |cs|)) && !(vol.exfat && vol.fixedRoot)
    ensures vol.Fits(d, need) <==> FitsStill(vol, used, d, n)
    ensures vol.Fits(d, need) ==> vol.StillContiguous(d, need) == vol.contiguous
  {
    FreeLeft(used, vol.disk.used, cs, vol.count);
    StillFits(FreeIn(used, vol.count), vol.Free(), cs, n);
  }

  /** After a failed attempt to link the new spelling, which claimed the clusters `cs`, link the
      spelling `e` carries if there is room. */
  method LinkBack(vol: Volume, slot: Slot, e: Entry, cs: set<nat>, regrowth: nat, ghost a: Disk, ghost b: Disk,
      ghost hang: bool, ghost f: Path, ghost x: Op)
    requires vol.Track(x) && slot in x.but && e.id < x.next && slot.dir < x.next && !(vol.exfat && vol.fixedRoot)
    requires Sound(a, vol.fold) && Without(a, b, slot) && Grown(b, vol.disk, slot.dir, cs, hang) &&
      Names(a.links, f, slot)
    requires slot in a.links && e == a.links[slot].(name := e.name) && slot.key == P.Fold(vol.fold, e.name)
    requires cs == if vol.exfat then FreeIn(b.used, vol.count) else {}
    requires x.solid ==> Backed(vol.Now(), e)
    requires x.solid && FreeIn(b.used, vol.count) != {} ==>
      (vol.exfat && slot.dir in vol.contiguous) || (vol.fixedRoot && slot.dir == ROOT)
    modifies vol`disk, vol`base, vol`pending, vol`moments, vol`contiguous
    ensures vol.Track(x) && old(vol.moments) <= vol.moments
    ensures vol.contiguous == old(vol.contiguous)
    ensures old(FitsStill(vol, b.used, slot.dir, regrowth)) ==>
      Sound(vol.disk, vol.fold) && vol.disk.links == a.links[slot := e] &&
      (!vol.exfat ==> Leaked(vol.disk) == Leaked(a))
    ensures !old(FitsStill(vol, b.used, slot.dir, regrowth)) ==>
      vol.disk.links == b.links && (!e.isDir ==> Sound(vol.disk, vol.fold))
  {
    var need := if vol.exfat && slot.dir in vol.contiguous then regrowth else Missing(regrowth, |cs|);
    BackFits(vol, b.used, slot.dir, cs, regrowth, need);
    var undone := Restore(vol, slot, e, need, a, b, cs, hang, f, x);
  }

  /** Unlink, link under the new spelling, or else under the old one as the caller spells it. */
  method RespellSteps(vol: Volume, slot: Slot, name: Name, back: Name, growth: nat, regrowth: nat, ghost f: Path,
      ghost x: Op) returns (r: Result<()>)
    requires Sound(vol.disk, vol.fold) && vol.Track(x) && Solid(vol.Now()) && slot in x.but &&
      x.solid == vol.Quiet(slot.dir, growth) && !(vol.exfat && vol.fixedRoot)
    requires slot in vol.disk.links && Names(vol.disk.links, f, slot) && vol.disk.links[slot].id < x.next &&
      slot.dir < x.next
    requires slot.key == P.Fold(vol.fold, name) == P.Fold(vol.fold, back)
    modifies vol`disk, vol`base, vol`pending, vol`moments, vol`contiguous
    ensures vol.Track(x) && old(vol.moments) <= vol.moments
    ensures r.Ok? <==> old(vol.Fits(slot.dir, growth))
    ensures vol.contiguous == if r.Ok? then old(vol.StillContiguous(slot.dir, growth)) else old(vol.contiguous)
    ensures r.Ok? ==>
      Sound(vol.disk, vol.fold) && Durable(vol) && Solid(vol.Now()) && Leaked(vol.disk) == old(Leaked(vol.disk)) &&
      vol.disk.links == old(vol.disk.links)[slot := old(vol.disk.links[slot]).(name := name)]
    ensures r.Err? ==> r.error == NoSpace(vol, slot.dir)
    ensures r.Err? && old(FitsStill(vol, vol.disk.used, slot.dir, regrowth)) ==>
      Sound(vol.disk, vol.fold) && (!vol.exfat ==> Leaked(vol.disk) == old(Leaked(vol.disk))) &&
      vol.disk.links == old(vol.disk.links)[slot := old(vol.disk.links[slot]).(name := back)]
    ensures r.Err? && !old(FitsStill(vol, vol.disk.used, slot.dir, regrowth)) ==>
      vol.disk.links == old(vol.disk.links) - {slot} &&
      (!old(vol.disk.links[slot]).isDir ==> Sound(vol.disk, vol.fold))
    ensures !old(vol.Quiet(slot.dir, growth)) ==> exists m :: m in vol.moments && !CrashSafe(m)
    ensures exists m :: m in vol.moments && !Held(m, slot, old(vol.disk.links[slot]).id)
  {
    ghost var a := vol.disk;
    var e := vol.disk.links[slot];
    DropForRespell(vol, slot, f, x);
    ghost var bare := vol.Now();
    assert a.Refs(e) <= a.used;
    r := LinkEither(vol, slot, e.(name := name), e.(name := back), growth, regrowth, a, f, x);
    assert bare in vol.moments && !Held(bare, slot, e.id);
  }

  /** The entry has been unlinked, durably: link `e`, or else `back`. */
  method LinkEither(vol: Volume, slot: Slot, e: Entry, back: Entry, growth: nat, regrowth: nat, ghost a: Disk,
      ghost f: Path, ghost x: Op) returns (r: Result<()>)
    requires vol.Track(x) && vol.Now() == Moment(vol.disk, []) && Solid(vol.Now()) && slot in x.but
    requires x.solid == vol.Quiet(slot.dir, growth) && !(vol.exfat && vol.fixedRoot)
    requires Sound(a, vol.fold) && Without(a, vol.disk, slot) && Names(a.links, f, slot) && slot in a.links
    requires e == a.links[slot].(name := e.name) && back == e.(name := back.name) && a.Refs(e) <= a.used
    requires slot.key == P.Fold(vol.fold, e.name) == P.Fold(vol.fold, back.name) && e.id < x.next && slot.dir < x.next
    modifies vol`disk, vol`base, vol`pending, vol`moments, vol`contiguous
    ensures vol.Track(x) && old(vol.moments) <= vol.moments
    ensures r.Ok? <==> old(vol.Fits(slot.dir, growth))
    ensures vol.contiguous == if r.Ok? then old(vol.StillContiguous(slot.dir, growth)) else old(vol.contiguous)
    ensures r.Ok? ==>
      Sound(vol.disk, vol.fold) && Durable(vol) && Solid(vol.Now()) && Leaked(vol.disk) == Leaked(a) &&
      vol.disk.links == a.links[slot := e]
    ensures r.Err? ==> r.error == NoSpace(vol, slot.dir)
    ensures r.Err? && old(FitsStill(vol, vol.disk.used, slot.dir, regrowth)) ==>
      Sound(vol.disk, vol.fold) && (!vol.exfat ==> Leaked(vol.disk) == Leaked(a)) &&
      vol.disk.links == a.links[slot := back]
    ensures r.Err? && !old(FitsStill(vol, vol.disk.used, slot.dir, regrowth)) ==>
      vol.disk.links == a.links - {slot} && (!e.isDir ==> Sound(vol.disk, vol.fold))
    ensures !old(vol.Quiet(slot.dir, growth)) ==> exists m :: m in vol.moments && !CrashSafe(m)
  {
    ghost var b, bare, hang := vol.disk, vol.Now(), !vol.Calm(slot.dir, growth);
    BackedBarrier(b, e);
    WithoutSafe(a, b, slot);
    var cs;
    r, cs := Relink(vol, slot, e, growth, a, f, x);
    if r.Ok? {
      Commit(vol, x);
    } else {
      if x.solid {
        TookBacked(bare, vol.Now(), back);
      }
      LinkBack(vol, slot, back, cs, regrowth, a, b, hang, f, x);
    }
  }

  /** The case-only branch of `rename`. It succeeds exactly when there is room for the new spelling.
      If not, the object is linked again under the spelling the caller used for the old name, which
      need not be the one stored; and if there is no room for that either, the entry is lost.
      Between the unlink and the relink no link to the object is on the device. */
  method Respell(vol: Volume, slot: Slot, name: Name, back: Name, growth: nat, regrowth: nat, ghost f: Path)
      returns (r: Result<()>)
    requires vol.Valid() && Solid(vol.Now()) && slot in vol.disk.links && Names(vol.disk.links, f, slot)
    requires slot.key == P.Fold(vol.fold, name) == P.Fold(vol.fold, back)
    modifies vol`disk, vol`base, vol`pending, vol`moments, vol`contiguous
    ensures r.Ok? <==> old(vol.Fits(slot.dir, growth))
    ensures vol.contiguous == if r.Ok? then old(vol.StillContiguous(slot.dir, growth)) else old(vol.contiguous)
    ensures r.Ok? ==> vol.Valid() && Durable(vol) && Solid(vol.Now()) && Leaked(vol.disk) == old(Leaked(vol.disk))
    ensures r.Ok? ==> vol.disk.links == old(vol.disk.links)[slot := old(vol.disk.links[slot]).(name := name)]
    ensures r.Err? ==> r.error == NoSpace(vol, slot.dir)
    ensures r.Err? && old(FitsStill(vol, vol.disk.used, slot.dir, regrowth)) ==>
      vol.Valid() && (!vol.exfat ==> Leaked(vol.disk) == old(Leaked(vol.disk))) &&
      vol.disk.links == old(vol.disk.links)[slot := old(vol.disk.links[slot]).(name := back)]
    ensures r.Err? && !old(FitsStill(vol, vol.disk.used, slot.dir, regrowth)) ==>
      vol.disk.links == old(vol.disk.links) - {slot} && (!old(vol.disk.links[slot]).isDir ==> vol.Valid())
    ensures old(AllSafe(vol.moments)) ==> (AllSafe(vol.moments) <==> old(vol.Quiet(slot.dir, growth)))
    ensures exists m :: m in vol.moments && !Held(m, slot, old(vol.disk.links[slot]).id)
  {
    ghost var x := Op(vol.moments, vol.Now(), {slot}, vol.Quiet(slot.dir, growth), vol.nextId);
    KnownEntry(vol.Now(), slot, vol.nextId);
    r := RespellSteps(vol, slot, name, back, growth, regrowth, f, x);
    if x.solid {
      SolidSince(x, vol.moments);
    }
  }

  // ---------------------------------------------------------------- the whole rename

  /** The links after a rename of the entry at `f` to the path `t`, spelt `name`. */
  ghost predicate Renamed(l: Links, l': Links, f: Path, t: Path, name: Name) {
    exists from, to :: from in l && MayMove(l, f, t, from, to, l[from].(name := name)) &&
      l' == Moved(l, from, to, l[from].(name := name))
  }

  /** A rename is a tree move: the new path leads to the entry, every path below it leads where the
      old one did, nothing is left at or below the old path, every other path is as it was, and
      every entry still hangs on a path from the root. */
  lemma RenameMovesSubtree(l: Links, l': Links, f: Path, t: Path, name: Name, p: Path)
    requires Tree(l) && Renamed(l, l', f, t, name) && p != []
    ensures Tree(l')
    ensures p == t ==> Find(l, f).Some? && Find(l', p) == Some(Find(l, f).value.(name := name))
    ensures p != t && Under(t, p) ==> Find(l', p) == Find(l, f + p[|t|..])
    ensures Under(f, p) ==> Find(l', p) == None
    ensures !Under(t, p) && !Under(f, p) ==> Find(l', p) == Find(l, p)
  {
    var from, to :| from in l && MayMove(l, f, t, from, to, l[from].(name := name)) &&
      l' == Moved(l, from, to, l[from].(name := name));
    MovedTree(l, f, t, from, to, l[from].(name := name));
    MovedFind(l, f, t, from, to, l[from].(name := name), p);
    if Under(f, p) {
      NotBothUnder(l, f, t, p, from, to);
    }
  }

  /** No path lies under both ends of a move. */
  lemma NotBothUnder(l: Links, f: Path, t: Path, p: Path, from: Slot, to: Slot)
    requires Names(l, f, from) && from in l && Names(l, t, to) && to !in l && !Under(f, t) && Under(f, p)
    ensures !Under(t, p)
  {
    if Under(t, p) {
      assert Under(t, f) && t != f;
      WalkPrefix(l, t, f[..|f| - 1]);
      assert false;
    }
  }

  /** At every crash point of a rename to another path, successful or not, the object is linked under
      its old or its new name, given that it was durably linked at the start. */
  ghost predicate LinkedThroughout(l: Links, f: Path, t: Path, before: set<Moment>, now: set<Moment>, start: Moment) {
    forall s, s' :: s in l && Names(l, f, s) && Names(l, t, s') ==> StaysLinked(before, now, start, s, s', l[s].id)
  }

  /** There is a crash point at which no link to the object at `f` is on the device. */
  ghost predicate OnceUnlinked(l: Links, f: Path, now: set<Moment>) {
    exists s, m :: s in l && Names(l, f, s) && m in now && !Held(m, s, l[s].id)
  }

  /** The entry at `f` is now spelt `name`; nothing else changed. */
  ghost predicate Respelt(l: Links, l': Links, f: Path, name: Name) {
    exists s :: s in l && Names(l, f, s) && l' == l[s := l[s].(name := name)]
  }

  /** The entry at `f` is gone; nothing else changed. */
  ghost predicate Vanished(l: Links, l': Links, f: Path) {
    exists s :: s in l && Names(l, f, s) && l' == l - {s}
  }

  /** What a move has done: exactly the move, or nothing to any link; on FAT nothing at all. */
  ghost predicate MoveOutcome(r: Result<()>, exfat: bool, a: Disk, b: Disk, f: Path, t: Path, to: Path) {
    if r.Ok? then to != [] && Renamed(a.links, b.links, f, t, to[|to| - 1])
    else b.links == a.links && (!exfat ==> SameDisk(a, b))
  }

  /** What a respelling has done: the new spelling, or else the old one as the caller spelt it if there
      was `room` for that, or else no entry. */
  ghost predicate RespellOutcome(r: Result<()>, room: bool, l: Links, l': Links, f: Path, back: Name, name: Name) {
    if r.Ok? then Respelt(l, l', f, name) else if room then Respelt(l, l', f, back) else Vanished(l, l', f)
  }

  /** The entry survives exactly when there was room for one of the spellings. */
  lemma OutcomeFinds(r: Result<()>, room: bool, l: Links, l': Links, f: Path, back: Name, name: Name)
    requires RespellOutcome(r, room, l, l', f, back, name) && Tree(l)
    ensures Find(l', f).Some? <==> r.Ok? || room
  {
    if r.Ok? {
      RespeltFinds(l, l', f, name, f);
    } else if room {
      RespeltFinds(l, l', f, back, f);
    } else {
      LostFinds(l, l', f);
    }
  }

  /** After a respelling every path leads where it did, and the entry carries the new spelling. */
  lemma RespeltFinds(l: Links, l': Links, f: Path, name: Name, p: Path)
    requires Respelt(l, l', f, name) && p != [] && Tree(l)
    ensures Tree(l') && Find(l, f).Some?
    ensures Find(l', p) == if p == f then Some(Find(l, f).value.(name := name)) else Find(l, p)
  {
    var s :| s in l && Names(l, f, s) && l' == l[s := l[s].(name := name)];
    RespeltTree(l, s, l[s].(name := name));
    RespeltWalk(l, s, l[s].(name := name), p[..|p| - 1]);
    if Names(l, p, s) {
      SamePath(l, p, f, s);
    }
  }

  lemma SamePath(l: Links, p: Path, q: Path, s: Slot)
    requires OneParent(l) && Names(l, p, s) && Names(l, q, s)
    ensures p == q
  {
    PathUnique(l, p[..|p| - 1], q[..|q| - 1]);
    assert p == p[..|p| - 1] + [p[|p| - 1]];
    assert q == q[..|q| - 1] + [q[|q| - 1]];
  }

  /** After a loss the path names nothing. */
  lemma LostFinds(l: Links, l': Links, f: Path)
    requires Vanished(l, l', f) && Tree(l)
    ensures Find(l, f).Some? && Find(l', f) == None
  {
    var s :| s in l && Names(l, f, s) && l' == l - {s};
    LostWalk(l, l', f[..|f| - 1]);
  }

  /** Without some links a path leads where it did or nowhere. */
  lemma {:induction false} LostWalk(l: Links, l': Links, p: Path)
    requires l'.Keys <= l.Keys && forall s :: s in l' ==> l'[s] == l[s]
    ensures Walk(l', p).Some? ==> Walk(l', p) == Walk(l, p)
    decreases |p|
  {
    if p == [] {
    } else {
      LostWalk(l, l', p[..|p| - 1]);
    }
  }

  /** When a rename may go ahead, room aside. */
  ghost predicate MayRename(vol: Volume, from: Path, to: Path)
    reads vol, vol.handles
  {
    var f, t := P.FoldPath(vol.fold, from), P.FoldPath(vol.fold, to);
    && from != [] && to != [] && !(f < t) && !OpenBelow(vol, from) && Movable(vol, from, to)
    && (from == to || KeyOf(vol.fold, to) !in vol.handles.modes)
  }

  /** The source exists and the target is free, or is the source respelt. */
  ghost predicate Movable(vol: Volume, from: Path, to: Path)
    requires from != []
    reads vol`disk
  {
    var f, t := P.FoldPath(vol.fold, from), P.FoldPath(vol.fold, to);
    Find(vol.disk.links, f).Some? && (f == t || Vacant(vol.disk.links, t))
  }

  /** The directory of `path` has or can make room for it. */
  ghost predicate HomeFits(vol: Volume, path: Path, growth: nat)
    reads vol
  {
    var p := P.FoldPath(vol.fold, path);
    p != [] && Walk(vol.disk.links, p[..|p| - 1]).Some? && vol.Fits(Home(vol.disk.links, p), growth)
  }

  /** It still can once an attempt to make room has failed. */
  ghost predicate HomeFitsStill(vol: Volume, path: Path, growth: nat)
    reads vol
  {
    var p := P.FoldPath(vol.fold, path);
    p != [] && Walk(vol.disk.links, p[..|p| - 1]).Some? &&
      FitsStill(vol, vol.disk.used, Home(vol.disk.links, p), growth)
  }

  /** Making room for it stays safe against crashes. */
  ghost predicate HomeQuiet(vol: Volume, path: Path, growth: nat)
    reads vol
  {
    var p := P.FoldPath(vol.fold, path);
    p != [] && Walk(vol.disk.links, p[..|p| - 1]).Some? ==> vol.Quiet(Home(vol.disk.links, p), growth)
  }

  /** A losing input: both spellings need the directory to grow, and it cannot: it is the fixed root,
      or no cluster is free. */
  lemma NoRoomLoses(vol: Volume, path: Path, growth: nat, regrowth: nat)
    requires growth > 0 && regrowth > 0
    requires !vol.HasFree() || (vol.fixedRoot && path != [] && Walk(vol.disk.links, P.FoldPath(vol.fold,
      path[..|path| - 1])) == Some(ROOT))
    ensures !HomeFits(vol, path, growth) && !HomeFitsStill(vol, path, regrowth)
  {
    if !vol.HasFree() {
      assert vol.Free() == {};
    } else {
      FoldedParent(vol.fold, path);
    }
  }

  /** Why `from` is not renamed to `to`. */
  ghost function RenameRefusal(vol: Volume, from: Path, to: Path): Error
    reads vol, vol.handles
  {
    if from == [] || to == [] then PermissionDenied
    else if P.FoldPath(vol.fold, from) < P.FoldPath(vol.fold, to) then InvalidInput
    else if OpenBelow(vol, from) || (from != to && KeyOf(vol.fold, to) in vol.handles.modes) then FileLocked
    else MoveRefusal(vol, from, to)
  }

  /** `rename`. Refused, with nothing changed, for the root, into the entry's own subtree, while a
      handle is open at or below it, or onto an existing name; otherwise it succeeds exactly when
      there is room for the new name. `growth` and `regrowth` are the clusters by which the directory
      must grow to take the new name and, once the entry is unlinked, the old name as the caller
      spells it. A failed move changes no link. A failed respelling respells the entry the way the
      caller spelt its old name, or loses it when there is no room for that either. */
  method Rename(vol: Volume, from: Path, to: Path, growth: nat, regrowth: nat) returns (r: Result<()>)
    requires vol.Valid() && Solid(vol.Now()) && P.Components(from) && P.Components(to)
    modifies vol, vol.handles
    ensures vol.handles.modes == old(vol.handles.modes)
    ensures r.Ok? <==> old(MayRename(vol, from, to) && (from == to || HomeFits(vol, to, growth)))
    ensures r.Ok? ==> Solid(vol.Now()) && Leaked(vol.disk) == old(Leaked(vol.disk)) && (from != to ==> Durable(vol))
    ensures r.Ok? || P.FoldPath(vol.fold, from) != P.FoldPath(vol.fold, to) ||
            old(!MayRename(vol, from, to) || HomeFitsStill(vol, to, regrowth)) ==>
              vol.Valid()
    ensures vol.contiguous ==
      if r.Ok? && from != to then old(ContiguousAfter(vol, to, growth)) else old(vol.contiguous)
    ensures r.Err? ==> r.error == old(RenameRefusal(vol, from, to))
    ensures from == to || !old(MayRename(vol, from, to)) ==>
      vol.disk == old(vol.disk) && vol.Now() == old(vol.Now()) && vol.moments == old(vol.moments)
    ensures P.FoldPath(vol.fold, from) != P.FoldPath(vol.fold, to) ==>
      MoveOutcome(r, vol.exfat, old(vol.disk), vol.disk, P.FoldPath(vol.fold, from), P.FoldPath(vol.fold, to), to) &&
      LinkedThroughout(old(vol.disk.links), P.FoldPath(vol.fold, from), P.FoldPath(vol.fold, to), old(vol.moments),
        vol.moments, old(vol.Now()))
    ensures P.FoldPath(vol.fold, from) == P.FoldPath(vol.fold, to) && from != to && old(MayRename(vol, from, to)) ==>
      RespellOutcome(r, old(HomeFitsStill(vol, to, regrowth)), old(vol.disk.links), vol.disk.links,
        P.FoldPath(vol.fold, from), from[|from| - 1], to[|to| - 1]) &&
      OnceUnlinked(old(vol.disk.links), P.FoldPath(vol.fold, from), vol.moments)
    ensures P.FoldPath(vol.fold, from) == P.FoldPath(vol.fold, to) && from != to && old(MayRename(vol, from, to)) ==>
      (Find(vol.disk.links, P.FoldPath(vol.fold, from)).Some? <==>
        old(HomeFits(vol, to, growth) || HomeFitsStill(vol, to, regrowth)))
    ensures old(AllSafe(vol.moments)) ==>
      (AllSafe(vol.moments) <==> old(MayRename(vol, from, to) && from != to ==> HomeQuiet(vol, to, growth)))
  {
    r := RenameChecks(vol, from, to);
    if r.Err? {
      return;
    }
    if from == to {
      var found := Seek(vol, from);
      return if found.Ok? then Ok(()) else Err(found.error);
    }
    ghost var l, f, o := vol.disk.links, P.FoldPath(vol.fold, from), Foresee(vol, from, to, growth, regrowth);
    ghost var before := StateOf(vol);
    r := RenameUnderLock(vol, from, to, growth, regrowth, o);
    if KeyOf(vol.fold, to) in old(vol.handles.modes) {
      NothingDone(before, vol.exfat, f, P.FoldPath(vol.fold, to), o.(movable := false, refusal := FileLocked), from,
        to);
    }
    if f == P.FoldPath(vol.fold, to) && old(MayRename(vol, from, to)) {
      OutcomeFinds(r, o.still, l, vol.disk.links, f, from[|from| - 1], to[|to| - 1]);
    }
  }

  /** The refusals of `rename` that need no lookup. */
  method RenameChecks(vol: Volume, from: Path, to: Path) returns (r: Result<()>)
    requires vol.handles.Valid() && P.Lawful(vol.fold) && P.Components(from) && P.Components(to)
    ensures r.Ok? <==>
      from != [] && to != [] && !(P.FoldPath(vol.fold, from) < P.FoldPath(vol.fold, to)) &&
      !OpenBelow(vol, from)
    ensures from == [] || to == [] ==> r == Err(PermissionDenied)
    ensures from != [] && to != [] && r.Err? ==>
      r.error == if P.FoldPath(vol.fold, from) < P.FoldPath(vol.fold, to) then InvalidInput else FileLocked
  {
    if from == [] || to == [] {
      return Err(PermissionDenied);
    }
    P.FoldedComponents(vol.fold, from);
    P.FoldedComponents(vol.fold, to);
    P.StrictlyUnderExactly(P.FoldPath(vol.fold, from), P.FoldPath(vol.fold, to));
    if P.IsStrictlyUnder(KeyOf(vol.fold, to), KeyOf(vol.fold, from)) {
      return Err(InvalidInput);
    }
    var open := vol.handles.AnyOpenUnder(KeyOf(vol.fold, from));
    r := if open then Err(FileLocked) else Ok(());
  }

  lemma NotUnder(f: Path, t: Path)
    requires f != t && !(f < t)
    ensures !Under(f, t)
  {
    assert |f| == |t| && f <= t ==> f == t;
  }

  /** What can be said about a rename before it starts. */
  datatype Outlook = Outlook(movable: bool, fits: bool, still: bool, quiet: bool, contiguous: set<nat>,
    refusal: Error)

  ghost function Foresee(vol: Volume, from: Path, to: Path, growth: nat, regrowth: nat): Outlook
    requires from != [] && to != []
    reads vol
  {
    Outlook(Movable(vol, from, to), HomeFits(vol, to, growth), HomeFitsStill(vol, to, regrowth),
      HomeQuiet(vol, to, growth), ContiguousAfter(vol, to, growth), MoveRefusal(vol, from, to))
  }

  method RenameUnderLock(vol: Volume, from: Path, to: Path, growth: nat, regrowth: nat, ghost o: Outlook)
      returns (r: Result<()>)
    requires from != [] && to != [] && vol.Valid() && Solid(vol.Now()) && P.Components(from) && P.Components(to)
    requires !(P.FoldPath(vol.fold, from) < P.FoldPath(vol.fold, to)) && o == Foresee(vol, from, to, growth, regrowth)
    modifies vol, vol.handles
    ensures vol.handles.modes == old(vol.handles.modes)
    ensures KeyOf(vol.fold, to) in old(vol.handles.modes) ==>
      r == Err(FileLocked) && StateOf(vol) == old(StateOf(vol)) && vol.Valid()
    ensures KeyOf(vol.fold, to) !in old(vol.handles.modes) ==>
      RenameDone(old(StateOf(vol)), StateOf(vol), vol.exfat, P.FoldPath(vol.fold, from),
        P.FoldPath(vol.fold, to), r, o, from, to) &&
      (MayBreak(r, o, from, to, vol.fold) || vol.Valid())
  {
    var locked := vol.handles.LockRw(KeyOf(vol.fold, to));
    if locked.Err? {
      r := Err(FileLocked);
    } else {
      r := RenameLocked(vol, from, to, growth, regrowth, o);
      vol.handles.ReleaseRw(KeyOf(vol.fold, to));
    }
  }

  /** What a volume holds, and all it has been through. */
  datatype State = State(disk: Disk, now: Moment, moments: set<Moment>, contiguous: set<nat>)

  ghost function StateOf(vol: Volume): State
    reads vol
  {
    State(vol.disk, vol.Now(), vol.moments, vol.contiguous)
  }

  /** What a rename under its locks has done, from the state `a` to `b`. */
  ghost predicate RenameDone(a: State, b: State, exfat: bool, f: Path, t: Path, r: Result<()>, o: Outlook, from: Path,
      to: Path)
    requires from != [] && to != []
  {
    && (r.Ok? <==> o.movable && o.fits)
    && b.contiguous == (if r.Ok? then o.contiguous else a.contiguous)
    && (r.Err? ==> r.error == o.refusal)
    && (r.Ok? ==> b.now == Moment(b.disk, []) && Solid(b.now) && Leaked(b.disk) == Leaked(a.disk))
    && (!o.movable ==> b == a)
    && (f != t ==>
      MoveOutcome(r, exfat, a.disk, b.disk, f, t, to) &&
      LinkedThroughout(a.disk.links, f, t, a.moments, b.moments, a.now))
    && (f == t && o.movable ==>
      RespellOutcome(r, o.still, a.disk.links, b.disk.links, f, from[|from| - 1], to[|to| - 1]) &&
      OnceUnlinked(a.disk.links, f, b.moments))
    && (AllSafe(a.moments) ==> (AllSafe(b.moments) <==> (o.movable ==> o.quiet)))
  }

  /** A respelling that found no room for either name may leave a directory's entries without a path. */
  ghost predicate MayBreak(r: Result<()>, o: Outlook, from: Path, to: Path, fold: char -> char) {
    r.Err? && P.FoldPath(fold, from) == P.FoldPath(fold, to) && o.movable && !o.still
  }

  lemma NothingDone(a: State, exfat: bool, f: Path, t: Path, o: Outlook, from: Path, to: Path)
    requires from != [] && to != [] && !o.movable && o.refusal == FileLocked
    ensures RenameDone(a, a, exfat, f, t, Err(FileLocked), o, from, to)
  {
  }

  /** The two ways to rename: respelling in place, or moving. */
  method RenameLocked(vol: Volume, from: Path, to: Path, growth: nat, regrowth: nat, ghost o: Outlook)
      returns (r: Result<()>)
    requires from != [] && to != [] && vol.Valid() && Solid(vol.Now()) && P.Components(from) && P.Components(to)
    requires !(P.FoldPath(vol.fold, from) < P.FoldPath(vol.fold, to)) && o == Foresee(vol, from, to, growth, regrowth)
    modifies vol`disk, vol`base, vol`pending, vol`moments, vol`contiguous
    ensures MayBreak(r, o, from, to, vol.fold) || vol.Valid()
    ensures RenameDone(old(StateOf(vol)), StateOf(vol), vol.exfat, P.FoldPath(vol.fold, from),
      P.FoldPath(vol.fold, to), r, o, from, to)
  {
    var same := KeyOf(vol.fold, from) == KeyOf(vol.fold, to);
    P.FoldedComponents(vol.fold, from);
    P.FoldedComponents(vol.fold, to);
    if same {
      P.RenderInjective(P.FoldPath(vol.fold, from), P.FoldPath(vol.fold, to));
      r := RespellLocked(vol, from, to, growth, regrowth);
    } else {
      NotUnder(P.FoldPath(vol.fold, from), P.FoldPath(vol.fold, to));
      r := MoveLocked(vol, from, to, growth);
    }
  }

  method RespellLocked(vol: Volume, from: Path, to: Path, growth: nat, regrowth: nat) returns (r: Result<()>)
    requires from != [] && to != [] && vol.Valid() && Solid(vol.Now())
    requires P.FoldPath(vol.fold, from) == P.FoldPath(vol.fold, to)
    modifies vol`disk, vol`base, vol`pending, vol`moments, vol`contiguous
    ensures r.Ok? <==> old(Findable(vol, from) && HomeFits(vol, to, growth))
    ensures r.Err? ==> r.error == old(MoveRefusal(vol, from, to))
    ensures vol.contiguous == if r.Ok? then old(ContiguousAfter(vol, to, growth)) else old(vol.contiguous)
    ensures r.Ok? ==> Durable(vol) && Solid(vol.Now()) && Leaked(vol.disk) == old(Leaked(vol.disk))
    ensures r.Ok? || old(!Findable(vol, from) || HomeFitsStill(vol, to, regrowth)) ==> vol.Valid()
    ensures !old(Findable(vol, from)) ==>
      vol.disk == old(vol.disk) && vol.Now() == old(vol.Now()) && vol.moments == old(vol.moments)
    ensures old(Findable(vol, from)) ==>
      RespellOutcome(r, old(HomeFitsStill(vol, to, regrowth)), old(vol.disk.links), vol.disk.links,
        P.FoldPath(vol.fold, from), from[|from| - 1], to[|to| - 1]) &&
      OnceUnlinked(old(vol.disk.links), P.FoldPath(vol.fold, from), vol.moments)
    ensures old(AllSafe(vol.moments)) ==>
      (AllSafe(vol.moments) <==> old(Findable(vol, from) ==> HomeQuiet(vol, to, growth)))
  {
    var slot := Seek(vol, from);
    if slot.Err? {
      return Err(slot.error);
    }
    FoldedParent(vol.fold, from);
    FoldedParent(vol.fold, to);
    r := Respell(vol, slot.value, to[|to| - 1], from[|from| - 1], growth, regrowth, P.FoldPath(vol.fold, from));
  }
}
