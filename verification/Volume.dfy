/** The write side of a mounted volume as the path engine uses it (src/vfs/engine.rs): links,
    clusters and barriers, with every moment of every operation recorded. */
module Mounted {
  import opened Basics
  import opened Crash
  import opened Trees
  import opened Handles
  import P = Paths

  /** A sound volume: a tree of links with one object each, no cluster referred to twice, no live
      entry referring to a free cluster. */
  ghost predicate Sound(d: Disk, fold: char -> char) {
    && Tree(d.links)
    && Keyed(d.links, fold)
    && Separate(d.links)
    && Safe(d)
    && Exclusive(d)
  }

  /** Entries are filed under their folded names. */
  ghost predicate Keyed(l: Links, fold: char -> char) {
    forall s :: s in l ==> s.key == P.Fold(fold, l[s].name)
  }

  /** Every linked object has one link, and none of them is the root. */
  ghost predicate Separate(l: Links) {
    && (forall s :: s in l ==> l[s].id != ROOT)
    && forall s, t :: s in l && t in l && l[s].id == l[t].id ==> s == t
  }

  ghost predicate Exclusive(d: Disk) {
    && (forall s, t, c :: s in d.links && t in d.links && c in d.Refs(d.links[s]) && c in d.Refs(d.links[t]) ==> s == t)
    && forall s, c :: s in d.links && c in d.Refs(d.links[s]) ==> c !in d.Tail(ROOT)
  }

  /** Object numbers from `next` on are unheard of. */
  ghost predicate Known(m: Moment, next: nat) {
    && 0 < next
    && (forall id: nat, c: nat :: MayHang(m, id, c) ==> id < next)
    && forall s, e :: MayLink(m, s, e) ==> e.id < next && s.dir < next
  }

  /** Clusters in use that nothing refers to. */
  ghost function Leaked(d: Disk): set<nat> {
    set c | c in d.used && !Referred(d, c)
  }

  /** The root, or a linked object. */
  ghost predicate LiveDir(d: Disk, id: nat) {
    id == ROOT || exists s :: s in d.links && d.links[s].id == id
  }

  /** `b` is `a` with the clusters `cs` claimed, and hung on the chain of `d` if `hang`. */
  ghost predicate Grown(a: Disk, b: Disk, d: nat, cs: set<nat>, hang: bool) {
    && b.links == a.links
    && b.used == a.used + cs
    && cs !! a.used
    && forall id :: b.Tail(id) == if id == d && hang then a.Tail(id) + cs else a.Tail(id)
  }

  /** Links held at every crash point of `m`, those in `but` aside, are still so in `n`. */
  ghost predicate KeepsLinks(m: Moment, n: Moment, but: set<Slot>) {
    forall s, id :: s !in but && Kept(m, s, id) ==> Kept(n, s, id)
  }

  /** What an operation in progress has to account for: the moments before it, where it started,
      the slots it may rewrite, whether it promises to stay solid, and the object numbers it may use. */
  datatype Op = Op(seen: set<Moment>, start: Moment, but: set<Slot>, solid: bool, next: nat)

  ghost predicate Since(x: Op, moments: set<Moment>) {
    && x.seen <= moments
    && forall m :: m in moments && m !in x.seen ==> KeepsLinks(x.start, m, x.but) && (x.solid ==> Solid(m))
  }

  lemma KeepsThen(m: Moment, n: Moment, w: Write, but: set<Slot>)
    requires KeepsLinks(m, n, but)
    requires (w.Put? || w.Drop?) ==> w.slot in but
    ensures KeepsLinks(m, Then(n, w), but)
  {
    forall s, id | s !in but && Kept(m, s, id)
      ensures Kept(Then(n, w), s, id)
    {
      KeptThen(n, w, s, id);
    }
  }

  lemma KeepsBarrier(m: Moment, n: Moment, but: set<Slot>)
    requires KeepsLinks(m, n, but)
    ensures KeepsLinks(m, Moment(ApplyAll(n.base, n.pending), []), but)
  {
    AllIsSome(n.base, n.pending, UpTo(|n.pending|));
    assert Moment(n.base, n.pending) == n;
    forall s, id | s !in but && Kept(m, s, id)
      ensures Kept(Moment(ApplyAll(n.base, n.pending), []), s, id)
    {
      KeptSome(n.base, n.pending, UpTo(|n.pending|), s, id);
    }
  }

  lemma KnownThen(m: Moment, w: Write, next: nat)
    requires Known(m, next)
    requires (w.Put? ==> w.entry.id < next && w.slot.dir < next) && (w.Hang? ==> w.id < next)
    ensures Known(Then(m, w), next)
  {
    ThenMay(m, w);
  }

  lemma KnownBarrier(m: Moment, next: nat)
    requires Known(m, next)
    ensures Known(Moment(ApplyAll(m.base, m.pending), []), next)
  {
    var d := ApplyAll(m.base, m.pending);
    ViewBetween(m);
    forall s, e | MayLink(Moment(d, []), s, e)
      ensures e.id < next && s.dir < next
    {
      assert MayLink(m, s, d.links[s]);
    }
    forall id: nat, c: nat | MayHang(Moment(d, []), id, c)
      ensures id < next
    {
      assert MayHang(m, id, c);
    }
  }

  class Volume {
    const fold: char -> char
    /** Clusters are `2..=count + 1`. */
    const count: nat
    /** exFAT makes operations durable and tells contiguous directories apart. */
    const exfat: bool
    /** The FAT16 root cannot grow. */
    const fixedRoot: bool
    const handles: HandleTable
    /** What the cache shows, what the device held at the last barrier, and the writes since. */
    var disk: Disk
    var base: Disk
    var pending: seq<Write>
    /** Directories without a FAT chain (`NoFatChain`). */
    var contiguous: set<nat>
    var nextId: nat
    /** Every state of device and cache there has been. */
    ghost var moments: set<Moment>

    ghost function Now(): Moment
      reads this`base, this`pending
    {
      Moment(base, pending)
    }

    ghost predicate Logged()
      reads this`disk, this`base, this`pending
    {
      disk == ApplyAll(base, pending)
    }

    ghost predicate Valid()
      reads this, handles
    {
      && handles.Valid()
      && P.Lawful(fold) && fold(P.SEP) == P.SEP && !(exfat && fixedRoot)
      && Logged()
      && Sound(disk, fold)
      && Known(Now(), nextId)
    }

    ghost predicate Track(x: Op)
      reads this`disk, this`base, this`pending, this`moments
    {
      && Logged()
      && Since(x, moments)
      && KeepsLinks(x.start, Now(), x.but)
      && (x.solid ==> Solid(Now()))
      && Known(Now(), x.next)
    }

    /** A freshly mounted sound volume. */
    constructor (fold: char -> char, count: nat, exfat: bool, fixedRoot: bool, handles: HandleTable, disk: Disk,
        contiguous: set<nat>, nextId: nat)
      requires handles.Valid() && P.Lawful(fold) && fold(P.SEP) == P.SEP && !(exfat && fixedRoot)
      requires Sound(disk, fold) && Known(Moment(disk, []), nextId)
      ensures Valid() && Solid(Now()) && this.disk == disk && this.handles == handles && this.fold == fold
      ensures this.count == count && this.exfat == exfat && this.fixedRoot == fixedRoot
      ensures this.contiguous == contiguous && this.nextId == nextId && Now() == Moment(disk, []) && moments == {Now()}
    {
      this.fold, this.count, this.exfat, this.fixedRoot, this.handles := fold, count, exfat, fixedRoot, handles;
      this.disk, base, pending, this.contiguous, this.nextId := disk, disk, [], contiguous, nextId;
      moments := {Moment(disk, [])};
      new;
      SolidBarrier(disk);
    }

    /** Put one write into the cache. */
    method Emit(w: Write)
      requires Logged()
      modifies this`disk, this`pending, this`moments
      ensures Logged() && disk == Apply(old(disk), w) && Now() == Then(old(Now()), w)
      ensures moments == old(moments) + {Now()}
    {
      ghost var m := Now();
      ApplyOne(m, w);
      disk := Apply(disk, w);
      pending := pending + [w];
      assert Now() == Then(m, w);
      moments := moments + {Then(m, w)};
    }

    /** Write back everything dirty before anything that follows. */
    method Barrier(ghost x: Op)
      requires Track(x) && (x.solid ==> Safe(disk))
      modifies this`base, this`pending, this`moments
      ensures Track(x) && Now() == Moment(disk, []) && (Safe(disk) ==> Solid(Now()))
      ensures moments == old(moments) + {Now()}
    {
      SolidBarrier(disk);
      KeepsBarrier(x.start, Now(), x.but);
      KnownBarrier(Now(), x.next);
      base := disk;
      pending := [];
      moments := moments + {Now()};
    }

    /** Claim a cluster. */
    method Take(c: nat, ghost x: Op)
      requires Track(x)
      modifies this`disk, this`pending, this`moments
      ensures Track(x) && disk == Apply(old(disk), Write.Take(c)) && Now() == Then(old(Now()), Write.Take(c))
      ensures old(Solid(Now())) ==> Solid(Now())
      ensures moments == old(moments) + {Now()}
    {
      SolidQuiet(Now(), Write.Take(c));
      KeepsThen(x.start, Now(), Write.Take(c), x.but);
      KnownThen(Now(), Write.Take(c), x.next);
      Emit(Write.Take(c));
    }

    method Hang(id: nat, c: nat, ghost x: Op)
      requires Track(x) && (x.solid ==> Firm(Now(), c)) && id < x.next
      modifies this`disk, this`pending, this`moments
      ensures Track(x) && disk == Apply(old(disk), Write.Hang(id, c)) && Now() == Then(old(Now()), Write.Hang(id, c))
      ensures old(Solid(Now()) && Firm(Now(), c)) ==> Solid(Now())
      ensures moments == old(moments) + {Now()}
    {
      if Solid(Now()) && Firm(Now(), c) {
        SolidHang(Now(), id, c);
      }
      KeepsThen(x.start, Now(), Write.Hang(id, c), x.but);
      KnownThen(Now(), Write.Hang(id, c), x.next);
      Emit(Write.Hang(id, c));
    }

    method Release(c: nat, ghost x: Op)
      requires Track(x) && (x.solid ==> !Refers(Now(), c))
      modifies this`disk, this`pending, this`moments
      ensures Track(x) && disk == Apply(old(disk), Write.Release(c)) && Now() == Then(old(Now()), Write.Release(c))
      ensures old(Solid(Now()) && !Refers(Now(), c)) ==> Solid(Now())
      ensures moments == old(moments) + {Now()}
    {
      if Solid(Now()) && !Refers(Now(), c) {
        SolidRelease(Now(), c);
      }
      KeepsThen(x.start, Now(), Write.Release(c), x.but);
      KnownThen(Now(), Write.Release(c), x.next);
      Emit(Write.Release(c));
    }

    method Unhang(id: nat, c: nat, ghost x: Op)
      requires Track(x)
      modifies this`disk, this`pending, this`moments
      ensures Track(x) && disk == Apply(old(disk), Write.Unhang(id, c)) &&
        Now() == Then(old(Now()), Write.Unhang(id, c))
      ensures moments == old(moments) + {Now()}
    {
      SolidQuiet(Now(), Write.Unhang(id, c));
      KeepsThen(x.start, Now(), Write.Unhang(id, c), x.but);
      KnownThen(Now(), Write.Unhang(id, c), x.next);
      Emit(Write.Unhang(id, c));
    }

    /** Write an entry set. */
    method Link(slot: Slot, e: Entry, ghost x: Op)
      requires Track(x) && slot in x.but && (x.solid ==> Backed(Now(), e)) && e.id < x.next && slot.dir < x.next
      modifies this`disk, this`pending, this`moments
      ensures Track(x) && disk == Apply(old(disk), Put(slot, e)) && Now() == Then(old(Now()), Put(slot, e))
      ensures old(Solid(Now()) && Backed(Now(), e)) ==> Solid(Now())
      ensures moments == old(moments) + {Now()}
    {
      if Solid(Now()) && Backed(Now(), e) {
        SolidPut(Now(), slot, e);
      }
      KeepsThen(x.start, Now(), Put(slot, e), x.but);
      KnownThen(Now(), Put(slot, e), x.next);
      Emit(Put(slot, e));
    }

    /** Mark an entry set deleted. */
    method Unlink(slot: Slot, ghost x: Op)
      requires Track(x) && slot in x.but
      modifies this`disk, this`pending, this`moments
      ensures Track(x) && disk == Apply(old(disk), Drop(slot)) && Now() == Then(old(Now()), Drop(slot))
      ensures old(Solid(Now())) ==> Solid(Now())
      ensures moments == old(moments) + {Now()}
    {
      SolidQuiet(Now(), Drop(slot));
      KeepsThen(x.start, Now(), Drop(slot), x.but);
      KnownThen(Now(), Drop(slot), x.next);
      Emit(Drop(slot));
    }

    /** The lowest free cluster. */
    method FindFree() returns (r: Option<nat>)
      ensures r.Some? ==> 2 <= r.value <= count + 1 && r.value !in disk.used
      ensures r.Some? ==> forall c :: 2 <= c < r.value ==> c in disk.used
      ensures r.None? ==> forall c :: 2 <= c <= count + 1 ==> c in disk.used
    {
      for c := 2 to count + 2
        invariant forall b :: 2 <= b < c ==> b in disk.used
      {
        if c !in disk.used {
          return Some(c);
        }
      }
      r := None;
    }

    /** The directories without a FAT chain once `d` has grown by `growth` clusters: on exFAT a directory
        that grows becomes a chain. */
    ghost function StillContiguous(d: nat, growth: nat): set<nat>
      reads this`contiguous
    {
      contiguous - if growth > 0 && exfat then {d} else {}
    }

    /** Growing `d` by `growth` clusters hangs nothing on a chain that is live. */
    ghost predicate Calm(d: nat, growth: nat)
      reads this`contiguous
    {
      growth == 0 || (exfat && d in contiguous)
    }

    /** Making room in `d` writes nothing that a crash could expose: it need not grow, or not over
        a FAT chain, or cannot grow at all. */
    ghost predicate Quiet(d: nat, growth: nat)
      reads this`contiguous, this`disk
    {
      Calm(d, growth) || (fixedRoot && d == ROOT) || !HasFree()
    }

    ghost predicate HasFree()
      reads this`disk
    {
      exists c :: 2 <= c <= count + 1 && c !in disk.used
    }

    /** The free clusters. */
    ghost function Free(): set<nat>
      reads this`disk
    {
      FreeIn(disk.used, count)
    }

    /** Directory `d` can grow by `n` clusters. */
    ghost predicate Fits(d: nat, n: nat)
      reads this`disk
    {
      n == 0 || (!(fixedRoot && d == ROOT) && n <= |Free()|)
    }

    /** Claim the lowest free cluster and hang it on the chain of `d` if `hang`. */
    method ClaimNext(d: nat, hang: bool, ghost a: Disk, ghost cs: set<nat>, ghost x: Op) returns (r: Option<nat>)
      requires Track(x) && (hang && HasFree() ==> !x.solid) && Grown(a, disk, d, cs, hang) && d < x.next
      modifies this`disk, this`pending, this`moments
      ensures Track(x) && old(moments) <= moments && (r.Some? <==> old(HasFree()))
      ensures r.None? ==> disk == old(disk) && Now() == old(Now())
      ensures r.Some? ==> Grown(a, disk, d, cs + {r.value}, hang) && r.value in old(Free())
      ensures r.Some? && hang ==>
        Now() in moments &&
        Now() == Then(Then(old(Now()), Write.Take(r.value)), Write.Hang(d, r.value))
      ensures r.Some? && !hang ==> Now() == Then(old(Now()), Write.Take(r.value))
    {
      r := FindFree();
      if r.Some? {
        GrownMore(a, disk, d, cs, hang, r.value);
        Take(r.value, x);
        if hang {
          Hang(d, r.value, x);
        }
      }
    }

    /** Of the clusters free in `a`, `run` has been claimed for directory `d`. */
    ghost predicate Claims(a: Disk, m: Moment, d: nat, run: seq<nat>, hang: bool)
      reads this`disk, this`base, this`pending
    {
      && Grown(a, disk, d, Elems(run), hang)
      && Elems(run) <= FreeIn(a.used, count) && |Elems(run)| == |run|
      && (!hang ==> OnlyTook(m, Now()))
    }

    /** Claim one more. */
    method ClaimStep(d: nat, run: seq<nat>, hang: bool, ghost a: Disk, ghost m: Moment, ghost x: Op)
        returns (r: Option<seq<nat>>)
      requires Track(x) && (hang && HasFree() ==> !x.solid) && d < x.next && Claims(a, m, d, run, hang)
      requires run == [] ==> LiveDir(disk, d)
      modifies this`disk, this`pending, this`moments
      ensures Track(x) && old(moments) <= moments && (r.Some? <==> old(HasFree()))
      ensures r.None? ==> disk == old(disk) && Now() == old(Now()) && Elems(run) == FreeIn(a.used, count)
      ensures r.Some? ==> |r.value| == |run| + 1 && Claims(a, m, d, r.value, hang)
      ensures r.Some? && run == [] && hang ==> Now() in moments && !CrashSafe(Now())
    {
      ghost var n := Now();
      FreeLeft(a.used, disk.used, Elems(run), count);
      var c := ClaimNext(d, hang, a, Elems(run), x);
      if c.None? {
        return None;
      }
      ElemsPush(run, c.value);
      if hang {
        ViewBetween(n);
        if run == [] {
          GrowthUnsafe(n, d, c.value);
        }
      } else {
        TookMore(m, n, c.value);
      }
      r := Some(run + [c.value]);
    }

    /** Claim `n` clusters one by one, hanging each on the chain of `d` if `hang`. FAT gives the
        clusters back when it runs out, exFAT does not. Hanging leaves a moment that is not safe
        against a crash. */
    method ClaimRun(d: nat, n: nat, hang: bool, ghost x: Op) returns (r: Result<seq<nat>>, cs: set<nat>)
      requires Track(x) && (hang && HasFree() ==> !x.solid) && (!exfat ==> hang) && d < x.next
      requires LiveDir(disk, d)
      requires disk.Tail(d) <= disk.used
      modifies this`disk, this`pending, this`moments
      ensures Track(x) && old(moments) <= moments && Grown(old(disk), disk, d, cs, hang)
      ensures r.Ok? <==> n <= |old(Free())|
      ensures r.Ok? ==> |r.value| == n && cs == Elems(r.value) && |cs| == n
      ensures r.Err? ==> r.error == StorageFull && cs == if exfat then old(Free()) else {}
      ensures n > 0 && hang && old(HasFree()) ==> exists m :: m in moments && !CrashSafe(m)
      ensures n > 0 && !old(HasFree()) && hang ==> Now() == old(Now())
      ensures !hang ==> OnlyTook(old(Now()), Now())
    {
      ghost var a, m, loose := disk, Now(), Now();
      var run: seq<nat> := [];
      for i := 0 to n
        invariant Track(x) && old(moments) <= moments && |run| == i && Claims(a, m, d, run, hang)
        invariant i == 0 ==> Now() == m && disk == a
        invariant i > 0 ==> old(HasFree())
        invariant i > 0 && hang ==> loose in moments && !CrashSafe(loose)
      {
        var more := ClaimStep(d, run, hang, a, m, x);
        if more.None? {
          cs := Elems(run);
          if !exfat {
            Unwind(d, run, a, x);
            cs := {};
          }
          return Err(StorageFull), cs;
        }
        if i == 0 {
          loose := Now();
        }
        run := more.value;
      }
      SubsetSize(Elems(run), FreeIn(a.used, count));
      r, cs := Ok(run), Elems(run);
    }

    /** Give back a partial run and take it off the chain again. */
    method Unwind(d: nat, run: seq<nat>, ghost a: Disk, ghost x: Op)
      requires Track(x) && (run != [] ==> !x.solid) && Grown(a, disk, d, Elems(run), true) && a.Tail(d) <= a.used
      modifies this`disk, this`pending, this`moments
      ensures Track(x) && old(moments) <= moments && Grown(a, disk, d, {}, true)
      ensures run == [] ==> Now() == old(Now())
    {
      ghost var b := disk;
      ReleaseRun(run, x);
      assert b.used - Elems(run) == a.used;
      UnhangRun(d, run, a, b, x);
    }

    method ReleaseRun(run: seq<nat>, ghost x: Op)
      requires Track(x) && (run != [] ==> !x.solid)
      modifies this`disk, this`pending, this`moments
      ensures Track(x) && old(moments) <= moments && disk == old(disk).(used := old(disk.used) - Elems(run))
      ensures run == [] ==> Now() == old(Now())
    {
      ghost var b, gone := disk, {};
      for i := 0 to |run|
        invariant Track(x) && old(moments) <= moments
        invariant disk.links == b.links && disk.hung == b.hung && disk.used == b.used - gone && gone == ElemsTo(run, i)
        invariant i == 0 ==> Now() == old(Now())
      {
        Release(run[i], x);
        gone := gone + {run[i]};
      }
    }

    method UnhangRun(d: nat, run: seq<nat>, ghost a: Disk, ghost b: Disk, ghost x: Op)
      requires Track(x) && (run != [] ==> !x.solid) && Grown(a, b, d, Elems(run), true) && a.Tail(d) <= a.used
      requires disk.links == a.links && disk.hung == b.hung && disk.used == a.used
      modifies this`disk, this`pending, this`moments
      ensures Track(x) && old(moments) <= moments && Grown(a, disk, d, {}, true)
      ensures run == [] ==> Now() == old(Now())
    {
      NotShortened(a, b, disk, d, Elems(run));
      ghost var gone: set<nat> := {};
      for i := 0 to |run|
        invariant Track(x) && old(moments) <= moments && gone == ElemsTo(run, i) && Shortened(a, b, disk, d, gone)
        invariant i == 0 ==> Now() == old(Now())
      {
        UnhangNext(d, run[i], a, b, gone, x);
        gone := gone + {run[i]};
      }
      AllShortened(a, b, disk, d, gone);
    }

    method UnhangNext(d: nat, c: nat, ghost a: Disk, ghost b: Disk, ghost gone: set<nat>, ghost x: Op)
      requires Track(x) && Shortened(a, b, disk, d, gone)
      modifies this`disk, this`pending, this`moments
      ensures Track(x) && old(moments) <= moments && Shortened(a, b, disk, d, gone + {c})
    {
      ShortenedMore(a, b, disk, d, gone, c);
      Unhang(d, c, x);
    }

    /** Make room for an entry in `d`: nothing to do when it has a run of free slots, else claim
        `n` clusters and make them durable. */
    method Grow(d: nat, n: nat, ghost x: Op) returns (r: Result<seq<nat>>, cs: set<nat>)
      requires Track(x) && Safe(disk) && (x.solid ==> Quiet(d, n)) && d < x.next
      requires LiveDir(disk, d)
      requires disk.Tail(d) <= disk.used
      modifies this`disk, this`base, this`pending, this`moments
      ensures Track(x) && old(moments) <= moments
      ensures Grown(old(disk), disk, d, cs, n > 0 && !Calm(d, n)) && Safe(disk)
      ensures r.Ok? <==> old(Fits(d, n))
      ensures r.Ok? ==> |r.value| == n && cs == Elems(r.value) && |cs| == n
      ensures r.Ok? && n > 0 ==> Now() == Moment(disk, []) && Solid(Now())
      ensures n == 0 ==> r.Ok? && Now() == old(Now()) && disk == old(disk)
      ensures r.Err? ==> r.error == if fixedRoot && d == ROOT then RootDirectoryFull else StorageFull
      ensures r.Err? ==> cs == if exfat && !(fixedRoot && d == ROOT) then old(Free()) else {}
      ensures r.Err? && !exfat && old(Quiet(d, n)) ==> Now() == old(Now())
      ensures r.Err? && old(Quiet(d, n)) ==> OnlyTook(old(Now()), Now())
      ensures old(!Quiet(d, n)) ==> exists m :: m in moments && !CrashSafe(m)
    {
      ghost var a := disk;
      GrownNothing(a, d, n > 0 && !Calm(d, n));
      if n == 0 {
        return Ok([]), {};
      }
      if fixedRoot && d == ROOT {
        return Err(RootDirectoryFull), {};
      }
      var hang := !(exfat && d in contiguous);
      r, cs := ClaimRun(d, n, hang, x);
      GrownSafe(a, disk, d, cs, hang);
      if r.Ok? {
        Barrier(x);
      }
    }

    /** Link `e` at `slot` of directory `d`, growing `d` by `growth` clusters first. */
    method Insert(d: nat, slot: Slot, e: Entry, growth: nat, ghost x: Op) returns (r: Result<()>, cs: set<nat>)
      requires Track(x) && slot in x.but && Safe(disk) && (x.solid ==> Quiet(d, growth) && Backed(Now(), e))
      requires e.data <= disk.used && disk.Tail(e.id) <= disk.used
      requires e.id < x.next && slot.dir < x.next && d < x.next
      requires LiveDir(disk, d)
      requires disk.Tail(d) <= disk.used
      modifies this`disk, this`base, this`pending, this`moments, this`contiguous
      ensures Track(x) && old(moments) <= moments
      ensures r.Ok? ==> Inserted(old(disk), disk, d, slot, e, cs)
      ensures r.Ok? && old(Solid(Now()) && Backed(Now(), e)) ==> Solid(Now())
      ensures r.Ok? <==> old(Fits(d, growth))
      ensures r.Ok? ==> |cs| == growth && contiguous == old(StillContiguous(d, growth))
      ensures r.Err? ==>
        growth > 0 && Grown(old(disk), disk, d, cs, !old(Calm(d, growth))) &&
        contiguous == old(contiguous)
      ensures r.Err? ==> r.error == if fixedRoot && d == ROOT then RootDirectoryFull else StorageFull
      ensures r.Err? ==> cs == if exfat && !(fixedRoot && d == ROOT) then old(Free()) else {}
      ensures r.Err? && !exfat && old(Quiet(d, growth)) ==> Now() == old(Now())
      ensures r.Err? && old(Quiet(d, growth)) ==> OnlyTook(old(Now()), Now())
      ensures old(!Quiet(d, growth)) ==> exists m :: m in moments && !CrashSafe(m)
    {
      var grown, got := Grow(d, growth, x);
      cs := got;
      if grown.Err? {
        return Err(grown.error), cs;
      }
      BackedBarrier(disk, e);
      Attach(d, slot, e, grown.value, old(disk), x);
      r := Ok(());
    }

    /** Write the entry set into the room made for it. */
    method Attach(d: nat, slot: Slot, e: Entry, run: seq<nat>, ghost a: Disk, ghost x: Op)
      requires Track(x) && slot in x.but && e.id < x.next && slot.dir < x.next && d < x.next
      requires (x.solid ==> Backed(Now(), e)) &&
        (run != [] ==> Now() == Moment(disk, []) && Solid(Now()) && Backed(Now(), e))
      requires Grown(a, disk, d, Elems(run), run != [] && !Calm(d, |run|))
      modifies this`disk, this`pending, this`moments, this`contiguous
      ensures Track(x) && old(moments) <= moments
      ensures Inserted(a, disk, d, slot, e, Elems(run)) && contiguous == old(StillContiguous(d, |run|))
      ensures old(Solid(Now()) && Backed(Now(), e)) ==> Solid(Now())
    {
      if run != [] && exfat && d in contiguous {
        LinkThenHang(d, slot, e, run, a, x);
        contiguous := contiguous - {d};
      } else {
        LinkGrown(d, slot, e, run, a, x);
      }
    }

    /** The directory's chain already leads into its new clusters. */
    method LinkGrown(d: nat, slot: Slot, e: Entry, run: seq<nat>, ghost a: Disk, ghost x: Op)
      requires Track(x) && slot in x.but && (x.solid ==> Backed(Now(), e)) && e.id < x.next && slot.dir < x.next
      requires Grown(a, disk, d, Elems(run), run != [])
      modifies this`disk, this`pending, this`moments
      ensures Track(x) && old(moments) <= moments
      ensures Inserted(a, disk, d, slot, e, Elems(run))
      ensures old(Solid(Now()) && Backed(Now(), e)) ==> Solid(Now())
    {
      LinkShape(a, disk, d, slot, e, Elems(run), run != []);
      Link(slot, e, x);
    }

    /** A contiguous directory that grew becomes a chain: after the entry is linked, its own entry is
        rewritten. */
    method LinkThenHang(d: nat, slot: Slot, e: Entry, run: seq<nat>, ghost a: Disk, ghost x: Op)
      requires Track(x) && slot in x.but && e.id < x.next && slot.dir < x.next && d < x.next
      requires Now() == Moment(disk, []) && Solid(Now()) && Backed(Now(), e) && Grown(a, disk, d, Elems(run), false)
      modifies this`disk, this`pending, this`moments
      ensures Track(x) && old(moments) <= moments
      ensures Inserted(a, disk, d, slot, e, Elems(run))
      ensures Solid(Now())
    {
      ghost var b, m := disk, Now();
      Link(slot, e, x);
      FirmRun(m, b, run, Put(slot, e));
      HangRun(d, run, x);
      AttachShape(a, b, disk, d, slot, e, Elems(run), false, true);
    }

    /** Rewrite the entry of a formerly contiguous directory: its chain now leads into `run`. */
    method HangRun(d: nat, run: seq<nat>, ghost x: Op)
      requires Track(x) && Solid(Now()) && d < x.next && forall c :: c in run ==> Firm(Now(), c)
      modifies this`disk, this`pending, this`moments
      ensures Track(x) && old(moments) <= moments && Solid(Now())
      ensures disk.links == old(disk.links) && disk.used == old(disk.used)
      ensures forall id :: disk.Tail(id) == old(disk).Tail(id) + if id == d then Elems(run) else {}
    {
      for i := 0 to |run|
        invariant Track(x) && old(moments) <= moments && Solid(Now()) && forall c :: c in run ==> Firm(Now(), c)
        invariant Lengthened(old(disk), disk, d, ElemsTo(run, i))
      {
        LengthenedMore(old(disk), disk, d, ElemsTo(run, i), run[i]);
        ThenMay(Now(), Write.Hang(d, run[i]));
        Hang(d, run[i], x);
      }
    }

    /** Free clusters that nothing may refer to any more. */
    method FreeClusters(cs: set<nat>, ghost x: Op)
      requires Track(x) && Solid(Now()) && forall c :: c in cs ==> !Refers(Now(), c)
      modifies this`disk, this`pending, this`moments
      ensures Track(x) && old(moments) <= moments && Solid(Now())
      ensures disk == old(disk).(used := old(disk.used) - cs)
      ensures base == old(base) && (forall w :: w in pending ==> w in old(pending) || w.Release?)
    {
      var left := cs;
      while left != {}
        invariant left <= cs && Track(x) && old(moments) <= moments && Solid(Now())
        invariant forall c :: c in cs ==> !Refers(Now(), c)
        invariant disk == old(disk).(used := old(disk.used) - (cs - left))
        invariant base == old(base) && (forall w :: w in pending ==> w in old(pending) || w.Release?)
        decreases left
      {
        var c :| c in left;
        SolidRelease(Now(), c);
        Release(c, x);
        left := left - {c};
        assert old(disk.used) - (cs - left) == old(disk.used) - (cs - (left + {c})) - {c};
      }
      assert cs - {} == cs;
    }

    /** Unlink an entry and make that durable. */
    method UnlinkFirst(slot: Slot, ghost x: Op)
      requires Sound(disk, fold) && Solid(Now()) && Track(x) && slot in x.but
      requires slot in disk.links && (disk.links[slot].isDir ==> forall s :: s in disk.links ==>
        s.dir != disk.links[slot].id)
      modifies this`disk, this`base, this`pending, this`moments
      ensures Sound(disk, fold) && Solid(Now()) && Track(x) && old(moments) <= moments
      ensures disk == old(disk).(links := old(disk.links) - {slot}) && Now() == Moment(disk, [])
    {
      ghost var b := Apply(disk, Drop(slot));
      DroppedSound(disk, slot, fold);
      assert Sound(b, fold) && Safe(b);
      Unlink(slot, x);
      assert disk == b;
      Barrier(x);
    }

    /** Unlink an entry, then free what it referred to: in that order on the device. */
    method RemoveEntry(slot: Slot, ghost x: Op)
      requires Sound(disk, fold) && Solid(Now()) && Track(x) && slot in x.but
      requires slot in disk.links && (disk.links[slot].isDir ==> forall s :: s in disk.links ==>
        s.dir != disk.links[slot].id)
      modifies this`disk, this`base, this`pending, this`moments
      ensures Sound(disk, fold) && Solid(Now()) && Track(x) && old(moments) <= moments
      ensures disk == old(disk).(links := old(disk.links) - {slot},
        used := old(disk.used) - old(disk.Refs(disk.links[slot])))
      ensures Leaked(disk) == old(Leaked(disk))
    {
      ghost var a := disk;
      var gone := disk.Refs(disk.links[slot]);
      RemovedRefs(a, slot);
      UnlinkFirst(slot, x);
      SolidBarrier(disk);
      FreedSound(disk, gone, fold);
      FreeClusters(gone, x);
      LeakedLess(a, disk, slot);
    }
  }

  /** The clusters of the heap that are not in use. */
  ghost function FreeIn(used: set<nat>, count: nat): set<nat> { set c: nat | c <= count + 1 && 2 <= c && c !in used }

  lemma FreeLeft(was: set<nat>, now: set<nat>, cs: set<nat>, count: nat)
    requires now == was + cs
    ensures FreeIn(now, count) == FreeIn(was, count) - cs
  {
  }

  /** Since `m` clusters were claimed, and nothing else was written. */
  ghost predicate OnlyTook(m: Moment, n: Moment) {
    n.base == m.base && forall w :: w in n.pending ==> w in m.pending || w.Take?
  }

  lemma TookMore(m: Moment, n: Moment, c: nat)
    requires OnlyTook(m, n)
    ensures OnlyTook(m, Then(n, Take(c)))
  {
  }

  /** Claims leave what is backed backed. */
  lemma TookBacked(m: Moment, n: Moment, e: Entry)
    requires OnlyTook(m, n) && Backed(m, e)
    ensures Backed(n, e)
  {
    forall c | c in e.data || MayHang(n, e.id, c)
      ensures Firm(n, c)
    {
      assert c in e.data || MayHang(m, e.id, c);
    }
  }

  /** Unhanging under way: `gone` has been taken off the chain that `b` gave `d`. */
  ghost predicate Shortened(a: Disk, b: Disk, now: Disk, d: nat, gone: set<nat>) {
    && now.links == a.links && now.used == a.used
    && forall id :: now.Tail(id) == if id == d then b.Tail(d) - gone else a.Tail(id)
  }

  lemma ShortenedMore(a: Disk, b: Disk, now: Disk, d: nat, gone: set<nat>, c: nat)
    requires Shortened(a, b, now, d, gone)
    ensures Shortened(a, b, Apply(now, Unhang(d, c)), d, gone + {c})
  {
  }

  lemma NotShortened(a: Disk, b: Disk, now: Disk, d: nat, cs: set<nat>)
    requires Grown(a, b, d, cs, true) && now.links == a.links && now.hung == b.hung && now.used == a.used
    ensures Shortened(a, b, now, d, {})
  {
    forall id
      ensures now.Tail(id) == if id == d then b.Tail(d) - {} else a.Tail(id)
    {
      assert now.Tail(id) == b.Tail(id);
    }
  }

  lemma AllShortened(a: Disk, b: Disk, now: Disk, d: nat, cs: set<nat>)
    requires Grown(a, b, d, cs, true) && Shortened(a, b, now, d, cs) && a.Tail(d) <= a.used
    ensures Grown(a, now, d, {}, true)
  {
    assert now.Tail(d) == a.Tail(d);
  }

  /** The clusters of a run, and of its first `n`. */
  function Elems(s: seq<nat>): set<nat> { ElemsTo(s, |s|) }

  function ElemsTo(s: seq<nat>, n: nat): set<nat>
    requires n <= |s|
  {
    if n == 0 then {} else ElemsTo(s, n - 1) + {s[n - 1]}
  }

  lemma {:induction false} ElemsIn(s: seq<nat>, n: nat)
    requires n <= |s|
    ensures forall c :: c in ElemsTo(s, n) <==> c in s[..n]
  {
    if n == 0 {
    } else {
      ElemsIn(s, n - 1);
      assert s[..n] == s[..n - 1] + [s[n - 1]];
    }
  }

  lemma ElemsPush(s: seq<nat>, c: nat)
    ensures Elems(s + [c]) == Elems(s) + {c}
  {
    ElemsIn(s, |s|);
    ElemsIn(s + [c], |s| + 1);
    assert (s + [c])[..|s| + 1] == s + [c] && s[..|s|] == s;
  }

  lemma GrownMore(a: Disk, b: Disk, d: nat, cs: set<nat>, hang: bool, c: nat)
    requires Grown(a, b, d, cs, hang) && c !in b.used
    ensures var b' := Apply(b, Take(c)); Grown(a, if hang then Apply(b', Hang(d, c)) else b', d, cs + {c}, hang)
  {
  }

  lemma GrownNothing(a: Disk, d: nat, hang: bool)
    ensures Grown(a, a, d, {}, hang)
  {
  }

  ghost predicate Lengthened(a: Disk, now: Disk, d: nat, cs: set<nat>) {
    && now.links == a.links && now.used == a.used
    && forall id :: now.Tail(id) == a.Tail(id) + if id == d then cs else {}
  }

  lemma LengthenedMore(a: Disk, now: Disk, d: nat, cs: set<nat>, c: nat)
    requires Lengthened(a, now, d, cs)
    ensures Lengthened(a, Apply(now, Hang(d, c)), d, cs + {c})
  {
  }

  /** `b` is `a` with `e` linked at `slot` and the clusters `cs` added to the chain of `d`. */
  ghost predicate Inserted(a: Disk, b: Disk, d: nat, slot: Slot, e: Entry, cs: set<nat>) {
    && b.links == a.links[slot := e]
    && b.used == a.used + cs
    && cs !! a.used
    && forall id :: b.Tail(id) == a.Tail(id) + if id == d then cs else {}
  }

  /** Durable claims stay firm after a link. */
  lemma FirmRun(m: Moment, d: Disk, run: seq<nat>, w: Write)
    requires m == Moment(d, []) && Elems(run) <= d.used && w.Put?
    ensures forall c :: c in run ==> Firm(Then(m, w), c)
  {
    ThenMay(m, w);
    ElemsIn(run, |run|);
    assert run[..|run|] == run;
  }

  /** Growing first and hanging the run later comes to the same. */
  lemma AttachShape(a: Disk, b: Disk, c: Disk, d: nat, slot: Slot, e: Entry, cs: set<nat>, hang: bool, late: bool)
    requires Grown(a, b, d, cs, hang) && (cs != {} ==> hang || late) && !(hang && late)
    requires c.links == b.links[slot := e] && c.used == b.used
    requires forall id :: c.Tail(id) == b.Tail(id) + if id == d && late then cs else {}
    ensures Inserted(a, c, d, slot, e, cs)
  {
  }

  lemma LinkShape(a: Disk, b: Disk, d: nat, slot: Slot, e: Entry, cs: set<nat>, hang: bool)
    requires Grown(a, b, d, cs, hang) && (cs != {} ==> hang)
    ensures Inserted(a, Apply(b, Put(slot, e)), d, slot, e, cs)
  {
    var c := Apply(b, Put(slot, e));
    assert forall id :: c.Tail(id) == b.Tail(id) + if id == d && false then cs else {};
    AttachShape(a, b, c, d, slot, e, cs, hang, false);
  }

  lemma GrownSafe(a: Disk, b: Disk, d: nat, cs: set<nat>, hang: bool)
    requires Safe(a) && Grown(a, b, d, cs, hang)
    ensures Safe(b)
  {
    forall s | s in b.links
      ensures b.Refs(b.links[s]) <= b.used
    {
      assert a.Refs(a.links[s]) <= a.used;
    }
  }

  /** What is backed is in use in the cache's view. */
  lemma BackedView(m: Moment, e: Entry)
    requires Backed(m, e)
    ensures e.data <= ApplyAll(m.base, m.pending).used
    ensures ApplyAll(m.base, m.pending).Tail(e.id) <= ApplyAll(m.base, m.pending).used
  {
    ViewBetween(m);
  }

  lemma BackedBarrier(d: Disk, e: Entry)
    requires e.data <= d.used && d.Tail(e.id) <= d.used
    ensures Backed(Moment(d, []), e)
  {
  }

  /** Taking a leaf out of a sound volume leaves a sound volume. */
  lemma DroppedSound(a: Disk, slot: Slot, fold: char -> char)
    requires Sound(a, fold) && slot in a.links
    requires a.links[slot].isDir ==> forall s :: s in a.links ==> s.dir != a.links[slot].id
    ensures Sound(a.(links := a.links - {slot}), fold)
  {
    var p :| Names(a.links, p, slot);
    CutLeaf(a.links, p, slot);
    CutTree(a.links, p);
    var b := a.(links := a.links - {slot});
    forall s | s in b.links
      ensures b.Refs(b.links[s]) == a.Refs(a.links[s])
    {
    }
  }

  /** So does freeing what nothing refers to. */
  lemma FreedSound(b: Disk, gone: set<nat>, fold: char -> char)
    requires Sound(b, fold)
    requires forall c :: c in gone ==> !Referred(b, c)
    ensures Sound(b.(used := b.used - gone), fold)
  {
    var d := b.(used := b.used - gone);
    forall s | s in d.links
      ensures d.Refs(d.links[s]) <= d.used && d.Refs(d.links[s]) == b.Refs(b.links[s])
    {
      assert b.Refs(b.links[s]) <= b.used;
    }
  }

  lemma LeakedLess(a: Disk, b: Disk, slot: Slot)
    requires slot in a.links && Exclusive(a) &&
      b == a.(links := a.links - {slot}, used := a.used - a.Refs(a.links[slot]))
    ensures Leaked(b) == Leaked(a)
  {
    forall c
      ensures c in Leaked(b) <==> c in Leaked(a)
    {
      if s :| s in a.links && c in a.Refs(a.links[s]) && s != slot {
        assert s in b.links && c in b.Refs(b.links[s]);
      }
      if s :| s in b.links && c in b.Refs(b.links[s]) {
        assert s in a.links && c in a.Refs(a.links[s]);
      }
    }
  }

  /** Nothing else refers to what the removed entry referred to. */
  lemma RemovedRefs(a: Disk, slot: Slot)
    requires Exclusive(a) && slot in a.links
    ensures forall c :: c in a.Refs(a.links[slot]) ==> !Referred(a.(links := a.links - {slot}), c)
  {
    var b := a.(links := a.links - {slot});
    forall c | c in a.Refs(a.links[slot])
      ensures !Referred(b, c)
    {
      if s :| s in b.links && c in b.Refs(b.links[s]) {
        assert false;
      }
      assert b.Tail(ROOT) == a.Tail(ROOT);
    }
  }

  // ---------------------------------------------------------------- soundness of what comes out

  lemma GrownSound(a: Disk, b: Disk, d: nat, cs: set<nat>, fold: char -> char)
    requires Sound(a, fold) && Grown(a, b, d, cs, true)
    requires LiveDir(a, d)
    ensures Sound(b, fold) && Leaked(b) == Leaked(a)
  {
    GrownSafe(a, b, d, cs, true);
    forall s, c | s in b.links && c in b.Refs(b.links[s])
      ensures c in a.Refs(a.links[s]) || (c in cs && a.links[s].id == d)
    {
    }
    GrownLeak(a, b, d, cs);
  }

  lemma GrownLeak(a: Disk, b: Disk, d: nat, cs: set<nat>)
    requires Safe(a) && Grown(a, b, d, cs, true)
    requires LiveDir(a, d)
    ensures Leaked(b) == Leaked(a)
  {
    forall c
      ensures Referred(b, c) <==> Referred(a, c) || c in cs
    {
      if s :| s in a.links && c in a.Refs(a.links[s]) {
        assert c in b.Refs(b.links[s]);
      }
      if c in cs && d != ROOT {
        var s :| s in a.links && a.links[s].id == d;
        assert c in b.Refs(b.links[s]);
      }
      if s :| s in b.links && c in b.Refs(b.links[s]) {
        assert c in a.Refs(a.links[s]) || c in cs;
      }
    }
    forall c | Referred(a, c)
      ensures c in a.used
    {
      if s :| s in a.links && c in a.Refs(a.links[s]) {
        assert a.Refs(a.links[s]) <= a.used;
      }
    }
  }

  /** A fresh object with its own clusters can be linked. */
  ghost predicate Newcomer(d: Disk, e: Entry) {
    && e.id != ROOT && (forall s :: s in d.links ==> d.links[s].id != e.id && s.dir != e.id)
    && d.Tail(e.id) == {}
    && e.data <= Leaked(d)
  }

  lemma AddedSound(a: Disk, t: Path, slot: Slot, e: Entry, fold: char -> char)
    requires Sound(a, fold) && Names(a.links, t, slot) && slot !in a.links && Newcomer(a, e)
    requires slot.key == P.Fold(fold, e.name)
    ensures Sound(a.(links := a.links[slot := e]), fold)
    ensures Leaked(a.(links := a.links[slot := e])) == Leaked(a) - e.data
  {
    AddedTree(a.links, t, slot, e);
    AddedExclusive(a, slot, e);
    forall c
      ensures Referred(a.(links := a.links[slot := e]), c) <==> Referred(a, c) || c in e.data
    {
      AddedRefers(a, slot, e, c);
    }
  }

  lemma AddedRef(a: Disk, slot: Slot, e: Entry, s: Slot)
    requires slot !in a.links && a.Tail(e.id) == {} && s in a.links[slot := e]
    ensures var b := a.(links := a.links[slot := e]);
      if s == slot then b.Refs(b.links[s]) == e.data else s in a.links && b.Refs(b.links[s]) == a.Refs(a.links[s])
  {
  }

  lemma AddedExclusive(a: Disk, slot: Slot, e: Entry)
    requires Safe(a) && Exclusive(a) && slot !in a.links && Newcomer(a, e)
    ensures Safe(a.(links := a.links[slot := e])) && Exclusive(a.(links := a.links[slot := e]))
  {
    var b := a.(links := a.links[slot := e]);
    forall s | s in b.links
      ensures b.Refs(b.links[s]) <= b.used
    {
      AddedRef(a, slot, e, s);
    }
    forall s, t, c | s in b.links && t in b.links && c in b.Refs(b.links[s]) && c in b.Refs(b.links[t])
      ensures s == t
    {
      AddedRef(a, slot, e, s);
      AddedRef(a, slot, e, t);
      assert c in e.data ==> !Referred(a, c);
    }
    forall s, c | s in b.links && c in b.Refs(b.links[s])
      ensures c !in b.Tail(ROOT)
    {
      AddedRef(a, slot, e, s);
      assert c in e.data ==> !Referred(a, c);
    }
  }

  lemma AddedRefers(a: Disk, slot: Slot, e: Entry, c: nat)
    requires slot !in a.links && a.Tail(e.id) == {}
    ensures Referred(a.(links := a.links[slot := e]), c) <==> Referred(a, c) || c in e.data
  {
    var b := a.(links := a.links[slot := e]);
    assert c in e.data ==> slot in b.links && c in b.Refs(b.links[slot]);
    if s :| s in a.links && c in a.Refs(a.links[s]) {
      assert s in b.links && c in b.Refs(b.links[s]);
    }
    if s :| s in b.links && c in b.Refs(b.links[s]) && s != slot {
      assert c in a.Refs(a.links[s]);
    }
  }

  lemma MovedSound(a: Disk, f: Path, t: Path, from: Slot, to: Slot, e: Entry, fold: char -> char)
    requires Sound(a, fold) && MayMove(a.links, f, t, from, to, e) && e.data == a.links[from].data
    requires to.key == P.Fold(fold, e.name)
    ensures Sound(a.(links := Moved(a.links, from, to, e)), fold)
    ensures Leaked(a.(links := Moved(a.links, from, to, e))) == Leaked(a)
  {
    MovedTree(a.links, f, t, from, to, e);
    MovedExclusive(a, from, to, e);
    MovedSeparate(a.links, from, to, e);
  }

  lemma MovedSeparate(l: Links, from: Slot, to: Slot, e: Entry)
    requires Separate(l) && from in l && to !in l && e.id == l[from].id
    ensures Separate(Moved(l, from, to, e))
  {
    var l' := Moved(l, from, to, e);
    forall s | s in l'
      ensures var s' := if s == to then from else s; s' in l && l'[s].id == l[s'].id && (s != to ==> s' != from)
    {
    }
  }

  /** The slot that a moved link came from. */
  function Before(from: Slot, to: Slot, s: Slot): Slot { if s == to then from else s }

  lemma MovedRef(a: Disk, from: Slot, to: Slot, e: Entry, s: Slot)
    requires from in a.links && to !in a.links && e.id == a.links[from].id && e.data == a.links[from].data
    requires s in Moved(a.links, from, to, e)
    ensures var b := a.(links := Moved(a.links, from, to, e));
      Before(from, to, s) in a.links && b.Refs(b.links[s]) == a.Refs(a.links[Before(from, to, s)])
  {
  }

  lemma MovedExclusive(a: Disk, from: Slot, to: Slot, e: Entry)
    requires Safe(a) && Exclusive(a) && from in a.links && to !in a.links && e.id == a.links[from].id &&
      e.data == a.links[from].data
    ensures Safe(a.(links := Moved(a.links, from, to, e))) && Exclusive(a.(links := Moved(a.links, from, to, e)))
    ensures Leaked(a.(links := Moved(a.links, from, to, e))) == Leaked(a)
  {
    var b := a.(links := Moved(a.links, from, to, e));
    forall s | s in b.links
      ensures b.Refs(b.links[s]) <= b.used
    {
      MovedRef(a, from, to, e, s);
    }
    forall s, t, c | s in b.links && t in b.links && c in b.Refs(b.links[s]) && c in b.Refs(b.links[t])
      ensures s == t
    {
      MovedRef(a, from, to, e, s);
      MovedRef(a, from, to, e, t);
    }
    forall s, c | s in b.links && c in b.Refs(b.links[s])
      ensures c !in b.Tail(ROOT)
    {
      MovedRef(a, from, to, e, s);
    }
    forall c
      ensures Referred(b, c) <==> Referred(a, c)
    {
      if s :| s in a.links && c in a.Refs(a.links[s]) {
        var s' := if s == from then to else s;
        MovedRef(a, from, to, e, s');
        assert s' in b.links && c in b.Refs(b.links[s']);
      }
      if s :| s in b.links && c in b.Refs(b.links[s]) {
        MovedRef(a, from, to, e, s);
      }
    }
  }
}
