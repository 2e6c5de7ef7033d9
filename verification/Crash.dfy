/** What a crash may leave on the device: between two barriers the sector cache writes back in any
    order, so any subset of the writes since the last barrier may have reached it
    (src/vfs/engine.rs, trait `PathEngine`, `barrier`). An entry set is one write. */
module Crash {
  import opened Basics

  type Name = string

  /** Where an entry is linked: the directory's identity and the case-folded name. */
  datatype Slot = Slot(dir: nat, key: Name)

  /** `data` are the clusters the entry names; clusters hung on its chain later are in
      `Disk.hung`. A directory is identified by `id`; the root is `ROOT`. */
  datatype Entry = Entry(name: Name, isDir: bool, readOnly: bool, id: nat, data: set<nat>)

  const ROOT: nat := 0

  datatype Disk = Disk(links: map<Slot, Entry>, used: set<nat>, hung: map<nat, set<nat>>) {
    /** The clusters hung on the chain of object `id`. */
    function Tail(id: nat): set<nat> { if id in hung then hung[id] else {} }

    function Refs(e: Entry): set<nat> { e.data + Tail(e.id) }
  }

  /** One write: link or unlink an entry, claim or release a cluster, hang a cluster on the chain
      of an object or take it off again. */
  datatype Write =
    | Put(slot: Slot, entry: Entry)
    | Drop(slot: Slot)
    | Take(c: nat)
    | Release(c: nat)
    | Hang(id: nat, c: nat)
    | Unhang(id: nat, c: nat)

  function Apply(d: Disk, w: Write): Disk {
    match w
    case Put(slot, entry) => d.(links := d.links[slot := entry])
    case Drop(slot) => d.(links := d.links - {slot})
    case Take(c) => d.(used := d.used + {c})
    case Release(c) => d.(used := d.used - {c})
    case Hang(id, c) => d.(hung := d.hung[id := d.Tail(id) + {c}])
    case Unhang(id, c) => d.(hung := d.hung[id := d.Tail(id) - {c}])
  }

  function ApplyAll(d: Disk, ws: seq<Write>): Disk {
    if ws == [] then d else Apply(ApplyAll(d, ws[..|ws| - 1]), ws[|ws| - 1])
  }

  /** The disk when only the writes whose index is in `keep` got through. */
  function ApplySome(d: Disk, ws: seq<Write>, keep: set<nat>): Disk {
    if ws == [] then d
    else
      var n := |ws| - 1;
      var before := ApplySome(d, ws[..n], keep);
      if n in keep then Apply(before, ws[n]) else before
  }

  /** No live entry refers to a free cluster. */
  ghost predicate Safe(d: Disk) {
    && d.Tail(ROOT) <= d.used
    && forall s :: s in d.links ==> d.Refs(d.links[s]) <= d.used
  }

  /** The root or a live entry refers to `c`. */
  ghost predicate Referred(d: Disk, c: nat) {
    c in d.Tail(ROOT) || exists s :: s in d.links && c in d.Refs(d.links[s])
  }

  /** The device as of the last barrier, and the writes since. */
  datatype Moment = Moment(base: Disk, pending: seq<Write>)

  /** Whatever subset of the pending writes is on the device, it is safe. */
  ghost predicate CrashSafe(m: Moment) {
    forall keep :: Safe(ApplySome(m.base, m.pending, keep))
  }

  // ---------------------------------------------------------------- the local condition

  /** Cluster `c` is in use on the device and no pending write releases it. */
  ghost predicate Firm(m: Moment, c: nat) {
    c in m.base.used && Release(c) !in m.pending
  }

  /** Object `id` may come to refer to `c` through its chain. */
  ghost predicate MayHang(m: Moment, id: nat, c: nat) {
    c in m.base.Tail(id) || Hang(id, c) in m.pending
  }

  /** `e` may come to be linked at `s`. */
  ghost predicate MayLink(m: Moment, s: Slot, e: Entry) {
    (s in m.base.links && m.base.links[s] == e) || Put(s, e) in m.pending
  }

  /** The root or some entry may come to refer to `c`. */
  ghost predicate Refers(m: Moment, c: nat) {
    || MayHang(m, ROOT, c)
    || exists s, e :: MayLink(m, s, e) && (c in e.data || MayHang(m, e.id, c))
  }

  /** Every cluster that may come to be referred to is firm. */
  ghost predicate Solid(m: Moment) {
    forall c :: Refers(m, c) ==> Firm(m, c)
  }

  /** `r` lies between the bounds that `Solid` speaks of. */
  ghost predicate Between(m: Moment, r: Disk) {
    && (forall s :: s in r.links ==> MayLink(m, s, r.links[s]))
    && (forall id, c :: c in r.Tail(id) ==> MayHang(m, id, c))
    && (forall c :: Firm(m, c) ==> c in r.used)
  }

  /** The disk after a subset of the writes lies between them. */
  lemma {:induction false} SomeBounds(d: Disk, ws: seq<Write>, keep: set<nat>)
    ensures Between(Moment(d, ws), ApplySome(d, ws, keep))
  {
    if ws == [] {
    } else {
      var n := |ws| - 1;
      SomeBounds(d, ws[..n], keep);
      var m, m' := Moment(d, ws[..n]), Moment(d, ws);
      assert forall w :: w in ws <==> w in ws[..n] || w == ws[n];
      var before, r := ApplySome(d, ws[..n], keep), ApplySome(d, ws, keep);
      forall s | s in r.links
        ensures MayLink(m', s, r.links[s])
      {
        if s in before.links && before.links[s] == r.links[s] {
          assert MayLink(m, s, before.links[s]);
        } else {
          assert ws[n] == Put(s, r.links[s]);
        }
      }
      forall id, c | c in r.Tail(id)
        ensures MayHang(m', id, c)
      {
        if c in before.Tail(id) {
          assert MayHang(m, id, c);
        } else {
          assert ws[n] == Hang(id, c);
        }
      }
      forall c | Firm(m', c)
        ensures c in r.used
      {
        assert Firm(m, c);
      }
    }
  }

  lemma SolidIsSafe(m: Moment, keep: set<nat>)
    requires Solid(m)
    ensures Safe(ApplySome(m.base, m.pending, keep))
  {
    SomeBounds(m.base, m.pending, keep);
    assert Moment(m.base, m.pending) == m;
    var r := ApplySome(m.base, m.pending, keep);
    forall s, c | s in r.links && c in r.Refs(r.links[s])
      ensures c in r.used
    {
      assert MayLink(m, s, r.links[s]);
      if c in r.Tail(r.links[s].id) {
        assert MayHang(m, r.links[s].id, c);
      }
      assert Refers(m, c);
    }
    forall c | c in r.Tail(ROOT)
      ensures c in r.used
    {
      assert MayHang(m, ROOT, c) && Refers(m, c);
    }
  }

  /** The writes `i` (a link), `j` (a hang) and `l` (a release) alone. Indices past the end mean
      none. */
  lemma {:induction false} Picked(d: Disk, ws: seq<Write>, keep: set<nat>, i: nat, j: nat, l: nat, c: nat)
    requires keep == {i, j, l}
    requires i < |ws| ==> ws[i].Put?
    requires j < |ws| ==> ws[j].Hang? && ws[j].c == c
    requires l < |ws| ==> ws[l] == Release(c)
    ensures var r := ApplySome(d, ws, keep);
      && r.links == (if i < |ws| then d.links[ws[i].slot := ws[i].entry] else d.links)
      && (forall id :: r.Tail(id) == d.Tail(id) + if j < |ws| && ws[j].id == id then {c} else {})
      && r.used == d.used - if l < |ws| then {c} else {}
  {
    if ws == [] {
    } else {
      Picked(d, ws[..|ws| - 1], keep, i, j, l, c);
    }
  }

  /** The index of a write, or one past the end. */
  function IndexOf(ws: seq<Write>, w: Write): (i: nat)
    ensures i <= |ws| && (i < |ws| <==> w in ws) && (i < |ws| ==> ws[i] == w)
  {
    if ws == [] then 0 else if ws[0] == w then 0 else 1 + IndexOf(ws[1..], w)
  }

  /** A reference that is not firm shows up on the device after some crash. */
  lemma LooseIsUnsafe(m: Moment, s: Slot, e: Entry, c: nat)
    requires MayLink(m, s, e) && (c in e.data || MayHang(m, e.id, c)) && !Firm(m, c)
    ensures !CrashSafe(m)
  {
    var n := |m.pending|;
    var i := if s in m.base.links && m.base.links[s] == e then n else IndexOf(m.pending, Put(s, e));
    var j := if c in e.data then n else IndexOf(m.pending, Hang(e.id, c));
    var l := IndexOf(m.pending, Release(c));
    Picked(m.base, m.pending, {i, j, l}, i, j, l, c);
    var r := ApplySome(m.base, m.pending, {i, j, l});
    assert s in r.links && r.links[s] == e && c in r.Refs(e) && c !in r.used;
  }

  lemma LooseRootIsUnsafe(m: Moment, c: nat)
    requires MayHang(m, ROOT, c) && !Firm(m, c)
    ensures !CrashSafe(m)
  {
    var n := |m.pending|;
    var j := IndexOf(m.pending, Hang(ROOT, c));
    var l := IndexOf(m.pending, Release(c));
    Picked(m.base, m.pending, {n, j, l}, n, j, l, c);
    var r := ApplySome(m.base, m.pending, {n, j, l});
    assert c in r.Tail(ROOT) && c !in r.used;
  }

  /** A moment is safe against every crash exactly when it is solid. */
  lemma CrashSafeExactly(m: Moment)
    ensures CrashSafe(m) <==> Solid(m)
  {
    if Solid(m) {
      forall keep
        ensures Safe(ApplySome(m.base, m.pending, keep))
      {
        SolidIsSafe(m, keep);
      }
    } else {
      var c :| Refers(m, c) && !Firm(m, c);
      if MayHang(m, ROOT, c) {
        LooseRootIsUnsafe(m, c);
      } else {
        var s, e :| MayLink(m, s, e) && (c in e.data || MayHang(m, e.id, c));
        LooseIsUnsafe(m, s, e, c);
      }
    }
  }

  // ---------------------------------------------------------------- one more write

  function Then(m: Moment, w: Write): Moment { m.(pending := m.pending + [w]) }

  lemma ApplyOne(m: Moment, w: Write)
    ensures ApplyAll(m.base, Then(m, w).pending) == Apply(ApplyAll(m.base, m.pending), w)
  {
    assert (m.pending + [w])[..|m.pending|] == m.pending;
  }

  /** The cache's view is one of the disks a crash may leave. */
  lemma {:induction false} AllIsSome(d: Disk, ws: seq<Write>, keep: set<nat>)
    requires forall i: nat :: i < |ws| ==> i in keep
    ensures ApplyAll(d, ws) == ApplySome(d, ws, keep)
  {
    if ws == [] {
    } else {
      AllIsSome(d, ws[..|ws| - 1], keep);
    }
  }

  function UpTo(n: nat): (r: set<nat>)
    ensures forall i: nat :: i in r <==> i < n
  {
    if n == 0 then {} else UpTo(n - 1) + {n - 1}
  }

  lemma ViewBetween(m: Moment)
    ensures Between(m, ApplyAll(m.base, m.pending))
  {
    var keep := UpTo(|m.pending|);
    AllIsSome(m.base, m.pending, keep);
    SomeBounds(m.base, m.pending, keep);
    assert Moment(m.base, m.pending) == m;
  }

  /** What a write adds to the links and chains that may be on the device. */
  lemma ThenMay(m: Moment, w: Write)
    ensures forall s, e :: MayLink(Then(m, w), s, e) <==> MayLink(m, s, e) || w == Put(s, e)
    ensures forall id, c :: MayHang(Then(m, w), id, c) <==> MayHang(m, id, c) || w == Hang(id, c)
    ensures forall c :: Firm(Then(m, w), c) <==> Firm(m, c) && w != Release(c)
  {
    assert forall x :: x in m.pending + [w] <==> x in m.pending || x == w;
  }

  /** Claiming a cluster, unlinking an entry or shortening a chain threatens nothing. */
  lemma SolidQuiet(m: Moment, w: Write)
    requires w.Take? || w.Drop? || w.Unhang?
    ensures Solid(m) ==> Solid(Then(m, w))
    ensures forall c :: Refers(Then(m, w), c) <==> Refers(m, c)
  {
    ThenMay(m, w);
    forall c
      ensures Refers(Then(m, w), c) <==> Refers(m, c)
    {
      SameRefers(m, Then(m, w), c);
    }
  }

  lemma SameRefers(m: Moment, n: Moment, c: nat)
    requires forall s, e :: MayLink(m, s, e) <==> MayLink(n, s, e)
    requires forall id :: MayHang(m, id, c) <==> MayHang(n, id, c)
    ensures Refers(m, c) <==> Refers(n, c)
  {
  }

  /** All that `e` may come to refer to is firm. */
  ghost predicate Backed(m: Moment, e: Entry) {
    forall c :: c in e.data || MayHang(m, e.id, c) ==> Firm(m, c)
  }

  lemma SolidPut(m: Moment, s: Slot, e: Entry)
    requires Solid(m) && Backed(m, e)
    ensures Solid(Then(m, Put(s, e)))
  {
    var n := Then(m, Put(s, e));
    ThenMay(m, Put(s, e));
    forall c | Refers(n, c)
      ensures Firm(n, c)
    {
      if !MayHang(n, ROOT, c) {
        var s', e' :| MayLink(n, s', e') && (c in e'.data || MayHang(n, e'.id, c));
        if MayLink(m, s', e') {
          assert Refers(m, c);
        }
      } else {
        assert Refers(m, c);
      }
    }
  }

  lemma SolidHang(m: Moment, id: nat, c: nat)
    requires Solid(m) && Firm(m, c)
    ensures Solid(Then(m, Hang(id, c)))
  {
    var n := Then(m, Hang(id, c));
    ThenMay(m, Hang(id, c));
    forall x | Refers(n, x)
      ensures Firm(n, x)
    {
      if x != c {
        SameRefers(m, n, x);
      }
    }
  }

  lemma SolidRelease(m: Moment, c: nat)
    requires Solid(m) && !Refers(m, c)
    ensures Solid(Then(m, Release(c)))
    ensures forall x :: Refers(Then(m, Release(c)), x) <==> Refers(m, x)
  {
    ThenMay(m, Release(c));
    forall x
      ensures Refers(Then(m, Release(c)), x) <==> Refers(m, x)
    {
      SameRefers(m, Then(m, Release(c)), x);
    }
  }

  /** Right after a barrier a moment is as safe as the disk. */
  lemma SolidBarrier(d: Disk)
    ensures Solid(Moment(d, [])) <==> Safe(d)
    ensures forall c :: Refers(Moment(d, []), c) <==> Referred(d, c)
  {
    var m := Moment(d, []);
    forall c
      ensures Refers(m, c) <==> Referred(d, c)
    {
      if s :| s in d.links && c in d.Refs(d.links[s]) {
        assert MayLink(m, s, d.links[s]);
        assert c in d.links[s].data || MayHang(m, d.links[s].id, c);
      }
    }
    if Safe(d) {
      assert Solid(m);
    }
    if Solid(m) {
      forall s, c | s in d.links && c in d.Refs(d.links[s])
        ensures c in d.used
      {
        assert Refers(m, c);
      }
      assert forall c :: c in d.Tail(ROOT) ==> Refers(m, c) && Firm(m, c);
    }
  }

  /** Claiming a cluster and hanging it on the chain of a live object with no barrier between can
      leave the chain leading into a free cluster. */
  lemma GrowthUnsafe(m: Moment, id: nat, c: nat)
    requires c !in ApplyAll(m.base, m.pending).used
    requires id == ROOT || exists s, e :: MayLink(m, s, e) && e.id == id
    ensures !CrashSafe(Then(Then(m, Take(c)), Hang(id, c)))
  {
    ViewBetween(m);
    assert !Firm(m, c);
    var n := Then(m, Take(c));
    ThenMay(m, Take(c));
    ThenMay(n, Hang(id, c));
    if id == ROOT {
      LooseRootIsUnsafe(Then(n, Hang(id, c)), c);
    } else {
      var s, e :| MayLink(m, s, e) && e.id == id;
      LooseIsUnsafe(Then(n, Hang(id, c)), s, e, c);
    }
  }

  // ---------------------------------------------------------------- links that stay

  /** Whatever subset of the pending writes is on the device, `s` links object `id`. */
  ghost predicate Held(m: Moment, s: Slot, id: nat) {
    forall keep :: Links'(ApplySome(m.base, m.pending, keep), s, id)
  }

  predicate Links'(d: Disk, s: Slot, id: nat) { s in d.links && d.links[s].id == id }

  /** The link is on the device and no pending write unlinks or replaces it. */
  ghost predicate Kept(m: Moment, s: Slot, id: nat) {
    && Links'(m.base, s, id)
    && Drop(s) !in m.pending
    && forall e :: Put(s, e) in m.pending ==> e.id == id
  }

  lemma {:induction false} KeptSome(d: Disk, ws: seq<Write>, keep: set<nat>, s: Slot, id: nat)
    requires Kept(Moment(d, ws), s, id)
    ensures Links'(ApplySome(d, ws, keep), s, id)
  {
    if ws == [] {
    } else {
      var n := |ws| - 1;
      assert forall w :: w in ws <==> w in ws[..n] || w == ws[n];
      KeptSome(d, ws[..n], keep, s, id);
      if ws[n].Put? && ws[n].slot == s {
        assert Put(s, ws[n].entry) in ws;
      }
    }
  }

  /** Only write `i` got through. */
  lemma {:induction false} OnlyOne(d: Disk, ws: seq<Write>, i: nat)
    ensures ApplySome(d, ws, {i}) == if i < |ws| then Apply(d, ws[i]) else d
  {
    if ws == [] {
    } else {
      OnlyOne(d, ws[..|ws| - 1], i);
    }
  }

  lemma HeldExactly(m: Moment, s: Slot, id: nat)
    ensures Held(m, s, id) <==> Kept(m, s, id)
  {
    if Kept(m, s, id) {
      assert Moment(m.base, m.pending) == m;
      forall keep
        ensures Links'(ApplySome(m.base, m.pending, keep), s, id)
      {
        KeptSome(m.base, m.pending, keep, s, id);
      }
    }
    if !Links'(m.base, s, id) {
      OnlyOne(m.base, m.pending, |m.pending|);
      assert !Links'(ApplySome(m.base, m.pending, {|m.pending|}), s, id);
    }
    if Drop(s) in m.pending {
      var i := IndexOf(m.pending, Drop(s));
      OnlyOne(m.base, m.pending, i);
      assert !Links'(ApplySome(m.base, m.pending, {i}), s, id);
    }
    if e :| Put(s, e) in m.pending && e.id != id {
      var i := IndexOf(m.pending, Put(s, e));
      OnlyOne(m.base, m.pending, i);
      assert !Links'(ApplySome(m.base, m.pending, {i}), s, id);
    }
  }

  lemma KeptThen(m: Moment, w: Write, s: Slot, id: nat)
    requires Kept(m, s, id) && w != Drop(s) && (w.Put? && w.slot == s ==> w.entry.id == id)
    ensures Kept(Then(m, w), s, id)
  {
  }
}
