/** The directory tree that the links of a volume form, as paths see it: which directory a path
    reaches, what a rename does to every path, and what cutting a subtree leaves. */
module Trees {
  import opened Basics
  import opened Crash

  type Path = seq<Name>
  type Links = map<Slot, Entry>

  /** Path resolution, the root's empty path included: the directory at `p` (`open_dir`). */
  function Walk(l: Links, p: Path): Option<nat>
    decreases |p|
  {
    if p == [] then Some(ROOT)
    else
      var at := Find(l, p);
      if at.Some? && at.value.isDir then Some(at.value.id) else None
  }

  /** The entry at the non-root path `p`. */
  function Find(l: Links, p: Path): Option<Entry>
    requires p != []
    decreases |p|, 0
  {
    match Walk(l, p[..|p| - 1])
    case None => None
    case Some(d) => if Slot(d, p[|p| - 1]) in l then Some(l[Slot(d, p[|p| - 1])]) else None
  }

  /** Every directory but the root is linked once; the root is not linked. */
  ghost predicate OneParent(l: Links) {
    && (forall s :: s in l && l[s].isDir ==> l[s].id != ROOT)
    && (forall s, t :: s in l && t in l && l[s].isDir && l[t].isDir && l[s].id == l[t].id ==> s == t)
  }

  /** `p` is the path of the slot `s`. */
  ghost predicate Names(l: Links, p: Path, s: Slot) {
    p != [] && Walk(l, p[..|p| - 1]) == Some(s.dir) && p[|p| - 1] == s.key
  }

  /** Every entry hangs on a path from the root. */
  ghost predicate Reachable(l: Links) {
    forall s :: s in l ==> exists p :: Names(l, p, s)
  }

  ghost predicate Tree(l: Links) { OneParent(l) && Reachable(l) }

  /** A directory has one path. */
  lemma {:induction false} PathUnique(l: Links, p: Path, q: Path)
    requires OneParent(l) && Walk(l, p).Some? && Walk(l, p) == Walk(l, q)
    ensures p == q
    decreases |p|
  {
    if p != [] && q != [] {
      PathUnique(l, p[..|p| - 1], q[..|q| - 1]);
      assert p == p[..|p| - 1] + [p[|p| - 1]] && q == q[..|q| - 1] + [q[|q| - 1]];
    }
  }

  /** Resolving a path resolves its prefixes. */
  lemma {:induction false} WalkPrefix(l: Links, p: Path, q: Path)
    requires p <= q && Walk(l, q).Some?
    ensures Walk(l, p).Some?
    decreases |q|
  {
    if |p| < |q| {
      WalkPrefix(l, p, q[..|q| - 1]);
    } else {
      assert p == q;
    }
  }

  /** `q` lies at or under `p`. */
  predicate Under(p: Path, q: Path) { p <= q }

  lemma UnderParent(p: Path, q: Path)
    requires Under(p, q) && p != q
    ensures q != [] && Under(p, q[..|q| - 1])
  {
  }

  // ---------------------------------------------------------------- rename

  /** What a rename does to the links. */
  function Moved(l: Links, from: Slot, to: Slot, e: Entry): Links {
    (l - {from})[to := e]
  }

  /** A rename the engine lets through: `f` and `t` are the paths of an entry and of a free slot,
      and `t` does not lie strictly under `f`. */
  ghost predicate MayMove(l: Links, f: Path, t: Path, from: Slot, to: Slot, e: Entry) {
    && OneParent(l) && Names(l, f, from) && Names(l, t, to)
    && from in l && to !in l && !Under(f, t)
    && e.isDir == l[from].isDir && e.id == l[from].id
  }

  /** Where the path `p` of the new tree leads in the old one: `None` for nowhere. */
  function Origin(f: Path, t: Path, p: Path): Option<Path> {
    if Under(t, p) then Some(f + p[|t|..]) else if Under(f, p) then None else Some(p)
  }

  /** A rename moves exactly one subtree: every path under the new name leads where the old name
      led, nothing is left under the old name, and no other path changes. */
  lemma {:induction false} MovedWalk(l: Links, f: Path, t: Path, from: Slot, to: Slot, e: Entry, p: Path)
    requires MayMove(l, f, t, from, to, e)
    ensures Walk(Moved(l, from, to, e), p) == match Origin(f, t, p) case None => None case Some(q) => Walk(l, q)
    decreases |p|
  {
    if p != [] {
      MovedFind(l, f, t, from, to, e, p);
      if Under(t, p) && p == t {
        assert p[|t|..] == [] && f + [] == f;
      }
    }
  }

  lemma {:induction false} MovedFind(l: Links, f: Path, t: Path, from: Slot, to: Slot, e: Entry, p: Path)
    requires MayMove(l, f, t, from, to, e) && p != []
    ensures Find(Moved(l, from, to, e), p) ==
      if p == t then Some(e) else match Origin(f, t, p) case None => None case Some(q) => if q == [] then None
        else Find(l, q)
    ensures p == t ==> Find(l, f) == Some(l[from])
    ensures p != t && Origin(f, t, p).Some? ==> Origin(f, t, p).value != []
    decreases |p|, 0
  {
    var q := p[..|p| - 1];
    MovedWalk(l, f, t, from, to, e, q);
    if p == t {
      assert !Under(t, q) && !Under(f, q);
    } else if Under(t, p) {
      UnderParent(t, p);
      MovedFindNew(l, f, t, from, to, e, p, f + q[|t|..]);
      assert f + p[|t|..] == f + q[|t|..] + [p[|p| - 1]];
    } else if p == f {
      MovedFindOld(l, f, t, from, to, e);
    } else if Under(f, p) {
      UnderParent(f, p);
    } else {
      assert !Under(f, q) && !Under(t, q);
      if Walk(l, q).Some? {
        Elsewhere(l, f, from, p);
        Elsewhere(l, t, to, p);
      }
    }
  }

  /** Below the new name: `o` is where the parent `q` leads in the old tree. */
  lemma MovedFindNew(l: Links, f: Path, t: Path, from: Slot, to: Slot, e: Entry, p: Path, o: Path)
    requires MayMove(l, f, t, from, to, e) && p != [] && Under(f, o)
    requires Walk(Moved(l, from, to, e), p[..|p| - 1]) == Walk(l, o)
    ensures Find(Moved(l, from, to, e), p) == Find(l, o + [p[|p| - 1]])
  {
    var k := p[|p| - 1];
    assert (o + [k])[..|o|] == o;
    if Walk(l, o).Some? {
      OffEnds(l, f, t, from, to, o);
      Bystander(l, from, to, e, Slot(Walk(l, o).value, k));
    }
  }

  lemma Bystander(l: Links, from: Slot, to: Slot, e: Entry, s: Slot)
    requires s != from && s != to
    ensures s in Moved(l, from, to, e) <==> s in l
    ensures s in l ==> Moved(l, from, to, e)[s] == l[s]
  {
  }

  /** The old name itself. */
  lemma MovedFindOld(l: Links, f: Path, t: Path, from: Slot, to: Slot, e: Entry)
    requires MayMove(l, f, t, from, to, e)
    requires Walk(Moved(l, from, to, e), f[..|f| - 1])
      == match Origin(f, t, f[..|f| - 1]) case None => None case Some(q) => Walk(l, q)
    ensures Find(Moved(l, from, to, e), f) == None && !Under(t, f)
  {
    var q := f[..|f| - 1];
    assert f != t;
    if Under(t, f) {
      UnderParent(t, f);
      WalkPrefix(l, t, q);
      assert false;
    }
    assert !Under(t, q) && !Under(f, q);
  }

  /** A directory under the moved entry holds neither end of the move. */
  lemma OffEnds(l: Links, f: Path, t: Path, from: Slot, to: Slot, o: Path)
    requires OneParent(l) && Names(l, f, from) && Names(l, t, to) && !Under(f, t) && Under(f, o) && Walk(l, o).Some?
    ensures Walk(l, o).value != from.dir && Walk(l, o).value != to.dir
  {
    if Walk(l, o).value == from.dir {
      PathUnique(l, o, f[..|f| - 1]);
    } else if Walk(l, o).value == to.dir {
      PathUnique(l, o, t[..|t| - 1]);
      assert false;
    }
  }

  /** Only its own path leads to a slot. */
  lemma Elsewhere(l: Links, f: Path, from: Slot, p: Path)
    requires OneParent(l) && Names(l, f, from) && p != [] && p != f && Walk(l, p[..|p| - 1]).Some?
    ensures Slot(Walk(l, p[..|p| - 1]).value, p[|p| - 1]) != from
  {
    if Walk(l, p[..|p| - 1]).value == from.dir {
      PathUnique(l, p[..|p| - 1], f[..|f| - 1]);
      assert p == p[..|p| - 1] + [p[|p| - 1]] && f == f[..|f| - 1] + [f[|f| - 1]];
    }
  }

  /** A rename keeps the links a tree: every entry still hangs on a path from the root. */
  lemma MovedTree(l: Links, f: Path, t: Path, from: Slot, to: Slot, e: Entry)
    requires MayMove(l, f, t, from, to, e) && Reachable(l)
    ensures Tree(Moved(l, from, to, e))
  {
    var l' := Moved(l, from, to, e);
    forall s | s in l'
      ensures exists p :: Names(l', p, s)
    {
      if s == to {
        assert !Under(t, t[..|t| - 1]) && !Under(f, t[..|t| - 1]);
        MovedWalk(l, f, t, from, to, e, t[..|t| - 1]);
        assert Names(l', t, s);
      } else {
        var p :| Names(l, p, s);
        MovedNames(l, f, t, from, to, e, p, s);
      }
    }
  }

  lemma MovedNames(l: Links, f: Path, t: Path, from: Slot, to: Slot, e: Entry, p: Path, s: Slot)
    requires MayMove(l, f, t, from, to, e) && Names(l, p, s) && s in l && s != from
    ensures exists p' :: Names(Moved(l, from, to, e), p', s)
  {
    var l' := Moved(l, from, to, e);
    var q := p[..|p| - 1];
    if Under(t, q) {
      WalkPrefix(l, t, q);
      assert false;
    } else if Under(f, q) {
      var q' := t + q[|f|..];
      assert q'[|t|..] == q[|f|..] && f + q[|f|..] == q;
      MovedWalk(l, f, t, from, to, e, q');
      assert (q' + [s.key])[..|q'|] == q';
      assert Names(l', q' + [s.key], s);
    } else {
      MovedWalk(l, f, t, from, to, e, q);
      assert Names(l', p, s);
    }
  }

  /** Why the engine refuses to move a directory under itself: nothing leads to it any more. */
  lemma MoveDetaches(l: Links, f: Path, t: Path, from: Slot, to: Slot, e: Entry)
    requires OneParent(l) && Names(l, f, from) && Names(l, t, to) && from in l && to !in l && Under(f, t)
    ensures !Reachable(Moved(l, from, to, e))
  {
    var l' := Moved(l, from, to, e);
    assert f != t;
    if Reachable(l') {
      assert to in l';
      var p :| Names(l', p, to);
      Detached(l, f, t, from, to, e, p[..|p| - 1]);
      PathUnique(l, p[..|p| - 1], t[..|t| - 1]);
    }
  }

  lemma {:induction false} Detached(l: Links, f: Path, t: Path, from: Slot, to: Slot, e: Entry, q: Path)
    requires OneParent(l) && Names(l, f, from) && Names(l, t, to) && from in l && to !in l && Under(f, t)
    requires Walk(Moved(l, from, to, e), q).Some?
    ensures Walk(l, q) == Walk(Moved(l, from, to, e), q) && !Under(f, q)
    decreases |q|
  {
    assert f != t;
    if q == [] {
    } else {
      Detached(l, f, t, from, to, e, q[..|q| - 1]);
      if q != f {
        Elsewhere(l, f, from, q);
      }
      if q == t {
        UnderParent(f, t);
      } else {
        Elsewhere(l, t, to, q);
      }
    }
  }

  // ---------------------------------------------------------------- one link more or less

  /** `e` can be linked without joining the tree to anything: a file, or a fresh directory. */
  ghost predicate Fresh(l: Links, e: Entry) {
    e.isDir ==> e.id != ROOT && forall s :: s in l ==> s.dir != e.id && !(l[s].isDir && l[s].id == e.id)
  }

  lemma LinkedDir(l: Links, p: Path)
    requires Walk(l, p).Some? && Walk(l, p).value != ROOT
    ensures exists s :: s in l && l[s].isDir && l[s].id == Walk(l, p).value
  {
    assert Slot(Walk(l, p[..|p| - 1]).value, p[|p| - 1]) in l;
  }

  /** A new entry: its path leads to it, nothing lies under it, and no other path changes. */
  lemma {:induction false} AddedFind(l: Links, t: Path, to: Slot, e: Entry, p: Path)
    requires OneParent(l) && Names(l, t, to) && to !in l && Fresh(l, e) && p != []
    ensures Find(l[to := e], p) == if p == t then Some(e) else Find(l, p)
    decreases |p|
  {
    var q := p[..|p| - 1];
    if q != [] {
      AddedFind(l, t, to, e, q);
    }
    if q == t && e.isDir && to.dir == e.id {
      LinkedDir(l, t[..|t| - 1]);
    }
    if Walk(l, q).Some? && p != t {
      Elsewhere(l, t, to, p);
    }
  }

  lemma AddedWalk(l: Links, t: Path, to: Slot, e: Entry, p: Path)
    requires OneParent(l) && Names(l, t, to) && to !in l && Fresh(l, e) && Walk(l, p).Some?
    ensures Walk(l[to := e], p) == Walk(l, p)
  {
    if p != [] {
      AddedFind(l, t, to, e, p);
    }
  }

  lemma AddedTree(l: Links, t: Path, to: Slot, e: Entry)
    requires Tree(l) && Names(l, t, to) && to !in l && Fresh(l, e)
    ensures Tree(l[to := e])
  {
    var l' := l[to := e];
    forall s | s in l'
      ensures exists p :: Names(l', p, s)
    {
      var p :| if s == to then p == t else Names(l, p, s);
      AddedWalk(l, t, to, e, p[..|p| - 1]);
      assert Names(l', p, s);
    }
  }

  // ---------------------------------------------------------------- cutting subtrees

  /** Path `p` lies under one of the children `gone` of the directory at `at`. */
  predicate Gone(at: Path, gone: set<Name>, p: Path) {
    at < p && p[|at|] in gone
  }

  /** The links without the children `gone` of the directory at `at` and all below them. */
  ghost function Rest(l: Links, at: Path, gone: set<Name>): Links {
    map s | s in l && !Lost(l, at, gone, s) :: l[s]
  }

  ghost predicate Lost(l: Links, at: Path, gone: set<Name>, s: Slot) {
    exists p :: Names(l, p, s) && Gone(at, gone, p)
  }

  /** The links without the entry at `at` and all below it. */
  ghost function Cut(l: Links, at: Path): Links {
    map s | s in l && !Within'(l, at, s) :: l[s]
  }

  /** The slot `s` lies at or under `at`. */
  ghost predicate Within'(l: Links, at: Path, s: Slot) {
    exists p :: Names(l, p, s) && Under(at, p)
  }

  /** What lies elsewhere still resolves as before; nothing resolves under a lost child. */
  lemma {:induction false} RestWalk(l: Links, at: Path, gone: set<Name>, p: Path)
    requires OneParent(l)
    ensures OneParent(Rest(l, at, gone))
    ensures Walk(Rest(l, at, gone), p) == if Gone(at, gone, p) then None else Walk(l, p)
    decreases |p|
  {
    if p == [] {
    } else {
      var q := p[..|p| - 1];
      RestWalk(l, at, gone, q);
      if Walk(l, q).Some? {
        var s := Slot(Walk(l, q).value, p[|p| - 1]);
        assert Names(l, p, s);
        forall r | Names(l, r, s)
          ensures r == p
        {
          if r != p {
            Elsewhere(l, p, s, r);
          }
        }
      }
    }
  }

  /** Cutting a subtree leaves every other path as it was and nothing at or under its own. */
  lemma {:induction false} CutWalk(l: Links, at: Path, p: Path)
    requires OneParent(l) && at != []
    ensures OneParent(Cut(l, at))
    ensures Walk(Cut(l, at), p) == if Under(at, p) then None else Walk(l, p)
    decreases |p|
  {
    if p == [] {
    } else {
      var q := p[..|p| - 1];
      CutWalk(l, at, q);
      if Walk(l, q).Some? {
        var s := Slot(Walk(l, q).value, p[|p| - 1]);
        assert Names(l, p, s);
        forall r | Names(l, r, s)
          ensures r == p
        {
          if r != p {
            Elsewhere(l, p, s, r);
          }
        }
      }
    }
  }

  /** What is left of a tree is a tree. */
  lemma CutTree(l: Links, at: Path)
    requires Tree(l) && at != []
    ensures Tree(Cut(l, at))
  {
    CutWalk(l, at, []);
    forall s | s in Cut(l, at)
      ensures exists p :: Names(Cut(l, at), p, s)
    {
      var p :| Names(l, p, s);
      CutWalk(l, at, p[..|p| - 1]);
      assert Names(Cut(l, at), p, s);
    }
  }

  /** Nothing lost yet. */
  lemma RestNone(l: Links, at: Path)
    ensures Rest(l, at, {}) == l
  {
  }

  /** Losing one more child subtree. */
  lemma RestStep(l: Links, at: Path, gone: set<Name>, k: Name)
    requires OneParent(l) && k !in gone
    ensures Cut(Rest(l, at, gone), at + [k]) == Rest(l, at, gone + {k})
  {
    var m := Rest(l, at, gone);
    forall s | s in l
      ensures s in Cut(m, at + [k]) <==> !Lost(l, at, gone + {k}, s)
    {
      if s in m {
        forall p
          ensures Names(m, p, s) && Under(at + [k], p) <==> Names(l, p, s) && Gone(at, {k}, p)
        {
          RestNames(l, at, gone, k, p, s);
        }
        if Lost(l, at, gone + {k}, s) {
          var p :| Names(l, p, s) && Gone(at, gone + {k}, p);
          assert Gone(at, {k}, p) by { assert !Lost(l, at, gone, s); }
        }
      }
    }
  }

  lemma RestNames(l: Links, at: Path, gone: set<Name>, k: Name, p: Path, s: Slot)
    requires OneParent(l) && k !in gone
    ensures Names(Rest(l, at, gone), p, s) && Under(at + [k], p) <==> Names(l, p, s) && Gone(at, {k}, p)
  {
    if p != [] {
      RestWalk(l, at, gone, p[..|p| - 1]);
      assert Under(at + [k], p) <==> Gone(at, {k}, p) by {
        if at < p && p[|at|] == k {
          assert p[..|at| + 1] == at + [k];
        }
      }
    }
  }

  /** With all its children lost and its own entry unlinked, a directory is cut. */
  lemma RestAll(l: Links, at: Path, gone: set<Name>, s0: Slot)
    requires OneParent(l) && Names(l, at, s0) && s0 in l && Walk(l, at).Some?
    requires forall s :: s in l && s.dir == l[s0].id ==> s.key in gone
    ensures Rest(l, at, gone) - {s0} == Cut(l, at)
  {
    forall s | s in l
      ensures (s == s0 || Lost(l, at, gone, s)) <==> Within'(l, at, s)
    {
      assert Under(at, at);
      if p: Path :| Names(l, p, s) && Under(at, p) {
        if p == at {
          assert s == s0;
        } else {
          ChildOf(l, at, p, s);
          assert Gone(at, gone, p);
        }
      }
    }
  }

  /** A slot under a directory lies under one of its children. */
  lemma ChildOf(l: Links, at: Path, p: Path, s: Slot)
    requires s in l && Names(l, p, s) && at < p && Walk(l, at).Some?
    ensures Slot(Walk(l, at).value, p[|at|]) in l
  {
    var c := p[..|at| + 1];
    assert c[..|c| - 1] == at;
    if c == p {
      assert p[..|p| - 1] == at;
    } else {
      WalkPrefix(l, c, p[..|p| - 1]);
    }
  }

  /** An entry with nothing below it: unlinking it cuts it. */
  lemma CutLeaf(l: Links, at: Path, s0: Slot)
    requires OneParent(l) && Names(l, at, s0) && s0 in l
    requires l[s0].isDir ==> forall s :: s in l ==> s.dir != l[s0].id
    ensures l - {s0} == Cut(l, at)
  {
    forall s | s in l
      ensures s == s0 <==> Within'(l, at, s)
    {
      assert Under(at, at);
      if p: Path :| Names(l, p, s) && Under(at, p) && p != at {
        WalkPrefix(l, at, p[..|p| - 1]);
        ChildOf(l, at, p, s);
      }
    }
  }

  // ---------------------------------------------------------------- how deep a tree is

  /** The slots a path passes. */
  ghost function Passed(l: Links, p: Path): (r: set<Slot>)
    requires Walk(l, p).Some?
    decreases |p|
  {
    if p == [] then {}
    else
      assert Find(l, p).Some?;
      Passed(l, p[..|p| - 1]) + {Slot(Walk(l, p[..|p| - 1]).value, p[|p| - 1])}
  }

  lemma {:induction false} PassedOnWay(l: Links, p: Path, s: Slot)
    requires Walk(l, p).Some? && s in Passed(l, p)
    ensures s in l && exists i :: 0 < i <= |p| && Names(l, p[..i], s)
    decreases |p|
  {
    var q := p[..|p| - 1];
    if s in Passed(l, q) {
      PassedOnWay(l, q, s);
      var i :| 0 < i <= |q| && Names(l, q[..i], s);
      assert q[..i] == p[..i];
    } else {
      assert p[..|p|] == p;
    }
  }

  /** A path passes no link twice. */
  lemma PassedOnce(l: Links, p: Path)
    requires OneParent(l) && p != [] && Walk(l, p).Some?
    ensures Walk(l, p[..|p| - 1]).Some? && Slot(Walk(l, p[..|p| - 1]).value, p[|p| - 1]) !in Passed(l, p[..|p| - 1])
  {
    var q := p[..|p| - 1];
    var s := Slot(Walk(l, q).value, p[|p| - 1]);
    if s in Passed(l, q) {
      PassedOnWay(l, q, s);
      var i :| 0 < i <= |q| && Names(l, q[..i], s);
      PathUnique(l, q[..i][..i - 1], q);
      assert false;
    }
  }

  lemma {:induction false} PassedCount(l: Links, p: Path)
    requires OneParent(l) && Walk(l, p).Some?
    ensures Passed(l, p) <= l.Keys && |Passed(l, p)| == |p|
    decreases |p|
  {
    if p == [] {
    } else {
      PassedCount(l, p[..|p| - 1]);
      PassedOnce(l, p);
    }
  }

  /** No path is longer than the tree has links: recursion down a tree ends. */
  lemma PathShort(l: Links, p: Path)
    requires OneParent(l) && Walk(l, p).Some?
    ensures |p| <= |l|
  {
    PassedCount(l, p);
    SubsetSize(Passed(l, p), l.Keys);
    assert |l.Keys| == |l|;
  }

  /** The rest of the links is part of them, and paths in it are paths in them. */
  lemma RestPart(l: Links, at: Path, gone: set<Name>)
    requires OneParent(l)
    ensures |Rest(l, at, gone)| <= |l| && OneParent(Rest(l, at, gone))
    ensures forall p, s :: Names(Rest(l, at, gone), p, s) ==> Names(l, p, s)
  {
    RestWalk(l, at, gone, []);
    SubsetSize(Rest(l, at, gone).Keys, l.Keys);
    assert |Rest(l, at, gone).Keys| == |Rest(l, at, gone)| && |l.Keys| == |l|;
    forall p, s | Names(Rest(l, at, gone), p, s)
      ensures Names(l, p, s)
    {
      RestWalk(l, at, gone, p[..|p| - 1]);
    }
  }

  /** A child that is not gone is still there, and leads where it led. */
  lemma RestChild(l: Links, at: Path, gone: set<Name>, k: Name)
    requires OneParent(l) && Walk(l, at).Some? && k !in gone
    ensures var c := Slot(Walk(l, at).value, k);
      && Names(l, at + [k], c) && Names(Rest(l, at, gone), at + [k], c)
      && (c in l ==> c in Rest(l, at, gone))
      && Walk(Rest(l, at, gone), at + [k]) == Walk(l, at + [k])
  {
    var p := at + [k];
    var c := Slot(Walk(l, at).value, k);
    assert p[..|p| - 1] == at;
    RestWalk(l, at, gone, at);
    RestWalk(l, at, gone, p);
    if Lost(l, at, gone, c) {
      var q :| Names(l, q, c) && Gone(at, gone, q);
      if q != p {
        Elsewhere(l, p, c, q);
      }
      assert false;
    }
  }

  /** Once all children are gone the directory is empty. */
  lemma RestEmpty(l: Links, at: Path, gone: set<Name>)
    requires OneParent(l) && Walk(l, at).Some?
    requires forall s :: s in l && s.dir == Walk(l, at).value ==> s.key in gone
    ensures forall s :: s in Rest(l, at, gone) ==> s.dir != Walk(l, at).value
  {
    forall s | s in l && s.dir == Walk(l, at).value
      ensures Lost(l, at, gone, s)
    {
      var p := at + [s.key];
      assert p[..|p| - 1] == at;
      assert Names(l, p, s) && Gone(at, gone, p);
    }
  }

  // ---------------------------------------------------------------- respelling

  /** Rewriting an entry in place, same object, changes no path. */
  lemma {:induction false} RespeltWalk(l: Links, slot: Slot, e: Entry, p: Path)
    requires slot in l && e.isDir == l[slot].isDir && e.id == l[slot].id
    ensures Walk(l[slot := e], p) == Walk(l, p)
    decreases |p|
  {
    if p == [] {
    } else {
      RespeltWalk(l, slot, e, p[..|p| - 1]);
    }
  }

  lemma RespeltTree(l: Links, slot: Slot, e: Entry)
    requires Tree(l) && slot in l && e.isDir == l[slot].isDir && e.id == l[slot].id
    ensures Tree(l[slot := e])
  {
    var l' := l[slot := e];
    forall s | s in l'
      ensures exists p :: Names(l', p, s)
    {
      assert s in l;
      var p :| Names(l, p, s);
      RespeltWalk(l, slot, e, p[..|p| - 1]);
      assert Names(l', p, s);
    }
  }

  /** No directory holds its own entry. */
  lemma NotInItself(l: Links, p: Path, slot: Slot)
    requires OneParent(l) && Names(l, p, slot) && slot in l && l[slot].isDir
    ensures l[slot].id != slot.dir
  {
    if l[slot].id == slot.dir {
      PathUnique(l, p, p[..|p| - 1]);
      assert false;
    }
  }
}
