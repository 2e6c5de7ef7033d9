/** Path strings (src/path.rs) and the case-folding name policy (src/name.rs): what the string
    tests of the driver mean for the components of a path. */
module Paths {
  import opened Basics

  const SEP: char := '\\'
  const ROOT_PATH: string := "\\"

  predicate IsSep(c: char) { c == '\\' || c == '/' }

  /** Two characters separate components, and no other. */
  lemma SepExactly(c: char)
    ensures IsSep(c) <==> c in "/\\"
  {
  }

  /** A component: not empty, no separator in it. */
  predicate Component(s: string) {
    s != [] && forall i :: 0 <= i < |s| ==> !IsSep(s[i])
  }

  predicate Components(p: seq<string>) {
    forall i :: 0 <= i < |p| ==> Component(p[i])
  }

  // ---------------------------------------------------------------- rendering

  function Body(p: seq<string>): string {
    if p == [] then "" else [SEP] + p[0] + Body(p[1..])
  }

  /** The normalized absolute path of these components. */
  function Render(p: seq<string>): string {
    if p == [] then ROOT_PATH else Body(p)
  }

  /** `is_strictly_under`, a test on strings. */
  predicate IsStrictlyUnder(path: string, prefix: string) {
    |path| > |prefix| && prefix <= path &&
    ((prefix != [] && prefix[|prefix| - 1] == SEP) || path[|prefix|] == SEP)
  }

  /** `a` is a prefix of `b` that ends at a component boundary. */
  predicate Bounded(a: string, b: string) {
    a <= b && (|a| == |b| || b[|a|] == SEP)
  }

  lemma BodyStart(p: seq<string>)
    requires p != []
    ensures Body(p)[0] == SEP && Body(p)[1..] == p[0] + Body(p[1..])
  {
  }

  /** The string character by character: a separator, the first component, the others. */
  lemma BodyAt(p: seq<string>)
    requires p != []
    ensures |Body(p)| == 1 + |p[0]| + |Body(p[1..])|
    ensures forall i :: 0 <= i < |p[0]| ==> Body(p)[1 + i] == p[0][i]
    ensures forall i :: 0 <= i < |Body(p[1..])| ==> Body(p)[1 + |p[0]| + i] == Body(p[1..])[i]
    ensures p[1..] != [] ==> Body(p[1..]) != [] && Body(p)[1 + |p[0]|] == SEP
  {
    BodyStart(p);
    assert Body(p) == [SEP] + p[0] + Body(p[1..]);
    if p[1..] != [] {
      BodyStart(p[1..]);
      assert Body(p)[1 + |p[0]|] == Body(p[1..])[0];
    }
  }

  /** A component's end shows in the string: the first component of a bounded prefix is the whole
      first component. */
  lemma HeadLength(a: seq<string>, b: seq<string>)
    requires a != [] && b != [] && Components(a) && Components(b) && Bounded(Body(a), Body(b))
    ensures |a[0]| == |b[0]|
  {
    BodyAt(a);
    BodyAt(b);
  }

  lemma BodyParts(p: seq<string>)
    requires p != []
    ensures var k := 1 + |p[0]|; k <= |Body(p)| && Body(p)[..k][1..] == p[0] && Body(p)[k..] == Body(p[1..])
  {
    BodyStart(p);
    assert Body(p) == [SEP] + p[0] + Body(p[1..]);
  }

  lemma TailBounded(x: string, y: string, k: nat)
    requires Bounded(x, y) && k <= |x|
    ensures k <= |y| && x[..k] == y[..k] && Bounded(x[k..], y[k..])
  {
  }

  lemma SameHead(a: seq<string>, b: seq<string>)
    requires a != [] && b != [] && Components(a) && Components(b) && Bounded(Body(a), Body(b))
    ensures a[0] == b[0] && Bounded(Body(a[1..]), Body(b[1..]))
  {
    HeadLength(a, b);
    BodyParts(a);
    BodyParts(b);
    TailBounded(Body(a), Body(b), 1 + |a[0]|);
  }

  /** Prefix of strings at a component boundary is prefix of components. */
  lemma {:induction false} BodyPrefix(a: seq<string>, b: seq<string>)
    requires Components(a) && Components(b)
    ensures Bounded(Body(a), Body(b)) <==> a <= b
  {
    if a == [] {
      if b != [] { BodyStart(b); }
    } else if b == [] {
    } else {
      if Bounded(Body(a), Body(b)) {
        SameHead(a, b);
      }
      BodyPrefix(a[1..], b[1..]);
      if a[0] == b[0] && a[1..] <= b[1..] {
        assert a == [a[0]] + a[1..] && b == [b[0]] + b[1..];
        assert Body(a) == [SEP] + a[0] + Body(a[1..]) && Body(b) == [SEP] + b[0] + Body(b[1..]);
      }
    }
  }

  /** On normalized paths the string test is: proper prefix, component by component. */
  lemma StrictlyUnderExactly(a: seq<string>, b: seq<string>)
    requires Components(a) && Components(b)
    ensures IsStrictlyUnder(Render(b), Render(a)) <==> a < b
  {
    BodyPrefix(a, b);
    if a == [] {
      if b != [] { BodyStart(b); assert |b[0]| > 0; }
    } else {
      BodyEnd(a);
      if b == [] { assert |Body(a)| >= 1; }
      if |Body(a)| == |Body(b)| && Body(a) <= Body(b) {
        assert Body(a) == Body(b);
        BodyPrefix(b, a);
      }
      if a <= b && |a| == |b| {
        assert a == b;
      }
    }
  }

  lemma {:induction false} BodyEnd(p: seq<string>)
    requires p != [] && Components(p)
    ensures Body(p) != [] && Body(p)[|Body(p)| - 1] != SEP
  {
    if |p| > 1 { BodyEnd(p[1..]); } else { assert Body(p) == [SEP] + p[0]; }
  }

  /** Different paths have different strings. */
  lemma RenderInjective(a: seq<string>, b: seq<string>)
    requires Components(a) && Components(b) && Render(a) == Render(b)
    ensures a == b
  {
    if a != [] && b != [] {
      BodyPrefix(a, b);
      BodyPrefix(b, a);
    } else {
      if a != [] { BodyEnd(a); }
      if b != [] { BodyEnd(b); }
    }
  }

  // ---------------------------------------------------------------- splitting and normalizing

  /** The length of the run of non-separators that `s` starts with. */
  function RunLength(s: string): (n: nat)
    ensures n <= |s| && (forall i :: 0 <= i < n ==> !IsSep(s[i])) && (n < |s| ==> IsSep(s[n]))
  {
    if s == [] || IsSep(s[0]) then 0 else 1 + RunLength(s[1..])
  }

  /** The components of a path string: its maximal runs of non-separators. */
  function Split(s: string): (r: seq<string>)
    ensures Components(r)
    decreases |s|
  {
    if s == [] then [] else if IsSep(s[0]) then Split(s[1..]) else [s[..RunLength(s)]] + Split(s[RunLength(s)..])
  }

  /** The iterator over components, run to its end. */
  method ComponentsOf(s: string) returns (segs: seq<string>)
    ensures segs == Split(s)
  {
    segs := [];
    var rest := TrimStart(s);
    while rest != []
      invariant rest != [] ==> !IsSep(rest[0])
      invariant Split(s) == segs + Split(rest)
      decreases |rest|
    {
      var n := RunLength(rest);
      segs := segs + [rest[..n]];
      rest := TrimStart(rest[n..]);
    }
  }

  /** `trim_start_matches(is_sep)`. */
  function TrimStart(s: string): (r: string)
    ensures |r| <= |s| && (r != [] ==> !IsSep(r[0])) && Split(r) == Split(s)
  {
    if s != [] && IsSep(s[0]) then TrimStart(s[1..]) else s
  }

  /** Resolve `.` and `..`; `..` at the root stays there. */
  function Resolved(segs: seq<string>): seq<string> {
    if segs == [] then []
    else
      var out, c := Resolved(segs[..|segs| - 1]), segs[|segs| - 1];
      if c == "." then out
      else if c == ".." then (if out == [] then [] else out[..|out| - 1])
      else out + [c]
  }

  /** The components joined by separators, with a leading one only for a rooted path; a path that
      comes to nothing is the root. */
  function Normalized(s: string): string {
    var p := Resolved(Split(s));
    if p == [] || (s != [] && IsSep(s[0])) then Render(p) else Body(p)[1..]
  }

  /** `normalize`. */
  method Normalize(s: string) returns (r: string)
    ensures r == Normalized(s)
  {
    var segs := ComponentsOf(s);
    var out := ResolveDots(segs);
    ResolvedClean(segs);
    r := if s != [] && IsSep(s[0]) then [SEP] else [];
    var joined := JoinParts(out);
    r := r + joined;
    if r == [] {
      r := [SEP];
    }
    if out != [] {
      BodyStart(out);
      assert [SEP] + Body(out)[1..] == Body(out);
    }
  }

  /** The push and pop loop. */
  method ResolveDots(segs: seq<string>) returns (out: seq<string>)
    ensures out == Resolved(segs)
  {
    out := [];
    for i := 0 to |segs|
      invariant out == Resolved(segs[..i])
    {
      assert segs[..i + 1][..i] == segs[..i];
      if segs[i] == "." {
      } else if segs[i] == ".." {
        out := if out == [] then [] else out[..|out| - 1];
      } else {
        out := out + [segs[i]];
      }
    }
    assert segs[..|segs|] == segs;
  }

  /** The parts with a separator between any two. */
  method JoinParts(out: seq<string>) returns (r: string)
    ensures r == if out == [] then [] else Body(out)[1..]
  {
    r := [];
    for i := 0 to |out|
      invariant r == if i == 0 then [] else Body(out[..i])[1..]
    {
      BodyPush(out[..i], out[i]);
      assert out[..i + 1] == out[..i] + [out[i]];
      if i > 0 {
        BodyStart(out[..i]);
        r := r + [SEP];
      }
      r := r + out[i];
    }
    assert out[..|out|] == out;
  }

  lemma {:induction false} BodyPush(p: seq<string>, c: string)
    ensures Body(p + [c]) == Body(p) + [SEP] + c
  {
    if p == [] {
      assert Body([c]) == [SEP] + c + Body([]);
    } else {
      BodyPush(p[1..], c);
      assert (p + [c])[1..] == p[1..] + [c];
    }
  }

  lemma {:induction false} ResolvedClean(segs: seq<string>)
    requires Components(segs)
    ensures Components(Resolved(segs)) && "." !in Resolved(segs) && ".." !in Resolved(segs)
  {
    if segs == [] {
    } else {
      ResolvedClean(segs[..|segs| - 1]);
    }
  }

  lemma {:induction false} ResolvedFixed(segs: seq<string>)
    requires "." !in segs && ".." !in segs
    ensures Resolved(segs) == segs
  {
    if segs == [] {
    } else {
      ResolvedFixed(segs[..|segs| - 1]);
    }
  }

  /** Rendering and splitting undo each other. */
  lemma {:induction false} SplitBody(p: seq<string>)
    requires Components(p)
    ensures Split(Body(p)) == p
  {
    if p == [] {
    } else {
      SplitBody(p[1..]);
      BodyStart(p);
      var s := p[0] + Body(p[1..]);
      if p[1..] != [] { BodyStart(p[1..]); }
      RunOf(p[0], Body(p[1..]));
      assert s[..|p[0]|] == p[0] && s[|p[0]|..] == Body(p[1..]);
    }
  }

  lemma {:induction false} RunOf(c: string, rest: string)
    requires (forall i :: 0 <= i < |c| ==> !IsSep(c[i])) && (rest != [] ==> IsSep(rest[0]))
    ensures RunLength(c + rest) == |c|
  {
    if c == [] {
      assert c + rest == rest;
    } else {
      RunOf(c[1..], rest);
      assert (c + rest)[1..] == c[1..] + rest;
    }
  }

  /** Normalizing resolves all dots, and normalizing again changes nothing. */
  lemma NormalizeAgain(s: string)
    ensures var p := Resolved(Split(s)); Components(p) && "." !in p && ".." !in p && Split(Normalized(s)) == p
    ensures Normalized(Normalized(s)) == Normalized(s)
  {
    var p, n := Resolved(Split(s)), Normalized(s);
    ResolvedClean(Split(s));
    ResolvedFixed(p);
    if p == [] {
      assert Split(ROOT_PATH) == Split("");
    } else {
      SplitBody(p);
      BodyStart(p);
      assert Split(Body(p)) == Split(Body(p)[1..]);
      assert !IsSep(Body(p)[1..][0]);
    }
  }

  // ---------------------------------------------------------------- case folding

  /** A fold leaves separators alone and makes none. */
  ghost predicate Lawful(fold: char -> char) {
    forall c :: IsSep(fold(c)) <==> IsSep(c)
  }

  function Fold(fold: char -> char, s: string): string {
    seq(|s|, i requires 0 <= i < |s| => fold(s[i]))
  }

  function FoldPath(fold: char -> char, p: seq<string>): seq<string> {
    seq(|p|, i requires 0 <= i < |p| => Fold(fold, p[i]))
  }

  lemma FoldedComponents(fold: char -> char, p: seq<string>)
    requires Lawful(fold) && Components(p)
    ensures Components(FoldPath(fold, p))
  {
  }

  /** Two names are equal when they fold to the same name. */
  method NamesEqual(fold: char -> char, a: string, b: string) returns (r: bool)
    ensures r <==> Fold(fold, a) == Fold(fold, b)
  {
    var i := 0;
    while true
      invariant i <= |a| && i <= |b|
      invariant forall j :: 0 <= j < i ==> fold(a[j]) == fold(b[j])
      decreases |a| - i
    {
      if i == |a| && i == |b| {
        return true;
      }
      if i == |a| || i == |b| {
        assert |Fold(fold, a)| != |Fold(fold, b)|;
        return false;
      }
      if fold(a[i]) != fold(b[i]) {
        assert Fold(fold, a)[i] != Fold(fold, b)[i];
        return false;
      }
      i := i + 1;
    }
  }

  /** Folding the string of a path folds its components. */
  lemma {:induction false} FoldRender(fold: char -> char, p: seq<string>)
    requires Lawful(fold) && fold(SEP) == SEP
    ensures Fold(fold, Render(p)) == Render(FoldPath(fold, p))
  {
    if p == [] {
      assert Fold(fold, ROOT_PATH) == ROOT_PATH;
    } else {
      FoldBody(fold, p);
    }
  }

  lemma {:induction false} FoldBody(fold: char -> char, p: seq<string>)
    requires fold(SEP) == SEP
    ensures Fold(fold, Body(p)) == Body(FoldPath(fold, p))
  {
    if p == [] {
    } else {
      FoldBody(fold, p[1..]);
      assert FoldPath(fold, p)[1..] == FoldPath(fold, p[1..]);
      assert Body(p) == [SEP] + p[0] + Body(p[1..]);
      assert Fold(fold, Body(p)) == [SEP] + Fold(fold, p[0]) + Fold(fold, Body(p[1..]));
    }
  }

  /** `is_strict_ancestor`, which tests folded strings, tests the folded components. */
  lemma StrictAncestorExactly(fold: char -> char, a: seq<string>, d: seq<string>)
    requires Lawful(fold) && fold(SEP) == SEP && Components(a) && Components(d)
    ensures IsStrictlyUnder(Fold(fold, Render(d)), Fold(fold, Render(a))) <==> FoldPath(fold, a) < FoldPath(fold, d)
  {
    FoldRender(fold, a);
    FoldRender(fold, d);
    FoldedComponents(fold, a);
    FoldedComponents(fold, d);
    StrictlyUnderExactly(FoldPath(fold, a), FoldPath(fold, d));
  }
}
