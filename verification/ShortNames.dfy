/** FAT short names (src/fat/sfn.rs, src/codec/fat/sfn_layout.rs): names that are valid 8.3 as they
    stand, generated aliases, and why generation finds a free name. */
module ShortNames {
  import opened Basics

  const SPACE: Byte := 0x20
  const NAME_LEN: nat := 8
  const EXT_LEN: nat := 3

  /** The 11 bytes of a short name. */
  datatype Sfn = Sfn(name: seq<Byte>, ext: seq<Byte>)

  predicate Shaped(s: Sfn) { |s.name| == NAME_LEN && |s.ext| == EXT_LEN }

  predicate IsSfnChar(c: char) {
    || ('A' <= c <= 'Z') || ('0' <= c <= '9')
    || c == '$' || c == '%' || c == '\'' || c == '-' || c == '_' || c == '@' || c == '~' || c == '`'
    || c == '!' || c == '(' || c == ')' || c == '{' || c == '}' || c == '^' || c == '#' || c == '&'
  }

  /** The byte of an ASCII character. */
  function ByteOf(c: char): Byte { if c < (128 as char) then c as int else 0 }

  function CharOf(b: Byte): char { b as char }

  /** The printable ASCII characters but for the space, the lower-case letters and the marks that the
      format reserves. */
  lemma SfnCharExactly(c: char)
    ensures IsSfnChar(c) <==>
      ' ' < c <= '~' && !('a' <= c <= 'z') && c !in "\"*+,./:;<=>?[\\]|"
  {
  }

  lemma SfnCharIsAscii(c: char)
    requires IsSfnChar(c)
    ensures c < (128 as char) && c != ' ' && c != '.' && ByteOf(c) != SPACE && CharOf(ByteOf(c)) == c
    ensures 0x20 < ByteOf(c) < 0x80
  {
  }

  function BytesOf(s: string): (r: seq<Byte>)
    ensures |r| == |s|
  {
    seq(|s|, i requires 0 <= i < |s| => ByteOf(s[i]))
  }

  /** `s` space-padded (or cut) to `n` bytes. */
  function Padded(s: seq<Byte>, n: nat): (r: seq<Byte>)
    ensures |r| == n
  {
    seq(n, i requires 0 <= i < n => if i < |s| then s[i] else SPACE)
  }

  function Dots(s: string): nat { if s == [] then 0 else (if s[0] == '.' then 1 else 0) + Dots(s[1..]) }

  /** The position of the first dot, or the length. */
  function FirstDot(s: string): (n: nat)
    ensures n <= |s|
  {
    if s == [] || s[0] == '.' then 0 else 1 + FirstDot(s[1..])
  }

  lemma {:induction false} FirstDotAt(s: string)
    ensures (forall i :: 0 <= i < FirstDot(s) ==> s[i] != '.') && (FirstDot(s) < |s| ==> s[FirstDot(s)] == '.')
  {
    if s != [] && s[0] != '.' {
      FirstDotAt(s[1..]);
    }
  }

  /** The position of the last dot, or the length when there is none. */
  function LastDot(s: string): (n: nat)
    ensures n <= |s|
  {
    if s == [] then 0
    else if s[|s| - 1] == '.' then |s| - 1
    else
      var k := LastDot(s[..|s| - 1]);
      if k == |s| - 1 then |s| else k
  }

  const CURRENT_DIR: Sfn := Sfn(Padded(BytesOf("."), NAME_LEN), Padded([], EXT_LEN))
  const PARENT_DIR: Sfn := Sfn(Padded(BytesOf(".."), NAME_LEN), Padded([], EXT_LEN))

  /** Dots and short-name characters only. */
  predicate AllLegal(s: string) { s == [] || ((s[0] == '.' || IsSfnChar(s[0])) && AllLegal(s[1..])) }

  lemma {:induction false} AllLegalAt(s: string)
    requires AllLegal(s)
    ensures forall i :: 0 <= i < |s| ==> s[i] == '.' || IsSfnChar(s[i])
  {
    if s == [] {
    } else {
      AllLegalAt(s[1..]);
    }
  }

  /** `as_sfn`: the short name a name is valid as, if any. */
  function AsSfn(s: string): (r: Option<Sfn>)
    ensures r.Some? ==> Shaped(r.value)
  {
    if s == "." then Some(CURRENT_DIR)
    else if s == ".." then Some(PARENT_DIR)
    else if Dots(s) > 1 then None
    else if !AllLegal(s) then None
    else if |s| > NAME_LEN + 1 + EXT_LEN then None
    else
      var k := FirstDot(s);
      var name, ext := s[..k], if k < |s| then s[k + 1..] else "";
      if name == [] || |name| > NAME_LEN || |ext| > EXT_LEN then None
      else Some(Sfn(Padded(BytesOf(name), NAME_LEN), Padded(BytesOf(ext), EXT_LEN)))
  }

  /** `trim_end` on decoded bytes. */
  function Trimmed(s: string): string {
    if s != [] && s[|s| - 1] == ' ' then Trimmed(s[..|s| - 1]) else s
  }

  lemma {:induction false} TrimmedTo(d: string, n: nat)
    requires n <= |d| && (n > 0 ==> d[n - 1] != ' ') && forall i :: n <= i < |d| ==> d[i] == ' '
    ensures Trimmed(d) == d[..n]
  {
    if n < |d| {
      TrimmedTo(d[..|d| - 1], n);
      assert d[..|d| - 1][..n] == d[..n];
    } else {
      assert d[..n] == d;
    }
  }

  /** The character a short-name byte shows as; bytes past ASCII show as U+FFFD. */
  function Shown(b: Byte): char { if b < 0x80 then b as char else '\U{FFFD}' }

  function Decoded(s: seq<Byte>): (r: string)
    ensures |r| == |s|
  {
    seq(|s|, i requires 0 <= i < |s| => Shown(s[i]))
  }

  /** `to_name`: the name a short name shows as. */
  function ToName(s: Sfn): string
  {
    var name := if s.name != [] && s.name[0] == 0x05 then s.name[0 := 0xE5] else s.name;
    var stem, ext := Trimmed(Decoded(name)), Trimmed(Decoded(s.ext));
    if ext == [] then stem else stem + "." + ext
  }

  lemma PaddedShown(s: string, n: nat)
    requires |s| <= n && forall i :: 0 <= i < |s| ==> IsSfnChar(s[i])
    ensures Trimmed(Decoded(Padded(BytesOf(s), n))) == s
  {
    var d := Decoded(Padded(BytesOf(s), n));
    forall i | 0 <= i < |s|
      ensures d[i] == s[i] && d[i] != ' '
    {
      SfnCharIsAscii(s[i]);
    }
    TrimmedTo(d, |s|);
    assert d[..|s|] == s;
  }

  lemma {:induction false} DotsAfterFirst(s: string)
    requires Dots(s) <= 1 && FirstDot(s) < |s|
    ensures '.' !in s[FirstDot(s) + 1..]
  {
    if s[0] == '.' {
      NoDots(s[1..]);
    } else {
      DotsAfterFirst(s[1..]);
    }
  }

  lemma {:induction false} NoDots(s: string)
    requires Dots(s) == 0
    ensures '.' !in s
  {
    if s == [] {
    } else {
      NoDots(s[1..]);
    }
  }

  /** A name stored as its own short name reads back as it was, exactly when it does not end in a
      dot (`.` and `..` aside). */
  lemma ShortRoundTrip(s: string)
    requires AsSfn(s).Some?
    ensures ToName(AsSfn(s).value) == s <==> s == "." || s == ".." || s[|s| - 1] != '.'
  {
    if s == "." || s == ".." {
      DotNames();
    } else {
      PureRoundTrip(s);
    }
  }

  /** A stem and an extension of short-name characters are valid as they are. */
  lemma PlainIsShort(name: string, ext: string)
    requires 0 < |name| <= NAME_LEN && |ext| <= EXT_LEN
    requires forall c :: c in name + ext ==> IsSfnChar(c)
    ensures AsSfn(name + "." + ext) == Some(Sfn(Padded(BytesOf(name), NAME_LEN), Padded(BytesOf(ext), EXT_LEN)))
  {
    var s := name + "." + ext;
    PlainScan(name, ext);
    assert IsSfnChar(name[0]) && s[0] == name[0];
    assert s[..|name|] == name && s[|name| + 1..] == ext;
  }

  lemma {:induction false} PlainScan(name: string, ext: string)
    requires forall c :: c in name + ext ==> IsSfnChar(c)
    ensures var s := name + "." + ext; FirstDot(s) == |name| && Dots(s) == 1 && AllLegal(s)
  {
    var s := name + "." + ext;
    if name == [] {
      assert s[1..] == ext;
      PlainTail(ext);
    } else {
      assert s[0] == name[0] && s[1..] == name[1..] + "." + ext;
      assert IsSfnChar(name[0]);
      PlainScan(name[1..], ext);
    }
  }

  lemma {:induction false} PlainTail(ext: string)
    requires forall c :: c in ext ==> IsSfnChar(c)
    ensures Dots(ext) == 0 && AllLegal(ext)
  {
    if ext == [] {
    } else {
      assert ext[0] in ext;
      PlainTail(ext[1..]);
    }
  }

  lemma DotNames()
    ensures ToName(CURRENT_DIR) == "." && ToName(PARENT_DIR) == ".."
  {
    TrimmedTo(Decoded(Padded([], EXT_LEN)), 0);
    var a := Decoded(CURRENT_DIR.name);
    assert a[0] == '.' && forall i :: 1 <= i < 8 ==> a[i] == ' ';
    TrimmedTo(a, 1);
    var b := Decoded(PARENT_DIR.name);
    assert b[0] == '.' && b[1] == '.' && forall i :: 2 <= i < 8 ==> b[i] == ' ';
    TrimmedTo(b, 2);
  }

  lemma PureRoundTrip(s: string)
    requires AsSfn(s).Some? && s != "." && s != ".."
    ensures ToName(AsSfn(s).value) == s <==> s[|s| - 1] != '.'
  {
    var k := FirstDot(s);
    var name, ext := s[..k], if k < |s| then s[k + 1..] else "";
    PureLegal(s);
    FirstDotAt(s);
    PureParts(s, name, ext);
    ShownAs(name, ext);
    if ext == [] && k < |s| {
      assert |name| < |s| && s[|s| - 1] == '.';
    }
  }

  /** A name of legal characters with at most one dot and parts that fit. */
  predicate Legal(s: string) {
    && Dots(s) <= 1 && 0 < FirstDot(s) <= NAME_LEN && |s| <= FirstDot(s) + 1 + EXT_LEN
    && forall i :: 0 <= i < |s| ==> s[i] == '.' || IsSfnChar(s[i])
  }

  lemma PureLegal(s: string)
    requires AsSfn(s).Some? && s != "." && s != ".."
    ensures Legal(s)
  {
    AllLegalAt(s);
  }

  lemma {:induction false} AllLegalFrom(s: string)
    requires forall i :: 0 <= i < |s| ==> s[i] == '.' || IsSfnChar(s[i])
    ensures AllLegal(s)
  {
    if s == [] {
    } else {
      AllLegalFrom(s[1..]);
    }
  }

  /** Which names are valid as they are. */
  lemma AsSfnExactly(s: string)
    ensures AsSfn(s).Some? <==> s == "." || s == ".." || Legal(s)
  {
    if s != "." && s != ".." {
      if AsSfn(s).Some? {
        PureLegal(s);
      }
      if Legal(s) {
        AllLegalFrom(s);
      }
    }
  }

  lemma PureParts(s: string, name: string, ext: string)
    requires Legal(s)
    requires name == s[..FirstDot(s)] && ext == if FirstDot(s) < |s| then s[FirstDot(s) + 1..] else ""
    ensures 0 < |name| <= NAME_LEN && |ext| <= EXT_LEN
    ensures forall i :: 0 <= i < |name| ==> IsSfnChar(name[i])
    ensures forall i :: 0 <= i < |ext| ==> IsSfnChar(ext[i])
    ensures s == if FirstDot(s) < |s| then name + "." + ext else name
    ensures ext != [] || FirstDot(s) == |s| ==> s[|s| - 1] != '.'
  {
    var k := FirstDot(s);
    FirstDotAt(s);
    SplitAt(s, k);
    if k < |s| {
      DotsAfterFirst(s);
    }
    forall i | 0 <= i < |name|
      ensures IsSfnChar(name[i])
    {
      assert name[i] == s[i];
    }
    forall i | 0 <= i < |ext|
      ensures IsSfnChar(ext[i]) && ext[i] != '.'
    {
      assert ext[i] in ext && ext[i] == s[k + 1 + i];
    }
  }

  lemma SplitAt(s: string, k: nat)
    requires k <= |s| && s != []
    ensures s == if k < |s| then s[..k] + [s[k]] + s[k + 1..] else s[..k]
    ensures k < |s| - 1 ==> s[|s| - 1] == s[k + 1..][|s| - k - 2]
    ensures k == |s| ==> s[|s| - 1] == s[..k][|s| - 1]
  {
  }

  /** A stem and an extension of legal characters show as `stem.ext`. */
  lemma ShownAs(name: string, ext: string)
    requires 0 < |name| <= NAME_LEN && |ext| <= EXT_LEN
    requires (forall i :: 0 <= i < |name| ==> IsSfnChar(name[i])) && forall i :: 0 <= i < |ext| ==> IsSfnChar(ext[i])
    ensures ToName(Sfn(Padded(BytesOf(name), NAME_LEN), Padded(BytesOf(ext), EXT_LEN))) == if ext == [] then name
      else name + "." + ext
  {
    SfnCharIsAscii(name[0]);
    PaddedShown(name, NAME_LEN);
    PaddedShown(ext, EXT_LEN);
  }

  // ---------------------------------------------------------------- generated aliases

  function Upper(c: char): char { if 'a' <= c <= 'z' then (c as int - 32) as char else c }

  /** `alias_chars`: ASCII only, no spaces or dots, upper case, anything else illegal as `_`. */
  function AliasChars(s: string): (r: string)
    ensures forall i :: 0 <= i < |r| ==> IsSfnChar(r[i])
  {
    if s == [] then []
    else
      var rest := AliasChars(s[1..]);
      var c := s[0];
      if c >= (128 as char) || c == ' ' || c == '.' then rest
      else [if IsSfnChar(Upper(c)) then Upper(c) else '_'] + rest
  }

  /** `alias_chars`, character by character. */
  method AliasOf(s: string) returns (r: string)
    ensures r == AliasChars(s)
  {
    r := [];
    for i := 0 to |s|
      invariant r + AliasChars(s[i..]) == AliasChars(s)
    {
      AliasStep(s, i, r);
      var c := s[i];
      if c < (128 as char) && c != ' ' && c != '.' {
        var up := ToUpper(c);
        r := r + [if IsSfnChar(up) then up else '_'];
      }
    }
  }

  /** The next character and the rest. */
  lemma AliasStep(s: string, i: nat, r: string)
    requires i < |s|
    ensures r + AliasChars(s[i..]) ==
            (if s[i] >= (128 as char) || s[i] == ' ' || s[i] == '.' then r
             else r + [if IsSfnChar(Upper(s[i])) then Upper(s[i]) else '_']) + AliasChars(s[i + 1..])
  {
    assert s[i..][1..] == s[i + 1..];
  }

  /** `to_ascii_uppercase`. */
  method ToUpper(c: char) returns (u: char)
    ensures u == Upper(c)
  {
    u := c;
    if 'a' <= c <= 'z' {
      u := (c as int - 'a' as int + 'A' as int) as char;
    }
  }

  lemma {:induction false} LastDotIs(s: string, k: nat)
    requires k <= |s| && (k < |s| ==> s[k] == '.') && (k == |s| ==> '.' !in s)
    requires forall i :: k < i < |s| ==> s[i] != '.'
    ensures LastDot(s) == k
  {
    if s == [] || s[|s| - 1] == '.' {
    } else {
      LastDotIs(s[..|s| - 1], if k == |s| then |s| - 1 else k);
    }
  }

  /** `sfn_stem_ext`: split at the last dot. */
  method StemAndExt(long: string) returns (stem: string, ext: seq<Byte>)
    ensures (stem, ext) == StemExt(long)
  {
    var i: nat := |long|;
    while i > 0 && long[i - 1] != '.'
      invariant i <= |long| && forall j :: i <= j < |long| ==> long[j] != '.'
    {
      i := i - 1;
    }
    var k: nat := if i == 0 then |long| else i - 1;
    LastDotIs(long, k);
    stem := AliasOf(long[..k]);
    var tail := AliasOf(if k < |long| then long[k + 1..] else "");
    ext := PadBytes(tail, EXT_LEN);
  }

  /** The first `n` characters as bytes, filled up with spaces. */
  method PadBytes(s: string, n: nat) returns (r: seq<Byte>)
    ensures r == Padded(BytesOf(s), n)
  {
    r := [];
    for i := 0 to n
      invariant r == Padded(BytesOf(s), n)[..i]
    {
      r := r + [if i < |s| then ByteOf(s[i]) else SPACE];
    }
  }

  function StemExt(long: string): (r: (string, seq<Byte>))
    ensures |r.1| == EXT_LEN && (forall i :: 0 <= i < |r.0| ==> IsSfnChar(r.0[i]))
    ensures forall i :: 0 <= i < EXT_LEN ==> r.1[i] == SPACE || 0x20 < r.1[i] < 0x80
  {
    var k := LastDot(long);
    var stem, ext := AliasChars(long[..k]), AliasChars(if k < |long| then long[k + 1..] else "");
    (stem, Padded(BytesOf(ext), EXT_LEN))
  }

  /** `compose_short_name`: the stem cut so that the tail survives, then padding. */
  function Compose(stem: string, tail: string, ext: seq<Byte>): (r: Sfn)
    requires |tail| <= NAME_LEN && |ext| == EXT_LEN
    ensures Shaped(r)
  {
    Sfn(Padded(BytesOf(stem[..Min(|stem|, NAME_LEN - |tail|)] + tail), NAME_LEN), ext)
  }

  /** `compose_short_name`: as much of the stem as leaves room for the tail. */
  method ComposeShortName(stem: string, tail: string, ext: seq<Byte>) returns (r: Sfn)
    requires |tail| <= NAME_LEN && |ext| == EXT_LEN
    ensures r == Compose(stem, tail, ext)
  {
    var head := stem;
    if |head| + |tail| > NAME_LEN {
      head := head[..NAME_LEN - |tail|];
    }
    var name := PadBytes(head + tail, NAME_LEN);
    r := Sfn(name, ext);
  }

  /** The tail shows in the name: with the same stem, different tails of one length make different
      short names. */
  lemma ComposeInjective(stem: string, t: string, u: string, ext: seq<Byte>)
    requires |t| == |u| <= NAME_LEN && |ext| == EXT_LEN && Compose(stem, t, ext) == Compose(stem, u, ext)
    requires (forall i :: 0 <= i < |t| ==> IsSfnChar(t[i])) && forall i :: 0 <= i < |u| ==> IsSfnChar(u[i])
    ensures t == u
  {
    var k := Min(|stem|, NAME_LEN - |t|);
    var x, y := Compose(stem, t, ext).name, Compose(stem, u, ext).name;
    forall i | 0 <= i < |t|
      ensures t[i] == u[i]
    {
      SfnCharIsAscii(t[i]);
      SfnCharIsAscii(u[i]);
      assert x[k + i] == ByteOf(t[i]) && y[k + i] == ByteOf(u[i]);
    }
  }

  function HexDigit(d: nat): (c: char)
    requires d < 16
    ensures IsSfnChar(c)
  {
    "0123456789ABCDEF"[d]
  }

  lemma HexDigitInjective(d: nat, e: nat)
    requires d < 16 && e < 16 && HexDigit(d) == HexDigit(e)
    ensures d == e
  {
    assert HexDigit(d) == if d < 10 then (48 + d) as char else (55 + d) as char;
    assert HexDigit(e) == if e < 10 then (48 + e) as char else (55 + e) as char;
  }

  /** The last `n` hexadecimal digits of `tag`. */
  function Hex(tag: nat, n: nat): (t: string)
    ensures |t| == n && forall i :: 0 <= i < n ==> IsSfnChar(t[i])
  {
    if n == 0 then [] else Hex(tag / 16, n - 1) + [HexDigit(tag % 16)]
  }

  function Pow16(n: nat): nat { if n == 0 then 1 else 16 * Pow16(n - 1) }

  lemma {:induction false} HexInjective(a: nat, b: nat, n: nat)
    requires a < Pow16(n) && b < Pow16(n) && Hex(a, n) == Hex(b, n)
    ensures a == b
  {
    if n == 0 {
    } else {
      HexParts(a, n);
      HexParts(b, n);
      HexDigitInjective(a % 16, b % 16);
      HexInjective(a / 16, b / 16, n - 1);
    }
  }

  lemma HexParts(a: nat, n: nat)
    requires 0 < n && a < Pow16(n)
    ensures Hex(a / 16, n - 1) == Hex(a, n)[..n - 1] && HexDigit(a % 16) == Hex(a, n)[n - 1]
    ensures a / 16 < Pow16(n - 1)
  {
  }

  /** The tail `~HHHH` of a 16-bit tag. */
  function HexTail(tag: nat): (t: string)
    requires tag < 0x10000
    ensures |t| == 5 && forall i :: 0 <= i < 5 ==> IsSfnChar(t[i])
  {
    ['~'] + Hex(tag, 4)
  }

  lemma HexTailInjective(a: nat, b: nat)
    requires a < 0x10000 && b < 0x10000 && HexTail(a) == HexTail(b)
    ensures a == b
  {
    assert HexTail(a)[1..] == Hex(a, 4) && HexTail(b)[1..] == Hex(b, 4);
    assert Pow16(2) == 256;
    assert Pow16(4) == 0x10000;
    HexInjective(a, b, 4);
  }

  /** The short name tried for tag `tag`. */
  function Hashed(stem: string, ext: seq<Byte>, tag: nat): Sfn
    requires tag < 0x10000 && |ext| == EXT_LEN
  {
    Compose(stem, HexTail(tag), ext)
  }

  ghost function HashedBelow(stem: string, ext: seq<Byte>, n: nat): (r: set<Sfn>)
    requires n <= 0x10000 && |ext| == EXT_LEN
  {
    if n == 0 then {} else HashedBelow(stem, ext, n - 1) + {Hashed(stem, ext, n - 1)}
  }

  lemma {:induction false} HashedBelowHas(stem: string, ext: seq<Byte>, n: nat, s: Sfn)
    requires n <= 0x10000 && |ext| == EXT_LEN && s in HashedBelow(stem, ext, n)
    ensures exists tag: nat :: tag < n && Hashed(stem, ext, tag) == s
  {
    if s != Hashed(stem, ext, n - 1) {
      HashedBelowHas(stem, ext, n - 1, s);
    }
  }

  /** The hashed candidates are pairwise distinct: as many as there are tags. */
  lemma {:induction false} HashedCount(stem: string, ext: seq<Byte>, n: nat)
    requires n <= 0x10000 && |ext| == EXT_LEN
    ensures |HashedBelow(stem, ext, n)| == n
  {
    if n == 0 {
    } else {
      HashedCount(stem, ext, n - 1);
      if Hashed(stem, ext, n - 1) in HashedBelow(stem, ext, n - 1) {
        HashedBelowHas(stem, ext, n - 1, Hashed(stem, ext, n - 1));
        var tag: nat :| tag < n - 1 && Hashed(stem, ext, tag) == Hashed(stem, ext, n - 1);
        ComposeInjective(stem, HexTail(tag), HexTail(n - 1), ext);
        HexTailInjective(tag, n - 1);
        assert false;
      }
    }
  }

  /** Pigeonhole: fewer taken names than tags leave a hashed candidate free. */
  lemma SomeHashedFree(stem: string, ext: seq<Byte>, taken: set<Sfn>)
    requires |ext| == EXT_LEN && forall tag: nat :: tag < 0x10000 ==> Hashed(stem, ext, tag) in taken
    ensures |taken| >= 0x10000
  {
    HashedCount(stem, ext, 0x10000);
    HashedWithin(stem, ext, 0x10000, taken);
    SubsetSize(HashedBelow(stem, ext, 0x10000), taken);
  }

  lemma {:induction false} HashedWithin(stem: string, ext: seq<Byte>, n: nat, taken: set<Sfn>)
    requires n <= 0x10000 && |ext| == EXT_LEN && forall tag: nat :: tag < 0x10000 ==> Hashed(stem, ext, tag) in taken
    ensures HashedBelow(stem, ext, n) <= taken
  {
    if n == 0 {
    } else {
      HashedWithin(stem, ext, n - 1, taken);
    }
  }

  /** One step of 32-bit FNV-1a, and the digest folded to 16 bits. */
  function FnvStep(h: bv32, b: Byte): bv32 { (h ^ (b as bv32)) * 0x0100_0193 }

  function Folded(h: bv32): (t: nat)
    ensures t < 0x10000
  {
    ((h ^ (h >> 16)) as nat) % 0x10000
  }

  /** FNV-1a from state `h` on. */
  function Fnv(bytes: seq<Byte>, h: bv32): bv32
    decreases |bytes|
  {
    if bytes == [] then h else Fnv(bytes[1..], FnvStep(h, bytes[0]))
  }

  /** Where the tagged candidates of a name start. */
  function NameTag(bytes: seq<Byte>): (t: nat)
    ensures t < 0x10000
  {
    Folded(Fnv(bytes, 0x811c_9dc5))
  }

  method Mix(h: bv32, b: Byte) returns (x: bv32)
    ensures x == FnvStep(h, b)
  {
    x := (h ^ (b as bv32)) * 0x0100_0193;
  }

  method Fold(h: bv32) returns (t: nat)
    ensures t == Folded(h)
  {
    var x := h ^ (h >> 16);
    t := (x as nat) % 0x1_0000;
  }

  /** `name_hash`. */
  method NameHash(bytes: seq<Byte>) returns (h: nat)
    ensures h == NameTag(bytes)
  {
    var x: bv32 := 0x811c_9dc5;
    for i := 0 to |bytes|
      invariant Fnv(bytes[i..], x) == Fnv(bytes, 0x811c_9dc5)
    {
      assert bytes[i..][1..] == bytes[i + 1..];
      x := Mix(x, bytes[i]);
    }
    h := Fold(x);
  }

  /** `sfn_taken`: scan the directory's short names. */
  method IsTaken(dir: seq<Sfn>, s: Sfn) returns (r: bool)
    ensures r <==> s in dir
  {
    for i := 0 to |dir|
      invariant s !in dir[..i]
    {
      if dir[i] == s {
        return true;
      }
    }
    r := false;
  }

  ghost function Names(dir: seq<Sfn>): set<Sfn> { set s | s in dir }

  /** Bytes of a short name as the driver writes it: never an end or deleted marker first. */
  predicate Writable(s: Sfn) {
    && Shaped(s) && s.name[0] != SPACE
    && (forall i :: 0 <= i < NAME_LEN ==> 0x20 <= s.name[i] < 0x80)
    && forall i :: 0 <= i < EXT_LEN ==> 0x20 <= s.ext[i] < 0x80
  }

  lemma ComposeWritable(stem: string, tail: string, ext: seq<Byte>)
    requires 0 < |tail| <= NAME_LEN && |ext| == EXT_LEN && (forall i :: 0 <= i < EXT_LEN ==> 0x20 <= ext[i] < 0x80)
    requires (forall i :: 0 <= i < |stem| ==> IsSfnChar(stem[i])) && forall i :: 0 <= i < |tail| ==> IsSfnChar(tail[i])
    ensures Writable(Compose(stem, tail, ext))
  {
    var full := stem[..Min(|stem|, NAME_LEN - |tail|)] + tail;
    forall i | 0 <= i < |full|
      ensures 0x20 < ByteOf(full[i]) < 0x80
    {
      assert IsSfnChar(full[i]);
      SfnCharIsAscii(full[i]);
    }
  }

  lemma AsSfnWritable(s: string)
    requires AsSfn(s).Some?
    ensures Writable(AsSfn(s).value)
  {
    if s != "." && s != ".." {
      AllLegalAt(s);
      FirstDotAt(s);
      forall i | 0 <= i < |s| && s[i] != '.'
        ensures 0x20 < ByteOf(s[i]) < 0x80
      {
        SfnCharIsAscii(s[i]);
      }
      if FirstDot(s) < |s| {
        DotsAfterFirst(s);
        var ext := s[FirstDot(s) + 1..];
        forall i | 0 <= i < |ext|
          ensures ext[i] != '.'
        {
          assert ext[i] in ext;
        }
      }
    }
  }

  const CANDIDATES: nat := 5 + 0x10000

  /** The names `gen_sfn` tries, in order: the name itself if it is a short name, `~1` to `~4`, then
      every hexadecimal tail once, from the name's own tag on. */
  function Candidate(long: string, tag: nat, k: nat): Option<Sfn>
    requires tag < 0x10000 && k < CANDIDATES
  {
    var (stem, ext) := StemExt(long);
    if k == 0 then AsSfn(long)
    else if k <= 4 then Some(Compose(stem, ['~', HexDigit(k)], ext))
    else Some(Hashed(stem, ext, Wrapped(tag, k - 5)))
  }

  /** The candidates before number `k` are taken. */
  ghost predicate TakenBefore(long: string, tag: nat, k: nat, dir: seq<Sfn>)
    requires tag < 0x10000 && k <= CANDIDATES
  {
    forall j: nat :: j < k && Candidate(long, tag, j).Some? ==> Candidate(long, tag, j).value in dir
  }

  /** `s` is the first candidate that is not taken. */
  ghost predicate FirstFree(long: string, tag: nat, dir: seq<Sfn>, s: Sfn)
    requires tag < 0x10000
  {
    s !in dir && exists k: nat :: k < CANDIDATES && Candidate(long, tag, k) == Some(s) && TakenBefore(long, tag, k, dir)
  }

  /** `gen_sfn`: the first candidate that is not taken. It fails exactly when all of them are taken,
      the name itself, the four numbered tails and every tagged one, and then at least 65536 names
      are. */
  method GenSfn(long: string, bytes: seq<Byte>, dir: seq<Sfn>) returns (r: Result<Sfn>)
    ensures r.Ok? ==> r.value !in dir && Writable(r.value)
    ensures r.Ok? ==> FirstFree(long, NameTag(bytes), dir, r.value)
    ensures r.Err? <==> TakenBefore(long, NameTag(bytes), CANDIDATES, dir)
    ensures r.Err? ==> r.error == StorageFull && |Names(dir)| >= 0x10000
  {
    var pure := AsSfn(long);
    ghost var t := NameTag(bytes);
    if pure.Some? {
      AsSfnWritable(long);
      var taken := IsTaken(dir, pure.value);
      if !taken {
        assert Candidate(long, t, 0) == Some(pure.value) && TakenBefore(long, t, 0, dir);
        return Ok(pure.value);
      }
    }
    var stem, ext := StemAndExt(long);
    for n := 1 to 5
      invariant TakenBefore(long, t, n, dir)
    {
      var tail := ['~', HexDigit(n)];
      ComposeWritable(stem, tail, ext);
      var sfn := ComposeShortName(stem, tail, ext);
      var taken := IsTaken(dir, sfn);
      assert Candidate(long, t, n) == Some(sfn);
      if !taken {
        return Ok(sfn);
      }
    }
    r := GenHashed(long, stem, ext, bytes, dir);
  }

  /** The tagged candidates, from the name's hash on, wrapping around. */
  method GenHashed(ghost long: string, stem: string, ext: seq<Byte>, bytes: seq<Byte>, dir: seq<Sfn>)
      returns (r: Result<Sfn>)
    requires (stem, ext) == StemExt(long) && TakenBefore(long, NameTag(bytes), 5, dir)
    ensures r.Ok? ==> r.value !in dir && Writable(r.value) && FirstFree(long, NameTag(bytes), dir, r.value)
    ensures r.Err? <==> TakenBefore(long, NameTag(bytes), CANDIDATES, dir)
    ensures r.Err? ==> r.error == StorageFull && |Names(dir)| >= 0x10000
  {
    var tag := NameHash(bytes);
    ghost var start := tag;
    for i := 0 to 0x10000
      invariant tag == Wrapped(start, i)
      invariant AllTried(stem, ext, start, i, dir)
    {
      ComposeWritable(stem, HexTail(tag), ext);
      var sfn := ComposeShortName(stem, HexTail(tag), ext);
      var taken := IsTaken(dir, sfn);
      if !taken {
        TriedSoFar(long, stem, ext, start, i, dir);
        return Ok(sfn);
      }
      TriedMore(stem, ext, start, i, dir);
      tag := if tag == 0xFFFF then 0 else tag + 1;
    }
    TriedSoFar(long, stem, ext, start, 0x10000, dir);
    TriedEvery(stem, ext, start, dir);
    SomeHashedFree(stem, ext, Names(dir));
    r := Err(StorageFull);
  }

  lemma TriedSoFar(long: string, stem: string, ext: seq<Byte>, tag: nat, i: nat, dir: seq<Sfn>)
    requires tag < 0x10000 && i <= 0x10000 && (stem, ext) == StemExt(long) && TakenBefore(long, tag, 5, dir) &&
      AllTried(stem, ext, tag, i, dir)
    ensures TakenBefore(long, tag, 5 + i, dir)
    ensures i < 0x10000 ==> Candidate(long, tag, 5 + i) == Some(Hashed(stem, ext, Wrapped(tag, i)))
  {
    forall j: nat | j < 5 + i && Candidate(long, tag, j).Some?
      ensures Candidate(long, tag, j).value in dir
    {
      if j >= 5 {
        assert Tried(stem, ext, tag, j - 5) in dir;
      }
    }
  }

  /** A 16-bit tag stepped on `j` times with wrap-around. */
  function Wrapped(start: nat, j: nat): (t: nat)
    requires start < 0x10000 && j <= 0x10000
    ensures t < 0x10000
  {
    if start + j < 0x10000 then start + j else start + j - 0x10000
  }

  ghost function Tried(stem: string, ext: seq<Byte>, start: nat, j: nat): Sfn
    requires start < 0x10000 && j <= 0x10000 && |ext| == EXT_LEN
  {
    Hashed(stem, ext, Wrapped(start, j))
  }

  /** The first `i` hashed candidates are all taken. */
  ghost predicate AllTried(stem: string, ext: seq<Byte>, start: nat, i: nat, dir: seq<Sfn>) {
    |ext| == EXT_LEN && start < 0x10000 && i <= 0x10000 && forall j: nat :: j < i ==> Tried(stem, ext, start, j) in dir
  }

  lemma TriedMore(stem: string, ext: seq<Byte>, start: nat, i: nat, dir: seq<Sfn>)
    requires AllTried(stem, ext, start, i, dir) && i < 0x10000 && Hashed(stem, ext, Wrapped(start, i)) in dir
    ensures AllTried(stem, ext, start, i + 1, dir)
  {
  }

  /** Wrapping around once tries every tag. */
  lemma TriedEvery(stem: string, ext: seq<Byte>, start: nat, dir: seq<Sfn>)
    requires AllTried(stem, ext, start, 0x10000, dir)
    ensures forall t: nat :: t < 0x10000 ==> Hashed(stem, ext, t) in Names(dir)
  {
    forall t: nat | t < 0x10000
      ensures Hashed(stem, ext, t) in Names(dir)
    {
      var j := if t >= start then t - start else t + 0x10000 - start;
      assert Wrapped(start, j) == t && Tried(stem, ext, start, j) in dir;
    }
  }

  ghost predicate AllDistinct(dir: seq<Sfn>) {
    forall i, j :: 0 <= i < j < |dir| ==> dir[i] != dir[j]
  }

  /** Inserting entries under generated names, anywhere in the directory, keeps short names
      distinct. */
  lemma {:induction false} InsertsKeepDistinct(dirs: seq<seq<Sfn>>, at: seq<nat>, made: seq<Sfn>)
    requires |dirs| == |made| + 1 && |at| == |made| && AllDistinct(dirs[0])
    requires forall i :: 0 <= i < |made| ==>
      at[i] <= |dirs[i]| && made[i] !in dirs[i] &&
      dirs[i + 1] == dirs[i][..at[i]] + [made[i]] + dirs[i][at[i]..]
    ensures AllDistinct(dirs[|made|])
  {
    if made == [] {
    } else {
      var n := |made| - 1;
      InsertsKeepDistinct(dirs[..n + 1], at[..n], made[..n]);
    }
  }
}
