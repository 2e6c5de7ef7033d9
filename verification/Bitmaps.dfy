/** The exFAT allocation bitmap as bytes (src/exfat/bitmap.rs): one bit per cluster, cluster 2
    first, least significant bit first. */
module Bitmaps {
  import opened Basics

  /** Bit `k` of `b`: `(b >> k) & 1`. */
  predicate BitAt(b: nat, k: nat) {
    if k == 0 then b % 2 == 1 else BitAt(b / 2, k - 1)
  }

  /** The least significant bit comes first. */
  lemma {:induction false} BitAtIs(b: nat, k: nat, n: nat)
    requires k < n
    ensures BitAt(b, k) <==> ToBits(b, n)[k]
  {
    if k == 0 {
    } else {
      BitAtIs(b / 2, k - 1, n - 1);
      assert ToBits(b, n)[k] == ToBits(b / 2, n - 1)[k - 1];
    }
  }

  /** `b | (1 << k)` and `b & !(1 << k)`. */
  function WithBit(b: nat, k: nat, on: bool): nat {
    if k == 0 then (b / 2) * 2 + (if on then 1 else 0) else WithBit(b / 2, k - 1, on) * 2 + b % 2
  }

  function Pow2(n: nat): (p: nat)
    ensures p > 0
  {
    if n == 0 then 1 else 2 * Pow2(n - 1)
  }

  lemma {:induction false} WithBitFits(b: nat, k: nat, on: bool, n: nat)
    requires b < Pow2(n) && k < n
    ensures WithBit(b, k, on) < Pow2(n)
  {
    if k == 0 {
    } else {
      assert b / 2 < Pow2(n - 1);
      WithBitFits(b / 2, k - 1, on, n - 1);
    }
  }

  lemma {:induction false} WithBitAt(b: nat, k: nat, on: bool, j: nat)
    ensures BitAt(WithBit(b, k, on), j) == if j == k then on else BitAt(b, j)
  {
    var r := WithBit(b, k, on);
    assert r / 2 == if k == 0 then b / 2 else WithBit(b / 2, k - 1, on);
    if k == 0 || j == 0 {
    } else {
      WithBitAt(b / 2, k - 1, on, j - 1);
    }
  }

  /** A byte of ones has every bit set: the scan may skip it. */
  lemma {:induction false} FullByte(k: nat)
    requires k < 8
    ensures BitAt(0xFF, k)
  {
    Ones(8, k);
    assert Pow2(8) == 256;
  }

  lemma {:induction false} Ones(n: nat, k: nat)
    requires k < n
    ensures BitAt(Pow2(n) - 1, k)
  {
    if k == 0 {
    } else {
      assert (Pow2(n) - 1) / 2 == Pow2(n - 1) - 1;
      Ones(n - 1, k - 1);
    }
  }

  function ByteOf(cluster: nat): nat
    requires cluster >= 2
  {
    (cluster - 2) / 8
  }

  function BitOf(cluster: nat): nat
    requires cluster >= 2
  {
    (cluster - 2) % 8
  }

  /** The bitmap covers cluster `c`. */
  predicate Covers(bitmap: seq<Byte>, c: nat) { c >= 2 && ByteOf(c) < |bitmap| }

  predicate Marked(bitmap: seq<Byte>, c: nat)
    requires Covers(bitmap, c)
  {
    BitAt(bitmap[ByteOf(c)], BitOf(c))
  }

  /** The bitmap after writing the bit of `c`. */
  function WithMark(bitmap: seq<Byte>, c: nat, on: bool): (r: seq<Byte>)
    requires Covers(bitmap, c)
    ensures |r| == |bitmap|
  {
    assert Pow2(8) == 256 by { assert Pow2(4) == 16; }
    WithBitFits(bitmap[ByteOf(c)], BitOf(c), on, 8);
    bitmap[ByteOf(c) := WithBit(bitmap[ByteOf(c)], BitOf(c), on)]
  }

  /** The bit of `c` is now `on`, and every other bit as it was. */
  ghost predicate OneChanged(before: seq<Byte>, after: seq<Byte>, c: nat, on: bool) {
    && |after| == |before|
    && forall d: nat {:trigger Covers(after, d)} {:trigger Covers(before, d)} :: Covers(after, d) ==>
         Covers(before, d) && Marked(after, d) == if d == c then on else Marked(before, d)
  }

  lemma WithMarkAt(bitmap: seq<Byte>, c: nat, on: bool)
    requires Covers(bitmap, c)
    ensures OneChanged(bitmap, WithMark(bitmap, c, on), c, on)
  {
    var after := WithMark(bitmap, c, on);
    forall d: nat | Covers(after, d)
      ensures Covers(bitmap, d) && Marked(after, d) == if d == c then on else Marked(bitmap, d)
    {
      WithBitAt(bitmap[ByteOf(c)], BitOf(c), on, BitOf(d));
    }
  }

  /** The `k`th bit of byte `i` belongs to cluster `2 + 8 * i + k`. */
  lemma ClusterOf(i: nat, k: nat)
    requires k < 8
    ensures ByteOf(2 + 8 * i + k) == i && BitOf(2 + 8 * i + k) == k
  {
  }

  const WINDOW: nat := 512

  /** The bitmap has a bit for each of `count` clusters; mounting refuses a volume whose bitmap is
      shorter (src/exfat/mod.rs, line 260). */
  predicate Sized(bitmap: seq<Byte>, count: nat) { (count + 7) / 8 <= |bitmap| }

  /** `bitmap_scan_bytes`. The bound by the bitmap's own length never bites on a mounted volume. */
  function ScanBytes(bitmap: seq<Byte>, count: nat): nat { Min((count + 7) / 8, |bitmap|) }

  predicate InHeap(c: nat, count: nat) { 2 <= c <= count + 1 }

  lemma HeapCovered(bitmap: seq<Byte>, count: nat, c: nat)
    requires Sized(bitmap, count) && InHeap(c, count)
    ensures Covers(bitmap, c) && ByteOf(c) < (count + 7) / 8
  {
  }

  /** Every cluster of the heap below `c` is marked. */
  ghost predicate FullBelow(bitmap: seq<Byte>, count: nat, c: nat)
    requires Sized(bitmap, count)
  {
    forall d: nat {:trigger Covers(bitmap, d)} :: Covers(bitmap, d) && InHeap(d, count) && d < c ==> Marked(bitmap, d)
  }

  /** Clusters `s .. s + n` are in the heap and clear. */
  ghost predicate ClearRun(bitmap: seq<Byte>, count: nat, s: nat, n: nat)
    requires Sized(bitmap, count)
  {
    2 <= s && s + n <= count + 2 &&
    forall d: nat {:trigger Covers(bitmap, d)} :: s <= d < s + n ==> Covers(bitmap, d) && !Marked(bitmap, d)
  }

  /** The first clear bit of a byte; 8 when there is none. */
  method ScanByte(b: Byte) returns (k: nat)
    ensures k <= 8 && (forall j: nat :: j < k ==> BitAt(b, j)) && (k < 8 ==> !BitAt(b, k))
  {
    k := 0;
    if b == 0xFF {
      forall j: nat | j < 8
        ensures BitAt(b, j)
      {
        FullByte(j);
      }
      return 8;
    }
    while k < 8 && BitAt(b, k)
      invariant k <= 8 && forall j: nat :: j < k ==> BitAt(b, j)
    {
      k := k + 1;
    }
  }

  /** The lowest clear cluster of the heap, scanned in bounded windows. */
  method FindFreeCluster(bitmap: seq<Byte>, count: nat) returns (r: Option<nat>)
    requires Sized(bitmap, count)
    ensures r.None? ==> FullBelow(bitmap, count, count + 2)
    ensures r.Some? ==>
      InHeap(r.value, count) && Covers(bitmap, r.value) && !Marked(bitmap, r.value) &&
      FullBelow(bitmap, count, r.value)
  {
    var scanBytes := ScanBytes(bitmap, count);
    var byteIdx := 0;
    while byteIdx < scanBytes
      invariant byteIdx <= scanBytes
      invariant FullBelow(bitmap, count, 2 + 8 * byteIdx)
    {
      var chunk := Min(scanBytes - byteIdx, WINDOW);
      var window := bitmap[byteIdx..byteIdx + chunk];
      for i := 0 to chunk
        invariant FullBelow(bitmap, count, 2 + 8 * (byteIdx + i))
      {
        var k := ScanByte(window[i]);
        FullAcross(bitmap, count, byteIdx + i, k);
        if k < 8 {
          var cluster := 2 + (byteIdx + i) * 8 + k;
          ClusterOf(byteIdx + i, k);
          return if cluster > count + 1 then None else Some(cluster);
        }
      }
      byteIdx := byteIdx + chunk;
    }
    r := None;
  }

  /** Marked bits at the front of byte `i` carry the scanned prefix forward. */
  lemma FullAcross(bitmap: seq<Byte>, count: nat, i: nat, k: nat)
    requires Sized(bitmap, count) && i < |bitmap| && k <= 8
    requires FullBelow(bitmap, count, 2 + 8 * i) && forall j: nat :: j < k ==> BitAt(bitmap[i], j)
    ensures FullBelow(bitmap, count, 2 + 8 * i + k)
  {
    forall d: nat | Covers(bitmap, d) && InHeap(d, count) && d < 2 + 8 * i + k
      ensures Marked(bitmap, d)
    {
      if d >= 2 + 8 * i {
        ClusterOf(i, d - 2 - 8 * i);
      }
    }
  }

  /** A run scan that has looked at every cluster below `p`: the pending run, if any, ends just
      below `p` and starts after a marked cluster, and no run of `n` lies wholly below `p`. */
  ghost predicate Scanned(bitmap: seq<Byte>, count: nat, n: nat, p: nat, start: Option<nat>, len: nat)
    requires Sized(bitmap, count)
  {
    && 2 <= p <= count + 2
    && (forall s :: 2 <= s && s + n <= p ==> !ClearRun(bitmap, count, s, n))
    && match start
       case None => p == 2 || (Covers(bitmap, p - 1) && Marked(bitmap, p - 1))
       case Some(s) =>
         && 2 <= s && s + len == p && 0 < len < n && ClearRun(bitmap, count, s, len)
         && (s == 2 || (Covers(bitmap, s - 1) && Marked(bitmap, s - 1)))
  }

  /** A clear cluster lengthens the pending run, which may complete it. */
  lemma ScanClear(bitmap: seq<Byte>, count: nat, n: nat, p: nat, start: Option<nat>, len: nat)
    requires Sized(bitmap, count) && n > 0 && Scanned(bitmap, count, n, p, start, len)
    requires InHeap(p, count) && Covers(bitmap, p) && !Marked(bitmap, p)
    ensures var s, len' := if start.None? then p else start.value, if start.None? then 1 else len + 1;
      if len' == n then ClearRun(bitmap, count, s, n) && forall s' :: 2 <= s' < s ==> !ClearRun(bitmap, count, s', n)
      else Scanned(bitmap, count, n, p + 1, Some(s), len')
  {
    var s, len' := if start.None? then p else start.value, if start.None? then 1 else len + 1;
    forall d: nat | s <= d < s + len'
      ensures Covers(bitmap, d) && !Marked(bitmap, d)
    {
      if d != p {
        assert start.Some? && s <= d < s + len;
        HeapCovered(bitmap, count, d);
      }
    }
    forall s' | 2 <= s' < s && s' + n <= p + 1
      ensures !ClearRun(bitmap, count, s', n)
    {
      if s' + n == p + 1 {
        assert s' <= s - 1 < s' + n && Covers(bitmap, s - 1);
      }
    }
  }

  /** A marked cluster drops the pending run. */
  lemma ScanMarked(bitmap: seq<Byte>, count: nat, n: nat, p: nat, start: Option<nat>, len: nat)
    requires Sized(bitmap, count) && n > 0 && Scanned(bitmap, count, n, p, start, len)
    requires InHeap(p, count) && Covers(bitmap, p) && Marked(bitmap, p)
    ensures Scanned(bitmap, count, n, p + 1, None, 0)
  {
  }

  /** How a run scan stands after a byte: still going, out of clusters, or a run found. */
  datatype Scan = Going(start: Option<nat>, len: nat) | Ended | Found(first: nat)

  ghost predicate ScanIs(bitmap: seq<Byte>, count: nat, n: nat, p: nat, scan: Scan)
    requires Sized(bitmap, count)
  {
    match scan
    case Going(start, len) => Scanned(bitmap, count, n, Min(p, count + 2), start, len)
    case Ended => forall s: nat :: !ClearRun(bitmap, count, s, n)
    case Found(s) => ClearRun(bitmap, count, s, n) && forall s' :: 0 <= s' < s ==> !ClearRun(bitmap, count, s', n)
  }

  /** One cluster of a run scan. */
  method ScanBit(ghost bitmap: seq<Byte>, count: nat, n: nat, cluster: nat, clear: bool, start: Option<nat>, len: nat)
      returns (scan: Scan)
    requires Sized(bitmap, count) && n > 0 && cluster >= 2 && Covers(bitmap, cluster) &&
      clear == !Marked(bitmap, cluster)
    requires Scanned(bitmap, count, n, Min(cluster, count + 2), start, len)
    ensures ScanIs(bitmap, count, n, cluster + 1, scan)
  {
    if cluster > count + 1 {
      return Ended;
    }
    if clear {
      ScanClear(bitmap, count, n, cluster, start, len);
      var s := if start.None? then cluster else start.value;
      var runLen := if start.None? then 1 else len + 1;
      return if runLen == n then Found(s) else Going(Some(s), runLen);
    }
    ScanMarked(bitmap, count, n, cluster, start, len);
    scan := Going(None, 0);
  }

  /** The eight clusters of byte `i`. */
  method ScanRunByte(ghost bitmap: seq<Byte>, count: nat, n: nat, i: nat, b: Byte, start: Option<nat>, len: nat)
      returns (scan: Scan)
    requires Sized(bitmap, count) && n > 0 && i < |bitmap| && b == bitmap[i]
    requires Scanned(bitmap, count, n, Min(2 + 8 * i, count + 2), start, len)
    ensures ScanIs(bitmap, count, n, 2 + 8 * (i + 1), scan)
  {
    scan := Going(start, len);
    for bit := 0 to 8
      invariant scan.Going? && ScanIs(bitmap, count, n, 2 + 8 * i + bit, scan)
    {
      ClusterOf(i, bit);
      scan := ScanBit(bitmap, count, n, 2 + 8 * i + bit, !BitAt(b, bit), scan.start, scan.len);
      if !scan.Going? {
        return;
      }
    }
  }

  /** The bytes of one window, which starts at byte `at`. */
  method ScanWindow(ghost bitmap: seq<Byte>, count: nat, n: nat, at: nat, window: seq<Byte>, start: Option<nat>,
      len: nat) returns (scan: Scan)
    requires Sized(bitmap, count) && n > 0 && at + |window| <= |bitmap| && window == bitmap[at..at + |window|]
    requires Scanned(bitmap, count, n, Min(2 + 8 * at, count + 2), start, len)
    ensures ScanIs(bitmap, count, n, 2 + 8 * (at + |window|), scan)
  {
    scan := Going(start, len);
    for i := at to at + |window|
      invariant scan.Going? && ScanIs(bitmap, count, n, 2 + 8 * i, scan)
    {
      scan := ScanRunByte(bitmap, count, n, i, window[i - at], scan.start, scan.len);
      if !scan.Going? {
        return;
      }
    }
  }

  /** A scan past the last cluster without a run has seen them all. */
  lemma ScannedOut(bitmap: seq<Byte>, count: nat, n: nat, p: nat, scan: Scan)
    requires Sized(bitmap, count) && scan.Going? && ScanIs(bitmap, count, n, p, scan) && p >= count + 2
    ensures forall s: nat :: !ClearRun(bitmap, count, s, n)
  {
  }

  /** The leftmost run of `n` clear clusters, across byte and window edges. */
  method FindFreeContiguousRun(bitmap: seq<Byte>, count: nat, n: nat) returns (r: Option<nat>)
    requires Sized(bitmap, count)
    ensures n == 0 ==> r == None
    ensures r.None? && n > 0 ==> forall s: nat :: !ClearRun(bitmap, count, s, n)
    ensures r.Some? ==> ClearRun(bitmap, count, r.value, n) && forall s :: 0 <= s < r.value ==>
      !ClearRun(bitmap, count, s, n)
  {
    if n == 0 {
      return None;
    }
    var scanBytes := ScanBytes(bitmap, count);
    var scan := Going(None, 0);
    var byteIdx := 0;
    while byteIdx < scanBytes
      invariant byteIdx <= scanBytes
      invariant scan.Going? && ScanIs(bitmap, count, n, 2 + 8 * byteIdx, scan)
    {
      var chunk := Min(scanBytes - byteIdx, WINDOW);
      scan := ScanWindow(bitmap, count, n, byteIdx, bitmap[byteIdx..byteIdx + chunk], scan.start, scan.len);
      if !scan.Going? {
        return if scan.Found? then Some(scan.first) else None;
      }
      byteIdx := byteIdx + chunk;
    }
    ScannedOut(bitmap, count, n, 2 + 8 * byteIdx, scan);
    r := None;
  }
}
