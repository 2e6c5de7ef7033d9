/** Directories as blocks of slots: entries of several slots, reusable slots, slots that are
    neither. What replacing blocks does to the slots and to what they list, whatever the slots
    hold. */
module SlotBlocks {
  import opened Basics

  /** Some slots in a row; `entry` is what they list, if anything. */
  datatype Block<S, E> = Block(slots: seq<S>, entry: Option<E>)

  /** An entry at its place. */
  datatype Placed<E> = Placed(entry: E, first: nat, len: nat)

  /** A block is one reusable slot that lists nothing, or holds no reusable slot. */
  ghost predicate Whole<S, E>(b: Block<S, E>, free: S -> bool) {
    b.slots != [] && (IsDead(b, free) || forall i :: 0 <= i < |b.slots| ==> !free(b.slots[i]))
  }

  ghost predicate IsDead<S, E>(b: Block<S, E>, free: S -> bool) {
    b.entry.None? && |b.slots| == 1 && free(b.slots[0])
  }

  ghost predicate AllWhole<S, E>(bs: seq<Block<S, E>>, free: S -> bool) {
    forall i :: 0 <= i < |bs| ==> Whole(bs[i], free)
  }

  function Print<S, E>(bs: seq<Block<S, E>>): seq<S> {
    if bs == [] then [] else bs[0].slots + Print(bs[1..])
  }

  function ListOne<S, E>(b: Block<S, E>, at: nat): seq<Placed<E>> {
    if b.entry.Some? then [Placed(b.entry.value, at, |b.slots|)] else []
  }

  /** What the blocks list when the first one starts at `at`. */
  function Listing<S, E>(bs: seq<Block<S, E>>, at: nat): seq<Placed<E>> {
    if bs == [] then [] else ListOne(bs[0], at) + Listing(bs[1..], at + |bs[0].slots|)
  }

  ghost function ListingSet<S, E>(bs: seq<Block<S, E>>): set<Placed<E>> { set e | e in Listing(bs, 0) }

  lemma {:induction false} PrintConcat<S, E>(a: seq<Block<S, E>>, b: seq<Block<S, E>>)
    ensures Print(a + b) == Print(a) + Print(b)
  {
    if a == [] {
      assert a + b == b;
    } else {
      PrintConcat(a[1..], b);
      assert (a + b)[1..] == a[1..] + b;
      Assoc(a[0].slots, Print(a[1..]), Print(b));
    }
  }

  lemma Assoc<S>(x: seq<S>, y: seq<S>, z: seq<S>)
    ensures x + y + z == x + (y + z)
  {
  }

  lemma Regroup<S>(x: seq<S>, y: seq<S>, z: seq<S>, left: seq<S>, right: seq<S>, all: seq<S>)
    requires left == x + y && right == y + z && all == x + right
    ensures all == left + z
  {
  }

  /** The `n` elements from `at` on. */
  function Stretch<S>(s: seq<S>, at: nat, n: nat): (r: seq<S>)
    requires at + n <= |s|
    ensures |r| == n
  {
    s[at..at + n]
  }

  lemma StretchPrefix<S>(s: seq<S>, prefix: seq<S>, at: nat, n: nat)
    requires prefix <= s && at + n <= |prefix|
    ensures Stretch(s, at, n) == Stretch(prefix, at, n)
  {
  }

  lemma SpliceMid<S>(was: seq<S>, now: seq<S>, x: seq<S>, d: seq<S>, m: seq<S>, z: seq<S>)
    requires was == x + d + z && now == x + m + z && |d| == |m|
    ensures |x| + |m| <= |was| && now == Splice(was, |x|, m) && Stretch(was, |x|, |d|) == d
  {
  }

  lemma {:induction false} ListingConcat<S, E>(all: seq<Block<S, E>>, a: seq<Block<S, E>>, b: seq<Block<S, E>>, at: nat,
      end: nat)
    requires all == a + b && end == at + |Print(a)|
    ensures Listing(all, at) == Listing(a, at) + Listing(b, end)
  {
    if a == [] {
      assert all == b;
    } else {
      var rest, next := a[1..], at + |a[0].slots|;
      ListingConcat(all[1..], rest, b, next, end);
      Regroup(ListOne(a[0], at), Listing(rest, next), Listing(b, end), Listing(a, at), Listing(all[1..], next),
        Listing(all, at));
    }
  }

  lemma One<S, E>(b: Block<S, E>, at: nat)
    ensures Print([b]) == b.slots && Listing([b], at) == ListOne(b, at)
  {
    assert [b][1..] == [];
  }

  lemma PrintThree<S, E>(all: seq<Block<S, E>>, a: seq<Block<S, E>>, m: seq<Block<S, E>>, b: seq<Block<S, E>>)
    requires all == a + m + b
    ensures Print(all) == Print(a) + Print(m) + Print(b)
  {
    PrintConcat(a, m);
    PrintConcat(a + m, b);
  }

  lemma ListThree<S, E>(all: seq<Block<S, E>>, a: seq<Block<S, E>>, m: seq<Block<S, E>>, b: seq<Block<S, E>>, at: nat,
      end: nat)
    requires all == a + m + b && at == |Print(a)| && end == at + |Print(m)|
    ensures Listing(all, 0) == Listing(a, 0) + Listing(m, at) + Listing(b, end)
  {
    PrintConcat(a, m);
    ListingConcat(a + m, a, m, 0, at);
    ListingConcat(all, a + m, b, 0, end);
  }

  lemma TwoParts<S, E>(all: seq<Block<S, E>>, a: seq<Block<S, E>>, b: seq<Block<S, E>>)
    requires all == a + b
    ensures Print(all) == Print(a) + Print(b)
    ensures Listing(all, 0) == Listing(a, 0) + Listing(b, |Print(a)|)
  {
    PrintConcat(a, b);
    ListingConcat(all, a, b, 0, |Print(a)|);
  }

  /** A free slot among whole blocks is a dead block. */
  lemma {:induction false} FreeIsDead<S, E>(bs: seq<Block<S, E>>, pos: nat, free: S -> bool) returns (k: nat)
    requires AllWhole(bs, free) && pos < |Print(bs)| && free(Print(bs)[pos])
    ensures k < |bs| && IsDead(bs[k], free) && |Print(bs[..k])| == pos
  {
    if pos < |bs[0].slots| {
      assert free(bs[0].slots[pos]);
      k := 0;
    } else {
      var j := FreeIsDead(bs[1..], pos - |bs[0].slots|, free);
      k := j + 1;
      assert bs[..k] == [bs[0]] + bs[1..][..j];
      One(bs[0], 0);
      PrintConcat([bs[0]], bs[1..][..j]);
    }
  }

  /** `n` dead blocks from block `k` on. */
  ghost predicate DeadRun<S, E>(bs: seq<Block<S, E>>, k: nat, n: nat, free: S -> bool) {
    k + n <= |bs| && forall i :: k <= i < k + n ==> IsDead(bs[i], free)
  }

  lemma {:induction false} PrintAtLeast<S, E>(bs: seq<Block<S, E>>, free: S -> bool)
    requires AllWhole(bs, free)
    ensures |bs| <= |Print(bs)|
  {
    if bs == [] {
    } else {
      PrintAtLeast(bs[1..], free);
    }
  }

  lemma PrintGrows<S, E>(bs: seq<Block<S, E>>, a: nat, b: nat, free: S -> bool)
    requires AllWhole(bs, free) && a <= b <= |bs|
    ensures |Print(bs[..a])| + (b - a) <= |Print(bs[..b])|
  {
    assert bs[..b] == bs[..a] + bs[a..b];
    PrintConcat(bs[..a], bs[a..b]);
    PrintAtLeast(bs[a..b], free);
  }

  /** The block after a dead one starts one slot further. */
  lemma NextBlock<S, E>(bs: seq<Block<S, E>>, k: nat, j: nat, pos: nat, free: S -> bool)
    requires AllWhole(bs, free) && k < |bs| && IsDead(bs[k], free) && j <= |bs|
    requires |Print(bs[..k])| == pos && |Print(bs[..j])| == pos + 1
    ensures j == k + 1
  {
    assert bs[..k + 1] == bs[..k] + [bs[k]];
    One(bs[k], 0);
    PrintConcat(bs[..k], [bs[k]]);
    if j <= k {
      PrintGrows(bs, j, k, free);
    } else {
      PrintGrows(bs, k + 1, j, free);
    }
  }

  /** Free slots in a row are dead blocks in a row. */
  lemma {:induction false} FreeRunIsDead<S, E>(bs: seq<Block<S, E>>, pos: nat, n: nat, free: S -> bool) returns (k: nat)
    requires AllWhole(bs, free) && pos + n <= |Print(bs)| && n > 0
    requires forall i :: pos <= i < pos + n ==> free(Print(bs)[i])
    ensures DeadRun(bs, k, n, free) && |Print(bs[..k])| == pos
    decreases n
  {
    k := FreeIsDead(bs, pos, free);
    if n <= 1 {
    } else {
      var j := FreeRunIsDead(bs, pos + 1, n - 1, free);
      NextBlock(bs, k, j, pos, free);
    }
  }

  /** Blocks of one slot that list nothing. */
  ghost predicate Blank<S, E>(bs: seq<Block<S, E>>) {
    forall i :: 0 <= i < |bs| ==> |bs[i].slots| == 1 && bs[i].entry.None?
  }

  lemma {:induction false} BlankPrint<S, E>(bs: seq<Block<S, E>>, at: nat)
    requires Blank(bs)
    ensures |Print(bs)| == |bs| && Listing(bs, at) == []
  {
    if bs == [] {
    } else {
      BlankPrint(bs[1..], at + 1);
    }
  }

  /** Every listed entry starts inside the blocks. */
  lemma {:induction false} ListedInside<S, E>(bs: seq<Block<S, E>>, at: nat, e: Placed<E>, free: S -> bool)
    requires AllWhole(bs, free) && e in Listing(bs, at)
    ensures at <= e.first < at + |Print(bs)|
  {
    if e !in ListOne(bs[0], at) {
      ListedInside(bs[1..], at + |bs[0].slots|, e, free);
    }
  }

  // ---------------------------------------------------------------- replacing

  /** Swapping the middle blocks for others of as many slots. */
  lemma SwapMid<S, E>(was: seq<Block<S, E>>, now: seq<Block<S, E>>, a: seq<Block<S, E>>, d: seq<Block<S, E>>,
      m: seq<Block<S, E>>, z: seq<Block<S, E>>, end: nat)
    requires was == a + d + z && now == a + m + z && |Print(d)| == |Print(m)| && end == |Print(a)| + |Print(d)|
    ensures |Print(a)| + |Print(m)| <= |Print(was)| && Print(now) == Splice(Print(was), |Print(a)|, Print(m))
    ensures Stretch(Print(was), |Print(a)|, |Print(d)|) == Print(d)
    ensures Listing(was, 0) == Listing(a, 0) + Listing(d, |Print(a)|) + Listing(z, end)
    ensures Listing(now, 0) == Listing(a, 0) + Listing(m, |Print(a)|) + Listing(z, end)
  {
    PrintThree(was, a, d, z);
    PrintThree(now, a, m, z);
    SpliceMid(Print(was), Print(now), Print(a), Print(d), Print(m), Print(z));
    ListThree(was, a, d, z, |Print(a)|, end);
    ListThree(now, a, m, z, |Print(a)|, end);
  }

  lemma Gained<T>(old': seq<T>, new': seq<T>, x: seq<T>, z: seq<T>, e: T)
    requires old' == x + [] + z && new' == x + [e] + z
    ensures (set y | y in new') == (set y | y in old') + {e}
  {
  }

  lemma GainedLast<T>(old': seq<T>, new': seq<T>, x: seq<T>, none: seq<T>, e: T)
    requires old' == x + none && new' == x + [e] && none == []
    ensures (set y | y in new') == (set y | y in old') + {e}
  {
    assert old' == x;
  }

  lemma LostOne<T>(old': seq<T>, new': seq<T>, x: seq<T>, z: seq<T>, e: T)
    requires old' == x + [e] + z && new' == x + [] + z && e !in x && e !in z
    ensures e in old' && (set y | y in new') == (set y | y in old') - {e}
  {
    assert old'[|x|] == e && new' == x + z;
  }

  lemma ReplaceParts<S, E>(was: seq<Block<S, E>>, now: seq<Block<S, E>>, a: seq<Block<S, E>>, d: seq<Block<S, E>>,
      z: seq<Block<S, E>>, b: Block<S, E>, free: S -> bool)
    requires was == a + d + z && now == a + [b] + z && DeadRun(d, 0, |d|, free) && |d| == |b.slots| && b.entry.Some?
    ensures |Print(a)| + |d| <= |Print(was)| && Print(now) == Splice(Print(was), |Print(a)|, b.slots)
    ensures ListingSet(now) == ListingSet(was) + {Placed(b.entry.value, |Print(a)|, |d|)}
  {
    BlankPrint(d, |Print(a)|);
    One(b, |Print(a)|);
    SwapMid(was, now, a, d, [b], z, |Print(a)| + |d|);
    Gained(Listing(was, 0), Listing(now, 0), Listing(a, 0), Listing(z, |Print(a)| + |d|),
      Placed(b.entry.value, |Print(a)|, |d|));
  }

  /** Dead blocks give way to one block of as many slots. */
  lemma ReplaceDead<S, E>(bs: seq<Block<S, E>>, now: seq<Block<S, E>>, k: nat, b: Block<S, E>, free: S -> bool)
    requires DeadRun(bs, k, |b.slots|, free) && b.entry.Some? && now == bs[..k] + [b] + bs[k + |b.slots|..]
    ensures var n, at := |b.slots|, |Print(bs[..k])|;
      && at + n <= |Print(bs)| && Print(now) == Splice(Print(bs), at, b.slots)
      && ListingSet(now) == ListingSet(bs) + {Placed(b.entry.value, at, n)}
  {
    var n := |b.slots|;
    var d := bs[k..k + n];
    assert bs == bs[..k] + d + bs[k + n..];
    ReplaceParts(bs, now, bs[..k], d, bs[k + n..], b, free);
  }

  /** The dead blocks at the end give way to one block of any size. */
  lemma ReplaceLast<S, E>(bs: seq<Block<S, E>>, now: seq<Block<S, E>>, k: nat, b: Block<S, E>, free: S -> bool)
    requires k <= |bs| && DeadRun(bs, k, |bs| - k, free) && b.entry.Some? && now == bs[..k] + [b]
    ensures var at := |Print(bs[..k])|;
      && |Print(bs)| == at + (|bs| - k) && Print(now) == Print(bs[..k]) + b.slots && Print(bs[..k]) <= Print(bs)
      && ListingSet(now) == ListingSet(bs) + {Placed(b.entry.value, at, |b.slots|)}
  {
    assert bs == bs[..k] + bs[k..];
    ReplaceTail(bs, now, bs[..k], bs[k..], b, free);
  }

  lemma ReplaceTail<S, E>(was: seq<Block<S, E>>, now: seq<Block<S, E>>, a: seq<Block<S, E>>, d: seq<Block<S, E>>,
      b: Block<S, E>, free: S -> bool)
    requires was == a + d && now == a + [b] && DeadRun(d, 0, |d|, free) && b.entry.Some?
    ensures |Print(was)| == |Print(a)| + |d| && Print(now) == Print(a) + b.slots && Print(a) <= Print(was)
    ensures ListingSet(now) == ListingSet(was) + {Placed(b.entry.value, |Print(a)|, |b.slots|)}
  {
    var at := |Print(a)|;
    BlankPrint(d, at);
    One(b, at);
    TwoParts(was, a, d);
    TwoParts(now, a, [b]);
    GainedLast(Listing(was, 0), Listing(now, 0), Listing(a, 0), Listing(d, at), Placed(b.entry.value, at, |b.slots|));
  }

  /** Dead blocks that reach the end of the slots are the last blocks. */
  lemma EndsThere<S, E>(bs: seq<Block<S, E>>, k: nat, n: nat, free: S -> bool)
    requires AllWhole(bs, free) && DeadRun(bs, k, n, free) && |Print(bs[..k])| + n == |Print(bs)|
    ensures k + n == |bs|
  {
    PrintGrows(bs, k, k + n, free);
    PrintGrows(bs, k + n, |bs|, free);
    assert bs[..|bs|] == bs;
  }

  /** Where a block of `n` slots goes when written at the start of a maximal run of free slots:
      it replaces the `m` dead blocks from `k` on, with `m < n` only at the very end. */
  lemma WhereItGoes<S, E>(bs: seq<Block<S, E>>, n: nat, first: nat, free: S -> bool) returns (k: nat, m: nat)
    requires AllWhole(bs, free) && n > 0 && first <= |Print(bs)|
    requires forall i :: first <= i < first + n && i < |Print(bs)| ==> free(Print(bs)[i])
    ensures DeadRun(bs, k, m, free) && |Print(bs[..k])| == first && m <= n
    ensures m < n ==> k + m == |bs| && first + m == |Print(bs)|
  {
    var room := |Print(bs)| - first;
    if room == 0 {
      k, m := |bs|, 0;
      assert bs[..k] == bs;
    } else {
      m := Min(n, room);
      k := FreeRunIsDead(bs, first, m, free);
      if m < n {
        EndsThere(bs, k, m, free);
      }
    }
  }

  /** One block gives way to dead blocks of as many slots. */
  lemma ReplaceLive<S, E>(bs: seq<Block<S, E>>, now: seq<Block<S, E>>, k: nat, deads: seq<Block<S, E>>, free: S -> bool)
    requires AllWhole(bs, free) && k < |bs| && bs[k].entry.Some? && |deads| == |bs[k].slots| && Blank(deads)
    requires now == bs[..k] + deads + bs[k + 1..]
    ensures var at := |Print(bs[..k])|; var e := Placed(bs[k].entry.value, at, |bs[k].slots|);
      && at + |deads| <= |Print(bs)| && Stretch(Print(bs), at, |deads|) == bs[k].slots
      && |Print(deads)| == |deads| && Print(now) == Splice(Print(bs), at, Print(deads))
      && e in ListingSet(bs) && ListingSet(now) == ListingSet(bs) - {e}
  {
    assert bs == bs[..k] + [bs[k]] + bs[k + 1..];
    SwapBlank(bs, now, bs[..k], bs[k], deads, bs[k + 1..]);
    KillListed(bs, now, bs[..k], bs[k], deads, bs[k + 1..], free);
  }

  lemma KillListed<S, E>(was: seq<Block<S, E>>, now: seq<Block<S, E>>, a: seq<Block<S, E>>, b: Block<S, E>,
      deads: seq<Block<S, E>>, z: seq<Block<S, E>>, free: S -> bool)
    requires was == a + [b] + z && now == a + deads + z && AllWhole(a, free) && AllWhole(z, free)
    requires b.slots != [] && b.entry.Some? && |deads| == |b.slots| && Blank(deads)
    ensures var e := Placed(b.entry.value, |Print(a)|, |b.slots|);
      e in ListingSet(was) && ListingSet(now) == ListingSet(was) - {e}
  {
    var at, n := |Print(a)|, |b.slots|;
    var e := Placed(b.entry.value, at, n);
    SwapBlank(was, now, a, b, deads, z);
    var l, l' := Listing(was, 0), Listing(now, 0);
    LoseOne(l, l', a, z, at, n, e, free);
    assert ListingSet(was) == (set y | y in l) && ListingSet(now) == (set y | y in l');
  }

  lemma SwapBlank<S, E>(was: seq<Block<S, E>>, now: seq<Block<S, E>>, a: seq<Block<S, E>>, b: Block<S, E>,
      deads: seq<Block<S, E>>, z: seq<Block<S, E>>)
    requires was == a + [b] + z && now == a + deads + z && b.entry.Some? && |deads| == |b.slots| && Blank(deads)
    ensures var at := |Print(a)|;
      && at + |deads| <= |Print(was)| && Stretch(Print(was), at, |deads|) == b.slots
      && |Print(deads)| == |deads| && Print(now) == Splice(Print(was), at, Print(deads))
      && Listing(was, 0) == Listing(a, 0) + [Placed(b.entry.value, at, |b.slots|)] + Listing(z, at + |b.slots|)
      && Listing(now, 0) == Listing(a, 0) + [] + Listing(z, at + |b.slots|)
  {
    One(b, |Print(a)|);
    BlankPrint(deads, |Print(a)|);
    SwapMid(was, now, a, [b], deads, z, |Print(a)| + |b.slots|);
  }

  lemma LoseOne<S, E>(was: seq<Placed<E>>, now: seq<Placed<E>>, a: seq<Block<S, E>>, z: seq<Block<S, E>>, at: nat,
      n: nat, e: Placed<E>, free: S -> bool)
    requires AllWhole(a, free) && AllWhole(z, free) && at == |Print(a)| && e.first == at && n > 0
    requires was == Listing(a, 0) + [e] + Listing(z, at + n) && now == Listing(a, 0) + [] + Listing(z, at + n)
    ensures e in was && (set y | y in now) == (set y | y in was) - {e}
  {
    NotElsewhere(a, z, at, n, e, free);
    LostOne(was, now, Listing(a, 0), Listing(z, at + n), e);
  }

  lemma NotElsewhere<S, E>(a: seq<Block<S, E>>, z: seq<Block<S, E>>, at: nat, n: nat, e: Placed<E>, free: S -> bool)
    requires AllWhole(a, free) && AllWhole(z, free) && at == |Print(a)| && e.first == at && n > 0
    ensures e !in Listing(a, 0) && e !in Listing(z, at + n)
  {
    if e in Listing(a, 0) {
      ListedInside(a, 0, e, free);
    }
    if e in Listing(z, at + n) {
      ListedInside(z, at + n, e, free);
    }
  }

  /** Every listed entry belongs to a block, at its place. */
  lemma {:induction false} ListedIsBlock<S, E>(bs: seq<Block<S, E>>, at: nat, e: Placed<E>) returns (k: nat)
    requires e in Listing(bs, at)
    ensures k < |bs| && bs[k].entry == Some(e.entry) && e == Placed(e.entry, at + |Print(bs[..k])|, |bs[k].slots|)
  {
    if e in ListOne(bs[0], at) {
      k := 0;
    } else {
      var j := ListedIsBlock(bs[1..], at + |bs[0].slots|, e);
      k := j + 1;
      assert bs[..k] == [bs[0]] + bs[1..][..j];
      One(bs[0], 0);
      PrintConcat([bs[0]], bs[1..][..j]);
    }
  }

  /** A block lies where the blocks before it end. */
  lemma BlockInPlace<S, E>(slots: seq<S>, bs: seq<Block<S, E>>, k: nat, at: nat, n: nat)
    requires Print(bs) <= slots && k < |bs| && at == |Print(bs[..k])| && n == |bs[k].slots|
    ensures at + n <= |slots| && Stretch(slots, at, n) == bs[k].slots
  {
    assert bs == bs[..k] + [bs[k]] + bs[k + 1..];
    PrintThree(bs, bs[..k], [bs[k]], bs[k + 1..]);
    One(bs[k], 0);
    SpliceMid(Print(bs), Print(bs), Print(bs[..k]), bs[k].slots, bs[k].slots, Print(bs[k + 1..]));
    StretchPrefix(slots, Print(bs), at, n);
  }

  // ---------------------------------------------------------------- directories

  /** The slots are the printed blocks and then nothing but end slots. */
  ghost predicate Filed<S, E>(slots: seq<S>, bs: seq<Block<S, E>>, free: S -> bool, end: S -> bool) {
    AllWhole(bs, free) && Print(bs) <= slots && EndsFrom(slots, |Print(bs)|, end)
  }

  ghost predicate EndsFrom<S>(slots: seq<S>, n: nat, end: S -> bool) {
    forall i :: n <= i < |slots| ==> end(slots[i])
  }

  /** Slots `first` to `first + n` are free, and the slot before them is not. */
  ghost predicate FreeRun<S>(slots: seq<S>, first: nat, n: nat, free: S -> bool) {
    first + n <= |slots| && (first == 0 || !free(slots[first - 1])) && forall i :: first <= i < first + n ==>
      free(slots[i])
  }

  /** A slot that is not free lies before the end tail. */
  lemma TakenBefore<S>(slots: seq<S>, m: nat, i: nat, free: S -> bool, end: S -> bool)
    requires EndsFrom(slots, m, end) && i < |slots| && !free(slots[i]) && (end(slots[i]) ==> free(slots[i]))
    ensures i < m
  {
  }

  lemma StartsInside<S>(slots: seq<S>, m: nat, first: nat, n: nat, free: S -> bool, end: S -> bool)
    requires m <= |slots| && EndsFrom(slots, m, end) && FreeRun(slots, first, n, free)
    requires forall i :: 0 <= i < |slots| && end(slots[i]) ==> free(slots[i])
    ensures first <= m
  {
    if first > 0 {
      TakenBefore(slots, m, first - 1, free, end);
    }
  }

  lemma SlotEnds<S>(slots: seq<S>, m: nat, i: nat, end: S -> bool)
    requires EndsFrom(slots, m, end) && m <= i < |slots|
    ensures end(slots[i])
  {
  }

  /** Splicing within a prefix. */
  lemma SplicedInside<S>(slots: seq<S>, prefix: seq<S>, at: nat, data: seq<S>, end: S -> bool)
    requires prefix <= slots && at + |data| <= |prefix| && EndsFrom(slots, |prefix|, end)
    ensures Splice(prefix, at, data) <= Splice(slots, at, data) && EndsFrom(Splice(slots, at, data), |prefix|, end)
  {
  }

  /** Splicing across the end of the printed slots. */
  lemma SplicedOver<S>(slots: seq<S>, prefix: seq<S>, at: nat, data: seq<S>, m: nat, end: S -> bool)
    requires prefix <= slots && at == |prefix| && at + |data| <= |slots| && m <= at + |data| && EndsFrom(slots, m, end)
    ensures prefix + data <= Splice(slots, at, data) && EndsFrom(Splice(slots, at, data), at + |data|, end)
  {
  }

  /** What writing block `b` at slot `first`, in place of the `m` blocks from `k` on, leaves. */
  ghost predicate Wrote<S, E>(slots: seq<S>, bs: seq<Block<S, E>>, b: Block<S, E>, first: nat, now: seq<Block<S, E>>,
      free: S -> bool, end: S -> bool) {
    && b.entry.Some? && first + |b.slots| <= |slots|
    && Filed(Splice(slots, first, b.slots), now, free, end)
    && ListingSet(now) == ListingSet(bs) + {Placed(b.entry.value, first, |b.slots|)}
    && |Print(now)| <= Max(|Print(bs)|, first + |b.slots|)
  }

  lemma WriteOver<S, E>(slots: seq<S>, bs: seq<Block<S, E>>, b: Block<S, E>, k: nat, free: S -> bool, end: S -> bool)
    requires Filed(slots, bs, free, end) && Whole(b, free) && b.entry.Some? && DeadRun(bs, k, |b.slots|, free)
    ensures Wrote(slots, bs, b, |Print(bs[..k])|, bs[..k] + [b] + bs[k + |b.slots|..], free, end)
  {
    ReplaceDead(bs, bs[..k] + [b] + bs[k + |b.slots|..], k, b, free);
    SplicedInside(slots, Print(bs), |Print(bs[..k])|, b.slots, end);
  }

  lemma WriteLast<S, E>(slots: seq<S>, bs: seq<Block<S, E>>, b: Block<S, E>, k: nat, free: S -> bool, end: S -> bool)
    requires Filed(slots, bs, free, end) && Whole(b, free) && b.entry.Some? && k <= |bs| &&
      DeadRun(bs, k, |bs| - k, free)
    requires |bs| - k <= |b.slots| && |Print(bs[..k])| + |b.slots| <= |slots|
    ensures Wrote(slots, bs, b, |Print(bs[..k])|, bs[..k] + [b], free, end)
  {
    ReplaceLast(bs, bs[..k] + [b], k, b, free);
    SplicedOver(slots, Print(bs[..k]), |Print(bs[..k])|, b.slots, |Print(bs)|, end);
  }

  /** Writing a block at the start of a maximal free run: it replaces the `m` dead blocks from `k`
      on, and its entry is listed in addition. */
  lemma InsertBlock<S, E>(slots: seq<S>, bs: seq<Block<S, E>>, b: Block<S, E>, first: nat, free: S -> bool,
      end: S -> bool) returns (k: nat, m: nat)
    requires Filed(slots, bs, free, end) && Whole(b, free) && b.entry.Some? && FreeRun(slots, first, |b.slots|, free)
    requires forall i :: 0 <= i < |slots| && end(slots[i]) ==> free(slots[i])
    ensures k + m <= |bs| && Wrote(slots, bs, b, first, bs[..k] + [b] + bs[k + m..], free, end)
  {
    StartsInside(slots, |Print(bs)|, first, |b.slots|, free, end);
    k, m := WhereItGoes(bs, |b.slots|, first, free);
    if m == |b.slots| {
      WriteOver(slots, bs, b, k, free, end);
    } else {
      WriteLast(slots, bs, b, k, free, end);
      assert bs[..k] + [b] + bs[k + m..] == bs[..k] + [b];
    }
  }

  /** Marking the slots of a listed entry dead: nothing else changes, and it is no longer listed. */
  lemma RemoveBlock<S, E>(slots: seq<S>, bs: seq<Block<S, E>>, now: seq<Block<S, E>>, k: nat, deads: seq<Block<S, E>>,
      free: S -> bool, end: S -> bool)
    requires Filed(slots, bs, free, end) && k < |bs| && bs[k].entry.Some?
    requires |deads| == |bs[k].slots| && Blank(deads) && AllWhole(deads, free) && now == bs[..k] + deads + bs[k + 1..]
    ensures var at := |Print(bs[..k])|; var e := Placed(bs[k].entry.value, at, |bs[k].slots|);
      && at + |deads| <= |slots| && Stretch(slots, at, |deads|) == bs[k].slots && |Print(deads)| == |deads|
      && Filed(Splice(slots, at, Print(deads)), now, free, end)
      && ListingSet(now) == ListingSet(bs) - {e} && |Print(now)| == |Print(bs)|
  {
    ReplaceLive(bs, now, k, deads, free);
    var at := |Print(bs[..k])|;
    StretchPrefix(slots, Print(bs), at, |deads|);
    SplicedInside(slots, Print(bs), at, Print(deads), end);
  }

  /** More end slots at the end change nothing. */
  lemma GrowFiled<S, E>(slots: seq<S>, bs: seq<Block<S, E>>, more: seq<S>, free: S -> bool, end: S -> bool)
    requires Filed(slots, bs, free, end) && EndsFrom(more, 0, end)
    ensures Filed(slots + more, bs, free, end)
  {
    var all := slots + more;
    forall i | |Print(bs)| <= i < |all|
      ensures end(all[i])
    {
      if i >= |slots| {
        assert all[i] == more[i - |slots|];
      }
    }
  }

  // ---------------------------------------------------------------- laws of directories

  ghost predicate Each<T>(s: seq<T>, p: T -> bool) { forall i :: 0 <= i < |s| ==> p(s[i]) }

  lemma EachConcat<T>(a: seq<T>, b: seq<T>, p: T -> bool)
    requires Each(a, p) && Each(b, p)
    ensures Each(a + b, p)
  {
    var all := a + b;
    forall i | 0 <= i < |all|
      ensures p(all[i])
    {
      assert all[i] == if i < |a| then a[i] else b[i - |a|];
    }
  }

  lemma EachSlice<T>(s: seq<T>, lo: nat, hi: nat, p: T -> bool)
    requires Each(s, p) && lo <= hi <= |s|
    ensures Each(s[lo..hi], p)
  {
    var part := s[lo..hi];
    forall i | 0 <= i < |part|
      ensures p(part[i])
    {
      assert part[i] == s[lo + i];
    }
  }

  /** `s` with positions `lo` to `hi` replaced by `m`. */
  lemma EachReplaced<T>(s: seq<T>, lo: nat, hi: nat, m: seq<T>, p: T -> bool)
    requires Each(s, p) && Each(m, p) && lo <= hi <= |s|
    ensures Each(s[..lo] + m + s[hi..], p)
  {
    EachSlice(s, 0, lo, p);
    EachSlice(s, hi, |s|, p);
    assert s[0..lo] == s[..lo] && s[hi..|s|] == s[hi..];
    EachConcat(s[..lo], m, p);
    EachConcat(s[..lo] + m, s[hi..], p);
  }

  lemma EachSpliced<T>(s: seq<T>, at: nat, data: seq<T>, p: T -> bool)
    requires Each(s, p) && Each(data, p) && at + |data| <= |s|
    ensures Each(Splice(s, at, data), p)
  {
    EachReplaced(s, at, at + |data|, data, p);
  }

  /** How one kind of directory is laid out: the blocks that may occur in it, the slots that may be
      reused and those that end it. */
  datatype Law<!S, !E> = Law(block: Block<S, E> -> bool, sized: S -> bool, free: S -> bool, end: S -> bool)

  /** Every block the law admits is whole, and end slots are free. */
  ghost predicate Coherent<S(!new), E(!new)>(w: Law<S, E>) {
    && (forall b {:trigger w.block(b)} :: w.block(b) ==> Whole(b, w.free) && Each(b.slots, w.sized))
    && (forall s {:trigger w.end(s)} :: w.end(s) ==> w.free(s))
  }

  /** The slots are lawful blocks and then nothing but end slots. */
  ghost predicate Holds<S, E>(slots: seq<S>, bs: seq<Block<S, E>>, w: Law<S, E>) {
    Each(slots, w.sized) && Each(bs, w.block) && Filed(slots, bs, w.free, w.end)
  }

  /** Writing an entry at the start of a maximal free run keeps the directory's shape, and its
      listing gains exactly that entry. */
  lemma InsertHolds<S(!new), E(!new)>(slots: seq<S>, bs: seq<Block<S, E>>, b: Block<S, E>, first: nat, w: Law<S, E>)
      returns (now: seq<Block<S, E>>)
    requires Coherent(w) && Holds(slots, bs, w) && w.block(b) && b.entry.Some? &&
      FreeRun(slots, first, |b.slots|, w.free)
    ensures Holds(Splice(slots, first, b.slots), now, w)
    ensures ListingSet(now) == ListingSet(bs) + {Placed(b.entry.value, first, |b.slots|)}
    ensures |Print(now)| <= Max(|Print(bs)|, first + |b.slots|)
  {
    var k, m := InsertBlock(slots, bs, b, first, w.free, w.end);
    now := bs[..k] + [b] + bs[k + m..];
    EachReplaced(bs, k, k + m, [b], w.block);
    EachSpliced(slots, first, b.slots, w.sized);
  }

  /** Every slot changed by `f`. */
  function Mapped<S>(f: S -> S, s: seq<S>): (r: seq<S>)
    ensures |r| == |s|
  {
    if s == [] then [] else [f(s[0])] + Mapped(f, s[1..])
  }

  lemma {:induction false} MappedAt<S>(f: S -> S, s: seq<S>, i: nat)
    requires i < |s|
    ensures Mapped(f, s)[i] == f(s[i])
  {
    if i == 0 {
    } else {
      MappedAt(f, s[1..], i - 1);
    }
  }

  /** `slots` with the `n` slots from `at` on changed by `f`. */
  function Struck<S>(slots: seq<S>, at: nat, n: nat, f: S -> S): (r: seq<S>)
    requires at + n <= |slots|
    ensures |r| == |slots|
  {
    Splice(slots, at, Mapped(f, Stretch(slots, at, n)))
  }

  /** Each slot a block that lists nothing. */
  function Blanks<S, E>(s: seq<S>): (r: seq<Block<S, E>>)
    ensures |r| == |s|
  {
    if s == [] then [] else [Block([s[0]], None)] + Blanks(s[1..])
  }

  /** `kill` turns every slot of an entry into one that lists nothing. */
  ghost predicate Kills<S(!new), E(!new)>(kill: S -> S, w: Law<S, E>) {
    forall b, i {:trigger w.block(b), kill(b.slots[i])} :: w.block(b) && b.entry.Some? && 0 <= i < |b.slots| ==>
      w.block(Block([kill(b.slots[i])], None))
  }

  lemma {:induction false} KilledBlanks<S(!new),
      E(!new)>(s: seq<S>, kill: S -> S, w: Law<S, E>, deads: seq<Block<S, E>>)
    requires (forall i :: 0 <= i < |s| ==> w.block(Block([kill(s[i])], None))) && deads == Blanks(Mapped(kill, s))
    ensures Each(deads, w.block) && Blank(deads) && Print(deads) == Mapped(kill, s)
  {
    if s == [] {
    } else {
      assert Mapped(kill, s)[1..] == Mapped(kill, s[1..]);
      var rest := deads[1..];
      KilledBlanks(s[1..], kill, w, rest);
      assert deads == [deads[0]] + rest;
      assert w.block(Block([kill(s[0])], None));
    }
  }

  /** Killing every slot of a listed entry keeps the directory's shape, and its listing loses exactly
      that entry. */
  lemma RemoveHolds<S(!new), E(!new)>(slots: seq<S>, bs: seq<Block<S, E>>, e: Placed<E>, kill: S -> S, w: Law<S, E>)
      returns (now: seq<Block<S, E>>)
    requires Coherent(w) && Kills(kill, w) && Holds(slots, bs, w) && e in ListingSet(bs)
    ensures e.len > 0 && e.first + e.len <= |slots|
    ensures Holds(Struck(slots, e.first, e.len, kill), now, w)
    ensures ListingSet(now) == ListingSet(bs) - {e} && |Print(now)| == |Print(bs)|
  {
    var k := ListedIsBlock(bs, 0, e);
    var deads: seq<Block<S, E>> := Blanks(Mapped(kill, bs[k].slots));
    KilledBlanks(bs[k].slots, kill, w, deads);
    now := RemoveDeads(slots, bs, k, deads, w);
  }

  lemma RemoveDeads<S(!new), E(!new)>(slots: seq<S>, bs: seq<Block<S, E>>, k: nat, deads: seq<Block<S, E>>, w: Law<S,
      E>) returns (now: seq<Block<S, E>>)
    requires Coherent(w) && Holds(slots, bs, w) && k < |bs| && bs[k].entry.Some?
    requires Each(deads, w.block) && Blank(deads) && |deads| == |bs[k].slots|
    ensures var at := |Print(bs[..k])|; var e := Placed(bs[k].entry.value, at, |deads|);
      && |deads| > 0 && |Print(deads)| == |deads| && at + |deads| <= |slots| &&
        Stretch(slots, at, |deads|) == bs[k].slots
      && Holds(Splice(slots, at, Print(deads)), now, w)
      && ListingSet(now) == ListingSet(bs) - {e} && |Print(now)| == |Print(bs)|
  {
    EachWhole(deads, w);
    EachWhole(bs, w);
    now := bs[..k] + deads + bs[k + 1..];
    RemoveBlock(slots, bs, now, k, deads, w.free, w.end);
    EachReplaced(bs, k, k + 1, deads, w.block);
    PrintEach(deads, w);
    EachSpliced(slots, |Print(bs[..k])|, Print(deads), w.sized);
  }

  lemma EachWhole<S(!new), E(!new)>(bs: seq<Block<S, E>>, w: Law<S, E>)
    requires Coherent(w) && Each(bs, w.block)
    ensures AllWhole(bs, w.free)
  {
  }

  lemma Changed<T>(was: seq<T>, now: seq<T>, x: seq<T>, z: seq<T>, e: T, f: T)
    requires was == x + [e] + z && now == x + [f] + z && e !in x && e !in z
    ensures e in was && (set y | y in now) == (set y | y in was) - {e} + {f}
  {
    assert was[|x|] == e && now[|x|] == f;
  }

  lemma SwapOne<S, E>(was: seq<Block<S, E>>, now: seq<Block<S, E>>, a: seq<Block<S, E>>, b: Block<S, E>, c: Block<S, E>,
      z: seq<Block<S, E>>)
    requires was == a + [b] + z && now == a + [c] + z && |b.slots| == |c.slots| && b.entry.Some? && c.entry.Some?
    ensures |Print(a)| + |c.slots| <= |Print(was)| && Print(now) == Splice(Print(was), |Print(a)|, c.slots)
    ensures Listing(was, 0) == Listing(a, 0) + [Placed(b.entry.value, |Print(a)|, |b.slots|)]
      + Listing(z, |Print(a)| + |b.slots|)
    ensures Listing(now, 0) == Listing(a, 0) + [Placed(c.entry.value, |Print(a)|, |b.slots|)]
      + Listing(z, |Print(a)| + |b.slots|)
  {
    One(b, |Print(a)|);
    One(c, |Print(a)|);
    SwapMid(was, now, a, [b], [c], z, |Print(a)| + |b.slots|);
  }

  lemma ChangeListed<S, E>(was: seq<Placed<E>>, now: seq<Placed<E>>, a: seq<Block<S, E>>, z: seq<Block<S, E>>, at: nat,
      n: nat, e: Placed<E>, f: Placed<E>, free: S -> bool)
    requires AllWhole(a, free) && AllWhole(z, free) && at == |Print(a)| && e.first == at && n > 0
    requires was == Listing(a, 0) + [e] + Listing(z, at + n) && now == Listing(a, 0) + [f] + Listing(z, at + n)
    ensures e in was && (set y | y in now) == (set y | y in was) - {e} + {f}
  {
    NotElsewhere(a, z, at, n, e, free);
    Changed(was, now, Listing(a, 0), Listing(z, at + n), e, f);
  }

  /** Rewriting a listed entry in place by one of as many slots: only that entry changes. */
  lemma UpdateHolds<S(!new), E(!new)>(slots: seq<S>, bs: seq<Block<S, E>>, e: Placed<E>, c: Block<S, E>, w: Law<S, E>)
      returns (now: seq<Block<S, E>>)
    requires Coherent(w) && Holds(slots, bs, w) && e in ListingSet(bs) && w.block(c) && c.entry.Some? &&
      |c.slots| == e.len
    ensures e.first + e.len <= |slots| && Holds(Splice(slots, e.first, c.slots), now, w)
    ensures ListingSet(now) == ListingSet(bs) - {e} + {Placed(c.entry.value, e.first, e.len)}
    ensures |Print(now)| == |Print(bs)|
  {
    var k := ListedIsBlock(bs, 0, e);
    EachWhole(bs, w);
    now := UpdateBlock(slots, bs, k, e, c, w);
  }

  lemma UpdateBlock<S(!new), E(!new)>(slots: seq<S>, bs: seq<Block<S, E>>, k: nat, e: Placed<E>, c: Block<S, E>,
      w: Law<S, E>) returns (now: seq<Block<S, E>>)
    requires Coherent(w) && Holds(slots, bs, w) && AllWhole(bs, w.free) && k < |bs| && bs[k].entry.Some? &&
      w.block(c) && c.entry.Some? && |c.slots| == |bs[k].slots|
    requires e == Placed(bs[k].entry.value, |Print(bs[..k])|, |bs[k].slots|)
    ensures e.first + e.len <= |slots| && Holds(Splice(slots, e.first, c.slots), now, w)
    ensures ListingSet(now) == ListingSet(bs) - {e} + {Placed(c.entry.value, e.first, e.len)}
    ensures |Print(now)| == |Print(bs)|
  {
    var a, z := bs[..k], bs[k + 1..];
    assert bs == a + [bs[k]] + z;
    now := a + [c] + z;
    SwapOne(bs, now, a, bs[k], c, z);
    ChangeListed(Listing(bs, 0), Listing(now, 0), a, z, |Print(a)|, |bs[k].slots|, e,
      Placed(c.entry.value, e.first, e.len), w.free);
    EachReplaced(bs, k, k + 1, [c], w.block);
    EachWhole(now, w);
    EachSpliced(slots, e.first, c.slots, w.sized);
    SplicedInside(slots, Print(bs), e.first, c.slots, w.end);
  }

  lemma {:induction false} PrintEach<S(!new), E(!new)>(bs: seq<Block<S, E>>, w: Law<S, E>)
    requires Coherent(w) && Each(bs, w.block)
    ensures Each(Print(bs), w.sized)
  {
    if bs == [] {
    } else {
      EachSlice(bs, 1, |bs|, w.block);
      assert bs[1..|bs|] == bs[1..];
      PrintEach(bs[1..], w);
      EachConcat(bs[0].slots, Print(bs[1..]), w.sized);
    }
  }

  /** Growing by end slots changes nothing. */
  lemma GrowHolds<S, E>(slots: seq<S>, bs: seq<Block<S, E>>, more: seq<S>, w: Law<S, E>)
    requires Holds(slots, bs, w) && Each(more, w.sized) && EndsFrom(more, 0, w.end)
    ensures Holds(slots + more, bs, w)
  {
    EachConcat(slots, more, w.sized);
    GrowFiled(slots, bs, more, w.free, w.end);
  }

  // ---------------------------------------------------------------- print and parse

  /** `read` lists a lawful block and goes on with what follows it. */
  ghost predicate Reads<S(!new), E(!new)>(read: (seq<S>, nat) -> seq<Placed<E>>, w: Law<S, E>, limit: nat) {
    forall b: Block<S, E>, rest: seq<S>, p: nat,
      next: nat {:trigger w.block(b), read(b.slots + rest, p), read(rest, next)} ::
      w.block(b) && Each(rest, w.sized) && next == p + |b.slots| <= limit ==>
        read(b.slots + rest, p) == ListOne(b, p) + read(rest, next)
  }

  ghost predicate Stops<S, E>(read: (seq<S>, nat) -> seq<Placed<E>>, tail: seq<S>) {
    forall p :: read(tail, p) == []
  }

  /** A reader that handles one block at a time lists exactly what the blocks list. */
  lemma {:induction false} PrintReads<S(!new),
      E(!new)>(bs: seq<Block<S, E>>, tail: seq<S>, pos: nat, read: (seq<S>, nat) -> seq<Placed<E>>, w: Law<S, E>,
      limit: nat)
    requires Coherent(w) && Reads(read, w, limit) && Stops(read, tail)
    requires Each(bs, w.block) && Each(tail, w.sized) && pos + |Print(bs)| <= limit
    ensures Each(Print(bs) + tail, w.sized) && read(Print(bs) + tail, pos) == Listing(bs, pos)
  {
    PrintEach(bs, w);
    EachConcat(Print(bs), tail, w.sized);
    if bs == [] {
      assert Print(bs) + tail == tail;
    } else {
      EachSlice(bs, 1, |bs|, w.block);
      assert bs[1..|bs|] == bs[1..];
      PrintReads(bs[1..], tail, pos + |bs[0].slots|, read, w, limit);
      Assoc(bs[0].slots, Print(bs[1..]), tail);
    }
  }

  /** A directory that holds blocks lists what they list. */
  lemma HoldsReads<S(!new), E(!new)>(slots: seq<S>, bs: seq<Block<S, E>>, read: (seq<S>, nat) -> seq<Placed<E>>,
      w: Law<S, E>, limit: nat)
    requires Coherent(w) && Reads(read, w, limit) && Holds(slots, bs, w) && |Print(bs)| <= limit
    requires Stops(read, slots[|Print(bs)|..])
    ensures read(slots, 0) == Listing(bs, 0)
  {
    var tail := slots[|Print(bs)|..];
    assert slots == Print(bs) + tail;
    EachSlice(slots, |Print(bs)|, |slots|, w.sized);
    assert slots[|Print(bs)|..|slots|] == tail;
    PrintReads(bs, tail, 0, read, w, limit);
  }

  // ---------------------------------------------------------------- finding

  /** The first listed entry that `pick` takes, as slot and length. */
  function FirstPicked<E>(all: seq<Placed<E>>, pick: E -> bool): Option<(nat, nat)> {
    if all == [] then None
    else if pick(all[0].entry) then Some((all[0].first, all[0].len))
    else FirstPicked(all[1..], pick)
  }

  /** What passing a block finds, when `later` is what is found after it. */
  function FoundAt<S, E>(b: Block<S, E>, p: nat, later: Option<(nat, nat)>, pick: E -> bool): Option<(nat, nat)> {
    if b.entry.Some? && pick(b.entry.value) then Some((p, |b.slots|)) else later
  }

  /** `find` takes a lawful block's entry or goes on with what follows the block. */
  ghost predicate Finds<S(!new), E(!new)>(find: (seq<S>, nat) -> Option<(nat, nat)>, w: Law<S, E>, pick: E -> bool) {
    forall b: Block<S, E>, rest: seq<S>, p: nat,
      next: nat {:trigger w.block(b), find(b.slots + rest, p), find(rest, next)} ::
      w.block(b) && Each(rest, w.sized) && next == p + |b.slots| ==>
        find(b.slots + rest, p) == FoundAt(b, p, find(rest, next), pick)
  }

  ghost predicate FindsNothing<S>(find: (seq<S>, nat) -> Option<(nat, nat)>, tail: seq<S>) {
    forall p :: find(tail, p) == None
  }

  lemma PickedStep<S, E>(b: Block<S, E>, all: seq<Placed<E>>, rest: seq<Placed<E>>, p: nat, pick: E -> bool)
    requires all == ListOne(b, p) + rest
    ensures FirstPicked(all, pick) == FoundAt(b, p, FirstPicked(rest, pick), pick)
  {
    if b.entry.Some? {
      assert all[1..] == rest;
    } else {
      assert all == rest;
    }
  }

  /** A finder that handles one block at a time finds the first entry listed that it picks. */
  lemma {:induction false} PrintFinds<S(!new),
      E(!new)>(bs: seq<Block<S, E>>, tail: seq<S>, pos: nat, find: (seq<S>, nat) -> Option<(nat, nat)>, w: Law<S, E>,
      pick: E -> bool)
    requires Coherent(w) && Finds(find, w, pick) && FindsNothing(find, tail) && Each(bs, w.block) && Each(tail, w.sized)
    ensures find(Print(bs) + tail, pos) == FirstPicked(Listing(bs, pos), pick)
  {
    if bs == [] {
      assert Print(bs) + tail == tail;
    } else {
      EachSlice(bs, 1, |bs|, w.block);
      assert bs[1..|bs|] == bs[1..];
      PrintEach(bs[1..], w);
      EachConcat(Print(bs[1..]), tail, w.sized);
      PrintFinds(bs[1..], tail, pos + |bs[0].slots|, find, w, pick);
      Assoc(bs[0].slots, Print(bs[1..]), tail);
      PickedStep(bs[0], Listing(bs, pos), Listing(bs[1..], pos + |bs[0].slots|), pos, pick);
    }
  }

  /** What is picked first is listed, and nothing picked starts before it. */
  ghost predicate IsPicked<E>(all: seq<Placed<E>>, pick: E -> bool, r: Option<(nat, nat)>, e: Placed<E>) {
    match r
    case None => forall f :: f in all ==> !pick(f.entry)
    case Some(place) =>
      && e in all && pick(e.entry) && place == (e.first, e.len)
      && forall f :: f in all && pick(f.entry) ==> e.first <= f.first
  }

  lemma {:induction false} PickedIs<S, E>(bs: seq<Block<S, E>>, at: nat, pick: E -> bool, free: S -> bool)
      returns (e: Placed<E>)
    requires AllWhole(bs, free) && Listing(bs, at) != []
    ensures IsPicked(Listing(bs, at), pick, FirstPicked(Listing(bs, at), pick), e)
  {
    e := Listing(bs, at)[0];
    var rest, next := Listing(bs[1..], at + |bs[0].slots|), at + |bs[0].slots|;
    PickedStep(bs[0], Listing(bs, at), rest, at, pick);
    if rest == [] {
    } else {
      if !(bs[0].entry.Some? && pick(bs[0].entry.value)) {
        e := PickedIs(bs[1..], next, pick, free);
      }
      forall f | f in rest
        ensures at <= f.first
      {
        ListedInside(bs[1..], next, f, free);
      }
    }
  }
}
