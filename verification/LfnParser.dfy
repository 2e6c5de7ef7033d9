/** The long-name state machine of the FAT directory reader (src/fat/direntry/ser_de.rs, `step`,
    `consume_lfn`, `take_name`), on slots already split into fields: what it yields on any sequence
    of slots, and that it recovers exactly the sets a well-formed directory is made of. */
module LfnParser {
  import opened Basics
  import opened SlotBlocks
  import SN = ShortNames

  /** A UTF-16 code unit. */
  type Unit16 = x: int | 0 <= x < 0x10000

  const MAX_LFN_SLOTS: nat := 20
  const MAX_DIR_SLOTS: nat := 0x10_0000

  /** Surrogates come in pairs: what decoding UTF-16 demands. */
  predicate WellFormed(us: seq<Unit16>) {
    if us == [] then true
    else if 0xD800 <= us[0] < 0xDC00 then |us| > 1 && 0xDC00 <= us[1] < 0xE000 && WellFormed(us[2..])
    else !(0xDC00 <= us[0] < 0xE000) && WellFormed(us[1..])
  }

  predicate High(u: Unit16) { 0xD800 <= u < 0xDC00 }

  predicate Low(u: Unit16) { 0xDC00 <= u < 0xE000 }

  /** Unit `i` is a surrogate only as half of a pair. */
  predicate Paired(us: seq<Unit16>, i: nat)
    requires i < |us|
  {
    && (High(us[i]) ==> i + 1 < |us| && Low(us[i + 1]))
    && (Low(us[i]) ==> i > 0 && High(us[i - 1]))
  }

  /** Decoding succeeds exactly when every surrogate is half of a pair. */
  lemma {:induction false} WellFormedExactly(us: seq<Unit16>)
    ensures WellFormed(us) <==> forall i :: 0 <= i < |us| ==> Paired(us, i)
  {
    if us == [] {
    } else {
      var k := if High(us[0]) then 2 else 1;
      if Paired(us, 0) {
        var rest := us[k..];
        WellFormedExactly(rest);
        if forall i :: 0 <= i < |rest| ==> Paired(rest, i) {
          forall i | 0 <= i < |us|
            ensures Paired(us, i)
          {
            if i >= k {
              assert Paired(rest, i - k) && us[i] == rest[i - k];
            }
          }
        }
        if forall i :: 0 <= i < |us| ==> Paired(us, i) {
          forall i | 0 <= i < |rest|
            ensures Paired(rest, i)
          {
            assert Paired(us, i + k) && us[i + k] == rest[i];
            assert k == 2 ==> Low(us[1]);
          }
        }
      }
    }
  }

  /** A slot as the parser sees it. `ok` is `verify_signature`; `checksum` and `shown` of a
      short-name slot are the checksum of its name and the name it shows as. */
  datatype View =
    | End
    | Deleted
    | Long(ok: bool, order: Byte, checksum: Byte, piece: seq<Unit16>)
    | VolumeLabel
    | Short(sfn: SN.Sfn, checksum: Byte, shown: seq<Unit16>, attr: Byte, rest: seq<Byte>)

  /** A half-assembled set: pieces gathered highest order first, the set's checksum, the order
      last seen, where the set starts and how many slots it has so far. */
  datatype Pending = Pending(pieces: seq<seq<Unit16>>, checksum: Option<Byte>, nextOrd: nat, start: Option<nat>,
    len: nat)

  const CLEAN: Pending := Pending([], None, 0, None, 0)

  /** An entry read back: its name, its short name, attributes and the bytes after them. */
  datatype Listed = Listed(name: seq<Unit16>, sfn: SN.Sfn, attr: Byte, rest: seq<Byte>)

  type Found = Placed<Listed>

  datatype Fold = Continued(after: Pending) | StartedNew(after: Pending) | Orphan

  /** What a piece adds: nothing when it is no UTF-16. */
  function Kept(piece: seq<Unit16>): seq<seq<Unit16>> { if WellFormed(piece) then [piece] else [] }

  /** `consume_lfn`: a set opens with the flagged slot of order 1 to 20 and counts down under one
      checksum; anything else orphans it. */
  function FoldPiece(st: Pending, order: Byte, checksum: Byte, piece: seq<Unit16>): Fold {
    var last := order / 0x40 % 2 == 1;
    var ord := if last then order - 0x40 else order;
    if last then
      if ord == 0 || ord > MAX_LFN_SLOTS then Orphan
      else StartedNew(st.(pieces := Kept(piece), checksum := Some(checksum), nextOrd := ord))
    else if st.nextOrd < 2 || ord != st.nextOrd - 1 || st.checksum != Some(checksum) then Orphan
    else Continued(st.(pieces := st.pieces + Kept(piece), nextOrd := ord))
  }

  /** Pieces in reading order. */
  function Joined(pieces: seq<seq<Unit16>>): seq<Unit16> {
    if pieces == [] then [] else Joined(pieces[1..]) + pieces[0]
  }

  /** `take_name`: the long name of a complete set whose checksum matches, else the short name. */
  function TakeName(st: Pending, checksum: Byte, shown: seq<Unit16>): seq<Unit16> {
    if st.pieces != [] && st.nextOrd == 1 && st.checksum == Some(checksum) then Joined(st.pieces) else shown
  }

  /** The slot joins the set under way, or opens one. */
  function Begun(st: Pending, pos: nat): Pending {
    st.(start := Some(if st.start.Some? then st.start.value else pos), len := st.len + 1)
  }

  /** One slot: what is pending after it, and the entry it completes. */
  function StepSlot(st: Pending, v: View, pos: nat): (r: (Pending, Option<Found>)) {
    match v
    case End => (CLEAN, None)
    case Deleted => (CLEAN, None)
    case VolumeLabel => (CLEAN, None)
    case Long(ok, order, checksum, piece) =>
      (match if ok then FoldPiece(Begun(st, pos), order, checksum, piece) else Orphan
       case Continued(after) => (after, None)
       case StartedNew(after) => (after.(start := Some(pos), len := 1), None)
       case Orphan => (CLEAN, None))
    case Short(sfn, checksum, shown, attr, rest) =>
      (CLEAN, Some(Placed(Listed(TakeName(Begun(st, pos), checksum, shown), sfn, attr, rest),
        Begun(st, pos).start.value, Begun(st, pos).len)))
  }

  /** What the iterator yields on the slots from position `pos` on. */
  function List(st: Pending, views: seq<View>, pos: nat): seq<Found>
    decreases |views|
  {
    if views == [] || pos >= MAX_DIR_SLOTS || views[0].End? then []
    else
      var (after, found) := StepSlot(st, views[0], pos);
      (if found.Some? then [found.value] else []) + List(after, views[1..], pos + 1)
  }

  lemma ListStep(st: Pending, v: View, rest: seq<View>, pos: nat, after: Pending, found: Option<Found>)
    requires pos < MAX_DIR_SLOTS && !v.End? && StepSlot(st, v, pos) == (after, found)
    ensures List(st, [v] + rest, pos) == (if found.Some? then [found.value] else []) + List(after, rest, pos + 1)
  {
    assert ([v] + rest)[1..] == rest;
  }

  // ---------------------------------------------------------------- well-formed directories

  /** What a well-formed directory is made of: sets of long-name slots (perhaps none) closed by a
      short-name slot, and slots that list nothing. */
  datatype Row = Set(groups: seq<seq<Unit16>>, last: View) | Skip(view: View)

  predicate ProperRow(r: Row) {
    match r
    case Set(g, last) => |g| <= MAX_LFN_SLOTS && last.Short?
    case Skip(v) => v.Deleted? || v.VolumeLabel?
  }

  /** The order byte of group `i` of `n`: numbered from 1, the last one flagged. */
  function Order(i: nat, n: nat): Byte
    requires i < n <= MAX_LFN_SLOTS
  {
    i + 1 + if i + 1 == n then 0x40 else 0
  }

  lemma OrderByte(i: nat, n: nat)
    requires i < n <= MAX_LFN_SLOTS
    ensures var b := Order(i, n);
      0 < b < 0x80 && (b / 0x40 % 2 == 1 <==> i + 1 == n) && (if b / 0x40 % 2 == 1 then b - 0x40 else b) == i + 1
  {
  }

  function LongView(g: seq<seq<Unit16>>, checksum: Byte, i: nat): View
    requires i < |g| <= MAX_LFN_SLOTS
  {
    Long(true, Order(i, |g|), checksum, g[i])
  }

  /** Groups `n - 1` down to 0. */
  function LongViews(g: seq<seq<Unit16>>, checksum: Byte, n: nat): (r: seq<View>)
    requires n <= |g| <= MAX_LFN_SLOTS
    ensures |r| == n
  {
    if n == 0 then [] else [LongView(g, checksum, n - 1)] + LongViews(g, checksum, n - 1)
  }

  function RowViews(r: Row): (v: seq<View>)
    requires ProperRow(r)
    ensures |v| == RowLen(r)
  {
    match r
    case Set(g, last) => LongViews(g, last.checksum, |g|) + [last]
    case Skip(v) => [v]
  }

  function RowLen(r: Row): nat { if r.Set? then |r.groups| + 1 else 1 }

  /** The groups from the last one down to `i` that decode. */
  function GoodFrom(g: seq<seq<Unit16>>, i: nat): seq<seq<Unit16>>
    decreases |g| - i
  {
    if i >= |g| then [] else GoodFrom(g, i + 1) + Kept(g[i])
  }

  /** The name a set reads back under: its groups without those that are no UTF-16, or the short
      name when none is left. */
  function RowName(g: seq<seq<Unit16>>, shown: seq<Unit16>): seq<Unit16> {
    if GoodFrom(g, 0) != [] then Joined(GoodFrom(g, 0)) else shown
  }

  /** What a row lists. */
  function RowFound(r: Row, at: nat): seq<Found>
    requires ProperRow(r)
  {
    match r
    case Set(g, last) => [Placed(Listed(RowName(g, last.shown), last.sfn, last.attr, last.rest), at, |g| + 1)]
    case Skip(v) => []
  }

  /** The set half-way: groups from `i` up have been read. */
  function Halfway(g: seq<seq<Unit16>>, checksum: Byte, i: nat, first: nat): Pending
    requires i <= |g|
  {
    Pending(GoodFrom(g, i), Some(checksum), i + 1, Some(first), |g| - i)
  }

  /** The parser's state when it is to read group `n - 1` of a set that starts at `first`. */
  ghost predicate Ready(g: seq<seq<Unit16>>, checksum: Byte, n: nat, st: Pending, first: nat, pos: nat) {
    n <= |g| && pos == first + |g| - n && st == if n == |g| then CLEAN else Halfway(g, checksum, n, first)
  }

  /** One long-name slot takes the parser one group further. */
  lemma LongStep(g: seq<seq<Unit16>>, checksum: Byte, n: nat, st: Pending, first: nat, pos: nat)
    requires |g| <= MAX_LFN_SLOTS && 0 < n && Ready(g, checksum, n, st, first, pos)
    ensures StepSlot(st, LongView(g, checksum, n - 1), pos) == (Halfway(g, checksum, n - 1, first), None)
  {
    OrderByte(n - 1, |g|);
    assert [] + Kept(g[n - 1]) == Kept(g[n - 1]);
  }

  /** The run of long-name slots. */
  lemma {:induction false} LongRunReads(g: seq<seq<Unit16>>, checksum: Byte, n: nat, st: Pending, rest: seq<View>,
      first: nat, pos: nat, end: nat)
    requires |g| <= MAX_LFN_SLOTS && 0 < n && Ready(g, checksum, n, st, first, pos) && pos + n == end <= MAX_DIR_SLOTS
    ensures List(st, LongViews(g, checksum, n) + rest, pos) == List(Halfway(g, checksum, 0, first), rest, end)
  {
    var more, next := LongViews(g, checksum, n - 1) + rest, Halfway(g, checksum, n - 1, first);
    LongOne(g, checksum, n, st, rest, first, pos);
    if n > 1 {
      LongRunReads(g, checksum, n - 1, next, rest, first, pos + 1, end);
    } else {
      assert more == rest;
    }
  }

  lemma LongOne(g: seq<seq<Unit16>>, checksum: Byte, n: nat, st: Pending, rest: seq<View>, first: nat, pos: nat)
    requires |g| <= MAX_LFN_SLOTS && 0 < n && Ready(g, checksum, n, st, first, pos) && pos < MAX_DIR_SLOTS
    ensures List(st, LongViews(g, checksum, n) + rest, pos) ==
            List(Halfway(g, checksum, n - 1, first), LongViews(g, checksum, n - 1) + rest, pos + 1)
  {
    LongStep(g, checksum, n, st, first, pos);
    var more := LongViews(g, checksum, n - 1) + rest;
    assert LongViews(g, checksum, n) + rest == [LongView(g, checksum, n - 1)] + more;
    ListStep(st, LongView(g, checksum, n - 1), more, pos, Halfway(g, checksum, n - 1, first), None);
  }

  /** A whole set reads back as one entry with its extent, leaving nothing pending. */
  lemma SetReads(g: seq<seq<Unit16>>, last: View, rest: seq<View>, pos: nat, next: nat)
    requires ProperRow(Set(g, last)) && next == pos + |g| + 1 <= MAX_DIR_SLOTS
    ensures List(CLEAN, LongViews(g, last.checksum, |g|) + ([last] + rest), pos) == RowFound(Set(g, last), pos)
      + List(CLEAN, rest, next)
  {
    var found := RowFound(Set(g, last), pos)[0];
    if g == [] {
      assert StepSlot(CLEAN, last, pos) == (CLEAN, Some(found));
      ListStep(CLEAN, last, rest, pos, CLEAN, Some(found));
      assert LongViews(g, last.checksum, |g|) + ([last] + rest) == [last] + rest;
    } else {
      var half := Halfway(g, last.checksum, 0, pos);
      assert StepSlot(half, last, pos + |g|) == (CLEAN, Some(found));
      ListStep(half, last, rest, pos + |g|, CLEAN, Some(found));
      LongRunReads(g, last.checksum, |g|, CLEAN, [last] + rest, pos, pos, pos + |g|);
    }
  }

  /** A set whose slots carry another checksum than its short name's, as another system may leave
      behind, lists the short name, over all its slots. */
  lemma ForeignSetReads(g: seq<seq<Unit16>>, checksum: Byte, last: View, rest: seq<View>, pos: nat, next: nat)
    requires 0 < |g| <= MAX_LFN_SLOTS && last.Short? && last.checksum != checksum
    requires next == pos + |g| + 1 <= MAX_DIR_SLOTS
    ensures List(CLEAN, LongViews(g, checksum, |g|) + ([last] + rest), pos) ==
            [Placed(Listed(last.shown, last.sfn, last.attr, last.rest), pos, |g| + 1)] + List(CLEAN, rest, next)
  {
    var half := Halfway(g, checksum, 0, pos);
    var found := Placed(Listed(last.shown, last.sfn, last.attr, last.rest), pos, |g| + 1);
    assert StepSlot(half, last, pos + |g|) == (CLEAN, Some(found));
    ListStep(half, last, rest, pos + |g|, CLEAN, Some(found));
    LongRunReads(g, checksum, |g|, CLEAN, [last] + rest, pos, pos, pos + |g|);
  }

  lemma RowReads(r: Row, rest: seq<View>, pos: nat, next: nat)
    requires ProperRow(r) && next == pos + RowLen(r) <= MAX_DIR_SLOTS
    ensures List(CLEAN, RowViews(r) + rest, pos) == RowFound(r, pos) + List(CLEAN, rest, next)
  {
    match r {
      case Set(g, last) =>
        SetReads(g, last, rest, pos, next);
        assert RowViews(r) + rest == LongViews(g, last.checksum, |g|) + ([last] + rest);
      case Skip(v) =>
        ListStep(CLEAN, v, rest, pos, CLEAN, None);
    }
  }

  // ---------------------------------------------------------------- names

  /** The groups in reading order. */
  function Flat(g: seq<seq<Unit16>>): seq<Unit16> {
    if g == [] then [] else g[0] + Flat(g[1..])
  }

  predicate AllWellFormed(g: seq<seq<Unit16>>) { forall i :: 0 <= i < |g| ==> WellFormed(g[i]) }

  function Size(g: seq<seq<Unit16>>): nat { if g == [] then 0 else |g[0]| + Size(g[1..]) }

  lemma {:induction false} FlatSize(g: seq<seq<Unit16>>)
    ensures |Flat(g)| == Size(g)
  {
    if g == [] {
    } else {
      FlatSize(g[1..]);
    }
  }

  lemma {:induction false} JoinedPush(a: seq<seq<Unit16>>, b: seq<seq<Unit16>>)
    ensures Joined(a + b) == Joined(b) + Joined(a)
  {
    if a == [] {
      assert a + b == b && Joined(b) + [] == Joined(b);
    } else {
      JoinedPush(a[1..], b);
      assert (a + b)[1..] == a[1..] + b;
      assert Joined(b) + Joined(a[1..]) + a[0] == Joined(b) + (Joined(a[1..]) + a[0]);
    }
  }

  /** Joining what decodes of groups `i` on: all of them exactly when each decodes, else strictly
      less. */
  lemma {:induction false} GoodJoined(g: seq<seq<Unit16>>, i: nat)
    requires i <= |g| && forall j :: 0 <= j < |g| ==> g[j] != []
    ensures AllWellFormed(g[i..]) ==> Joined(GoodFrom(g, i)) == Flat(g[i..])
    ensures !AllWellFormed(g[i..]) ==> |Joined(GoodFrom(g, i))| < |Flat(g[i..])|
    ensures |Joined(GoodFrom(g, i))| <= |Flat(g[i..])|
    ensures i < |g| && WellFormed(g[i]) ==> GoodFrom(g, i) != []
    decreases |g| - i
  {
    if i >= |g| {
    } else {
      GoodJoined(g, i + 1);
      JoinedPush(GoodFrom(g, i + 1), Kept(g[i]));
      assert g[i..][1..] == g[i + 1..] && g[i..][0] == g[i];
      JoinedOne(g[i]);
      AllFromNext(g[i..]);
    }
  }

  lemma AllFromNext(g: seq<seq<Unit16>>)
    requires g != []
    ensures AllWellFormed(g) <==> WellFormed(g[0]) && AllWellFormed(g[1..])
  {
    var rest := g[1..];
    if AllWellFormed(g) {
      forall j | 0 <= j < |rest|
        ensures WellFormed(rest[j])
      {
        assert rest[j] == g[j + 1];
      }
    }
    if WellFormed(g[0]) && AllWellFormed(rest) {
      forall j | 0 <= j < |g|
        ensures WellFormed(g[j])
      {
        assert j > 0 ==> g[j] == rest[j - 1];
      }
    }
  }

  lemma JoinedOne(piece: seq<Unit16>)
    ensures Joined(Kept(piece)) == if WellFormed(piece) then piece else []
  {
    assert [piece][1..] == [] && [] + piece == piece;
  }

  /** A long name survives exactly when every group of it is UTF-16 by itself. */
  lemma NameSurvives(g: seq<seq<Unit16>>, shown: seq<Unit16>)
    requires g != [] && (forall j :: 0 <= j < |g| ==> g[j] != [])
    ensures AllWellFormed(g) ==> RowName(g, shown) == Flat(g)
    ensures !AllWellFormed(g) ==> (RowName(g, shown) == Flat(g) <==> GoodFrom(g, 0) == [] && shown == Flat(g))
  {
    GoodJoined(g, 0);
    assert g[0..] == g;
  }
}
