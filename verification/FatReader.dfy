/** The FAT directory reader (src/fat/direntry/ser_de.rs, `FatSlotIter`): an iterator over slots on
    the device that yields exactly what the directory lists. */
module FatReaders {
  import opened Basics
  import opened FatSlots
  import opened LfnParser
  import opened SlotBlocks
  import opened SlotPlaces
  import opened FatDirectories
  import D = FatDirShape
  import SN = ShortNames

  /** An entry read back and where its slots are. */
  datatype RawProperties = RawProperties(entry: Listed, chain: SlotChain)

  /** A listed entry as a reader of positions `p` yields it. */
  function AsProperties(f: Found, p: seq<SlotPos>): RawProperties
    requires f.first < |p|
  {
    RawProperties(f.entry, SlotChain(p[f.first], f.len))
  }

  datatype LfnStep = StepContinued | StepStarted | StepOrphan

  class FatSlotIter {
    const d: FatDirectory
    ghost const dir: FatDir
    ghost const p: seq<SlotPos>
    ghost const views: seq<View>
    var cursor: Option<SlotPos>
    var lfnPieces: seq<seq<Unit16>>
    var lfnChecksum: Option<Byte>
    var nextOrd: nat
    var setStart: Option<SlotPos>
    var setLen: nat
    var slotsSeen: nat
    /** The index of `setStart`. */
    ghost var startAt: Option<nat>

    /** The directory is as it was when the iterator was made. */
    ghost predicate Current()
      reads d, d.fs
    {
      d.Laid(dir, p) && On(p, d.device) && views == Views(Contents(d.device, p))
    }

    ghost predicate Valid()
      reads this, d, d.fs
    {
      && Current()
      && (cursor.Some? ==> slotsSeen < |p| && cursor.value == p[slotsSeen])
      && (startAt.Some? ==> startAt.value < |p| && startAt.value <= slotsSeen)
      && setStart == if startAt.Some? then Some(p[startAt.value]) else None
    }

    ghost function St(): Pending
      reads this
    {
      Pending(lfnPieces, lfnChecksum, nextOrd, startAt, setLen)
    }

    /** What is still to come. */
    ghost function Rest(): seq<Found>
      reads this
    {
      if cursor.None? || slotsSeen > |views| then [] else List(St(), views[slotsSeen..], slotsSeen)
    }

    constructor (d: FatDirectory, dir: FatDir, ghost p: seq<SlotPos>)
      requires d.Laid(dir, p) && On(p, d.device)
      ensures Valid() && this.d == d && this.dir == dir && this.p == p && Rest() == D.ReadFrom(Contents(d.device, p), 0)
    {
      this.d, this.dir, this.p := d, dir, p;
      views := Views(Contents(d.device, p));
      lfnPieces, lfnChecksum, nextOrd, setStart, setLen, slotsSeen, startAt := [], None, 0, None, 0, 0, None;
      var first := d.DirFirstSlot(dir, p);
      cursor := Some(first);
      new;
      assert views[0..] == views;
    }

    method ResetSet()
      modifies this`lfnPieces, this`lfnChecksum, this`nextOrd, this`setStart, this`setLen, this`startAt
      ensures St() == CLEAN && setStart == None
    {
      lfnPieces, lfnChecksum, nextOrd, setStart, setLen, startAt := [], None, 0, None, 0, None;
    }

    /** Fold a long-name slot into the pending set. */
    method ConsumeLfn(ok: bool, order: Byte, checksum: Byte, piece: seq<Unit16>) returns (step: LfnStep)
      modifies this`lfnPieces, this`lfnChecksum, this`nextOrd, this`setStart, this`setLen, this`startAt
      ensures var fold := if ok then FoldPiece(old(St()), order, checksum, piece) else Orphan;
        match step
        case StepContinued => fold == Continued(St()) && setStart == old(setStart)
        case StepStarted => fold == StartedNew(St()) && setStart == old(setStart)
        case StepOrphan => fold == Orphan
    {
      if !ok {
        return StepOrphan;
      }
      var last := order / 0x40 % 2 == 1;
      var ord: nat := if last then order - 0x40 else order;
      if last {
        if ord == 0 || ord > MAX_LFN_SLOTS {
          ResetSet();
          return StepOrphan;
        }
        lfnPieces, lfnChecksum, nextOrd := [], Some(checksum), ord;
      } else {
        if nextOrd < 2 || ord != nextOrd - 1 {
          ResetSet();
          return StepOrphan;
        }
        if lfnChecksum != Some(checksum) {
          ResetSet();
          return StepOrphan;
        }
        nextOrd := ord;
      }
      if WellFormed(piece) {
        lfnPieces := lfnPieces + [piece];
      }
      step := if last then StepStarted else StepContinued;
    }

    /** `take_name`: the long name when the set is complete and carries the short name's checksum. */
    method TakeEntryName(sfn: SN.Sfn, shown: seq<Unit16>) returns (name: seq<Unit16>)
      ensures name == TakeName(St(), SfnChecksum(sfn), shown)
    {
      if lfnPieces == [] || nextOrd != 1 {
        return shown;
      }
      var checksum := GenChecksum(sfn);
      if lfnChecksum != Some(checksum) {
        return shown;
      }
      name := [];
      assert lfnPieces[..|lfnPieces|] == lfnPieces;
      for i := |lfnPieces| downto 0
        invariant name + Joined(lfnPieces[..i]) == Joined(lfnPieces)
      {
        JoinedPush(lfnPieces[..i], [lfnPieces[i]]);
        assert lfnPieces[..i + 1] == lfnPieces[..i] + [lfnPieces[i]];
        name := name + lfnPieces[i];
      }
    }

    /** Process one slot. */
    method Step() returns (r: Option<RawProperties>, ghost found: Option<Found>)
      requires Valid() && cursor.Some?
      modifies this
      ensures Valid() && slotsSeen <= old(slotsSeen) + 1 && (cursor.Some? ==> slotsSeen == old(slotsSeen) + 1)
      ensures old(Rest()) == (if found.Some? then [found.value] else []) + Rest()
      ensures found.Some? ==> found.value.first < |p|
      ensures r == if found.Some? then Some(AsProperties(found.value, p)) else None
    {
      found := None;
      if slotsSeen >= MAX_DIR_SLOTS {
        cursor := None;
        return None, None;
      }
      var v := Look();
      if v.End? {
        slotsSeen := slotsSeen + 1;
        cursor := None;
        return None, None;
      }
      r, found := Take(v);
    }

    /** Fold the slot in and move on. */
    method Take(v: View) returns (r: Option<RawProperties>, ghost found: Option<Found>)
      requires Valid() && cursor.Some? && slotsSeen < |views| && v == views[slotsSeen] && !v.End?
      requires v.Short? ==> v.checksum == SfnChecksum(v.sfn)
      modifies this
      ensures Valid() && slotsSeen == old(slotsSeen) + 1
      ensures (St(), found) == StepSlot(old(St()), v, old(slotsSeen))
      ensures Rest() == List(St(), views[slotsSeen..], slotsSeen)
      ensures found.Some? ==> found.value.first < |p|
      ensures r == if found.Some? then Some(AsProperties(found.value, p)) else None
    {
      var pos := cursor.value;
      ghost var i := slotsSeen;
      slotsSeen := slotsSeen + 1;
      r, found := Fold(v, pos, i);
      cursor := d.Advance(pos, dir, p, i);
      ViewPerSlot(Contents(d.device, p));
    }

    /** The slot at the cursor, and what reading on from it comes to. */
    method Look() returns (v: View)
      requires Valid() && cursor.Some? && slotsSeen < MAX_DIR_SLOTS
      ensures slotsSeen < |views| && v == views[slotsSeen]
      ensures v.Short? ==> v.checksum == SfnChecksum(v.sfn)
      ensures v.End? ==> Rest() == []
      ensures !v.End? ==> var (after, found) := StepSlot(St(), v, slotsSeen);
        Rest() == (if found.Some? then [found.value] else []) + List(after, views[slotsSeen + 1..], slotsSeen + 1)
    {
      var slot := d.ReadSlot(cursor.value);
      ViewAt(Contents(d.device, p), slotsSeen);
      ListUnfolds(St(), views, slotsSeen);
      v := ReadView(slot);
    }

    /** What a slot that does not end the directory does to the pending set. */
    method Fold(v: View, pos: SlotPos, ghost i: nat) returns (r: Option<RawProperties>, ghost found: Option<Found>)
      requires !v.End? && i < |p| && pos == p[i] && (v.Short? ==> v.checksum == SfnChecksum(v.sfn))
      requires startAt.Some? ==> startAt.value < |p| && startAt.value <= i
      requires setStart == if startAt.Some? then Some(p[startAt.value]) else None
      modifies this`lfnPieces, this`lfnChecksum, this`nextOrd, this`setStart, this`setLen, this`startAt
      ensures (St(), found) == StepSlot(old(St()), v, i)
      ensures startAt.Some? ==> startAt.value < |p| && startAt.value <= i
      ensures setStart == if startAt.Some? then Some(p[startAt.value]) else None
      ensures found.Some? ==> found.value.first < |p|
      ensures r == if found.Some? then Some(AsProperties(found.value, p)) else None
    {
      r, found := None, None;
      if v.Deleted? {
        ResetSet();
        return;
      }
      ghost var before := St();
      if setStart.None? {
        setStart, startAt := Some(pos), Some(i);
      }
      setLen := setLen + 1;
      assert v.VolumeLabel? || St() == Begun(before, i);
      match v {
        case Long(ok, order, checksum, piece) =>
          var step := ConsumeLfn(ok, order, checksum, piece);
          match step {
            case StepContinued =>
            case StepStarted => setStart, startAt, setLen := Some(pos), Some(i), 1;
            case StepOrphan => ResetSet();
          }
        case VolumeLabel =>
          ResetSet();
        case Short(sfn, checksum, shown, attr, rest) =>
          var name := TakeEntryName(sfn, shown);
          var entry := Listed(name, sfn, attr, rest);
          r := Some(RawProperties(entry, SlotChain(setStart.value, setLen)));
          found := Some(Placed(entry, startAt.value, setLen));
          ResetSet();
      }
    }

    /** The next entry: the iterator yields exactly what is still listed, in order. */
    method Next() returns (r: Option<RawProperties>, ghost found: Option<Found>)
      requires Valid()
      modifies this
      ensures Valid()
      ensures old(Rest()) == (if found.Some? then [found.value] else []) + Rest()
      ensures r.None? ==> old(Rest()) == []
      ensures found.Some? ==> found.value.first < |p|
      ensures r == if found.Some? then Some(AsProperties(found.value, p)) else None
    {
      while cursor.Some?
        invariant Valid() && Rest() == old(Rest())
        decreases if cursor.Some? then 1 + |p| - slotsSeen else 0
      {
        r, found := Step();
        if r.Some? {
          return;
        }
      }
      r, found := None, None;
    }

    /** Of all there is to read, `seen` has been yielded and `e` is in hand. */
    ghost predicate Reads(all: seq<Found>, seen: seq<Found>, e: Option<RawProperties>, found: Option<Found>)
      reads this, d, d.fs
    {
      Valid() && Reading(all, seen, e, found, Rest(), p)
    }

    /** The entry after those seen. */
    method Onward(ghost all: seq<Found>, ghost seen: seq<Found>)
        returns (e: Option<RawProperties>, ghost found: Option<Found>)
      requires Valid() && Inside(seen, p) && all == seen + Rest()
      modifies this
      ensures Reads(all, seen, e, found)
    {
      ghost var rest := Rest();
      e, found := Next();
      ReadingMore(all, seen, rest, e, found, Rest(), p);
    }
  }

  /** What kind of slot this is, and the fields the reader needs. */
  method ReadView(s: Slot) returns (v: View)
    requires Sized(s)
    ensures v == ViewOf(s)
  {
    if s[0] == 0x00 {
      return End;
    }
    if s[0] == 0xE5 {
      return Deleted;
    }
    if s[11] == 0x0F {
      var piece := UnitsToNul(LfnUnits(s));
      return Long(s[12] == 0 && s[26] == 0 && s[27] == 0, s[0], s[13], piece);
    }
    if s[11] / 8 % 2 == 1 {
      return VolumeLabel;
    }
    v := ShortView(SN.Sfn(s[..8], s[8..11]), s[11], s[12..]);
  }

  /** The units before the first NUL. */
  method UnitsToNul(us: seq<Unit16>) returns (piece: seq<Unit16>)
    ensures piece == UpToNul(us)
  {
    var end := 0;
    while end < |us| && us[end] != 0
      invariant end <= |us| && forall i :: 0 <= i < end ==> us[i] != 0
    {
      end := end + 1;
    }
    UpToNulStops(us, end);
    piece := us[..end];
  }

  lemma ViewAt(slots: seq<Slot>, i: nat)
    requires AllSized(slots) && i < |slots|
    ensures Views(slots)[i] == ViewOf(slots[i])
  {
    if i > 0 {
      ViewAt(slots[1..], i - 1);
    }
  }

  /** One slot of what is listed from slot `i` on. */
  lemma ListUnfolds(st: Pending, views: seq<View>, i: nat)
    requires i < |views| && i < MAX_DIR_SLOTS
    ensures views[i].End? ==> List(st, views[i..], i) == []
    ensures !views[i].End? ==> var (after, found) := StepSlot(st, views[i], i);
      List(st, views[i..], i) == (if found.Some? then [found.value] else []) + List(after, views[i + 1..], i + 1)
  {
    assert views[i..][1..] == views[i + 1..] && views[i..][0] == views[i];
  }

  /** Listed entries as a reader of positions `p` yields them. */
  function AllProperties(all: seq<Found>, p: seq<SlotPos>): (r: seq<RawProperties>)
    requires Inside(all, p)
    ensures |r| == |all| && forall k :: 0 <= k < |all| ==> r[k] == AsProperties(all[k], p)
  {
    seq(|all|, k requires 0 <= k < |all| => AsProperties(all[k], p))
  }

  predicate Inside(all: seq<Found>, p: seq<SlotPos>) { forall k :: 0 <= k < |all| ==> all[k].first < |p| }

  /** A reader has yielded `seen` of all there is; `e` is the entry in its hand and `rest` comes
      after that. */
  ghost predicate Reading(all: seq<Found>, seen: seq<Found>, e: Option<RawProperties>, found: Option<Found>,
      rest: seq<Found>, p: seq<SlotPos>) {
    && Inside(seen, p)
    && all == seen + (if found.Some? then [found.value] else []) + rest
    && (e.None? ==> rest == [])
    && (found.Some? ==> found.value.first < |p|)
    && e == if found.Some? then Some(AsProperties(found.value, p)) else None
  }

  lemma ReadingMore(all: seq<Found>, seen: seq<Found>, rest: seq<Found>, e: Option<RawProperties>,
      found: Option<Found>, after: seq<Found>, p: seq<SlotPos>)
    requires Inside(seen, p) && all == seen + rest
    requires rest == (if found.Some? then [found.value] else []) + after && (e.None? ==> rest == [])
    requires found.Some? ==> found.value.first < |p|
    requires e == if found.Some? then Some(AsProperties(found.value, p)) else None
    ensures Reading(all, seen, e, found, after, p)
  {
  }

  /** The entry in hand becomes one of those seen. */
  lemma ReadingNext(all: seq<Found>, seen: seq<Found>, e: Option<RawProperties>, found: Option<Found>,
      rest: seq<Found>, p: seq<SlotPos>)
    requires Reading(all, seen, e, found, rest, p)
    ensures e.None? ==> seen == all
    ensures e.Some? ==> found.Some? && Inside(seen + [found.value], p) && all == seen + [found.value] + rest
  {
  }

  /** Every entry starts at a slot that was read. */
  lemma {:induction false} ListStarts(st: Pending, views: seq<View>, pos: nat, end: nat)
    requires end == pos + |views| && (st.start.Some? ==> st.start.value <= pos)
    ensures forall f :: f in List(st, views, pos) ==> f.first < end
    decreases |views|
  {
    if views == [] || pos >= MAX_DIR_SLOTS || views[0].End? {
    } else {
      var (after, found) := StepSlot(st, views[0], pos);
      ListStarts(after, views[1..], pos + 1, end);
    }
  }

  lemma {:induction false} ViewPerSlot(slots: seq<Slot>)
    requires AllSized(slots)
    ensures |Views(slots)| == |slots|
  {
    if slots == [] {
    } else {
      ViewPerSlot(slots[1..]);
    }
  }

  lemma ReadInside(slots: seq<Slot>, p: seq<SlotPos>)
    requires |slots| == |p|
    ensures Inside(D.ReadFrom(slots, 0), p)
  {
    if AllSized(slots) {
      ViewPerSlot(slots);
      ListStarts(CLEAN, Views(slots), 0, |p|);
    }
  }

  const CURRENT_DIR_NAME: seq<Unit16> := [0x2E]
  const PARENT_DIR_NAME: seq<Unit16> := [0x2E, 0x2E]

  predicate IsDots(e: RawProperties) { e.entry.name == CURRENT_DIR_NAME || e.entry.name == PARENT_DIR_NAME }

  /** The entries without `.` and `..`. */
  function Visible(all: seq<RawProperties>): seq<RawProperties> {
    if all == [] then []
    else
      var last := all[|all| - 1];
      Visible(all[..|all| - 1]) + if IsDots(last) then [] else [last]
  }

  /** `Visible` leaves out exactly `.` and `..`. */
  lemma {:induction false} VisibleExactly(all: seq<RawProperties>)
    ensures forall e :: e in Visible(all) <==> e in all && e.entry.name != [0x2E] && e.entry.name != [0x2E, 0x2E]
  {
    if all == [] {
    } else {
      VisibleExactly(all[..|all| - 1]);
    }
  }

  /** `Visible` keeps the order. */
  lemma {:induction false} VisibleConcat(a: seq<RawProperties>, b: seq<RawProperties>)
    ensures Visible(a + b) == Visible(a) + Visible(b)
  {
    if b == [] {
      assert a + b == a;
    } else {
      VisibleConcat(a, b[..|b| - 1]);
      assert (a + b)[..|a + b| - 1] == a + b[..|b| - 1];
    }
  }

  /** `list_entries`: everything the directory lists but `.` and `..`, in order. */
  method ListEntries(d: FatDirectory, dir: FatDir, ghost p: seq<SlotPos>) returns (out: seq<RawProperties>)
    requires d.Laid(dir, p) && On(p, d.device)
    ensures Inside(D.ReadFrom(Contents(d.device, p), 0), p)
    ensures out == Visible(AllProperties(D.ReadFrom(Contents(d.device, p), 0), p))
  {
    ReadInside(Contents(d.device, p), p);
    out := [];
    var it := new FatSlotIter(d, dir, p);
    ghost var all, seen: seq<Found> := it.Rest(), [];
    var e, found := it.Onward(all, seen);
    while e.Some?
      invariant it.d == d && it.p == p && fresh(it) && it.Reads(all, seen, e, found)
      invariant Inside(seen, p) && out == Visible(AllProperties(seen, p))
      decreases |all| - |seen|
    {
      VisiblePush(seen, found.value, p);
      if e.value.entry.name != CURRENT_DIR_NAME && e.value.entry.name != PARENT_DIR_NAME {
        out := out + [e.value];
      }
      ReadingNext(all, seen, e, found, it.Rest(), p);
      seen := seen + [found.value];
      e, found := it.Onward(all, seen);
    }
    ReadingNext(all, seen, e, found, it.Rest(), p);
  }

  lemma VisiblePush(seen: seq<Found>, f: Found, p: seq<SlotPos>)
    requires Inside(seen, p) && f.first < |p|
    ensures var e := AsProperties(f, p);
      Inside(seen + [f], p) &&
      Visible(AllProperties(seen + [f], p)) == Visible(AllProperties(seen, p)) + if IsDots(e) then [] else [e]
  {
    var all := AllProperties(seen, p);
    assert AllProperties(seen + [f], p) == all + [AsProperties(f, p)];
    assert (all + [AsProperties(f, p)])[..|all|] == all;
  }

  /** The first entry of a list that matches. */
  ghost predicate FirstMatch(all: seq<RawProperties>, matches: seq<Unit16> -> bool, r: Option<RawProperties>) {
    match r
    case None => NoMatch(all, |all|, matches)
    case Some(e) => exists k :: 0 <= k < |all| && all[k] == e && matches(e.entry.name) && NoMatch(all, k, matches)
  }

  /** None of the first `k` entries matches. */
  ghost predicate NoMatch(all: seq<RawProperties>, k: nat, matches: seq<Unit16> -> bool)
    requires k <= |all|
  {
    forall j :: 0 <= j < k ==> !matches(all[j].entry.name)
  }

  /** The entry that comes after those seen is the first match if it matches. */
  lemma MatchNext(seen: seq<Found>, f: Found, rest: seq<Found>, all: seq<Found>, p: seq<SlotPos>,
      matches: seq<Unit16> -> bool)
    requires Inside(all, p) && all == seen + [f] + rest
    requires Inside(seen, p) && NoMatch(AllProperties(seen, p), |seen|, matches)
    ensures f.first < |p| && NoMatch(AllProperties(all, p), |seen|, matches)
    ensures var e := AsProperties(f, p);
      if matches(e.entry.name) then FirstMatch(AllProperties(all, p), matches, Some(e))
      else Inside(seen + [f], p) && NoMatch(AllProperties(seen + [f], p), |seen| + 1, matches)
  {
    var ps := AllProperties(all, p);
    assert all[|seen|] == f && ps[|seen|] == AsProperties(f, p);
    forall j | 0 <= j < |seen|
      ensures ps[j] == AllProperties(seen, p)[j]
    {
      assert all[j] == seen[j];
    }
  }

  /** `lookup_with`: the first listed entry whose name matches. */
  method Lookup(d: FatDirectory, dir: FatDir, matches: seq<Unit16> -> bool, ghost p: seq<SlotPos>)
      returns (r: Option<RawProperties>)
    requires d.Laid(dir, p) && On(p, d.device)
    ensures Inside(D.ReadFrom(Contents(d.device, p), 0), p)
    ensures FirstMatch(AllProperties(D.ReadFrom(Contents(d.device, p), 0), p), matches, r)
  {
    ReadInside(Contents(d.device, p), p);
    var it := new FatSlotIter(d, dir, p);
    ghost var all, seen: seq<Found> := it.Rest(), [];
    var e, found := it.Onward(all, seen);
    while e.Some?
      invariant it.d == d && it.p == p && fresh(it) && it.Reads(all, seen, e, found)
      invariant Inside(seen, p) && NoMatch(AllProperties(seen, p), |seen|, matches)
      decreases |all| - |seen|
    {
      MatchNext(seen, found.value, it.Rest(), all, p, matches);
      if matches(e.value.entry.name) {
        return e;
      }
      ReadingNext(all, seen, e, found, it.Rest(), p);
      seen := seen + [found.value];
      e, found := it.Onward(all, seen);
    }
    ReadingNext(all, seen, e, found, it.Rest(), p);
    r := None;
  }
}
