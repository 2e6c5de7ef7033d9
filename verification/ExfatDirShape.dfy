/** exFAT directories as a whole (src/exfat/direntry.rs, src/exfat/dir_io.rs): what a directory stream
    lists, and that locating, appending and unlinking entry sets agree with the listing. */
module ExfatDirShape {
  import opened Basics
  import opened SlotBlocks
  import opened ExfatSets
  import L = LfnParser

  // ---------------------------------------------------------------- names

  function NameUnits(ns: seq<NameEntry>): seq<Unit16> {
    if ns == [] then [] else ns[0].units + NameUnits(ns[1..])
  }

  /** The name of a set: as many units of its name entries as the stream extension says. */
  function NameOf(s: FileSet): seq<Unit16> {
    NameUnits(s.names)[..Min(s.stream.nameLength, |NameUnits(s.names)|)]
  }

  function Padded(us: seq<Unit16>): (r: seq<Unit16>)
    requires |us| <= UNITS_PER_NAME
    ensures |r| == UNITS_PER_NAME && r[..|us|] == us
  {
    us + seq(UNITS_PER_NAME - |us|, i => 0)
  }

  /** A name in entries of 15 units, the last one padded with zeros; at least one entry. */
  function NameEntries(name: seq<Unit16>): (r: seq<NameEntry>)
    ensures r != [] && forall i :: 0 <= i < |r| ==> NameFits(r[i])
  {
    if |name| <= UNITS_PER_NAME then [NameEntry(0, Padded(name))]
    else [NameEntry(0, name[..UNITS_PER_NAME])] + NameEntries(name[UNITS_PER_NAME..])
  }

  lemma {:induction false} NameEntriesHold(name: seq<Unit16>)
    ensures |NameEntries(name)| * UNITS_PER_NAME < |name| + UNITS_PER_NAME + (if name == [] then 1 else 0)
    ensures name <= NameUnits(NameEntries(name))
  {
    var r := NameEntries(name);
    if |name| > UNITS_PER_NAME {
      NameEntriesHold(name[UNITS_PER_NAME..]);
      assert r[1..] == NameEntries(name[UNITS_PER_NAME..]);
      assert name == name[..UNITS_PER_NAME] + name[UNITS_PER_NAME..];
    } else {
      assert r[1..] == [];
    }
  }

  /** The entries of a name say nothing else: their flags are clear, and the units behind it zero. */
  lemma {:induction false} NameEntriesPadded(name: seq<Unit16>)
    ensures forall e :: e in NameEntries(name) ==> e.flags == 0
    ensures |name| <= |NameUnits(NameEntries(name))|
    ensures forall k :: |name| <= k < |NameUnits(NameEntries(name))| ==> NameUnits(NameEntries(name))[k] == 0
  {
    var r := NameEntries(name);
    if |name| > UNITS_PER_NAME {
      NameEntriesPadded(name[UNITS_PER_NAME..]);
      assert r[1..] == NameEntries(name[UNITS_PER_NAME..]);
    } else {
      assert r[1..] == [] && NameUnits(r) == r[0].units;
    }
  }

  /** `compose_file_entry_set`: a new set for a name of at most 255 units. */
  function NewSet(name: seq<Unit16>, meta: seq<Byte>, stream: Stream): FileSet
    requires |name| <= 255
  {
    FileSet(meta, stream.(nameLength := |name|), NameEntries(name))
  }

  /** A new set carries the name it was made with. */
  lemma NewSetName(name: seq<Unit16>, meta: seq<Byte>, stream: Stream)
    requires |name| <= 255 && |meta| == 28 && StreamFits(stream)
    ensures SetFits(NewSet(name, meta, stream)) && NameOf(NewSet(name, meta, stream)) == name
  {
    NameEntriesHold(name);
  }

  // ---------------------------------------------------------------- listing

  /** A resolved entry. */
  datatype ExEntry = ExEntry(name: seq<Unit16>, meta: seq<Byte>, stream: Stream)

  type Found = Placed<ExEntry>

  type DirBlock = Block<Slot, ExEntry>

  function EntryOf(s: FileSet): ExEntry { ExEntry(NameOf(s), s.meta, s.stream) }

  /** `try_decode_file_set`: a valid set whose name is UTF-16. */
  function TryDecode(slots: seq<Slot>): (r: Option<(ExEntry, nat)>)
    requires AllSized(slots)
    ensures r.Some? ==> 0 < r.value.1 <= |slots|
  {
    match Decode(slots)
    case None => None
    case Some((s, n)) => if L.WellFormed(NameOf(s)) then Some((EntryOf(s), n)) else None
  }

  /** `TryDecode`, defined everywhere. */
  function TryAt(slots: seq<Slot>): Option<(ExEntry, nat)> { if AllSized(slots) then TryDecode(slots) else None }

  /** A scan for sets with a given decoder, from slot `pos` on: past a set it decodes, past one slot
      otherwise, up to an end marker. */
  function ReadWith(slots: seq<Slot>, pos: nat, decode: seq<Slot> -> Option<(ExEntry, nat)>): seq<Found> {
    if slots == [] || !AllSized(slots) || slots[0][0] == END_OF_DIRECTORY then []
    else if slots[0][0] == TYPE_FILE && decode(slots).Some? && 0 < decode(slots).value.1 <= |slots| then
      var (e, n) := decode(slots).value;
      [Placed(e, pos, n)] + ReadWith(slots[n..], pos + n, decode)
    else ReadWith(slots[1..], pos + 1, decode)
  }

  /** What `DirEntryDecoder` yields from slot `pos` on; `slots` are the slots from there. */
  function ReadFrom(slots: seq<Slot>, pos: nat): seq<Found> { ReadWith(slots, pos, TryAt) }

  /** The first entry a stretch of slots yields. */
  function FirstEntry(slots: seq<Slot>): Option<ExEntry> {
    if ReadFrom(slots, 0) == [] then None else Some(ReadFrom(slots, 0)[0].entry)
  }

  /** A search for a name: a `0x85` slot is decoded by `first` in the stretch it claims; one that
      yields nothing there is skipped alone. */
  function LocateWith(slots: seq<Slot>, pos: nat, matches: seq<Unit16> -> bool,
      first: seq<Slot> -> Option<ExEntry>): Option<(nat, nat)> {
    if slots == [] || !AllSized(slots) || slots[0][0] == END_OF_DIRECTORY then None
    else if slots[0][0] != TYPE_FILE || 1 + CountOf(slots[0]) > |slots|
      then LocateWith(slots[1..], pos + 1, matches, first)
    else
      var n := 1 + CountOf(slots[0]);
      match first(slots[..n])
      case None => LocateWith(slots[1..], pos + 1, matches, first)
      case Some(e) => if matches(e.name) then Some((pos, n)) else LocateWith(slots[n..], pos + n, matches, first)
  }

  /** `locate_entry_set_in`: the slot and length of the first set whose name matches. */
  function LocateFrom(slots: seq<Slot>, pos: nat, matches: seq<Unit16> -> bool): Option<(nat, nat)> {
    LocateWith(slots, pos, matches, FirstEntry)
  }

  // ---------------------------------------------------------------- well-formed directories

  predicate IsEnd(s: Slot) { s != [] && s[0] == END_OF_DIRECTORY }

  /** An entry set whose name is UTF-16. */
  predicate Listable(s: FileSet) { SetFits(s) && L.WellFormed(NameOf(s)) }

  /** A slot that is neither an end marker nor the start of a set: deleted entries, metadata. */
  predicate Skipped(s: Slot) { Sized(s) && s[0] != END_OF_DIRECTORY && s[0] != TYPE_FILE }

  function SetBlock(s: FileSet): DirBlock
    requires SetFits(s)
  {
    Block(Encode(s), Some(EntryOf(s)))
  }

  /** Every `0x85` slot starts a valid set. */
  ghost predicate Lawful(b: DirBlock) {
    || (exists s :: Listable(s) && b == SetBlock(s))
    || (exists slot :: Skipped(slot) && b == Block([slot], None))
  }

  ghost function ExLaw(): Law<Slot, ExEntry> { Law(Lawful, Sized, IsEnd, IsEnd) }

  predicate NoEnd(slots: seq<Slot>) { forall i :: 0 <= i < |slots| ==> !IsEnd(slots[i]) }

  lemma {:induction false} NamesNoEnd(ns: seq<NameEntry>)
    requires forall i :: 0 <= i < |ns| ==> NameFits(ns[i])
    ensures NoEnd(EncodeNames(ns))
  {
    if ns == [] {
    } else {
      NamesNoEnd(ns[1..]);
    }
  }

  lemma SetNoEnd(s: FileSet)
    requires SetFits(s)
    ensures NoEnd(Encode(s)) && Encode(s)[0][0] == TYPE_FILE && Encode(s)[1][0] == TYPE_STREAM
  {
    NamesNoEnd(s.names);
    assert Encode(s)[1] == EncodeStream(s.stream);
    forall i | 0 <= i < |Encode(s)|
      ensures !IsEnd(Encode(s)[i])
    {
      if i >= 2 {
        assert Encode(s)[i] == EncodeNames(s.names)[i - 2];
      }
    }
  }

  lemma LawfulWhole(b: DirBlock)
    requires Lawful(b)
    ensures b.slots != [] && NoEnd(b.slots) && Whole(b, IsEnd) && Each(b.slots, Sized)
  {
    if s :| Listable(s) && b == SetBlock(s) {
      SetNoEnd(s);
    }
  }

  lemma ExCoherent()
    ensures Coherent(ExLaw())
  {
    forall b | Lawful(b)
      ensures Whole(b, IsEnd) && Each(b.slots, Sized)
    {
      LawfulWhole(b);
    }
  }

  // ---------------------------------------------------------------- print and parse

  /** A stretch that decodes is listed, and reading goes on after it. */
  lemma ReadChunk(chunk: seq<Slot>, e: ExEntry, rest: seq<Slot>, pos: nat, next: nat,
      decode: seq<Slot> -> Option<(ExEntry, nat)>)
    requires chunk != [] && AllSized(chunk) && AllSized(rest) && chunk[0][0] == TYPE_FILE && next == pos + |chunk|
    requires decode(chunk + rest) == Some((e, |chunk|))
    ensures ReadWith(chunk + rest, pos, decode) == [Placed(e, pos, |chunk|)] + ReadWith(rest, next, decode)
  {
    var all := chunk + rest;
    assert all[0] == chunk[0] && all[|chunk|..] == rest;
  }

  lemma ReadSkip(slot: Slot, rest: seq<Slot>, pos: nat, next: nat, decode: seq<Slot> -> Option<(ExEntry, nat)>)
    requires Skipped(slot) && AllSized(rest) && next == pos + 1
    ensures ReadWith([slot] + rest, pos, decode) == [] + ReadWith(rest, next, decode)
  {
    var all := [slot] + rest;
    assert AllSized(all) && all[1..] == rest;
  }

  lemma SetTries(s: FileSet, rest: seq<Slot>)
    requires Listable(s) && AllSized(rest)
    ensures AllSized(Encode(s)) && TryAt(Encode(s) + rest) == Some((EntryOf(s), |Encode(s)|)) &&
      Encode(s)[0][0] == TYPE_FILE
  {
    SetRoundTrip(s, rest);
    SetNoEnd(s);
  }

  lemma BlockReads(b: DirBlock, rest: seq<Slot>, pos: nat, next: nat, read: seq<Slot> -> Option<(ExEntry, nat)>)
    requires Lawful(b) && AllSized(rest) && next == pos + |b.slots| && read == TryAt
    ensures ReadWith(b.slots + rest, pos, read) == ListOne(b, pos) + ReadWith(rest, next, read)
  {
    if s :| Listable(s) && b == SetBlock(s) {
      SetTries(s, rest);
      ReadChunk(b.slots, EntryOf(s), rest, pos, next, read);
    } else {
      var slot :| Skipped(slot) && b == Block([slot], None);
      ReadSkip(slot, rest, pos, next, read);
    }
  }

  lemma ExReads(limit: nat)
    ensures Reads(ReadFrom, ExLaw(), limit)
  {
    forall b: DirBlock, rest: seq<Slot>, pos: nat, next: nat | Lawful(b) && Each(rest, Sized) &&
      next == pos + |b.slots| <= limit
      ensures ReadFrom(b.slots + rest, pos) == ListOne(b, pos) + ReadFrom(rest, next)
    {
      assert AllSized(rest);
      BlockReads(b, rest, pos, next, TryAt);
    }
  }

  lemma EndStops(tail: seq<Slot>)
    requires tail == [] || IsEnd(tail[0])
    ensures Stops(ReadFrom, tail)
  {
    forall p: nat
      ensures ReadFrom(tail, p) == []
    {
    }
  }

  lemma TailEnds(slots: seq<Slot>, bs: seq<DirBlock>)
    requires Holds(slots, bs, ExLaw())
    ensures |Print(bs)| <= |slots| && (slots[|Print(bs)|..] == [] || IsEnd(slots[|Print(bs)|..][0]))
  {
    if |Print(bs)| < |slots| {
      SlotEnds(slots, |Print(bs)|, |Print(bs)|, IsEnd);
    }
  }

  /** A well-formed directory stream lists exactly its sets. */
  lemma HoldsLists(slots: seq<Slot>, bs: seq<DirBlock>)
    requires Holds(slots, bs, ExLaw())
    ensures ReadFrom(slots, 0) == Listing(bs, 0)
  {
    ExCoherent();
    ExReads(|Print(bs)|);
    TailEnds(slots, bs);
    EndStops(slots[|Print(bs)|..]);
    HoldsReads(slots, bs, ReadFrom, ExLaw(), |Print(bs)|);
  }

  /** Slots that start no set list nothing. */
  lemma {:induction false} SkippedRun(slots: seq<Slot>, rest: seq<Slot>, pos: nat, next: nat)
    requires AllSized(rest) && next == pos + |slots| && forall i :: 0 <= i < |slots| ==> Skipped(slots[i])
    ensures AllSized(slots + rest) && ReadFrom(slots + rest, pos) == ReadFrom(rest, next)
    decreases |slots|
  {
    if slots == [] {
      assert slots + rest == rest;
    } else {
      SkippedRun(slots[1..], rest, pos + 1, next);
      ReadSkip(slots[0], slots[1..] + rest, pos, pos + 1, TryAt);
      assert slots + rest == [slots[0]] + (slots[1..] + rest);
    }
  }

  /** A `0x85` slot and as many others as it claims that are no valid set, or one whose name is no
      UTF-16, list nothing, and reading goes on behind them. */
  lemma HiddenSet(head: Slot, others: seq<Slot>, rest: seq<Slot>, pos: nat, next: nat)
    requires Sized(head) && head[0] == TYPE_FILE && CountOf(head) == |others| && AllSized(rest)
    requires forall i :: 0 <= i < |others| ==> Skipped(others[i])
    requires AllSized(others) && (IsSet(head, others) ==> !L.WellFormed(NameOf(SetOf(head, others))))
    requires next == pos + 1 + |others|
    ensures AllSized([head] + (others + rest)) && ReadFrom([head] + (others + rest), pos) == ReadFrom(rest, next)
  {
    var all := [head] + (others + rest);
    assert all[0] == head && all[1..1 + |others|] == others && all[1..] == others + rest;
    SkippedRun(others, rest, pos + 1, next);
    assert TryAt(all) == None;
  }

  /** A set under another checksum than its own, as torn writes leave it, is not listed. */
  lemma ForeignSumHidden(s: FileSet, sum: Unit16, rest: seq<Slot>, pos: nat, next: nat)
    requires SetFits(s) && sum != SumFor(1 + |s.names|, s.meta, Secondaries(s)) && AllSized(rest)
    requires next == pos + |Encode(s)|
    ensures var slots := [Primary(1 + |s.names|, sum, s.meta)] + (Secondaries(s) + rest);
      AllSized(slots) && ReadFrom(slots, pos) == ReadFrom(rest, next)
  {
    var head, others := Primary(1 + |s.names|, sum, s.meta), Secondaries(s);
    ChecksumField(1 + |s.names|, sum, s.meta, others);
    forall i | 0 <= i < |others|
      ensures Skipped(others[i])
    {
      SetTypes(s, i + 1);
      assert Encode(s)[i + 1] == others[i];
    }
    HiddenSet(head, others, rest, pos, next);
  }

  // ---------------------------------------------------------------- locate

  /** Locating passes a stretch that decodes the way listing does. */
  lemma LocateChunk(chunk: seq<Slot>, e: ExEntry, rest: seq<Slot>, pos: nat, next: nat, matches: seq<Unit16> -> bool,
      first: seq<Slot> -> Option<ExEntry>)
    requires chunk != [] && AllSized(chunk) && AllSized(rest) && chunk[0][0] == TYPE_FILE &&
      1 + CountOf(chunk[0]) == |chunk| && next == pos + |chunk|
    requires first(chunk) == Some(e)
    ensures LocateWith(chunk + rest, pos, matches, first) == if matches(e.name) then Some((pos, |chunk|))
      else LocateWith(rest, next, matches, first)
  {
    var all := chunk + rest;
    assert all[0] == chunk[0] && all[..|chunk|] == chunk && all[|chunk|..] == rest;
  }

  lemma LocateSkip(slot: Slot, rest: seq<Slot>, pos: nat, next: nat, matches: seq<Unit16> -> bool,
      first: seq<Slot> -> Option<ExEntry>)
    requires Skipped(slot) && AllSized(rest) && next == pos + 1
    ensures LocateWith([slot] + rest, pos, matches, first) == LocateWith(rest, next, matches, first)
  {
    var all := [slot] + rest;
    assert AllSized(all) && all[1..] == rest;
  }

  lemma SetFirst(s: FileSet)
    requires Listable(s)
    ensures AllSized(Encode(s)) && FirstEntry(Encode(s)) == Some(EntryOf(s)) && Encode(s)[0][0] == TYPE_FILE &&
      1 + CountOf(Encode(s)[0]) == |Encode(s)|
  {
    SetTries(s, []);
    ReadChunk(Encode(s), EntryOf(s), [], 0, |Encode(s)|, TryAt);
    assert Encode(s) + [] == Encode(s);
  }

  /** Whether an entry's name matches. */
  ghost function Named(matches: seq<Unit16> -> bool): ExEntry -> bool { (e: ExEntry) => matches(e.name) }

  lemma LocateBlock(b: DirBlock, rest: seq<Slot>, pos: nat, next: nat, matches: seq<Unit16> -> bool,
      first: seq<Slot> -> Option<ExEntry>)
    requires Lawful(b) && AllSized(rest) && next == pos + |b.slots| && first == FirstEntry
    ensures LocateWith(b.slots + rest, pos, matches, first)
      == FoundAt(b, pos, LocateWith(rest, next, matches, first), Named(matches))
  {
    if s :| Listable(s) && b == SetBlock(s) {
      SetFirst(s);
      LocateChunk(b.slots, EntryOf(s), rest, pos, next, matches, first);
    } else {
      var slot :| Skipped(slot) && b == Block([slot], None);
      LocateSkip(slot, rest, pos, next, matches, first);
    }
  }

  /** On a well-formed directory stream, locating a name finds the first set the listing yields
      under it. */
  lemma LocateAgrees(slots: seq<Slot>, matches: seq<Unit16> -> bool)
    requires Tidy(slots)
    ensures LocateFrom(slots, 0, matches) == FirstPicked(ReadFrom(slots, 0), Named(matches))
  {
    var bs: seq<DirBlock> :| Holds(slots, bs, ExLaw());
    HoldsLists(slots, bs);
    TailEnds(slots, bs);
    ExCoherent();
    LocateHolds(slots, bs, matches, FirstEntry);
  }

  lemma LocateHolds(slots: seq<Slot>, bs: seq<DirBlock>, matches: seq<Unit16> -> bool,
      first: seq<Slot> -> Option<ExEntry>)
    requires Coherent(ExLaw()) && Holds(slots, bs, ExLaw()) &&
      (slots[|Print(bs)|..] == [] || IsEnd(slots[|Print(bs)|..][0])) && first == FirstEntry
    ensures LocateWith(slots, 0, matches, first) == FirstPicked(Listing(bs, 0), Named(matches))
  {
    var n := |Print(bs)|;
    assert slots == Print(bs) + slots[n..];
    EachSlice(slots, n, |slots|, Sized);
    assert slots[n..|slots|] == slots[n..];
    var find := (s: seq<Slot>, p: nat) => LocateWith(s, p, matches, first);
    forall b: DirBlock, rest: seq<Slot>, p: nat, next: nat | Lawful(b) && Each(rest, Sized) && next == p + |b.slots|
      ensures find(b.slots + rest, p) == FoundAt(b, p, find(rest, next), Named(matches))
    {
      assert AllSized(rest);
      LocateBlock(b, rest, p, next, matches, first);
    }
    PrintFinds(bs, slots[n..], 0, find, ExLaw(), Named(matches));
  }

  /** Where a name is located: at the first entry listed under it, and nowhere only when no entry is. */
  lemma LocateIsFirst(slots: seq<Slot>, matches: seq<Unit16> -> bool)
    requires Tidy(slots)
    ensures LocateFrom(slots, 0, matches).None? ==> forall e :: e in ReadSet(slots) ==> !matches(e.entry.name)
    ensures LocateFrom(slots, 0, matches).Some? ==>
      exists e :: IsFirst(slots, e, matches) && LocateFrom(slots, 0, matches).value == (e.first, e.len)
  {
    var bs: seq<DirBlock> :| Holds(slots, bs, ExLaw());
    HoldsLists(slots, bs);
    LocateAgrees(slots, matches);
    ExCoherent();
    EachWhole(bs, ExLaw());
    if ReadFrom(slots, 0) != [] {
      var e := PickedIs(bs, 0, Named(matches), IsEnd);
      assert LocateFrom(slots, 0, matches).Some? ==> IsFirst(slots, e, matches);
    }
  }

  /** The first entry listed under a matching name. */
  ghost predicate IsFirst(slots: seq<Slot>, e: Found, matches: seq<Unit16> -> bool) {
    e in ReadSet(slots) && matches(e.entry.name) && forall f :: f in ReadSet(slots) && matches(f.entry.name) ==>
      e.first <= f.first
  }

  /** Elsewhere it may not: a malformed `0x85` slot that claims the set after it makes that set be
      found one slot too early and one slot too long. */
  lemma NestedSetMislocated(head: Slot, s: FileSet, matches: seq<Unit16> -> bool)
    requires Sized(head) && head[0] == TYPE_FILE && Listable(s) && CountOf(head) == |Encode(s)| && matches(NameOf(s))
    ensures ReadFrom([head] + Encode(s), 0) == [Placed(EntryOf(s), 1, |Encode(s)|)]
    ensures LocateFrom([head] + Encode(s), 0, matches) == Some((0, |Encode(s)| + 1))
  {
    var all := [head] + Encode(s);
    SetTries(s, []);
    ReadChunk(Encode(s), EntryOf(s), [], 1, 1 + |Encode(s)|, TryAt);
    assert Encode(s) + [] == Encode(s);
    assert AllSized(all) && all[1..] == Encode(s) && all[..|all|] == all;
    SetNoEnd(s);
    assert Decode(all) == None;
    ReadLater(head, s);
  }

  lemma ReadLater(head: Slot, s: FileSet)
    requires Sized(head) && head[0] == TYPE_FILE && Listable(s) && AllSized([head] + Encode(s)) &&
      Decode([head] + Encode(s)) == None
    ensures FirstEntry([head] + Encode(s)) == Some(EntryOf(s))
  {
    SetTries(s, []);
    ReadChunk(Encode(s), EntryOf(s), [], 1, 1 + |Encode(s)|, TryAt);
    assert Encode(s) + [] == Encode(s) && ([head] + Encode(s))[1..] == Encode(s);
  }

  // ---------------------------------------------------------------- append and unlink

  /** Valid sets, deleted and metadata entries, then nothing but end markers. */
  ghost predicate Tidy(slots: seq<Slot>) { exists bs :: Holds(slots, bs, ExLaw()) }

  ghost function ReadSet(slots: seq<Slot>): set<Found> { set e | e in ReadFrom(slots, 0) }

  /** The first end marker, or the end of the slots. */
  function FirstEnd(slots: seq<Slot>): (n: nat)
    ensures n <= |slots| && (n < |slots| ==> IsEnd(slots[n])) && NoEnd(slots[..n])
  {
    if slots == [] || IsEnd(slots[0]) then 0 else 1 + FirstEnd(slots[1..])
  }

  lemma NoEndTail(slots: seq<Slot>)
    requires NoEnd(slots) && slots != []
    ensures NoEnd(slots[1..])
  {
  }

  lemma {:induction false} FirstEndIs(slots: seq<Slot>, n: nat)
    requires n <= |slots| && NoEnd(slots[..n]) && (n < |slots| ==> IsEnd(slots[n]))
    ensures FirstEnd(slots) == n
  {
    if n == 0 {
    } else {
      assert !IsEnd(slots[..n][0]);
      NoEndTail(slots[..n]);
      assert slots[1..][..n - 1] == slots[..n][1..];
      FirstEndIs(slots[1..], n - 1);
    }
  }

  lemma {:induction false} PrintNoEnd(bs: seq<DirBlock>)
    requires Each(bs, Lawful)
    ensures NoEnd(Print(bs))
  {
    if bs == [] {
    } else {
      LawfulWhole(bs[0]);
      EachSlice(bs, 1, |bs|, Lawful);
      assert bs[1..|bs|] == bs[1..];
      PrintNoEnd(bs[1..]);
    }
  }

  /** The sets end where the first end marker is. */
  lemma EndsAtPrint(slots: seq<Slot>, bs: seq<DirBlock>)
    requires Holds(slots, bs, ExLaw())
    ensures FirstEnd(slots) == |Print(bs)|
  {
    PrintNoEnd(bs);
    TailEnds(slots, bs);
    assert slots[..|Print(bs)|] == Print(bs);
    FirstEndIs(slots, |Print(bs)|);
  }

  /** Writing a set at the first end marker: the listing gains exactly that entry at that place, and
      everything after the set is still an end marker. */
  lemma TidyAppend(slots: seq<Slot>, s: FileSet, at: nat)
    requires Tidy(slots) && Listable(s) && at == FirstEnd(slots) && at + |Encode(s)| <= |slots|
    ensures Tidy(Splice(slots, at, Encode(s)))
    ensures ReadSet(Splice(slots, at, Encode(s))) == ReadSet(slots) + {Placed(EntryOf(s), at, |Encode(s)|)}
  {
    var bs: seq<DirBlock> :| Holds(slots, bs, ExLaw());
    EndsAtPrint(slots, bs);
    ExCoherent();
    assert Lawful(SetBlock(s));
    RunAtEnd(slots, bs, |Encode(s)|);
    var now := InsertHolds(slots, bs, SetBlock(s), at, ExLaw());
    HoldsLists(slots, bs);
    HoldsLists(Splice(slots, at, Encode(s)), now);
  }

  lemma RunAtEnd(slots: seq<Slot>, bs: seq<DirBlock>, n: nat)
    requires Holds(slots, bs, ExLaw()) && |Print(bs)| + n <= |slots|
    ensures FreeRun(slots, |Print(bs)|, n, IsEnd)
  {
    PrintNoEnd(bs);
    if bs != [] && |Print(bs)| > 0 {
      assert slots[|Print(bs)| - 1] == Print(bs)[|Print(bs)| - 1];
    }
  }

  /** Clearing the in-use bit. */
  function Killed(s: Slot): Slot { if s == [] || s[0] < IN_USE then s else s[0 := s[0] - IN_USE] }

  /** Bit 7 of the first byte goes, and nothing else. */
  lemma KilledBit(s: Slot)
    requires Sized(s)
    ensures Sized(Killed(s)) && Killed(s)[0] == s[0] % 0x80 && Killed(s)[1..] == s[1..]
  {
  }

  lemma ExKills()
    ensures Kills(Killed, ExLaw())
  {
    forall b: DirBlock, i | Lawful(b) && b.entry.Some? && 0 <= i < |b.slots|
      ensures Lawful(Block([Killed(b.slots[i])], None))
    {
      var s :| Listable(s) && b == SetBlock(s);
      KilledSkipped(s, i);
    }
  }

  lemma KilledSkipped(s: FileSet, i: nat)
    requires SetFits(s) && i < |Encode(s)|
    ensures Skipped(Killed(Encode(s)[i]))
  {
    SetTypes(s, i);
  }

  /** The entry types of a set. */
  lemma SetTypes(s: FileSet, i: nat)
    requires SetFits(s) && i < |Encode(s)|
    ensures Encode(s)[i][0] == if i == 0 then TYPE_FILE else if i == 1 then TYPE_STREAM else TYPE_NAME
  {
    NamesRoundTrip(s.names);
    assert i >= 2 ==> Encode(s)[i] == EncodeNames(s.names)[i - 2];
  }

  /** Clearing the in-use bit of every entry of a set: the listing loses exactly that entry. */
  lemma TidyUnlink(slots: seq<Slot>, e: Found)
    requires Tidy(slots) && e in ReadSet(slots)
    ensures e.len > 0 && e.first + e.len <= |slots|
    ensures Tidy(Struck(slots, e.first, e.len, Killed))
    ensures ReadSet(Struck(slots, e.first, e.len, Killed)) == ReadSet(slots) - {e}
    ensures FirstEnd(Struck(slots, e.first, e.len, Killed)) == FirstEnd(slots)
  {
    var bs: seq<DirBlock> :| Holds(slots, bs, ExLaw());
    HoldsLists(slots, bs);
    ExCoherent();
    ExKills();
    var now := RemoveHolds(slots, bs, e, Killed, ExLaw());
    HoldsLists(Struck(slots, e.first, e.len, Killed), now);
    EndsAtPrint(slots, bs);
    EndsAtPrint(Struck(slots, e.first, e.len, Killed), now);
  }

  /** A listed entry is a valid set at its place. */
  lemma ListedSet(slots: seq<Slot>, e: Found) returns (s: FileSet)
    requires Tidy(slots) && e in ReadSet(slots)
    ensures Listable(s) && EntryOf(s) == e.entry && |Encode(s)| == e.len && e.first + e.len <= |slots| &&
      Stretch(slots, e.first, e.len) == Encode(s)
  {
    var bs: seq<DirBlock> :| Holds(slots, bs, ExLaw());
    HoldsLists(slots, bs);
    var k := ListedIsBlock(bs, 0, e);
    assert Lawful(bs[k]);
    s :| Listable(s) && bs[k] == SetBlock(s);
    BlockInPlace(slots, bs, k, e.first, e.len);
  }

  /** Rewriting a listed set in place by one of as many entries: only that entry changes. */
  lemma TidyUpdate(slots: seq<Slot>, e: Found, s: FileSet)
    requires Tidy(slots) && e in ReadSet(slots) && Listable(s) && |Encode(s)| == e.len
    ensures e.first + e.len <= |slots| && Tidy(Splice(slots, e.first, Encode(s)))
    ensures ReadSet(Splice(slots, e.first, Encode(s))) == ReadSet(slots) - {e} + {Placed(EntryOf(s), e.first, e.len)}
  {
    var bs: seq<DirBlock> :| Holds(slots, bs, ExLaw());
    HoldsLists(slots, bs);
    ExCoherent();
    assert Lawful(SetBlock(s));
    var now := UpdateHolds(slots, bs, e, SetBlock(s), ExLaw());
    HoldsLists(Splice(slots, e.first, Encode(s)), now);
  }

  /** Zeroed clusters at the end change nothing that is listed. */
  lemma TidyGrow(slots: seq<Slot>, more: seq<Slot>)
    requires Tidy(slots) && Each(more, Sized) && EndsFrom(more, 0, IsEnd)
    ensures Tidy(slots + more) && ReadSet(slots + more) == ReadSet(slots) && FirstEnd(slots + more) == FirstEnd(slots)
  {
    var bs: seq<DirBlock> :| Holds(slots, bs, ExLaw());
    GrowHolds(slots, bs, more, ExLaw());
    HoldsLists(slots, bs);
    HoldsLists(slots + more, bs);
    EndsAtPrint(slots, bs);
    EndsAtPrint(slots + more, bs);
  }
}
