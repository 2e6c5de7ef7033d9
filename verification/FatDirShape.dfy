/** FAT directories as a whole (src/fat/direntry/ser_de.rs, src/fat/entry_io.rs): a directory made of
    composed entries, deleted slots and volume labels up to an end tail lists exactly its entries;
    inserting and removing entries keeps that shape and changes the listing by one entry. */
module FatDirShape {
  import opened Basics
  import opened SlotBlocks
  import opened LfnParser
  import opened FatSlots

  /** A slot that may be reused. */
  predicate Free(s: Slot) { s != [] && (s[0] == SLOT_END || s[0] == SLOT_DELETED) }

  predicate IsEnd(s: Slot) { s != [] && s[0] == SLOT_END }

  type DirBlock = Block<Slot, Listed>

  function EntryOf(p: Props): Listed
    requires Composable(p)
  {
    Listed(ReadName(p), p.sfn, p.attr, p.rest)
  }

  function BlockOf(item: Item): DirBlock
    requires Proper(item)
  {
    Block(SlotsOf(item), if item.Live? then Some(EntryOf(item.props)) else None)
  }

  /** A block the driver writes or skips. */
  ghost predicate Lawful(b: DirBlock) {
    exists item :: Proper(item) && b == BlockOf(item)
  }

  /** The layout of FAT directories. */
  ghost function FatLaw(): Law<Slot, Listed> { Law(Lawful, Sized, Free, IsEnd) }

  /** No slot of a composed entry is free. */
  lemma ComposedTaken(p: Props, i: nat)
    requires Composable(p) && i < |Compose(p)|
    ensures !Free(Compose(p)[i])
  {
    var n := |LongGroups(p)|;
    if i < n {
      RunTaken(LongGroups(p), SfnChecksum(p.sfn), n, i);
    } else {
      assert Compose(p)[i] == SfnSlot(p);
      assert SfnSlot(p)[0] == p.sfn.name[0];
    }
  }

  lemma {:induction false} RunTaken(g: seq<seq<Unit16>>, checksum: Byte, n: nat, i: nat)
    requires Storable(g) && i < n <= |g|
    ensures !Free(LfnRun(g, checksum, n)[i])
  {
    if i == 0 {
      OrderByte(n - 1, |g|);
      LfnCodec(Order(n - 1, |g|), checksum, Filled(g[n - 1]));
    } else {
      RunTaken(g, checksum, n - 1, i - 1);
    }
  }

  lemma LawfulWhole(b: DirBlock)
    requires Lawful(b)
    ensures Whole(b, Free) && Each(b.slots, Sized)
  {
    var item :| Proper(item) && b == BlockOf(item);
    match item {
      case Live(p) =>
        forall i | 0 <= i < |Compose(p)|
          ensures !Free(Compose(p)[i])
        {
          ComposedTaken(p, i);
        }
      case Dead(s) =>
      case Label(s) =>
    }
  }

  lemma FatCoherent()
    ensures Coherent(FatLaw())
  {
    forall b | Lawful(b)
      ensures Whole(b, Free) && Each(b.slots, Sized)
    {
      LawfulWhole(b);
    }
  }

  // ---------------------------------------------------------------- print and parse

  /** What reading the slots from position `pos` on lists. */
  function ReadFrom(slots: seq<Slot>, pos: nat): seq<Found> {
    if AllSized(slots) then List(CLEAN, Views(slots), pos) else []
  }

  /** A block reads as what it lists, leaving nothing pending. */
  lemma BlockReads(b: DirBlock, rest: seq<View>, pos: nat, next: nat)
    requires Lawful(b) && AllSized(b.slots) && next == pos + |b.slots| <= MAX_DIR_SLOTS
    ensures List(CLEAN, Views(b.slots) + rest, pos) == ListOne(b, pos) + List(CLEAN, rest, next)
  {
    var item :| Proper(item) && b == BlockOf(item);
    ItemSeen(item);
    RowReads(RowOf(item), rest, pos, next);
  }

  lemma BlockThenRest(b: DirBlock, rest: seq<Slot>, pos: nat, next: nat)
    requires Lawful(b) && Each(rest, Sized) && next == pos + |b.slots| <= MAX_DIR_SLOTS
    ensures ReadFrom(b.slots + rest, pos) == ListOne(b, pos) + ReadFrom(rest, next)
  {
    LawfulWhole(b);
    assert AllSized(b.slots) && AllSized(rest);
    ViewsConcat(b.slots, rest);
    BlockReads(b, Views(rest), pos, next);
  }

  lemma FatReads()
    ensures Reads(ReadFrom, FatLaw(), MAX_DIR_SLOTS)
  {
    forall b: DirBlock, rest: seq<Slot>, pos: nat, next: nat | Lawful(b) && Each(rest, Sized) &&
      next == pos + |b.slots| <= MAX_DIR_SLOTS
      ensures ReadFrom(b.slots + rest, pos) == ListOne(b, pos) + ReadFrom(rest, next)
    {
      BlockThenRest(b, rest, pos, next);
    }
  }

  lemma EndStops(tail: seq<Slot>)
    requires tail == [] || IsEnd(tail[0])
    ensures Stops(ReadFrom, tail)
  {
    forall p: nat
      ensures ReadFrom(tail, p) == []
    {
    }
  }

  /** A directory made of entries, deleted slots and labels up to an end tail lists exactly its
      entries, with their names, short names and slot extents. */
  lemma HoldsLists(slots: seq<Slot>, bs: seq<DirBlock>)
    requires Holds(slots, bs, FatLaw()) && |Print(bs)| <= MAX_DIR_SLOTS
    ensures ReadFrom(slots, 0) == Listing(bs, 0)
  {
    FatCoherent();
    FatReads();
    var tail := slots[|Print(bs)|..];
    if tail != [] {
      SlotEnds(slots, |Print(bs)|, |Print(bs)|, IsEnd);
    }
    EndStops(tail);
    HoldsReads(slots, bs, ReadFrom, FatLaw(), MAX_DIR_SLOTS);
  }

  // ---------------------------------------------------------------- insert and remove

  /** Writing an entry at the start of a maximal free run keeps the directory's shape, and its
      listing gains exactly that entry. */
  lemma InsertHolds(slots: seq<Slot>, bs: seq<DirBlock>, p: Props, first: nat) returns (now: seq<DirBlock>)
    requires Holds(slots, bs, FatLaw()) && Composable(p) && FreeRun(slots, first, |Compose(p)|, Free)
    ensures Holds(Splice(slots, first, Compose(p)), now, FatLaw())
    ensures ListingSet(now) == ListingSet(bs) + {Placed(EntryOf(p), first, |Compose(p)|)}
    ensures |Print(now)| <= Max(|Print(bs)|, first + |Compose(p)|)
  {
    FatCoherent();
    assert Lawful(BlockOf(Live(p)));
    now := SlotBlocks.InsertHolds(slots, bs, BlockOf(Live(p)), first, FatLaw());
  }

  /** `free_slot`: the first byte becomes 0xE5. */
  function Killed(s: Slot): Slot { if s == [] then s else s[0 := SLOT_DELETED] }

  lemma FatKills()
    ensures Kills(Killed, FatLaw())
  {
    forall b: DirBlock, i | Lawful(b) && 0 <= i < |b.slots|
      ensures Lawful(Block([Killed(b.slots[i])], None))
    {
      LawfulWhole(b);
      var s := b.slots[i];
      assert Sized(s);
      assert Proper(Dead(Killed(s))) && Block([Killed(s)], None) == BlockOf(Dead(Killed(s)));
    }
  }

  /** Marking the slots of a listed entry deleted keeps the directory's shape, and its listing loses
      exactly that entry. */
  lemma RemoveHolds(slots: seq<Slot>, bs: seq<DirBlock>, e: Found) returns (now: seq<DirBlock>)
    requires Holds(slots, bs, FatLaw()) && e in ListingSet(bs)
    ensures e.len > 0 && e.first + e.len <= |slots|
    ensures Holds(Struck(slots, e.first, e.len, Killed), now, FatLaw())
    ensures ListingSet(now) == ListingSet(bs) - {e} && |Print(now)| == |Print(bs)|
  {
    FatCoherent();
    FatKills();
    now := SlotBlocks.RemoveHolds(slots, bs, e, Killed, FatLaw());
  }

  // ---------------------------------------------------------------- tidy directories

  /** Composed entries, deleted slots and labels, then nothing but end markers. */
  ghost predicate Tidy(slots: seq<Slot>) {
    exists bs :: Holds(slots, bs, FatLaw()) && |Print(bs)| <= MAX_DIR_SLOTS
  }

  /** What the directory lists, with slot extents. */
  ghost function ReadSet(slots: seq<Slot>): set<Found> { set e | e in ReadFrom(slots, 0) }

  lemma TidyReads(slots: seq<Slot>) returns (bs: seq<DirBlock>)
    requires Tidy(slots)
    ensures Holds(slots, bs, FatLaw()) && |Print(bs)| <= MAX_DIR_SLOTS && ReadSet(slots) == ListingSet(bs)
  {
    bs :| Holds(slots, bs, FatLaw()) && |Print(bs)| <= MAX_DIR_SLOTS;
    HoldsLists(slots, bs);
  }

  lemma HoldsTidy(slots: seq<Slot>, bs: seq<DirBlock>)
    requires Holds(slots, bs, FatLaw()) && |Print(bs)| <= MAX_DIR_SLOTS
    ensures Tidy(slots) && ReadSet(slots) == ListingSet(bs)
  {
    HoldsLists(slots, bs);
  }

  /** An inserted entry is listed under the name it reads back with, at its slots; every other entry
      is listed as before. */
  lemma TidyInsert(slots: seq<Slot>, p: Props, first: nat)
    requires Tidy(slots) && Composable(p) && FreeRun(slots, first, |Compose(p)|, Free) &&
      first + |Compose(p)| <= MAX_DIR_SLOTS
    ensures Tidy(Splice(slots, first, Compose(p)))
    ensures ReadSet(Splice(slots, first, Compose(p))) == ReadSet(slots) + {Placed(EntryOf(p), first, |Compose(p)|)}
  {
    var bs := TidyReads(slots);
    var now := InsertHolds(slots, bs, p, first);
    HoldsTidy(Splice(slots, first, Compose(p)), now);
  }

  /** A removed entry is no longer listed; every other entry is listed as before. */
  lemma TidyRemove(slots: seq<Slot>, e: Found)
    requires Tidy(slots) && e in ReadSet(slots)
    ensures e.len > 0 && e.first + e.len <= |slots|
    ensures Tidy(Struck(slots, e.first, e.len, Killed))
    ensures ReadSet(Struck(slots, e.first, e.len, Killed)) == ReadSet(slots) - {e}
  {
    var bs := TidyReads(slots);
    var now := RemoveHolds(slots, bs, e);
    HoldsTidy(Struck(slots, e.first, e.len, Killed), now);
  }

  /** Zeroed clusters at the end change nothing that is listed. */
  lemma TidyGrow(slots: seq<Slot>, more: seq<Slot>)
    requires Tidy(slots) && Each(more, Sized) && EndsFrom(more, 0, IsEnd)
    ensures Tidy(slots + more) && ReadSet(slots + more) == ReadSet(slots)
  {
    var bs := TidyReads(slots);
    GrowHolds(slots, bs, more, FatLaw());
    HoldsTidy(slots + more, bs);
  }
}
