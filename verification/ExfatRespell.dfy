/** Respelling an entry of an exFAT directory in place (src/vfs/engine.rs, the case-only branch of
    `rename`, over src/exfat/directory.rs and src/exfat/dir_io.rs): the entry set is unlinked, one with
    the new spelling appended, and if that fails one with the old spelling. When the entry survives, in
    terms of the slots and clusters there are before the call. */
module ExfatRespells {
  import opened Basics
  import opened ClusterMaps
  import opened ExfatHeaps
  import opened ExfatMaps
  import opened ExfatSets
  import opened SlotBlocks
  import opened SlotPlaces
  import opened ExfatDirectories
  import D = ExfatDirShape

  /** The listing after an attempt to append `set'`: one entry more, or as before. */
  ghost predicate Gained(was: set<D.Found>, now: set<D.Found>, ok: bool, set': FileSet)
    requires SetFits(set')
  {
    if ok then exists at :: now == was + {Placed(D.EntryOf(set'), at, |Encode(set')|)} else now == was
  }

  /** Append a set and account for the listing. */
  method AppendSet(d: ExfatDirectory, ext: DirExtent, set': FileSet, ghost s: seq<nat>)
      returns (r: Result<()>, ghost run: seq<nat>)
    requires d.Valid() && Spans(ext, s, d.vol.Cells()) && AllUsed(s, d.vol.Used(), d.vol.count)
    requires InHeap(s) && On(ChainPlaces(d.a, s), d.device) && D.Tidy(Contents(d.device, ChainPlaces(d.a, s)))
    requires D.Listable(set')
    modifies d`device, d.vol
    ensures d.Valid() && Spans(ext, Reached(ext, s, run), d.vol.Cells())
    ensures AllUsed(Reached(ext, s, run), d.vol.Used(), d.vol.count)
    ensures InHeap(run) && InHeap(s + run) && On(ChainPlaces(d.a, s + run), d.device)
    ensures D.Tidy(Contents(d.device, ChainPlaces(d.a, s + run)))
    ensures r.Ok? <==>
      Added(d.a, old(Contents(d.device, ChainPlaces(d.a, s))), |Encode(set')|) <=
      |ClearIn(old(d.vol.Used()), d.vol.count)|
    ensures Gained(old(D.ReadSet(Contents(d.device, ChainPlaces(d.a, s)))),
      D.ReadSet(Contents(d.device, ChainPlaces(d.a, s + run))), r.Ok?, set')
    ensures r.Err? ==> r.error == StorageFull && ClearIn(d.vol.Used(), d.vol.count) == {}
    ensures r.Err? ==>
      Contents(d.device, ChainPlaces(d.a, s + run)) ==
      old(Contents(d.device, ChainPlaces(d.a, s))) +
      Zeros(Units(|ClearIn(old(d.vol.Used()), d.vol.count)|, d.a.perCluster))
  {
    ghost var c := Contents(d.device, ChainPlaces(d.a, s));
    r, run := d.AppendEntrySet(ext, set', s);
    ghost var more := |ChainPlaces(d.a, run)|;
    ChainPlace(d.a, run, 0);
    if r.Ok? {
      AppendListed(c, more, set');
    } else {
      ZerosEnd(more);
      D.TidyGrow(c, Zeros(more));
    }
  }

  /** A set of `n` entries finds room in the directory whose stream is `c`, with `clear` clear
      clusters, after an attempt to make room has failed and claimed them all: it needed no more than
      there was, or no more than the chain gained. A contiguous directory gains nothing, since its
      own entry, rewritten last, still says where it ends. */
  predicate RoomStill(ext: DirExtent, a: Area, c: seq<Slot>, n: nat, clear: nat)
    requires a.perCluster > 0
  {
    Added(a, c, n) == 0 || (!ext.noFatChain && Added(a, c, n) <= clear)
  }

  /** An append adds at most `clear` clusters exactly when the set would end within them. */
  lemma AddedAtMost(a: Area, at: nat, n: nat, len: nat, clear: nat)
    requires a.perCluster > 0
    ensures AddedAt(a, at, n, len) <= clear <==> at + n <= len + Units(clear, a.perCluster)
  {
    if at + n > len {
      DivCeilLeast(at + n - len, a.perCluster, clear);
    }
  }

  /** Grown by `clear` clusters, the directory has room for what they would have been enough for. */
  lemma GrownAdds(a: Area, c: seq<Slot>, n: nat, clear: nat)
    requires a.perCluster > 0 && D.Tidy(c)
    ensures Added(a, c + Zeros(Units(clear, a.perCluster)), n) == 0 <==> Added(a, c, n) <= clear
  {
    var more := Units(clear, a.perCluster);
    ZerosEnd(more);
    D.TidyGrow(c, Zeros(more));
    AddedAtMost(a, D.FirstEnd(c), n, |c| + more, 0);
    AddedAtMost(a, D.FirstEnd(c), n, |c|, clear);
  }

  /** The reached part of the stream after a failed append. */
  lemma ReachedStream(d: Device, ext: DirExtent, a: Area, s: seq<nat>, run: seq<nat>, c: seq<Slot>, n: nat)
    requires InHeap(s) && InHeap(run) && InHeap(s + run) && On(ChainPlaces(a, s + run), d)
    requires |c| == |ChainPlaces(a, s)| && Contents(d, ChainPlaces(a, s + run)) == c + Zeros(n)
    ensures InHeap(Reached(ext, s, run)) && On(ChainPlaces(a, Reached(ext, s, run)), d)
    ensures Contents(d, ChainPlaces(a, Reached(ext, s, run))) == if ext.noFatChain then c else c + Zeros(n)
  {
    PlacesAfter(a, s, run);
    if ext.noFatChain {
      PrefixContents(d, ChainPlaces(a, s), ChainPlaces(a, run), c, Zeros(n));
    }
  }

  lemma PrefixContents(d: Device, p: seq<SlotPos>, q: seq<SlotPos>, c: seq<Slot>, more: seq<Slot>)
    requires On(p + q, d) && |c| == |p| && Contents(d, p + q) == c + more
    ensures On(p, d) && Contents(d, p) == c
  {
    forall i | 0 <= i < |p|
      ensures p[i].offset in d && Sized(d[p[i].offset]) && d[p[i].offset] == c[i]
    {
      assert (p + q)[i] == p[i] && Contents(d, p + q)[i] == (c + more)[i];
    }
  }

  /** After a failed append of another set, append `back` where the directory's extent leads. */
  method AppendBack(d: ExfatDirectory, ext: DirExtent, back: FileSet, ghost s: seq<nat>, ghost run: seq<nat>,
      ghost c: seq<Slot>, ghost clear: nat) returns (r: Result<()>, ghost all: seq<nat>)
    requires d.Valid() && Spans(ext, Reached(ext, s, run), d.vol.Cells())
    requires AllUsed(Reached(ext, s, run), d.vol.Used(), d.vol.count) && ClearIn(d.vol.Used(), d.vol.count) == {}
    requires InHeap(s) && InHeap(run) && InHeap(s + run) && On(ChainPlaces(d.a, s + run), d.device)
    requires |c| == |ChainPlaces(d.a, s)| && D.Tidy(c) && D.Listable(back)
    requires Contents(d.device, ChainPlaces(d.a, s + run)) == c + Zeros(Units(clear, d.a.perCluster))
    modifies d`device, d.vol
    ensures d.Valid() && InHeap(all) && On(ChainPlaces(d.a, all), d.device)
    ensures D.Tidy(Contents(d.device, ChainPlaces(d.a, all)))
    ensures r.Ok? <==> RoomStill(ext, d.a, c, |Encode(back)|, clear)
    ensures Gained(D.ReadSet(c), D.ReadSet(Contents(d.device, ChainPlaces(d.a, all))), r.Ok?, back)
  {
    ghost var more := Units(clear, d.a.perCluster);
    ReachedStream(d.device, ext, d.a, s, run, c, more);
    ZerosEnd(more);
    D.TidyGrow(c, Zeros(more));
    GrownAdds(d.a, c, |Encode(back)|, clear);
    ghost var run';
    r, run' := AppendSet(d, ext, back, Reached(ext, s, run));
    all := Reached(ext, s, run) + run';
  }

  /** Unlink the first set under a matching name, which there is. */
  method Unlink(d: ExfatDirectory, ext: DirExtent, matches: seq<Unit16> -> bool, ghost s: seq<nat>)
      returns (ghost e: D.Found)
    requires d.Valid() && Spans(ext, s, d.vol.Cells()) && InHeap(s) && On(ChainPlaces(d.a, s), d.device)
    requires D.Tidy(Contents(d.device, ChainPlaces(d.a, s)))
    requires exists f :: f in D.ReadSet(Contents(d.device, ChainPlaces(d.a, s))) && matches(f.entry.name)
    modifies d`device
    ensures d.Valid() && On(ChainPlaces(d.a, s), d.device) && D.Tidy(Contents(d.device, ChainPlaces(d.a, s)))
    ensures D.IsFirst(old(Contents(d.device, ChainPlaces(d.a, s))), e, matches)
    ensures D.ReadSet(Contents(d.device, ChainPlaces(d.a, s))) ==
            old(D.ReadSet(Contents(d.device, ChainPlaces(d.a, s)))) - {e}
    ensures forall n :: SameRoom(d.a, old(Contents(d.device, ChainPlaces(d.a, s))),
      Contents(d.device, ChainPlaces(d.a, s)), n)
  {
    ghost var c0 := Contents(d.device, ChainPlaces(d.a, s));
    var unlinked := d.UnlinkEntrySet(ext, matches, s);
    ghost var c := Contents(d.device, ChainPlaces(d.a, s));
    e :| D.IsFirst(c0, e, matches) && D.ReadSet(c) == D.ReadSet(c0) - {e};
  }

  /** An append of `n` entries needs as many clusters. */
  ghost predicate SameRoom(a: Area, b: seq<Slot>, c: seq<Slot>, n: nat) {
    a.perCluster > 0 && Added(a, c, n) == Added(a, b, n)
  }

  /** Respell the first entry under a matching name: unlink its set, append `now`, and when there is
      no room for that append `back`. The respelling succeeds exactly when the clear clusters suffice
      for `now`; when it fails the entry survives, as `back`, exactly when there is room for that
      still. Every other entry stays. */
  method RespellSet(d: ExfatDirectory, ext: DirExtent, matches: seq<Unit16> -> bool, now: FileSet, back: FileSet,
      ghost s: seq<nat>) returns (r: Result<()>, survived: bool, ghost all: seq<nat>, ghost e: D.Found)
    requires d.Valid() && Spans(ext, s, d.vol.Cells()) && AllUsed(s, d.vol.Used(), d.vol.count)
    requires InHeap(s) && On(ChainPlaces(d.a, s), d.device) && D.Tidy(Contents(d.device, ChainPlaces(d.a, s)))
    requires D.Listable(now) && D.Listable(back)
    requires exists e :: e in D.ReadSet(Contents(d.device, ChainPlaces(d.a, s))) && matches(e.entry.name)
    modifies d`device, d.vol
    ensures d.Valid() && InHeap(all) && On(ChainPlaces(d.a, all), d.device)
    ensures D.Tidy(Contents(d.device, ChainPlaces(d.a, all)))
    ensures r.Ok? <==>
      Added(d.a, old(Contents(d.device, ChainPlaces(d.a, s))), |Encode(now)|) <=
      |ClearIn(old(d.vol.Used()), d.vol.count)|
    ensures survived <==> r.Ok? || RoomStill(ext, d.a, old(Contents(d.device, ChainPlaces(d.a, s))), |Encode(back)|,
      |ClearIn(old(d.vol.Used()), d.vol.count)|)
    ensures D.IsFirst(old(Contents(d.device, ChainPlaces(d.a, s))), e, matches)
    ensures Gained(old(D.ReadSet(Contents(d.device, ChainPlaces(d.a, s)))) - {e},
      D.ReadSet(Contents(d.device, ChainPlaces(d.a, all))), survived, if r.Ok? then now else back)
    ensures r.Err? ==> r.error == StorageFull
  {
    ghost var c0, clear := Contents(d.device, ChainPlaces(d.a, s)), |ClearIn(d.vol.Used(), d.vol.count)|;
    e := Unlink(d, ext, matches, s);
    ghost var c := Contents(d.device, ChainPlaces(d.a, s));
    assert SameRoom(d.a, c0, c, |Encode(now)|) && SameRoom(d.a, c0, c, |Encode(back)|);
    ghost var run;
    r, run := AppendSet(d, ext, now, s);
    all, survived := s + run, true;
    if r.Err? {
      var undone: Result<()>;
      undone, all := AppendBack(d, ext, back, s, run, c, clear);
      survived := undone.Ok?;
    }
  }

  // ---------------------------------------------------------------- spellings of one length

  /** Two sets for names of one length have as many entries. */
  lemma SameLength(name: seq<Unit16>, back: seq<Unit16>, meta: seq<Byte>, stream: Stream)
    requires |name| == |back| <= 255 && |meta| == 28 && StreamFits(stream)
    ensures SetFits(D.NewSet(name, meta, stream)) && SetFits(D.NewSet(back, meta, stream))
    ensures |Encode(D.NewSet(name, meta, stream))| == |Encode(D.NewSet(back, meta, stream))|
  {
    D.NewSetName(name, meta, stream);
    D.NewSetName(back, meta, stream);
    SameEntries(name, back);
  }

  lemma {:induction false} SameEntries(name: seq<Unit16>, back: seq<Unit16>)
    requires |name| == |back|
    ensures |D.NameEntries(name)| == |D.NameEntries(back)|
  {
    if |name| <= UNITS_PER_NAME {
    } else {
      SameEntries(name[UNITS_PER_NAME..], back[UNITS_PER_NAME..]);
    }
  }

  /** Spellings of one name have one length, character by character, so the old one never finds room
      where the new one did not: on exFAT the entry is lost exactly when the respelling fails, that
      is, when the set needs more clusters than are clear. */
  lemma NoSecondChance(ext: DirExtent, a: Area, c: seq<Slot>, n: nat, clear: nat)
    requires a.perCluster > 0 && Added(a, c, n) > clear
    ensures !RoomStill(ext, a, c, n, clear)
  {
  }

  /** A losing input: a directory whose stream has no room for a set behind its last one, and no
      clear cluster. */
  lemma FullLoses(ext: DirExtent, a: Area, c: seq<Slot>, n: nat)
    requires a.perCluster > 0 && D.FirstEnd(c) + n > |c|
    ensures Added(a, c, n) > 0 && !RoomStill(ext, a, c, n, 0)
  {
    DivCeilLeast(D.FirstEnd(c) + n - |c|, a.perCluster, 0);
  }
}
