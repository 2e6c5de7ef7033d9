/** FAT directory slots as bytes (src/fat/direntry/ser_de.rs, src/codec/fat/lfn.rs,
    src/codec/fat/sfn_layout.rs): composing an entry as a run of long-name slots and a short-name
    slot, and reading slots back. */
module FatSlots {
  import opened Basics
  import opened LfnParser
  import opened SlotBlocks
  import SN = ShortNames

  type Slot = seq<Byte>

  const SLOT_SIZE: nat := 32
  const SLOT_END: Byte := 0x00
  const SLOT_DELETED: Byte := 0xE5
  const ATTR_LFN: Byte := 0x0F
  const CHARS_PER_LFN: nat := 13

  predicate Sized(s: Slot) { |s| == SLOT_SIZE }

  predicate AllSized(slots: seq<Slot>) { forall i :: 0 <= i < |slots| ==> Sized(slots[i]) }

  predicate HasVolumeId(attr: Byte) { attr / 8 % 2 == 1 }

  /** Bit 3 of the attributes. */
  lemma VolumeIdBit(attr: Byte)
    ensures HasVolumeId(attr) <==> ToBits(attr, 8)[3]
  {
    assert ToBits(attr, 8)[3] == ToBits(attr / 2, 7)[2] == ToBits(attr / 2 / 2, 6)[1] == ToBits(attr / 2 / 2 / 2, 5)[0];
    assert attr / 2 / 2 / 2 == attr / 8;
  }

  // ---------------------------------------------------------------- long-name slots

  function Lo(u: Unit16): Byte { u % 256 }

  function Hi(u: Unit16): Byte { u / 256 }

  function Word(lo: Byte, hi: Byte): Unit16 { lo + 256 * hi }

  lemma WordRoundTrip(u: Unit16)
    ensures Word(Lo(u), Hi(u)) == u
  {
  }

  /** The three name runs of a slot: 5, 6 and 2 little-endian units. */
  function LfnUnits(s: Slot): (r: seq<Unit16>)
    requires Sized(s)
    ensures |r| == CHARS_PER_LFN
  {
    [Word(s[1], s[2]), Word(s[3], s[4]), Word(s[5], s[6]), Word(s[7], s[8]), Word(s[9], s[10]),
     Word(s[14], s[15]), Word(s[16], s[17]), Word(s[18], s[19]), Word(s[20], s[21]), Word(s[22], s[23]),
       Word(s[24], s[25]),
     Word(s[28], s[29]), Word(s[30], s[31])]
  }

  function EncodeLfn(order: Byte, checksum: Byte, c: seq<Unit16>): (s: Slot)
    requires |c| == CHARS_PER_LFN
    ensures Sized(s)
  {
    [order,
     Lo(c[0]), Hi(c[0]), Lo(c[1]), Hi(c[1]), Lo(c[2]), Hi(c[2]), Lo(c[3]), Hi(c[3]), Lo(c[4]), Hi(c[4]),
     ATTR_LFN, 0, checksum,
     Lo(c[5]), Hi(c[5]), Lo(c[6]), Hi(c[6]), Lo(c[7]), Hi(c[7]), Lo(c[8]), Hi(c[8]), Lo(c[9]), Hi(c[9]), Lo(c[10]),
       Hi(c[10]),
     0, 0,
     Lo(c[11]), Hi(c[11]), Lo(c[12]), Hi(c[12])]
  }

  /** Decoding an encoded long-name slot gives its parts back. */
  lemma LfnCodec(order: Byte, checksum: Byte, c: seq<Unit16>)
    requires |c| == CHARS_PER_LFN
    ensures var s := EncodeLfn(order, checksum, c);
      s[0] == order && s[11] == ATTR_LFN && s[12] == 0 && s[13] == checksum && s[26] == 0 && s[27] == 0 &&
        LfnUnits(s) == c
  {
    forall i | 0 <= i < |c|
      ensures Word(Lo(c[i]), Hi(c[i])) == c[i]
    {
      WordRoundTrip(c[i]);
    }
  }

  /** Thirteen units of a name: NUL after a short piece, then 0xFFFF. */
  function Filled(us: seq<Unit16>): (r: seq<Unit16>)
    requires |us| <= CHARS_PER_LFN
    ensures |r| == CHARS_PER_LFN
  {
    seq(CHARS_PER_LFN, i requires 0 <= i < CHARS_PER_LFN => if i < |us| then us[i] else if i == |us| then 0 else 0xFFFF)
  }

  function UpToNul(us: seq<Unit16>): seq<Unit16> {
    if us == [] || us[0] == 0 then [] else [us[0]] + UpToNul(us[1..])
  }

  lemma {:induction false} UpToNulStops(us: seq<Unit16>, n: nat)
    requires n <= |us| && (forall i :: 0 <= i < n ==> us[i] != 0) && (n < |us| ==> us[n] == 0)
    ensures UpToNul(us) == us[..n]
  {
    if n == 0 {
    } else {
      UpToNulStops(us[1..], n - 1);
    }
  }

  lemma FilledReads(us: seq<Unit16>)
    requires |us| <= CHARS_PER_LFN && 0 !in us
    ensures UpToNul(Filled(us)) == us
  {
    UpToNulStops(Filled(us), |us|);
  }

  // ---------------------------------------------------------------- entries

  /** What an entry carries; `rest` are the bytes after the attributes: times, cluster, size. */
  datatype Props = Props(name: seq<Unit16>, sfn: SN.Sfn, attr: Byte, rest: seq<Byte>)

  /** An entry the driver writes: a writable short name, a long name of 1 to 255 units with no NUL,
      attributes of a file or directory. */
  predicate Composable(p: Props) {
    && SN.Writable(p.sfn) && |p.rest| == 20 && !HasVolumeId(p.attr)
    && 0 < |p.name| <= 255 && 0 !in p.name
  }

  function SfnSlot(p: Props): (s: Slot)
    requires Composable(p)
    ensures Sized(s)
  {
    p.sfn.name + p.sfn.ext + [p.attr] + p.rest
  }

  /** One step of a short name's checksum: rotate right, add, modulo 256. */
  function SumStep(sum: Byte, b: Byte): Byte { ((if sum % 2 == 1 then 0x80 else 0) + sum / 2 + b) % 256 }

  /** The step in bits: the 8 bits of the sum rotate right by one, and the byte is added. */
  lemma SumStepRotates(sum: Byte, b: Byte)
    ensures SumStep(sum, b) == (FromBits(RotatedRight(ToBits(sum, 8))) + b) % 0x100
  {
    assert BitWeight(4) == 16 && BitWeight(7) == 0x80 && BitWeight(8) == 0x100;
    RotatedIs(sum, 8);
  }

  function Checksum(bytes: seq<Byte>, sum: Byte): Byte
    decreases |bytes|
  {
    if bytes == [] then sum else Checksum(bytes[1..], SumStep(sum, bytes[0]))
  }

  function SfnChecksum(s: SN.Sfn): Byte { Checksum(s.name + s.ext, 0) }

  /** `gen_checksum`. */
  method GenChecksum(s: SN.Sfn) returns (sum: Byte)
    ensures sum == SfnChecksum(s)
  {
    var bytes := s.name + s.ext;
    sum := 0;
    for i := 0 to |bytes|
      invariant Checksum(bytes[i..], sum) == SfnChecksum(s)
    {
      assert bytes[i..][1..] == bytes[i + 1..];
      var top := if sum % 2 != 0 then 0x80 else 0;
      sum := (top + sum / 2 + bytes[i]) % 256;
    }
  }

  /** Units as the characters short-name rules look at; anything past ASCII is not one of them. */
  function Text(us: seq<Unit16>): (r: string)
    ensures |r| == |us|
  {
    seq(|us|, i requires 0 <= i < |us| => if us[i] < 0x80 then us[i] as char else '\U{FFFD}')
  }

  function UnitOf(c: char): Unit16 { if c as int < 0xD800 then c as int else 0xFFFD }

  function Codes(s: string): (r: seq<Unit16>)
    ensures |r| == |s|
  {
    seq(|s|, i requires 0 <= i < |s| => UnitOf(s[i]))
  }

  /** The name a short name shows as. */
  function Shown(s: SN.Sfn): seq<Unit16> { Codes(SN.ToName(s)) }

  /** Whether the name needs long-name slots: it is not its own short name. */
  predicate NeedsLfn(p: Props) { SN.AsSfn(Text(p.name)) != Some(p.sfn) }

  /** A name in groups of 13 units (`chunks`). */
  function Groups(name: seq<Unit16>): (g: seq<seq<Unit16>>)
    ensures name != [] ==> g != []
  {
    if name == [] then []
    else if |name| <= CHARS_PER_LFN then [name]
    else [name[..CHARS_PER_LFN]] + Groups(name[CHARS_PER_LFN..])
  }

  /** Groups that long-name slots can hold. */
  predicate Storable(g: seq<seq<Unit16>>) {
    |g| <= MAX_LFN_SLOTS && forall i :: 0 <= i < |g| ==> 0 < |g[i]| <= CHARS_PER_LFN && 0 !in g[i]
  }

  lemma {:induction false} GroupsHold(name: seq<Unit16>)
    requires 0 !in name
    ensures |Groups(name)| * CHARS_PER_LFN < |name| + CHARS_PER_LFN
    ensures forall i :: 0 <= i < |Groups(name)| ==> 0 < |Groups(name)[i]| <= CHARS_PER_LFN && 0 !in Groups(name)[i]
    ensures Flat(Groups(name)) == name
  {
    if |name| > CHARS_PER_LFN {
      GroupsHold(name[CHARS_PER_LFN..]);
    } else if name != [] {
      assert [name][1..] == [];
    }
  }

  /** The groups an entry's long-name slots hold: none for a name that is its own short name. */
  function LongGroups(p: Props): (g: seq<seq<Unit16>>)
    requires Composable(p)
    ensures Storable(g) && (g != [] <==> NeedsLfn(p))
  {
    GroupsHold(p.name);
    if NeedsLfn(p) then Groups(p.name) else []
  }

  function LfnSlot(g: seq<seq<Unit16>>, checksum: Byte, i: nat): (s: Slot)
    requires Storable(g) && i < |g|
    ensures Sized(s)
  {
    EncodeLfn(Order(i, |g|), checksum, Filled(g[i]))
  }

  /** The long-name slots of groups `n - 1` down to 0. */
  function LfnRun(g: seq<seq<Unit16>>, checksum: Byte, n: nat): (r: seq<Slot>)
    requires Storable(g) && n <= |g|
    ensures |r| == n && AllSized(r)
  {
    if n == 0 then [] else [LfnSlot(g, checksum, n - 1)] + LfnRun(g, checksum, n - 1)
  }

  /** `compose_entry`. */
  function Compose(p: Props): (r: seq<Slot>)
    requires Composable(p)
    ensures |r| == |LongGroups(p)| + 1 && AllSized(r)
  {
    LfnRun(LongGroups(p), SfnChecksum(p.sfn), |LongGroups(p)|) + [SfnSlot(p)]
  }

  /** `compose_entry` as the loop over the groups in reverse. */
  method ComposeEntry(p: Props) returns (slots: seq<Slot>)
    requires Composable(p)
    ensures slots == Compose(p)
  {
    var checksum := GenChecksum(p.sfn);
    slots := [];
    if SN.AsSfn(Text(p.name)) != Some(p.sfn) {
      var g := SplitName(p.name);
      assert LongGroups(p) == g;
      slots := ComposeLong(g, checksum);
    }
    slots := slots + [SfnSlot(p)];
  }

  /** The name in pieces of 13 units, the last one perhaps shorter. */
  method SplitName(name: seq<Unit16>) returns (g: seq<seq<Unit16>>)
    ensures g == Groups(name)
  {
    g := [];
    var at: nat := 0;
    while at < |name|
      invariant at <= |name| && g + Groups(name[at..]) == Groups(name)
    {
      var n := Min(13, |name| - at);
      GroupsStep(name, at, g, n);
      g := g + [name[at..at + n]];
      at := at + n;
    }
  }

  lemma GroupsStep(name: seq<Unit16>, at: nat, g: seq<seq<Unit16>>, n: nat)
    requires at < |name| && n == Min(CHARS_PER_LFN, |name| - at)
    ensures g + Groups(name[at..]) == (g + [name[at..at + n]]) + Groups(name[at + n..])
  {
    var rest := name[at..];
    assert rest[..n] == name[at..at + n] && rest[n..] == name[at + n..];
    assert n == |rest| ==> rest[..n] == rest && name[at + n..] == [];
  }

  method ComposeLong(g: seq<seq<Unit16>>, checksum: Byte) returns (slots: seq<Slot>)
    requires Storable(g)
    ensures slots == LfnRun(g, checksum, |g|)
  {
    slots := [];
    var i: nat := |g|;
    while i > 0
      invariant i <= |g| && slots + LfnRun(g, checksum, i) == LfnRun(g, checksum, |g|)
    {
      i := i - 1;
      var units := FillUnits(g[i]);
      var order := i + 1;
      if i + 1 == |g| {
        order := order + 0x40;
      }
      slots := slots + [EncodeLfn(order, checksum, units)];
    }
  }

  /** A piece followed by a NUL and then 0xFFFF, up to 13 units. */
  method FillUnits(piece: seq<Unit16>) returns (units: seq<Unit16>)
    requires |piece| <= CHARS_PER_LFN
    ensures units == Filled(piece)
  {
    units := piece;
    if |units| < 13 {
      units := units + [0];
    }
    while |units| < 13
      invariant |piece| <= |units| <= 13 && units == Filled(piece)[..|units|]
      invariant |piece| < 13 ==> |piece| < |units|
    {
      units := units + [0xFFFF];
    }
  }

  // ---------------------------------------------------------------- reading slots

  /** A slot split into the fields the parser looks at. */
  function ViewOf(s: Slot): View
    requires Sized(s)
  {
    if s[0] == SLOT_END then End
    else if s[0] == SLOT_DELETED then Deleted
    else if s[11] == ATTR_LFN then Long(s[12] == 0 && s[26] == 0 && s[27] == 0, s[0], s[13], UpToNul(LfnUnits(s)))
    else if HasVolumeId(s[11]) then VolumeLabel
    else ShortView(SN.Sfn(s[..8], s[8..11]), s[11], s[12..])
  }

  function ShortView(sfn: SN.Sfn, attr: Byte, rest: seq<Byte>): View {
    Short(sfn, SfnChecksum(sfn), Shown(sfn), attr, rest)
  }

  function Views(slots: seq<Slot>): (r: seq<View>)
    requires AllSized(slots)
    ensures |r| == |slots|
  {
    if slots == [] then [] else [ViewOf(slots[0])] + Views(slots[1..])
  }

  lemma {:induction false} ViewsConcat(a: seq<Slot>, b: seq<Slot>)
    requires AllSized(a) && AllSized(b)
    ensures AllSized(a + b) && Views(a + b) == Views(a) + Views(b)
  {
    if a == [] {
      assert a + b == b;
    } else {
      ViewsConcat(a[1..], b);
      assert (a + b)[1..] == a[1..] + b;
    }
  }

  lemma LongSeen(g: seq<seq<Unit16>>, checksum: Byte, i: nat)
    requires Storable(g) && i < |g|
    ensures ViewOf(LfnSlot(g, checksum, i)) == LongView(g, checksum, i)
  {
    LfnCodec(Order(i, |g|), checksum, Filled(g[i]));
    OrderByte(i, |g|);
    FilledReads(g[i]);
  }

  lemma ShortSeen(p: Props)
    requires Composable(p)
    ensures ViewOf(SfnSlot(p)) == ShortView(p.sfn, p.attr, p.rest)
  {
    var s := SfnSlot(p);
    assert s[0] == p.sfn.name[0] && s[11] == p.attr;
    assert s[..8] == p.sfn.name && s[8..11] == p.sfn.ext && s[12..] == p.rest;
    assert SN.Sfn(p.sfn.name, p.sfn.ext) == p.sfn;
  }

  lemma {:induction false} LongRunSeen(g: seq<seq<Unit16>>, checksum: Byte, n: nat)
    requires Storable(g) && n <= |g|
    ensures Views(LfnRun(g, checksum, n)) == LongViews(g, checksum, n)
  {
    if n == 0 {
    } else {
      LongRunSeen(g, checksum, n - 1);
      LongSeen(g, checksum, n - 1);
      assert LfnRun(g, checksum, n)[1..] == LfnRun(g, checksum, n - 1);
    }
  }

  // ---------------------------------------------------------------- print and parse

  /** A directory's contents before its end: entries, deleted slots, volume labels. */
  datatype Item = Live(props: Props) | Dead(slot: Slot) | Label(slot: Slot)

  predicate Proper(item: Item) {
    match item
    case Live(p) => Composable(p)
    case Dead(s) => Sized(s) && s[0] == SLOT_DELETED
    case Label(s) => Sized(s) && s[0] != SLOT_DELETED && s[0] != SLOT_END && s[11] != ATTR_LFN && HasVolumeId(s[11])
  }

  function SlotsOf(item: Item): (r: seq<Slot>)
    requires Proper(item)
    ensures |r| > 0 && AllSized(r)
  {
    match item
    case Live(p) => Compose(p)
    case Dead(s) => [s]
    case Label(s) => [s]
  }

  /** An item as the parser's row. */
  function RowOf(item: Item): (r: Row)
    requires Proper(item)
    ensures ProperRow(r)
  {
    match item
    case Live(p) => Set(LongGroups(p), ShortView(p.sfn, p.attr, p.rest))
    case Dead(s) => Skip(Deleted)
    case Label(s) => Skip(VolumeLabel)
  }

  lemma ItemSeen(item: Item)
    requires Proper(item)
    ensures Views(SlotsOf(item)) == RowViews(RowOf(item)) && |SlotsOf(item)| == RowLen(RowOf(item))
  {
    match item {
      case Live(p) =>
        LongRunSeen(LongGroups(p), SfnChecksum(p.sfn), |LongGroups(p)|);
        ShortSeen(p);
        assert [SfnSlot(p)][1..] == [];
        ViewsConcat(LfnRun(LongGroups(p), SfnChecksum(p.sfn), |LongGroups(p)|), [SfnSlot(p)]);
      case Dead(s) => assert [s][1..] == [];
      case Label(s) => assert [s][1..] == [];
    }
  }

  /** Long-name slots in front of a short-name slot whose checksum they do not carry: the reader lists
      the short name. */
  lemma ForeignSetSeen(g: seq<seq<Unit16>>, checksum: Byte, p: Props, rest: seq<Slot>, pos: nat, next: nat)
    requires Composable(p) && Storable(g) && g != [] && checksum != SfnChecksum(p.sfn) && AllSized(rest)
    requires next == pos + |g| + 1 <= MAX_DIR_SLOTS
    ensures AllSized(LfnRun(g, checksum, |g|) + ([SfnSlot(p)] + rest))
    ensures List(CLEAN, Views(LfnRun(g, checksum, |g|) + ([SfnSlot(p)] + rest)), pos) ==
            [Placed(Listed(Shown(p.sfn), p.sfn, p.attr, p.rest), pos, |g| + 1)] + List(CLEAN, Views(rest), next)
  {
    var last := ShortView(p.sfn, p.attr, p.rest);
    LongRunSeen(g, checksum, |g|);
    ShortSeen(p);
    assert ([SfnSlot(p)] + rest)[1..] == rest;
    ViewsConcat(LfnRun(g, checksum, |g|), [SfnSlot(p)] + rest);
    ForeignSetReads(g, checksum, last, Views(rest), pos, next);
  }

  // ---------------------------------------------------------------- names

  /** The name an entry reads back under. */
  function ReadName(p: Props): seq<Unit16>
    requires Composable(p)
  {
    RowName(LongGroups(p), Shown(p.sfn))
  }

  /** No surrogate among the units. */
  predicate NoSurrogate(us: seq<Unit16>) { forall i :: 0 <= i < |us| ==> !(0xD800 <= us[i] < 0xE000) }

  lemma {:induction false} NoSurrogateIsWellFormed(us: seq<Unit16>)
    requires NoSurrogate(us)
    ensures WellFormed(us)
  {
    if us == [] {
    } else {
      NoSurrogateIsWellFormed(us[1..]);
    }
  }

  /** A name stored in long-name slots reads back as it was exactly when no group of 13 units splits
      a surrogate pair. */
  lemma LongNameRoundTrip(p: Props)
    requires Composable(p) && NeedsLfn(p)
    ensures ReadName(p) == p.name <==> AllWellFormed(Groups(p.name))
  {
    GroupsHold(p.name);
    var g, shown := Groups(p.name), Shown(p.sfn);
    NameSurvives(g, shown);
    if !AllWellFormed(g) && shown == Flat(g) {
      var j :| 0 <= j < |g| && !WellFormed(g[j]);
      GroupInFlat(g, j);
      NoSurrogateIsWellFormed(g[j]);
      assert false;
    }
  }

  lemma {:induction false} GroupInFlat(g: seq<seq<Unit16>>, j: nat)
    requires j < |g| && NoSurrogate(Flat(g))
    ensures NoSurrogate(g[j])
  {
    forall i | 0 <= i < |g[0]|
      ensures g[0][i] == Flat(g)[i]
    {
    }
    if j == 0 {
    } else {
      forall i | 0 <= i < |Flat(g[1..])|
        ensures Flat(g[1..])[i] == Flat(g)[|g[0]| + i]
      {
      }
      GroupInFlat(g[1..], j - 1);
    }
  }

  /** A name that is its own short name reads back exactly when it does not end in a dot. */
  lemma ShortNameRoundTrip(p: Props)
    requires Composable(p) && !NeedsLfn(p)
    ensures ReadName(p) == p.name <==> Text(p.name) == "." || Text(p.name) == ".." || p.name[|p.name| - 1] != '.' as int
  {
    var t := Text(p.name);
    SN.ShortRoundTrip(t);
    ShortText(p);
    CodesOfText(SN.ToName(p.sfn), t, p.name);
    assert t[|t| - 1] == '.' <==> p.name[|p.name| - 1] == '.' as int;
  }

  /** Units of a string against units of a text, character by character. */
  lemma CodesOfText(r: string, t: string, name: seq<Unit16>)
    requires |t| == |name| && forall i :: 0 <= i < |t| ==> name[i] < 0x80 && t[i] == name[i] as char
    ensures Codes(r) == name <==> r == t
  {
    if Codes(r) == name {
      forall i | 0 <= i < |r|
        ensures r[i] == t[i]
      {
        assert Codes(r)[i] == UnitOf(r[i]) == name[i];
      }
      assert r == t;
    }
    if r == t {
      forall i | 0 <= i < |t|
        ensures Codes(r)[i] == name[i]
      {
      }
    }
  }

  /** A name that is its own short name is ASCII. */
  lemma ShortText(p: Props)
    requires Composable(p) && !NeedsLfn(p)
    ensures forall i :: 0 <= i < |p.name| ==> p.name[i] < 0x80 && Text(p.name)[i] == p.name[i] as char
  {
    var t := Text(p.name);
    if t != "." && t != ".." {
      SN.AllLegalAt(t);
    }
    forall i | 0 <= i < |p.name|
      ensures p.name[i] < 0x80 && t[i] == p.name[i] as char
    {
      assert t[i] == '.' || SN.IsSfnChar(t[i]);
    }
  }
}
