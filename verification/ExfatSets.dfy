/** exFAT entry sets as 32-byte slots (src/codec/exfat/entry_set.rs, src/codec/exfat/raw_entry.rs,
    src/exfat/direntry.rs): the `0x85` primary, its `0xC0` stream extension and `0xC1` name entries,
    under one checksum. Section 6.3.3 of the exFAT specification defines the checksum. */
module ExfatSets {
  import opened Basics
  import opened FatCells
  import opened SlotBlocks
  import L = LfnParser

  type Unit16 = L.Unit16

  type Slot = seq<Byte>

  const SLOT_SIZE: nat := 32
  const TYPE_FILE: Byte := 0x85
  const TYPE_STREAM: Byte := 0xC0
  const TYPE_NAME: Byte := 0xC1
  const END_OF_DIRECTORY: Byte := 0x00
  const IN_USE: Byte := 0x80
  const UNITS_PER_NAME: nat := 15
  const MAX_NAMES: nat := 254

  predicate Sized(s: Slot) { |s| == SLOT_SIZE }

  predicate AllSized(slots: seq<Slot>) { forall i :: 0 <= i < |slots| ==> Sized(slots[i]) }

  // ---------------------------------------------------------------- the checksum

  /** One step: rotate the 16-bit sum right, add the byte, wrap around. */
  function SumStep(sum: Unit16, b: Byte): Unit16 {
    (sum / 2 + sum % 2 * 0x8000 + b) % 0x10000
  }

  /** The step in bits: the 16 bits of the sum rotate right by one, and the byte is added. */
  lemma SumStepRotates(sum: Unit16, b: Byte)
    ensures SumStep(sum, b) == (FromBits(RotatedRight(ToBits(sum, 16))) + b) % 0x1_0000
  {
    assert BitWeight(5) == 32 && BitWeight(10) == 1024 && BitWeight(15) == 0x8000 && BitWeight(16) == 0x1_0000;
    RotatedIs(sum, 16);
  }

  /** `SetChecksum::update` over a run of bytes. */
  function SumOver(sum: Unit16, bytes: seq<Byte>): Unit16
    decreases |bytes|
  {
    if bytes == [] then sum else SumOver(SumStep(sum, bytes[0]), bytes[1..])
  }

  lemma {:induction false} SumOverBoth(sum: Unit16, a: seq<Byte>, b: seq<Byte>)
    ensures SumOver(sum, a + b) == SumOver(SumOver(sum, a), b)
    decreases |a|
  {
    if a == [] {
      assert a + b == b;
    } else {
      assert (a + b)[1..] == a[1..] + b;
      SumOverBoth(SumStep(sum, a[0]), a[1..], b);
    }
  }

  lemma SumOverPush(sum: Unit16, a: seq<Byte>, x: Byte)
    ensures SumOver(sum, a + [x]) == SumStep(SumOver(sum, a), x)
  {
    SumOverBoth(sum, a, [x]);
    assert [x][1..] == [];
  }

  /** All bytes of a set in order. */
  function Bytes(slots: seq<Slot>): seq<Byte> { if slots == [] then [] else slots[0] + Bytes(slots[1..]) }

  /** The checksum of a set: over all its bytes but the two of the checksum field. */
  function SetChecksum(slots: seq<Slot>): Unit16
    requires slots != [] && Sized(slots[0])
  {
    SumOver(SumOver(0, slots[0][..2]), slots[0][4..] + Bytes(slots[1..]))
  }

  /** The specification's `EntrySetChecksum` loop: every byte in turn, skipping 2 and 3. */
  method EntrySetChecksum(slots: seq<Slot>) returns (sum: Unit16)
    requires slots != [] && AllSized(slots)
    ensures sum == SetChecksum(slots)
  {
    var bytes := Bytes(slots);
    var head, rest := slots[0], Bytes(slots[1..]);
    sum := 0;
    for i := 0 to |bytes|
      invariant sum == SumOver(0, Unskipped(bytes, i))
    {
      if i != 2 && i != 3 {
        SumOverPush(0, Unskipped(bytes, i), bytes[i]);
        var rotated := if sum % 2 == 0 then sum / 2 else sum / 2 + 0x8000;
        sum := (rotated + bytes[i]) % 0x1_0000;
      }
      SkipStep(bytes, i);
    }
    assert Unskipped(bytes, |bytes|) == head[..2] + (head[4..] + rest);
    SumOverBoth(0, head[..2], head[4..] + rest);
  }

  /** The first `n` bytes without bytes 2 and 3. */
  function Unskipped(bytes: seq<Byte>, n: nat): seq<Byte>
    requires n <= |bytes|
  {
    if n <= 2 then bytes[..n] else if n <= 4 then bytes[..2] else bytes[..2] + bytes[4..n]
  }

  lemma SkipStep(bytes: seq<Byte>, i: nat)
    requires i < |bytes|
    ensures Unskipped(bytes, i + 1) == if i == 2 || i == 3 then Unskipped(bytes, i)
      else Unskipped(bytes, i) + [bytes[i]]
  {
  }

  // ---------------------------------------------------------------- entries

  /** The stream extension; `hash` and `reserved3` are four bytes each. */
  datatype Stream = Stream(flags: Byte, reserved1: Byte, nameLength: Byte, hash: seq<Byte>,
                           validLength: nat, reserved3: seq<Byte>, firstCluster: nat, dataLength: nat)

  predicate StreamFits(s: Stream) {
    |s.hash| == 4 && |s.reserved3| == 4 && s.validLength <= U64_MAX && s.firstCluster <= U32_MAX &&
      s.dataLength <= U64_MAX
  }

  function EncodeStream(s: Stream): (b: Slot)
    requires StreamFits(s)
    ensures Sized(b)
  {
    [TYPE_STREAM, s.flags, s.reserved1, s.nameLength] + s.hash + LeBytes(s.validLength, 8) + s.reserved3
      + LeBytes(s.firstCluster, 4) + LeBytes(s.dataLength, 8)
  }

  function DecodeStream(b: Slot): (s: Stream)
    requires Sized(b)
  {
    Stream(b[1], b[2], b[3], b[4..8], LeValue(b[8..16]), b[16..20], LeValue(b[20..24]), LeValue(b[24..32]))
  }

  lemma PowersOf256()
    ensures Pow256(4) == U32_MAX + 1 && Pow256(8) == U64_MAX + 1
  {
    assert Pow256(4) == 0x1_0000_0000;
    assert Pow256(6) == 0x1_0000_0000 * 0x1_0000;
    assert Pow256(8) == 0x1_0000_0000 * 0x1_0000_0000;
  }

  lemma StreamRoundTrip(s: Stream)
    requires StreamFits(s)
    ensures DecodeStream(EncodeStream(s)) == s
  {
    PowersOf256();
    LeRoundTrip(s.validLength, 8);
    LeRoundTrip(s.firstCluster, 4);
    LeRoundTrip(s.dataLength, 8);
    Fields([TYPE_STREAM, s.flags, s.reserved1, s.nameLength], s.hash, LeBytes(s.validLength, 8), s.reserved3,
      LeBytes(s.firstCluster, 4), LeBytes(s.dataLength, 8), EncodeStream(s));
  }

  /** The fields of a stream extension by their offsets. */
  lemma Fields(a: seq<Byte>, h: seq<Byte>, v: seq<Byte>, r: seq<Byte>, f: seq<Byte>, d: seq<Byte>, all: seq<Byte>)
    requires |a| == 4 && |h| == 4 && |v| == 8 && |r| == 4 && |f| == 4 && |d| == 8 && all == a + h + v + r + f + d
    ensures |all| == 32 && all[0] == a[0] && all[1] == a[1] && all[2] == a[2] && all[3] == a[3]
    ensures all[4..8] == h && all[8..16] == v && all[16..20] == r && all[20..24] == f && all[24..32] == d
  {
  }

  lemma {:induction false} LeBytesOf(b: seq<Byte>)
    ensures LeBytes(LeValue(b), |b|) == b
  {
    if b == [] {
    } else {
      LeBytesOf(b[1..]);
    }
  }

  lemma StreamDecoded(b: Slot)
    requires Sized(b) && b[0] == TYPE_STREAM
    ensures StreamFits(DecodeStream(b)) && EncodeStream(DecodeStream(b)) == b
  {
    PowersOf256();
    LeValueBound(b[8..16]);
    LeValueBound(b[20..24]);
    LeValueBound(b[24..32]);
    LeBytesOf(b[8..16]);
    LeBytesOf(b[20..24]);
    LeBytesOf(b[24..32]);
  }

  /** A name entry: 15 UTF-16 units. */
  datatype NameEntry = NameEntry(flags: Byte, units: seq<Unit16>)

  predicate NameFits(n: NameEntry) { |n.units| == UNITS_PER_NAME }

  function Word(lo: Byte, hi: Byte): Unit16 { lo + 256 * hi }

  function UnitBytes(us: seq<Unit16>): (b: seq<Byte>)
    ensures |b| == 2 * |us|
  {
    if us == [] then [] else [us[0] % 256, us[0] / 256] + UnitBytes(us[1..])
  }

  function BytesUnits(b: seq<Byte>): (us: seq<Unit16>)
    ensures 2 * |us| <= |b| < 2 * |us| + 2
  {
    if |b| < 2 then [] else [Word(b[0], b[1])] + BytesUnits(b[2..])
  }

  lemma {:induction false} UnitsRoundTrip(us: seq<Unit16>)
    ensures BytesUnits(UnitBytes(us)) == us
  {
    if us == [] {
    } else {
      UnitsRoundTrip(us[1..]);
      assert UnitBytes(us)[2..] == UnitBytes(us[1..]);
    }
  }

  lemma {:induction false} UnitsDecoded(b: seq<Byte>)
    requires |b| % 2 == 0
    ensures UnitBytes(BytesUnits(b)) == b
  {
    if b == [] {
    } else {
      UnitsDecoded(b[2..]);
    }
  }

  function EncodeName(n: NameEntry): (b: Slot)
    requires NameFits(n)
    ensures Sized(b)
  {
    [TYPE_NAME, n.flags] + UnitBytes(n.units)
  }

  function DecodeName(b: Slot): (n: NameEntry)
    requires Sized(b)
    ensures NameFits(n)
  {
    NameEntry(b[1], BytesUnits(b[2..]))
  }

  lemma NameRoundTrip(n: NameEntry)
    requires NameFits(n)
    ensures DecodeName(EncodeName(n)) == n
  {
    UnitsRoundTrip(n.units);
    assert EncodeName(n)[2..] == UnitBytes(n.units);
  }

  lemma NameDecoded(b: Slot)
    requires Sized(b) && b[0] == TYPE_NAME
    ensures EncodeName(DecodeName(b)) == b
  {
    UnitsDecoded(b[2..]);
  }

  function EncodeNames(ns: seq<NameEntry>): (r: seq<Slot>)
    requires forall i :: 0 <= i < |ns| ==> NameFits(ns[i])
    ensures |r| == |ns| && AllSized(r)
  {
    if ns == [] then [] else [EncodeName(ns[0])] + EncodeNames(ns[1..])
  }

  function DecodeNames(slots: seq<Slot>): (r: seq<NameEntry>)
    requires AllSized(slots)
    ensures |r| == |slots| && forall i :: 0 <= i < |r| ==> NameFits(r[i])
  {
    if slots == [] then [] else [DecodeName(slots[0])] + DecodeNames(slots[1..])
  }

  predicate AllNames(slots: seq<Slot>)
    requires AllSized(slots)
  {
    forall i :: 0 <= i < |slots| ==> slots[i][0] == TYPE_NAME
  }

  lemma {:induction false} NamesRoundTrip(ns: seq<NameEntry>)
    requires forall i :: 0 <= i < |ns| ==> NameFits(ns[i])
    ensures DecodeNames(EncodeNames(ns)) == ns && AllNames(EncodeNames(ns))
  {
    if ns == [] {
    } else {
      var r := EncodeNames(ns);
      NamesRoundTrip(ns[1..]);
      NameRoundTrip(ns[0]);
      assert r[0] == EncodeName(ns[0]) && r[1..] == EncodeNames(ns[1..]);
      forall i | 0 <= i < |r|
        ensures r[i][0] == TYPE_NAME
      {
        assert i > 0 ==> r[i] == r[1..][i - 1];
      }
    }
  }

  lemma {:induction false} NamesDecoded(slots: seq<Slot>)
    requires AllSized(slots) && AllNames(slots)
    ensures EncodeNames(DecodeNames(slots)) == slots
  {
    if slots == [] {
    } else {
      NamesDecoded(slots[1..]);
      NameDecoded(slots[0]);
    }
  }

  // ---------------------------------------------------------------- sets

  /** An entry set; `meta` are the 28 bytes of the primary after the checksum: attributes and
      times. */
  datatype FileSet = FileSet(meta: seq<Byte>, stream: Stream, names: seq<NameEntry>)

  predicate SetFits(s: FileSet) {
    |s.meta| == 28 && StreamFits(s.stream) && |s.names| <= MAX_NAMES && forall i :: 0 <= i < |s.names| ==>
      NameFits(s.names[i])
  }

  function Primary(count: Byte, checksum: Unit16, meta: seq<Byte>): (b: Slot)
    requires |meta| == 28
    ensures Sized(b)
  {
    [TYPE_FILE, count, checksum % 256, checksum / 256] + meta
  }

  function Secondaries(s: FileSet): (r: seq<Slot>)
    requires SetFits(s)
    ensures |r| == 1 + |s.names| && AllSized(r)
  {
    [EncodeStream(s.stream)] + EncodeNames(s.names)
  }

  /** The checksum does not depend on the checksum field. */
  function SumFor(count: Byte, meta: seq<Byte>, secondaries: seq<Slot>): Unit16
    requires |meta| == 28
  {
    SetChecksum([Primary(count, 0, meta)] + secondaries)
  }

  /** Encoding restamps the secondary count and the checksum. */
  function Encode(s: FileSet): (r: seq<Slot>)
    requires SetFits(s)
    ensures |r| == 2 + |s.names| && AllSized(r)
  {
    var rest := Secondaries(s);
    [Primary(1 + |s.names|, SumFor(1 + |s.names|, s.meta, rest), s.meta)] + rest
  }

  function CountOf(b: Slot): Byte
    requires Sized(b)
  {
    b[1]
  }

  function StoredSum(b: Slot): Unit16
    requires Sized(b)
  {
    Word(b[2], b[3])
  }

  /** The slots `[head] + rest` are a valid set: entry types, a stream extension, the checksum. */
  predicate IsSet(head: Slot, rest: seq<Slot>)
    requires Sized(head) && AllSized(rest)
  {
    && head[0] == TYPE_FILE && CountOf(head) == |rest| && rest != [] && rest[0][0] == TYPE_STREAM && AllNames(rest[1..])
    && SetChecksum([head] + rest) == StoredSum(head)
  }

  function SetOf(head: Slot, rest: seq<Slot>): FileSet
    requires Sized(head) && AllSized(rest) && rest != []
  {
    FileSet(head[4..], DecodeStream(rest[0]), DecodeNames(rest[1..]))
  }

  /** Decode the set that starts the slots; `None` for one that is malformed or cut short. */
  function Decode(slots: seq<Slot>): (r: Option<(FileSet, nat)>)
    requires AllSized(slots)
    ensures r.Some? ==> 0 < r.value.1 <= |slots|
  {
    if slots == [] || slots[0][0] != TYPE_FILE || 1 + CountOf(slots[0]) > |slots| then None
    else
      var n := 1 + CountOf(slots[0]);
      if IsSet(slots[0], slots[1..n]) then Some((SetOf(slots[0], slots[1..n]), n)) else None
  }

  lemma ChecksumField(count: Byte, a: Unit16, meta: seq<Byte>, rest: seq<Slot>)
    requires |meta| == 28
    ensures SetChecksum([Primary(count, a, meta)] + rest) == SumFor(count, meta, rest)
    ensures StoredSum(Primary(count, a, meta)) == a
  {
    var b, z := Primary(count, a, meta), Primary(count, 0, meta);
    assert b[..2] == z[..2] && b[4..] == meta == z[4..];
    assert ([b] + rest)[1..] == rest == ([z] + rest)[1..];
  }

  lemma EncodedIsSet(s: FileSet)
    requires SetFits(s)
    ensures IsSet(Encode(s)[0], Encode(s)[1..]) && SetOf(Encode(s)[0], Encode(s)[1..]) == s
  {
    var rest := Secondaries(s);
    var sum := SumFor(1 + |s.names|, s.meta, rest);
    ChecksumField(1 + |s.names|, sum, s.meta, rest);
    assert Encode(s)[1..] == rest && rest[1..] == EncodeNames(s.names);
    NamesRoundTrip(s.names);
    StreamRoundTrip(s.stream);
    assert Primary(1 + |s.names|, sum, s.meta)[4..] == s.meta;
  }

  /** Decoding an encoded set gives it back, whatever follows. */
  lemma SetRoundTrip(s: FileSet, more: seq<Slot>)
    requires SetFits(s) && AllSized(more)
    ensures AllSized(Encode(s) + more) && Decode(Encode(s) + more) == Some((s, |Encode(s)|))
  {
    EncodedIsSet(s);
    var all := Encode(s) + more;
    assert all[0] == Encode(s)[0] && all[1..|Encode(s)|] == Encode(s)[1..];
  }

  /** Encoding a decoded set gives its slots back: the checksum and the count are forced. */
  lemma SetDecoded(slots: seq<Slot>)
    requires AllSized(slots) && Decode(slots).Some?
    ensures var (s, n) := Decode(slots).value; SetFits(s) && Encode(s) == slots[..n]
  {
    var head := slots[0];
    var n := 1 + CountOf(head);
    SetReencodes(head, slots[1..n], SetOf(head, slots[1..n]));
    assert slots[..n] == [head] + slots[1..n];
  }

  lemma HeadParts(head: Slot)
    requires Sized(head) && head[0] == TYPE_FILE
    ensures head == Primary(CountOf(head), StoredSum(head), head[4..])
  {
    var sum := StoredSum(head);
    assert sum % 256 == head[2] && sum / 256 == head[3];
  }

  lemma SetReencodes(head: Slot, rest: seq<Slot>, s: FileSet)
    requires Sized(head) && AllSized(rest) && IsSet(head, rest) && s == SetOf(head, rest)
    ensures SetFits(s) && Encode(s) == [head] + rest
  {
    StreamDecoded(rest[0]);
    NamesDecoded(rest[1..]);
    assert Secondaries(s) == rest;
    HeadParts(head);
    ChecksumField(CountOf(head), StoredSum(head), head[4..], rest);
  }
}
