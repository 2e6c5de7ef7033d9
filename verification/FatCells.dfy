/** The File Allocation Table as bytes (src/codec/fat/fat_entry.rs, src/fat/sector_io.rs): cell
    decoding and encoding, and reads and writes over mirrored copies. */
module FatCells {
  import opened Basics

  datatype FatType = Fat16 | Fat32

  datatype FatEntry = Free | Next(cluster: nat) | End | Bad | Reserved

  datatype FatWrite = PutFree | PutEnd | PutNext(cluster: nat)

  function ValueMask(ty: FatType): nat { if ty.Fat16? then 0xFFFF else 0x0FFF_FFFF }

  function BadMarker(ty: FatType): nat { ValueMask(ty) - 8 }

  function EndFloor(ty: FatType): nat { ValueMask(ty) - 7 }

  function Width(ty: FatType): nat { if ty.Fat16? then 2 else 4 }

  /** Offset of cell `c` within a copy: `c * Width(ty)`. */
  function CellOffset(ty: FatType, c: nat): nat { if ty.Fat16? then 2 * c else 4 * c }

  /** `raw & value_mask`. */
  function Masked(raw: nat, ty: FatType): nat { raw % (ValueMask(ty) + 1) }

  function DecodeCell(raw: nat, maxCluster: nat, ty: FatType): FatEntry {
    var cell := Masked(raw, ty);
    if cell == 0 then Free
    else if cell == BadMarker(ty) then Bad
    else if cell >= EndFloor(ty) then End
    else if 2 <= cell <= maxCluster then Next(cell)
    else Reserved
  }

  /** How a FAT16 cell reads, by its value. */
  lemma Fat16Cells(raw: nat, maxCluster: nat)
    requires raw <= 0xFFFF && 2 <= maxCluster < 0xFFF7
    ensures DecodeCell(raw, maxCluster, Fat16) ==
      if raw == 0 then Free else if raw >= 0xFFF8 then End else if raw == 0xFFF7 then Bad
      else if raw == 1 || raw > maxCluster then Reserved else Next(raw)
  {
  }

  /** How a FAT32 cell reads: by its low 28 bits. */
  lemma Fat32Cells(top: nat, low: nat, maxCluster: nat)
    requires low <= 0x0FFF_FFFF && 2 <= maxCluster < 0x0FFF_FFF7
    ensures DecodeCell(top * 0x1000_0000 + low, maxCluster, Fat32) ==
      if low == 0 then Free else if low >= 0x0FFF_FFF8 then End else if low == 0x0FFF_FFF7 then Bad
      else if low == 1 || low > maxCluster then Reserved else Next(low)
  {
    assert Masked(top * 0x1000_0000 + low, Fat32) == low;
  }

  /** The value bits `write_fat` stores. */
  function ValueOf(value: FatWrite, ty: FatType): (v: nat)
    ensures v <= ValueMask(ty)
  {
    match value
    case PutFree => 0
    case PutEnd => ValueMask(ty)
    case PutNext(next) => Masked(next, ty)
  }

  /** The reserved top nibble of a FAT32 cell; FAT16 cells have none. */
  function ReservedBits(raw: nat, ty: FatType): nat {
    if ty.Fat16? then 0 else raw - Masked(raw, ty)
  }

  function EntryOf(value: FatWrite): FatEntry {
    match value
    case PutFree => Free
    case PutEnd => End
    case PutNext(next) => Next(next)
  }

  /** A write makes sense on a volume when the link it stores names a data cluster. */
  predicate Storable(value: FatWrite, maxCluster: nat) {
    value.PutNext? ==> 2 <= value.cluster <= maxCluster
  }

  /** The reserved bits do not show through the mask. */
  lemma MaskKeeps(v: nat, raw: nat, ty: FatType)
    requires v <= ValueMask(ty)
    ensures Masked(v + ReservedBits(raw, ty), ty) == v
    ensures ReservedBits(v + ReservedBits(raw, ty), ty) == ReservedBits(raw, ty)
  {
    if ty.Fat32? {
      var q := raw / 0x1000_0000;
      assert ReservedBits(raw, ty) == q * 0x1000_0000;
      assert (v + q * 0x1000_0000) % 0x1000_0000 == v;
    }
  }

  /** What is written decodes to what was meant, whatever the reserved bits were. */
  lemma CellRoundTrip(value: FatWrite, raw: nat, maxCluster: nat, ty: FatType)
    requires maxCluster < BadMarker(ty) && Storable(value, maxCluster)
    ensures DecodeCell(ValueOf(value, ty) + ReservedBits(raw, ty), maxCluster, ty) == EntryOf(value)
    ensures ReservedBits(ValueOf(value, ty) + ReservedBits(raw, ty), ty) == ReservedBits(raw, ty)
  {
    MaskKeeps(ValueOf(value, ty), raw, ty);
    if value.PutNext? {
      assert Masked(value.cluster, ty) == value.cluster;
    }
  }

  /** How a write reads back: a link is masked first, so one that names no data cluster may read as
      anything. */
  function StoredAs(value: FatWrite, maxCluster: nat, ty: FatType): FatEntry {
    DecodeCell(ValueOf(value, ty), maxCluster, ty)
  }

  lemma CellStored(value: FatWrite, raw: nat, maxCluster: nat, ty: FatType)
    requires maxCluster < BadMarker(ty)
    ensures DecodeCell(ValueOf(value, ty) + ReservedBits(raw, ty), maxCluster, ty) == StoredAs(value, maxCluster, ty)
    ensures ReservedBits(ValueOf(value, ty) + ReservedBits(raw, ty), ty) == ReservedBits(raw, ty)
    ensures Storable(value, maxCluster) ==> StoredAs(value, maxCluster, ty) == EntryOf(value)
  {
    MaskKeeps(ValueOf(value, ty), raw, ty);
    MaskKeeps(ValueOf(value, ty), 0, ty);
    if Storable(value, maxCluster) {
      CellRoundTrip(value, raw, maxCluster, ty);
    }
  }

  /** A link survives exactly when it names a data cluster of the volume. */
  lemma StoredLinkExact(next: nat, raw: nat, maxCluster: nat, ty: FatType)
    requires maxCluster < BadMarker(ty)
    ensures DecodeCell(ValueOf(PutNext(next), ty) + ReservedBits(raw, ty), maxCluster, ty) == Next(next) <==>
      2 <= next <= maxCluster
  {
    MaskKeeps(ValueOf(PutNext(next), ty), raw, ty);
    if 2 <= next <= maxCluster {
      assert Masked(next, ty) == next;
    }
  }

  function LeBytes(v: nat, width: nat): (b: seq<Byte>)
    ensures |b| == width
  {
    if width == 0 then [] else [v % 256] + LeBytes(v / 256, width - 1)
  }

  function LeValue(b: seq<Byte>): nat {
    if b == [] then 0 else b[0] + 256 * LeValue(b[1..])
  }

  /** Two and four bytes as the format stores them: the low one first. */
  lemma LittleEndian(a: Byte, b: Byte, c: Byte, d: Byte)
    ensures LeValue([a, b]) == a + 0x100 * b
    ensures LeValue([a, b, c, d]) == a + 0x100 * b + 0x1_0000 * c + 0x100_0000 * d
  {
    TwoBytes(a, b);
    TwoBytes(c, d);
    assert [a, b, c, d][1..] == [b, c, d] && [b, c, d][1..] == [c, d];
    assert LeValue([b, c, d]) == b + 256 * LeValue([c, d]);
  }

  lemma TwoBytes(a: Byte, b: Byte)
    ensures LeValue([a, b]) == a + 0x100 * b
  {
    assert [a, b][1..] == [b] && [b][1..] == [];
    assert LeValue([b]) == b + 256 * LeValue([]);
  }

  function Pow256(width: nat): nat { if width == 0 then 1 else 256 * Pow256(width - 1) }

  lemma {:induction false} LeRoundTrip(v: nat, width: nat)
    requires v < Pow256(width)
    ensures LeValue(LeBytes(v, width)) == v
  {
    if width == 0 {
    } else {
      LeRoundTrip(v / 256, width - 1);
      assert LeBytes(v, width)[1..] == LeBytes(v / 256, width - 1);
    }
  }

  lemma {:induction false} LeValueBound(b: seq<Byte>)
    ensures LeValue(b) < Pow256(|b|)
  {
    if b == [] {
    } else {
      LeValueBound(b[1..]);
    }
  }

  /** Where the table lies and how its copies are used: with mirroring every copy is written and
      copy 0 read, without it only the active copy is used. */
  datatype Layout = Layout(ty: FatType, sectorSize: nat, firstFatSector: nat, fatSectors: nat,
                           copies: nat, mirroring: bool, activeFat: nat, maxCluster: nat)

  function ActiveCopy(l: Layout): nat { if l.mirroring then 0 else l.activeFat }

  function FatBytes(l: Layout): nat { Units(l.fatSectors, l.sectorSize) }

  function FatStart(l: Layout): nat { Units(l.firstFatSector, l.sectorSize) }

  function FatEnd(l: Layout): nat { FatStart(l) + Units(l.copies, FatBytes(l)) }

  /** What mount checks or assumes: the copies fit the sector index, a copy holds every cell,
      and no data cluster has the number of a marker. */
  predicate WellFormed(l: Layout) {
    && l.sectorSize > 0
    && l.firstFatSector + Units(l.copies, l.fatSectors) <= U32_MAX
    && ActiveCopy(l) < l.copies
    && CellOffset(l.ty, l.maxCluster + 1) <= FatBytes(l)
    && 2 <= l.maxCluster < BadMarker(l.ty)
  }

  /** `fat_copy_base`, saturating as the source computes it. */
  function CopyBase(l: Layout, copy: nat): nat {
    Units(SatAdd(l.firstFatSector, SatMul(copy, l.fatSectors)), l.sectorSize)
  }

  lemma CopyBaseIs(l: Layout, copy: nat)
    requires WellFormed(l) && copy < l.copies
    ensures CopyBase(l, copy) == FatStart(l) + Units(copy, FatBytes(l))
  {
    UnitsMono(copy, l.copies, l.fatSectors);
    UnitsSplit(l.firstFatSector, Units(copy, l.fatSectors), l.sectorSize);
    UnitsAssoc(copy, l.fatSectors, l.sectorSize);
  }

  /** Byte offset of cell `c` in FAT copy `copy`. */
  function CellAt(l: Layout, copy: nat, c: nat): nat { CopyBase(l, copy) + CellOffset(l.ty, c) }

  lemma CellInCopy(l: Layout, k: nat, c: nat)
    requires WellFormed(l) && k < l.copies && c <= l.maxCluster
    ensures CellAt(l, k, c) == FatStart(l) + Units(k, FatBytes(l)) + CellOffset(l.ty, c)
    ensures CellAt(l, k, c) + Width(l.ty) <= FatStart(l) + Units(k + 1, FatBytes(l)) <= FatEnd(l)
  {
    CopyBaseIs(l, k);
    UnitsMono(k + 1, l.copies, FatBytes(l));
  }

  /** Where cell `c` of copy `k` is, in bytes. */
  lemma CellExactly(l: Layout, k: nat, c: nat)
    requires WellFormed(l) && k < l.copies && c <= l.maxCluster
    ensures CellAt(l, k, c) ==
      (l.firstFatSector + k * l.fatSectors) * l.sectorSize + if l.ty.Fat16? then 2 * c else 4 * c
  {
    UnitsMono(k, l.copies, l.fatSectors);
    UnitsIsProduct(k, l.fatSectors);
    UnitsIsProduct(l.firstFatSector + k * l.fatSectors, l.sectorSize);
  }

  /** Cells lie inside the FAT region and do not overlap, within and across copies. */
  lemma CellsApart(l: Layout, k: nat, c: nat, k': nat, c': nat)
    requires WellFormed(l) && k < l.copies && k' < l.copies && c <= l.maxCluster && c' <= l.maxCluster
    ensures FatStart(l) <= CellAt(l, k, c) && CellAt(l, k, c) + Width(l.ty) <= FatEnd(l)
    ensures (k, c) != (k', c') ==>
      CellAt(l, k, c) + Width(l.ty) <= CellAt(l, k', c') || CellAt(l, k', c') + Width(l.ty) <= CellAt(l, k, c)
  {
    CellInCopy(l, k, c);
    CellInCopy(l, k', c');
    if k < k' {
      UnitsMono(k + 1, k', FatBytes(l));
    } else if k' < k {
      UnitsMono(k' + 1, k, FatBytes(l));
    }
  }

  function RawCell(image: seq<Byte>, l: Layout, copy: nat, c: nat): nat
    requires CellAt(l, copy, c) + Width(l.ty) <= |image|
  {
    LeValue(image[CellAt(l, copy, c)..CellAt(l, copy, c) + Width(l.ty)])
  }

  predicate Fits(image: seq<Byte>, l: Layout) { WellFormed(l) && FatEnd(l) <= |image| }

  /** Cell `c` holds `v` in the copies `lo..hi`; every other cell, and every byte outside the FAT
      region, is as before. */
  ghost predicate CellWritten(before: seq<Byte>, after: seq<Byte>, l: Layout, lo: nat, hi: nat, c: nat, v: nat)
    requires Fits(before, l)
  {
    && |after| == |before|
    && (forall p :: 0 <= p < |before| && (p < FatStart(l) || p >= FatEnd(l)) ==> after[p] == before[p])
    && forall k: nat, c': nat {:trigger CellAt(l, k, c')} :: k < l.copies && c' <= l.maxCluster ==>
         CellAt(l, k, c') + Width(l.ty) <= |before| &&
         RawCell(after, l, k, c') == if c' == c && lo <= k < hi then v else RawCell(before, l, k, c')
  }

  /** Storing one cell's bytes. */
  lemma StoreCell(before: seq<Byte>, l: Layout, k: nat, c: nat, v: nat)
    requires Fits(before, l) && k < l.copies && c <= l.maxCluster && v < Pow256(Width(l.ty))
    ensures CellAt(l, k, c) + Width(l.ty) <= |before|
    ensures CellWritten(before, Splice(before, CellAt(l, k, c), LeBytes(v, Width(l.ty))), l, k, k + 1, c, v)
  {
    CellsApart(l, k, c, k, c);
    var at, w := CellAt(l, k, c), Width(l.ty);
    var after := Splice(before, at, LeBytes(v, w));
    forall k': nat, c': nat | k' < l.copies && c' <= l.maxCluster
      ensures CellAt(l, k', c') + w <= |before|
      ensures RawCell(after, l, k', c') == if c' == c && k' == k then v else RawCell(before, l, k', c')
    {
      CellsApart(l, k', c', k, c);
      if (k', c') == (k, c) {
        assert after[at..at + w] == LeBytes(v, w);
        LeRoundTrip(v, w);
      } else {
        var at' := CellAt(l, k', c');
        assert after[at'..at' + w] == before[at'..at' + w];
      }
    }
  }

  lemma CellWrittenThen(a: seq<Byte>, b: seq<Byte>, d: seq<Byte>, l: Layout, lo: nat, mid: nat, hi: nat, c: nat, v: nat)
    requires Fits(a, l) && lo <= mid <= hi
    requires CellWritten(a, b, l, lo, mid, c, v) && CellWritten(b, d, l, mid, hi, c, v)
    ensures CellWritten(a, d, l, lo, hi, c, v)
  {
  }

  /** The decoded table, as the driver reads it. Cells 0 and 1 are reserved. */
  ghost function TableOf(image: seq<Byte>, l: Layout): (t: seq<FatEntry>)
    requires Fits(image, l)
    ensures |t| == l.maxCluster + 1
  {
    seq(l.maxCluster + 1, c requires 0 <= c <= l.maxCluster =>
      (CellsApart(l, ActiveCopy(l), c, ActiveCopy(l), c); DecodeCell(RawCell(image, l, ActiveCopy(l), c), l.maxCluster,
        l.ty)))
  }

  /** All copies hold the same cells. */
  ghost predicate CopiesAgree(image: seq<Byte>, l: Layout)
    requires Fits(image, l)
  {
    forall k: nat, c: nat {:trigger CellAt(l, k, c)} :: k < l.copies && c <= l.maxCluster ==>
      (CellsApart(l, k, c, 0, c); RawCell(image, l, k, c) == RawCell(image, l, 0, c))
  }

  /** Copies that agreed still agree after a mirrored write. */
  lemma MirrorsStayEqual(before: seq<Byte>, after: seq<Byte>, l: Layout, c: nat, v: nat)
    requires Fits(before, l) && CopiesAgree(before, l)
    requires CellWritten(before, after, l, 0, l.copies, c, v)
    ensures CopiesAgree(after, l)
  {
    forall k: nat, c': nat | k < l.copies && c' <= l.maxCluster
      ensures CellAt(l, k, c') + Width(l.ty) <= |after| && CellAt(l, 0, c') + Width(l.ty) <= |after|
      ensures RawCell(after, l, k, c') == RawCell(after, l, 0, c')
    {
      CellsApart(l, k, c', 0, c');
    }
  }
}
