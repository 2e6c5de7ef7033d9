/** FAT geometry (src/codec/fat/bpb.rs, src/fat/fat_types.rs): the sector arithmetic of a boot
    record, saturating in `u32`, and why a record that mounts never saturates. */
module Geometry {
  import opened Basics

  const U8_MAX: nat := 0xFF
  const U16_MAX: nat := 0xFFFF
  const DIRENTRY_SIZE: nat := 32
  const RESERVED_FAT_ENTRIES: nat := 2
  const FAT16_BAD: nat := 0xFFF7
  const FAT32_BAD: nat := 0x0FFF_FFF7

  /** The fields of the boot record that geometry depends on. `tableSize32` is present on the
      FAT32 layout only. */
  datatype BootRecord = BootRecord(
    bytesPerSector: nat, sectorsPerCluster: nat, reservedSectors: nat, tableCount: nat, rootEntries: nat,
    totalSectors16: nat, tableSize16: nat, totalSectors32: nat, tableSize32: Option<nat>)

  /** The fields fit their words and the sector size has passed `is_valid_sector_size`. */
  predicate WellFormed(b: BootRecord) {
    && (b.bytesPerSector == 512 || b.bytesPerSector == 1024 || b.bytesPerSector == 2048 || b.bytesPerSector == 4096)
    && b.sectorsPerCluster <= U8_MAX && b.tableCount <= U8_MAX
    && b.reservedSectors <= U16_MAX && b.rootEntries <= U16_MAX && b.totalSectors16 <= U16_MAX &&
      b.tableSize16 <= U16_MAX
    && b.totalSectors32 <= U32_MAX && (b.tableSize32.Some? ==> b.tableSize32.value <= U32_MAX)
  }

  function TotalSectors(b: BootRecord): nat { if b.totalSectors16 == 0 then b.totalSectors32 else b.totalSectors16 }

  function FatSectors(b: BootRecord): nat { if b.tableSize32.Some? then b.tableSize32.value else b.tableSize16 }

  function RootDirSectors(b: BootRecord): nat {
    if b.bytesPerSector == 0 then 0 else Min(DivCeil(b.rootEntries * DIRENTRY_SIZE, b.bytesPerSector), U16_MAX)
  }

  function FirstRootDirSector(b: BootRecord): nat { SatAdd(b.reservedSectors, SatMul(b.tableCount, FatSectors(b))) }

  function FirstDataSector(b: BootRecord): nat { SatAdd(FirstRootDirSector(b), RootDirSectors(b)) }

  function DataSectors(b: BootRecord): nat { SatSub(TotalSectors(b), FirstDataSector(b)) }

  function TotalClusters(b: BootRecord): nat {
    if b.sectorsPerCluster == 0 then 0 else Unit(DataSectors(b), b.sectorsPerCluster)
  }

  function MaxCluster(b: BootRecord): nat { SatAdd(TotalClusters(b), 1) }

  datatype FatType = Fat16 | Fat32

  function TypeOf(b: BootRecord): Option<FatType> {
    if b.bytesPerSector == 0 || TotalClusters(b) < 4085 then None
    else if TotalClusters(b) < 65525 then Some(Fat16)
    else Some(Fat32)
  }

  function ClusterFirstSector(b: BootRecord, cluster: nat): nat {
    SatAdd(SatMul(SatSub(cluster, RESERVED_FAT_ENTRIES), b.sectorsPerCluster), FirstDataSector(b))
  }

  /** A record that fills in one of the two sector counts has that many; when both are there the 16-bit
      one counts. One whose sectors have no bytes, as the record of an exFAT volume, is of no type. */
  lemma DeclaredSectors(b: BootRecord)
    ensures b.totalSectors16 == 0 || b.totalSectors32 == 0 ==> TotalSectors(b) == b.totalSectors16 + b.totalSectors32
    ensures b.totalSectors16 > 0 && b.totalSectors32 > 0 ==> TotalSectors(b) == b.totalSectors16
    ensures b.bytesPerSector == 0 ==> TypeOf(b) == None
  {
  }

  /** Records of a supported type by the sectors they declare: FAT16 from 4085 clusters on, FAT32 from
      65525 on. */
  lemma TypeExactly(b: BootRecord)
    requires WellFormed(b)
    ensures TypeOf(b).Some? <==>
      b.sectorsPerCluster > 0 && ExactFirstData(b) + Units(4085, b.sectorsPerCluster) <= TotalSectors(b)
    ensures TypeOf(b) == Some(Fat32) <==>
      b.sectorsPerCluster > 0 && ExactFirstData(b) + Units(65525, b.sectorsPerCluster) <= TotalSectors(b)
  {
    if b.sectorsPerCluster > 0 {
      RootFits(b);
      AtLeast(b, 4085);
      AtLeast(b, 65525);
    }
  }

  /** There are `n` clusters when so many fit behind everything else. */
  lemma AtLeast(b: BootRecord, n: nat)
    requires WellFormed(b) && b.sectorsPerCluster > 0 && n > 0
    ensures TotalClusters(b) >= n <==> ExactFirstData(b) + Units(n, b.sectorsPerCluster) <= TotalSectors(b)
  {
    RootFits(b);
    var spc, data := b.sectorsPerCluster, DataSectors(b);
    UnitsAtLeast(n, spc);
    UnitsOf(data, TotalClusters(b), spc);
    if TotalClusters(b) >= n {
      UnitsMono(n, TotalClusters(b), spc);
    } else {
      UnitsMono(TotalClusters(b) + 1, n, spc);
    }
  }

  /** What the record says before any saturation: reserved sectors, FATs, fixed root. */
  function ExactFirstData(b: BootRecord): nat
    requires b.bytesPerSector > 0
  {
    b.reservedSectors + Units(b.tableCount, FatSectors(b)) + DivCeil(b.rootEntries * DIRENTRY_SIZE, b.bytesPerSector)
  }

  lemma RootFits(b: BootRecord)
    requires WellFormed(b)
    ensures RootDirSectors(b) == DivCeil(b.rootEntries * DIRENTRY_SIZE, b.bytesPerSector) <= 4096
  {
    var bytes := b.rootEntries * DIRENTRY_SIZE;
    UnitsIsProduct(4096, b.bytesPerSector);
    DivCeilLeast(bytes, b.bytesPerSector, 4096);
  }

  /** No region at all before the data, the largest sector count there is, one-sector clusters. */
  predicate AllData(b: BootRecord)
    requires b.bytesPerSector > 0
  {
    ExactFirstData(b) == 0 && TotalSectors(b) == U32_MAX && b.sectorsPerCluster == 1
  }

  /** A record of a supported type saturates no region: they add up exactly and fit the volume. The
      highest cluster number saturates exactly on the record that has data sectors only. */
  lemma NothingSaturates(b: BootRecord)
    requires WellFormed(b) && TypeOf(b).Some?
    ensures FirstRootDirSector(b) == b.reservedSectors + Units(b.tableCount, FatSectors(b))
    ensures FirstDataSector(b) == ExactFirstData(b)
    ensures DataSectors(b) == TotalSectors(b) - ExactFirstData(b)
    ensures b.sectorsPerCluster > 0 && (MaxCluster(b) == TotalClusters(b) + 1 <==> !AllData(b))
    ensures MaxCluster(b) <= TotalClusters(b) + 1
    ensures ExactFirstData(b) + Units(TotalClusters(b), b.sectorsPerCluster) <= TotalSectors(b)
  {
    RootFits(b);
    var spc, data := b.sectorsPerCluster, DataSectors(b);
    UnitsOf(data, TotalClusters(b), spc);
    UnitsAtLeast(TotalClusters(b), spc);
    UnitsOf(data, data, 1);
    UnitsIsProduct(data, 1);
  }

  lemma {:induction false} UnitsAtLeast(k: nat, n: nat)
    requires n > 0
    ensures k <= Units(k, n) && (n > 1 ==> 2 * k <= Units(k, n))
  {
    if k == 0 {
    } else {
      UnitsAtLeast(k - 1, n);
    }
  }

  /** Every valid cluster maps, without saturating, to a run of sectors in the data region. */
  lemma ClusterInVolume(b: BootRecord, c: nat)
    requires WellFormed(b) && TypeOf(b).Some? && 2 <= c <= MaxCluster(b)
    ensures ClusterFirstSector(b, c) == ExactFirstData(b) + Units(c - 2, b.sectorsPerCluster)
    ensures ExactFirstData(b) <= ClusterFirstSector(b, c)
    ensures ClusterFirstSector(b, c) + b.sectorsPerCluster <= TotalSectors(b) && b.sectorsPerCluster > 0
  {
    NothingSaturates(b);
    UnitsMono(c - 2 + 1, TotalClusters(b), b.sectorsPerCluster);
  }

  /** Sector ranges of distinct clusters do not meet. */
  lemma ClustersApart(b: BootRecord, c: nat, d: nat, s: nat)
    requires WellFormed(b) && TypeOf(b).Some? && 2 <= c <= MaxCluster(b) && 2 <= d <= MaxCluster(b)
    requires ClusterFirstSector(b, c) <= s < ClusterFirstSector(b, c) + b.sectorsPerCluster
    requires ClusterFirstSector(b, d) <= s < ClusterFirstSector(b, d) + b.sectorsPerCluster
    ensures c == d
  {
    ClusterInVolume(b, c);
    ClusterInVolume(b, d);
    OneUnit(s - ExactFirstData(b), c - 2, d - 2, b.sectorsPerCluster);
  }

  lemma OneUnit(at: nat, i: nat, j: nat, n: nat)
    requires n > 0 && Units(i, n) <= at < Units(i, n) + n && Units(j, n) <= at < Units(j, n) + n
    ensures i == j
  {
    UnitsOf(at, i, n);
    UnitsOf(at, j, n);
  }

  /** Every sector of the data region that whole clusters cover belongs to one valid cluster. */
  lemma ClustersCover(b: BootRecord, s: nat)
    requires WellFormed(b) && TypeOf(b).Some? && !AllData(b)
    requires ExactFirstData(b) <= s < ExactFirstData(b) + Units(TotalClusters(b), b.sectorsPerCluster)
    ensures exists c ::
      2 <= c <= MaxCluster(b) &&
      ClusterFirstSector(b, c) <= s < ClusterFirstSector(b, c) + b.sectorsPerCluster
  {
    NothingSaturates(b);
    var spc, at := b.sectorsPerCluster, s - ExactFirstData(b);
    var c := Unit(at, spc) + 2;
    UnitsOf(at, c - 2, spc);
    if c - 2 >= TotalClusters(b) {
      UnitsMono(TotalClusters(b), c - 2, spc);
    }
    ClusterInVolume(b, c);
  }

  /** The byte address of any sector of the volume fits 64 bits. */
  lemma SectorAddressFits(b: BootRecord, s: nat)
    requires WellFormed(b) && s <= TotalSectors(b)
    ensures s * b.bytesPerSector <= U64_MAX
  {
    assert s * b.bytesPerSector <= U32_MAX * 4096 by {
      assert s * b.bytesPerSector <= s * 4096;
    }
  }

  /** On FAT16 no valid cluster number reads as the bad or the end marker. */
  lemma Fat16BelowMarkers(b: BootRecord)
    requires TypeOf(b) == Some(Fat16)
    ensures MaxCluster(b) <= 65525 < FAT16_BAD
  {
  }

  /** On FAT32 the same holds exactly when the record declares few enough clusters; `fat_type` does
      not check it. */
  lemma Fat32BelowMarkers(b: BootRecord)
    requires WellFormed(b) && TypeOf(b) == Some(Fat32)
    ensures MaxCluster(b) < FAT32_BAD <==>
      TotalSectors(b) < ExactFirstData(b)
      + Units(FAT32_BAD - 1, b.sectorsPerCluster)
  {
    NothingSaturates(b);
    var spc, data := b.sectorsPerCluster, DataSectors(b);
    UnitsOf(data, TotalClusters(b), spc);
    if TotalClusters(b) < FAT32_BAD - 1 {
      UnitsMono(TotalClusters(b) + 1, FAT32_BAD - 1, spc);
    } else {
      UnitsMono(FAT32_BAD - 1, TotalClusters(b), spc);
    }
  }

  /** A record that mounts although its clusters reach past the bad marker. */
  lemma Fat32MarkerReached()
    ensures var b := BootRecord(512, 1, 32, 2, 0, 0, 0, U32_MAX, Some(1000));
      WellFormed(b) && TypeOf(b) == Some(Fat32) && MaxCluster(b) >= FAT32_BAD
  {
    var b := BootRecord(512, 1, 32, 2, 0, 0, 0, U32_MAX, Some(1000));
    UnitsIsProduct(2, 1000);
    UnitsIsProduct(0, 512);
    DivCeilUnits(0, 512);
    assert FirstDataSector(b) == 2032;
    UnitsIsProduct(DataSectors(b), 1);
    UnitsOf(DataSectors(b), DataSectors(b), 1);
  }
}
