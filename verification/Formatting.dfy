/** What the formatter computes: the FAT32 parameters of a partition and the bytes it lays out. */
module Formatting {
  import opened Bytes
  import opened FatCodec
  import opened Volumes
  import opened BootSectors

  /** The parameters. There are always 32 reserved sectors and two copies of the table. */
  datatype Fat32Config = Fat32Config(totalSectors: nat, sectorsPerCluster: nat, volumeLabel: seq<byte>, volumeId: nat)

  const LABEL: seq<byte> := [0x42, 0x4F, 0x4F, 0x54] // "BOOT"

  function CalculateFat32Config(sectors: nat): (c: Fat32Config)
    ensures c.totalSectors == sectors && c.sectorsPerCluster in {1, 2, 8, 16, 32}
  {
    var perCluster :=
      if sectors < 66600 then 1
      else if sectors < 532480 then 2
      else if sectors < 16777216 then 8
      else if sectors < 33554432 then 16
      else 32;
    Fat32Config(sectors, perCluster, LABEL, 0x12345678)
  }

  /** The whole clusters in `data` sectors. */
  function Clusters(data: nat, perCluster: nat): nat
    requires perCluster > 0
  {
    data / perCluster
  }

  /** Sectors for the entries of the clusters that fit into `data` sectors, in 32-bit arithmetic. */
  function TableSectors(data: nat, perCluster: nat): nat
    requires perCluster > 0
  {
    U32(U32(U32(Clusters(data, perCluster) + 2) * 4) + 511) / 512
  }

  /** The estimate for the whole partition, and the second one for what the first leaves. */
  function CalculateSectorsPerFat(c: Fat32Config): nat
    requires c.sectorsPerCluster > 0
  {
    var data := U32(c.totalSectors - 32);
    var first := TableSectors(data, c.sectorsPerCluster);
    TableSectors(U32(data - U32(first * 2)), c.sectorsPerCluster)
  }

  /** Clusters behind the tables. */
  function ClusterCount(c: Fat32Config): nat
    requires c.sectorsPerCluster > 0
  {
    Clusters(U32(U32(c.totalSectors - 32) - U32(2 * CalculateSectorsPerFat(c))), c.sectorsPerCluster)
  }

  // ----- sizes -----

  /** Sectors that hold `clusters + 2` entries of four bytes. */
  function Needed(clusters: nat): nat {
    (clusters * 4 + 519) / 512
  }

  /** The cluster size goes with the number of sectors. */
  predicate Suits(data: nat, perCluster: nat) {
    match perCluster
    case 1 => data < 66600
    case 2 => data < 532480
    case 8 => data < 16777216
    case 16 => data < 33554432
    case 32 => data < TWO32
    case _ => false
  }

  lemma ConfigSuits(sectors: nat)
    requires 34 <= sectors < TWO32
    ensures Suits(sectors - 32, CalculateFat32Config(sectors).sectorsPerCluster)
  {
  }

  /** With such a cluster size the table of `data` sectors is small, and two of it fit. */
  lemma EstimateFits(data: nat, n: nat)
    requires Suits(data, n) && n > 0
    ensures TableSectors(data, n) == Needed(Clusters(data, n))
    ensures Needed(Clusters(data, n)) < 0x20_0000
    ensures data >= 2 ==> 2 * Needed(Clusters(data, n)) <= data
  {
    var clusters := Clusters(data, n);
    assert clusters <= data && clusters < 0x800_0000;
    SmallWord(clusters + 2);
    SmallWord((clusters + 2) * 4);
    SmallWord((clusters + 2) * 4 + 511);
    hide Clusters, U32;
  }

  lemma SmallWord(x: nat)
    requires x < TWO32
    ensures U32(x) == x
  {
  }

  lemma SuitsLess(data: nat, less: nat, n: nat)
    requires Suits(data, n) && less <= data && n > 0
    ensures Suits(less, n) && Clusters(less, n) <= Clusters(data, n)
  {
  }

  /** Nothing wraps: the second estimate is at most the first, both copies fit, and so does the cluster count. */
  lemma SizesAre(data: nat, n: nat, c: Fat32Config)
    requires Suits(data, n) && n > 0 && data >= 2 && c.totalSectors == data + 32 && c.sectorsPerCluster == n
    ensures var first := Needed(Clusters(data, n));
      && 2 * first <= data
      && var size := Needed(Clusters(data - 2 * first, n));
         && size <= first && CalculateSectorsPerFat(c) == size && ClusterCount(c) == Clusters(data - 2 * size, n)
  {
    hide *;
    EstimateFits(data, n);
    var first := Needed(Clusters(data, n));
    var left := data - 2 * first;
    SuitsLess(data, left, n);
    EstimateFits(left, n);
    var size := Needed(Clusters(left, n));
    NeededLe(Clusters(left, n), Clusters(data, n));
    SuitsSmall(data, n);
    SmallWord(data);
    SmallWord(2 * first);
    SmallWord(left);
    SmallWord(2 * size);
    SmallWord(data - 2 * size);
    SizesDef(c, data, n, first, left);
    CountDef(c, data, n, size);
  }

  lemma NeededLe(a: nat, b: nat)
    requires a <= b
    ensures Needed(a) <= Needed(b)
  {
  }

  lemma SizesDef(c: Fat32Config, data: nat, n: nat, first: nat, left: nat)
    requires n > 0 && c.totalSectors == data + 32 && c.sectorsPerCluster == n && U32(data) == data
    requires TableSectors(data, n) == first && U32(2 * first) == 2 * first && U32(data - 2 * first) == left
    ensures CalculateSectorsPerFat(c) == TableSectors(left, n)
  {
    hide TableSectors, U32;
  }

  lemma CountDef(c: Fat32Config, data: nat, n: nat, size: nat)
    requires n > 0 && c.totalSectors == data + 32 && c.sectorsPerCluster == n && U32(data) == data
    requires CalculateSectorsPerFat(c) == size && U32(2 * size) == 2 * size && size * 2 <= data
    requires U32(data - 2 * size) == data - 2 * size
    ensures ClusterCount(c) == Clusters(data - 2 * size, n)
  {
    hide CalculateSectorsPerFat, U32, Clusters;
  }

  lemma SuitsSmall(data: nat, n: nat)
    requires Suits(data, n)
    ensures data < TWO32
  {
  }

  /**
   * The two-pass estimate: the second pass never exceeds the first, and the table misses at most one sector of
   * entries for the clusters the volume really has. Nothing overflows 32 bits.
   */
  lemma SizingBound(sectors: nat)
    requires 34 <= sectors < TWO32
    ensures var c := CalculateFat32Config(sectors);
      var size := CalculateSectorsPerFat(c);
      && size <= Needed(Clusters(sectors - 32, c.sectorsPerCluster))
      && 32 + 2 * size <= sectors
      && ClusterCount(c) == Clusters(sectors - 32 - 2 * size, c.sectorsPerCluster)
      && ClusterCount(c) + 2 <= 128 * (size + 1)
      && size < 0x20_0000
  {
    var data := sectors - 32;
    hide *;
    var c := CalculateFat32Config(sectors);
    ConfigSuits(sectors);
    SizesAre(data, c.sectorsPerCluster, c);
    EstimateFits(data, c.sectorsPerCluster);
    SizeGap(data, c.sectorsPerCluster);
  }

  lemma SizeGap(data: nat, n: nat)
    requires Suits(data, n) && n > 0 && data >= 2
    ensures var first := Needed(Clusters(data, n));
      && 2 * first <= data
      && var size := Needed(Clusters(data - 2 * first, n));
         2 * size <= data && Clusters(data - 2 * size, n) + 2 <= 128 * (size + 1)
  {
    match n
    case 1 => SizeGap1(data);
    case 2 => SizeGap2(data);
    case 8 => SizeGap8(data);
    case 16 => SizeGap16(data);
    case _ => SizeGap32(data);
  }

  lemma SizeGap1(data: nat)
    requires 2 <= data < 66600
    ensures var first := Needed(data);
      data >= 2 * first && var size := Needed(data - 2 * first); data - 2 * size + 2 <= 128 * (size + 1)
  {
  }

  lemma SizeGap2(data: nat)
    requires 2 <= data < 532480
    ensures var first := Needed(data / 2);
      data >= 2 * first && var size := Needed((data - 2 * first) / 2);
      size <= first && (data - 2 * size) / 2 + 2 <= 128 * (size + 1)
  {
  }

  lemma SizeGap8(data: nat)
    requires 2 <= data < 16777216
    ensures var first := Needed(data / 8);
      data >= 2 * first && var size := Needed((data - 2 * first) / 8);
      size <= first && (data - 2 * size) / 8 + 2 <= 128 * (size + 1)
  {
  }

  lemma SizeGap16(data: nat)
    requires 2 <= data < 33554432
    ensures var first := Needed(data / 16);
      data >= 2 * first && var size := Needed((data - 2 * first) / 16);
      size <= first && (data - 2 * size) / 16 + 2 <= 128 * (size + 1)
  {
  }

  lemma SizeGap32(data: nat)
    requires 2 <= data < TWO32
    ensures var first := Needed(data / 32);
      data >= 2 * first && var size := Needed((data - 2 * first) / 32);
      size <= first && (data - 2 * size) / 32 + 2 <= 128 * (size + 1)
  {
  }

  /** The table can be too small for the clusters of the volume, so that the bound has to allow one more sector. */
  lemma TableCanMissEntries()
    ensures var c := CalculateFat32Config(66599);
      && CalculateSectorsPerFat(c) == 512 && ClusterCount(c) == 65543
      && ClusterCount(c) + 2 > 128 * CalculateSectorsPerFat(c)
  {
    SizesAre(66567, 1, CalculateFat32Config(66599));
  }

  /** Exactly these partition sizes give a volume with enough clusters to be FAT32. */
  lemma Fat32Sizes(sectors: nat)
    requires 34 <= sectors < TWO32
    ensures KindOf(ClusterCount(CalculateFat32Config(sectors))).FAT32?
            <==> 66581 <= sectors <= 66599 || 132106 <= sectors
  {
    var data := sectors - 32;
    hide *;
    var c := CalculateFat32Config(sectors);
    ConfigSuits(sectors);
    SizesAre(data, c.sectorsPerCluster, c);
    EnoughFor(sectors, c.sectorsPerCluster);
    KindIs(ClusterCount(c));
  }

  lemma KindIs(count: nat)
    ensures KindOf(count).FAT32? <==> count >= 65525
  {
  }

  lemma EnoughFor(sectors: nat, n: nat)
    requires 34 <= sectors < TWO32 && n == CalculateFat32Config(sectors).sectorsPerCluster
    ensures var data := sectors - 32;
      var first := Needed(Clusters(data, n));
      && data >= 2 * first
      && var size := Needed(Clusters(data - 2 * first, n));
         && data >= 2 * size
         && (Clusters(data - 2 * size, n) >= 65525 <==> 66581 <= sectors <= 66599 || 132106 <= sectors)
  {
    match n
    case 1 => Enough1(sectors - 32);
    case 2 => Enough2(sectors - 32);
    case _ => EnoughLarge(sectors - 32, n);
  }

  lemma Enough1(data: nat)
    requires 2 <= data < 66600 - 32
    ensures var first := Needed(data);
      && data >= 2 * first
      && var size := Needed(data - 2 * first); size <= first && (data - 2 * size >= 65525 <==> data >= 66549)
  {
  }

  lemma Enough2(data: nat)
    requires 66600 - 32 <= data < 532480 - 32
    ensures var first := Needed(data / 2);
      && data >= 2 * first
      && var size := Needed((data - 2 * first) / 2);
         size <= first && ((data - 2 * size) / 2 >= 65525 <==> data >= 132074)
  {
  }

  lemma EnoughLarge(data: nat, n: nat)
    requires n in {8, 16, 32} && 532480 - 32 <= data < TWO32
    requires n == 16 ==> data >= 16777216 - 32
    requires n == 32 ==> data >= 33554432 - 32
    ensures var first := Needed(Clusters(data, n));
      && data >= 2 * first
      && var size := Needed(Clusters(data - 2 * first, n)); size <= first && Clusters(data - 2 * size, n) >= 65525
  {
    match n
    case 8 =>
    case 16 =>
    case _ =>
  }

  // ----- the boot sector -----

  /** Bytes 11 to 24 of the boot sector: the fields up to the 16-bit table size, which FAT32 leaves zero. */
  function BootFields(c: Fat32Config): (r: seq<byte>)
    ensures |r| == 13
  {
    Put16(512) + [c.sectorsPerCluster % 0x100] + Put16(32) + [2] + Put16(0) + Put16(0) + [0xF8] + Put16(0)
  }

  /** Bytes 24 to 40. */
  function BootSizes(c: Fat32Config, hidden: nat): (r: seq<byte>)
    requires c.sectorsPerCluster > 0
    ensures |r| == 16
  {
    Put16(63) + Put16(255) + Put32(hidden) + Put32(c.totalSectors) + Put32(CalculateSectorsPerFat(c))
  }

  /** Bytes 40 to 64. */
  function BootPlaces(): (r: seq<byte>)
    ensures |r| == 24
  {
    Put16(0) + Put16(0) + Put32(2) + Put16(1) + Put16(6) + Zeroes(12)
  }

  function Label(c: Fat32Config): (r: seq<byte>)
    ensures |r| == 11
  {
    if |c.volumeLabel| >= 11 then c.volumeLabel[..11] else c.volumeLabel + seq(11 - |c.volumeLabel|, _ => 0x20)
  }

  /** The boot sector; `hidden` is the number of the sector it is written to. */
  function BootBytes(c: Fat32Config, hidden: nat): (r: seq<byte>)
    requires c.sectorsPerCluster > 0
    ensures |r| == 512
  {
    [0xEB, 0x58, 0x90, 0x6D, 0x6B, 0x66, 0x73, 0x2E, 0x66, 0x61, 0x74]
    + BootFields(c) + BootSizes(c, hidden) + BootPlaces()
    + [0x80, 0, 0x29] + Put32(c.volumeId) + Label(c) + [0x46, 0x41, 0x54, 0x33, 0x32, 0x20, 0x20, 0x20]
    + Zeroes(420) + [0x55, 0xAA]
  }

  lemma BootParts(c: Fat32Config, hidden: nat)
    requires c.sectorsPerCluster > 0
    ensures var b := BootBytes(c, hidden);
      && b[11..24] == BootFields(c) && b[24..40] == BootSizes(c, hidden) && b[40..64] == BootPlaces()
      && b[510] == 0x55 && b[511] == 0xAA
  {
    hide BootFields, BootSizes, BootPlaces, Put32, Label;
  }

  /** A field of a part is a field of the whole. */
  lemma FieldIn(s: seq<byte>, lo: nat, hi: nat, part: seq<byte>, off: nat)
    requires lo <= hi <= |s| && s[lo..hi] == part
    ensures off < |part| ==> s[lo + off] == part[off]
    ensures off + 2 <= |part| ==> Le16(s, lo + off) == Le16(part, off)
    ensures off + 4 <= |part| ==> Le32(s, lo + off) == Le32(part, off)
  {
  }

  /** A 16-bit or 32-bit field that was put at `off`. */
  lemma PutAt(s: seq<byte>, off: nat, v: nat)
    ensures off + 2 <= |s| && s[off..off + 2] == Put16(v) ==> Le16(s, off) == v % TWO16
    ensures off + 4 <= |s| && s[off..off + 4] == Put32(v) ==> Le32(s, off) == v % TWO32
  {
    FieldRoundTrip(v);
    if off + 2 <= |s| && s[off..off + 2] == Put16(v) {
      assert Le16(s, off) == Le16(s[off..off + 2], 0);
    }
    if off + 4 <= |s| && s[off..off + 4] == Put32(v) {
      assert Le32(s, off) == Le32(s[off..off + 4], 0);
    }
    hide Put16, Put32;
  }

  lemma BootFieldsRead(c: Fat32Config)
    requires 0 < c.sectorsPerCluster < 0x100
    ensures var f := BootFields(c);
      && Le16(f, 0) == 512 && f[2] == c.sectorsPerCluster && Le16(f, 3) == 32 && f[5] == 2
      && Le16(f, 6) == 0 && Le16(f, 8) == 0 && Le16(f, 11) == 0
  {
  }

  lemma BootSizesRead(c: Fat32Config, hidden: nat)
    requires c.sectorsPerCluster > 0 && c.totalSectors < TWO32 && CalculateSectorsPerFat(c) < TWO32
    ensures var f := BootSizes(c, hidden); Le32(f, 8) == c.totalSectors && Le32(f, 12) == CalculateSectorsPerFat(c)
  {
    hide *;
    var f := BootSizes(c, hidden);
    BootSizesParts(c, hidden);
    PutAt(f, 8, c.totalSectors);
    PutAt(f, 12, CalculateSectorsPerFat(c));
    SmallRemainder(c.totalSectors);
    SmallRemainder(CalculateSectorsPerFat(c));
  }

  lemma BootSizesParts(c: Fat32Config, hidden: nat)
    requires c.sectorsPerCluster > 0
    ensures var f := BootSizes(c, hidden);
            f[8..12] == Put32(c.totalSectors) && f[12..16] == Put32(CalculateSectorsPerFat(c))
  {
    hide CalculateSectorsPerFat, Put32, Put16;
  }

  lemma SmallRemainder(x: nat)
    requires x < TWO32
    ensures x % TWO32 == x
  {
  }

  lemma BootPlacesRead()
    ensures Le32(BootPlaces(), 4) == 2 && Le16(BootPlaces(), 8) == 1
  {
  }

  /** What the boot sector says. */
  function BpbOf(c: Fat32Config): Bpb
    requires c.sectorsPerCluster > 0
  {
    Bpb(512, c.sectorsPerCluster, 32, 2, 0, c.totalSectors, 0, CalculateSectorsPerFat(c), 2, 1)
  }

  lemma BootRead(c: Fat32Config, hidden: nat)
    requires 0 < c.sectorsPerCluster < 0x100 && c.totalSectors < TWO32 && CalculateSectorsPerFat(c) < TWO32
    ensures Fields(BootBytes(c, hidden)) == BpbOf(c)
  {
    var b := BootBytes(c, hidden);
    BootParts(c, hidden);
    BootFieldsRead(c);
    BootSizesRead(c, hidden);
    BootPlacesRead();
    hide BootBytes, BootFields, BootSizes, BootPlaces, Le16, Le32, CalculateSectorsPerFat;
    FieldIn(b, 11, 24, BootFields(c), 0);
    FieldIn(b, 11, 24, BootFields(c), 2);
    FieldIn(b, 11, 24, BootFields(c), 3);
    FieldIn(b, 11, 24, BootFields(c), 5);
    FieldIn(b, 11, 24, BootFields(c), 6);
    FieldIn(b, 11, 24, BootFields(c), 8);
    FieldIn(b, 11, 24, BootFields(c), 11);
    FieldIn(b, 24, 40, BootSizes(c, hidden), 8);
    FieldIn(b, 24, 40, BootSizes(c, hidden), 12);
    FieldIn(b, 40, 64, BootPlaces(), 4);
    FieldIn(b, 40, 64, BootPlaces(), 8);
  }

  /** The geometry of a formatted volume. */
  function GeometryFor(c: Fat32Config): Geometry
    requires c.sectorsPerCluster > 0
  {
    var size := CalculateSectorsPerFat(c);
    var behind := 16384 + 1024 * size;
    Geometry(FAT32, 512, size, [16384, 16384 + 512 * size], 512 * c.sectorsPerCluster, behind, ClusterCount(c),
             behind, behind, 2, 1)
  }

  /**
   * Format, then mount: the boot sector is read back as a FAT32 volume with the tables, clusters and places that the
   * formatter used, exactly when the partition has enough clusters for FAT32.
   */
  lemma FormatThenParse(sectors: nat, hidden: nat)
    requires 34 <= sectors < TWO32
    ensures var c := CalculateFat32Config(sectors);
      && Parse(BootBytes(c, hidden)).Mounted?
      && (Parse(BootBytes(c, hidden)) == Mounted(GeometryFor(c)) <==> 66581 <= sectors <= 66599 || 132106 <= sectors)
  {
    var c := CalculateFat32Config(sectors);
    SizingBound(sectors);
    Fat32Sizes(sectors);
    BootRead(c, hidden);
    BootParts(c, hidden);
    hide BootBytes, BootFields, BootSizes, BootPlaces, CalculateSectorsPerFat, Fields, ClusterCount, KindOf, GeometryOf;
    GeometryIs(sectors, c);
  }

  lemma GeometryIs(sectors: nat, c: Fat32Config)
    requires 34 <= sectors < TWO32 && c == CalculateFat32Config(sectors)
    ensures GeometryOf(BpbOf(c)).kind == KindOf(ClusterCount(c))
    ensures KindOf(ClusterCount(c)).FAT32? ==> GeometryOf(BpbOf(c)) == GeometryFor(c)
  {
    hide *;
    SizingBound(sectors);
    var size := CalculateSectorsPerFat(c);
    ConfigRange(sectors);
    BpbIs(c);
    IsStandard(BpbOf(c));
    StandardCount(BpbOf(c));
    StandardGeometry(BpbOf(c));
    GeometryForIs(c);
  }

  lemma ConfigRange(sectors: nat)
    ensures CalculateFat32Config(sectors).totalSectors == sectors
    ensures 0 < CalculateFat32Config(sectors).sectorsPerCluster <= 32
  {
  }

  lemma BpbIs(c: Fat32Config)
    requires c.sectorsPerCluster > 0
    ensures BpbOf(c) == Bpb(512, c.sectorsPerCluster, 32, 2, 0, c.totalSectors, 0, CalculateSectorsPerFat(c), 2, 1)
  {
    hide CalculateSectorsPerFat;
  }

  lemma GeometryForIs(c: Fat32Config)
    requires c.sectorsPerCluster > 0
    ensures var size := CalculateSectorsPerFat(c);
      var behind := 16384 + 1024 * size;
      GeometryFor(c) == Geometry(FAT32, 512, size, [16384, 16384 + 512 * size], 512 * c.sectorsPerCluster, behind,
                                 ClusterCount(c), behind, behind, 2, 1)
  {
    hide CalculateSectorsPerFat, ClusterCount;
  }

  /** A boot sector with 32 reserved sectors, two copies and no fixed root directory. */
  predicate Standard(p: Bpb) {
    && p.bytesPerSector == 512 && p.reserved == 32 && p.numFats == 2 && p.rootEntries == 0 && p.fatSize16 == 0
    && 0 < p.sectorsPerCluster <= 32 && p.fatSize < 0x20_0000 && 32 + 2 * p.fatSize <= p.totalSectors < TWO32
    && p.rootCluster == 2 && p.fsInfo == 1
  }

  lemma IsStandard(p: Bpb)
    requires p.bytesPerSector == 512 && p.reserved == 32 && p.numFats == 2 && p.rootEntries == 0 && p.fatSize16 == 0
    requires 0 < p.sectorsPerCluster <= 32 && p.fatSize < 0x20_0000 && 32 + 2 * p.fatSize <= p.totalSectors < TWO32
    requires p.rootCluster == 2 && p.fsInfo == 1
    ensures Standard(p)
  {
  }

  lemma StandardCount(p: Bpb)
    requires Standard(p)
    ensures CountOfClusters(p) == Clusters(p.totalSectors - 32 - 2 * p.fatSize, p.sectorsPerCluster)
  {
    assert RootSectors(p) == 0;
    SmallWord(p.totalSectors - 32 - 2 * p.fatSize);
    hide U32;
  }

  lemma StandardGeometry(p: Bpb)
    requires Standard(p)
    ensures var count := CountOfClusters(p);
      var behind := 16384 + 1024 * p.fatSize;
      && GeometryOf(p).kind == KindOf(count)
      && (KindOf(count).FAT32? ==>
            GeometryOf(p) == Geometry(FAT32, 512, p.fatSize, [16384, 16384 + 512 * p.fatSize],
                                      512 * p.sectorsPerCluster, behind, count, behind, behind, 2, 1))
  {
    SmallWord(16384);
    SmallWord(16384 + 512 * p.fatSize);
    SmallWord(16384 + 1024 * p.fatSize);
    hide U32, CountOfClusters, KindOf, RootSectors;
  }
}
