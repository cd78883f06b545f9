/** The volume a formatted partition holds: well formed and without files. */
module FormattedVolumes {
  import opened Arith
  import opened Bytes
  import opened FatCodec
  import opened Volumes
  import opened FatTables
  import opened Chains
  import opened FsInfos
  import opened Layouts
  import opened BootSectors
  import opened Formatting

  /** The sector with the free-cluster count: one cluster is the root directory. */
  function FsInfoBytes(c: Fat32Config): (r: seq<byte>)
    requires c.sectorsPerCluster > 0
    ensures |r| == 512
  {
    [0x52, 0x52, 0x61, 0x41] + Zeroes(480) + [0x72, 0x72, 0x41, 0x61] + Put32(U32(ClusterCount(c) - 1)) + Put32(3)
    + Zeroes(12) + [0, 0, 0x55, 0xAA]
  }

  /** A table with two special entries and the root directory. */
  function TableBytes(sectors: nat): (r: seq<byte>)
    requires sectors > 0
    ensures |r| == 512 * sectors
  {
    Put32(0xFFF_FFF8) + Put32(0xFFF_FFFF) + Put32(0xFFF_FFFF) + Zeroes(512 * sectors - 12)
  }

  /** Everything the formatter writes fits into `len` bytes. */
  predicate Fits(c: Fat32Config, len: nat) {
    && 0 < c.sectorsPerCluster && 0 < CalculateSectorsPerFat(c)
    && 16384 + 1024 * CalculateSectorsPerFat(c) + 512 * c.sectorsPerCluster <= len
  }

  /** The partition after formatting; `start` is its first sector. */
  function Formatted(s: seq<byte>, c: Fat32Config, start: nat): (r: seq<byte>)
    requires Fits(c, |s|)
    ensures |r| == |s|
  {
    var size := CalculateSectorsPerFat(c);
    var s1 := Splice(s, 0, BootBytes(c, U32(start)));
    var s2 := Splice(s1, 512, FsInfoBytes(c));
    var s3 := Splice(s2, 3072, BootBytes(c, U32(start + 6)));
    var s4 := Splice(s3, 16384, TableBytes(size));
    var s5 := Splice(s4, 16384 + 512 * size, TableBytes(size));
    Splice(s5, 16384 + 1024 * size, Zeroes(512 * c.sectorsPerCluster))
  }

  /** The steps of formatting, one write after the other. */
  lemma FormattedSteps(s: seq<byte>, c: Fat32Config, start: nat)
    requires Fits(c, |s|)
    ensures 0 < c.sectorsPerCluster && 0 < CalculateSectorsPerFat(c)
    ensures 16384 + 1024 * CalculateSectorsPerFat(c) + 512 * c.sectorsPerCluster <= |s|
    ensures var size := CalculateSectorsPerFat(c);
      var s1 := Splice(s, 0, BootBytes(c, U32(start)));
      var s2 := Splice(s1, 512, FsInfoBytes(c));
      var s3 := Splice(s2, 3072, BootBytes(c, U32(start + 6)));
      var s4 := Splice(s3, 16384, TableBytes(size));
      var s5 := Splice(s4, 16384 + 512 * size, TableBytes(size));
      Formatted(s, c, start) == Splice(s5, 16384 + 1024 * size, Zeroes(512 * c.sectorsPerCluster))
  {
    hide BootBytes, FsInfoBytes, CalculateSectorsPerFat, TableBytes, Splice, Zeroes, U32;
  }

  lemma FormattedRegions(s: seq<byte>, c: Fat32Config, start: nat)
    requires Fits(c, |s|)
    ensures var r, size := Formatted(s, c, start), CalculateSectorsPerFat(c);
      && r[0..512] == BootBytes(c, U32(start)) && r[512..1024] == FsInfoBytes(c)
      && r[16384..16384 + 512 * size] == TableBytes(size)
      && r[16384 + 512 * size..16384 + 512 * size + 512 * size] == TableBytes(size)
      && r[16384 + 1024 * size..16384 + 1024 * size + 512 * c.sectorsPerCluster] == Zeroes(512 * c.sectorsPerCluster)
  {
    hide *;
    FormattedSteps(s, c, start);
    var size, room := CalculateSectorsPerFat(c), 512 * c.sectorsPerCluster;
    var boot, info, boot', table, zeroes :=
      BootBytes(c, U32(start)), FsInfoBytes(c), BootBytes(c, U32(start + 6)), TableBytes(size), Zeroes(room);
    var s1 := Splice(s, 0, boot);
    var s2 := Splice(s1, 512, info);
    var s3 := Splice(s2, 3072, boot');
    var s4 := Splice(s3, 16384, table);
    var s5 := Splice(s4, 16384 + 512 * size, table);
    var r := Splice(s5, 16384 + 1024 * size, zeroes);
    SpliceWritten(s, 0, boot);
    Later(s1, s2, s3, s4, s5, r, info, boot', table, zeroes, size, 0, 512);
    SpliceWritten(s1, 512, info);
    Survives(s2, 3072, boot', 512, 1024);
    Survives(s3, 16384, table, 512, 1024);
    Survives(s4, 16384 + 512 * size, table, 512, 1024);
    Survives(s5, 16384 + 1024 * size, zeroes, 512, 1024);
    SpliceWritten(s3, 16384, table);
    Survives(s4, 16384 + 512 * size, table, 16384, 16384 + 512 * size);
    Survives(s5, 16384 + 1024 * size, zeroes, 16384, 16384 + 512 * size);
    SpliceWritten(s4, 16384 + 512 * size, table);
    Survives(s5, 16384 + 1024 * size, zeroes, 16384 + 512 * size, 16384 + 1024 * size);
    SpliceWritten(s5, 16384 + 1024 * size, zeroes);
  }

  lemma Survives(s: seq<byte>, off: nat, d: seq<byte>, lo: nat, hi: nat)
    requires off + |d| <= |s| && lo <= hi <= |s| && (hi <= off || off + |d| <= lo)
    ensures Splice(s, off, d)[lo..hi] == s[lo..hi]
  {
    SpliceApart(s, off, d, lo, hi);
  }

  lemma Later(s1: seq<byte>, s2: seq<byte>, s3: seq<byte>, s4: seq<byte>, s5: seq<byte>, r: seq<byte>, info: seq<byte>,
              boot': seq<byte>, table: seq<byte>, zeroes: seq<byte>, size: nat, lo: nat, hi: nat)
    requires |info| == |boot'| == 512 && |table| == 512 * size && 16384 + 1024 * size + |zeroes| <= |s1|
    requires s2 == Splice(s1, 512, info) && s3 == Splice(s2, 3072, boot') && s4 == Splice(s3, 16384, table)
    requires s5 == Splice(s4, 16384 + 512 * size, table) && r == Splice(s5, 16384 + 1024 * size, zeroes)
    requires lo <= hi <= 512
    ensures r[lo..hi] == s1[lo..hi]
  {
    hide *;
    Survives(s1, 512, info, lo, hi);
    Survives(s2, 3072, boot', lo, hi);
    Survives(s3, 16384, table, lo, hi);
    Survives(s4, 16384 + 512 * size, table, lo, hi);
    Survives(s5, 16384 + 1024 * size, zeroes, lo, hi);
  }

  // ----- the volume -----

  /** A partition size that gives a FAT32 volume. */
  predicate Fat32Size(sectors: nat) {
    (66581 <= sectors <= 66599 || 132106 <= sectors) && sectors < TWO32
  }

  /** The partition holds everything that is written, and each of its clusters has an entry up to the last sector's. */
  lemma FormattedFits(sectors: nat)
    requires Fat32Size(sectors)
    ensures var c := CalculateFat32Config(sectors);
      && 0 < c.sectorsPerCluster <= 32 && Fits(c, 512 * sectors)
      && 65525 <= ClusterCount(c) < 0x4000_0000 && 511 <= CalculateSectorsPerFat(c) < 0x20_0000
      && 32 + 2 * CalculateSectorsPerFat(c) + ClusterCount(c) * c.sectorsPerCluster <= sectors
      && ClusterCount(c) + 2 <= 128 * (CalculateSectorsPerFat(c) + 1)
  {
    hide *;
    Fat32SizeIs(sectors);
    var c := CalculateFat32Config(sectors);
    ConfigRange(sectors);
    SizingBound(sectors);
    Fat32Sizes(sectors);
    KindIs(ClusterCount(c));
    ClustersFit(sectors - 32 - 2 * CalculateSectorsPerFat(c), c.sectorsPerCluster, ClusterCount(c));
    FitsIs(c, 512 * sectors);
  }

  /** Seen through any window of less than four gigabytes that holds what was written. */
  lemma FormattedSane(sectors: nat, len: nat)
    requires Fat32Size(sectors) && Fits(CalculateFat32Config(sectors), len) && len < TWO32
    ensures var c := CalculateFat32Config(sectors); 0 < c.sectorsPerCluster && Sane(GeometryFor(c), len)
  {
    hide *;
    Fat32SizeIs(sectors);
    var c := CalculateFat32Config(sectors);
    ConfigRange(sectors);
    FormattedFits(sectors);
    GeometryForIs(c);
    FitsIs(c, len);
    StandardSane(GeometryFor(c), len);
  }

  lemma Fat32SizeIs(sectors: nat)
    requires Fat32Size(sectors)
    ensures 34 <= sectors < TWO32 && (66581 <= sectors <= 66599 || 132106 <= sectors)
  {
  }

  lemma ClustersFit(data: nat, n: nat, clusters: nat)
    requires n > 0 && clusters == Clusters(data, n) && clusters >= 65525
    ensures clusters * n <= data && n <= data
  {
    DivMulLe(data, n);
    MulLe(1, clusters, n);
  }

  lemma FitsIs(c: Fat32Config, len: nat)
    requires 0 < c.sectorsPerCluster
    ensures Fits(c, len) <==>
      0 < CalculateSectorsPerFat(c) && 16384 + 1024 * CalculateSectorsPerFat(c) + 512 * c.sectorsPerCluster <= len
  {
    hide CalculateSectorsPerFat;
  }

  lemma StandardSane(g: Geometry, len: nat)
    requires g.kind.FAT32? && g.bytesPerSector == 512 && g.bytesPerCluster > 0 && g.bytesPerCluster % 512 == 0
    requires g.fatStarts == [16384, 16384 + 512 * g.fatSize]
    requires g.clusterOffset == 16384 + 1024 * g.fatSize <= len < TWO32
    requires g.rootStart == g.rootEnd == g.clusterOffset && g.fsInfoSector == 1
    ensures Sane(g, len)
  {
    var room := 512 * g.fatSize;
    assert FatBytes(g) == room;
    WholeClusters(g.bytesPerCluster);
    hide FatBytes, Entries;
  }

  lemma WholeClusters(n: nat)
    requires n % 512 == 0
    ensures n % 32 == 0
  {
    var k := n / 512;
    assert n == 512 * k;
    DivModUnique(16 * k, 0, 32);
  }

  /** The entries of a formatted table. */
  function FreshEntry(e: nat): nat {
    if e == 0 then 0xFFF_FFF8 else if e <= 2 then 0xFFF_FFFF else 0
  }

  lemma FreshIs()
    ensures FreshEntry(0) == 0xFFF_FFF8 && FreshEntry(1) == FreshEntry(2) == 0xFFF_FFFF
    ensures forall e | e >= 3 :: FreshEntry(e) == 0
  {
  }

  lemma TableGet(size: nat, e: nat)
    requires size > 0 && e < 128 * size
    ensures Get(FAT32, TableBytes(size), e) == FreshEntry(e)
  {
    var t := TableBytes(size);
    TableSlices(size, e);
    hide TableBytes, Put32, Le32;
    FieldRoundTrip(0);
    FieldRoundTrip(0xFFF_FFF8);
    FieldRoundTrip(0xFFF_FFFF);
    assert Get(FAT32, t, e) == Decode(FAT32, e, t[4 * e..4 * e + 4]);
  }

  lemma TableSlices(size: nat, e: nat)
    requires size > 0 && e < 128 * size
    ensures TableBytes(size)[4 * e..4 * e + 4] == Put32(FreshEntry(e))
  {
    var t := TableBytes(size);
    if e >= 3 {
      assert Put32(0) == [0, 0, 0, 0];
      assert t[4 * e..4 * e + 4] == [0, 0, 0, 0];
    } else {
      hide Put32;
    }
  }

  lemma FormattedTables(sectors: nat, s: seq<byte>, start: nat, m: nat, e: nat)
    requires Fat32Size(sectors) && m < 2
    requires Fits(CalculateFat32Config(sectors), |s|) && Sane(GeometryFor(CalculateFat32Config(sectors)), |s|)
    requires e < 128 * CalculateSectorsPerFat(CalculateFat32Config(sectors))
    ensures var c := CalculateFat32Config(sectors);
      var v := Abs(GeometryFor(c), Formatted(s, c, start));
      && |v.fats| == 2 && |v.fats[m]| == 128 * CalculateSectorsPerFat(c) && v.fats[m][e] == FreshEntry(e)
  {
    hide *;
    var c := CalculateFat32Config(sectors);
    var g, r, size := GeometryFor(c), Formatted(s, c, start), CalculateSectorsPerFat(c);
    GeometryForIs(c);
    FormattedRegions(s, c, start);
    EntriesAre(g, r, size);
    FatEntry(g, r, m, e);
    TableGet(size, e);
  }

  lemma EntriesAre(g: Geometry, r: seq<byte>, size: nat)
    requires Sane(g, |r|) && g.kind.FAT32? && g.bytesPerSector == 512 && g.fatSize == size && |g.fatStarts| == 2
    ensures Entries(g) == 128 * size && FatBytes(g) == 512 * size && |Abs(g, r).fats| == 2
    ensures |Abs(g, r).fats[0]| == |Abs(g, r).fats[1]| == 128 * size
  {
  }

  /** The root directory and the sector with the free count. */
  lemma FormattedParts(sectors: nat, s: seq<byte>, start: nat)
    requires Fat32Size(sectors)
    requires Fits(CalculateFat32Config(sectors), |s|) && Sane(GeometryFor(CalculateFat32Config(sectors)), |s|)
    ensures var c := CalculateFat32Config(sectors);
      var g := GeometryFor(c);
      var v := Abs(g, Formatted(s, c, start));
      && |v.data| > 2 && v.data[2] == Zeroes(g.bytesPerCluster)
      && InfoFits(g, v) && g.fsInfoSector != 0 && InfoOf(g, v) == FsInfoBytes(c)
      && |v.head| >= 512 && v.head[..512] == BootBytes(c, U32(start))
  {
    hide *;
    var c := CalculateFat32Config(sectors);
    var g, r := GeometryFor(c), Formatted(s, c, start);
    GeometryForIs(c);
    FormattedRegions(s, c, start);
    FitsInside(g, |r|, 2) by {
      ClusterTwo(g);
      FitsIs(c, |r|);
    }
    ClusterTwo(g);
    PartsOf(g, r);
  }

  lemma ClusterTwo(g: Geometry)
    ensures ClusterPos(g, 2) == g.clusterOffset
  {
  }

  lemma PartsOf(g: Geometry, r: seq<byte>)
    requires Sane(g, |r|) && g.kind.FAT32? && g.bytesPerSector == 512 && g.fsInfoSector == 1
    requires g.fatStarts[0] == 16384 && 2 < ClusterLimit(g, |r|)
    ensures var v := Abs(g, r);
      && |v.data| > 2 && g.clusterOffset + g.bytesPerCluster <= |r|
      && v.data[2] == r[g.clusterOffset..g.clusterOffset + g.bytesPerCluster]
      && InfoFits(g, v) && InfoOf(g, v) == r[512..1024] && |v.head| >= 512 && v.head[..512] == r[0..512]
  {
    ClusterInside(g, |r|, 2);
    ClusterTwo(g);
    assert r[..16384][512..1024] == r[512..1024] && r[..16384][..512] == r[0..512];
  }

  /** No file, and a root directory of one cluster. */
  const EMPTY := Layout([2], [], map[], map[])

  /**
   * A formatted partition, seen through any such window, is a well-formed volume without files as long as the surplus
   * entries at the end of its table can be allocated: the 32-bit offsets of their clusters do not wrap exactly for
   * these sizes, a few sectors more than four gigabytes.
   */
  lemma FormattedWellFormed(sectors: nat, s: seq<byte>, start: nat)
    requires Fat32Size(sectors) && Fits(CalculateFat32Config(sectors), |s|) && |s| < TWO32
    ensures var c := CalculateFat32Config(sectors);
      && Sane(GeometryFor(c), |s|)
      && (WellFormed(GeometryFor(c), Abs(GeometryFor(c), Formatted(s, c, start)), EMPTY) <==> sectors < 8388634)
  {
    hide *;
    var c := CalculateFat32Config(sectors);
    ConfigRange(sectors);
    FormattedFits(sectors);
    FormattedSane(sectors, |s|);
    var g, r, size := GeometryFor(c), Formatted(s, c, start), CalculateSectorsPerFat(c);
    var v := Abs(g, r);
    FormattedParts(sectors, s, start);
    FormattedEntries(sectors, s, start);
    GeometryForIs(c);
    TailAddressable(sectors);
    FreshFree(g, v.fats[0], size);
    AbsShaped(g, r);
    FreshVolume(g, v, size);
  }

  /** Both tables, for every size. */
  lemma FormattedEntries(sectors: nat, s: seq<byte>, start: nat)
    requires Fat32Size(sectors) && Fits(CalculateFat32Config(sectors), |s|)
    requires Sane(GeometryFor(CalculateFat32Config(sectors)), |s|)
    ensures var c := CalculateFat32Config(sectors);
      var v, n := Abs(GeometryFor(c), Formatted(s, c, start)), 128 * CalculateSectorsPerFat(c);
      && |v.fats| == 2 && |v.fats[0]| == |v.fats[1]| == n && n >= 3
      && (forall e | 0 <= e < n :: v.fats[0][e] == FreshEntry(e) && v.fats[1][e] == FreshEntry(e))
      && v.fats[0][..3] == [0xFFF_FFF8, 0xFFF_FFFF, 0xFFF_FFFF] && forall e | 3 <= e < n :: v.fats[0][e] == 0
  {
    FreshIs();
    hide *;
    var c := CalculateFat32Config(sectors);
    FormattedFits(sectors);
    var v, n := Abs(GeometryFor(c), Formatted(s, c, start)), 128 * CalculateSectorsPerFat(c);
    FormattedTables(sectors, s, start, 0, 0);
    FormattedTables(sectors, s, start, 1, 0);
    forall e | 0 <= e < n ensures v.fats[0][e] == FreshEntry(e) && v.fats[1][e] == FreshEntry(e) {
      FormattedTables(sectors, s, start, 0, e);
      FormattedTables(sectors, s, start, 1, e);
    }
  }

  /** The last number of the table can be allocated exactly for these sizes. */
  lemma TailAddressable(sectors: nat)
    requires Fat32Size(sectors)
    ensures var c := CalculateFat32Config(sectors);
      && CalculateSectorsPerFat(c) > 0
      && (Addressable(GeometryFor(c), 128 * CalculateSectorsPerFat(c) - 1) <==> sectors < 8388634)
  {
    hide *;
    Fat32SizeIs(sectors);
    var c := CalculateFat32Config(sectors);
    FormattedFits(sectors);
    ConfigSuits(sectors);
    ConfigRange(sectors);
    SizesAre(sectors - 32, c.sectorsPerCluster, c);
    GeometryForIs(c);
    TailFits(sectors, c.sectorsPerCluster);
    LastAddressable(GeometryFor(c), CalculateSectorsPerFat(c));
  }

  lemma TailFits(sectors: nat, n: nat)
    requires Fat32Size(sectors) && n == CalculateFat32Config(sectors).sectorsPerCluster
    ensures var first := Needed(Clusters(sectors - 32, n));
      && 2 * first <= sectors - 32
      && var size := Needed(Clusters(sectors - 32 - 2 * first, n));
         16384 + 1024 * size + (128 * size - 2) * (512 * n) <= TWO32 <==> sectors < 8388634
  {
    match n
    case 1 => TailFits1(sectors - 32);
    case 2 => TailFits2(sectors - 32);
    case 8 => TailFits8(sectors - 32);
    case 16 => TailFits16(sectors - 32);
    case _ => TailFits32(sectors - 32);
  }

  lemma TailFits1(data: nat)
    requires 66549 <= data < 66568
    ensures var first := Needed(data); 2 * first <= data && Needed(data - 2 * first) <= 600
  {
  }

  lemma TailFits2(data: nat)
    requires 66568 <= data < 532448
    ensures var first := Needed(data / 2); 2 * first <= data && Needed((data - 2 * first) / 2) <= 2100
  {
  }

  lemma TailFits8(data: nat)
    requires 532448 <= data < 16777184
    ensures var first := Needed(data / 8);
      2 * first <= data && (Needed((data - 2 * first) / 8) <= 8176 <==> data < 8388602)
  {
  }

  lemma TailFits16(data: nat)
    requires 16777184 <= data < 33554400
    ensures var first := Needed(data / 16); 2 * first <= data && Needed((data - 2 * first) / 16) > 8176
  {
  }

  lemma TailFits32(data: nat)
    requires 33554400 <= data < TWO32
    ensures var first := Needed(data / 32); 2 * first <= data && Needed((data - 2 * first) / 32) > 8176
  {
  }

  lemma LastAddressable(g: Geometry, size: nat)
    requires g.kind.FAT32? && 511 <= size < 0x20_0000 && g.clusterOffset == 16384 + 1024 * size
    ensures Addressable(g, 128 * size - 1) <==> 16384 + 1024 * size + (128 * size - 2) * g.bytesPerCluster <= TWO32
  {
    MulStep(128 * size - 3, g.bytesPerCluster);
  }

  /** All free numbers can be allocated as soon as the last one can. */
  lemma FreshFree(g: Geometry, fat: seq<nat>, size: nat)
    requires g.kind.FAT32? && 511 <= size < 0x20_0000 && |fat| == 128 * size
    requires forall e | 0 <= e < |fat| :: fat[e] == FreshEntry(e)
    ensures FreeAddressable(g, fat) <==> Addressable(g, 128 * size - 1)
  {
    var last := 128 * size - 1;
    assert fat[last] == 0;
    if Addressable(g, last) {
      forall e | 0 <= e < |fat| && fat[e] == 0 ensures Addressable(g, e) {
        MulLe(e - 2, last - 2, g.bytesPerCluster);
      }
    }
  }

  /** The parts of well-formedness that hold of every fresh volume. */
  lemma FreshVolume(g: Geometry, v: Volume, size: nat)
    requires Shaped(g, v) && g.kind.FAT32? && |v.fats| == 2 && 511 <= size && g.rootCluster == 2
    requires |v.fats[0]| == |v.fats[1]| == 128 * size && |v.data| > 2 && v.data[2] == Zeroes(g.bytesPerCluster)
    requires forall e | 0 <= e < 128 * size :: v.fats[0][e] == FreshEntry(e)
    requires forall e | 0 <= e < 128 * size :: v.fats[1][e] == FreshEntry(e)
    ensures WellFormed(g, v, EMPTY) <==> FreeAddressable(g, v.fats[0])
  {
    assert v.fats[1] == v.fats[0];
    assert v.fats[0][2] == FreshEntry(2);
    FreshFamily(g, v.fats[0]);
    hide FreeAddressable, Family, FreshEntry, Shaped;
    FreshRoot(g, v) by {
      assert Shaped(g, v);
      ShapedClusters(g, v);
    }
    hide RootInside, SlotAt, SlotCount;
  }

  lemma ShapedClusters(g: Geometry, v: Volume)
    requires Shaped(g, v)
    ensures g.bytesPerCluster > 0 && g.bytesPerCluster % 32 == 0
    ensures forall c | 2 <= c < |v.data| :: |v.data[c]| == g.bytesPerCluster
  {
  }

  lemma FreshFamily(g: Geometry, fat: seq<nat>)
    requires g.kind.FAT32? && |fat| > 2 && fat[2] == 0xFFF_FFFF && g.rootCluster == 2
    ensures Family(g.kind, fat, AllFirsts(g, EMPTY), AllChains(EMPTY))
  {
    assert AllChains(EMPTY) == map[ROOT := [2]] && AllFirsts(g, EMPTY) == map[ROOT := 2];
    assert Chain(g.kind, fat, 2, [2]);
  }

  lemma FreshRoot(g: Geometry, v: Volume)
    requires g.kind.FAT32? && |v.data| > 2 && v.data[2] == Zeroes(g.bytesPerCluster)
    requires g.bytesPerCluster > 0 && g.bytesPerCluster % 32 == 0
    requires forall c | 2 <= c < |v.data| :: |v.data[c]| == g.bytesPerCluster
    ensures RootInside(g, v, [2]) && 0 < SlotCount(g, v, [2]) && SlotAt(g, v, [2], 0)[0] == 0
  {
    SlotPlace(g, [2], 0);
  }

  /**
   * The recorded free count: one less than the clusters, which is right when the table has an entry for each. The table
   * as a whole has other free entries too, or lacks some.
   */
  lemma FormattedFreeCount(sectors: nat, s: seq<byte>, start: nat)
    requires Fat32Size(sectors) && Fits(CalculateFat32Config(sectors), |s|) && |s| < TWO32
    ensures var c := CalculateFat32Config(sectors);
      && Sane(GeometryFor(c), |s|)
      && var g, v := GeometryFor(c), Abs(GeometryFor(c), Formatted(s, c, start));
         var clusters := ClusterCount(c);
         && InfoUsable(g, v) && InfoFits(g, v) && g.fsInfoSector != 0 && FreeCount(g, v) == clusters - 1
         && |v.fats| == 2 && Known(g, v) && Difference(g, v) == clusters + 2 - |v.fats[0]|
         && (clusters + 2 <= |v.fats[0]| ==> Free(v.fats[0][..clusters + 2]) == clusters - 1)
  {
    hide *;
    var c := CalculateFat32Config(sectors);
    ConfigRange(sectors);
    FormattedFits(sectors);
    FormattedSane(sectors, |s|);
    var g, r, size := GeometryFor(c), Formatted(s, c, start), CalculateSectorsPerFat(c);
    var v := Abs(g, r);
    FormattedParts(sectors, s, start);
    InfoRead(c);
    GeometryForIs(c);
    InfoIs(g, v);
    FormattedEntries(sectors, s, start);
    var fat := v.fats[0];
    FreshCount(fat, |fat|);
    assert fat[..|fat|] == fat;
    DifferenceIs(g, v);
    if ClusterCount(c) + 2 <= |fat| {
      FreshCount(fat, ClusterCount(c) + 2);
    }
  }

  lemma DifferenceIs(g: Geometry, v: Volume)
    requires InfoFits(g, v) && g.fsInfoSector != 0 && |v.fats| > 0
    ensures Difference(g, v) == FreeCount(g, v) - Free(v.fats[0])
    ensures FreeCount(g, v) < 0x4000_0000 ==> Known(g, v)
  {
    hide FreeCount, Free;
  }

  /** A window of a formatted partition is a formatted window. */
  lemma FormattedPrefix(s: seq<byte>, c: Fat32Config, start: nat, len: nat)
    requires len <= |s| && Fits(c, len) && Fits(c, |s|)
    ensures Formatted(s, c, start)[..len] == Formatted(s[..len], c, start)
  {
    hide *;
    FormattedSteps(s, c, start);
    FormattedSteps(s[..len], c, start);
    FitsIs(c, len);
    var size, room := CalculateSectorsPerFat(c), 512 * c.sectorsPerCluster;
    var boot, info, boot', table, zeroes :=
      BootBytes(c, U32(start)), FsInfoBytes(c), BootBytes(c, U32(start + 6)), TableBytes(size), Zeroes(room);
    var s1, t1 := Splice(s, 0, boot), Splice(s[..len], 0, boot);
    var s2, t2 := Splice(s1, 512, info), Splice(t1, 512, info);
    var s3, t3 := Splice(s2, 3072, boot'), Splice(t2, 3072, boot');
    var s4, t4 := Splice(s3, 16384, table), Splice(t3, 16384, table);
    var s5, t5 := Splice(s4, 16384 + 512 * size, table), Splice(t4, 16384 + 512 * size, table);
    PrefixSplice(s, 0, boot, len);
    PrefixSplice(s1, 512, info, len);
    PrefixSplice(s2, 3072, boot', len);
    PrefixSplice(s3, 16384, table, len);
    PrefixSplice(s4, 16384 + 512 * size, table, len);
    PrefixSplice(s5, 16384 + 1024 * size, zeroes, len);
  }

  lemma PrefixSplice(s: seq<byte>, off: nat, d: seq<byte>, len: nat)
    requires off + |d| <= len <= |s|
    ensures Splice(s, off, d)[..len] == Splice(s[..len], off, d)
  {
    SpliceWithin(s, off, d, 0, len);
    hide Splice;
    assert Splice(s, off, d)[0..len] == Splice(s, off, d)[..len] && s[0..len] == s[..len];
  }

  lemma InfoIs(g: Geometry, v: Volume)
    requires InfoFits(g, v) && g.fsInfoSector != 0
    ensures FreeCount(g, v) == Le32(InfoOf(g, v), 488)
    ensures InfoUsable(g, v) <==> Signed(InfoOf(g, v))
  {
    hide Signed, Le32;
  }

  lemma InfoRead(c: Fat32Config)
    requires c.sectorsPerCluster > 0 && 0 < ClusterCount(c) < 0x4000_0000
    ensures Signed(FsInfoBytes(c)) && Le32(FsInfoBytes(c), 488) == ClusterCount(c) - 1
  {
    var f := FsInfoBytes(c);
    assert U32(ClusterCount(c) - 1) == ClusterCount(c) - 1;
    hide ClusterCount, Put32, U32;
    assert f[488..492] == Put32(ClusterCount(c) - 1);
    hide FsInfoBytes;
    PutAt(f, 488, ClusterCount(c) - 1);
    hide Le32;
  }

  lemma {:induction false} FreshCount(fat: seq<nat>, n: nat)
    requires 3 <= n <= |fat| && forall e | 0 <= e < |fat| :: fat[e] == FreshEntry(e)
    ensures Free(fat[..n]) == n - 3
  {
    var s := fat[..n];
    assert s[..n - 1] == fat[..n - 1];
    if n == 3 {
      assert Free(s[..1]) == Free(s[..1][..0]) && Free(s[..2]) == Free(s[..2][..1]);
      assert s[..2][..1] == s[..1] && s[..1][..0] == [];
    } else {
      FreshCount(fat, n - 1);
    }
  }
}
