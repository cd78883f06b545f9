/** What a boot sector says, and where the FAT code then looks for the parts of the volume. */
module MountLayouts {
  import opened Bytes
  import opened Arith
  import opened FatCodec
  import opened Volumes
  import opened Chains
  import opened BootSectors

  /** The fields of a boot sector that the layout depends on. */
  datatype Sector = Sector(size: nat, perCluster: nat, reserved: nat, copies: nat, rootEntries: nat, total: nat,
                           table: nat)

  /** Where they are: section 3.1 of the Microsoft FAT specification. */
  ghost predicate Says(b: seq<byte>, s: Sector) {
    && |b| == 512
    && s.size == Le16(b, 0x0B) && s.perCluster == b[0x0D] && s.reserved == Le16(b, 0x0E) && s.copies == b[0x10]
    && s.rootEntries == Le16(b, 0x11)
    && s.total == (if Le16(b, 0x13) > 0 then Le16(b, 0x13) else Le32(b, 0x20))
    && s.table == (if Le16(b, 0x16) > 0 then Le16(b, 0x16) else Le32(b, 0x24))
  }

  /** `n` is the least number of sectors that hold the fixed root directory. */
  ghost predicate RootTakes(s: Sector, n: nat) {
    n * s.size >= 32 * s.rootEntries && (n > 0 ==> (n - 1) * s.size < 32 * s.rootEntries)
  }

  /** A boot sector mounts if and only if it is signed, nothing is divided by zero, and a sector is whole words. */
  lemma MountsExactly(b: seq<byte>, s: Sector)
    requires Says(b, s)
    ensures Parse(b).Mounted? <==>
      b[510] == 0x55 && b[511] == 0xAA && s.size > 0 && s.perCluster > 0 && s.size % 4 == 0
  {
    hide GeometryOf, Le16, Le32;
  }

  lemma MountedIs(b: seq<byte>, s: Sector)
    requires Says(b, s) && Parse(b).Mounted?
    ensures s.size > 0 && s.perCluster > 0
    ensures var p, old16 := Fields(b), Le16(b, 0x16);
      && p == Bpb(s.size, s.perCluster, s.reserved, s.copies, s.rootEntries, s.total, old16, s.table, Le32(b, 0x2C),
                  Le16(b, 0x30))
      && (old16 > 0 ==> old16 == s.table) && s.total < TWO32
      && Parse(b) == Mounted(GeometryOf(p))
  {
    hide GeometryOf, Le16, Le32;
  }

  // ----- the type -----

  /**
   * The number of whole clusters behind reserved sectors, tables and root directory decides the type: below 4085 FAT12,
   * from there below 65525 FAT16, else FAT32.
   */
  lemma TypeByCount(b: seq<byte>, s: Sector, g: Geometry, root: nat)
    requires Says(b, s) && Parse(b) == Mounted(g) && RootTakes(s, root)
    requires s.reserved + s.copies * s.table + root <= s.total
    ensures var n, used := g.countOfClusters, s.reserved + s.copies * s.table + root;
      && n * s.perCluster <= s.total - used < n * s.perCluster + s.perCluster
    ensures g.kind == FAT12 <==> g.countOfClusters < 4085
    ensures g.kind == FAT16 <==> 4085 <= g.countOfClusters < 65525
    ensures g.kind == FAT32 <==> g.countOfClusters >= 65525
  {
    var p := Fields(b);
    hide *;
    MountedIs(b, s);
    RootIs(s, root);
    CountIs(p, root);
    DivMulLe(p.totalSectors - (p.reserved + p.numFats * p.fatSize + root), p.sectorsPerCluster);
    KindIs(p);
  }

  lemma CountIs(p: Bpb, root: nat)
    requires p.bytesPerSector > 0 && p.sectorsPerCluster > 0 && RootSectors(p) == root && p.totalSectors < TWO32
    requires p.reserved + p.numFats * p.fatSize + root <= p.totalSectors
    ensures CountOfClusters(p)
            == (p.totalSectors - (p.reserved + p.numFats * p.fatSize + root)) / p.sectorsPerCluster
  {
    hide RootSectors, U32;
  }

  lemma KindIs(p: Bpb)
    requires p.bytesPerSector > 0 && p.sectorsPerCluster > 0
    ensures var g := GeometryOf(p);
      && g.countOfClusters == CountOfClusters(p)
      && (g.kind == FAT12 <==> g.countOfClusters < 4085)
      && (g.kind == FAT16 <==> 4085 <= g.countOfClusters < 65525)
      && (g.kind == FAT32 <==> g.countOfClusters >= 65525)
  {
    hide RootSectors, U32, CountOfClusters;
  }

  lemma RootIs(s: Sector, root: nat)
    requires s.size > 0 && RootTakes(s, root)
    ensures forall p: Bpb | p.bytesPerSector == s.size && p.rootEntries == s.rootEntries :: RootSectors(p) == root
  {
    var n, d := 32 * s.rootEntries, s.size;
    assert root * d >= n && (root > 0 ==> (root - 1) * d < n);
    var q := (n + d - 1) / d;
    forall p: Bpb | p.bytesPerSector == d && p.rootEntries == s.rootEntries ensures RootSectors(p) == q {
    }
    hide *;
    DivMulLe(n + d - 1, d);
    if root < q {
      MulLe(root + 1, q, d);
      MulStep(root, d);
    } else if root > q {
      MulLe(q, root - 1, d);
    }
  }

  /**
   * In a volume of the type that its count gives, every cluster number is its own entry value and no end mark, if and
   * only if there are fewer than 0xFFFFFF7 clusters.
   */
  lemma NumbersFit(count: nat)
    ensures (forall c: nat | 2 <= c < count + 2 :: Mask(KindOf(count), c) == c && !IsEof(KindOf(count), c)) <==>
      count < 0xFFF_FFF7
  {
    if count < 0xFFF_FFF7 {
      forall c: nat | 2 <= c < count + 2 ensures Mask(KindOf(count), c) == c && !IsEof(KindOf(count), c) {
        NumberFits(count, c);
      }
    } else {
      var c := 0xFFF_FFF8;
      assert 2 <= c < count + 2 && IsEof(KindOf(count), c);
    }
  }

  lemma NumberFits(count: nat, c: nat)
    requires count < 0xFFF_FFF7 && 2 <= c < count + 2
    ensures Mask(KindOf(count), c) == c && !IsEof(KindOf(count), c)
  {
  }

  /** The end marks are the last eight values that an entry can hold, and the one that is written is the last. */
  lemma EndMarks(kind: FatKind, v: nat)
    requires Mask(kind, v) == v
    ensures IsEof(kind, v) <==> Mask(kind, v + 8) < 8
    ensures v == EofMark(kind) <==> Mask(kind, v + 1) == 0
  {
  }

  // ----- the places -----

  /** Where the tables end, in bytes: behind the reserved sectors and all copies. */
  ghost function TablesTo(s: Sector): int {
    (s.reserved + s.copies * s.table) * s.size
  }

  /** The copies of the table lie one behind the other, the first behind the reserved sectors, and end at `end`. */
  ghost predicate TablesEnd(g: Geometry, s: Sector, end: int) {
    && |g.fatStarts| == s.copies && g.bytesPerSector == s.size && g.fatSize == s.table
    && (s.copies > 0 ==> g.fatStarts[0] == s.reserved * s.size)
    && (forall m | 0 < m < s.copies :: g.fatStarts[m] == g.fatStarts[m - 1] + s.table * s.size)
    && end == if s.copies > 0 then g.fatStarts[s.copies - 1] + s.table * s.size else s.reserved * s.size
  }

  lemma Spread(a: nat, i: nat, t: nat, d: nat)
    ensures a * d + i * t * d == (a + i * t) * d
  {
  }

  lemma Smaller(i: nat, n: nat, a: nat, t: nat, rest: nat, d: nat)
    requires i <= n
    ensures (a + i * t) * d <= (a + n * t + rest) * d
  {
    MulLe(i, n, t);
    var x, y := i * t, n * t;
    hide *;
    MulLe(a + x, a + y + rest, d);
  }

  lemma StartIs(p: Bpb, rest: nat, i: nat)
    requires p.bytesPerSector > 0 && p.sectorsPerCluster > 0 && i < p.numFats
    requires (p.reserved + p.numFats * p.fatSize + rest) * p.bytesPerSector < TWO32
    ensures |GeometryOf(p).fatStarts| == p.numFats
    ensures GeometryOf(p).fatStarts[i] == (p.reserved + i * p.fatSize) * p.bytesPerSector
  {
    var a, t, d := p.reserved, p.fatSize, p.bytesPerSector;
    RawStart(p, i);
    hide *;
    Spread(a, i, t, d);
    Smaller(i, p.numFats, a, t, rest, d);
    Fits((a + i * t) * d);
  }

  lemma RawStart(p: Bpb, i: nat)
    requires p.bytesPerSector > 0 && p.sectorsPerCluster > 0 && i < p.numFats
    ensures |GeometryOf(p).fatStarts| == p.numFats
    ensures GeometryOf(p).fatStarts[i] == U32(p.reserved * p.bytesPerSector + i * p.fatSize * p.bytesPerSector)
  {
    hide U32, CountOfClusters, RootSectors, KindOf;
  }

  lemma Fits(x: nat)
    requires x < TWO32
    ensures U32(x) == x
  {
  }

  lemma SizesAre(p: Bpb)
    requires p.bytesPerSector > 0 && p.sectorsPerCluster > 0
    ensures var g := GeometryOf(p);
      && |g.fatStarts| == p.numFats && g.bytesPerSector == p.bytesPerSector && g.fatSize == p.fatSize
      && g.bytesPerCluster == p.sectorsPerCluster * p.bytesPerSector
  {
    hide U32, CountOfClusters, RootSectors, KindOf;
  }

  lemma TablesAre(s: Sector, g: Geometry)
    requires |g.fatStarts| == s.copies && g.bytesPerSector == s.size && g.fatSize == s.table
    requires forall i | 0 <= i < s.copies :: g.fatStarts[i] == (s.reserved + i * s.table) * s.size
    ensures TablesEnd(g, s, TablesTo(s))
  {
    if s.copies > 0 {
      Next(s.reserved, s.copies - 1, s.table, s.size);
      assert s.reserved + 0 * s.table == s.reserved;
    }
    forall m | 0 < m < s.copies ensures g.fatStarts[m] == g.fatStarts[m - 1] + s.table * s.size {
      Next(s.reserved, m - 1, s.table, s.size);
    }
  }

  lemma Next(a: nat, i: nat, t: nat, d: nat)
    ensures (a + (i + 1) * t) * d == (a + i * t) * d + t * d
  {
  }

  /** The layout of the tables, where no offset wraps. */
  lemma TablesLie(p: Bpb, s: Sector, rest: nat)
    requires p.bytesPerSector == s.size > 0 && p.sectorsPerCluster > 0
    requires p.reserved == s.reserved && p.numFats == s.copies && p.fatSize == s.table
    requires (s.reserved + s.copies * s.table + rest) * s.size < TWO32
    ensures TablesEnd(GeometryOf(p), s, TablesTo(s))
    ensures GeometryOf(p).bytesPerCluster == p.sectorsPerCluster * s.size
  {
    hide *;
    SizesAre(p);
    forall i | 0 <= i < s.copies ensures GeometryOf(p).fatStarts[i] == (s.reserved + i * s.table) * s.size {
      StartIs(p, rest, i);
    }
    TablesAre(s, GeometryOf(p));
  }

  lemma FixedIs(p: Bpb)
    requires p.bytesPerSector > 0 && p.sectorsPerCluster > 0 && !GeometryOf(p).kind.FAT32?
    ensures var g, at := GeometryOf(p), p.reserved + p.numFats * p.fatSize16;
      && g.rootStart == U32(at * p.bytesPerSector) && g.rootEnd == g.clusterOffset && g.fsInfoSector == 0
      && g.clusterOffset == U32((at + RootSectors(p)) * p.bytesPerSector)
  {
    hide U32, CountOfClusters, RootSectors, KindOf;
  }

  lemma ChainedIs(p: Bpb)
    requires p.bytesPerSector > 0 && p.sectorsPerCluster > 0 && GeometryOf(p).kind.FAT32?
    ensures var g := GeometryOf(p);
      && g.rootStart == g.rootEnd == g.clusterOffset
      && g.clusterOffset == U32(p.reserved * p.bytesPerSector + p.numFats * p.fatSize * p.bytesPerSector)
      && g.rootCluster == p.rootCluster && g.fsInfoSector == p.fsInfo
  {
    hide U32, CountOfClusters, RootSectors, KindOf;
  }

  /**
   * A fixed root directory, where no offset wraps. The copies of the table come directly behind the reserved sectors,
   * then the root directory in as few sectors as hold its entries, then the clusters. That is so if and only if the
   * 16-bit field for the size of the table is used, or the tables are empty: the root directory is placed by that field
   * alone, and without it starts where the tables start.
   */
  lemma FixedLayout(b: seq<byte>, s: Sector, g: Geometry, root: nat)
    requires Says(b, s) && Parse(b) == Mounted(g) && RootTakes(s, root) && !g.kind.FAT32?
    requires (s.reserved + s.copies * s.table + root) * s.size < TWO32
    ensures TablesEnd(g, s, TablesTo(s))
    ensures g.rootEnd == g.rootStart + root * s.size && g.clusterOffset == g.rootEnd
    ensures g.bytesPerCluster == s.perCluster * s.size && g.fsInfoSector == 0
    ensures g.rootStart == TablesTo(s) <==> Le16(b, 0x16) > 0 || s.copies * s.table == 0
    ensures g.rootStart != TablesTo(s) ==> g.rootStart == s.reserved * s.size
  {
    var p, old16 := Fields(b), Le16(b, 0x16);
    hide *;
    MountedIs(b, s);
    TablesLie(p, s, root);
    RootIs(s, root);
    FixedIs(p);
    RootPlace(s, root, old16);
  }

  /** Where the 16-bit field puts the root directory. */
  lemma RootPlace(s: Sector, root: nat, old16: nat)
    requires s.size > 0 && (s.reserved + s.copies * s.table + root) * s.size < TWO32 && (old16 > 0 ==> old16 == s.table)
    ensures var at := s.reserved + s.copies * old16;
      && U32((at + root) * s.size) == U32(at * s.size) + root * s.size
      && (U32(at * s.size) == TablesTo(s) <==> old16 > 0 || s.copies * s.table == 0)
      && (U32(at * s.size) != TablesTo(s) ==> U32(at * s.size) == s.reserved * s.size)
  {
    var at, end, d := s.reserved + s.copies * old16, s.reserved + s.copies * s.table, s.size;
    assert at == (if old16 > 0 then end else s.reserved);
    var t := s.copies * s.table;
    hide *;
    MulLe(at + root, end + root, d);
    MulLe(at, at + root, d);
    assert (at + root) * d == at * d + root * d;
    Fits((at + root) * d);
    Fits(at * d);
    if t > 0 {
      MulLe(s.reserved + 1, end, d);
      MulStep(s.reserved, d);
    }
  }

  /** FAT32: the clusters come directly behind the tables, and the root directory starts in the recorded one. */
  lemma ChainedLayout(b: seq<byte>, s: Sector, g: Geometry)
    requires Says(b, s) && Parse(b) == Mounted(g) && g.kind.FAT32?
    requires (s.reserved + s.copies * s.table) * s.size < TWO32
    ensures TablesEnd(g, s, TablesTo(s)) && g.rootStart == g.rootEnd == g.clusterOffset == TablesTo(s)
    ensures g.bytesPerCluster == s.perCluster * s.size
    ensures g.rootCluster == Le32(b, 0x2C) && g.fsInfoSector == Le16(b, 0x30)
  {
    var p := Fields(b);
    hide *;
    MountedIs(b, s);
    assert s.reserved + s.copies * s.table + 0 == s.reserved + s.copies * s.table;
    TablesLie(p, s, 0);
    ChainedIs(p);
    ChainedPlace(s);
  }

  lemma ChainedPlace(s: Sector)
    requires (s.reserved + s.copies * s.table) * s.size < TWO32
    ensures U32(s.reserved * s.size + s.copies * s.table * s.size) == TablesTo(s)
  {
    Spread(s.reserved, s.copies, s.table, s.size);
  }
}
