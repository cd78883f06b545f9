/** The layout of a FAT volume inside the partition image, and the image seen as its parts. */
module Volumes {
  import opened Bytes
  import opened FatCodec
  import opened Arith

  /**
   * What the constructor of the FAT code derives from the boot sector. All offsets are bytes from the partition
   * start.
   */
  datatype Geometry = Geometry(
    kind: FatKind,
    bytesPerSector: nat,
    fatSize: nat,              // sectors in one copy of the table
    fatStarts: seq<nat>,       // one offset for each copy
    bytesPerCluster: nat,
    clusterOffset: nat,        // where cluster 2 starts
    countOfClusters: nat,
    rootStart: nat,            // FAT12/16: the fixed root directory
    rootEnd: nat,
    rootCluster: nat,          // FAT32: first cluster of the root directory
    fsInfoSector: nat)         // FAT32: zero when there is none

  /** The parts of the image. `data` is indexed by cluster number, so its first two elements are unused. */
  datatype Volume = Volume(head: seq<byte>, fats: seq<seq<nat>>, root: seq<byte>, data: seq<seq<byte>>)

  function FatBytes(g: Geometry): nat {
    g.fatSize * g.bytesPerSector
  }

  /** The number of table entries the allocator looks at. */
  function Entries(g: Geometry): nat
    requires g.bytesPerSector > 0
  {
    match g.kind
    case FAT12 => g.countOfClusters + 2
    case FAT16 => g.fatSize * (g.bytesPerSector / 2)
    case FAT32 => g.fatSize * (g.bytesPerSector / 4)
  }

  function ClusterPos(g: Geometry, c: nat): int {
    g.clusterOffset + (c - 2) * g.bytesPerCluster
  }

  /** The whole clusters that lie inside a partition of `len` bytes, plus the two unused numbers. */
  function ClusterLimit(g: Geometry, len: nat): nat
    requires g.bytesPerCluster > 0 && g.clusterOffset <= len
  {
    (len - g.clusterOffset) / g.bytesPerCluster + 2
  }

  /** A volume laid out as the FAT specification says: reserved sectors, tables, root directory, clusters. */
  ghost predicate Sane(g: Geometry, len: nat) {
    && g.bytesPerSector > 0 && g.bytesPerSector % 32 == 0
    && g.bytesPerCluster > 0 && g.bytesPerCluster % 32 == 0
    && |g.fatStarts| > 0
    && (forall m | 0 <= m < |g.fatStarts| ::
          g.fatStarts[0] <= g.fatStarts[m] && g.fatStarts[m] + FatBytes(g) <= g.rootStart)
    && (forall m, n | 0 <= m < n < |g.fatStarts| :: g.fatStarts[m] + FatBytes(g) <= g.fatStarts[n])
    && g.rootStart <= g.rootEnd == g.clusterOffset <= len < TWO32
    && (g.rootEnd - g.rootStart) % 32 == 0
    && (g.kind.FAT32? ==> g.rootStart == g.rootEnd)
    && (g.kind.FAT12? ==> 2 <= Entries(g) <= 0xFF7
                          && EntryOffset(FAT12, Entries(g) - 1) + EntryWidth(FAT12) <= FatBytes(g))
    && (if g.fsInfoSector == 0 then true
        else g.kind.FAT32? && g.fsInfoSector * g.bytesPerSector + 512 <= g.fatStarts[0])
  }

  function Fat(g: Geometry, s: seq<byte>, m: nat): (r: seq<nat>)
    requires g.bytesPerSector > 0 && m < |g.fatStarts|
    requires g.fatStarts[m] + FatBytes(g) <= |s|
    requires forall c | 0 <= c < Entries(g) :: EntryOffset(g.kind, c) + EntryWidth(g.kind) <= FatBytes(g)
    ensures |r| == Entries(g)
  {
    var table := s[g.fatStarts[m]..g.fatStarts[m] + FatBytes(g)];
    seq(Entries(g), c requires 0 <= c < Entries(g) => Get(g.kind, table, c))
  }

  function Cluster(g: Geometry, s: seq<byte>, c: nat): seq<byte> {
    if c >= 2 && 0 <= ClusterPos(g, c) <= ClusterPos(g, c) + g.bytesPerCluster <= |s| then
      s[ClusterPos(g, c)..ClusterPos(g, c) + g.bytesPerCluster]
    else []
  }

  lemma EntryInside(g: Geometry, len: nat, c: nat)
    requires Sane(g, len) && c < Entries(g)
    ensures EntryOffset(g.kind, c) + EntryWidth(g.kind) <= FatBytes(g)
  {
    hide ClusterLimit;
    match g.kind
    case FAT12 =>
      assert c + c / 2 <= Entries(g) - 1 + (Entries(g) - 1) / 2;
    case FAT16 =>
      HalfProduct(g.fatSize, g.bytesPerSector / 2, 2, c);
      WholeEntries(g.bytesPerSector, 2);
    case FAT32 =>
      HalfProduct(g.fatSize, g.bytesPerSector / 4, 4, c);
      WholeEntries(g.bytesPerSector, 4);
  }

  /** A sector holds a whole number of 16-bit or 32-bit entries. */
  lemma WholeEntries(n: nat, w: nat)
    requires n > 0 && n % 32 == 0 && (w == 2 || w == 4)
    ensures n == w * (n / w) && n / w > 0
  {
    var k := n / 32;
    assert n == 32 * k;
    if w == 2 {
      DivModUnique(16 * k, 0, 2);
    } else {
      DivModUnique(8 * k, 0, 4);
    }
  }

  lemma HalfProduct(a: nat, b: nat, w: nat, c: nat)
    requires c < a * b
    ensures c * w + w <= a * (w * b)
  {
    assert (c + 1) * w <= a * b * w;
    assert a * b * w == a * (w * b);
  }

  lemma ClusterInside(g: Geometry, len: nat, c: nat)
    requires Sane(g, len) && 2 <= c < ClusterLimit(g, len)
    ensures g.clusterOffset <= ClusterPos(g, c) && ClusterPos(g, c) + g.bytesPerCluster <= len
  {
    var room := len - g.clusterOffset;
    DivMulLe(room, g.bytesPerCluster);
    MulLe(c - 1, room / g.bytesPerCluster, g.bytesPerCluster);
    MulStep(c - 2, g.bytesPerCluster);
    MulLe(0, c - 2, g.bytesPerCluster);
  }

  /** A cluster whose bytes end inside the partition is one of those the volume counts. */
  lemma FitsInside(g: Geometry, len: nat, c: nat)
    requires Sane(g, len) && 2 <= c && ClusterPos(g, c) + g.bytesPerCluster <= len
    ensures c < ClusterLimit(g, len)
  {
    var room := len - g.clusterOffset;
    DivMulLe(room, g.bytesPerCluster);
    MulStep(c - 2, g.bytesPerCluster);
    if c - 1 > room / g.bytesPerCluster {
      MulLe(room / g.bytesPerCluster + 1, c - 1, g.bytesPerCluster);
      MulStep(room / g.bytesPerCluster, g.bytesPerCluster);
    }
  }

  lemma ClustersApart(g: Geometry, c: nat, d: nat)
    requires c < d
    ensures ClusterPos(g, c) + g.bytesPerCluster <= ClusterPos(g, d)
  {
    MulLe(c - 1, d - 2, g.bytesPerCluster);
    MulStep(c - 2, g.bytesPerCluster);
  }

  /** The image as its parts. */
  ghost function Abs(g: Geometry, s: seq<byte>): (v: Volume)
    requires Sane(g, |s|)
    ensures |v.fats| == |g.fatStarts| && forall m | 0 <= m < |v.fats| :: |v.fats[m]| == Entries(g)
    ensures |v.data| == ClusterLimit(g, |s|)
    ensures |v.head| == g.fatStarts[0]
    ensures |v.root| == g.rootEnd - g.rootStart
    ensures forall c | 2 <= c < |v.data| :: |v.data[c]| == g.bytesPerCluster
  {
    forall c | 0 <= c < Entries(g) ensures EntryOffset(g.kind, c) + EntryWidth(g.kind) <= FatBytes(g) {
      EntryInside(g, |s|, c);
    }
    var data := seq(ClusterLimit(g, |s|), c requires 0 <= c => Cluster(g, s, c));
    assert forall c | 2 <= c < |data| :: |data[c]| == g.bytesPerCluster by {
      forall c | 2 <= c < |data| ensures |data[c]| == g.bytesPerCluster { ClusterInside(g, |s|, c); }
    }
    Volume(
      s[..g.fatStarts[0]],
      seq(|g.fatStarts|, m requires 0 <= m < |g.fatStarts| => Fat(g, s, m)),
      s[g.rootStart..g.rootEnd],
      data)
  }

  lemma FatSame(g: Geometry, s: seq<byte>, off: nat, d: seq<byte>, m: nat)
    requires Sane(g, |s|) && off + |d| <= |s| && m < |g.fatStarts|
    requires off + |d| <= g.fatStarts[m] || g.fatStarts[m] + FatBytes(g) <= off
    ensures Abs(g, Splice(s, off, d)).fats[m] == Abs(g, s).fats[m]
  {
    SpliceApart(s, off, d, g.fatStarts[m], g.fatStarts[m] + FatBytes(g));
  }

  lemma ClusterSame(g: Geometry, s: seq<byte>, off: nat, d: seq<byte>, c: nat)
    requires off + |d| <= |s|
    requires off + |d| <= ClusterPos(g, c) || ClusterPos(g, c) + g.bytesPerCluster <= off
    ensures Cluster(g, Splice(s, off, d), c) == Cluster(g, s, c)
  {
    if c >= 2 && 0 <= ClusterPos(g, c) <= ClusterPos(g, c) + g.bytesPerCluster <= |s| {
      SpliceApart(s, off, d, ClusterPos(g, c), ClusterPos(g, c) + g.bytesPerCluster);
    }
  }

  lemma DataSame(g: Geometry, s: seq<byte>, off: nat, d: seq<byte>)
    requires Sane(g, |s|) && off + |d| <= g.clusterOffset
    ensures Abs(g, Splice(s, off, d)).data == Abs(g, s).data
  {
    forall c | 0 <= c < ClusterLimit(g, |s|) ensures Cluster(g, Splice(s, off, d), c) == Cluster(g, s, c) {
      if 2 <= c {
        ClusterInside(g, |s|, c);
        ClusterSame(g, s, off, d, c);
      }
    }
  }

  /** Writing in the reserved sectors changes only them. */
  lemma HeadWritten(g: Geometry, s: seq<byte>, off: nat, d: seq<byte>)
    requires Sane(g, |s|) && off + |d| <= g.fatStarts[0]
    ensures Abs(g, Splice(s, off, d)) == Abs(g, s).(head := Splice(Abs(g, s).head, off, d))
  {
    SpliceWithin(s, off, d, 0, g.fatStarts[0]);
    SpliceApart(s, off, d, g.rootStart, g.rootEnd);
    DataSame(g, s, off, d);
    forall m | 0 <= m < |g.fatStarts| ensures Abs(g, Splice(s, off, d)).fats[m] == Abs(g, s).fats[m] {
      FatSame(g, s, off, d, m);
    }
  }

  /** Writing in the fixed root directory changes only it. */
  lemma RootWritten(g: Geometry, s: seq<byte>, off: nat, d: seq<byte>)
    requires Sane(g, |s|) && g.rootStart <= off && off + |d| <= g.rootEnd
    ensures Abs(g, Splice(s, off, d)) == Abs(g, s).(root := Splice(Abs(g, s).root, off - g.rootStart, d))
  {
    SpliceApart(s, off, d, 0, g.fatStarts[0]);
    SpliceWithin(s, off, d, g.rootStart, g.rootEnd);
    DataSame(g, s, off, d);
    forall m | 0 <= m < |g.fatStarts| ensures Abs(g, Splice(s, off, d)).fats[m] == Abs(g, s).fats[m] {
      FatSame(g, s, off, d, m);
    }
  }

  /** Writing in a cluster changes only that cluster. */
  lemma DataWritten(g: Geometry, s: seq<byte>, c: nat, at: nat, d: seq<byte>)
    requires Sane(g, |s|) && 2 <= c < ClusterLimit(g, |s|) && at + |d| <= g.bytesPerCluster
    ensures g.clusterOffset <= ClusterPos(g, c) && ClusterPos(g, c) + at + |d| <= |s|
    ensures var v := Abs(g, s);
            Abs(g, Splice(s, ClusterPos(g, c) + at, d)) == v.(data := v.data[c := Splice(v.data[c], at, d)])
  {
    ClusterInside(g, |s|, c);
    DataOf(g, s, c, at, d);
    BeforeData(g, s, ClusterPos(g, c) + at, d);
    hide *;
  }

  /** A write behind the first cluster leaves everything before it alone. */
  lemma BeforeData(g: Geometry, s: seq<byte>, off: nat, d: seq<byte>)
    requires Sane(g, |s|) && g.clusterOffset <= off && off + |d| <= |s|
    ensures var r := Abs(g, Splice(s, off, d)); r == Abs(g, s).(data := r.data)
  {
    hide Splice, Fat, Cluster, Entries, FatBytes, ClusterLimit, EntryOffset, EntryWidth;
    SpliceApart(s, off, d, 0, g.fatStarts[0]);
    SpliceApart(s, off, d, g.rootStart, g.rootEnd);
    forall m | 0 <= m < |g.fatStarts| ensures Abs(g, Splice(s, off, d)).fats[m] == Abs(g, s).fats[m] {
      FatSame(g, s, off, d, m);
    }
  }

  lemma DataOf(g: Geometry, s: seq<byte>, c: nat, at: nat, d: seq<byte>)
    requires Sane(g, |s|) && 2 <= c < ClusterLimit(g, |s|) && at + |d| <= g.bytesPerCluster
    requires g.clusterOffset <= ClusterPos(g, c) && ClusterPos(g, c) + g.bytesPerCluster <= |s|
    ensures var v := Abs(g, s);
            Abs(g, Splice(s, ClusterPos(g, c) + at, d)).data == v.data[c := Splice(v.data[c], at, d)]
  {
    hide *;
    var r := Splice(s, ClusterPos(g, c) + at, d);
    DataIs(g, s);
    DataIs(g, r);
    forall e | 0 <= e < ClusterLimit(g, |s|)
      ensures Cluster(g, r, e) == if e == c then Splice(Cluster(g, s, c), at, d) else Cluster(g, s, e)
    {
      OneCluster(g, s, c, at, d, e);
    }
  }

  lemma DataIs(g: Geometry, s: seq<byte>)
    requires Sane(g, |s|)
    ensures g.bytesPerCluster > 0 && g.clusterOffset <= |s| && |Abs(g, s).data| == ClusterLimit(g, |s|)
    ensures forall e | 0 <= e < ClusterLimit(g, |s|) :: Abs(g, s).data[e] == Cluster(g, s, e)
    ensures forall e | 2 <= e < ClusterLimit(g, |s|) :: |Cluster(g, s, e)| == g.bytesPerCluster
  {
    hide Cluster, ClusterLimit, Fat;
  }

  lemma OneCluster(g: Geometry, s: seq<byte>, c: nat, at: nat, d: seq<byte>, e: nat)
    requires Sane(g, |s|) && 2 <= c && at + |d| <= g.bytesPerCluster && |Cluster(g, s, c)| == g.bytesPerCluster
    requires g.clusterOffset <= ClusterPos(g, c) && ClusterPos(g, c) + g.bytesPerCluster <= |s|
    ensures Cluster(g, Splice(s, ClusterPos(g, c) + at, d), e)
            == if e == c then Splice(Cluster(g, s, c), at, d) else Cluster(g, s, e)
  {
    hide Splice, ClusterPos, Sane;
    var off := ClusterPos(g, c) + at;
    if e == c {
      SpliceWithin(s, off, d, ClusterPos(g, c), ClusterPos(g, c) + g.bytesPerCluster);
    } else if e >= 2 {
      if e < c {
        ClustersApart(g, e, c);
      } else {
        ClustersApart(g, c, e);
      }
      ClusterSame(g, s, off, d, e);
    }
  }
}
