/** What a well-formed volume holds: a root directory, a chain for each live entry, and the contents of the files. */
module Layouts {
  import opened Arith
  import opened Bytes
  import opened FatCodec
  import opened Volumes
  import opened Chains
  import opened Names
  import opened Directories

  /** Key of the root directory's chain among the chains, which are keyed by slot number. */
  const ROOT := -1

  /**
   * The clusters of a FAT32 root directory, the entries in front of the end marker, and for each live one its first
   * cluster and its chain.
   */
  datatype Layout = Layout(root: seq<nat>, entries: seq<Entry>, firsts: map<int, nat>, chains: map<int, seq<nat>>)

  function First(kind: FatKind, e: Entry): nat {
    Le16(e, 26) + if kind.FAT32? then TWO16 * Le16(e, 20) else 0
  }

  predicate IsDirectory(e: Entry) {
    e[11] / ATTR_DIRECTORY % 2 == 1
  }

  function ClustersNeeded(g: Geometry, size: nat): nat
    requires g.bytesPerCluster > 0
  {
    (size + g.bytesPerCluster - 1) / g.bytesPerCluster
  }

  /** Sizes of the parts of a volume. */
  ghost predicate Shaped(g: Geometry, v: Volume) {
    && g.bytesPerSector > 0 && g.bytesPerCluster > 0 && g.bytesPerCluster % 32 == 0
    && |v.fats| == |g.fatStarts| > 0
    && (forall m | 0 <= m < |v.fats| :: |v.fats[m]| == Entries(g))
    && (forall c | 2 <= c < |v.data| :: |v.data[c]| == g.bytesPerCluster)
    && |v.data| >= 2
  }

  lemma AbsShaped(g: Geometry, s: seq<byte>)
    requires Sane(g, |s|)
    ensures Shaped(g, Abs(g, s))
  {
    hide Entries, FatBytes, EntryOffset, EntryWidth, Fat, Cluster;
  }

  function AllChains(l: Layout): map<int, seq<nat>> {
    l.chains[ROOT := l.root]
  }

  /** The chains belong to live entries. */
  ghost predicate Keyed(l: Layout) {
    && (forall k :: k in l.chains <==> 0 <= k < |l.entries| && IsLive(l.entries[k]))
    && l.firsts.Keys == l.chains.Keys
  }

  function AllFirsts(g: Geometry, l: Layout): map<int, nat> {
    l.firsts[ROOT := if g.kind.FAT32? then g.rootCluster else 0]
  }

  /** Where the code seeks for a cluster: the offset is computed in 32 bits. */
  function SeekTarget(g: Geometry, c: nat): nat {
    (g.clusterOffset + (c - 2) * g.bytesPerCluster) % TWO32
  }

  /** The 32-bit offset is the place of the cluster exactly when the cluster starts in the first four gigabytes. */
  lemma SeekIsExact(g: Geometry, c: nat)
    requires 2 <= c
    ensures SeekTarget(g, c) == ClusterPos(g, c) <==> ClusterPos(g, c) < TWO32
  {
    MulLe(0, c - 2, g.bytesPerCluster);
  }

  /**
   * A free entry can be allocated: the code's 32-bit offset of the cluster does not wrap, and its number is no end
   * mark.
   */
  predicate Addressable(g: Geometry, c: nat) {
    && 2 <= c && !IsEof(g.kind, c)
    && g.clusterOffset + (c - 2) * g.bytesPerCluster + g.bytesPerCluster <= TWO32
  }

  ghost predicate FreeAddressable(g: Geometry, fat: seq<nat>) {
    forall c | 0 <= c < |fat| && fat[c] == 0 :: Addressable(g, c)
  }

  lemma AddressableFits(g: Geometry, c: nat)
    requires Addressable(g, c)
    ensures Mask(g.kind, c) == c && (g.kind.FAT16? ==> c < TWO16)
    ensures g.bytesPerCluster > 0 ==> SeekTarget(g, c) == ClusterPos(g, c) >= 0
  {
    MulLe(0, c - 2, g.bytesPerCluster);
  }

  /** Clusters inside the partition are addressable, whatever their entry says. */
  lemma InsideAddressable(g: Geometry, len: nat, c: nat)
    requires Sane(g, len) && 2 <= c < ClusterLimit(g, len)
    ensures SeekTarget(g, c) == ClusterPos(g, c)
    ensures 0 <= ClusterPos(g, c) && ClusterPos(g, c) + g.bytesPerCluster <= len
    ensures !IsEof(g.kind, c) ==> Addressable(g, c)
  {
    ClusterInside(g, len, c);
  }

  /** All clusters on chains lie inside the partition. */
  ghost predicate Inside(chains: map<int, seq<nat>>, limit: nat) {
    forall k, x | k in chains && x in chains[k] :: x < limit
  }

  /**
   * Tables and chains: the copies agree, every chain is sound, no two share a cluster, free entries can be allocated.
   */
  ghost predicate TablesSound(g: Geometry, v: Volume, l: Layout) {
    && Shaped(g, v)
    && (forall m | 0 <= m < |v.fats| :: v.fats[m] == v.fats[0])
    && (if g.kind.FAT32? then l.root != [] else l.root == [])
    && Keyed(l)
    && Family(g.kind, v.fats[0], AllFirsts(g, l), AllChains(l))
    && FreeAddressable(g, v.fats[0])
  }

  /** Moreover no chain leaves the partition. */
  ghost predicate Sound(g: Geometry, v: Volume, l: Layout) {
    TablesSound(g, v, l) && Inside(AllChains(l), |v.data|)
  }

  // ----- directory slots -----

  function SlotsPerCluster(g: Geometry): nat {
    g.bytesPerCluster / 32
  }

  function SlotCount(g: Geometry, v: Volume, root: seq<nat>): nat {
    if g.kind.FAT32? then |root| * SlotsPerCluster(g) else |v.root| / 32
  }

  /** The clusters of the directory can be read. */
  ghost predicate RootInside(g: Geometry, v: Volume, root: seq<nat>) {
    && g.bytesPerCluster > 0 && g.bytesPerCluster % 32 == 0
    && (forall c | 2 <= c < |v.data| :: |v.data[c]| == g.bytesPerCluster)
    && (forall k | 0 <= k < |root| :: 2 <= root[k] < |v.data|)
  }

  lemma SlotPlace(g: Geometry, root: seq<nat>, i: nat)
    requires g.bytesPerCluster > 0 && g.bytesPerCluster % 32 == 0 && i < |root| * SlotsPerCluster(g)
    ensures SlotsPerCluster(g) > 0 && i / SlotsPerCluster(g) < |root|
    ensures 32 * (i % SlotsPerCluster(g)) + 32 <= g.bytesPerCluster
  {
    var n := SlotsPerCluster(g);
    DivMulLe(i, n);
    if i / n >= |root| {
      MulLe(|root|, i / n, n);
    }
  }

  ghost function SlotAt(g: Geometry, v: Volume, root: seq<nat>, i: nat): (e: Entry)
    requires RootInside(g, v, root) && i < SlotCount(g, v, root)
  {
    if g.kind.FAT32? then
      SlotPlace(g, root, i);
      var at := 32 * (i % SlotsPerCluster(g));
      v.data[root[i / SlotsPerCluster(g)]][at..at + 32]
    else v.root[32 * i..32 * i + 32]
  }

  /** The first slots of the directory hold these entries. */
  ghost predicate DirHolds(g: Geometry, v: Volume, root: seq<nat>, entries: seq<Entry>) {
    && RootInside(g, v, root)
    && |entries| <= SlotCount(g, v, root)
    && forall i | 0 <= i < |entries| :: SlotAt(g, v, root, i) == entries[i]
  }

  /** The directory is these entries, then an end marker or the end of its space. */
  ghost predicate Listed(g: Geometry, v: Volume, l: Layout) {
    && DirHolds(g, v, l.root, l.entries)
    && (forall i | 0 <= i < |l.entries| :: l.entries[i][0] != 0)
    && (|l.entries| < SlotCount(g, v, l.root) ==> SlotAt(g, v, l.root, |l.entries|)[0] == 0)
  }

  /** The chain of a file is as long as its size needs; a directory has size zero and any length. */
  ghost predicate Sized(g: Geometry, l: Layout)
    requires g.bytesPerCluster > 0 && Keyed(l)
  {
    forall k | k in l.chains ::
      || |l.chains[k]| == ClustersNeeded(g, FileSize(l.entries[k]))
      || (IsDirectory(l.entries[k]) && FileSize(l.entries[k]) == 0)
  }

  /** The directory can be scanned; this also holds while a file is being rewritten. */
  ghost predicate Steady(g: Geometry, v: Volume, l: Layout) {
    Sound(g, v, l) && Listed(g, v, l)
  }

  /** The entries name the first clusters of their chains, and short names are unique. */
  ghost predicate Consistent(g: Geometry, l: Layout)
    requires g.bytesPerCluster > 0 && Keyed(l)
  {
    && (forall k | k in l.chains :: l.firsts[k] == First(g.kind, l.entries[k]))
    && Sized(g, l)
    && UniqueShort(l.entries)
  }

  ghost predicate WellFormed(g: Geometry, v: Volume, l: Layout) {
    Steady(g, v, l) && Consistent(g, l)
  }

  // ----- contents -----

  function Gather(data: seq<seq<byte>>, chain: seq<nat>): seq<byte> {
    if chain == [] then []
    else (if chain[0] < |data| then data[chain[0]] else []) + Gather(data, chain[1..])
  }

  ghost function Prefix(s: seq<byte>, n: nat): seq<byte> {
    if n <= |s| then s[..n] else s
  }

  /** The bytes of the file in slot `i`. */
  ghost function Contents(v: Volume, l: Layout, i: nat): seq<byte>
    requires i < |l.entries| && i in l.chains
  {
    Prefix(Gather(v.data, l.chains[i]), FileSize(l.entries[i]))
  }

  /** The file map: what is read under `name`; nothing when there is no such file. */
  ghost function FileMap(cs: Charset, v: Volume, l: Layout, name: Name): seq<byte>
    requires Keyed(l)
  {
    var i := Find(cs, l.entries, name);
    if i < |l.entries| then Contents(v, l, i) else []
  }

  // ----- steps that leave the files alone -----

  /** No file changed: the same entries and chains, and the same bytes in the clusters of files. */
  ghost predicate SameFiles(v: Volume, l: Layout, v': Volume, l': Layout) {
    && |v'.data| == |v.data|
    && l'.entries == l.entries && l'.firsts == l.firsts && l'.chains == l.chains
    && l.root <= l'.root
    && (forall k, x | k in l.chains && x in l.chains[k] && x < |v.data| :: v'.data[x] == v.data[x])
  }

  /** Clusters in use, other than those in `touched`, keep their table entry and their bytes. */
  ghost predicate Keeps(v: Volume, v': Volume, touched: set<nat>) {
    && |v.fats| == |v'.fats| > 0 && |v.data| == |v'.data|
    && |v'.fats[0]| == |v.fats[0]|
    && (forall c | 0 <= c < |v.fats[0]| && v.fats[0][c] != 0 && c !in touched ::
          v'.fats[0][c] == v.fats[0][c] && (c < |v.data| ==> v'.data[c] == v.data[c]))
  }

  lemma {:induction false} GatherSame(data: seq<seq<byte>>, data': seq<seq<byte>>, chain: seq<nat>)
    requires |data'| == |data|
    requires forall x | x in chain && x < |data| :: data'[x] == data[x]
    ensures Gather(data', chain) == Gather(data, chain)
  {
    if chain != [] {
      assert chain[0] in chain;
      GatherSame(data, data', chain[1..]);
    }
  }

  lemma SameFilesSameMap(cs: Charset, v: Volume, l: Layout, v': Volume, l': Layout, name: Name)
    requires Keyed(l) && SameFiles(v, l, v', l')
    ensures Keyed(l') && FileMap(cs, v', l', name) == FileMap(cs, v, l, name)
  {
    var i := Find(cs, l.entries, name);
    if i < |l.entries| {
      GatherSame(v.data, v'.data, l.chains[i]);
    }
  }
}
