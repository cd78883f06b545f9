/** The FAT code: table access, allocation, directory scanning, and reading and writing root-level files. */
module FatPartitions {
  import opened Arith
  import opened Bytes
  import opened Options
  import opened Partitions
  import opened FatCodec
  import opened Volumes
  import opened FatTables
  import opened Chains
  import opened ChainWalks
  import opened FsInfos
  import opened Names
  import opened Directories
  import opened Layouts
  import opened DirSteps
  import opened FileSteps
  import opened WriteSteps
  import opened HiddenSteps
  import opened Paths

  class FatPartition {
    const cs: Charset
    const g: Geometry
    const part: Partition
    var currentRootDirCluster: nat
    var currentDirClusters: seq<nat>
    /** The image of the partition as its parts. */
    ghost var vol: Volume
    /** Directory and chains of a well-formed volume. */
    ghost var lay: Layout

    ghost predicate Valid()
      reads this`vol, part, part.dw, part.dw.file
    {
      part.Valid() && Sane(g, part.partLen) && vol == Abs(g, part.image)
    }

    constructor (cs: Charset, g: Geometry, part: Partition)
      requires part.Valid() && Sane(g, part.partLen)
      ensures Valid() && fresh(this) && this.cs == cs && this.g == g && this.part == part
    {
      this.cs, this.g, this.part := cs, g, part;
      currentRootDirCluster, currentDirClusters := 0, [];
      vol := Abs(g, part.image);
      lay := Layout([], [], map[], map[]);
    }

    // ----- the cursor, inherited from the partition -----

    function Pos(): int
      reads part
    {
      part.Pos()
    }

    ghost function Image(): seq<byte>
      reads part`image
    {
      part.image
    }

    lemma Facts()
      requires Valid()
      ensures |Image()| == part.partLen && Sane(g, part.partLen) && vol == Abs(g, Image())
      ensures InfoFits(g, vol) && Shaped(g, vol)
      ensures 0 <= Pos() <= part.partLen
    {
      AbsShaped(g, part.image);
      AbsInfoFits(g, part.image);
      hide Sane, Abs, Shaped, InfoFits;
    }

    method Seek(pos: int) returns (ok: bool)
      requires Valid()
      modifies part`offset
      ensures Valid()
      ensures ok == (0 <= pos <= part.partLen)
      ensures Pos() == if ok then pos else old(Pos())
    {
      ok := part.Seek(pos);
    }

    method Read(size: nat) returns (ok: bool, data: seq<byte>)
      requires Valid()
      modifies part`offset, part.dw`cache, part.dw.file`pos
      ensures Valid() && |Image()| == part.partLen
      ensures ok ==> 0 <= old(Pos()) && Pos() == old(Pos()) + size <= part.partLen
                     && data == Image()[old(Pos())..old(Pos()) + size]
      ensures !ok ==> Pos() == old(Pos())
      ensures part.Dependable() && old(Pos()) + size <= part.partLen ==> ok
    {
      ok, data := part.Read(size);
    }

    method Write(data: seq<byte>) returns (ok: bool)
      requires Valid()
      modifies this`vol, part, part.dw, part.dw.file`pos
      ensures Valid() && |Image()| == |old(Image())| == part.partLen
      ensures ok ==> 0 <= old(Pos()) && Pos() == old(Pos()) + |data| <= part.partLen
                     && Image() == Splice(old(Image()), old(Pos()), data)
      ensures !ok ==> Image() == old(Image()) && vol == old(vol)
      ensures part.Dependable() && old(Pos()) + |data| <= part.partLen ==> ok
    {
      ok := part.Write(data);
      vol := Abs(g, part.image);
    }

    // ----- the table -----

    method GetFat(cluster: nat) returns (ok: bool, v: nat)
      requires Valid() && |g.fatStarts| > 0
      modifies part`offset, part.dw`cache, part.dw.file`pos
      ensures Valid() && |Image()| == part.partLen
      ensures ok ==> EntryInRange(g.kind, g, part.partLen, 0, cluster) && v == Link(g, Image(), cluster)
      ensures part.Dependable() && EntryInRange(g.kind, g, part.partLen, 0, cluster) ==> ok
    {
      Facts();
      hide Valid;
      var pos := EntryPos(g.kind, g, 0, cluster);
      v := 0;
      ok := Seek(pos);
      if ok {
        var b;
        ok, b := Read(EntryWidth(g.kind));
        if ok {
          v := Decode(g.kind, cluster, b);
        }
      }
    }

    /** One step of `setFAT16`: the entry of one copy, written without reading the old one. */
    method SetCopy16(m: nat, cluster: nat, value: nat) returns (ok: bool)
      requires Valid() && m < |g.fatStarts|
      modifies this`vol, part, part.dw, part.dw.file`pos
      ensures Valid() && |Image()| == |old(Image())| == part.partLen
      ensures ok ==> EntryInRange(FAT16, g, part.partLen, m, cluster)
                     && Image() == SetEntry(FAT16, g, old(Image()), m, cluster, value)
      ensures part.Dependable() && EntryInRange(FAT16, g, part.partLen, m, cluster) ==> ok
    {
      Facts();
      hide Valid, EntryPos;
      ok := Seek(EntryPos(FAT16, g, m, cluster));
      if ok {
        ok := Write(Encode(FAT16, cluster, [0, 0], value));
      }
    }

    /** One step of `setFAT12` and `setFAT32`: the entry of one copy, merged with what its bytes held. */
    method SetCopyMerged(kind: FatKind, m: nat, cluster: nat, value: nat) returns (ok: bool, carried: nat)
      requires Valid() && m < |g.fatStarts| && !kind.FAT16?
      modifies this`vol, part, part.dw, part.dw.file`pos
      ensures Valid() && |Image()| == |old(Image())| == part.partLen
      ensures ok ==> EntryInRange(kind, g, part.partLen, m, cluster)
                     && carried == Carry(kind, g, old(Image()), m, cluster, value)
                     && Image() == SetEntry(kind, g, old(Image()), m, cluster, value)
      ensures part.Dependable() && EntryInRange(kind, g, part.partLen, m, cluster) ==> ok
    {
      hide *;
      Facts();
      SetEntryDef(kind, g, Image(), m, cluster, value);
      var pos := EntryPos(kind, g, m, cluster);
      carried := value;
      ok := Seek(pos);
      if !ok {
        return;
      }
      var b;
      ok, b := Read(EntryWidth(kind));
      if !ok {
        return;
      }
      if kind.FAT32? {
        carried := WithReserved(value, Le32(b, 0));
      }
      ok := Seek(pos);
      ok := Write(Encode(kind, cluster, b, value));
    }

    /** `setFAT12`, `setFAT16` and `setFAT32`: the entry of every copy. */
    method SetFatAs(kind: FatKind, cluster: nat, value: nat) returns (ok: bool)
      requires Valid()
      modifies this`vol, part, part.dw, part.dw.file`pos
      ensures Valid() && |Image()| == |old(Image())| == part.partLen
      ensures ok ==> RangeFrom(kind, g, part.partLen, 0, cluster)
                     && Image() == SetFrom(kind, g, old(Image()), 0, cluster, value)
      ensures part.Dependable() && RangeFrom(kind, g, part.partLen, 0, cluster) ==> ok
    {
      hide *;
      Facts();
      ghost var image0 := Image();
      var m, v := 0, value;
      while m < |g.fatStarts|
        invariant 0 <= m <= |g.fatStarts| && Valid() && |image0| == |Image()| == part.partLen
        invariant RangeFrom(kind, g, part.partLen, m, cluster) <==> RangeFrom(kind, g, part.partLen, 0, cluster)
        invariant RangeFrom(kind, g, part.partLen, m, cluster) ==>
          SetFrom(kind, g, image0, 0, cluster, value) == SetFrom(kind, g, Image(), m, cluster, v)
      {
        SetFromDef(kind, g, Image(), m, cluster, v);
        if kind.FAT16? {
          ok := SetCopy16(m, cluster, v);
        } else {
          ok, v := SetCopyMerged(kind, m, cluster, v);
        }
        if !ok {
          return;
        }
        m := m + 1;
      }
      SetFromDef(kind, g, Image(), m, cluster, v);
      return true;
    }

    /** Numbers that have an entry and fit the parameter type of the setter. */
    predicate HasEntry(cluster: nat)
      requires g.bytesPerSector > 0
    {
      cluster < Entries(g) && (g.kind.FAT16? ==> cluster < TWO16)
    }

    method SetFat(cluster: nat, value: nat) returns (ok: bool)
      requires Valid() && HasEntry(cluster)
      modifies this`vol, part, part.dw, part.dw.file`pos
      ensures Valid() && forall n | 0 <= n < |old(vol).fats| :: cluster < |old(vol).fats[n]|
      ensures ok ==> vol == WithEntry(old(vol), cluster, Mask(g.kind, value))
      ensures part.Dependable() ==> ok
    {
      Facts();
      var v := if g.kind.FAT32? then value else value % TWO16;
      EntriesWritten(g, Image(), 0, cluster, v);
      MaskTruncates(g.kind, value);
      hide Valid, Sane, Abs, Mask, Entries;
      ok := SetFatAs(g.kind, cluster, v);
      Facts();
    }

    /**
     * The chain that starts with `first`: a duplicate-free list linked by table entries up to an end mark. It is an
     * error exactly when there is no such list, because the links come back to a cluster or leave the partition.
     */
    method GetClusterChain(first: nat) returns (ok: bool, list: seq<nat>)
      requires Valid() && |g.fatStarts| > 0
      modifies part`offset, part.dw`cache, part.dw.file`pos
      ensures Valid() && |Image()| == part.partLen
      ensures ok ==> Walk(g, Image(), first, list)
      ensures part.Dependable() ==> (ok <==> exists whole :: Walk(g, Image(), first, whole))
    {
      Facts();
      hide Valid, Link, EntryInRange, EofMin;
      list := [];
      var cluster := first;
      while true
        invariant Valid() && |Image()| == part.partLen
        invariant Partial(g, Image(), first, list, cluster)
        decreases EofMin(g.kind) - |list|
      {
        if IsEof(g.kind, cluster) {
          return true, list;
        }
        if cluster in list {
          CircularHasNoWalk(g, Image(), first, list, cluster);
          return false, [];
        }
        var next;
        ok, next := GetFat(cluster);
        if !ok {
          if part.Dependable() {
            CircularHasNoWalk(g, Image(), first, list, cluster);
          }
          return false, [];
        }
        PartialStep(g, Image(), first, list, cluster);
        list, cluster := list + [cluster], next;
        Pigeonhole(list, EofMin(g.kind));
      }
    }

    /** Seeks to a cluster; the offset is computed in 32 bits. */
    method SeekCluster(cluster: nat) returns (ok: bool)
      requires Valid()
      modifies part`offset
      ensures Valid()
      ensures ok == (SeekTarget(g, cluster) <= part.partLen)
      ensures ok ==> Pos() == SeekTarget(g, cluster)
    {
      ok := Seek(SeekTarget(g, cluster));
    }

    /** Adds to the free count, if it is known, and sets the allocation hint; throws when a signature is wrong. */
    method UpdateFsInfo(delta: int, hint: nat) returns (ok: bool)
      requires Valid()
      modifies this`vol, part, part.dw, part.dw.file`pos
      ensures Valid() && InfoFits(g, old(vol))
      ensures ok ==> vol == WithInfo(g, old(vol), delta, hint)
      ensures part.Dependable() && InfoUsable(g, old(vol)) ==> ok
    {
      Facts();
      if g.fsInfoSector == 0 {
        return true;
      }
      var pos := g.fsInfoSector * g.bytesPerSector;
      assert Image()[..g.fatStarts[0]][pos..pos + 512] == Image()[pos..pos + 512];
      assert InfoOf(g, vol) == Image()[pos..pos + 512];
      hide Valid, Signed, NewInfo;
      ok := Seek(pos);
      var info;
      ok, info := Read(512);
      if !ok {
        return;
      }
      if !Signed(info) {
        return false;
      }
      ok := Seek(pos);
      HeadWritten(g, Image(), pos, NewInfo(info, delta, hint));
      ok := Write(NewInfo(info, delta, hint));
      Facts();
    }

    /** Reads sector `i` of the first copy and looks for its first free entry. */
    method ScanSector(i: nat) returns (ok: bool, j: nat)
      requires Valid() && !g.kind.FAT12? && i < g.fatSize && Pos() == SectorPos(g, i)
      modifies part`offset, part.dw`cache, part.dw.file`pos
      ensures Valid() && |vol.fats| > 0 && j <= PerSector(g)
      ensures ok ==> Pos() == SectorPos(g, i) + g.bytesPerSector && SectorBase(g, i) + PerSector(g) <= |vol.fats[0]|
      ensures ok ==> forall c | SectorBase(g, i) <= c < SectorBase(g, i) + j :: vol.fats[0][c] != 0
      ensures ok && j < PerSector(g) ==> vol.fats[0][SectorBase(g, i) + j] == 0
      ensures part.Dependable() ==> ok
    {
      Facts();
      SectorEntries(g, Image(), i);
      hide Valid, Abs, Decode, Entries, Sane, PerSector, SectorPos, SectorBase, EntryWidth;
      j := 0;
      var sector;
      ok, sector := Read(g.bytesPerSector);
      if !ok {
        return;
      }
      while j < PerSector(g)
        invariant 0 <= j <= PerSector(g)
        invariant forall c | SectorBase(g, i) <= c < SectorBase(g, i) + j :: vol.fats[0][c] != 0
      {
        assert EntryOf(g.kind, sector, j) == vol.fats[0][SectorBase(g, i) + j];
        if EntryOf(g.kind, sector, j) == 0 {
          return;
        }
        j := j + 1;
      }
    }

    lemma TableSizes()
      requires Valid()
      ensures |vol.fats| > 0 && |g.fatStarts| > 0 && 0 <= g.fatStarts[0] <= part.partLen
      ensures !g.kind.FAT12? ==>
        && |vol.fats[0]| == SectorBase(g, g.fatSize)
        && SectorPos(g, 0) == g.fatStarts[0] && SectorBase(g, 0) == 0
      ensures g.kind.FAT12? ==> |vol.fats[0]| == g.countOfClusters + 2
    {
      Facts();
      if !g.kind.FAT12? {
        SectorSizes(g, part.partLen);
        SectorSteps(g, 0);
      }
      hide Abs, SectorBase, SectorPos, Shaped;
      assert |vol.fats[0]| == Entries(g);
    }

    lemma LinkAt(cluster: nat)
      requires Valid() && |vol.fats| > 0 && cluster < |vol.fats[0]|
      ensures |g.fatStarts| > 0 && EntryInRange(g.kind, g, part.partLen, 0, cluster)
      ensures |Image()| == part.partLen && Link(g, Image(), cluster) == vol.fats[0][cluster]
    {
      Facts();
      LinkIsEntry(g, Image(), cluster);
    }

    /** The scan of `allocateCluster` on FAT16 and FAT32: sector by sector, over the whole first copy. */
    method ScanSectors() returns (ok: bool, found: bool, cluster: nat)
      requires Valid() && !g.kind.FAT12?
      modifies part`offset, part.dw`cache, part.dw.file`pos
      ensures Valid() && |vol.fats| > 0
      ensures ok && found ==> ScanStops(g.kind, vol.fats[0], cluster)
      ensures ok && !found ==> !CanStop(g.kind, vol.fats[0])
      ensures part.Dependable() ==> ok
    {
      hide *;
      TableSizes();
      ghost var fat := vol.fats[0];
      found, cluster := false, 0;
      ok := Seek(g.fatStarts[0]);
      var i, base := 0, 0;
      while i < g.fatSize
        invariant 0 <= i <= g.fatSize && Valid()
        invariant base == SectorBase(g, i) && Pos() == SectorPos(g, i)
        invariant forall c | 0 <= c < base && c < |fat| :: fat[c] != 0
      {
        var j;
        ok, j := ScanSector(i);
        if !ok {
          return;
        }
        if j < PerSector(g) {
          ScanStopsIs(g.kind, fat, base + j);
          return true, true, base + j;
        }
        SectorSteps(g, i);
        base, i := base + PerSector(g), i + 1;
      }
      ScanFails(g.kind, fat);
      return true, false, 0;
    }

    /** The scan of `allocateCluster` on FAT12: entry by entry over the clusters the volume has. */
    method ScanEntries() returns (ok: bool, found: bool, cluster: nat)
      requires Valid() && g.kind.FAT12?
      modifies part`offset, part.dw`cache, part.dw.file`pos
      ensures Valid() && |vol.fats| > 0
      ensures ok && found ==> ScanStops(g.kind, vol.fats[0], cluster)
      ensures ok && !found ==> !CanStop(g.kind, vol.fats[0])
      ensures part.Dependable() ==> ok
    {
      hide *;
      TableSizes();
      found, cluster := false, 2;
      while cluster < g.countOfClusters + 2
        invariant 2 <= cluster <= g.countOfClusters + 2 && Valid()
        invariant forall c | 2 <= c < cluster :: vol.fats[0][c] != 0
      {
        LinkAt(cluster);
        var v;
        ok, v := GetFat(cluster);
        if !ok {
          return;
        }
        if v == 0 {
          ScanStopsIs(g.kind, vol.fats[0], cluster);
          found := true;
          return;
        }
        cluster := cluster + 1;
      }
      ScanFails(g.kind, vol.fats[0]);
      return true, false, cluster;
    }

    /**
     * First-fit allocation: the first free entry becomes an end mark, and on FAT32 the free count goes down by one. On
     * FAT16 an entry with a number of more than 16 bits is returned, and another one is set.
     */
    method AllocateCluster() returns (ok: bool, cluster: nat)
      requires Valid()
      modifies this`vol, part, part.dw, part.dw.file`pos
      ensures Valid() && InfoFits(g, old(vol)) && |old(vol).fats| > 0
      ensures forall n | 0 <= n < |old(vol).fats| :: |old(vol).fats[n]| == |old(vol).fats[0]|
      ensures ok ==> ScanStops(g.kind, old(vol).fats[0], cluster)
                     && vol == Allocated(g, old(vol), Narrow(g.kind, cluster))
      ensures part.Dependable() && InfoUsable(g, old(vol)) ==> (ok <==> CanStop(g.kind, old(vol).fats[0]))
    {
      hide *;
      Facts();
      TableSizes();
      SameSizes();
      ghost var v := vol;
      var found;
      if g.kind.FAT12? {
        ok, found, cluster := ScanEntries();
      } else {
        ok, found, cluster := ScanSectors();
      }
      if !ok || !found {
        return false, 0;
      }
      ScanStopsHas(g.kind, v.fats[0], cluster);
      Settable(cluster);
      EndMarkIs(g.kind);
      ok := SetFat(Narrow(g.kind, cluster), EofMark(g.kind));
      AllocatedIs(v, cluster);
      if ok && g.kind.FAT32? {
        ok := UpdateFsInfo(-1, cluster);
      }
    }

    lemma SameSizes()
      requires Valid()
      ensures |vol.fats| > 0 && forall n | 0 <= n < |vol.fats| :: |vol.fats[n]| == |vol.fats[0]|
    {
      Facts();
      hide Valid, Sane, Abs, Entries;
    }

    lemma Settable(cluster: nat)
      requires Valid() && |vol.fats| > 0 && cluster < |vol.fats[0]|
      ensures g.bytesPerSector > 0 && HasEntry(Narrow(g.kind, cluster))
    {
      Facts();
      hide Valid, Sane, Abs, Entries, Narrow;
    }

    lemma AllocatedIs(v: Volume, cluster: nat)
      requires Sane(g, part.partLen) && InfoFits(g, v)
      requires forall n | 0 <= n < |v.fats| :: cluster < |v.fats[n]|
      ensures var n := Narrow(g.kind, cluster);
        Allocated(g, v, n) == if g.kind.FAT32? then WithInfo(g, WithEntry(v, cluster, EofMark(g.kind)), -1, cluster)
                              else WithEntry(v, n, EofMark(g.kind))
      ensures InfoUsable(g, v) ==> InfoUsable(g, WithEntry(v, Narrow(g.kind, cluster), EofMark(g.kind)))
      ensures g.kind.FAT32? ==> Narrow(g.kind, cluster) == cluster
    {
      hide Signed, Entries, FatBytes, EntryOffset, EntryWidth;
    }

    /**
     * Allocates a cluster and links it behind `previous`, unless that is zero. On a volume whose free entries can all
     * be allocated, this is the first free entry of the table, and no number is truncated.
     */
    method AllocateClusterAfter(previous: nat) returns (ok: bool, cluster: nat)
      requires Valid() && (previous != 0 ==> HasEntry(previous))
      modifies this`vol, part, part.dw, part.dw.file`pos
      ensures Valid() && InfoFits(g, old(vol)) && |old(vol).fats| > 0
      ensures ok ==> ScanStops(g.kind, old(vol).fats[0], cluster)
                     && (forall n | 0 <= n < |old(vol).fats| ::
                           cluster < |old(vol).fats[n]| && previous < |old(vol).fats[n]|)
                     && var w := Allocated(g, old(vol), Narrow(g.kind, cluster));
                        vol == if previous == 0 then w else WithEntry(w, previous, Mask(g.kind, cluster))
      ensures ok && FreeAddressable(g, old(vol).fats[0]) ==>
        FirstFree(old(vol).fats[0], cluster) && vol == AllocatedAfter(g, old(vol), previous, cluster)
      ensures part.Dependable() && InfoUsable(g, old(vol)) ==> (ok <==> CanStop(g.kind, old(vol).fats[0]))
      ensures FreeAddressable(g, old(vol).fats[0]) && HasFree(old(vol).fats[0]) ==> CanStop(g.kind, old(vol).fats[0])
    {
      hide *;
      Facts();
      SameSizes();
      ghost var v := vol;
      if FreeAddressable(g, v.fats[0]) {
        ScanIsFirstFree(g, v.fats[0]);
      }
      PreviousInside(previous);
      ok, cluster := AllocateCluster();
      if ok {
        ScanStopsHas(g.kind, v.fats[0], cluster);
        if FreeAddressable(g, v.fats[0]) {
          AllocatedAfterIs(g, v, previous, cluster);
        }
      }
      if ok && previous != 0 {
        ok := SetFat(previous, cluster);
      }
    }

    lemma PreviousInside(previous: nat)
      requires Valid() && |vol.fats| > 0 && (previous != 0 ==> HasEntry(previous))
      ensures previous != 0 ==> previous < |vol.fats[0]|
    {
      Facts();
      hide Valid, Sane, Abs, Entries;
    }

    // ----- the root directory -----

    /** The cursor is in front of slot `i` of the directory. */
    ghost predicate AtSlot(i: nat)
      reads this`lay, this`currentRootDirCluster, this`currentDirClusters, part
    {
      if g.kind.FAT32? then
        && g.bytesPerCluster >= 32 && g.bytesPerCluster % 32 == 0
        && i < |lay.root| * SlotsPerCluster(g) && i / SlotsPerCluster(g) < |lay.root|
        && Pos() == SlotPos(g, lay.root, i)
        && currentRootDirCluster == lay.root[i / SlotsPerCluster(g)]
        && currentDirClusters == lay.root[..i / SlotsPerCluster(g) + 1]
      else Pos() == SlotPos(g, lay.root, i)
    }

    /** The directory has an end marker, so that reading it allocates nothing. */
    ghost predicate Marked()
      reads this`vol, this`lay
    {
      |lay.entries| < SlotCount(g, vol, lay.root)
    }

    lemma MarkedIs()
      ensures Marked() <==> |lay.entries| < SlotCount(g, vol, lay.root)
    {
    }

    /** Direct assignment of a position that the cursor had before. */
    method Restore(pos: nat)
      requires Valid() && pos <= part.partLen
      modifies part`offset
      ensures Valid() && Pos() == pos
    {
      part.offset := part.partStart + pos;
    }

    /** Seeks to a cluster and fills it with zeroes. */
    method ClearCluster(cluster: nat) returns (ok: bool)
      requires Valid() && 2 <= cluster && (Addressable(g, cluster) || cluster < |vol.data|)
      modifies this`vol, part, part.dw, part.dw.file`pos
      ensures Valid()
      ensures ok ==> cluster < |old(vol).data| && vol == WithCluster(old(vol), cluster, Zeroes(g.bytesPerCluster))
      ensures part.Dependable() && cluster < |old(vol).data| ==> ok
    {
      hide *;
      Facts();
      ClusterSeek(cluster);
      ghost var image0, v := Image(), vol;
      var zeroes := Zeroes(g.bytesPerCluster);
      ok := SeekCluster(cluster);
      if !ok {
        return;
      }
      ok := Write(zeroes);
      if ok {
        Facts();
        FitsInside(g, part.partLen, cluster);
        DataWritten(g, image0, cluster, 0, zeroes);
        ClusterIs(cluster, v);
        SpliceAll(v.data[cluster], zeroes);
        WithClusterIs(v, cluster, zeroes);
      }
    }

    /** The seek to a cluster goes where the cluster is. */
    lemma ClusterSeek(cluster: nat)
      requires Valid() && 2 <= cluster && (Addressable(g, cluster) || cluster < |vol.data|)
      ensures SeekTarget(g, cluster) == ClusterPos(g, cluster) >= 0 && |vol.data| == ClusterLimit(g, part.partLen)
      ensures cluster < |vol.data| ==> ClusterPos(g, cluster) + g.bytesPerCluster <= part.partLen
    {
      Facts();
      if cluster < |vol.data| {
        InsideAddressable(g, part.partLen, cluster);
      } else {
        AddressableFits(g, cluster);
      }
      hide Addressable, SeekTarget, ClusterPos;
    }

    lemma ClusterIs(cluster: nat, v: Volume)
      requires Valid() && Shaped(g, v) && 2 <= cluster < |v.data|
      ensures |v.data[cluster]| == g.bytesPerCluster
    {
    }

    method OpenDir() returns (ok: bool)
      requires Valid() && Sound(g, vol, lay)
      modifies this`currentRootDirCluster, this`currentDirClusters, part`offset
      ensures Valid()
      ensures ok ==> AtSlot(0)
      ensures part.Dependable() ==> ok
    {
      Facts();
      hide Valid;
      if !g.kind.FAT32? {
        ok := Seek(g.rootStart);
      } else {
        RootInTable(g, vol, lay);
        assert AllFirsts(g, lay)[ROOT] == g.rootCluster && AllChains(lay)[ROOT] == lay.root;
        assert lay.root[0] == g.rootCluster;
        InsideAddressable(g, part.partLen, g.rootCluster);
        MulLe(1, |lay.root|, SlotsPerCluster(g));
        hide Sound, Addressable, RootInside, ClusterPos;
        currentRootDirCluster := g.rootCluster;
        ok := SeekCluster(currentRootDirCluster);
        currentDirClusters := [currentRootDirCluster];
      }
    }

    /** The link of a directory cluster, and what allocating behind it needs. */
    lemma DirLink(q: nat)
      requires Valid() && g.kind.FAT32? && Sound(g, vol, lay) && q < |lay.root|
      ensures InfoFits(g, vol) && |vol.fats| > 0 && FreeAddressable(g, vol.fats[0]) && g.bytesPerSector > 0
      ensures HasEntry(lay.root[q]) && |g.fatStarts| > 0 && lay.root[q] != 0
      ensures EntryInRange(g.kind, g, part.partLen, 0, lay.root[q]) && |Image()| == part.partLen
      ensures q + 1 < |lay.root| ==>
        && Link(g, Image(), lay.root[q]) == lay.root[q + 1] && !IsEof(g.kind, lay.root[q + 1])
        && lay.root[q + 1] !in lay.root[..q + 1] && 2 <= lay.root[q + 1] < |vol.data|
      ensures q + 1 == |lay.root| ==> IsEof(g.kind, Link(g, Image(), lay.root[q])) && lay.root[..q + 1] == lay.root
    {
      Facts();
      RootLink(g, Image(), lay, q);
      RootInTable(g, vol, lay);
      assert InTable(g.kind, vol.fats[0], lay.root[q]);
      hide Valid, Sane, Abs, Link, EntryInRange, RootInside, FreeAddressable, Addressable, InTable, InfoFits, Family,
           IsEof;
    }

    /** A free cluster is addressable and not one of the directory. */
    lemma DirFresh(v: Volume, c: nat)
      requires Sound(g, v, lay) && FirstFree(v.fats[0], c)
      ensures Addressable(g, c) && 2 <= c && c !in lay.root
    {
      FreeIsAddressable(g, v.fats[0], c);
      FreshCluster(g, v, lay, c);
    }

    /** Seeks to the directory cluster at position `q`, which has been entered already. */
    method SeekDirCluster(ghost q: nat) returns (ok: bool)
      requires Valid() && g.kind.FAT32? && Sound(g, vol, lay) && q < |lay.root|
      requires currentRootDirCluster == lay.root[q] && currentDirClusters == lay.root[..q + 1]
      modifies part`offset
      ensures Valid()
      ensures ok ==> AtSlot(q * SlotsPerCluster(g))
      ensures part.Dependable() ==> ok
    {
      Facts();
      RootInTable(g, vol, lay);
      InsideAddressable(g, part.partLen, currentRootDirCluster);
      MulLe(q + 1, |lay.root|, SlotsPerCluster(g));
      MulStep(q, SlotsPerCluster(g));
      DivModUnique(q, 0, SlotsPerCluster(g));
      hide Valid, Sound, Addressable, RootInside, ClusterPos;
      ok := SeekCluster(currentRootDirCluster);
    }

    /** Steps from the directory cluster at position `q` of the chain to the next one. */
    method EnterCluster(next: nat, ghost q: nat) returns (ok: bool)
      requires Valid() && g.kind.FAT32? && Sound(g, vol, lay)
      requires q + 1 < |lay.root| && next == lay.root[q + 1] && currentDirClusters == lay.root[..q + 1]
      modifies this`currentRootDirCluster, this`currentDirClusters, part`offset
      ensures Valid()
      ensures ok ==> AtSlot((q + 1) * SlotsPerCluster(g))
      ensures part.Dependable() ==> ok
    {
      hide *;
      DirLink(q);
      if next in currentDirClusters {
        assert false; // the circular reference error: a sound chain has none
      }
      currentDirClusters := currentDirClusters + [next];
      currentRootDirCluster := next;
      ok := SeekDirCluster(q + 1);
    }

    /** Links a free cluster behind the last directory cluster and clears it, for a directory without an end marker. */
    method AddEmptyCluster() returns (ok: bool, next: nat)
      requires Valid() && g.kind.FAT32? && Steady(g, vol, lay) && |lay.entries| == SlotCount(g, vol, lay.root)
      requires currentRootDirCluster == lay.root[|lay.root| - 1]
      modifies this`vol, this`lay, part, part.dw, part.dw.file`pos
      ensures Valid()
      ensures ok ==> Steady(g, vol, lay) && DirGrown(g, old(vol), old(lay), vol, lay)
                     && lay == old(lay).(root := old(lay.root) + [next])
    {
      hide *;
      ghost var v, l := vol, lay;
      SteadyIsSound(g, v, l);
      RootNotEmpty(g, v, l);
      DirLink(|l.root| - 1);
      ok, next := AllocateClusterAfter(currentRootDirCluster);
      if !ok {
        return;
      }
      DirFresh(v, next);
      ok := ClearCluster(next);
      if !ok {
        return;
      }
      RootGrowSteady(g, v, l, next);
      RootGrowStep(g, v, l, next);
      RootExtendedIs(g, v, l.root, next);
      lay := lay.(root := lay.root + [next]);
    }

    /** The end of `readDir` on FAT32: a read that ended a cluster moves on, adding a cluster when there is none. */
    method ReadPastCluster(ghost i: nat) returns (ok: bool)
      requires SlotsPerCluster(g) > 0 && (i + 1) % SlotsPerCluster(g) == 0 && i / SlotsPerCluster(g) < |lay.root|
      requires currentRootDirCluster == lay.root[i / SlotsPerCluster(g)]
      requires currentDirClusters == lay.root[..i / SlotsPerCluster(g) + 1]
      requires Valid() && g.kind.FAT32? && Steady(g, vol, lay) && i < |lay.entries|
      modifies this, part, part.dw, part.dw.file`pos
      ensures Valid()
      ensures ok ==> Steady(g, vol, lay) && DirGrown(g, old(vol), old(lay), vol, lay) && AtSlot(i + 1)
      ensures ok ==> lay.entries == old(lay.entries)
      ensures old(Marked()) ==> vol == old(vol) && lay == old(lay) && (part.Dependable() ==> ok)
    {
      hide *;
      ghost var q := i / SlotsPerCluster(g);
      SteadyIsSound(g, vol, lay);
      DirLink(q);
      DirGrownSelf(g, vol, lay);
      FullAtEnd(g, vol, lay, i);
      MarkedIs();
      var next;
      ok, next := GetFat(currentRootDirCluster);
      if !ok {
        return;
      }
      if IsEof(g.kind, next) {
        ok, next := AddEmptyCluster();
        if !ok {
          return;
        }
        SteadyIsSound(g, vol, lay);
      }
      ok := EnterCluster(next, q);
    }

    /**
     * Reads the entry in slot `i` and moves on; at the end marker the cursor stays. At the end of a FAT32 directory
     * that has no end marker, a cleared cluster is added.
     */
    method ReadDir(ghost i: nat) returns (ok: bool, more: bool, entry: Entry)
      requires Valid() && Steady(g, vol, lay) && i <= |lay.entries| && AtSlot(i)
      modifies this, part, part.dw, part.dw.file`pos
      ensures Valid()
      ensures ok ==> Scanned(g, old(vol), old(lay), vol, lay) && lay.entries == old(lay.entries)
      ensures ok ==> more == (i < |lay.entries|) && AtSlot(if more then i + 1 else i)
      ensures ok && more ==> entry == lay.entries[i]
      ensures old(Marked()) && part.Dependable() ==> ok
    {
      hide *;
      entry, more := END, true;
      ReadingSlot(i);
      AtSlotParts(i);
      ghost var v, l := vol, lay;
      var oldOffset := Pos();
      if i < SlotCount(g, vol, lay.root) {
        ShowsInside(Image(), oldOffset, lay.entries, i);
      }
      ok, entry := ReadEntry();
      if !ok {
        return;
      }
      if i < SlotCount(g, vol, lay.root) {
        ShowsEntry(Image(), oldOffset, lay.entries, i, entry);
      }
      if entry[0] == 0 {
        Restore(oldOffset);
        AtSlotIs(i);
        more := false;
        return;
      }
      if g.kind.FAT32? {
        SlotNext(g, lay.root, i);
        if (Pos() - g.clusterOffset) % g.bytesPerCluster == 0 {
          ok := ReadPastCluster(i);
          if ok {
            ReadingDone(v, l);
          }
        } else {
          AtSlotIs(i + 1);
        }
        return;
      }
      SlotNextFixed(g, lay.root, i);
      if Pos() > g.rootEnd {
        ok := false;
      } else {
        AtSlotIs(i + 1);
      }
    }

    /** What the cursor in front of slot `i` will read. */
    lemma ReadingSlot(i: nat)
      requires Valid() && Steady(g, vol, lay) && i <= |lay.entries| && AtSlot(i)
      ensures |Image()| == part.partLen && InfoFits(g, vol) && Scanned(g, vol, lay, vol, lay)
      ensures Marked() <==> |lay.entries| < SlotCount(g, vol, lay.root)
      ensures 0 <= Pos() <= part.partLen && |lay.entries| <= SlotCount(g, vol, lay.root)
      ensures i < SlotCount(g, vol, lay.root) ==> Shows(Image(), Pos(), lay.entries, i)
      ensures g.kind.FAT32? ==> i < SlotCount(g, vol, lay.root)
      ensures !g.kind.FAT32? ==>
        g.rootEnd <= part.partLen && (i < SlotCount(g, vol, lay.root) <==> Pos() + 32 <= g.rootEnd)
    {
      Facts();
      ScannedSelf(g, vol, lay);
      SlotToRead(g, Image(), lay, i);
      RootEnds(g, part.partLen);
      hide Valid, Sane, Abs, Sound, DirGrown, SlotAt, SlotPos, InfoFits, Shaped;
    }

    lemma AtSlotParts(i: nat)
      requires AtSlot(i)
      ensures g.kind.FAT32? ==>
        && g.bytesPerCluster >= 32 && g.bytesPerCluster % 32 == 0 && i < |lay.root| * SlotsPerCluster(g)
        && i / SlotsPerCluster(g) < |lay.root| && currentRootDirCluster == lay.root[i / SlotsPerCluster(g)]
        && currentDirClusters == lay.root[..i / SlotsPerCluster(g) + 1]
      ensures Pos() == SlotPos(g, lay.root, i)
    {
    }

    lemma AtSlotIs(i: nat)
      requires g.kind.FAT32? ==>
        && g.bytesPerCluster >= 32 && g.bytesPerCluster % 32 == 0 && i < |lay.root| * SlotsPerCluster(g)
        && i / SlotsPerCluster(g) < |lay.root| && currentRootDirCluster == lay.root[i / SlotsPerCluster(g)]
        && currentDirClusters == lay.root[..i / SlotsPerCluster(g) + 1]
      requires Pos() == SlotPos(g, lay.root, i)
      ensures AtSlot(i)
    {
    }

    lemma ReadingDone(v: Volume, l: Layout)
      requires Steady(g, vol, lay) && DirGrown(g, v, l, vol, lay)
      requires |l.entries| < SlotCount(g, v, l.root) ==> vol == v && lay == l
      ensures Scanned(g, v, l, vol, lay)
    {
    }

    method ReadEntry() returns (ok: bool, entry: Entry)
      requires Valid()
      modifies part`offset, part.dw`cache, part.dw.file`pos
      ensures Valid() && |Image()| == part.partLen
      ensures ok ==> 0 <= old(Pos()) && Pos() == old(Pos()) + 32 <= part.partLen
                     && entry == Image()[old(Pos())..old(Pos()) + 32]
      ensures part.Dependable() && old(Pos()) + 32 <= part.partLen ==> ok
    {
      Facts();
      var data;
      ok, data := Read(32);
      entry := if ok then data else Zeroes(32);
    }

    /** A scan that started on the volume `v` with directory `l` is in front of slot `i`. */
    ghost predicate Scanning(v: Volume, l: Layout, i: nat)
      reads this, part, part.dw, part.dw.file
    {
      Valid() && Scanned(g, v, l, vol, lay) && i <= |l.entries| && AtSlot(i)
    }

    method BeginScan(ghost v: Volume, ghost l: Layout) returns (ok: bool)
      requires Valid() && Scanned(g, v, l, vol, lay)
      modifies this`currentRootDirCluster, this`currentDirClusters, part`offset
      ensures Valid()
      ensures ok ==> Scanning(v, l, 0)
      ensures part.Dependable() ==> ok
    {
      SteadyIsSound(g, vol, lay);
      hide Valid, Steady, Scanned, Sound, AtSlot;
      ok := OpenDir();
    }

    method NextEntry(ghost v: Volume, ghost l: Layout, ghost i: nat) returns (ok: bool, more: bool, entry: Entry)
      requires Scanning(v, l, i)
      modifies this, part, part.dw, part.dw.file`pos
      ensures Valid()
      ensures ok ==> more == (i < |l.entries|) && Scanning(v, l, if more then i + 1 else i)
      ensures ok && more ==> entry == l.entries[i]
      ensures |l.entries| < SlotCount(g, v, l.root) && part.Dependable() ==> ok
    {
      ghost var v1, l1 := vol, lay;
      ScannedEntries(g, v, l, v1, l1);
      MarkedStays(g, v, l, v1, l1);
      hide Valid, Steady, Scanned, Sound, AtSlot, SlotCount;
      ok, more, entry := ReadDir(i);
      if ok {
        ScannedStep(g, v, l, v1, l1, vol, lay);
      }
    }

    lemma ScanReady()
      requires Valid() && Steady(g, vol, lay)
      ensures Scanned(g, vol, lay, vol, lay)
      ensures Marked() <==> |lay.entries| < SlotCount(g, vol, lay.root)
    {
      Facts();
      ScannedSelf(g, vol, lay);
    }

    /** The lookup of `getDirEntry`: the first live entry whose long or short name folds to the same string. */
    method LookUp(name: Name) returns (ok: bool, found: bool, entry: Entry, ghost i: nat)
      requires Valid() && Steady(g, vol, lay)
      modifies this, part, part.dw, part.dw.file`pos
      ensures Valid()
      ensures ok ==> found == (Find(cs, old(lay).entries, name) < |old(lay).entries|)
      ensures ok && found ==> entry == old(lay).entries[Find(cs, old(lay).entries, name)]
      ensures ok ==> Scanning(old(vol), old(lay), i) && (!found ==> i == |old(lay).entries|)
      ensures part.Dependable() && old(Marked()) ==> ok
    {
      hide *;
      ghost var v, l, a := vol, lay, lay.entries;
      ScanReady();
      i := 0;
      found, entry := false, END;
      ok := BeginScan(v, l);
      var long: Name, sum: byte, have := [], 0, false;
      ScanStart(a);
      while ok
        invariant Valid() && 0 <= i <= |a|
        invariant ok ==> Scanning(v, l, i)
        invariant ok ==> Scan(long, sum, have) == ScanAt(a, i)
        invariant forall j | 0 <= j < i :: !MatchesAt(cs, a, j, name)
        invariant part.Dependable() && |a| < SlotCount(g, v, l.root) ==> ok
        decreases |a| - i, ok
      {
        var more;
        ok, more, entry := NextEntry(v, l, i);
        if ok {
          if !more {
            FindIs(cs, a, name, i);
            return;
          }
          ScanNext(cs, a, i, name);
          if !IsFragment(entry) && Matches(cs, Scan(long, sum, have), entry, name) {
            FindIs(cs, a, name, i);
            found, i := true, i + 1;
            return;
          }
          if IsFragment(entry) {
            long, sum, have := FragmentUnits(entry) + long, entry[13], true;
          } else {
            long, have := [], false;
          }
          i := i + 1;
        }
      }
    }

    /** The directory cluster after the one at position `q`, allocated if there is none. */
    method SuccessorForWrite(ghost q: nat) returns (ok: bool, next: nat, ghost grown: bool)
      requires Valid() && g.kind.FAT32? && Sound(g, vol, lay) && q < |lay.root| && currentRootDirCluster == lay.root[q]
      modifies this`vol, part, part.dw, part.dw.file`pos
      ensures Valid() && InfoFits(g, old(vol)) && |old(vol).fats| > 0
      ensures ok ==> next !in lay.root[..q + 1] && 2 <= next && (Addressable(g, next) || next < |vol.data|)
      ensures ok && !grown ==> q + 1 < |lay.root| && next == lay.root[q + 1] && vol == old(vol) && next < |vol.data|
      ensures ok && grown ==>
        && q + 1 == |lay.root| && FirstFree(old(vol).fats[0], next)
        && (forall n | 0 <= n < |old(vol).fats| :: next < |old(vol).fats[n]| && lay.root[q] < |old(vol).fats[n]|)
        && vol == AllocatedAfter(g, old(vol), lay.root[q], next)
      ensures part.Dependable() && q + 1 < |lay.root| ==> ok
    {
      hide *;
      ghost var v := vol;
      DirLink(q);
      ok, next := GetFat(currentRootDirCluster);
      grown := ok && IsEof(g.kind, next);
      if ok && IsEof(g.kind, next) {
        ok, next := AllocateClusterAfter(currentRootDirCluster);
        if ok {
          DirFresh(v, next);
        }
      }
    }

    /** The end of `writeDirEntryAtCurrentPos` on FAT32: a write that ended a cluster moves on to a cleared one. */
    method WritePastCluster(ghost written: seq<Entry>, ghost q: nat) returns (ok: bool)
      requires Valid() && g.kind.FAT32? && Sound(g, vol, lay) && DirHolds(g, vol, lay.root, written)
      requires q < |lay.root| && |written| == (q + 1) * SlotsPerCluster(g)
      requires currentRootDirCluster == lay.root[q] && currentDirClusters == lay.root[..q + 1]
      modifies this, part, part.dw, part.dw.file`pos
      ensures Valid()
      ensures ok ==> Sound(g, vol, lay) && DirHolds(g, vol, lay.root, written) && AtSlot(|written|)
      ensures ok ==> DirGrown(g, old(vol), old(lay), vol, lay)
      ensures ok && q + 1 < |old(lay).root| ==> lay == old(lay)
      ensures part.Dependable() && q + 1 < |old(lay).root| ==> ok
    {
      hide *;
      Facts();
      ghost var v, l := vol, lay;
      var next;
      ghost var grown;
      ok, next, grown := SuccessorForWrite(q);
      if !ok {
        return;
      }
      if next in currentDirClusters {
        assert false; // the circular reference error: a sound chain has none
      }
      currentDirClusters := currentDirClusters + [next];
      currentRootDirCluster := next;
      ok := ClearCluster(next);
      if !ok {
        return;
      }
      if grown {
        RootExtendedIs(g, v, l.root, next);
        RootGrowSound(g, v, l, next);
        RootGrowSlots(g, v, l, next, written);
        RootGrowStep(g, v, l, next);
        lay := lay.(root := lay.root + [next]);
      } else {
        ClearStep(g, v, l, q + 1, written);
      }
      ok := SeekDirCluster(q + 1);
    }

    /** A run of entries is being written: `written` fills the first slots and the cursor is behind them. */
    ghost predicate Writing(v: Volume, l: Layout, written: seq<Entry>)
      reads this, part, part.dw, part.dw.file
    {
      && Valid() && Sound(g, vol, lay) && DirHolds(g, vol, lay.root, written)
      && DirGrown(g, v, l, vol, lay) && AtSlot(|written|)
    }

    /** What holds in front of the write of an entry. */
    lemma WritingSlot(v: Volume, l: Layout, written: seq<Entry>)
      requires Writing(v, l, written)
      ensures Valid() && Sound(g, vol, lay) && DirHolds(g, vol, lay.root, written) && DirGrown(g, v, l, vol, lay)
      ensures Sane(g, |Image()|) && vol == Abs(g, Image()) && InfoFits(g, vol) && |Image()| == part.partLen
      ensures SlotCount(g, v, l.root) <= SlotCount(g, vol, lay.root) && AtSlot(|written|)
      ensures g.kind.FAT32? ==> SlotCount(g, vol, lay.root) == |lay.root| * SlotsPerCluster(g)
      ensures !g.kind.FAT32? ==>
        && (|written| < SlotCount(g, vol, lay.root) <==> Pos() + 32 <= g.rootEnd) && g.rootEnd <= part.partLen
    {
      Facts();
      AtSlotParts(|written|);
      hide Sound, DirHolds, DirGrown, Valid, Sane, Abs, SlotPos, WithSlot, SlotAt, SlotCount, InfoFits, Shaped, AtSlot;
      SlotLimits(g, part.partLen, vol, lay.root, |written|);
      SlotsKept(g, v, l.root, vol, lay.root) by {
        assert DirGrown(g, v, l, vol, lay);
        DirGrownSpace(g, v, l, vol, lay);
      }
      RootEnds(g, part.partLen);
    }

    /** A fixed root directory that is full: the cursor is behind it. */
    lemma FullSlot(v: Volume, l: Layout, written: seq<Entry>)
      requires Writing(v, l, written) && !g.kind.FAT32? && |written| == SlotCount(g, v, l.root)
      ensures Pos() == g.rootEnd && SlotCount(g, vol, lay.root) == |written|
    {
      Facts();
      AtSlotParts(|written|);
      FixedEnd(g, Image(), vol.root, lay.root);
      assert |vol.root| == |v.root|;
      hide Valid, Sound, DirHolds, Sane, Abs, SlotPos, AtSlot, CountKept;
    }

    /**
     * Writes the entry in the next slot. A fixed root directory that is full is detected only after the write: then the
     * first bytes behind it, those of cluster 2, are overwritten.
     */
    method WriteDirEntryAtCurrentPos(entry: Entry, ghost v: Volume, ghost l: Layout, ghost written: seq<Entry>)
      returns (ok: bool)
      requires Writing(v, l, written)
      modifies this, part, part.dw, part.dw.file`pos
      ensures Valid()
      ensures ok ==> Writing(v, l, written + [entry])
      ensures ok && Fitting(g, v, l.root, |written| + 1) ==> lay == old(lay)
      ensures part.Dependable() && Fitting(g, v, l.root, |written| + 1) ==> ok
      ensures !g.kind.FAT32? && |written| == SlotCount(g, v, l.root) ==>
        !ok && (Image() == old(Image()) || PutAt(old(Image()), g.rootEnd, entry, Image()))
      ensures part.Dependable() && !g.kind.FAT32? && |written| == SlotCount(g, v, l.root) ==>
        g.rootEnd + 32 <= part.partLen ==> PutAt(old(Image()), g.rootEnd, entry, Image())
    {
      hide *;
      ghost var i := |written|;
      WritingSlot(v, l, written);
      FittingIs(g, v, l.root, i + 1);
      if !g.kind.FAT32? && i == SlotCount(g, v, l.root) {
        FullSlot(v, l, written);
        PutAtIs(Image(), g.rootEnd, entry);
      }
      AtSlotParts(i);
      if i < SlotCount(g, vol, lay.root) {
        SlotWriteAll(g, Image(), v, l, lay, written, entry);
      }
      ok := Write(entry);
      if !ok {
        return;
      }
      Facts();
      if g.kind.FAT32? {
        SlotNext(g, lay.root, i);
        if (Pos() - g.clusterOffset) % g.bytesPerCluster == 0 {
          ghost var v2, l2 := vol, lay;
          NextCluster(i, SlotsPerCluster(g), |lay.root|);
          ok := WritePastCluster(written + [entry], i / SlotsPerCluster(g));
          if ok {
            DirGrownTransitive(g, v, l, v2, l2, vol, lay);
            WritingIs(v, l, written + [entry]);
          }
        } else {
          AtSlotIs(i + 1);
          WritingIs(v, l, written + [entry]);
        }
      } else {
        SlotNextFixed(g, lay.root, i);
        ok := Pos() <= g.rootEnd;
        if ok {
          AtSlotIs(i + 1);
          WritingIs(v, l, written + [entry]);
        }
      }
    }

    /** The first bytes behind the fixed root directory are this entry. */
    ghost predicate Overflown(e: Entry)
      reads part`image
    {
      g.rootEnd + 32 <= |Image()| && Image()[g.rootEnd..g.rootEnd + 32] == e
    }

    /** The directory was full in front of entry `k` of these, and that one went behind it. */
    ghost predicate Spilled(entries: seq<Entry>, k: int)
      reads part`image
    {
      0 <= k < |entries| && Overflown(entries[k])
    }

    lemma SpilledIs(entries: seq<Entry>, k: nat)
      requires k < |entries| && Overflown(entries[k])
      ensures Spilled(entries, k)
    {
    }

    lemma OverflownIs(image: seq<byte>, e: Entry)
      requires PutAt(image, g.rootEnd, e, Image())
      ensures Overflown(e)
    {
      PutAtShows(image, g.rootEnd, e, Image());
    }

    /** What was written to a fixed root directory fits into it. */
    lemma WritingFits(v: Volume, l: Layout, written: seq<Entry>)
      requires Writing(v, l, written)
      ensures !g.kind.FAT32? ==> |written| <= SlotCount(g, v, l.root)
    {
      assert DirHolds(g, vol, lay.root, written) && DirGrown(g, v, l, vol, lay);
      hide Valid, Sound, AtSlot, CountKept;
    }

    lemma WritingIs(v: Volume, l: Layout, written: seq<Entry>)
      requires Valid() && Sound(g, vol, lay) && DirHolds(g, vol, lay.root, written)
      requires DirGrown(g, v, l, vol, lay) && AtSlot(|written|)
      ensures Writing(v, l, written)
    {
    }

    method DirNameExists(short: seq<byte>, ghost v: Volume, ghost l: Layout) returns (ok: bool, taken: bool)
      requires Valid() && Scanned(g, v, l, vol, lay)
      modifies this, part, part.dw, part.dw.file`pos
      ensures Valid()
      ensures ok ==> taken == Taken(l.entries, short) && Scanned(g, v, l, vol, lay)
      ensures ok && !taken ==> Scanning(v, l, |l.entries|)
      ensures |l.entries| < SlotCount(g, v, l.root) && part.Dependable() ==> ok
    {
      hide *;
      ghost var i := 0;
      taken := false;
      ok := BeginScan(v, l);
      while ok
        invariant Valid() && 0 <= i <= |l.entries|
        invariant ok ==> Scanning(v, l, i)
        invariant forall j | 0 <= j < i :: !TakenAt(l.entries, j, short)
        invariant part.Dependable() && |l.entries| < SlotCount(g, v, l.root) ==> ok
        decreases |l.entries| - i, ok
      {
        var more, entry;
        ok, more, entry := NextEntry(v, l, i);
        if ok {
          UnfoldScan(v, l, if more then i + 1 else i);
          if !more {
            NotTaken(l.entries, short);
            return;
          }
          TakenAtIs(l.entries, i, short);
          if !IsFragment(entry) && ShortBytes(entry) == short {
            TakenIs(l.entries, i, short);
            taken := true;
            return;
          }
          i := i + 1;
        }
      }
    }

    /** The short name for a new file; the cursor ends up in front of the end marker. */
    method PickShortName(name: Name, ghost v: Volume, ghost l: Layout) returns (ok: bool, short: seq<byte>)
      requires Valid() && Scanned(g, v, l, vol, lay)
      modifies this, part, part.dw, part.dw.file`pos
      ensures Valid()
      ensures ok ==> Pick(l.entries, name) == Some(short) && |short| == 11 && Scanning(v, l, |l.entries|)
      ensures |l.entries| < SlotCount(g, v, l.root) && part.Dependable() ==> (ok <==> Pick(l.entries, name).Some?)
    {
      hide *;
      short := BaseShort(name);
      var taken;
      ok, taken := DirNameExists(short, v, l);
      var i := 0;
      PickIs(l.entries, name);
      while ok && taken
        invariant Valid() && 0 <= i <= 100 && |short| == 11
        invariant ok ==> Scanned(g, v, l, vol, lay)
        invariant ok && !taken ==> Scanning(v, l, |l.entries|) && Pick(l.entries, name) == Some(short)
        invariant ok && taken ==> Pick(l.entries, name) == PickFrom(l.entries, short, i)
        invariant part.Dependable() && |l.entries| < SlotCount(g, v, l.root) ==> ok
        decreases 100 - i, ok && taken
      {
        PickFromIs(l.entries, short, i);
        if i == 100 {
          ok := false; // every numbered name is taken
          return;
        }
        short := Numbered(short, i);
        i := i + 1;
        ok, taken := DirNameExists(short, v, l);
      }
    }

    /** At the end of a scan the cursor is where new entries go. */
    lemma BeginWriting(v: Volume, l: Layout)
      requires Scanning(v, l, |l.entries|)
      ensures Valid() && Writing(v, l, l.entries)
      ensures |l.entries| < SlotCount(g, v, l.root) ==> lay == l
    {
      SteadyHolds(g, v, l, vol, lay);
      hide Valid, Sound, DirHolds, DirGrown, Steady;
    }

    method WriteFragments(name: Name, sum: byte, ghost v: Volume, ghost l: Layout, ghost a: seq<Entry>)
      returns (ok: bool)
      requires Writing(v, l, a)
      modifies this, part, part.dw, part.dw.file`pos
      ensures Valid()
      ensures ok ==> Writing(v, l, a + Fragments(name, sum, FragmentCount(name)))
      ensures ok && Fitting(g, v, l.root, |a| + FragmentCount(name)) ==> lay == old(lay)
      ensures part.Dependable() && Fitting(g, v, l.root, |a| + FragmentCount(name)) ==> ok
      ensures var k := SlotCount(g, v, l.root) - |a|;
        part.Dependable() && !g.kind.FAT32? && 0 <= k < FragmentCount(name) && g.rootEnd + 32 <= part.partLen ==>
        !ok && Overflown(Fragments(name, sum, FragmentCount(name))[k])
    {
      hide *;
      var n := FragmentCount(name);
      ghost var f, written := Fragments(name, sum, n), a;
      WritingSlot(v, l, a);
      FittingIs(g, v, l.root, |a| + n);
      ghost var slots := SlotCount(g, v, l.root);
      var i := n;
      assert a + f[..0] == a;
      while i > 0
        invariant 0 <= i <= n && Valid() && Writing(v, l, written) && written == a + f[..n - i]
        invariant Fitting(g, v, l.root, |a| + n) ==> lay == old(lay)
      {
        FragmentsTake(name, sum, n - i);
        var e := Fragment(name, sum, i);
        WritingFits(v, l, written);
        FittingIs(g, v, l.root, |written| + 1);
        ghost var image := Image();
        ok := WriteDirEntryAtCurrentPos(e, v, l, written);
        if !ok {
          if !g.kind.FAT32? && part.Dependable() && g.rootEnd + 32 <= part.partLen {
            OverflownIs(image, e);
          }
          return;
        }
        assert a + f[..n - i] + [e] == a + (f[..n - i] + [e]);
        written, i := written + [e], i - 1;
      }
      assert written == a + f;
      WritingFits(v, l, written);
      return true;
    }

    /** The writes of `getDirEntry` for a new file: its fragments in reverse order, its short entry, an end marker. */
    method WriteNewEntries(name: Name, short: seq<byte>, date: nat, time: nat, ghost v: Volume, ghost l: Layout)
      returns (ok: bool)
      requires Scanning(v, l, |l.entries|) && |short| == 11
      modifies this, part, part.dw, part.dw.file`pos
      ensures Valid()
      ensures ok ==> Writing(v, l, l.entries + NewEntries(name, short, date, time) + [END])
      ensures ok && Fitting(g, v, l.root, |l.entries| + FragmentCount(name) + 2) ==> lay.root == old(lay).root
      ensures part.Dependable() && Fitting(g, v, l.root, |l.entries| + FragmentCount(name) + 2) ==> ok
      ensures ok && !g.kind.FAT32? ==> |l.entries| + FragmentCount(name) + 2 <= SlotCount(g, v, l.root)
      ensures var k := SlotCount(g, v, l.root) - |l.entries|;
        part.Dependable() && !g.kind.FAT32? && 0 <= k < FragmentCount(name) + 2 && g.rootEnd + 32 <= part.partLen ==>
        !ok && Spilled(Appended(name, short, date, time), k)
    {
      hide *;
      BeginWriting(v, l);
      var n := FragmentCount(name);
      ghost var f := Fragments(name, Checksum(short), n);
      FittingIs(g, v, l.root, |l.entries| + n + 2);
      FittingIs(g, v, l.root, |l.entries| + n);
      FittingIs(g, v, l.root, |l.entries| + n + 1);
      AppendedIs(name, short, date, time);
      ok := WriteFragments(name, Checksum(short), v, l, l.entries);
      if !ok {
        ghost var k := SlotCount(g, v, l.root) - |l.entries|;
        if part.Dependable() && !g.kind.FAT32? && 0 <= k < n + 2 && g.rootEnd + 32 <= part.partLen {
          assert k < n && Appended(name, short, date, time)[k] == f[k];
          SpilledIs(Appended(name, short, date, time), k);
        }
        return;
      }
      ok := WriteLast(l.entries + f, ShortEntry(short, date, time), v, l);
      if !ok {
        if Overflown(ShortEntry(short, date, time)) {
          SpilledIs(Appended(name, short, date, time), n);
        }
        return;
      }
      NewEntriesAre(name, short, date, time);
      assert l.entries + f + [ShortEntry(short, date, time)] == l.entries + NewEntries(name, short, date, time);
      ok := WriteLast(l.entries + NewEntries(name, short, date, time), END, v, l);
      if ok {
        WritingFits(v, l, l.entries + NewEntries(name, short, date, time) + [END]);
      } else if Overflown(END) {
        SpilledIs(Appended(name, short, date, time), n + 1);
      }
    }

    /** One of the entries behind the fragments. */
    method WriteLast(ghost written: seq<Entry>, e: Entry, ghost v: Volume, ghost l: Layout) returns (ok: bool)
      requires Writing(v, l, written)
      modifies this, part, part.dw, part.dw.file`pos
      ensures Valid()
      ensures ok ==> Writing(v, l, written + [e])
      ensures ok && Fitting(g, v, l.root, |written| + 1) ==> lay == old(lay)
      ensures part.Dependable() && Fitting(g, v, l.root, |written| + 1) ==> ok
      ensures !g.kind.FAT32? ==> |written| <= SlotCount(g, v, l.root)
      ensures !g.kind.FAT32? && part.Dependable() && |written| == SlotCount(g, v, l.root) ==>
        !ok && (g.rootEnd + 32 <= part.partLen ==> Overflown(e))
    {
      hide *;
      WritingFits(v, l, written);
      ghost var image := Image();
      ok := WriteDirEntryAtCurrentPos(e, v, l, written);
      if !g.kind.FAT32? && part.Dependable() && |written| == SlotCount(g, v, l.root) {
        if g.rootEnd + 32 <= part.partLen {
          OverflownIs(image, e);
        }
      }
    }

    /**
     * Looks a file up in the root directory and, on request, creates it when it is not there. A lookup can add an
     * empty cluster to a directory without an end marker; creation appends the new entries.
     */
    method GetDirEntry(name: Name, create: bool, date: nat, time: nat)
      returns (ok: bool, found: bool, entry: Entry, ghost short: seq<byte>)
      requires Valid() && WellFormed(g, vol, lay)
      requires create ==> name == [] || Writable(name) || Find(cs, lay.entries, name) < |lay.entries|
      modifies this, part, part.dw, part.dw.file`pos
      ensures Valid()
      ensures ok ==> name != [] && found == (Find(cs, old(lay).entries, name) < |old(lay).entries|)
      ensures ok && (found || !create) ==> Scanned(g, old(vol), old(lay), vol, lay)
      ensures ok && found ==> entry == old(lay).entries[Find(cs, old(lay).entries, name)]
      ensures ok && !found && create ==>
        && |short| == 11 && Pick(old(lay).entries, name) == Some(short) && entry == ShortEntry(short, date, time)
        && SpaceGrown(g, old(vol), old(lay).root, vol, lay.root)
        && lay == WithNew(old(lay), lay.root, name, short, date, time)
        && WellFormed(g, vol, lay)
      ensures name != [] && part.Dependable() && old(DirRoom(name, create)) ==> ok
      ensures ok && old(DirRoom(name, create)) ==> lay.root == old(lay).root
      ensures part.Dependable() && !g.kind.FAT32? && create && old(IsNew(name)) ==>
        (ok <==> Pick(old(lay).entries, name).Some?
                 && |old(lay).entries| + FragmentCount(name) + 2 <= SlotCount(g, old(vol), old(lay).root))
      ensures part.Dependable() && !g.kind.FAT32? && create && old(IsNew(name)) && old(Marked()) ==>
        var k, p := SlotCount(g, old(vol), old(lay).root) - |old(lay).entries|, Pick(old(lay).entries, name);
        p.Some? && k < FragmentCount(name) + 2 && g.rootEnd + 32 <= part.partLen ==>
        Spilled(Appended(name, p.value, date, time), k)
    {
      hide *;
      ghost var v, l := vol, lay;
      short, found, entry := [], false, END;
      RoomIs(name, create);
      if name == [] {
        return false, false, entry, short; // "Filename cannot be empty"
      }
      FittingIs(g, v, l.root, |l.entries| + FragmentCount(name) + 2);
      ghost var at;
      ok, found, entry, at := LookUp(name);
      if !ok || found || !create {
        if ok {
          UnfoldScan(v, l, at);
          ScannedRoot(g, v, l, vol, lay);
        }
        return;
      }
      UnfoldScan(v, l, at);
      var s;
      ok, s := PickShortName(name, v, l);
      if !ok {
        return;
      }
      UnfoldScan(v, l, |l.entries|);
      ScannedRoot(g, v, l, vol, lay);
      ok := WriteNewEntries(name, s, date, time, v, l);
      if !ok {
        return;
      }
      short, entry := s, ShortEntry(s, date, time);
      FinishCreate(v, l, name, s, date, time);
      lay := WithNew(l, lay.root, name, s, date, time);
    }

    /**
     * The directory has an end marker, and when the file must be created also room for its entries and the marker
     * behind them, and a free short name.
     */
    ghost predicate DirRoom(name: Name, create: bool)
      reads this`vol, this`lay
    {
      && |lay.entries| < SlotCount(g, vol, lay.root)
      && (create && Find(cs, lay.entries, name) == |lay.entries| ==>
            && Fitting(g, vol, lay.root, |lay.entries| + FragmentCount(name) + 2)
            && Pick(lay.entries, name).Some?)
    }

    ghost predicate IsNew(name: Name)
      reads this`lay
    {
      name != [] && Find(cs, lay.entries, name) == |lay.entries|
    }

    lemma RoomIs(name: Name, create: bool)
      requires Valid() && WellFormed(g, vol, lay)
      ensures Steady(g, vol, lay) && (DirRoom(name, create) ==> Marked())
      ensures DirRoom(name, create) ==> |lay.entries| < SlotCount(g, vol, lay.root)
      ensures DirRoom(name, create) && create && Find(cs, lay.entries, name) == |lay.entries| ==>
        && Fitting(g, vol, lay.root, |lay.entries| + FragmentCount(name) + 2)
        && |lay.entries| + FragmentCount(name) + 2 <= SlotCount(g, vol, lay.root)
        && Pick(lay.entries, name).Some?
      ensures IsNew(name) <==> name != [] && Find(cs, lay.entries, name) == |lay.entries|
      ensures !g.kind.FAT32? && IsNew(name) && Pick(lay.entries, name).Some? ==>
        |lay.entries| + FragmentCount(name) + 2 <= SlotCount(g, vol, lay.root) ==> DirRoom(name, true)
      ensures |lay.entries| <= SlotCount(g, vol, lay.root)
      ensures Marked() <==> |lay.entries| < SlotCount(g, vol, lay.root)
      ensures Marked() && !create ==> DirRoom(name, create)
    {
    }

    lemma UnfoldScan(v: Volume, l: Layout, i: nat)
      requires Scanning(v, l, i)
      ensures Valid() && Scanned(g, v, l, vol, lay)
    {
    }

    lemma FinishCreate(v: Volume, l: Layout, name: Name, short: seq<byte>, date: nat, time: nat)
      requires WellFormed(g, v, l) && Writable(name) && |short| == 11 && Pick(l.entries, name) == Some(short)
      requires Writing(v, l, l.entries + NewEntries(name, short, date, time) + [END])
      ensures Valid() && WellFormed(g, vol, WithNew(l, lay.root, name, short, date, time))
      ensures SpaceGrown(g, v, l.root, vol, lay.root)
      ensures WithNew(l, lay.root, name, short, date, time).root == lay.root
    {
      assert DirGrown(g, v, l, vol, lay);
      hide Valid, Sound, AtSlot;
      Created(g, v, l, vol, lay, name, short, date, time);
    }

    /** The search of `updateDirEntry`: the slot, and where it is, of the first such entry, fragments aside. */
    method FindSlot(e: Entry) returns (ok: bool, found: bool, pos: nat, ghost i: nat)
      requires Valid() && Steady(g, vol, lay)
      modifies this, part, part.dw, part.dw.file`pos
      ensures Valid() && pos <= part.partLen
      ensures ok && found ==>
        && i == FindUpdate(old(lay).entries, 0, e) < |old(lay).entries|
        && Scanning(old(vol), old(lay), i + 1) && SlotIs(old(lay), i, pos)
      ensures ok && !found ==> FindUpdate(old(lay).entries, 0, e) == |old(lay).entries|
      ensures part.Dependable() && old(Marked()) ==> ok
    {
      hide *;
      ghost var v, l := vol, lay;
      ScanReady();
      i, found, pos := 0, false, 0;
      ok := BeginScan(v, l);
      while ok
        invariant Valid() && 0 <= i <= |l.entries| && pos <= part.partLen
        invariant ok ==> Scanning(v, l, i)
        invariant forall j | 0 <= j < i :: !UpdatesAt(l.entries, j, e)
        invariant part.Dependable() && |l.entries| < SlotCount(g, v, l.root) ==> ok
        decreases |l.entries| - i, ok
      {
        CursorAt(v, l, i);
        var oldOffset := Pos();
        var more, entry;
        ok, more, entry := NextEntry(v, l, i);
        if ok {
          if !more {
            FindUpdateNone(l.entries, e);
            return;
          }
          UpdatesAtIs(l.entries, i, e);
          if !IsFragment(entry) && NamedLike(entry, e) {
            FindUpdateIs(l.entries, i, e);
            found, pos := true, oldOffset;
            return;
          }
          i := i + 1;
        }
      }
    }

    /**
     * Overwrites the first entry with the same short name, fragments aside; throws when there is none. When the new
     * entry reads as deleted, the first byte is not compared, and the file found there is gone.
     */
    method UpdateDirEntry(e: Entry) returns (ok: bool)
      requires Valid() && Steady(g, vol, lay) && !IsFragment(e)
      modifies this, part, part.dw, part.dw.file`pos
      ensures Valid()
      ensures ok ==> var j := FindUpdate(old(lay).entries, 0, e);
        && j < |old(lay).entries|
        && lay == Overwritten(old(lay), j, e).(root := lay.root)
        && Steady(g, vol, lay) && SpaceGrown(g, old(vol), old(lay).root, vol, lay.root)
      ensures part.Dependable() && old(Marked()) ==> (ok <==> FindUpdate(old(lay).entries, 0, e) < |old(lay).entries|)
    {
      hide *;
      ghost var v, l := vol, lay;
      var found, pos;
      ghost var i;
      ok, found, pos, i := FindSlot(e);
      ok := ok && found;
      if ok {
        ok := Overwrite(pos, e, v, l, i);
      }
    }

    /** The cursor of a scan, in terms of the directory the scan started with. */
    lemma CursorAt(v: Volume, l: Layout, i: nat)
      requires Scanning(v, l, i) && Steady(g, v, l)
      ensures 0 <= Pos() <= part.partLen
      ensures i < |l.entries| ==> SlotIs(l, i, Pos())
    {
      if i < |l.entries| {
        SlotStays(g, part.partLen, v, l, vol, lay, i);
      }
    }

    ghost predicate SlotIs(l: Layout, i: nat, pos: int) {
      && (g.kind.FAT32? ==> g.bytesPerCluster >= 32 && i < |l.root| * SlotsPerCluster(g) && g.bytesPerCluster % 32 == 0)
      && pos == SlotPos(g, l.root, i)
    }

    /** Goes back to the slot that was just read and writes the entry there. */
    method Overwrite(pos: nat, e: Entry, ghost v: Volume, ghost l: Layout, ghost i: nat) returns (ok: bool)
      requires Scanning(v, l, i + 1) && Steady(g, v, l) && i < |l.entries| && SlotIs(l, i, pos) && pos <= part.partLen
      requires !IsFragment(e) && UpdatesAt(l.entries, i, e)
      modifies this, part, part.dw, part.dw.file`pos
      ensures Valid()
      ensures ok ==>
        && lay == Overwritten(l, i, e).(root := lay.root)
        && Steady(g, vol, lay) && SpaceGrown(g, v, l.root, vol, lay.root)
      ensures part.Dependable() ==> ok
    {
      Facts();
      SlotStays(g, part.partLen, v, l, vol, lay, i);
      UpdateSteady(g, Image(), v, l, lay, i, e);
      ScannedEntries(g, v, l, vol, lay);
      hide Valid, Scanned, Sound, Steady, SpaceGrown, SlotPos, Sane, Abs;
      Restore(pos);
      ok := Write(e);
      Facts();
      lay := Overwritten(lay, i, e);
    }

    // ----- files -----

    /** The reading loop of `readFile`: cluster after cluster, up to `size` bytes. */
    method ReadClusters(chain: seq<nat>, size: nat) returns (ok: bool, data: seq<byte>)
      requires Valid() && g.bytesPerCluster > 0 && |chain| >= ClustersNeeded(g, size) && size > 0
      requires forall k | 0 <= k < |chain| :: 2 <= chain[k] < |vol.data| && |vol.data[chain[k]]| == g.bytesPerCluster
      modifies part`offset, part.dw`cache, part.dw.file`pos
      ensures Valid()
      ensures ok ==> data == Prefix(Gather(vol.data, chain), size)
      ensures part.Dependable() ==> ok
    {
      data := [];
      NeededBounds(g, size);
      hide Valid, ClustersNeeded;
      var k := 0;
      ok := true;
      while k < |chain|
        invariant 0 <= k <= |chain| && Valid()
        invariant data == Gather(vol.data, chain[..k]) && |data| == k * g.bytesPerCluster < size
      {
        var n := if g.bytesPerCluster < size - |data| then g.bytesPerCluster else size - |data|;
        var piece;
        ok, piece := ReadCluster(chain[k], n);
        if !ok {
          return;
        }
        ReadStep(g, vol.data, chain, k, size, data, piece);
        data, k := data + piece, k + 1;
        if |data| >= size {
          return;
        }
      }
      MulLe(ClustersNeeded(g, size), |chain|, g.bytesPerCluster);
      assert false; // the clusters of the chain hold `size` bytes
    }

    lemma ClusterBytes(cluster: nat)
      requires Valid() && 2 <= cluster < |vol.data|
      ensures ClusterPos(g, cluster) >= 0 && ClusterPos(g, cluster) + g.bytesPerCluster <= |Image()|
      ensures vol.data[cluster] == Image()[ClusterPos(g, cluster)..ClusterPos(g, cluster) + g.bytesPerCluster]
    {
      Facts();
      ClusterInside(g, part.partLen, cluster);
    }

    method ReadCluster(cluster: nat, n: nat) returns (ok: bool, piece: seq<byte>)
      requires Valid() && 2 <= cluster < |vol.data|
      requires |vol.data[cluster]| == g.bytesPerCluster && n <= g.bytesPerCluster
      modifies part`offset, part.dw`cache, part.dw.file`pos
      ensures Valid()
      ensures ok ==> piece == vol.data[cluster][..n]
      ensures part.Dependable() ==> ok
    {
      hide *;
      Facts();
      ClusterSeek(cluster);
      ClusterBytes(cluster);
      piece := [];
      ok := SeekCluster(cluster);
      if ok {
        ok, piece := Read(n);
        ghost var at := ClusterPos(g, cluster);
        assert Image()[at..at + g.bytesPerCluster][..n] == Image()[at..at + n];
      }
    }

    /**
     * The contents of a root-level file; nothing when there is no such file. Reading changes no file, and with an end
     * marker in the directory it changes nothing at all and succeeds.
     */
    method ReadFile(name: Name) returns (ok: bool, data: seq<byte>)
      requires Valid() && WellFormed(g, vol, lay) && SLASH !in name
      modifies this, part, part.dw, part.dw.file`pos
      ensures Valid()
      ensures ok ==> Scanned(g, old(vol), old(lay), vol, lay) && data == FileMap(cs, old(vol), old(lay), name)
      ensures name != [] && part.Dependable() && old(Marked()) ==> ok
    {
      hide *;
      ghost var v, l := vol, lay;
      data := [];
      WellFormedKeyed(g, v, l);
      FileMapIs(cs, v, l, name);
      RoomIs(name, false);
      var found, entry;
      ghost var short;
      ok, found, entry, short := GetDirEntry(name, false, 0, 0);
      if !ok || !found {
        return;
      }
      FoundFile(cs, g, v, l, vol, lay, name);
      ghost var chain := lay.chains[Find(cs, l.entries, name)];
      var size := FileSize(entry);
      if size == 0 {
        NoPrefix(Gather(vol.data, chain));
        return;
      }
      var first := First(g.kind, entry);
      Facts();
      TableSizes();
      if first == 0 {
        NoClusters(g.kind, vol.fats[0], chain);
        return;
      }
      ChainHasWalk(g, Image(), first, chain);
      var list;
      ok, list := GetClusterChain(first);
      if !ok {
        return;
      }
      WalkIsChain(g, Image(), first, list, chain);
      ok, data := ReadClusters(list, size);
    }

    lemma NoPrefix(s: seq<byte>)
      ensures Prefix(s, 0) == []
    {
    }

    /** The clusters of the file with this entry. */
    method FileClusters(entry: Entry, ghost i: nat) returns (ok: bool, list: seq<nat>)
      requires Valid() && Sound(g, vol, lay) && i in lay.chains && i in lay.firsts
      requires First(g.kind, entry) == lay.firsts[i]
      modifies part`offset, part.dw`cache, part.dw.file`pos
      ensures Valid()
      ensures ok ==> list == lay.chains[i]
      ensures part.Dependable() ==> ok
    {
      Facts();
      SoundChain(g, vol, lay, i);
      var first := First(g.kind, entry);
      ghost var chain := lay.chains[i];
      hide Valid, Sound, First, Chain, Sane, Shaped, Abs;
      if first == 0 {
        NoClusters(g.kind, vol.fats[0], chain);
        return true, [];
      }
      ChainHasWalk(g, Image(), first, chain);
      ok, list := GetClusterChain(first);
      if ok {
        WalkIsChain(g, Image(), first, list, chain);
      }
    }

    /** The growing loop of `writeFile`: one free cluster after the other is linked behind the chain. */
    method GrowChain(list0: seq<nat>, n: nat, ghost i: int) returns (ok: bool, list: seq<nat>)
      requires Valid() && TablesSound(g, vol, lay) && i in lay.chains && list0 == lay.chains[i] && |list0| <= n
      requires Seekable(g, |vol.data|, list0)
      modifies this`vol, this`lay, part, part.dw, part.dw.file`pos
      ensures Valid()
      ensures ok ==> Growing(g, old(vol), old(lay), i, list0, vol, lay, list) && |list| == n
      ensures part.Dependable() && Roomy(g, old(vol), n - |list0|) ==>
        ok && forall k | |list0| <= k < n :: list[k] < |vol.data|
    {
      hide *;
      Facts();
      ghost var v, l := vol, lay;
      ghost var roomy := part.Dependable() && Roomy(g, v, n - |list0|);
      list := list0;
      GrowingSelf(g, v, l, i);
      var last := Last(list0);
      while |list| < n
        invariant Valid() && Growing(g, v, l, i, list0, vol, lay, list) && |list0| <= |list| <= n && last == Last(list)
        invariant roomy ==> Roomy(g, vol, n - |list|) && forall k | |list0| <= k < |list| :: list[k] < |vol.data|
      {
        ok, last := GrowByOne(last, v, l, i, list0, list, n - |list| - 1);
        if !ok {
          return;
        }
        list := list + [last];
      }
      return true, list;
    }

    method GrowByOne(last: nat, ghost v: Volume, ghost l: Layout, ghost i: int, ghost list0: seq<nat>,
                     ghost list: seq<nat>,
                     ghost k: nat)
      returns (ok: bool, c: nat)
      requires Valid() && Growing(g, v, l, i, list0, vol, lay, list) && last == Last(list)
      modifies this`vol, this`lay, part, part.dw, part.dw.file`pos
      ensures Valid()
      ensures ok ==> Growing(g, v, l, i, list0, vol, lay, list + [c]) && Last(list + [c]) == c
      ensures ok ==> |vol.data| == |old(vol).data|
      ensures part.Dependable() && Roomy(g, old(vol), k + 1) ==> ok && Roomy(g, vol, k) && c < |vol.data|
    {
      hide *;
      ghost var v1, l1 := vol, lay;
      GrowReady(v, l, i, list0, list, k + 1);
      ok, c := AllocateClusterAfter(last);
      if ok {
        GrowTo(g, v, l, i, list0, v1, l1, list, c, k);
        lay := Grown(lay, i, c);
      }
    }

    lemma GrowReady(v: Volume, l: Layout, i: int, list0: seq<nat>, list: seq<nat>, k: nat)
      requires Valid() && Growing(g, v, l, i, list0, vol, lay, list)
      ensures InfoFits(g, vol) && |vol.fats| > 0 && FreeAddressable(g, vol.fats[0])
      ensures Last(list) != 0 ==> g.bytesPerSector > 0 && HasEntry(Last(list))
      ensures k > 0 && Roomy(g, vol, k) ==> InfoUsable(g, vol) && HasFree(vol.fats[0])
    {
      Facts();
      GrowFrom(g, vol, lay, i, k);
      hide TablesSound, Roomy, InfoUsable, HasFree, Last, Abs, FreeAddressable;
    }

    /** The loop of `writeFile` that overwrites excess clusters with zeroes and marks them free, last one first. */
    method FreeClusters(list0: seq<nat>, n: nat, ghost i: int) returns (ok: bool, removed: nat)
      requires Valid() && Sound(g, vol, lay) && i in lay.chains && list0 == lay.chains[i] && n < |list0|
      modifies this`vol, part, part.dw, part.dw.file`pos
      ensures Valid()
      ensures ok ==> removed == list0[n] && Cutting(g, part.partLen, old(vol), lay, i, vol, n)
      ensures part.Dependable() ==> ok
    {
      hide *;
      ghost var v := vol;
      FreeingReady(i);
      var list := list0;
      removed := 0;
      while |list| > n
        invariant n <= |list| <= |list0| && list == list0[..|list|] && Valid()
        invariant |list| < |list0| ==> removed == list0[|list|]
        invariant Freeing(g, part.partLen, v, lay, i, vol, |list|)
      {
        removed := list[|list| - 1];
        list := list[..|list| - 1];
        assert removed == list0[|list|];
        FreeingStep(v, i, |list|);
        ok := ClearCluster(removed);
        if !ok {
          return;
        }
        ok := SetFat(removed, 0);
        if !ok {
          return;
        }
      }
      FreeingDone(v, i, n);
      return true, removed;
    }

    lemma FreeingReady(i: int)
      requires Valid() && Sound(g, vol, lay) && i in lay.chains
      ensures Freeing(g, part.partLen, vol, lay, i, vol, |lay.chains[i]|)
    {
      Facts();
      FreeingFrom(g, part.partLen, vol, lay, i);
      hide Sound, Freed, InfoFits, Abs, Shaped, Valid;
    }

    lemma FreeingStep(v: Volume, i: int, k: nat)
      requires Freeing(g, part.partLen, v, lay, i, vol, k + 1)
      ensures i in lay.chains && k < |lay.chains[i]|
      ensures var c := lay.chains[i][k];
        && 2 <= c < |vol.data| && g.bytesPerSector > 0 && HasEntry(c) && Mask(g.kind, 0) == 0
        && (forall n | 0 <= n < |vol.fats| :: c < |vol.fats[n]|)
        && Freeing(g, part.partLen, v, lay, i, WithEntry(WithCluster(vol, c, Zeroes(g.bytesPerCluster)), c, 0), k)
    {
      FreeingNext(g, part.partLen, v, lay, i, vol, k);
      hide Freeing, WithEntry, WithCluster, Zeroes, Entries;
    }

    lemma FreeingDone(v: Volume, i: int, n: nat)
      requires Valid() && i in lay.chains && n < |lay.chains[i]| && Freeing(g, part.partLen, v, lay, i, vol, n)
      ensures Cutting(g, part.partLen, v, lay, i, vol, n)
    {
      Facts();
      hide Sound, InfoFits, Abs, Shaped, Valid, Freed, Cutting, Sane;
      CuttingIs(g, part.partLen, v, lay, i, vol, n);
    }

    /**
     * The end mark behind a shortened chain. FAT12 is not told apart from FAT32, so that there the mark is written four
     * bytes wide and at another place, and the link of the cluster stays as it was.
     */
    method MarkEnd(last: nat) returns (ok: bool)
      requires Valid() && HasEntry(last) && 2 <= last < |vol.data|
      modifies this`vol, part, part.dw, part.dw.file`pos
      ensures Valid() && forall n | 0 <= n < |old(vol).fats| :: last < |old(vol).fats[n]|
      ensures ok && !g.kind.FAT12? ==> vol == WithEntry(old(vol), last, EofMark(g.kind))
      ensures |vol.fats| == |old(vol).fats| > 0
      ensures ok && g.kind.FAT12? ==> last < |vol.fats[0]| && vol.fats[0][last] == old(vol).fats[0][last]
      ensures part.Dependable() && !g.kind.FAT12? ==> ok
    {
      Facts();
      ghost var image0 := Image();
      assert Mask(g.kind, EofMark(g.kind)) == EofMark(g.kind);
      hide Valid, Sane, Abs, Mask, Entries;
      EntriesWritten(g, image0, 0, last, EofMark(g.kind));
      if g.kind.FAT16? {
        ok := SetFatAs(FAT16, last, 0xFFFF);
      } else {
        ok := SetFatAs(FAT32, last, 0xFFF_FFFF);
        if ok && g.kind.FAT12? {
          WideMarkMisses(g, image0, last, 0xFFF_FFFF);
        }
      }
      Facts();
    }

    /**
     * The shrinking branch of `writeFile`. Exactly on FAT12, and there only when a cluster is kept, the chain is not
     * cut: its last kept cluster still links to one that was freed.
     */
    method ShrinkChain(list0: seq<nat>, n: nat, ghost i: int) returns (ok: bool, list: seq<nat>)
      requires Valid() && Sound(g, vol, lay) && i in lay.chains && list0 == lay.chains[i] && n < |list0|
      modifies this`vol, this`lay, part, part.dw, part.dw.file`pos
      ensures Valid() && i in old(lay).firsts
      ensures ok ==> list == list0[..n] && |vol.fats| > 0
      ensures ok ==>
        (Chain(g.kind, vol.fats[0], if n > 0 then old(lay).firsts[i] else 0, list) <==> !(g.kind.FAT12? && n > 0))
      ensures ok && !(g.kind.FAT12? && n > 0) ==>
        && lay == WithChain(old(lay), i, if n > 0 then old(lay).firsts[i] else 0, list)
        && TablesSound(g, vol, lay) && Reworked(g, old(vol), list0, vol, list)
      ensures part.Dependable() && InfoUsable(g, old(vol)) && !(g.kind.FAT12? && n > 0) ==> ok
    {
      hide *;
      ghost var v, l := vol, lay;
      var removed;
      ShrinkReady(i);
      list := list0[..n];
      ok, removed := FreeClusters(list0, n, i);
      if !ok {
        return;
      }
      ghost var v1 := vol;
      ok := CloseChain(list, |list0| - n, removed, list0, v, i);
      if ok {
        ShrinkDone(v, v1, list0, n, i, removed);
        if !(g.kind.FAT12? && n > 0) {
          lay := WithChain(l, i, if n > 0 then l.firsts[i] else 0, list);
        }
      }
    }

    /** The end of the shrinking branch: the free count, and the end mark when a cluster is kept. */
    method CloseChain(list: seq<nat>, k: nat, removed: nat, ghost list0: seq<nat>, ghost v: Volume, ghost i: int)
      returns (ok: bool)
      requires i in lay.chains && |list| + k == |list0| && list == list0[..|list|] && list0 == lay.chains[i]
      requires Valid() && Cutting(g, part.partLen, v, lay, i, vol, |list|)
      modifies this`vol, part, part.dw, part.dw.file`pos
      ensures Valid()
      ensures ok ==> Ended(g, old(vol), list0, |list|, removed, vol)
      ensures part.Dependable() && InfoUsable(g, v) && !(g.kind.FAT12? && list != []) ==> ok
    {
      hide *;
      ghost var v1 := vol;
      ClosingReady(list, list0, v, i);
      ok := UpdateFsInfo(k, removed);
      if !ok {
        return;
      }
      if list != [] {
        ok := MarkEnd(list[|list| - 1]);
      }
      if ok {
        EndedIs(g, v1, list0, |list|, removed, vol);
      }
    }

    lemma ClosingReady(list: seq<nat>, list0: seq<nat>, v: Volume, i: int)
      requires i in lay.chains && |list| <= |list0| && list == list0[..|list|] && list0 == lay.chains[i]
      requires Cutting(g, part.partLen, v, lay, i, vol, |list|)
      ensures |vol.fats| > 0 && InfoFits(g, vol) && |list| < |list0| && g.bytesPerSector > 0
      ensures forall m, j | 0 <= m < |vol.fats| && 0 <= j < |list0| :: list0[j] < |vol.fats[m]|
      ensures list != [] ==> list[|list| - 1] == list0[|list| - 1] && HasEntry(list[|list| - 1])
      ensures list != [] ==> 2 <= list[|list| - 1] < |vol.data|
      ensures InfoUsable(g, v) ==> InfoUsable(g, vol)
    {
      ClosingFrom(g, part.partLen, v, lay, i, vol, |list|);
      hide Cutting, InfoUsable, InfoFits, Entries;
    }

    lemma ShrinkReady(i: int)
      requires Valid() && Sound(g, vol, lay) && i in lay.chains
      ensures |vol.fats| > 0 && i in lay.firsts
    {
      Facts();
      FreeingFrom(g, part.partLen, vol, lay, i);
    }

    lemma ShrinkDone(v: Volume, v1: Volume, list0: seq<nat>, n: nat, i: int, removed: nat)
      requires i in lay.chains && n < |list0| && list0 == lay.chains[i] && Valid()
      requires Cutting(g, part.partLen, v, lay, i, v1, n) && Ended(g, v1, list0, n, removed, vol)
      ensures |vol.fats| > 0 && i in lay.firsts
      ensures Chain(g.kind, vol.fats[0], if n > 0 then lay.firsts[i] else 0, list0[..n]) <==> !(g.kind.FAT12? && n > 0)
      ensures !(g.kind.FAT12? && n > 0) ==>
        && TablesSound(g, vol, WithChain(lay, i, if n > 0 then lay.firsts[i] else 0, list0[..n]))
        && Reworked(g, v, list0, vol, list0[..n])
    {
      Facts();
      hide Valid, Sane, Abs, Sound, Freed, Shaped, TablesSound, Reworked, Closed;
      if g.kind.FAT12? && n > 0 {
        NotCut(g, part.partLen, v, lay, i, v1, n, vol);
      } else {
        CutSound(g, part.partLen, v, lay, i, v1, n, removed, if n > 0 then lay.firsts[i] else 0);
        CutStep(g, part.partLen, v, lay, i, v1, n, removed);
        ChainInTable(g, vol, WithChain(lay, i, if n > 0 then lay.firsts[i] else 0, list0[..n]), i);
      }
    }

    /** The writing loop of `writeFile`, cluster by cluster, and the zeroes behind the last byte. */
    method FillChain(list: seq<nat>, contents: seq<byte>, ghost i: int) returns (ok: bool)
      requires Valid() && TablesSound(g, vol, lay) && i in lay.chains && list == lay.chains[i] && g.bytesPerCluster > 0
      requires |list| == ClustersNeeded(g, |contents|) && Seekable(g, |vol.data|, list)
      modifies this`vol, part, part.dw, part.dw.file`pos
      ensures Valid()
      ensures ok ==> Filling(g, part.partLen, old(vol), list, contents, vol, |list|)
      ensures ok ==> forall k | 0 <= k < |list| :: list[k] < |old(vol).data|
      ensures part.Dependable() && (forall k | 0 <= k < |list| :: list[k] < |old(vol).data|) ==> ok
    {
      hide *;
      ghost var v := vol;
      FillReady(i, contents);
      FillingBounds(g, contents, 0);
      var m, k, pos := g.bytesPerCluster, 0, 0;
      ghost var image1 := Image();
      ok := true;
      while k < |list|
        invariant 0 <= k <= |list| && Valid() && pos == Start(g, k)
        invariant Filling(g, part.partLen, v, list, contents, vol, k)
        invariant forall j | 0 <= j < k :: list[j] < |v.data|
        invariant ok && (list == [] || k < |list|)
      {
        FillingBounds(g, contents, k);
        FillingBounds(g, contents, k + 1);
        FillingSeek(g, part.partLen, v, list, contents, vol, k);
        Facts();
        image1 := Image();
        var n := if m < |contents| - pos then m else |contents| - pos;
        ok := SeekCluster(list[k]);
        if !ok {
          return;
        }
        ok := Write(contents[pos..pos + n]);
        if !ok {
          return;
        }
        if n == m {
          Facts();
          FillingWhole(g, image1, v, list, contents, k);
        }
        assert pos + n == |contents| ==> contents[pos..pos + n] == contents[pos..];
        k, pos := k + 1, pos + m;
        if pos >= |contents| {
          break;
        }
      }
      if list != [] && |contents| % m != 0 {
        FillingBounds(g, contents, k);
        ghost var image2 := Image();
        ok := Write(Zeroes(m - |contents| % m));
        if ok {
          Facts();
          FillingTip(g, image1, image2, Image(), v, list, contents, k - 1);
        }
      }
    }

    lemma FillReady(i: int, contents: seq<byte>)
      requires Valid() && TablesSound(g, vol, lay) && i in lay.chains && g.bytesPerCluster > 0
      requires |lay.chains[i]| == ClustersNeeded(g, |contents|) && Seekable(g, |vol.data|, lay.chains[i])
      ensures Filling(g, part.partLen, vol, lay.chains[i], contents, vol, 0)
    {
      Facts();
      FillingSelf(g, part.partLen, vol, lay, i, contents);
    }

    /** The lookup of `writeFile`, which creates the file when it is not there. */
    method Locate(name: Name, date: nat, time: nat) returns (ok: bool, entry: Entry, ghost i: nat)
      requires Valid() && WellFormed(g, vol, lay)
      requires name == [] || Writable(name) || Find(cs, lay.entries, name) < |lay.entries|
      modifies this, part, part.dw, part.dw.file`pos
      ensures Valid()
      ensures ok && Hides(cs, old(lay), name) ==> Tucked(cs, g, old(vol), old(lay), vol, lay, name, entry)
      ensures ok && !Hides(cs, old(lay), name) ==> Located(cs, g, old(vol), old(lay), vol, lay, name)
      ensures ok && !Hides(cs, old(lay), name) ==>
        i == Find(cs, lay.entries, name) < |lay.entries| && entry == lay.entries[i]
      ensures name != [] && part.Dependable() && old(DirRoom(name, true)) ==> ok
      ensures ok && old(DirRoom(name, true)) ==> lay.root == old(lay).root && Marked()
      ensures ok && part.Dependable() && !g.kind.FAT32? && old(IsNew(name)) ==> old(DirRoom(name, true))
    {
      hide *;
      ghost var v, l := vol, lay;
      var found;
      ghost var short;
      RoomIs(name, true);
      ok, found, entry, short := GetDirEntry(name, true, date, time);
      i := Find(cs, lay.entries, name);
      if ok {
        if found {
          HidesIs(cs, l, name);
          LocatedFound(cs, g, v, l, vol, lay, name);
          LocatedIndex(v, l, name);
          FoundEntries(v, l, name);
          MarkedStays(g, v, l, vol, lay);
        } else {
          CreatedSlots(v, l, name, short, date, time);
          CreatedCases(v, l, name, short, date, time);
        }
        MarkedIs();
      }
    }

    lemma CreatedCases(v: Volume, l: Layout, name: Name, short: seq<byte>, date: nat, time: nat)
      requires WellFormed(g, v, l) && Writable(name) && |short| == 11 && Pick(l.entries, name) == Some(short)
      requires Find(cs, l.entries, name) == |l.entries| && SpaceGrown(g, v, l.root, vol, lay.root)
      requires lay == WithNew(l, lay.root, name, short, date, time) && WellFormed(g, vol, lay)
      ensures Hides(cs, l, name) ==> Tucked(cs, g, v, l, vol, lay, name, ShortEntry(short, date, time))
      ensures !Hides(cs, l, name) ==>
        && Located(cs, g, v, l, vol, lay, name) && Find(cs, lay.entries, name) < |lay.entries|
        && lay.entries[Find(cs, lay.entries, name)] == ShortEntry(short, date, time)
    {
      hide *;
      HidesIs(cs, l, name);
      StorableIs(name);
      if Hides(cs, l, name) {
        TuckedCreated(cs, g, v, l, vol, lay, name, short, date, time);
      } else {
        LocatedCreated(cs, g, v, l, vol, lay, name, short, date, time);
        LocatedIndex(v, l, name);
      }
    }

    lemma StorableIs(name: Name)
      ensures Storable(name) <==> Writable(name) && !IsHidden(name)
    {
    }

    lemma CreatedSlots(v: Volume, l: Layout, name: Name, short: seq<byte>, date: nat, time: nat)
      requires SpaceGrown(g, v, l.root, vol, lay.root) && |short| == 11
      requires lay == WithNew(l, lay.root, name, short, date, time)
      ensures |lay.entries| == |l.entries| + FragmentCount(name) + 1
      ensures SlotCount(g, v, l.root) <= SlotCount(g, vol, lay.root)
    {
      SlotsKept(g, v, l.root, vol, lay.root);
      hide SpaceGrown, FragmentCount, SlotCount;
    }

    lemma FoundEntries(v: Volume, l: Layout, name: Name)
      requires Scanned(g, v, l, vol, lay)
      ensures lay.entries == l.entries
    {
    }

    lemma LocatedIndex(v: Volume, l: Layout, name: Name)
      requires Located(cs, g, v, l, vol, lay, name)
      ensures WellFormed(g, vol, lay) && Find(cs, lay.entries, name) < |lay.entries|
      ensures Find(cs, lay.entries, name) in lay.chains
    {
    }

    /** The two branches of `writeFile` that give the chain of the file its new length. */
    method Resize(list0: seq<nat>, n: nat, ghost i: int) returns (ok: bool, list: seq<nat>)
      requires Valid() && Sound(g, vol, lay) && i in lay.chains && list0 == lay.chains[i]
      requires g.kind.FAT12? ==> n == 0 || n >= |list0|
      modifies this`vol, this`lay, part, part.dw, part.dw.file`pos
      ensures Valid()
      ensures ok ==> Resized(g, old(vol), old(lay), i, vol, lay, list) && |list| == n
      ensures part.Dependable() && Roomy(g, old(vol), Missing(n, |list0|)) ==>
        ok && forall k | 0 <= k < |list| :: list[k] < |vol.data|
    {
      hide *;
      ghost var v, l := vol, lay;
      ResizeReady(i);
      MissingIs(g, v, n, |list0|);
      if |list0| < n {
        ok, list := GrowChain(list0, n, i);
        if ok {
          GrownIsResized(g, v, l, i, list0, vol, lay, list);
        }
      } else if |list0| > n {
        ok, list := ShrinkChain(list0, n, i);
        if ok {
          CutIsResized(g, v, l, i, vol, lay, n, if n > 0 then l.firsts[i] else 0);
        }
      } else {
        ok, list := true, list0;
      }
    }

    lemma ResizeReady(i: int)
      requires Valid() && Sound(g, vol, lay) && i in lay.chains
      ensures TablesSound(g, vol, lay) && Seekable(g, |vol.data|, lay.chains[i])
      ensures Resized(g, vol, lay, i, vol, lay, lay.chains[i])
      ensures forall k | 0 <= k < |lay.chains[i]| :: lay.chains[i][k] < |vol.data|
    {
      Facts();
      ChainInTable(g, vol, lay, i);
      SoundInside(g, vol, lay, i);
      ReworkedSelf(g, vol, lay.chains[i]);
      WithChainSame(lay, i);
    }

    /**
     * The part of `writeFile` that the root branch and the path branch share: writes a file of the root directory.
     * After it the volume is well formed, the file map has the contents under the name and is otherwise the same. Not
     * so for a new name whose short name reads as deleted: nothing is found under it, and another file may be gone. The
     * one case excluded is a FAT12 file that becomes shorter but not empty: see `ShrinkChain`.
     */
    method WriteRootFile(name: Name, contents: seq<byte>, date: nat, time: nat) returns (ok: bool)
      requires Valid() && WellFormed(g, vol, lay)
      requires name == [] || Writable(name) || Find(cs, lay.entries, name) < |lay.entries|
      requires !ShortensOnFat12(cs, g, lay, name, contents)
      modifies this, part, part.dw, part.dw.file`pos
      ensures Valid()
      ensures ok && !Hides(cs, old(lay), name) ==> FileWritten(cs, g, old(vol), old(lay), vol, lay, name, contents)
      ensures ok && Hides(cs, old(lay), name) ==> FileHidden(cs, g, old(vol), old(lay), vol, lay, name, contents)
      ensures name != [] && part.Dependable() && old(DirRoom(name, true)) ==>
        HasRoom(cs, g, old(vol), old(lay), name, contents) ==> ok
      ensures ok && part.Dependable() && !g.kind.FAT32? && old(IsNew(name)) ==> old(DirRoom(name, true))
    {
      hide *;
      ghost var v, l := vol, lay;
      WriteReady();
      var n := ClustersNeeded(g, |contents|);
      var entry, list;
      ghost var i;
      ok, entry, i := Locate(name, date, time);
      if !ok {
        return;
      }
      ghost var v1, l1, hidden := vol, lay, Hides(cs, l, name);
      MarkedIs();
      if hidden {
        lay, i := Spare(l1), |l1.entries|;
        WorkHidden(v, l, l1, name, entry, contents);
      } else {
        WorkLocated(v, l, name, entry, contents);
      }
      ghost var work := lay;
      ok, list := FileClusters(entry, i);
      if !ok {
        return;
      }
      ok, list := Resize(list, n, i);
      if !ok {
        return;
      }
      ghost var v2, l2 := vol, lay;
      Facts();
      FillStart(v1, work, i, list);
      ok := FillChain(list, contents, i);
      if !ok {
        return;
      }
      var first := FirstRecorded(g.kind, list);
      var e := WithContents(entry, first, |contents|, date, time);
      if hidden {
        HiddenEnd(v, l, name, v1, l1, v2, l2, list, contents, entry, date, time);
        lay := l1;
      } else {
        FillEnd(v1, l1, i, v2, l2, list, contents, entry, date, time);
        lay := WithChain(l2, i, First(g.kind, e), list);
      }
      ghost var v3, l3 := vol, lay;
      MarkedIs();
      ok := UpdateDirEntry(e);
      if ok {
        if hidden {
          HiddenDone(cs, g, v, l, name, v1, l1, entry, list, contents, v3, e, vol, lay);
        } else {
          WriteDone(cs, g, v, l, name, v1, l1, list, e, v3, l3, vol, lay, contents);
        }
      }
    }

    /** What the steps in the middle need to know about the file that was found or created. */
    lemma WorkLocated(v: Volume, l: Layout, name: Name, entry: Entry, contents: seq<byte>)
      requires Valid() && Located(cs, g, v, l, vol, lay, name) && !ShortensOnFat12(cs, g, l, name, contents)
      requires var i := Find(cs, lay.entries, name); i < |lay.entries| && entry == lay.entries[i]
      ensures var i, n := Find(cs, lay.entries, name), ClustersNeeded(g, |contents|);
        && Sound(g, vol, lay) && i in lay.chains && i in lay.firsts && First(g.kind, entry) == lay.firsts[i]
        && (g.kind.FAT12? ==> n == 0 || n >= |lay.chains[i]|) && WellFormed(g, vol, lay)
        && (lay.root == l.root && HasRoom(cs, g, v, l, name, contents) ==>
              Roomy(g, vol, Missing(n, |lay.chains[i]|)))
    {
      hide *;
      Facts();
      ShapedCluster();
      LocatedIndex(v, l, name);
      FileChain(g, vol, lay, Find(cs, lay.entries, name));
      WellFormedParts(g, vol, lay);
      SoundChain(g, vol, lay, Find(cs, lay.entries, name));
      LocatedLength(cs, g, v, l, vol, lay, name, contents);
      LocatedRoom(cs, g, v, l, vol, lay, name, contents);
    }

    lemma ShapedCluster()
      requires Shaped(g, vol)
      ensures g.bytesPerCluster > 0
    {
    }

    /** The same for a file whose entry cannot be found. */
    lemma WorkHidden(v: Volume, l: Layout, l1: Layout, name: Name, entry: Entry, contents: seq<byte>)
      requires Valid() && Tucked(cs, g, v, l, vol, l1, name, entry) && lay == Spare(l1)
      ensures g.bytesPerCluster > 0 && Sound(g, vol, lay)
      ensures var i := |l1.entries|;
        && i in lay.chains && i in lay.firsts && First(g.kind, entry) == lay.firsts[i] && lay.chains[i] == []
        && (l1.root == l.root && HasRoom(cs, g, v, l, name, contents) ==>
              Roomy(g, vol, Missing(ClustersNeeded(g, |contents|), 0)))
    {
      hide *;
      TuckedParts(cs, g, v, l, vol, l1, name, entry);
      SpareSound(g, vol, l1);
      HidesIs(cs, l, name);
      HiddenRoom(cs, g, v, l, vol, l1, name, contents);
    }

    /** The state in front of the update of an entry that cannot be found. */
    lemma HiddenEnd(v: Volume, l: Layout, name: Name, v1: Volume, l1: Layout, v2: Volume, l2: Layout, list: seq<nat>,
                    contents: seq<byte>, entry: Entry, date: nat, time: nat)
      requires Valid() && Tucked(cs, g, v, l, v1, l1, name, entry) && InfoFits(g, v2)
      requires Resized(g, v1, Spare(l1), |l1.entries|, v2, l2, list)
      requires Filling(g, part.partLen, v2, list, contents, vol, |list|)
      requires forall k | 0 <= k < |list| :: list[k] < |v2.data|
      ensures g.bytesPerCluster > 0 && FirstRecorded(g.kind, list) < TWO32 && |contents| < TWO32
      ensures var e := WithContents(entry, FirstRecorded(g.kind, list), |contents|, date, time);
        && Steady(g, vol, l1) && Reworked(g, v1, [], vol, list) && |list| == ClustersNeeded(g, |contents|)
        && !IsFragment(e) && ShortBytes(e) == ShortBytes(entry) && FindUpdate(l1.entries, 0, e) < |l1.entries|
        && SlotCount(g, vol, l1.root) == SlotCount(g, v1, l1.root)
    {
      hide *;
      Facts();
      TuckedParts(cs, g, v, l, v1, l1, name, entry);
      ContentsFit(g, part.partLen, v2, list, contents, vol);
      HiddenFilled(g, part.partLen, v1, l1, v2, l2, list, contents, vol);
      ResizedParts(g, v1, Spare(l1), |l1.entries|, v2, l2, list);
      ListInTable(g, v2, l2, |l1.entries|, list);
      EntryRecorded(g, entry, list, |contents|, date, time);
      var e := WithContents(entry, FirstRecorded(g.kind, list), |contents|, date, time);
      SameName(e, entry);
      FindUpdateSame(l1.entries, e, entry);
      ReworkedSlots(g, v1, l1.root, [], vol, list);
    }

    lemma SameName(e: Entry, entry: Entry)
      requires e[..12] == entry[..12]
      ensures ShortBytes(e) == ShortBytes(entry) && (IsFragment(e) <==> IsFragment(entry))
    {
      assert e[11] == e[..12][11] && entry[11] == entry[..12][11];
      assert e[..11] == e[..12][..11] && entry[..11] == entry[..12][..11];
    }

    /**
     * Writes a file. The directory that a path starts with must be there, but it does not matter otherwise: the lookup
     * of the last component goes back to the root directory, so that it is a file of the root directory that is
     * written.
     */
    method WriteFile(filename: Name, contents: seq<byte>, date: nat, time: nat) returns (ok: bool)
      requires Valid() && WellFormed(g, vol, lay)
      requires var name := Target(filename); name == [] || Writable(name) || Find(cs, lay.entries, name) < |lay.entries|
      requires !ShortensOnFat12(cs, g, lay, Target(filename), contents)
      modifies this, part, part.dw, part.dw.file`pos
      ensures Valid()
      ensures ok && !Hides(cs, old(lay), Target(filename)) ==>
        FileWritten(cs, g, old(vol), old(lay), vol, lay, Target(filename), contents)
      ensures ok && Hides(cs, old(lay), Target(filename)) ==>
        FileHidden(cs, g, old(vol), old(lay), vol, lay, Target(filename), contents)
      ensures ok ==> SLASH !in Target(filename) && (SLASH !in filename || old(HasDirectory(filename)))
      ensures filename != [] && part.Dependable() && old(DirRoom(Target(filename), true)) ==>
        HasRoom(cs, g, old(vol), old(lay), Target(filename), contents) ==>
        ok == (SLASH !in filename || old(HasDirectory(filename)))
      ensures ok && part.Dependable() && !g.kind.FAT32? && old(IsNew(Target(filename))) ==>
        old(DirRoom(Target(filename), true))
    {
      hide *;
      if SLASH !in filename {
        TargetIs(filename);
        ok := WriteRootFile(filename, contents, date, time);
        return;
      }
      ghost var v, l := vol, lay;
      var parts := Parts(filename);
      DirectoryIs(filename, parts);
      if |parts| < 2 {
        return false;
      }
      var found, entry;
      ghost var short;
      RoomIs(Target(filename), true);
      RoomIs(parts[0], false);
      DirRoomIs(Target(filename));
      MarkedIs();
      RoomToScan(filename);
      ok, found, entry, short := GetDirEntry(parts[0], false, date, time);
      if !ok || !found || !IsDirectory(entry) {
        return false;
      }
      ghost var v1, l1 := vol, lay;
      ScannedSame(cs, g, v, l, v1, l1, Target(filename), contents);
      SameEntries(cs, l, l1, Target(filename));
      if !g.kind.FAT32? {
        SameDirRoom(v, l, Target(filename));
      }
      ok := WriteRootFile(parts[|parts| - 1], contents, date, time);
      if ok {
        if Hides(cs, l, Target(filename)) {
          ScannedThenHidden(cs, g, v, l, v1, l1, vol, lay, Target(filename), contents);
        } else {
          ScannedThenWritten(cs, g, v, l, v1, l1, vol, lay, Target(filename), contents);
        }
      }
    }

    /** A scan leaves the room in a fixed directory as it was. */
    lemma SameDirRoom(v: Volume, l: Layout, name: Name)
      requires Scanned(g, v, l, vol, lay) && !g.kind.FAT32?
      ensures IsNew(name) <==> name != [] && Find(cs, l.entries, name) == |l.entries|
      ensures DirRoom(name, true) ==>
        && |l.entries| < SlotCount(g, v, l.root)
        && (Find(cs, l.entries, name) == |l.entries| ==>
              Fitting(g, v, l.root, |l.entries| + FragmentCount(name) + 2) && Pick(l.entries, name).Some?)
    {
      hide Find, Pick, FragmentCount, CountKept;
    }

    lemma DirRoomIs(name: Name)
      ensures IsNew(name) <==> name != [] && Find(cs, lay.entries, name) == |lay.entries|
      ensures DirRoom(name, true) <==>
        && |lay.entries| < SlotCount(g, vol, lay.root)
        && (Find(cs, lay.entries, name) == |lay.entries| ==>
              Fitting(g, vol, lay.root, |lay.entries| + FragmentCount(name) + 2) && Pick(lay.entries, name).Some?)
    {
      hide Find, Pick, FragmentCount, Fitting;
    }

    /** The path has two components or more, and the first one is a directory in the root directory. */
    ghost predicate HasDirectory(filename: Name)
      reads this`lay
    {
      |Parts(filename)| >= 2 &&
      var i := Find(cs, lay.entries, Parts(filename)[0]);
      i < |lay.entries| && IsDirectory(lay.entries[i])
    }

    lemma DirectoryIs(filename: Name, parts: seq<Name>)
      requires parts == Parts(filename) && SLASH in filename
      ensures parts != [] ==> Target(filename) == parts[|parts| - 1] && parts[0] != []
      ensures parts != [] ==> parts[|parts| - 1] != []
      ensures HasDirectory(filename) <==>
        |parts| >= 2 && Find(cs, lay.entries, parts[0]) < |lay.entries|
        && IsDirectory(lay.entries[Find(cs, lay.entries, parts[0])])
    {
      hide Find, IsDirectory;
    }

    /** `dir/name` has its directory if and only if what a lookup finds under `dir` has the directory attribute. */
    lemma PathDirectory(dir: Name, name: Name)
      requires dir != [] && SLASH !in dir && name != [] && SLASH !in name
      ensures var i := Find(cs, lay.entries, dir);
        HasDirectory(dir + [SLASH] + name) <==> i < |lay.entries| && lay.entries[i][11] / 0x10 % 2 == 1
    {
      PathTarget(dir, name);
      hide Parts, Find;
    }

    lemma RoomToScan(filename: Name)
      ensures |Parts(filename)| > 0 && DirRoom(Target(filename), true) ==> DirRoom(Parts(filename)[0], false)
    {
    }

    lemma TargetIs(filename: Name)
      requires SLASH !in filename
      ensures Target(filename) == filename
    {
    }

    lemma WriteReady()
      requires Valid() && WellFormed(g, vol, lay)
      ensures g.bytesPerCluster > 0
    {
      Facts();
    }

    lemma FillStart(v1: Volume, l1: Layout, i: int, list: seq<nat>)
      requires Resized(g, v1, l1, i, vol, lay, list)
      ensures TablesSound(g, vol, lay) && i in lay.chains && list == lay.chains[i] && Seekable(g, |vol.data|, list)
    {
    }

    lemma FillSlots(v1: Volume, l1: Layout, i: int, v2: Volume, l2: Layout, list: seq<nat>, contents: seq<byte>)
      requires Resized(g, v1, l1, i, v2, l2, list) && Filling(g, part.partLen, v2, list, contents, vol, |list|)
      ensures l2.root == l1.root && SlotCount(g, vol, l2.root) == SlotCount(g, v1, l1.root)
    {
    }

    /** The state in front of the update of the entry. */
    lemma FillEnd(v1: Volume, l1: Layout, i: nat, v2: Volume, l2: Layout, list: seq<nat>, contents: seq<byte>,
                  entry: Entry, date: nat, time: nat)
      requires Valid() && WellFormed(g, v1, l1) && Resized(g, v1, l1, i, v2, l2, list) && InfoFits(g, v2)
      requires Filling(g, part.partLen, v2, list, contents, vol, |list|)
      requires forall k | 0 <= k < |list| :: list[k] < |v2.data|
      requires i < |l1.entries| && entry == l1.entries[i]
      ensures var e := WithContents(entry, FirstRecorded(g.kind, list), |contents|, date, time);
        var l3 := WithChain(l2, i, First(g.kind, e), list);
        && Refilled(g, v1, l1, i, list, First(g.kind, e), vol, l3, contents) && Steady(g, vol, l3)
        && !IsFragment(e) && e[..12] == entry[..12] && FileSize(e) == |contents|
        && l3.entries == l1.entries && FindUpdate(l3.entries, 0, e) == i
        && Overwritten(l3, i, e) == l3.(entries := l3.entries[i := e])
        && SlotCount(g, vol, l3.root) == SlotCount(g, v1, l1.root)
    {
      FillSlots(v1, l1, i, v2, l2, list, contents);
      Facts();
      ContentsFit(g, part.partLen, v2, list, contents, vol);
      ChainInTable(g, v2, l2, i);
      ChainInTable(g, v1, l1, i);
      EntryRecorded(g, entry, list, |contents|, date, time);
      var e := WithContents(entry, FirstRecorded(g.kind, list), |contents|, date, time);
      UpdatesSlot(l1.entries, i, e);
      hide Valid, Filling, Sound, TablesSound, Reworked, Seekable, Abs, Sane, Consistent, FindUpdate;
      hide FirstRecorded, WithContents, First, FileSize, Shaped, InfoFits, IsEof, SlotCount;
      FillDone(g, part.partLen, v1, l1, i, v2, l2, list, contents, vol, First(g.kind, e));
    }
  }

  /** What is read under any name after a scan is what was read before it. */
  lemma ScannedMap(cs: Charset, g: Geometry, v: Volume, l: Layout, v': Volume, l': Layout)
    requires WellFormed(g, v, l) && Scanned(g, v, l, v', l')
    ensures WellFormed(g, v', l') && Keyed(l) && Keyed(l')
    ensures forall q: Name :: FileMap(cs, v', l', q) == FileMap(cs, v, l, q)
  {
    ScannedWellFormed(g, v, l, v', l');
    ScannedParts(cs, g, v, l, v', l');
    hide *;
  }

  /** What is read after a write, by the two cases of it. */
  lemma ReadAfter(cs: Charset, g: Geometry, v: Volume, l: Layout, v1: Volume, l1: Layout, name: Name,
                  contents: seq<byte>, q: Name)
    requires !Hides(cs, l, name) ==> FileWritten(cs, g, v, l, v1, l1, name, contents)
    requires Hides(cs, l, name) ==> FileHidden(cs, g, v, l, v1, l1, name, contents)
    ensures WellFormed(g, v1, l1) && Keyed(l) && Keyed(l1)
    ensures !Hides(cs, l, name) ==>
      FileMap(cs, v1, l1, q) == if cs.lower(q) == cs.lower(name) then contents else FileMap(cs, v, l, q)
    ensures Hides(cs, l, name) ==>
      FileMap(cs, v1, l1, name) == [] && (Spared(cs, l, name, q) ==> FileMap(cs, v1, l1, q) == FileMap(cs, v, l, q))
  {
    hide *;
    if Hides(cs, l, name) {
      HiddenParts(cs, g, v, l, v1, l1, name, contents);
      HiddenIsSpared(cs, l, name);
      HidesIs(cs, l, name);
      FileMapIs(cs, v, l, name);
    } else {
      WrittenParts(cs, g, v, l, v1, l1, name, contents);
    }
  }

  /**
   * A write to `dir/name`: the entry that a lookup of `dir` finds must be a directory, and then it is the file `name`
   * of the root directory that holds the contents.
   */
  method WriteBelow(fat: FatPartition, dir: Name, name: Name, contents: seq<byte>, date: nat, time: nat)
    returns (ok: bool)
    requires fat.Valid() && WellFormed(fat.g, fat.vol, fat.lay)
    requires dir != [] && SLASH !in dir && name != [] && SLASH !in name
    requires Writable(name) || Find(fat.cs, fat.lay.entries, name) < |fat.lay.entries|
    requires !ShortensOnFat12(fat.cs, fat.g, fat.lay, name, contents)
    modifies fat, fat.part, fat.part.dw, fat.part.dw.file`pos
    ensures fat.Valid()
    ensures ok && !Hides(fat.cs, old(fat.lay), name) ==>
      FileWritten(fat.cs, fat.g, old(fat.vol), old(fat.lay), fat.vol, fat.lay, name, contents)
    ensures ok && Hides(fat.cs, old(fat.lay), name) ==>
      FileHidden(fat.cs, fat.g, old(fat.vol), old(fat.lay), fat.vol, fat.lay, name, contents)
    ensures var es := old(fat.lay.entries); var i := Find(fat.cs, es, dir);
      && (ok ==> i < |es| && es[i][11] / 0x10 % 2 == 1)
      && (fat.part.Dependable() && old(fat.DirRoom(name, true))
          && HasRoom(fat.cs, fat.g, old(fat.vol), old(fat.lay), name, contents) ==>
            (ok <==> i < |es| && es[i][11] / 0x10 % 2 == 1))
  {
    var path := dir + [SLASH] + name;
    assert path[|dir|] == SLASH;
    hide *;
    PathTarget(dir, name);
    fat.PathDirectory(dir, name);
    ok := fat.WriteFile(path, contents, date, time);
  }

  /**
   * A file that was written reads back under its name, or under the last component of its path, and every other one
   * reads as before it. A new file whose short name reads as deleted does not read back, and every other one reads as
   * before but the one whose entry was overwritten.
   */
  method WriteThenRead(fat: FatPartition, filename: Name, contents: seq<byte>, other: Name, date: nat, time: nat)
    returns (ok: bool, mine: seq<byte>, others: seq<byte>)
    requires fat.Valid() && WellFormed(fat.g, fat.vol, fat.lay) && fat.g.bytesPerCluster > 0 && SLASH !in other
    requires var name := Target(filename);
      name == [] || Writable(name) || Find(fat.cs, fat.lay.entries, name) < |fat.lay.entries|
    requires !ShortensOnFat12(fat.cs, fat.g, fat.lay, Target(filename), contents)
    modifies fat, fat.part, fat.part.dw, fat.part.dw.file`pos
    ensures fat.Valid() && Keyed(old(fat.lay))
    ensures ok ==> WellFormed(fat.g, fat.vol, fat.lay)
    ensures ok && !Hides(fat.cs, old(fat.lay), Target(filename)) ==>
      mine == contents && others == if fat.cs.lower(other) == fat.cs.lower(Target(filename)) then contents
                                    else FileMap(fat.cs, old(fat.vol), old(fat.lay), other)
    ensures ok && Hides(fat.cs, old(fat.lay), Target(filename)) ==> mine == []
    ensures ok && Hides(fat.cs, old(fat.lay), Target(filename)) ==>
      Spared(fat.cs, old(fat.lay), Target(filename), other) ==>
      others == FileMap(fat.cs, old(fat.vol), old(fat.lay), other)
  {
    hide *;
    mine, others := [], [];
    ghost var v, l := fat.vol, fat.lay;
    WellFormedKeyed(fat.g, v, l);
    ok := fat.WriteFile(filename, contents, date, time);
    if !ok {
      return;
    }
    ReadAfter(fat.cs, fat.g, v, l, fat.vol, fat.lay, Target(filename), contents, Target(filename));
    ReadAfter(fat.cs, fat.g, v, l, fat.vol, fat.lay, Target(filename), contents, other);
    ghost var v1, l1 := fat.vol, fat.lay;
    ok, mine := fat.ReadFile(Target(filename));
    if !ok {
      return;
    }
    ScannedMap(fat.cs, fat.g, v1, l1, fat.vol, fat.lay);
    ghost var v2, l2 := fat.vol, fat.lay;
    ok, others := fat.ReadFile(other);
    if ok {
      ScannedMap(fat.cs, fat.g, v2, l2, fat.vol, fat.lay);
    }
  }
}
