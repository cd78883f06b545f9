/** The formatter: partition table, boot sectors, free-cluster sector, tables and root directory, written in turn. */
module DiskFormatters {
  import opened Bytes
  import opened BlockDevices
  import opened Volumes
  import opened FsInfos
  import opened Layouts
  import opened BootSectors
  import opened Formatting
  import opened FormattedVolumes
  import opened PartitionTables

  // ----- the partition table -----

  /** Cylinder, head and sector of a block, packed the way the table wants them: head, sector, cylinder. */
  function ChsBytes(lba: nat, limit: nat): (r: seq<byte>)
    ensures |r| == 3
  {
    var cylinder := if lba / 16065 < limit then lba / 16065 else limit;
    [lba / 63 % 255, cylinder / 256 % 4 * 64 + (lba % 63 + 1) % 64, cylinder % 0x100]
  }

  /** The entry of the one bootable FAT32 partition. */
  function MbrEntry(sectors: nat): (r: seq<byte>)
    ensures |r| == 16
  {
    [0x80] + ChsBytes(8192, 1023) + [0x0C] + ChsBytes(U32(8192 + sectors - 1), 1023) + Put32(8192) + Put32(sectors)
  }

  function MbrBytes(sectors: nat): (r: seq<byte>)
    ensures |r| == 512
  {
    Zeroes(446) + MbrEntry(sectors) + Zeroes(48) + [0x55, 0xAA]
  }

  /** The number of sectors the table gives the partition: the device is cut to what 32 bits can count. */
  function MbrSectors(deviceSize: nat): nat {
    U32((if deviceSize / 512 < TWO32 then deviceSize / 512 else TWO32 - 1) - 8192)
  }

  /** The number of sectors the file system is made for: the count of the device is truncated to 32 bits. */
  function FileSystemSectors(deviceSize: nat): nat {
    U32(U32(deviceSize / 512) - 8192)
  }

  /**
   * Table and file system agree exactly up to two terabytes, and where the truncated count happens to be the cut one.
   */
  lemma SectorCountsAgree(deviceSize: nat)
    ensures MbrSectors(deviceSize) == FileSystemSectors(deviceSize) <==>
            deviceSize / 512 < TWO32 || deviceSize / 512 % TWO32 == TWO32 - 1
  {
    var n := deviceSize / 512;
    assert U32(n) == n % TWO32;
    hide Put32;
    if n >= TWO32 {
      WrapDiffers(TWO32 - 1, n % TWO32);
    }
  }

  lemma WrapDiffers(a: nat, b: nat)
    requires a < TWO32 && b < TWO32
    ensures U32(a - 8192) == U32(b - 8192) <==> a == b
  {
  }

  /** Reading the table back: the 32-bit byte products are right exactly for partitions of less than four gigabytes. */
  lemma MbrRoundTrip(sectors: nat)
    requires sectors < TWO32
    ensures var m := MbrBytes(sectors);
      && (MbrHas(m, 1) <==> sectors > 0)
      && MbrStart(m, 1) == 512 * 8192
      && MbrLength(m, 1) == 512 * sectors % TWO32
      && (MbrLength(m, 1) == 512 * sectors <==> 512 * sectors < TWO32)
  {
    MbrFields(sectors);
    hide MbrBytes;
  }

  lemma MbrFields(sectors: nat)
    requires sectors < TWO32
    ensures var m := MbrBytes(sectors);
      m[510] == 0x55 && m[511] == 0xAA && Le32(m, 454) == 8192 && Le32(m, 458) == sectors
  {
    var m, e := MbrBytes(sectors), MbrEntry(sectors);
    assert m[446..462] == e;
    MbrEntryFields(sectors);
    hide MbrBytes, MbrEntry, Le32;
    FieldIn(m, 446, 462, e, 8);
    FieldIn(m, 446, 462, e, 12);
  }

  lemma MbrEntryFields(sectors: nat)
    requires sectors < TWO32
    ensures var e := MbrEntry(sectors); Le32(e, 8) == 8192 && Le32(e, 12) == sectors
  {
    var e := MbrEntry(sectors);
    hide Put32, ChsBytes, Le32;
    assert e[8..12] == Put32(8192) && e[12..16] == Put32(sectors);
    hide MbrEntry;
    PutAt(e, 8, 8192);
    PutAt(e, 12, sectors);
    SmallRemainder(sectors);
  }

  // ----- writing -----

  /** The partition lies on the device and is large enough for what is written. */
  predicate OnDevice(len: nat, start: nat, sectors: nat) {
    && start < 0x8000_0000 && sectors < TWO32 && 512 * (start + sectors) <= len
    && Fits(CalculateFat32Config(sectors), 512 * sectors)
  }

  /** Writing inside a window of the device is writing in the window. */
  lemma SpliceInside(x: seq<byte>, base: nat, p: seq<byte>, off: nat, d: seq<byte>)
    requires base + |p| <= |x| && off + |d| <= |p|
    ensures Splice(Splice(x, base, p), base + off, d) == Splice(x, base, Splice(p, off, d))
  {
    var a, b := Splice(Splice(x, base, p), base + off, d), Splice(x, base, Splice(p, off, d));
    forall i | 0 <= i < |x| ensures a[i] == b[i] {
      SpliceAt(Splice(x, base, p), base + off, d, i);
      SpliceAt(x, base, p, i);
      SpliceAt(x, base, Splice(p, off, d), i);
      if base <= i < base + |p| {
        SpliceAt(p, off, d, i - base);
      }
    }
  }

  /** The partition after `copies` of the two tables were written. */
  function Tables(p: seq<byte>, size: nat, copies: nat): (r: seq<byte>)
    requires size > 0 && copies <= 2 && 16384 + 1024 * size <= |p|
    ensures |r| == |p|
  {
    if copies == 0 then p
    else if copies == 1 then Splice(p, 16384, TableBytes(size))
    else Splice(Splice(p, 16384, TableBytes(size)), 16384 + 512 * size, TableBytes(size))
  }

  lemma TablesStep(p: seq<byte>, size: nat, copies: nat)
    requires size > 0 && copies < 2 && 16384 + 1024 * size <= |p|
    ensures copies * size <= size && 16384 + 512 * (copies * size) + 512 * size <= |p|
    ensures Tables(p, size, copies + 1)
            == Splice(Tables(p, size, copies), 16384 + 512 * (copies * size), TableBytes(size))
  {
    hide TableBytes, Splice;
    if copies == 0 {
      assert copies * size == 0;
    } else {
      assert copies * size == size;
    }
  }

  lemma TablesNone(p: seq<byte>, size: nat)
    requires size > 0 && 16384 + 1024 * size <= |p|
    ensures Tables(p, size, 0) == p
  {
  }

  lemma FormattedIs(s: seq<byte>, c: Fat32Config, start: nat)
    requires Fits(c, |s|)
    ensures 0 < c.sectorsPerCluster && 0 < CalculateSectorsPerFat(c)
    ensures 16384 + 1024 * CalculateSectorsPerFat(c) + 512 * c.sectorsPerCluster <= |s|
    ensures var s1 := Splice(s, 0, BootBytes(c, U32(start)));
      var s2 := Splice(s1, 512, FsInfoBytes(c));
      var s3 := Splice(s2, 3072, BootBytes(c, U32(start + 6)));
      var size := CalculateSectorsPerFat(c);
      Formatted(s, c, start)
      == Splice(Tables(s3, size, 2), 16384 + 1024 * size, Zeroes(512 * c.sectorsPerCluster))
  {
    hide BootBytes, FsInfoBytes, CalculateSectorsPerFat, TableBytes, Splice, U32;
  }

  /** The 32-bit sector numbers are the real ones. */
  lemma OnDeviceIs(len: nat, start: nat, sectors: nat)
    requires OnDevice(len, start, sectors)
    ensures start < 0x8000_0000 && sectors < TWO32 && 512 * (start + sectors) <= len
    ensures var c := CalculateFat32Config(sectors);
      && 0 < c.sectorsPerCluster && 0 < CalculateSectorsPerFat(c) < 0x20_0000
      && 16384 + 1024 * CalculateSectorsPerFat(c) + 512 * c.sectorsPerCluster <= 512 * sectors
      && Fits(c, 512 * sectors)
    ensures var size := CalculateSectorsPerFat(CalculateFat32Config(sectors));
      && U32(start) == start && U32(start + 1) == start + 1
      && U32(start + 6) == start + 6 && U32(start + 32) == start + 32
      && U32(2 * size) == 2 * size && U32(start + 32 + 2 * size) == start + 32 + 2 * size
  {
    ConfigRange(sectors);
    var c := CalculateFat32Config(sectors);
    FitsIs(c, 512 * sectors);
    var size := CalculateSectorsPerFat(c);
    hide CalculateSectorsPerFat, CalculateFat32Config, Fits, U32;
    assert 32 + 2 * size + c.sectorsPerCluster <= sectors;
    SizingBound(sectors);
    SmallWord(start);
    SmallWord(start + 1);
    SmallWord(start + 6);
    SmallWord(start + 32);
    SmallWord(2 * size);
    SmallWord(start + 32 + 2 * size);
  }

  lemma SpliceSame(x: seq<byte>, base: nat, n: nat)
    requires base + n <= |x|
    ensures Splice(x, base, x[base..base + n]) == x
  {
  }

  class DiskFormatter {
    const file: BlockDevice

    constructor (file: BlockDevice)
      ensures this.file == file
    {
      this.file := file;
    }

    method WriteAtOffset(offset: nat, data: seq<byte>) returns (ok: bool)
      modifies file
      ensures |file.content| == |old(file.content)|
      ensures ok ==> offset + |data| <= |file.content| && file.content == Splice(old(file.content), offset, data)
      ensures forall i | 0 <= i < |file.content| && !(offset <= i < offset + |data|) ::
                file.content[i] == old(file.content)[i]
      ensures file.reliable && offset + |data| <= |file.content| ==> ok
    {
      ok := file.Seek(offset);
      if ok {
        ok := file.WriteSequential(data);
      }
    }

    method WriteMbr(deviceSize: nat) returns (ok: bool)
      modifies file
      ensures |file.content| == |old(file.content)|
      ensures ok ==>
        512 <= |file.content| && file.content == Splice(old(file.content), 0, MbrBytes(MbrSectors(deviceSize)))
      ensures file.reliable && 512 <= |file.content| ==> ok
    {
      ok := WriteAtOffset(0, MbrBytes(MbrSectors(deviceSize)));
    }

    /** One step of the formatting: `p` is the partition so far. */
    method Put(sector: nat, data: seq<byte>, ghost x: seq<byte>, ghost base: nat, ghost p: seq<byte>,
               ghost inside: bool)
      returns (ok: bool)
      requires inside ==> base + |p| <= |x| && file.content == Splice(x, base, p)
      requires inside ==> base <= 512 * sector && 512 * sector + |data| <= base + |p|
      modifies file
      ensures |file.content| == |old(file.content)|
      ensures ok && inside ==> file.content == Splice(x, base, Splice(p, 512 * sector - base, data))
      ensures file.reliable && inside ==> ok
    {
      hide *;
      if inside {
        SpliceInside(x, base, p, 512 * sector - base, data);
      }
      ok := WriteAtOffset(512 * sector, data);
    }

    /**
     * Lays out the file system: boot sector, free-cluster sector, backup boot sector, both tables, root directory. The
     * rest of the device stays as it was.
     */
    method WriteFat32(start: nat, sectors: nat) returns (ok: bool)
      requires start < TWO32 && sectors < TWO32
      modifies file
      ensures |file.content| == |old(file.content)|
      ensures ok && OnDevice(|file.content|, start, sectors) ==>
        var base, n := 512 * start, 512 * sectors;
        file.content == Splice(old(file.content), base,
                               Formatted(old(file.content)[base..base + n], CalculateFat32Config(sectors), start))
      ensures file.reliable && OnDevice(|file.content|, start, sectors) ==> ok
    {
      hide *;
      ghost var x, base, inside := file.content, 512 * start, OnDevice(|file.content|, start, sectors);
      var c := CalculateFat32Config(sectors);
      ConfigRange(sectors);
      if inside {
        OnDeviceIs(|x|, start, sectors);
        FormattedIs(x[base..base + 512 * sectors], c, start);
      }
      ghost var p := if inside then x[base..base + 512 * sectors] else [];
      if inside {
        SpliceSame(x, base, 512 * sectors);
      }
      ok := Put(start, BootBytes(c, U32(start)), x, base, p, inside);
      if !ok {
        return;
      }
      p := if inside then Splice(p, 0, BootBytes(c, U32(start))) else p;
      ok := Put(U32(start + 1), FsInfoBytes(c), x, base, p, inside);
      if !ok {
        return;
      }
      p := if inside then Splice(p, 512, FsInfoBytes(c)) else p;
      ok := Put(U32(start + 6), BootBytes(c, U32(start + 6)), x, base, p, inside);
      if !ok {
        return;
      }
      p := if inside then Splice(p, 3072, BootBytes(c, U32(start + 6))) else p;
      ok := WriteFatTables(U32(start + 32), c, x, base, p, inside);
      if !ok {
        return;
      }
      p := if inside then Tables(p, CalculateSectorsPerFat(c), 2) else p;
      var root := U32(U32(start + 32) + U32(2 * CalculateSectorsPerFat(c)));
      ok := Put(root, Zeroes(512 * c.sectorsPerCluster), x, base, p, inside);
    }

    /** Both copies of the table, in a loop over the copies. */
    method WriteFatTables(first: nat, c: Fat32Config, ghost x: seq<byte>, ghost base: nat, ghost p: seq<byte>,
                          ghost inside: bool)
      returns (ok: bool)
      requires 0 < c.sectorsPerCluster && first < TWO32
      requires inside ==> base + |p| <= |x| && file.content == Splice(x, base, p) && 512 * first == base + 16384
      requires inside ==> 0 < CalculateSectorsPerFat(c) < 0x20_0000 && 16384 + 1024 * CalculateSectorsPerFat(c) <= |p|
      requires inside ==> first + 2 * CalculateSectorsPerFat(c) < TWO32
      modifies file
      ensures |file.content| == |old(file.content)|
      ensures ok && inside ==> file.content == Splice(x, base, Tables(p, CalculateSectorsPerFat(c), 2))
      ensures file.reliable && inside ==> ok
    {
      hide *;
      var size := CalculateSectorsPerFat(c);
      if size == 0 {
        return false; // writing the three special entries would leave the buffer
      }
      var copy := 0;
      ghost var q := p;
      if inside {
        TablesNone(p, size);
      }
      while copy < 2
        invariant 0 <= copy <= 2 && |file.content| == |old(file.content)| && |q| == |p|
        invariant inside ==> file.content == Splice(x, base, q)
        invariant inside ==> q == Tables(p, size, copy)
      {
        if inside {
          TablesStep(p, size, copy);
          SmallWord(copy * size);
          SmallWord(first + copy * size);
        }
        ok := Put(U32(first + U32(copy * size)), TableBytes(size), x, base, q, inside);
        if !ok {
          return;
        }
        q := if inside then Tables(p, size, copy + 1) else q;
        copy := copy + 1;
      }
      return true;
    }

    /**
     * Formats a whole device of `deviceSize` bytes: the partition table, then the file system behind the first 4 MB.
     */
    method FormatDrive(deviceSize: nat) returns (ok: bool)
      requires deviceSize == |file.content|
      modifies file
      ensures |file.content| == deviceSize
      ensures ok && FormatsTo(deviceSize) ==>
        IsFormatted(old(file.content), file.content, MbrSectors(deviceSize), FileSystemSectors(deviceSize))
      ensures file.reliable && FormatsTo(deviceSize) ==> ok
    {
      hide *;
      ghost var x := file.content;
      if FormatsTo(deviceSize) {
        FormatsToIs(deviceSize);
      }
      ok := WriteMbr(deviceSize);
      if !ok {
        return;
      }
      ghost var y := file.content;
      var sectors := FileSystemSectors(deviceSize);
      WordSizes(deviceSize);
      ok := WriteFat32(8192, sectors);
      if ok && FormatsTo(deviceSize) {
        FormattedDevice(x, y, file.content, MbrSectors(deviceSize), sectors);
      }
    }
  }

  /** A device whose partition is a FAT32 volume; its count of sectors may have been truncated. */
  predicate FormatsTo(deviceSize: nat) {
    8192 < deviceSize / 512 && Fat32Size(FileSystemSectors(deviceSize))
  }

  lemma WordSizes(deviceSize: nat)
    ensures FileSystemSectors(deviceSize) < TWO32 && 8192 < TWO32
  {
  }

  lemma FormatsToIs(deviceSize: nat)
    requires FormatsTo(deviceSize)
    ensures var sectors := FileSystemSectors(deviceSize);
      && sectors > 0 && Fat32Size(sectors) && OnDevice(deviceSize, 8192, sectors) && 512 <= deviceSize
      && 4194304 + 512 * sectors <= deviceSize && sectors < TWO32
      && Fits(CalculateFat32Config(sectors), 512 * sectors)
    ensures deviceSize / 512 < TWO32 ==>
      FileSystemSectors(deviceSize) == MbrSectors(deviceSize) == deviceSize / 512 - 8192
  {
    FormattedFits(FileSystemSectors(deviceSize));
    EnoughSectors(deviceSize / 512);
    hide U32, Fits, CalculateFat32Config, Sane, GeometryFor;
  }

  /** The truncated count behind the first 4 MB never reaches over the end of the device. */
  lemma EnoughSectors(n: nat)
    requires n > 8192
    ensures 8192 + U32(U32(n) - 8192) <= n
    ensures n < TWO32 ==> U32(n) == n && U32(n - 8192) == n - 8192
  {
    var q, t := n / TWO32, n % TWO32;
    assert n == q * TWO32 + t && U32(n) == t;
    if t >= 8192 {
      SmallWord(t - 8192);
    } else {
      assert U32(t - 8192) == TWO32 + t - 8192;
    }
    if n < TWO32 {
      SmallWord(n);
      SmallWord(n - 8192);
    }
  }

  /** `y` is the device `x` with a table for one count of sectors and a formatted partition of the other. */
  ghost predicate IsFormatted(x: seq<byte>, y: seq<byte>, listed: nat, sectors: nat) {
    && 4194304 + 512 * sectors <= |x| == |y|
    && y[0..512] == MbrBytes(listed) && y[512..4194304] == x[512..4194304]
    && Fits(CalculateFat32Config(sectors), 512 * sectors)
    && y[4194304..4194304 + 512 * sectors]
       == Formatted(x[4194304..4194304 + 512 * sectors], CalculateFat32Config(sectors), 8192)
  }

  lemma FormattedDevice(x: seq<byte>, y: seq<byte>, z: seq<byte>, listed: nat, sectors: nat)
    requires 4194304 + 512 * sectors <= |x| && Fits(CalculateFat32Config(sectors), 512 * sectors)
    requires y == Splice(x, 0, MbrBytes(listed))
    requires z == Splice(y, 4194304,
                         Formatted(y[4194304..4194304 + 512 * sectors], CalculateFat32Config(sectors), 8192))
    ensures IsFormatted(x, z, listed, sectors)
  {
    var n := 512 * sectors;
    var p := Formatted(y[4194304..4194304 + n], CalculateFat32Config(sectors), 8192);
    var m := MbrBytes(listed);
    hide MbrBytes, Formatted, CalculateFat32Config, Fits;
    SpliceWritten(x, 0, m);
    SpliceApart(x, 0, m, 512, 4194304);
    SpliceApart(x, 0, m, 4194304, 4194304 + n);
    SpliceApart(y, 4194304, p, 0, 512);
    SpliceApart(y, 4194304, p, 512, 4194304);
    SpliceWritten(y, 4194304, p);
    hide *;
    assert y[0..512] == m by { SliceZero(y, m); }
  }

  lemma SliceZero(y: seq<byte>, m: seq<byte>)
    requires |m| == 512 <= |y| && y[0..0 + |m|] == m
    ensures y[0..512] == m
  {
  }

  /**
   * Format, then mount: the first partition of the formatted device is found at the right place, with the length that
   * the table lists in the 32 bits that a reader computes it in. Through that window, or any other of less than four
   * gigabytes that holds what was written, its boot sector mounts as the FAT32 geometry the formatter used, the
   * directory is empty, and the free clusters are counted. The volume is well formed exactly for the sizes that can be
   * addressed. A GPT header that was on the device before is still there, and is then used instead of the new table.
   */
  lemma FormatThenMount(x: seq<byte>, y: seq<byte>, listed: nat, sectors: nat, len: nat)
    requires IsFormatted(x, y, listed, sectors) && Fat32Size(sectors) && 0 < listed < TWO32
    requires len <= 512 * sectors && len < TWO32 && Fits(CalculateFat32Config(sectors), len)
    ensures MbrHas(y[0..512], 1) && MbrStart(y[0..512], 1) == 4194304
    ensures MbrLength(y[0..512], 1) == 512 * listed % TWO32
    ensures IsGpt(y[512..1024]) <==> IsGpt(x[512..1024])
    ensures var s := y[4194304..4194304 + len];
      && |s| >= 512 && Parse(s[..512]).Mounted?
      && var g := Parse(s[..512]).g;
         && g == GeometryFor(CalculateFat32Config(sectors)) && Sane(g, |s|)
         && (WellFormed(g, Abs(g, s), EMPTY) <==> sectors < 8388634)
         && InfoUsable(g, Abs(g, s)) && InfoFits(g, Abs(g, s)) && g.fsInfoSector != 0
         && FreeCount(g, Abs(g, s)) == g.countOfClusters - 1
         && |Abs(g, s).data| > 2 && Abs(g, s).data[2] == Zeroes(g.bytesPerCluster)
  {
    hide *;
    IsFormattedParts(x, y, listed, sectors);
    Fat32SizeIs(sectors);
    MbrRoundTrip(listed);
    FormattedFits(sectors);
    var c, all := CalculateFat32Config(sectors), x[4194304..4194304 + 512 * sectors];
    FormattedPrefix(all, c, 8192, len);
    var w, s := all[..len], y[4194304..4194304 + len];
    assert s == y[4194304..4194304 + 512 * sectors][..len];
    FormattedWellFormed(sectors, w, 8192);
    FormattedFreeCount(sectors, w, 8192);
    FormattedParts(sectors, w, 8192);
    FormatThenParse(sectors, U32(8192));
    FormattedRegions(w, c, 8192);
    FitsIs(c, len);
    assert s[..512] == s[0..512];
    ConfigRange(sectors);
    GeometryForIs(c);
  }

  lemma IsFormattedParts(x: seq<byte>, y: seq<byte>, listed: nat, sectors: nat)
    requires IsFormatted(x, y, listed, sectors)
    ensures 4194304 + 512 * sectors <= |x| == |y| && y[0..512] == MbrBytes(listed) && y[512..1024] == x[512..1024]
    ensures Fits(CalculateFat32Config(sectors), 512 * sectors)
    ensures y[4194304..4194304 + 512 * sectors]
            == Formatted(x[4194304..4194304 + 512 * sectors], CalculateFat32Config(sectors), 8192)
  {
    assert y[512..4194304][..512] == y[512..1024] && x[512..4194304][..512] == x[512..1024];
    hide MbrBytes, Formatted, Fits;
  }
}
