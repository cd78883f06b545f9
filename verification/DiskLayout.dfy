/** What the formatter lays out besides what mounting reads: the other fields, and the places they name. */
module DiskLayouts {
  import opened Bytes
  import opened Volumes
  import opened FsInfos
  import opened BootSectors
  import opened Formatting
  import opened FormattedVolumes
  import opened GptLayouts
  import opened DiskFormatters

  // ----- the partition table -----

  /** The block that cylinder, head and sector stand for, with 255 heads and 63 sectors. */
  function BlockOf(chs: seq<byte>): int
    requires |chs| == 3
  {
    var cylinder := chs[1] as int / 64 * 256 + chs[2] as int;
    (cylinder * 255 + chs[0] as int) * 63 + chs[1] as int % 64 - 1
  }

  /** The packed place of a block stands for that block, up to the last cylinder that can be packed. */
  lemma ChsRoundTrip(lba: nat)
    requires lba < 1024 * 255 * 63
    ensures BlockOf(ChsBytes(lba, 1023)) == lba
  {
    var c, h, s := lba / 16065, lba / 63 % 255, lba % 63;
    assert lba == (lba / 63) * 63 + s && lba / 63 == (lba / 63 / 255) * 255 + h;
    Cylinders(lba);
    assert c < 1024;
  }

  lemma Cylinders(lba: nat)
    ensures lba / 63 / 255 == lba / 16065
  {
  }

  /** The cylinder of a later block is the last one. */
  lemma ChsClamped(lba: nat)
    requires lba >= 1023 * 255 * 63
    ensures var b := ChsBytes(lba, 1023); b[1] / 64 == 3 && b[2] == 0xFF
  {
  }

  /**
   * One bootable partition of the type for FAT32 with block addresses; the three other entries are empty. Cylinder,
   * head and sector name its first and its last block, or for a last block that they cannot name, the last cylinder.
   */
  lemma MbrLayout(sectors: nat, k: nat)
    requires 0 < sectors && 8192 + sectors <= TWO32
    ensures var m, last := MbrBytes(sectors), 8192 + sectors - 1;
      && m[446] == 0x80 && m[450] == 0x0C && BlockOf(m[447..450]) == 8192
      && (if last < 1024 * 255 * 63 then BlockOf(m[451..454]) == last else m[452] / 64 == 3 && m[453] == 0xFF)
      && (k < 446 || 462 <= k < 510 ==> m[k] == 0)
  {
    var m, last := MbrBytes(sectors), 8192 + sectors - 1;
    assert U32(last) == last;
    ChsRoundTrip(8192);
    if last < 1024 * 255 * 63 {
      ChsRoundTrip(last);
    } else {
      ChsClamped(last);
    }
    hide ChsBytes, Put32, BlockOf, U32;
    assert m[447..450] == ChsBytes(8192, 1023);
    assert m[451..454] == ChsBytes(last, 1023);
  }

  // ----- the boot sector and its copy -----

  /** The boot sector but for its hidden sectors. */
  lemma BootAround(c: Fat32Config, hidden: nat)
    requires c.sectorsPerCluster > 0
    ensures var b := BootBytes(c, hidden);
      && b[24..26] == Put16(63) && b[26..28] == Put16(255) && b[28..32] == Put32(hidden) && b[50..52] == Put16(6)
      && b[48..50] == Put16(1) && b[67..71] == Put32(c.volumeId) && b[71..82] == Label(c)
  {
    hide Put16, Put32, Label, BootFields, CalculateSectorsPerFat;
    var b, f, p := BootBytes(c, hidden), BootSizes(c, hidden), BootPlaces();
    BootParts(c, hidden);
    assert f[0..2] == Put16(63) && f[2..4] == Put16(255) && f[4..8] == Put32(hidden);
    assert p[8..10] == Put16(1) && p[10..12] == Put16(6);
    assert b[24..26] == b[24..40][0..2] && b[26..28] == b[24..40][2..4] && b[28..32] == b[24..40][4..8];
    assert b[48..50] == b[40..64][8..10] && b[50..52] == b[40..64][10..12];
    hide BootSizes, BootPlaces;
  }

  lemma BootFixed(c: Fat32Config, hidden: nat)
    requires c.sectorsPerCluster > 0
    ensures var b := BootBytes(c, hidden);
      && b[0] == 0xEB && b[1] == 0x58 && b[2] == 0x90 && b[21] == 0xF8 && b[64] == 0x80 && b[65] == 0 && b[66] == 0x29
      && b[3..11] == [0x6D, 0x6B, 0x66, 0x73, 0x2E, 0x66, 0x61, 0x74]
      && b[82..90] == [0x46, 0x41, 0x54, 0x33, 0x32, 0x20, 0x20, 0x20]
      && forall k | 90 <= k < 510 :: b[k] == 0
  {
    hide Put32, Label, BootSizes, BootPlaces, CalculateSectorsPerFat;
  }

  lemma LabelSpells(c: Fat32Config)
    requires c.volumeLabel == LABEL
    ensures Spells(Label(c), "BOOT       ")
  {
  }

  lemma NamesSpelled(oem: seq<byte>, kind: seq<byte>)
    requires oem == [0x6D, 0x6B, 0x66, 0x73, 0x2E, 0x66, 0x61, 0x74]
    requires kind == [0x46, 0x41, 0x54, 0x33, 0x32, 0x20, 0x20, 0x20]
    ensures Spells(oem, "mkfs.fat") && Spells(kind, "FAT32   ")
  {
  }

  /** The fields that mounting does not look at. */
  lemma BootLayout(c: Fat32Config, hidden: nat)
    requires c.sectorsPerCluster > 0 && c.volumeLabel == LABEL && hidden < TWO32 && c.volumeId < TWO32
    ensures var b := BootBytes(c, hidden);
      && b[0] == 0xEB && b[1] == 0x58 && b[2] == 0x90 && b[21] == 0xF8 && b[64] == 0x80 && b[65] == 0 && b[66] == 0x29
      && Spells(b[3..11], "mkfs.fat") && Spells(b[71..82], "BOOT       ") && Spells(b[82..90], "FAT32   ")
      && Le16(b, 24) == 63 && Le16(b, 26) == 255 && Le32(b, 28) == hidden && Le32(b, 67) == c.volumeId
      && forall k | 90 <= k < 510 :: b[k] == 0
  {
    hide *;
    var b := BootBytes(c, hidden);
    BootAround(c, hidden);
    BootFixed(c, hidden);
    LabelSpells(c);
    NamesSpelled(b[3..11], b[82..90]);
    PutAt(b, 24, 63);
    PutAt(b, 26, 255);
    PutAt(b, 28, hidden);
    PutAt(b, 67, c.volumeId);
    SmallRemainder(hidden);
    SmallRemainder(c.volumeId);
    SmallFields();
  }

  lemma SmallFields()
    ensures 63 % TWO16 == 63 && 255 % TWO16 == 255 && 1 % TWO16 == 1 && 6 % TWO16 == 6 && 3 % TWO32 == 3
  {
  }

  lemma FormattedCopy(s: seq<byte>, c: Fat32Config, start: nat, k: nat)
    requires Fits(c, |s|) && k < |s|
    ensures var r := Formatted(s, c, start);
      var behind := 16384 + 1024 * CalculateSectorsPerFat(c) + 512 * c.sectorsPerCluster;
      && r[3072..3584] == BootBytes(c, U32(start + 6))
      && (1024 <= k < 3072 || 3584 <= k < 16384 || behind <= k ==> r[k] == s[k])
  {
    hide *;
    FormattedSteps(s, c, start);
    FitsIs(c, |s|);
    var size, room := CalculateSectorsPerFat(c), 512 * c.sectorsPerCluster;
    var boot, info, boot', table, zeroes :=
      BootBytes(c, U32(start)), FsInfoBytes(c), BootBytes(c, U32(start + 6)), TableBytes(size), Zeroes(room);
    var s1 := Splice(s, 0, boot);
    var s2 := Splice(s1, 512, info);
    var s3 := Splice(s2, 3072, boot');
    var s4 := Splice(s3, 16384, table);
    var s5 := Splice(s4, 16384 + 512 * size, table);
    SpliceWritten(s2, 3072, boot');
    Survives(s3, 16384, table, 3072, 3584);
    Survives(s4, 16384 + 512 * size, table, 3072, 3584);
    Survives(s5, 16384 + 1024 * size, zeroes, 3072, 3584);
    SpliceAt(s, 0, boot, k);
    SpliceAt(s1, 512, info, k);
    SpliceAt(s2, 3072, boot', k);
    SpliceAt(s3, 16384, table, k);
    SpliceAt(s4, 16384 + 512 * size, table, k);
    SpliceAt(s5, 16384 + 1024 * size, zeroes, k);
  }

  lemma SameElsewhere(c: Fat32Config, h: nat, h': nat, k: nat)
    requires c.sectorsPerCluster > 0 && k < 512 && !(28 <= k < 32)
    ensures BootBytes(c, h)[k] == BootBytes(c, h')[k]
  {
    hide BootFields, BootPlaces, Put16, Put32, Label, CalculateSectorsPerFat;
  }

  /**
   * The copy of the boot sector is in the sector that the boot sector names for it, and differs in the number of that
   * sector alone. Between the structures, and behind the root directory, formatting changes nothing.
   */
  lemma BackupIsNamed(s: seq<byte>, c: Fat32Config, start: nat, k: nat)
    requires Fits(c, |s|) && k < |s| && start + 6 < TWO32
    ensures |s| >= 4096 && 0 < c.sectorsPerCluster
    ensures var r := Formatted(s, c, start);
      var at := 512 * Le16(r, 50);
      && at + 512 <= |s| && Le32(r, 28) == start && Le32(r, at + 28) == start + at / 512
      && (k < 512 && !(28 <= k < 32) ==> r[at + k] == r[k])
      && (1024 <= k < at || at + 512 <= k < 16384 ==> r[k] == s[k])
      && (16384 + 1024 * CalculateSectorsPerFat(c) + 512 * c.sectorsPerCluster <= k ==> r[k] == s[k])
  {
    hide *;
    FormattedSteps(s, c, start);
    var r, b, copy := Formatted(s, c, start), BootBytes(c, start), BootBytes(c, start + 6);
    Shorter(start);
    SmallFields();
    FormattedRegions(s, c, start);
    FormattedCopy(s, c, start, k);
    BootAround(c, start);
    BootAround(c, start + 6);
    PutAt(b, 28, start);
    PutAt(b, 50, 6);
    PutAt(copy, 28, start + 6);
    FieldIn(r, 0, 512, b, 28);
    FieldIn(r, 0, 512, b, 50);
    FieldIn(r, 3072, 3584, copy, 28);
    if k < 512 && !(28 <= k < 32) {
      SameElsewhere(c, start, start + 6, k);
      FieldIn(r, 0, 512, b, k);
      FieldIn(r, 3072, 3584, copy, k);
    }
  }

  lemma Shorter(start: nat)
    requires start + 6 < TWO32
    ensures U32(start) == start == start % TWO32 && U32(start + 6) == start + 6 == (start + 6) % TWO32
  {
  }

  /** The recorded hint is the first free cluster. */
  lemma HintIsFirstFree(sectors: nat, s: seq<byte>, start: nat)
    requires Fat32Size(sectors) && Fits(CalculateFat32Config(sectors), |s|) && |s| < TWO32
    requires Sane(GeometryFor(CalculateFat32Config(sectors)), |s|)
    ensures var g := GeometryFor(CalculateFat32Config(sectors));
      var v := Abs(g, Formatted(s, CalculateFat32Config(sectors), start));
      && InfoFits(g, v) && g.fsInfoSector != 0 && |v.fats| == 2
      && FirstFree(v.fats[0], Le32(InfoOf(g, v), 492))
  {
    hide *;
    var c := CalculateFat32Config(sectors);
    ConfigRange(sectors);
    FormattedParts(sectors, s, start);
    FormattedEntries(sectors, s, start);
    FormattedFits(sectors);
    HintRead(c);
    FreshFirst(Abs(GeometryFor(c), Formatted(s, c, start)).fats[0]);
  }

  lemma HintRead(c: Fat32Config)
    requires c.sectorsPerCluster > 0
    ensures Le32(FsInfoBytes(c), 492) == 3
  {
    var f := FsInfoBytes(c);
    hide ClusterCount, Put32, U32, Le32;
    assert f[492..496] == Put32(3);
    hide FsInfoBytes;
    PutAt(f, 492, 3);
  }

  lemma FreshFirst(fat: seq<nat>)
    requires |fat| > 3 && forall e | 0 <= e < |fat| :: fat[e] == FreshEntry(e)
    ensures FirstFree(fat, 3)
  {
  }
}
