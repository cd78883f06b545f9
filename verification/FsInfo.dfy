/** The free-cluster count kept in the FSInfo sector of FAT32, and changes of the table at the level of the volume. */
module FsInfos {
  import opened Bytes
  import opened FatCodec
  import opened Volumes
  import opened FatTables
  import opened Chains

  const UNKNOWN := 0xFFFF_FFFF

  /** The three signatures of the sector. */
  predicate Signed(info: seq<byte>)
    requires |info| == 512
  {
    && info[0..4] == [0x52, 0x52, 0x61, 0x41]
    && info[484..488] == [0x72, 0x72, 0x41, 0x61]
    && info[508..512] == [0, 0, 0x55, 0xAA]
  }

  /** The sector after `delta` clusters became free (or were taken), with the allocation hint replaced unless zero. */
  function NewInfo(info: seq<byte>, delta: int, hint: nat): (r: seq<byte>)
    requires |info| == 512
    ensures |r| == 512
  {
    var count := Le32(info, 488);
    info[..488]
    + Put32(if delta != 0 && count != UNKNOWN then (count + delta) % TWO32 else count)
    + (if hint != 0 then Put32(hint) else info[492..496])
    + info[496..]
  }

  ghost predicate InfoFits(g: Geometry, v: Volume) {
    g.fsInfoSector != 0 ==> g.fsInfoSector * g.bytesPerSector + 512 <= |v.head|
  }

  lemma AbsInfoFits(g: Geometry, s: seq<byte>)
    requires Sane(g, |s|)
    ensures InfoFits(g, Abs(g, s))
  {
    hide Entries, FatBytes, EntryOffset, EntryWidth, Fat, Cluster;
  }

  ghost function InfoOf(g: Geometry, v: Volume): (r: seq<byte>)
    requires InfoFits(g, v) && g.fsInfoSector != 0
    ensures |r| == 512
  {
    v.head[g.fsInfoSector * g.bytesPerSector..g.fsInfoSector * g.bytesPerSector + 512]
  }

  /** `updateFSinfo`: nothing happens without an FSInfo sector. */
  ghost function WithInfo(g: Geometry, v: Volume, delta: int, hint: nat): (r: Volume)
    requires InfoFits(g, v)
    ensures r.fats == v.fats && r.data == v.data && r.root == v.root && InfoFits(g, r)
  {
    if g.fsInfoSector == 0 then v
    else v.(head := Splice(v.head, g.fsInfoSector * g.bytesPerSector, NewInfo(InfoOf(g, v), delta, hint)))
  }

  ghost function WithEntry(v: Volume, c: nat, x: nat): (r: Volume)
    requires forall n | 0 <= n < |v.fats| :: c < |v.fats[n]|
    ensures r.head == v.head && r.data == v.data && r.root == v.root
  {
    v.(fats := UpdateFrom(v.fats, 0, c, x))
  }

  /** `allocateCluster`: the entry marked as an end, and one free cluster fewer. */
  ghost function Allocated(g: Geometry, v: Volume, c: nat): (r: Volume)
    requires InfoFits(g, v)
    requires forall n | 0 <= n < |v.fats| :: c < |v.fats[n]|
    ensures r.data == v.data && r.root == v.root
    ensures r.fats == WithEntry(v, c, EofMark(g.kind)).fats && InfoFits(g, r)
  {
    WithInfo(g, WithEntry(v, c, EofMark(g.kind)), -1, c)
  }

  /** `allocateCluster(previous)`: also linked behind `previous`, unless that is zero. */
  ghost function AllocatedAfter(g: Geometry, v: Volume, previous: nat, c: nat): (r: Volume)
    requires InfoFits(g, v)
    requires forall n | 0 <= n < |v.fats| :: c < |v.fats[n]| && previous < |v.fats[n]|
    ensures r.data == v.data && r.root == v.root && InfoFits(g, r)
  {
    if previous == 0 then Allocated(g, v, c) else WithEntry(Allocated(g, v, c), previous, c)
  }

  /** Where the scan for a free entry starts: on FAT12 behind the two entries that stand for no cluster. */
  function FirstScanned(kind: FatKind): nat {
    if kind.FAT12? then 2 else 0
  }

  /** The entry the scan stops at. */
  predicate ScanStops(kind: FatKind, fat: seq<nat>, c: nat) {
    && FirstScanned(kind) <= c < |fat| && fat[c] == 0
    && forall d | FirstScanned(kind) <= d < c :: fat[d] != 0
  }

  predicate CanStop(kind: FatKind, fat: seq<nat>) {
    exists c :: FirstScanned(kind) <= c < |fat| && fat[c] == 0
  }

  lemma ScanStopsIs(kind: FatKind, fat: seq<nat>, c: nat)
    requires c < |fat| && fat[c] == 0 && (kind.FAT12? ==> 2 <= c)
    requires forall d | (if kind.FAT12? then 2 else 0) <= d < c :: fat[d] != 0
    ensures ScanStops(kind, fat, c)
  {
  }

  lemma ScanStopsHas(kind: FatKind, fat: seq<nat>, c: nat)
    requires ScanStops(kind, fat, c)
    ensures c < |fat| && fat[c] == 0 && CanStop(kind, fat)
  {
  }

  lemma ScanFails(kind: FatKind, fat: seq<nat>)
    requires forall c | (if kind.FAT12? then 2 else 0) <= c < |fat| :: fat[c] != 0
    ensures !CanStop(kind, fat)
  {
  }

  /** The number as it reaches the setter: `setFAT16` takes 16 bits. */
  function Narrow(kind: FatKind, c: nat): (r: nat)
    ensures r <= c && (kind.FAT16? ==> r < TWO16)
  {
    if kind.FAT16? then c % TWO16 else c
  }

  predicate HasFree(fat: seq<nat>) {
    exists c :: 0 <= c < |fat| && fat[c] == 0
  }

  /** `updateFSinfo` will not throw: there is no FSInfo sector, or its signatures are right. */
  ghost predicate InfoUsable(g: Geometry, v: Volume) {
    g.fsInfoSector != 0 ==> InfoFits(g, v) && Signed(InfoOf(g, v))
  }

  predicate FirstFree(fat: seq<nat>, c: nat) {
    c < |fat| && fat[c] == 0 && forall d | 0 <= d < c :: fat[d] != 0
  }

  ghost function FreeCount(g: Geometry, v: Volume): (r: nat)
    requires InfoFits(g, v) && g.fsInfoSector != 0
    ensures r < TWO32
  {
    Le32(InfoOf(g, v), 488)
  }

  /** The recorded count is a count, not the mark for an unknown one. */
  ghost predicate Known(g: Geometry, v: Volume)
    requires InfoFits(g, v) && g.fsInfoSector != 0
  {
    FreeCount(g, v) != UNKNOWN
  }

  /** By how much the recorded count is more, or less, than the number of free entries of the table. */
  ghost function Difference(g: Geometry, v: Volume): int
    requires InfoFits(g, v) && g.fsInfoSector != 0 && |v.fats| > 0
  {
    FreeCount(g, v) - Free(v.fats[0])
  }

  /** Freeing every entry of the table would not push the count over its 32 bits. */
  ghost predicate Bounded(g: Geometry, v: Volume)
    requires InfoFits(g, v) && g.fsInfoSector != 0 && |v.fats| > 0
  {
    Difference(g, v) + |v.fats[0]| < UNKNOWN
  }

  /**
   * A step that takes `taken` clusters on the way, and may give some back. The difference between the recorded count
   * and the free entries stays, whatever it is, for as long as the count is known; it stays known when at least that
   * many clusters were recorded as free. A count that is not known never becomes known.
   */
  ghost predicate CountKept(g: Geometry, v: Volume, v': Volume, taken: nat) {
    && InfoFits(g, v) && InfoFits(g, v') && |v.fats| > 0 && |v'.fats| > 0 && |v'.fats[0]| == |v.fats[0]|
    && Free(v.fats[0]) <= Free(v'.fats[0]) + taken
    && (g.fsInfoSector != 0 ==>
          && (!Known(g, v) ==> !Known(g, v'))
          && (Known(g, v) && Bounded(g, v) ==>
                && (Known(g, v') ==> Difference(g, v') == Difference(g, v))
                && (taken <= FreeCount(g, v) ==> Known(g, v'))))
  }

  /** The count that an update records. */
  function NewCount(count: nat, delta: int): (r: nat)
    requires count < TWO32
    ensures r < TWO32
  {
    if delta != 0 && count != UNKNOWN then (count + delta) % TWO32 else count
  }

  lemma InfoFields(info: seq<byte>, delta: int, hint: nat)
    requires |info| == 512
    ensures var r := NewInfo(info, delta, hint);
            Le32(r, 488) == NewCount(Le32(info, 488), delta) && (Signed(r) <==> Signed(info))
  {
    var n := NewCount(Le32(info, 488), delta);
    InfoParts(info, Put32(n), if hint != 0 then Put32(hint) else info[492..496]);
    hide Put32, Le32;
    FieldOf(NewInfo(info, delta, hint), 488, n);
  }

  lemma InfoParts(info: seq<byte>, count: seq<byte>, next: seq<byte>)
    requires |info| == 512 && |count| == |next| == 4
    ensures var r := info[..488] + count + next + info[496..];
      && |r| == 512 && r[488..492] == count
      && r[0..4] == info[0..4] && r[484..488] == info[484..488] && r[508..512] == info[508..512]
  {
    var r := info[..488] + count + next + info[496..];
    Same(r, info, 0);
    Same(r, info, 484);
    Same(r, info, 508);
  }

  lemma Same(r: seq<byte>, s: seq<byte>, o: nat)
    requires |r| == |s| && o + 4 <= |s| && forall k | o <= k < o + 4 :: r[k] == s[k]
    ensures r[o..o + 4] == s[o..o + 4]
  {
  }

  lemma FieldOf(s: seq<byte>, off: nat, n: nat)
    requires off + 4 <= |s| && s[off..off + 4] == Put32(n) && n < TWO32
    ensures Le32(s, off) == n
  {
    FieldRoundTrip(n);
    assert Le32(s, off) == Le32(s[off..off + 4], 0);
    hide Put32, Le32;
  }

  lemma KeptField(s: seq<byte>, r: seq<byte>, off: nat, part: seq<byte>)
    requires |s| == |r| && off + 4 <= |s| && r[off..off + 4] == part == s[off..off + 4]
    ensures Le32(r, off) == Le32(s, off)
  {
    assert Le32(r, off) == Le32(r[off..off + 4], 0) && Le32(s, off) == Le32(s[off..off + 4], 0);
  }

  lemma HintParts(info: seq<byte>, delta: int, hint: nat, k: nat)
    requires |info| == 512 && k < 512
    ensures var r := NewInfo(info, delta, hint);
      && r[492..496] == (if hint != 0 then Put32(hint) else info[492..496]) && (k < 488 || 496 <= k ==> r[k] == info[k])
  {
    hide Put32, Le32;
  }

  lemma NewCountIs(count: nat, delta: int)
    requires count < TWO32
    ensures count == 0xFFFF_FFFF ==> NewCount(count, delta) == count
    ensures count != 0xFFFF_FFFF && 0 <= count + delta < TWO32 ==> NewCount(count, delta) == count + delta
  {
  }

  lemma WordIs(s: seq<byte>, off: nat, b: seq<byte>)
    requires off + 4 <= |s| && |b| == 4
    ensures s[off..off + 4] == b <==> Le32(s, off) == Le32(b, 0)
  {
    var r := s[off..off + 4];
    assert Le32(s, off) == Le32(r, 0);
    if Le32(r, 0) == Le32(b, 0) {
      SameDigits(r[0], r[1], r[2], r[3], b[0], b[1], b[2], b[3]);
      hide Le32;
    }
  }

  lemma SameDigits(a: byte, b: byte, c: byte, d: byte, w: byte, x: byte, y: byte, z: byte)
    requires a as int + 0x100 * (b as int) + 0x1_0000 * (c as int) + 0x100_0000 * (d as int)
             == w as int + 0x100 * (x as int) + 0x1_0000 * (y as int) + 0x100_0000 * (z as int)
    ensures a == w && b == x && c == y && d == z
  {
    assert d == z;
    assert c == y;
    assert b == x;
  }

  /** The sector is signed by three words. */
  lemma SignedBy(info: seq<byte>)
    requires |info| == 512
    ensures Signed(info) <==>
      Le32(info, 0) == 0x4161_5252 && Le32(info, 484) == 0x6141_7272 && Le32(info, 508) == 0xAA55_0000
  {
    WordIs(info, 0, [0x52, 0x52, 0x61, 0x41]);
    WordIs(info, 484, [0x72, 0x72, 0x41, 0x61]);
    WordIs(info, 508, [0, 0, 0x55, 0xAA]);
  }

  /**
   * An update writes the count and the hint and no other byte of the sector: a count that is not known stays so, a
   * known one changes by the delta where that fits, and the hint stays unless there is a new one.
   */
  lemma InfoLayout(info: seq<byte>, delta: int, hint: nat, k: nat)
    requires |info| == 512 && hint < TWO32 && k < 512
    ensures var r, count := NewInfo(info, delta, hint), Le32(info, 488);
      && (k < 488 || 496 <= k ==> r[k] == info[k])
      && Le32(r, 492) == (if hint > 0 then hint else Le32(info, 492))
      && (count == 0xFFFF_FFFF ==> Le32(r, 488) == count)
      && (count != 0xFFFF_FFFF && 0 <= count + delta < TWO32 ==> Le32(r, 488) == count + delta)
  {
    hide *;
    var r := NewInfo(info, delta, hint);
    InfoFields(info, delta, hint);
    HintParts(info, delta, hint, k);
    NewCountIs(Le32(info, 488), delta);
    if hint > 0 {
      FieldOf(r, 492, hint);
    } else {
      KeptField(info, r, 492, info[492..496]);
    }
  }

  /** The recorded count after an update. */
  lemma CountAfter(g: Geometry, v: Volume, delta: int, hint: nat)
    requires InfoFits(g, v) && g.fsInfoSector != 0
    ensures FreeCount(g, WithInfo(g, v, delta, hint)) == NewCount(FreeCount(g, v), delta)
    ensures Signed(InfoOf(g, v)) <==> Signed(InfoOf(g, WithInfo(g, v, delta, hint)))
  {
    var o, info := g.fsInfoSector * g.bytesPerSector, InfoOf(g, v);
    InfoFields(info, delta, hint);
    hide NewInfo, NewCount, Signed;
    SpliceWritten(v.head, o, NewInfo(info, delta, hint));
  }

  /** The volume after one entry was marked as used and counted. */
  lemma AllocatedParts(g: Geometry, v: Volume, c: nat)
    requires InfoFits(g, v) && |v.fats| > 0
    requires forall n | 0 <= n < |v.fats| :: c < |v.fats[n]|
    requires v.fats[0][c] == 0
    ensures var w := Allocated(g, v, c);
      && |w.fats| > 0 && |w.fats[0]| == |v.fats[0]| && Free(w.fats[0]) == Free(v.fats[0]) - 1 < |v.fats[0]|
      && (g.fsInfoSector != 0 ==> FreeCount(g, w) == NewCount(FreeCount(g, v), -1))
  {
    var w := WithEntry(v, c, EofMark(g.kind));
    assert w.fats[0] == v.fats[0][c := EofMark(g.kind)];
    FreeUpdate(v.fats[0], c, EofMark(g.kind));
    FreeSome(v.fats[0], c);
    if g.fsInfoSector != 0 {
      assert InfoOf(g, w) == InfoOf(g, v);
      CountAfter(g, w, -1, c);
    }
  }

  /** What counting one cluster less does to a known count: at zero it wraps to the mark for an unknown one. */
  lemma CountDown(count: nat)
    requires count < UNKNOWN
    ensures NewCount(count, -1) == if count > 0 then count - 1 else UNKNOWN
  {
  }

  /** An allocation is counted. */
  lemma AllocationCounted(g: Geometry, v: Volume, c: nat)
    requires InfoFits(g, v) && |v.fats| > 0
    requires forall n | 0 <= n < |v.fats| :: c < |v.fats[n]|
    requires v.fats[0][c] == 0
    ensures CountKept(g, v, Allocated(g, v, c), 1)
  {
    AllocatedParts(g, v, c);
    if g.fsInfoSector != 0 && Known(g, v) {
      CountDown(FreeCount(g, v));
    }
    hide Free, Allocated, InfoFits, InfoOf;
  }

  /** An allocation keeps the difference, and the count known, exactly when the recorded count is not zero. */
  lemma AllocationIsExact(g: Geometry, v: Volume, c: nat)
    requires InfoFits(g, v) && |v.fats| > 0 && g.fsInfoSector != 0 && Known(g, v)
    requires forall n | 0 <= n < |v.fats| :: c < |v.fats[n]|
    requires v.fats[0][c] == 0
    ensures var w := Allocated(g, v, c);
      && |w.fats| > 0
      && (Known(g, w) <==> FreeCount(g, v) > 0)
      && (Difference(g, w) == Difference(g, v) <==> FreeCount(g, v) > 0)
  {
    AllocatedParts(g, v, c);
    CountDown(FreeCount(g, v));
    hide Free, Allocated, InfoFits, InfoOf;
  }

  /** Changing an entry that is in use into another value in use keeps the count. */
  lemma LinkCounted(g: Geometry, v: Volume, c: nat, x: nat)
    requires InfoFits(g, v) && |v.fats| > 0
    requires forall n | 0 <= n < |v.fats| :: c < |v.fats[n]|
    requires v.fats[0][c] != 0 && x != 0
    ensures CountKept(g, v, WithEntry(v, c, x), 0)
  {
    var w := WithEntry(v, c, x);
    assert w.fats[0] == v.fats[0][c := x];
    FreeUpdate(v.fats[0], c, x);
    if g.fsInfoSector != 0 {
      assert InfoOf(g, w) == InfoOf(g, v);
    }
    hide Free, WithEntry, InfoOf;
  }

  lemma CountKeptTransitive(g: Geometry, u: Volume, v: Volume, w: Volume, m: nat, n: nat)
    requires CountKept(g, u, v, m) && CountKept(g, v, w, n)
    ensures CountKept(g, u, w, m + n)
  {
    hide Free, FreeCount, InfoFits;
  }

  /** A known count with less than `taken` clusters does not survive a step that ends with that many fewer. */
  lemma CountRunsOut(g: Geometry, v: Volume, v': Volume, taken: nat)
    requires CountKept(g, v, v', taken) && g.fsInfoSector != 0 && Known(g, v) && Bounded(g, v)
    requires Free(v'.fats[0]) + taken == Free(v.fats[0])
    ensures Known(g, v') <==> taken <= FreeCount(g, v)
    ensures Known(g, v') ==> FreeCount(g, v') == FreeCount(g, v) - taken
  {
    hide Free, FreeCount, InfoFits;
  }

  /** Allocating a free cluster behind a used one, or behind none, is counted. */
  lemma AllocatedAfterCounted(g: Geometry, v: Volume, previous: nat, c: nat)
    requires InfoFits(g, v) && |v.fats| > 0
    requires forall n | 0 <= n < |v.fats| :: c < |v.fats[n]| && previous < |v.fats[n]|
    requires v.fats[0][c] == 0 && c != 0 && (previous != 0 ==> v.fats[0][previous] != 0)
    ensures CountKept(g, v, AllocatedAfter(g, v, previous, c), 1)
  {
    AllocationCounted(g, v, c);
    if previous != 0 {
      var w := Allocated(g, v, c);
      assert w.fats[0] == v.fats[0][c := EofMark(g.kind)];
      LinkCounted(g, w, previous, c);
      CountKeptTransitive(g, v, w, WithEntry(w, previous, c), 1, 0);
    }
    hide CountKept, Allocated, WithEntry;
  }
}
