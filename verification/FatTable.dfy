/** Reading and writing table entries in the image, in one copy and in all of them. */
module FatTables {
  import opened Bytes
  import opened FatCodec
  import opened Volumes
  import opened Arith

  /** Where the code looks for an entry in copy `m`: FAT16 and FAT32 offsets are computed in 32 bits. */
  function EntryPos(kind: FatKind, g: Geometry, m: nat, c: nat): nat
    requires m < |g.fatStarts|
  {
    if kind.FAT12? then g.fatStarts[m] + EntryOffset(kind, c)
    else (g.fatStarts[m] + EntryOffset(kind, c)) % TWO32
  }

  /** That is the place of the entry exactly when the place is below four gigabytes, and on FAT12 always. */
  lemma EntryPosIsExact(kind: FatKind, g: Geometry, m: nat, c: nat)
    requires m < |g.fatStarts|
    ensures var exact := g.fatStarts[m] + EntryOffset(kind, c);
      && (EntryPos(kind, g, m, c) == exact <==> kind.FAT12? || exact < TWO32)
      && (!kind.FAT12? ==> EntryPos(kind, g, m, c) < TWO32)
  {
  }

  predicate EntryInRange(kind: FatKind, g: Geometry, len: nat, m: nat, c: nat)
    requires m < |g.fatStarts|
  {
    EntryPos(kind, g, m, c) + EntryWidth(kind) <= len
  }

  /** The copies from `m` on have room for the entry. */
  ghost predicate RangeFrom(kind: FatKind, g: Geometry, len: nat, m: nat, c: nat) {
    forall n | m <= n < |g.fatStarts| :: EntryInRange(kind, g, len, n, c)
  }

  /** The value `getFAT` finds in the first copy, for any number, also one past the table. */
  function Link(g: Geometry, s: seq<byte>, c: nat): nat
    requires |g.fatStarts| > 0 && EntryInRange(g.kind, g, |s|, 0, c)
  {
    var o := EntryPos(g.kind, g, 0, c);
    Decode(g.kind, c, s[o..o + EntryWidth(g.kind)])
  }

  /** The image after copy `m` has entry `c` set. */
  function SetEntry(kind: FatKind, g: Geometry, s: seq<byte>, m: nat, c: nat, v: nat): (r: seq<byte>)
    requires m < |g.fatStarts| && EntryInRange(kind, g, |s|, m, c)
    ensures |r| == |s|
  {
    var o := EntryPos(kind, g, m, c);
    Splice(s, o, Encode(kind, c, s[o..o + EntryWidth(kind)], v))
  }

  /** The value written to the next copy: `setFAT32` keeps or-ing reserved bits into it. */
  function Carry(kind: FatKind, g: Geometry, s: seq<byte>, m: nat, c: nat, v: nat): (r: nat)
    requires m < |g.fatStarts| && EntryInRange(kind, g, |s|, m, c)
    ensures Mask(kind, r) == Mask(kind, v)
  {
    if kind.FAT32? then
      var o := EntryPos(kind, g, m, c);
      WithReserved(v, Le32(s[o..o + 4], 0))
    else v
  }

  /** The image after copies `m` and on have entry `c` set. */
  ghost function SetFrom(kind: FatKind, g: Geometry, s: seq<byte>, m: nat, c: nat, v: nat): (r: seq<byte>)
    requires m <= |g.fatStarts| && RangeFrom(kind, g, |s|, m, c)
    ensures |r| == |s|
    decreases |g.fatStarts| - m
  {
    if m == |g.fatStarts| then s
    else SetFrom(kind, g, SetEntry(kind, g, s, m, c, v), m + 1, c, Carry(kind, g, s, m, c, v))
  }

  function Update(fat: seq<nat>, c: nat, v: nat): (r: seq<nat>)
    requires c < |fat|
    ensures |r| == |fat|
  {
    fat[c := v]
  }

  function UpdateFrom(fats: seq<seq<nat>>, m: nat, c: nat, v: nat): (r: seq<seq<nat>>)
    requires forall n | 0 <= n < |fats| :: c < |fats[n]|
    ensures |r| == |fats|
    ensures forall n | 0 <= n < |fats| :: r[n] == if n < m then fats[n] else Update(fats[n], c, v)
  {
    seq(|fats|, n requires 0 <= n < |fats| => if n < m then fats[n] else Update(fats[n], c, v))
  }

  /** For a number the table has, nothing wraps and the entry lies in its copy. */
  lemma EntryPlace(g: Geometry, len: nat, m: nat, c: nat)
    requires Sane(g, len) && m < |g.fatStarts| && c < Entries(g)
    ensures EntryOffset(g.kind, c) + EntryWidth(g.kind) <= FatBytes(g)
    ensures EntryPos(g.kind, g, m, c) == g.fatStarts[m] + EntryOffset(g.kind, c)
    ensures EntryInRange(g.kind, g, len, m, c)
  {
    EntryInside(g, len, c);
    hide EntryOffset, EntryWidth, Entries;
  }

  lemma SetAt(kind: FatKind, s: seq<byte>, lo: nat, hi: nat, c: nat, v: nat)
    requires lo <= hi <= |s| && lo + EntryOffset(kind, c) + EntryWidth(kind) <= hi
    ensures var o := lo + EntryOffset(kind, c);
            Splice(s, o, Encode(kind, c, s[o..o + EntryWidth(kind)], v))[lo..hi] == Set(kind, s[lo..hi], c, v)
  {
    var o, w := EntryOffset(kind, c), EntryWidth(kind);
    hide Encode, EntryOffset, EntryWidth;
    SliceOfSlice(s, lo, hi, o, w);
    SpliceWithin(s, lo + o, Encode(kind, c, s[lo..hi][o..o + w], v), lo, hi);
    hide *;
  }

  lemma SliceOfSlice(s: seq<byte>, lo: nat, hi: nat, o: nat, w: nat)
    requires lo <= hi <= |s| && lo + o + w <= hi
    ensures s[lo + o..lo + o + w] == s[lo..hi][o..o + w]
  {
    var x, y := s[lo + o..lo + o + w], s[lo..hi][o..o + w];
    forall k | 0 <= k < w ensures x[k] == y[k] {
      assert s[lo..hi][o + k] == s[lo + (o + k)];
    }
  }

  lemma CopyInside(g: Geometry, len: nat, m: nat)
    requires Sane(g, len) && m < |g.fatStarts|
    ensures g.fatStarts[m] + FatBytes(g) <= len
  {
  }

  lemma SetEntryDef(kind: FatKind, g: Geometry, s: seq<byte>, m: nat, c: nat, v: nat)
    requires m < |g.fatStarts|
    ensures var o, w := EntryPos(kind, g, m, c), EntryWidth(kind);
      && (EntryInRange(kind, g, |s|, m, c) <==> o + w <= |s|)
      && (EntryInRange(kind, g, |s|, m, c) ==>
            && SetEntry(kind, g, s, m, c, v) == Splice(s, o, Encode(kind, c, s[o..o + w], v))
            && Carry(kind, g, s, m, c, v) == (if kind.FAT32? then WithReserved(v, Le32(s[o..o + w], 0)) else v))
    ensures EntryWidth(kind) == if kind.FAT32? then 4 else 2
  {
    hide Encode, WithReserved, Le32, Mask;
  }

  lemma SetEntryIsSet(g: Geometry, s: seq<byte>, m: nat, c: nat, v: nat)
    requires Sane(g, |s|) && m < |g.fatStarts| && c < Entries(g)
    ensures EntryOffset(g.kind, c) + EntryWidth(g.kind) <= FatBytes(g)
    ensures g.fatStarts[m] + FatBytes(g) <= |s| && EntryInRange(g.kind, g, |s|, m, c)
    ensures SetEntry(g.kind, g, s, m, c, v)[g.fatStarts[m]..g.fatStarts[m] + FatBytes(g)]
            == Set(g.kind, s[g.fatStarts[m]..g.fatStarts[m] + FatBytes(g)], c, v)
  {
    hide *;
    CopyInside(g, |s|, m);
    EntryPlace(g, |s|, m, c);
    SetEntryDef(g.kind, g, s, m, c, v);
    SetAt(g.kind, s, g.fatStarts[m], g.fatStarts[m] + FatBytes(g), c, v);
  }

  lemma FatEntry(g: Geometry, s: seq<byte>, m: nat, e: nat)
    requires Sane(g, |s|) && m < |g.fatStarts| && e < Entries(g)
    ensures EntryOffset(g.kind, e) + EntryWidth(g.kind) <= FatBytes(g) && g.fatStarts[m] + FatBytes(g) <= |s|
    ensures m < |Abs(g, s).fats| && e < |Abs(g, s).fats[m]|
    ensures Abs(g, s).fats[m][e] == Get(g.kind, s[g.fatStarts[m]..g.fatStarts[m] + FatBytes(g)], e)
  {
    EntryInside(g, |s|, e);
    hide Get, EntryOffset, EntryWidth, Entries;
  }

  lemma FatLength(g: Geometry, s: seq<byte>, m: nat)
    requires Sane(g, |s|) && m < |g.fatStarts|
    ensures m < |Abs(g, s).fats| && |Abs(g, s).fats[m]| == Entries(g)
  {
  }

  lemma UpdateIs(fat: seq<nat>, fat': seq<nat>, c: nat, v: nat)
    requires c < |fat| == |fat'| && forall e | 0 <= e < |fat| :: fat'[e] == if e == c then v else fat[e]
    ensures fat' == Update(fat, c, v)
  {
  }

  lemma TableWritten(g: Geometry, s: seq<byte>, m: nat, c: nat, v: nat)
    requires Sane(g, |s|) && m < |g.fatStarts| && c < Entries(g) && EntryInRange(g.kind, g, |s|, m, c)
    ensures Abs(g, SetEntry(g.kind, g, s, m, c, v)).fats[m] == Update(Abs(g, s).fats[m], c, Mask(g.kind, v))
  {
    hide *;
    SetEntryIsSet(g, s, m, c, v);
    FatLength(g, s, m);
    var r := SetEntry(g.kind, g, s, m, c, v);
    FatLength(g, r, m);
    var before, after := Abs(g, s).fats[m], Abs(g, r).fats[m];
    forall e | 0 <= e < |before| ensures after[e] == if e == c then Mask(g.kind, v) else before[e] {
      FatEntry(g, s, m, e);
      FatEntry(g, r, m, e);
      GetSet(g.kind, s[g.fatStarts[m]..g.fatStarts[m] + FatBytes(g)], c, v, e);
    }
    UpdateIs(before, after, c, Mask(g.kind, v));
  }

  /** Setting an entry in one copy of the table changes only that entry of that copy. */
  lemma EntryWritten(g: Geometry, s: seq<byte>, m: nat, c: nat, v: nat)
    requires Sane(g, |s|) && m < |g.fatStarts| && c < Entries(g) && EntryInRange(g.kind, g, |s|, m, c)
    ensures var w := Abs(g, s);
            Abs(g, SetEntry(g.kind, g, s, m, c, v)) == w.(fats := w.fats[m := Update(w.fats[m], c, Mask(g.kind, v))])
  {
    hide *;
    EntryPlace(g, |s|, m, c);
    CopyInside(g, |s|, m);
    SetEntryDef(g.kind, g, s, m, c, v);
    TableWritten(g, s, m, c, v);
    var o := EntryPos(g.kind, g, m, c);
    CopyWritten(g, s, m, o, Encode(g.kind, c, s[o..o + EntryWidth(g.kind)], v));
  }

  /** Writing inside one copy changes no other part of the volume. */
  lemma CopyWritten(g: Geometry, s: seq<byte>, m: nat, o: nat, d: seq<byte>)
    requires Sane(g, |s|) && m < |g.fatStarts| && g.fatStarts[m] + FatBytes(g) <= |s|
    requires g.fatStarts[m] <= o && o + |d| <= g.fatStarts[m] + FatBytes(g)
    ensures var w, r := Abs(g, s), Abs(g, Splice(s, o, d)); r == w.(fats := w.fats[m := r.fats[m]])
  {
    hide Get, Fat, Cluster, Splice, Entries, EntryOffset, EntryWidth, FatBytes, ClusterLimit;
    SpliceApart(s, o, d, 0, g.fatStarts[0]);
    SpliceApart(s, o, d, g.rootStart, g.rootEnd);
    DataSame(g, s, o, d);
    forall n | 0 <= n < |g.fatStarts| && n != m ensures Abs(g, Splice(s, o, d)).fats[n] == Abs(g, s).fats[n] {
      FatSame(g, s, o, d, n);
    }
  }

  /** Setting an entry in the copies from `m` on changes only that entry, to the same masked value in each. */
  lemma {:induction false} EntriesWritten(g: Geometry, s: seq<byte>, m: nat, c: nat, v: nat)
    requires Sane(g, |s|) && m <= |g.fatStarts| && c < Entries(g)
    ensures RangeFrom(g.kind, g, |s|, m, c)
    ensures Abs(g, SetFrom(g.kind, g, s, m, c, v))
            == Abs(g, s).(fats := UpdateFrom(Abs(g, s).fats, m, c, Mask(g.kind, v)))
    decreases |g.fatStarts| - m
  {
    hide *;
    CopiesInRange(g, s, m, c);
    SetFromDef(g.kind, g, s, m, c, v);
    if m == |g.fatStarts| {
      assert UpdateFrom(Abs(g, s).fats, m, c, Mask(g.kind, v)) == Abs(g, s).fats;
    } else {
      var t, v' := SetEntry(g.kind, g, s, m, c, v), Carry(g.kind, g, s, m, c, v);
      EntryWritten(g, s, m, c, v);
      EntriesWritten(g, t, m + 1, c, v');
      UpdateStep(Abs(g, s).fats, m, c, Mask(g.kind, v));
    }
  }

  lemma CopiesInRange(g: Geometry, s: seq<byte>, m: nat, c: nat)
    requires Sane(g, |s|) && m <= |g.fatStarts| && c < Entries(g)
    ensures RangeFrom(g.kind, g, |s|, m, c) && (m < |g.fatStarts| ==> EntryInRange(g.kind, g, |s|, m, c))
    ensures var fats := Abs(g, s).fats; |fats| == |g.fatStarts| && forall n | 0 <= n < |fats| :: c < |fats[n]|
  {
    hide EntryInRange, Entries, Abs;
    forall n | m <= n < |g.fatStarts| ensures EntryInRange(g.kind, g, |s|, n, c) {
      EntryPlace(g, |s|, n, c);
    }
  }

  lemma SetFromDef(kind: FatKind, g: Geometry, s: seq<byte>, m: nat, c: nat, v: nat)
    requires m <= |g.fatStarts|
    ensures m == |g.fatStarts| ==> RangeFrom(kind, g, |s|, m, c) && SetFrom(kind, g, s, m, c, v) == s
    ensures m < |g.fatStarts| ==>
      (RangeFrom(kind, g, |s|, m, c) <==> EntryInRange(kind, g, |s|, m, c) && RangeFrom(kind, g, |s|, m + 1, c))
    ensures m < |g.fatStarts| && RangeFrom(kind, g, |s|, m, c) ==>
      var t, v' := SetEntry(kind, g, s, m, c, v), Carry(kind, g, s, m, c, v);
      (kind.FAT16? ==> v' == v) && SetFrom(kind, g, s, m, c, v) == SetFrom(kind, g, t, m + 1, c, v')
  {
    hide SetEntry, EntryInRange, WithReserved, Le32;
  }

  lemma UpdateStep(fats: seq<seq<nat>>, m: nat, c: nat, x: nat)
    requires m < |fats| && forall n | 0 <= n < |fats| :: c < |fats[n]|
    ensures var t := fats[m := Update(fats[m], c, x)];
      (forall n | 0 <= n < |t| :: c < |t[n]|) && UpdateFrom(t, m + 1, c, x) == UpdateFrom(fats, m, c, x)
  {
    hide Update;
  }

  /** `getFAT` of a number the table has is the entry of the first copy. */
  lemma LinkIsEntry(g: Geometry, s: seq<byte>, c: nat)
    requires Sane(g, |s|) && c < Entries(g)
    ensures EntryInRange(g.kind, g, |s|, 0, c)
    ensures Link(g, s, c) == Abs(g, s).fats[0][c]
  {
    hide *;
    HasCopy(g, |s|);
    CopyInside(g, |s|, 0);
    EntryPlace(g, |s|, 0, c);
    FatEntry(g, s, 0, c);
    SliceOfSlice(s, g.fatStarts[0], g.fatStarts[0] + FatBytes(g), EntryOffset(g.kind, c), EntryWidth(g.kind));
    LinkDef(g, s, c);
  }

  lemma HasCopy(g: Geometry, len: nat)
    requires Sane(g, len)
    ensures |g.fatStarts| > 0
  {
  }

  lemma LinkDef(g: Geometry, s: seq<byte>, c: nat)
    requires |g.fatStarts| > 0 && EntryInRange(g.kind, g, |s|, 0, c)
    ensures var o, w := EntryPos(g.kind, g, 0, c), EntryWidth(g.kind);
      o + w <= |s| && |s[o..o + w]| == w && Link(g, s, c) == Decode(g.kind, c, s[o..o + w])
    ensures forall table: seq<byte> | EntryOffset(g.kind, c) + EntryWidth(g.kind) <= |table| ::
      var o := EntryOffset(g.kind, c); Get(g.kind, table, c) == Decode(g.kind, c, table[o..o + EntryWidth(g.kind)])
  {
    hide Decode, EntryOffset, EntryWidth, EntryPos;
  }

  function PerSector(g: Geometry): nat {
    g.bytesPerSector / EntryWidth(g.kind)
  }

  function SectorPos(g: Geometry, i: nat): nat
    requires |g.fatStarts| > 0
  {
    g.fatStarts[0] + i * g.bytesPerSector
  }

  /** The first cluster whose entry is in sector `i`. */
  function SectorBase(g: Geometry, i: nat): nat {
    i * PerSector(g)
  }

  lemma SectorSteps(g: Geometry, i: nat)
    requires |g.fatStarts| > 0
    ensures SectorPos(g, 0) == g.fatStarts[0] && SectorBase(g, 0) == 0
    ensures SectorPos(g, i + 1) == SectorPos(g, i) + g.bytesPerSector
    ensures SectorBase(g, i + 1) == SectorBase(g, i) + PerSector(g)
  {
    MulStep(i, PerSector(g));
    MulStep(i, g.bytesPerSector);
  }

  /** The sector holds the entries from `base` on. */
  ghost predicate HoldsEntries(kind: FatKind, sector: seq<byte>, fat: seq<nat>, base: nat, n: nat) {
    && |sector| == n * EntryWidth(kind) && base + n <= |fat|
    && forall j | 0 <= j < n :: EntryOf(kind, sector, j) == fat[base + j]
  }

  function EntryOf(kind: FatKind, sector: seq<byte>, j: nat): nat {
    if j * EntryWidth(kind) + EntryWidth(kind) <= |sector| then
      Decode(kind, 0, sector[j * EntryWidth(kind)..j * EntryWidth(kind) + EntryWidth(kind)])
    else 0
  }

  lemma SectorArithmetic(sectors: nat, n: nat, w: nat, i: nat, j: nat)
    requires i < sectors && j < n
    ensures i * n + j < sectors * n
    ensures (i * n + j) * w == i * (w * n) + j * w
    ensures j * w + w <= w * n
    ensures i * (w * n) + w * n <= sectors * (w * n)
  {
    MulLe(i + 1, sectors, n);
    MulStep(i, n);
    MulLe(j + 1, n, w);
    MulStep(j, w);
    MulLe(i + 1, sectors, w * n);
    MulStep(i, w * n);
    assert (i * n + j) * w == i * n * w + j * w;
    assert i * n * w == i * (w * n);
  }

  lemma SectorSizes(g: Geometry, len: nat)
    requires Sane(g, len) && !g.kind.FAT12?
    ensures g.bytesPerSector == EntryWidth(g.kind) * PerSector(g) && PerSector(g) > 0
    ensures Entries(g) == SectorBase(g, g.fatSize)
  {
    WholeEntries(g.bytesPerSector, EntryWidth(g.kind));
    hide EntryOffset, FatBytes;
  }

  /** Sector `i` of the first copy holds the next run of entries. */
  lemma SectorEntries(g: Geometry, s: seq<byte>, i: nat)
    requires Sane(g, |s|) && !g.kind.FAT12? && i < g.fatSize
    ensures SectorPos(g, i) + g.bytesPerSector <= |s|
    ensures HoldsEntries(g.kind, s[SectorPos(g, i)..SectorPos(g, i) + g.bytesPerSector], Abs(g, s).fats[0],
                         SectorBase(g, i), PerSector(g))
  {
    SectorSizes(g, |s|);
    SectorArithmetic(g.fatSize, PerSector(g), EntryWidth(g.kind), i, PerSector(g) - 1);
    assert SectorPos(g, i) + g.bytesPerSector <= |s| && SectorBase(g, i) + PerSector(g) <= Entries(g);
    hide EntryOf, Abs, Sane, Decode, Entries, SectorPos, SectorBase;
    var sector := s[SectorPos(g, i)..SectorPos(g, i) + g.bytesPerSector];
    forall j | 0 <= j < PerSector(g)
      ensures EntryOf(g.kind, sector, j) == Abs(g, s).fats[0][SectorBase(g, i) + j]
    {
      SectorEntryAt(g, s, i, j);
    }
  }

  lemma SectorEntryAt(g: Geometry, s: seq<byte>, i: nat, j: nat)
    requires Sane(g, |s|) && !g.kind.FAT12? && i < g.fatSize && j < PerSector(g)
    ensures SectorPos(g, i) + g.bytesPerSector <= |s| && SectorBase(g, i) + j < Entries(g)
    ensures EntryOf(g.kind, s[SectorPos(g, i)..SectorPos(g, i) + g.bytesPerSector], j)
            == Abs(g, s).fats[0][SectorBase(g, i) + j]
  {
    SectorSizes(g, |s|);
    SectorArithmetic(g.fatSize, PerSector(g), EntryWidth(g.kind), i, j);
    hide EntryOf, Abs, EntryWidth, Decode, Entries, PerSector;
    SectorEntry(g, s, SectorPos(g, i), SectorBase(g, i) + j, j);
  }

  lemma SectorEntry(g: Geometry, s: seq<byte>, lo: nat, c: nat, j: nat)
    requires Sane(g, |s|) && !g.kind.FAT12? && c < Entries(g) && lo + g.bytesPerSector <= |s|
    requires lo + j * EntryWidth(g.kind) == g.fatStarts[0] + c * EntryWidth(g.kind)
    requires j * EntryWidth(g.kind) + EntryWidth(g.kind) <= g.bytesPerSector
    ensures EntryOf(g.kind, s[lo..lo + g.bytesPerSector], j) == Abs(g, s).fats[0][c]
  {
    hide *;
    var w := EntryWidth(g.kind);
    HasCopy(g, |s|);
    LinkIsEntry(g, s, c);
    EntryPlace(g, |s|, 0, c);
    LinkDef(g, s, c);
    OffsetIs(g.kind, c);
    assert s[g.fatStarts[0] + EntryOffset(g.kind, c)..g.fatStarts[0] + EntryOffset(g.kind, c) + w]
           == s[lo + j * w..lo + j * w + w];
    DecodeAnywhere(g.kind, c, s[lo + j * w..lo + j * w + w]);
    SliceOfSlice(s, lo, lo + g.bytesPerSector, j * w, w);
    EntryOfDef(g.kind, s[lo..lo + g.bytesPerSector], j);
  }

  lemma OffsetIs(kind: FatKind, c: nat)
    requires !kind.FAT12?
    ensures EntryOffset(kind, c) == c * EntryWidth(kind)
  {
  }

  lemma EntryOfDef(kind: FatKind, sector: seq<byte>, j: nat)
    requires j * EntryWidth(kind) + EntryWidth(kind) <= |sector|
    ensures var w := EntryWidth(kind);
      |sector[j * w..j * w + w]| == w && EntryOf(kind, sector, j) == Decode(kind, 0, sector[j * w..j * w + w])
  {
    hide Decode;
  }

  lemma DecodeAnywhere(kind: FatKind, c: nat, b: seq<byte>)
    requires !kind.FAT12? && |b| == EntryWidth(kind)
    ensures Decode(kind, 0, b) == Decode(kind, c, b)
  {
  }
}
