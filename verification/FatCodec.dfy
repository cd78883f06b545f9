/** FAT entries inside one copy of the table: 12 bits packed in pairs, 16 bits, or 28 of 32 bits. */
module FatCodec {
  import opened Bytes
  import opened Arith

  datatype FatKind = FAT12 | FAT16 | FAT32

  /** The smallest entry value that ends a chain. */
  function EofMin(kind: FatKind): nat {
    match kind
    case FAT12 => 0xFF8
    case FAT16 => 0xFFF8
    case FAT32 => 0xFFF_FFF8
  }

  /** The value written to end a chain. */
  function EofMark(kind: FatKind): nat {
    match kind
    case FAT12 => 0xFFF
    case FAT16 => 0xFFFF
    case FAT32 => 0xFFF_FFFF
  }

  function EntryOffset(kind: FatKind, cluster: nat): nat {
    match kind
    case FAT12 => cluster + cluster / 2
    case FAT16 => cluster * 2
    case FAT32 => cluster * 4
  }

  function EntryWidth(kind: FatKind): nat {
    if kind.FAT32? then 4 else 2
  }

  /** The part of a value that an entry of this kind can hold. */
  function Mask(kind: FatKind, v: nat): nat {
    match kind
    case FAT12 => v % 0x1000
    case FAT16 => v % TWO16
    case FAT32 => v % TWO28
  }

  /** Bitwise or of two 4-bit values. */
  function OrNibble(a: nat, b: nat): (r: nat)
    requires a < 16 && b < 16
    ensures r < 16
    ensures a == b ==> r == a
    ensures a == 0 ==> r == b
  {
    OrBit(a / 8, b / 8) * 8 + OrBit(a / 4 % 2, b / 4 % 2) * 4 + OrBit(a / 2 % 2, b / 2 % 2) * 2 + OrBit(a % 2, b % 2)
  }

  function OrBit(a: nat, b: nat): nat {
    if a == 0 && b == 0 then 0 else 1
  }

  /** `getFAT12` and `getFAT`: the entry of `cluster` from the bytes that hold it. */
  function Decode(kind: FatKind, cluster: nat, b: seq<byte>): nat
    requires |b| == EntryWidth(kind)
  {
    match kind
    case FAT12 =>
      if cluster % 2 == 1 then (b[1] as int) * 16 + b[0] as int / 16
      else (b[1] as int) % 16 * 0x100 + b[0] as int
    case FAT16 => Le16(b, 0)
    case FAT32 => Le32(b, 0) % TWO28
  }

  /** The new bytes of an entry; FAT12 keeps the neighbour's half byte, FAT32 the reserved top four bits. */
  function Encode(kind: FatKind, cluster: nat, b: seq<byte>, v: nat): (r: seq<byte>)
    requires |b| == EntryWidth(kind)
    ensures |r| == |b|
  {
    match kind
    case FAT12 =>
      if cluster % 2 == 1 then [b[0] % 16 + v % 16 * 16, v / 16 % 0x100]
      else [v % 0x100, b[1] / 16 * 16 + v / 0x100 % 16]
    case FAT16 => Put16(v)
    case FAT32 => Put32(WithReserved(v, Le32(b, 0)))
  }

  /** `v` with the reserved bits of the previous entry or-ed in. */
  function WithReserved(v: nat, previous: nat): (r: nat)
    requires previous < TWO32
    ensures r < TWO32
    ensures r % TWO28 == v % TWO28
  {
    v % TWO28 + TWO28 * OrNibble(v / TWO28 % 16, previous / TWO28)
  }

  function Get(kind: FatKind, table: seq<byte>, cluster: nat): nat
    requires EntryOffset(kind, cluster) + EntryWidth(kind) <= |table|
  {
    var o := EntryOffset(kind, cluster);
    Decode(kind, cluster, table[o..o + EntryWidth(kind)])
  }

  function Set(kind: FatKind, table: seq<byte>, cluster: nat, v: nat): (r: seq<byte>)
    requires EntryOffset(kind, cluster) + EntryWidth(kind) <= |table|
    ensures |r| == |table|
  {
    var o := EntryOffset(kind, cluster);
    Splice(table, o, Encode(kind, cluster, table[o..o + EntryWidth(kind)], v))
  }

  lemma PackHalves(half: nat, u: nat)
    requires half < 16 && u < 16
    ensures (half + u * 16) / 16 == u && (half + u * 16) % 16 == half
  {
  }

  /** The low part of `v` modulo `a * b`, from its digits. */
  lemma SplitAt(v: nat, a: nat, b: nat)
    requires a > 0 && b > 0
    ensures v / a % b * a + v % a == v % (a * b)
    ensures v % (a * b) % a == v % a
  {
    var n, low := v / a, v % a;
    DigitsOf(v, a);
    DigitsOf(n, b);
    Regroup(n / b, n % b, low, a, b);
    DivModUnique(n / b, n % b * a + low, a * b);
    DivModUnique(n % b, low, a);
  }

  lemma DigitsOf(v: nat, a: nat)
    requires a > 0
    ensures v / a * a + v % a == v && v % a < a
  {
  }

  lemma Regroup(q: nat, h: nat, low: nat, a: nat, b: nat)
    requires h < b && low < a
    ensures (q * b + h) * a + low == q * (a * b) + (h * a + low) && h * a + low < a * b
  {
    MulLe(h + 1, b, a);
    MulStep(h, a);
    assert (q * b + h) * a == q * b * a + h * a;
    assert q * b * a == q * (a * b);
  }

  lemma SplitBits(v: nat)
    ensures v / 16 % 0x100 * 16 + v % 16 == v % 0x1000
    ensures v / 0x100 % 16 * 0x100 + v % 0x100 == v % 0x1000
  {
    SplitAt(v, 16, 0x100);
    SplitAt(v, 0x100, 16);
  }

  lemma Pack12(low: nat, high: nat, v: nat)
    requires low < 0x100 && high < 0x100
    ensures v / 16 % 0x100 * 16 + (low % 16 + v % 16 * 16) / 16 == v % 0x1000
    ensures (high / 16 * 16 + v / 0x100 % 16) % 16 * 0x100 + v % 0x100 == v % 0x1000
    ensures (low % 16 + v % 16 * 16) % 0x10 == low % 16
    ensures (high / 16 * 16 + v / 0x100 % 16) / 16 == high / 16
  {
    SplitBits(v);
    PackHalves(low % 16, v % 16);
    PackHalves(v / 0x100 % 16, high / 16);
  }

  lemma DecodeEncode(kind: FatKind, cluster: nat, b: seq<byte>, v: nat)
    requires |b| == EntryWidth(kind)
    ensures Decode(kind, cluster, Encode(kind, cluster, b, v)) == Mask(kind, v)
  {
    match kind
    case FAT12 => Pack12(b[0], b[1], v);
    case FAT16 => FieldRoundTrip(v);
    case FAT32 => DecodeEncode32(cluster, b, v);
  }

  lemma DecodeEncode32(cluster: nat, b: seq<byte>, v: nat)
    requires |b| == 4
    ensures Decode(FAT32, cluster, Encode(FAT32, cluster, b, v)) == v % TWO28
    ensures Le32(Encode(FAT32, cluster, b, v), 0) == WithReserved(v, Le32(b, 0))
  {
    var r := WithReserved(v, Le32(b, 0));
    assert r < TWO32 && r % TWO28 == v % TWO28;
    assert Encode(FAT32, cluster, b, v) == Put32(r);
    hide *;
    FieldRoundTrip(r);
    assert Le32(Put32(r), 0) == r % TWO32;
    Small(r, TWO32);
    DecodeIs(cluster, Put32(r));
  }

  lemma Small(r: nat, m: nat)
    requires r < m
    ensures r % m == r
  {
  }

  lemma DecodeIs(cluster: nat, b: seq<byte>)
    requires |b| == 4
    ensures Decode(FAT32, cluster, b) == Le32(b, 0) % TWO28
  {
  }

  /** FAT12: writing an entry leaves the neighbour that shares a byte with it alone. */
  lemma Neighbour12(table: seq<byte>, c: nat, v: nat, d: nat)
    requires c + c / 2 + 2 <= |table| && d + d / 2 + 2 <= |table|
    requires (c % 2 == 0 && d == c + 1) || (d % 2 == 0 && c == d + 1)
    ensures Get(FAT12, Set(FAT12, table, c, v), d) == Get(FAT12, table, d)
  {
    var o, p := c + c / 2, d + d / 2;
    assert if c < d then p == o + 1 else o == p + 1;
    var e := Encode(FAT12, c, table[o..o + 2], v);
    var t := Splice(table, o, e);
    SpliceAt(table, o, e, p);
    SpliceAt(table, o, e, p + 1);
    Pack12(table[o], table[o + 1], v);
    assert t[p..p + 2] == [t[p], t[p + 1]] && table[p..p + 2] == [table[p], table[p + 1]];
  }

  /** Setting one entry changes that entry to the masked value and no other, also where FAT12 entries share a byte. */
  lemma GetSet(kind: FatKind, table: seq<byte>, c: nat, v: nat, d: nat)
    requires EntryOffset(kind, c) + EntryWidth(kind) <= |table|
    requires EntryOffset(kind, d) + EntryWidth(kind) <= |table|
    ensures Get(kind, Set(kind, table, c, v), d) == if d == c then Mask(kind, v) else Get(kind, table, d)
  {
    hide *;
    if d == c {
      GetSetSame(kind, table, c, v);
    } else if Apart(kind, c, d) {
      GetSetApart(kind, table, c, v, d);
    } else {
      GetSetShared(kind, table, c, v, d);
    }
  }

  lemma GetSetShared(kind: FatKind, table: seq<byte>, c: nat, v: nat, d: nat)
    requires EntryOffset(kind, c) + EntryWidth(kind) <= |table|
    requires EntryOffset(kind, d) + EntryWidth(kind) <= |table| && c != d && !Apart(kind, c, d)
    ensures Get(kind, Set(kind, table, c, v), d) == Get(kind, table, d)
  {
    Neighbours(kind, c, d);
    hide Get, Set, Apart;
    Neighbour12(table, c, v, d);
  }

  lemma GetSetApart(kind: FatKind, table: seq<byte>, c: nat, v: nat, d: nat)
    requires EntryOffset(kind, c) + EntryWidth(kind) <= |table|
    requires EntryOffset(kind, d) + EntryWidth(kind) <= |table| && Apart(kind, c, d)
    ensures Get(kind, Set(kind, table, c, v), d) == Get(kind, table, d)
  {
    var w, o, p := EntryWidth(kind), EntryOffset(kind, c), EntryOffset(kind, d);
    hide Encode, Decode, EntryWidth, EntryOffset, Splice;
    SpliceApart(table, o, Encode(kind, c, table[o..o + w], v), p, p + w);
  }

  lemma GetSetSame(kind: FatKind, table: seq<byte>, c: nat, v: nat)
    requires EntryOffset(kind, c) + EntryWidth(kind) <= |table|
    ensures Get(kind, Set(kind, table, c, v), c) == Mask(kind, v)
  {
    var w, o := EntryWidth(kind), EntryOffset(kind, c);
    hide Encode, Decode, EntryWidth, EntryOffset, Mask;
    SpliceWritten(table, o, Encode(kind, c, table[o..o + w], v));
    DecodeEncode(kind, c, table[o..o + w], v);
  }

  /** The bytes of the two entries do not meet. */
  predicate Apart(kind: FatKind, c: nat, d: nat) {
    || EntryOffset(kind, d) + EntryWidth(kind) <= EntryOffset(kind, c)
    || EntryOffset(kind, c) + EntryWidth(kind) <= EntryOffset(kind, d)
  }

  lemma Neighbours(kind: FatKind, c: nat, d: nat)
    requires c != d && !Apart(kind, c, d)
    ensures kind.FAT12? && ((c % 2 == 0 && d == c + 1) || (d % 2 == 0 && c == d + 1))
  {
  }

  lemma NibbleIsSmall(v: nat)
    requires v < TWO32
    ensures v / TWO28 < 16 && v / TWO28 % 16 == v / TWO28
  {
  }

  lemma WithReservedKeeps(v: nat, previous: nat)
    requires previous < TWO32
    requires v / TWO28 == 0 || v / TWO28 == previous / TWO28
    ensures WithReserved(v, previous) == v % TWO28 + TWO28 * (previous / TWO28)
  {
    NibbleIsSmall(previous);
    hide OrNibble;
  }

  /** FAT32: the reserved bits of the entry survive when `v` brings none that are not set already. */
  lemma ReservedKept(table: seq<byte>, c: nat, v: nat)
    requires 4 * c + 4 <= |table|
    requires v / TWO28 == 0 || v / TWO28 == Le32(table, 4 * c) / TWO28
    ensures Le32(Set(FAT32, table, c, v), 4 * c) == v % TWO28 + TWO28 * (Le32(table, 4 * c) / TWO28)
  {
    var b := table[4 * c..4 * c + 4];
    assert Le32(b, 0) == Le32(table, 4 * c);
    var e, t := Encode(FAT32, c, b, v), Set(FAT32, table, c, v);
    assert t == Splice(table, 4 * c, e);
    DecodeEncode32(c, b, v);
    WithReservedKeeps(v, Le32(b, 0));
    hide Encode, Set, WithReserved;
    SpliceWritten(table, 4 * c, e);
    assert t[4 * c..4 * c + 4] == e;
    assert Le32(t, 4 * c) == Le32(e, 0);
  }

  lemma MaskTruncates(kind: FatKind, v: nat)
    ensures !kind.FAT32? ==> Mask(kind, v % TWO16) == Mask(kind, v)
  {
    if kind.FAT12? {
      SplitAt(v, 0x1000, 16);
    } else if kind.FAT16? {
      SplitAt(v, TWO16, 1);
    }
  }
}
