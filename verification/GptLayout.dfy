/** Partition tables as their specifications lay them out, and what the code reads in them. */
module GptLayouts {
  import opened Bytes
  import opened Names
  import opened Formatting
  import opened PartitionTables

  /** A 64-bit field as it is stored. */
  function Put64(v: nat): (r: seq<byte>)
    ensures |r| == 8
  {
    Put32(v % TWO32) + Put32(v / TWO32 % TWO32)
  }

  lemma Read64(s: seq<byte>, off: nat, v: nat)
    requires off + 8 <= |s| && s[off..off + 8] == Put64(v) && v < TWO64
    ensures Le64(s, off) == v
  {
    var lo, hi := v % TWO32, v / TWO32 % TWO32;
    assert v == lo + TWO32 * hi;
    assert Le64(s, off) == Le32(s, off) + TWO32 * Le32(s, off + 4);
    HalvesOf(s, off, v);
    hide *;
    Read32(s, off, lo);
    Read32(s, off + 4, hi);
  }

  lemma HalvesOf(s: seq<byte>, off: nat, v: nat)
    requires off + 8 <= |s| && s[off..off + 8] == Put64(v)
    ensures s[off..off + 4] == Put32(v % TWO32) && s[off + 4..off + 8] == Put32(v / TWO32 % TWO32)
  {
    hide Put32;
    assert s[off..off + 4] == s[off..off + 8][..4] && s[off + 4..off + 8] == s[off..off + 8][4..];
  }

  lemma Read32(s: seq<byte>, off: nat, v: nat)
    requires off + 4 <= |s| && s[off..off + 4] == Put32(v) && v < TWO32
    ensures Le32(s, off) == v
  {
    PutAt(s, off, v);
    hide Put32, Le32;
  }

  /** The text as bytes, one for each character. */
  ghost predicate Spells(b: seq<byte>, text: string) {
    |b| == |text| && forall k | 0 <= k < |b| :: b[k] == text[k] as int
  }

  // ----- header -----

  /**
   * Section 5.3.2: signature, 16 bytes, own sector, 40 bytes, first sector of the array, number and size of entries.
   */
  function HeaderBytes(sign: seq<byte>, a: seq<byte>, own: nat, b: seq<byte>, first: nat, count: nat, size: nat,
                       c: seq<byte>): seq<byte> {
    sign + a + Put64(own) + b + Put64(first) + Put32(count) + Put32(size) + c
  }

  lemma HeaderParts(sign: seq<byte>, a: seq<byte>, own: nat, b: seq<byte>, first: nat, count: nat, size: nat,
                    c: seq<byte>)
    requires |sign| == 8 && |a| == 16 && |b| == 40 && |c| == 424
    ensures var h := HeaderBytes(sign, a, own, b, first, count, size, c);
      && |h| == 512 && h[0..8] == sign && h[24..32] == Put64(own) && h[72..80] == Put64(first)
      && h[80..84] == Put32(count) && h[84..88] == Put32(size)
  {
    hide Put64, Put32;
  }

  /**
   * Such a header is taken for one if and only if it is signed "EFI PART" and says that it is in sector 1. It lists
   * `count` entries, and the one with number `i` is that many sizes behind the start of the array.
   */
  lemma HeaderReads(sign: seq<byte>, a: seq<byte>, own: nat, b: seq<byte>, first: nat, count: nat, size: nat,
                    c: seq<byte>, i: nat)
    requires |sign| == 8 && |a| == 16 && |b| == 40 && |c| == 424
    requires own < TWO64 && first < TWO64 && count < TWO32 && size < TWO32
    ensures var h := HeaderBytes(sign, a, own, b, first, count, size, c);
      && |h| == 512 && (IsGpt(h) <==> Spells(sign, "EFI PART") && own == 1) && Le32(h, 80) == count
      && (first * 512 + size * i < TWO64 ==> EntryOffset(h, i) == first * 512 + size * i)
  {
    var h := HeaderBytes(sign, a, own, b, first, count, size, c);
    HeaderParts(sign, a, own, b, first, count, size, c);
    SignatureIs(h);
    hide *;
    Read64(h, 24, own);
    Read64(h, 72, first);
    Read32(h, 80, count);
    Read32(h, 84, size);
    if first * 512 + size * i < TWO64 {
      OffsetFits(h, first, size, i);
    }
  }

  lemma SignatureIs(h: seq<byte>)
    requires |h| == 512
    ensures IsGpt(h) <==> Spells(h[0..8], "EFI PART") && Le64(h, 24) == 1
  {
    hide Le64;
    var s := h[0..8];
    assert s == [0x45, 0x46, 0x49, 0x20, 0x50, 0x41, 0x52, 0x54] <==> Spells(s, "EFI PART");
  }

  lemma OffsetFits(h: seq<byte>, first: nat, size: nat, i: nat)
    requires |h| == 512 && Le64(h, 72) == first && Le32(h, 84) == size && first * 512 + size * i < TWO64
    ensures EntryOffset(h, i) == first * 512 + size * i
  {
    var x: nat, y: nat := first * 512, size * i;
    assert EntryOffset(h, i) == U64(U64(x) + U64(y)) by {
      hide Le64, Le32, U64;
    }
    hide *;
  }

  // ----- entry -----

  /** Section 5.3.3: type, unique identifier, first and last sector, attributes, and 36 units of name. */
  function EntryBytes(kind: seq<byte>, id: seq<byte>, lo: nat, hi: nat, attributes: seq<byte>, name: Name): seq<byte> {
    kind + id + Put64(lo) + Put64(hi) + attributes + UnitBytes(name)
  }

  lemma EntryParts(kind: seq<byte>, id: seq<byte>, lo: nat, hi: nat, attributes: seq<byte>, name: Name)
    requires |kind| == |id| == 16 && |attributes| == 8 && |name| == 36
    ensures var e := EntryBytes(kind, id, lo, hi, attributes, name);
      && |e| == 128 && e[..16] == kind && e[32..40] == Put64(lo) && e[40..48] == Put64(hi)
      && e[56..128] == UnitBytes(name)
  {
    hide Put64, UnitBytes;
  }

  /** The name as it is stored: filled up with terminators. */
  function Filled(text: Name): (r: Name)
    requires |text| <= 36
    ensures |r| == 36
  {
    text + seq(36 - |text|, _ => 0)
  }

  /**
   * Such an entry is in use if and only if its type is not all zero, its name is what stands in front of the first
   * terminator, and it reaches from its first to its last sector, both included.
   */
  lemma EntryReads(kind: seq<byte>, id: seq<byte>, lo: nat, hi: nat, attributes: seq<byte>, text: Name)
    requires |kind| == |id| == 16 && |attributes| == 8 && |text| <= 36 && 0 !in text
    requires lo <= hi && 512 * (hi + 1) < TWO64
    ensures var e := EntryBytes(kind, id, lo, hi, attributes, Filled(text));
      && |e| == 128 && PartitionName(e) == text && (IsEmpty(e) <==> forall b | b in kind :: b == 0)
      && EntryStart(e) == 512 * lo && EntryStart(e) + EntryLength(e) == 512 * (hi + 1)
  {
    var name := Filled(text);
    var e := EntryBytes(kind, id, lo, hi, attributes, name);
    EntryParts(kind, id, lo, hi, attributes, name);
    NameIs(e, text);
    EmptyIs(e, kind);
    hide *;
    Read64(e, 32, lo);
    Read64(e, 40, hi);
    PlaceIs(e, lo, hi);
  }

  lemma NameIs(e: seq<byte>, text: Name)
    requires |e| == 128 && |text| <= 36 && 0 !in text && e[56..128] == UnitBytes(Filled(text))
    ensures PartitionName(e) == text
  {
    var u := Filled(text);
    UnitsRoundTrip(u);
    hide UnitBytes, Units;
    var end := IndexOf(u, 0);
    if |text| == 36 {
      assert u == text;
    } else {
      assert u[|text|] == 0;
      assert forall k | 0 <= k < |text| :: u[k] == text[k];
      assert end == |text|;
      assert u[..end] == text;
    }
  }

  lemma EmptyIs(e: seq<byte>, kind: seq<byte>)
    requires |e| == 128 && |kind| == 16 && e[..16] == kind
    ensures IsEmpty(e) <==> forall b | b in kind :: b == 0
  {
    assert forall k | 0 <= k < 16 :: e[k] == e[..16][k] && kind[k] in kind;
  }

  lemma PlaceIs(e: seq<byte>, lo: nat, hi: nat)
    requires |e| == 128 && Le64(e, 32) == lo && Le64(e, 40) == hi && lo <= hi && 512 * (hi + 1) < TWO64
    ensures EntryStart(e) == 512 * lo && EntryStart(e) + EntryLength(e) == 512 * (hi + 1)
  {
    hide Le64;
  }

  /** So the configuration partition is an entry in use that is called "CONFIG", and nothing else. */
  lemma ConfigReads(kind: seq<byte>, id: seq<byte>, lo: nat, hi: nat, attributes: seq<byte>, text: Name)
    requires |kind| == |id| == 16 && |attributes| == 8 && |text| <= 36 && 0 !in text
    requires lo <= hi && 512 * (hi + 1) < TWO64
    ensures IsConfig(EntryBytes(kind, id, lo, hi, attributes, Filled(text))) <==>
      (exists b | b in kind :: b != 0) && |text| == 6 && forall k | 0 <= k < 6 :: text[k] == "CONFIG"[k] as int
  {
    EntryReads(kind, id, lo, hi, attributes, text);
    var want: Name := CONFIG;
    assert |want| == 6 && forall k | 0 <= k < 6 :: want[k] == "CONFIG"[k] as int;
    hide EntryBytes, Filled, PartitionName, IsEmpty, EntryStart, EntryLength;
    assert text == want <==> |text| == 6 && forall k | 0 <= k < 6 :: text[k] == "CONFIG"[k] as int;
  }

  // ----- the table without GPT -----

  /** An entry of the older table: eight bytes, first sector, number of sectors. */
  function MbrEntryBytes(head: seq<byte>, first: nat, count: nat): seq<byte> {
    head + Put32(first) + Put32(count)
  }

  /** Four of them behind 446 bytes, and the signature. */
  function MbrTable(boot: seq<byte>, entries: seq<seq<byte>>): seq<byte>
    requires |entries| == 4
  {
    boot + entries[0] + entries[1] + entries[2] + entries[3] + [0x55, 0xAA]
  }

  /**
   * Such an entry is used if and only if neither of its numbers is zero, and its place is theirs in 32-bit products.
   */
  lemma MbrReads(boot: seq<byte>, entries: seq<seq<byte>>, nr: nat, head: seq<byte>, first: nat, count: nat)
    requires |boot| == 446 && |entries| == 4 && (forall k | 0 <= k < 4 :: |entries[k]| == 16)
    requires 1 <= nr <= 4 && |head| == 8 && first < TWO32 && count < TWO32
    requires entries[nr - 1] == MbrEntryBytes(head, first, count)
    ensures var m := MbrTable(boot, entries);
      && |m| == 512 && (MbrHas(m, nr) <==> first > 0 && count > 0)
      && MbrStart(m, nr) == 512 * first % TWO32 && MbrLength(m, nr) == 512 * count % TWO32
  {
    hide *;
    var m, e, at := MbrTable(boot, entries), entries[nr - 1], 446 + 16 * (nr - 1);
    TablePart(boot, entries, nr);
    MbrEntryParts(head, first, count);
    PutAt(e, 8, first);
    PutAt(e, 12, count);
    FieldIn(m, at, at + 16, e, 8);
    FieldIn(m, at, at + 16, e, 12);
    SmallRemainder(first);
    SmallRemainder(count);
    MbrPlace(m, nr, first, count);
  }

  lemma TablePart(boot: seq<byte>, entries: seq<seq<byte>>, nr: nat)
    requires |boot| == 446 && |entries| == 4 && (forall k | 0 <= k < 4 :: |entries[k]| == 16) && 1 <= nr <= 4
    ensures var m, at := MbrTable(boot, entries), 446 + 16 * (nr - 1);
      |m| == 512 && m[510] == 0x55 && m[511] == 0xAA && m[at..at + 16] == entries[nr - 1]
  {
    var m := MbrTable(boot, entries);
    var a, b, c, d := entries[0], entries[1], entries[2], entries[3];
    assert m == boot + a + b + c + d + [0x55, 0xAA];
    hide *;
    if nr == 1 {
      assert m[446..462] == a;
    } else if nr == 2 {
      assert m[462..478] == b;
    } else if nr == 3 {
      assert m[478..494] == c;
    } else {
      assert m[494..510] == d;
    }
  }

  lemma MbrEntryParts(head: seq<byte>, first: nat, count: nat)
    requires |head| == 8
    ensures var e := MbrEntryBytes(head, first, count);
      |e| == 16 && e[8..12] == Put32(first) && e[12..16] == Put32(count)
  {
    hide Put32;
  }

  lemma MbrPlace(m: seq<byte>, nr: nat, first: nat, count: nat)
    requires |m| == 512 && 1 <= nr <= 4 && m[510] == 0x55 && m[511] == 0xAA
    requires Le32(m, 446 + 16 * (nr - 1) + 8) == first && Le32(m, 446 + 16 * (nr - 1) + 12) == count
    ensures MbrHas(m, nr) <==> first > 0 && count > 0
    ensures MbrStart(m, nr) == 512 * first % TWO32 && MbrLength(m, nr) == 512 * count % TWO32
  {
    hide Le32;
  }
}
