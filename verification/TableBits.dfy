/** A copy of the table as one little-endian number, of whose bits each entry is a run. */
module TableBits {
  import opened Arith
  import opened Bytes
  import opened FatCodec

  /** The bytes as a number, the first one lowest. */
  function Number(s: seq<byte>): nat {
    if s == [] then 0 else s[0] as int + 0x100 * Number(s[1..])
  }

  /** `x` shifted right by `n` bits. */
  function Shifted(x: nat, n: nat): nat {
    if n == 0 then x else Shifted(x / 2, n - 1)
  }

  /** How many bits of the table an entry takes, and how many of those are its value. */
  function EntryBits(kind: FatKind): nat {
    match kind
    case FAT12 => 12
    case FAT16 => 16
    case FAT32 => 32
  }

  function ValueLimit(kind: FatKind): nat {
    match kind
    case FAT12 => 0x1000
    case FAT16 => 0x1_0000
    case FAT32 => 0x1000_0000
  }

  lemma {:induction false} ShiftTwice(x: nat, m: nat, n: nat)
    ensures Shifted(x, m + n) == Shifted(Shifted(x, m), n)
  {
    if m > 0 {
      ShiftTwice(x / 2, m - 1, n);
    }
  }

  lemma ShiftNibble(x: nat)
    ensures Shifted(x, 4) == x / 16
  {
    ShiftPair(x);
    ShiftPair(x / 4);
    ShiftTwice(x, 2, 2);
  }

  lemma ShiftPair(x: nat)
    ensures Shifted(x, 2) == x / 4
  {
    assert Shifted(x, 2) == Shifted(x / 2, 1) == Shifted(x / 2 / 2, 0);
  }

  lemma ShiftByte(x: nat)
    ensures Shifted(x, 8) == x / 0x100
  {
    ShiftNibble(x);
    ShiftTwice(x, 4, 4);
    ShiftNibble(x / 16);
  }

  /** Shifting by whole bytes drops them. */
  lemma {:induction false} ShiftBytes(s: seq<byte>, k: nat)
    requires k <= |s|
    ensures Shifted(Number(s), 8 * k) == Number(s[k..])
  {
    if k > 0 {
      ShiftTwice(Number(s), 8, 8 * (k - 1));
      ShiftByte(Number(s));
      ShiftBytes(s[1..], k - 1);
      assert s[1..][k - 1..] == s[k..];
    } else {
      assert s[0..] == s;
    }
  }

  lemma FirstTwo(s: seq<byte>)
    requires |s| >= 2
    ensures Number(s) == Le16(s, 0) + 0x1_0000 * Number(s[2..]) && Le16(s, 0) < 0x1_0000
  {
    assert s[1..][1..] == s[2..];
    assert Number(s[1..]) == s[1] as int + 0x100 * Number(s[2..]);
  }

  lemma FirstFour(s: seq<byte>)
    requires |s| >= 4
    ensures Number(s) == Le32(s, 0) + 0x1_0000_0000 * Number(s[4..]) && Le32(s, 0) < 0x1_0000_0000
  {
    FirstTwo(s);
    FirstTwo(s[2..]);
    assert s[2..][2..] == s[4..];
    assert Le32(s, 0) == Le16(s, 0) + 0x1_0000 * Le16(s[2..], 0);
    hide Number, Le16, Le32;
  }

  /** Sixteen bits of a number, and the twelve that FAT12 takes of them. */
  lemma Low16(x: nat, w: nat, rest: nat)
    requires x == w + 0x1_0000 * rest && w < 0x1_0000
    ensures x % 0x1_0000 == w && x % 0x1000 == w % 0x1000 && x / 16 % 0x1000 == w / 16
  {
    DivModUnique(rest, w, 0x1_0000);
    var q, r, h, n := w / 0x1000, w % 0x1000, w / 16, w % 16;
    assert w == q * 0x1000 + r && w == h * 16 + n;
    hide *;
    DivModUnique(16 * rest + q, r, 0x1000);
    DivModUnique(0x1000 * rest + h, n, 16);
    DivModUnique(rest, h, 0x1000);
  }

  lemma Low28(x: nat, w: nat, rest: nat)
    requires x == w + 0x1_0000_0000 * rest
    ensures x % 0x1000_0000 == w % 0x1000_0000
  {
    var q, r := w / 0x1000_0000, w % 0x1000_0000;
    assert w == q * 0x1000_0000 + r;
    hide *;
    DivModUnique(16 * rest + q, r, 0x1000_0000);
  }

  lemma Get12(table: seq<byte>, c: nat)
    requires c + c / 2 + 2 <= |table|
    ensures var w := Le16(table[c + c / 2..], 0);
      Get(FAT12, table, c) == if c % 2 == 1 then w / 16 else w % 0x1000
  {
    var o := c + c / 2;
    var x, y: int := table[o], table[o + 1];
    assert Get(FAT12, table, c) == Decode(FAT12, c, table[o..o + 2]);
    assert Le16(table[o..], 0) == x + 0x100 * y;
    Word12(x, y);
  }

  lemma Word12(x: nat, y: nat)
    requires x < 0x100 && y < 0x100
    ensures (x + 0x100 * y) / 16 == y * 16 + x / 16
    ensures (x + 0x100 * y) % 0x1000 == y % 16 * 0x100 + x
  {
    DivModUnique(16 * y + x / 16, x % 16, 16);
    DivModUnique(y / 16, y % 16 * 0x100 + x, 0x1000);
  }

  lemma Get16(table: seq<byte>, c: nat)
    requires 2 * c + 2 <= |table|
    ensures Get(FAT16, table, c) == Le16(table[2 * c..], 0)
  {
  }

  lemma Get32(table: seq<byte>, c: nat)
    requires 4 * c + 4 <= |table|
    ensures Get(FAT32, table, c) == Le32(table[4 * c..], 0) % 0x1000_0000
  {
  }

  lemma Bits12(table: seq<byte>, c: nat)
    requires c + c / 2 + 2 <= |table|
    ensures Get(FAT12, table, c) == Shifted(Number(table), 12 * c) % 0x1000
  {
    hide *;
    var o := c + c / 2;
    ShiftBytes(table, o);
    FirstTwo(table[o..]);
    Get12(table, c);
    Low16(Number(table[o..]), Le16(table[o..], 0), Number(table[o..][2..]));
    if c % 2 == 1 {
      assert 12 * c == 8 * o + 4;
      ShiftTwice(Number(table), 8 * o, 4);
      ShiftNibble(Number(table[o..]));
    } else {
      assert 12 * c == 8 * o;
    }
  }

  /**
   * Entry `c` is the value in the bits of the table from `c` times its width on: 12, 16 or 32 bits for each entry, of
   * which FAT32 uses 28.
   */
  lemma GetIsBits(kind: FatKind, table: seq<byte>, c: nat)
    requires EntryOffset(kind, c) + EntryWidth(kind) <= |table|
    ensures Get(kind, table, c) == Shifted(Number(table), EntryBits(kind) * c) % ValueLimit(kind)
  {
    hide Number, Shifted, Get, Le16, Le32;
    match kind
    case FAT12 =>
      Bits12(table, c);
    case FAT16 =>
      ShiftBytes(table, 2 * c);
      FirstTwo(table[2 * c..]);
      Low16(Number(table[2 * c..]), Le16(table[2 * c..], 0), Number(table[2 * c..][2..]));
      Get16(table, c);
    case FAT32 =>
      ShiftBytes(table, 4 * c);
      FirstFour(table[4 * c..]);
      Low28(Number(table[4 * c..]), Le32(table[4 * c..], 0), Number(table[4 * c..][4..]));
      Get32(table, c);
  }
}
