/** The reserved top four bits of a FAT32 entry, in all copies of the table. */
module Mirrors {
  import opened Arith
  import opened Bytes
  import opened FatCodec
  import opened Volumes
  import opened FatTables

  /** All 32 bits that copy `m` holds for entry `c`. */
  function Held(g: Geometry, s: seq<byte>, m: nat, c: nat): (r: nat)
    requires m < |g.fatStarts|
    ensures r < TWO32
  {
    var o := g.fatStarts[m] + 4 * c;
    if o + 4 <= |s| then Le32(s, o) else 0
  }

  /** The top four of 32 bits. */
  function Top(v: nat): (r: nat)
    ensures r < 16
  {
    v / TWO28 % 16
  }

  /** `v` with these top bits. */
  function Topped(v: nat, bits: nat): nat {
    v % TWO28 + TWO28 * bits
  }

  /** The reserved bits of that entry. */
  function Reserved(g: Geometry, s: seq<byte>, m: nat, c: nat): (r: nat)
    requires m < |g.fatStarts|
    ensures r < 16
  {
    Top(Held(g, s, m, c))
  }

  /** `bits` or-ed with the reserved bits of the copies from `lo` to `hi`. */
  function Merged(g: Geometry, s: seq<byte>, c: nat, bits: nat, lo: nat, hi: nat): (r: nat)
    requires bits < 16 && lo <= hi <= |g.fatStarts|
    ensures r < 16
  {
    if hi == lo then bits else OrNibble(Merged(g, s, c, bits, lo, hi - 1), Reserved(g, s, hi - 1, c))
  }

  /** `a` has all bits of `b`. */
  predicate Contains(a: nat, b: nat)
    requires a < 16 && b < 16
  {
    OrNibble(b, a) == a
  }

  // ----- four bits -----

  lemma OrDigits(a: nat, b: nat)
    requires a < 16 && b < 16
    ensures var r := OrNibble(a, b);
      && r / 8 == OrBit(a / 8, b / 8) && r / 4 % 2 == OrBit(a / 4 % 2, b / 4 % 2)
      && r / 2 % 2 == OrBit(a / 2 % 2, b / 2 % 2) && r % 2 == OrBit(a % 2, b % 2)
  {
    FourDigits(OrBit(a / 8, b / 8), OrBit(a / 4 % 2, b / 4 % 2), OrBit(a / 2 % 2, b / 2 % 2), OrBit(a % 2, b % 2));
    OrIs(a, b);
    hide *;
  }

  lemma OrIs(a: nat, b: nat)
    requires a < 16 && b < 16
    ensures OrNibble(a, b) == OrBit(a / 8, b / 8) * 8 + OrBit(a / 4 % 2, b / 4 % 2) * 4
                              + OrBit(a / 2 % 2, b / 2 % 2) * 2 + OrBit(a % 2, b % 2)
    ensures OrBit(a / 8, b / 8) < 2 && OrBit(a / 4 % 2, b / 4 % 2) < 2
    ensures OrBit(a / 2 % 2, b / 2 % 2) < 2 && OrBit(a % 2, b % 2) < 2
  {
  }

  lemma FourDigits(x: nat, y: nat, z: nat, w: nat)
    ensures x < 2 && y < 2 && z < 2 && w < 2 ==>
      var r := x * 8 + y * 4 + z * 2 + w;
      r / 8 == x && r / 4 % 2 == y && r / 2 % 2 == z && r % 2 == w
  {
  }

  lemma SameDigits(a: nat, b: nat)
    requires a < 16 && b < 16 && a / 8 == b / 8 && a / 4 % 2 == b / 4 % 2 && a / 2 % 2 == b / 2 % 2 && a % 2 == b % 2
    ensures a == b
  {
  }

  lemma BitsContained(a: nat, b: nat)
    requires a < 16 && b < 16
    ensures Contains(a, b) <==>
      && OrBit(b / 8, a / 8) == a / 8 && OrBit(b / 4 % 2, a / 4 % 2) == a / 4 % 2
      && OrBit(b / 2 % 2, a / 2 % 2) == a / 2 % 2 && OrBit(b % 2, a % 2) == a % 2
  {
    OrDigits(b, a);
    var r := OrNibble(b, a);
    hide OrNibble, OrBit;
    if r / 8 == a / 8 && r / 4 % 2 == a / 4 % 2 && r / 2 % 2 == a / 2 % 2 && r % 2 == a % 2 {
      SameDigits(r, a);
    }
  }

  /** A union is contained exactly when both parts are. */
  lemma ContainsBoth(a: nat, b: nat, c: nat)
    requires a < 16 && b < 16 && c < 16
    ensures Contains(a, OrNibble(b, c)) <==> Contains(a, b) && Contains(a, c)
  {
    OrDigits(b, c);
    BitsContained(a, OrNibble(b, c));
    BitsContained(a, b);
    BitsContained(a, c);
    hide OrNibble, Contains;
  }

  // ----- one copy -----

  /** A value that was merged with previous reserved bits. */
  lemma MergedParts(v: nat, previous: nat)
    requires previous < TWO32
    ensures WithReserved(v, previous) == Topped(v, OrNibble(Top(v), Top(previous)))
  {
    NibbleIsSmall(previous);
    hide OrNibble;
  }

  lemma ToppedParts(v: nat, bits: nat)
    requires bits < 16
    ensures Top(Topped(v, bits)) == bits && Topped(v, bits) % TWO28 == v % TWO28
    ensures forall b: nat :: Topped(Topped(v, bits), b) == Topped(v, b)
  {
    DivModUnique(bits, v % TWO28, TWO28);
  }

  /** The top bits tell two such words apart. */
  lemma ToppedApart(v: nat, a: nat, b: nat)
    requires a < 16 && b < 16
    ensures Topped(v, a) == Topped(v, b) <==> a == b
  {
    ToppedParts(v, a);
    ToppedParts(v, b);
  }

  /** Setting the entry in copy `m` changes only what that copy holds. */
  lemma HeldWritten(g: Geometry, s: seq<byte>, m: nat, c: nat, v: nat, n: nat)
    requires Sane(g, |s|) && g.kind.FAT32? && m < |g.fatStarts| && n < |g.fatStarts| && c < Entries(g)
    ensures EntryInRange(FAT32, g, |s|, m, c)
    ensures Held(g, SetEntry(FAT32, g, s, m, c, v), n, c)
            == if n == m then WithReserved(v, Held(g, s, m, c)) else Held(g, s, n, c)
    ensures Carry(FAT32, g, s, m, c, v) == WithReserved(v, Held(g, s, m, c))
  {
    hide *;
    EntryPlace(g, |s|, m, c);
    EntryPlace(g, |s|, n, c);
    CopyInside(g, |s|, m);
    CopyInside(g, |s|, n);
    OffsetIs(FAT32, c);
    SetEntryDef(FAT32, g, s, m, c, v);
    var o := g.fatStarts[m] + 4 * c;
    var b := s[o..o + 4];
    var e := Encode(FAT32, c, b, v);
    DecodeEncode32(c, b, v);
    HeldIs(g, s, m, c);
    if n == m {
      HeldIs(g, Splice(s, o, e), m, c);
      SpliceWritten(s, o, e);
    } else {
      CopiesApart(g, |s|, m, n);
      HeldApart(g, s, n, c, o, e);
    }
  }

  lemma HeldApart(g: Geometry, s: seq<byte>, n: nat, c: nat, o: nat, e: seq<byte>)
    requires n < |g.fatStarts| && g.fatStarts[n] + 4 * c + 4 <= |s| && o + |e| <= |s|
    requires o + |e| <= g.fatStarts[n] + 4 * c || g.fatStarts[n] + 4 * c + 4 <= o
    ensures Held(g, Splice(s, o, e), n, c) == Held(g, s, n, c)
  {
    hide *;
    var p := g.fatStarts[n] + 4 * c;
    HeldIs(g, s, n, c);
    HeldIs(g, Splice(s, o, e), n, c);
    SpliceApart(s, o, e, p, p + 4);
  }

  lemma HeldIs(g: Geometry, s: seq<byte>, m: nat, c: nat)
    requires m < |g.fatStarts| && g.fatStarts[m] + 4 * c + 4 <= |s|
    ensures var o := g.fatStarts[m] + 4 * c;
      |s[o..o + 4]| == 4 && Held(g, s, m, c) == Le32(s[o..o + 4], 0)
  {
  }

  lemma CopiesApart(g: Geometry, len: nat, m: nat, n: nat)
    requires Sane(g, len) && m < |g.fatStarts| && n < |g.fatStarts| && m != n
    ensures g.fatStarts[m] + FatBytes(g) <= g.fatStarts[n] || g.fatStarts[n] + FatBytes(g) <= g.fatStarts[m]
  {
    hide FatBytes, Entries;
  }

  // ----- all copies -----

  lemma MergedStep(g: Geometry, s: seq<byte>, c: nat, bits: nat, lo: nat, hi: nat)
    requires bits < 16 && lo <= hi <= |g.fatStarts|
    ensures hi == lo ==> Merged(g, s, c, bits, lo, hi) == bits
    ensures hi > lo ==>
      Merged(g, s, c, bits, lo, hi) == OrNibble(Merged(g, s, c, bits, lo, hi - 1), Reserved(g, s, hi - 1, c))
  {
    hide OrNibble, Reserved;
  }

  lemma {:induction false} MergedSame(g: Geometry, s: seq<byte>, t: seq<byte>, c: nat, bits: nat, lo: nat, hi: nat)
    requires bits < 16 && lo <= hi <= |g.fatStarts|
    requires forall n | lo <= n < hi :: Reserved(g, t, n, c) == Reserved(g, s, n, c)
    ensures Merged(g, t, c, bits, lo, hi) == Merged(g, s, c, bits, lo, hi)
  {
    hide *;
    MergedStep(g, s, c, bits, lo, hi);
    MergedStep(g, t, c, bits, lo, hi);
    if hi > lo {
      MergedSame(g, s, t, c, bits, lo, hi - 1);
    }
  }

  /** The first of the copies taken first. */
  lemma {:induction false} MergedHead(g: Geometry, s: seq<byte>, c: nat, bits: nat, lo: nat, hi: nat)
    requires bits < 16 && lo < hi <= |g.fatStarts|
    ensures Merged(g, s, c, bits, lo, hi) == Merged(g, s, c, OrNibble(bits, Reserved(g, s, lo, c)), lo + 1, hi)
  {
    hide *;
    var next := OrNibble(bits, Reserved(g, s, lo, c));
    MergedStep(g, s, c, bits, lo, hi);
    MergedStep(g, s, c, bits, lo, lo);
    MergedStep(g, s, c, next, lo + 1, hi);
    if hi > lo + 1 {
      MergedHead(g, s, c, bits, lo, hi - 1);
    }
  }

  lemma MergedOne(g: Geometry, s: seq<byte>, c: nat, bits: nat, m: nat)
    requires bits < 16 && m < |g.fatStarts|
    ensures Merged(g, s, c, bits, m, m + 1) == OrNibble(bits, Reserved(g, s, m, c))
  {
    hide *;
    MergedStep(g, s, c, bits, m, m + 1);
    MergedStep(g, s, c, bits, m, m);
  }

  lemma ReservedIs(g: Geometry, s: seq<byte>, m: nat, c: nat)
    requires m < |g.fatStarts|
    ensures Reserved(g, s, m, c) == Top(Held(g, s, m, c))
  {
  }

  /**
   * `setFAT32`, on any table: each copy gets the low 28 bits of the value, and above them the bits of the value and the
   * reserved bits of all copies up to and with this one.
   */
  lemma {:induction false} CopiesMerged(g: Geometry, s: seq<byte>, m: nat, c: nat, v: nat, n: nat)
    requires Sane(g, |s|) && g.kind.FAT32? && c < Entries(g) && m <= |g.fatStarts| && n < |g.fatStarts|
    ensures RangeFrom(FAT32, g, |s|, m, c)
    ensures Held(g, SetFrom(FAT32, g, s, m, c, v), n, c)
            == if n < m then Held(g, s, n, c) else Topped(v, Merged(g, s, c, Top(v), m, n + 1))
    decreases |g.fatStarts| - m
  {
    hide *;
    CopiesInRange(g, s, m, c);
    SetFromDef(FAT32, g, s, m, c, v);
    if m < |g.fatStarts| {
      var t, v' := SetEntry(FAT32, g, s, m, c, v), Carry(FAT32, g, s, m, c, v);
      CopiesMerged(g, t, m + 1, c, v', n);
      HeldWritten(g, s, m, c, v, n);
      MergedParts(v, Held(g, s, m, c));
      ReservedIs(g, s, m, c);
      MergedOne(g, s, c, Top(v), m);
      ToppedParts(v, OrNibble(Top(v), Reserved(g, s, m, c)));
      if n > m {
        OthersKept(g, s, m, c, v, n + 1);
        MergedSame(g, s, t, c, Top(v'), m + 1, n + 1);
        MergedHead(g, s, c, Top(v), m, n + 1);
      }
    }
  }

  lemma OthersKept(g: Geometry, s: seq<byte>, m: nat, c: nat, v: nat, hi: nat)
    requires Sane(g, |s|) && g.kind.FAT32? && c < Entries(g) && m < hi <= |g.fatStarts|
    ensures EntryInRange(FAT32, g, |s|, m, c)
    ensures forall k | m + 1 <= k < hi ::
              Reserved(g, SetEntry(FAT32, g, s, m, c, v), k, c) == Reserved(g, s, k, c)
  {
    hide *;
    HeldWritten(g, s, m, c, v, m);
    var t := SetEntry(FAT32, g, s, m, c, v);
    forall k | m + 1 <= k < hi ensures Reserved(g, t, k, c) == Reserved(g, s, k, c) {
      HeldWritten(g, s, m, c, v, k);
      ReservedIs(g, s, k, c);
      ReservedIs(g, t, k, c);
    }
  }

  /** The bits that reach a copy are contained in `a` exactly when the first ones and those of every copy before are. */
  lemma {:induction false} MergedContained(g: Geometry, s: seq<byte>, c: nat, bits: nat, hi: nat, a: nat)
    requires bits < 16 && hi <= |g.fatStarts| && a < 16
    ensures Contains(a, Merged(g, s, c, bits, 0, hi)) <==>
      Contains(a, bits) && forall k | 0 <= k < hi :: Contains(a, Reserved(g, s, k, c))
  {
    hide *;
    MergedStep(g, s, c, bits, 0, hi);
    if hi > 0 {
      MergedContained(g, s, c, bits, hi - 1, a);
      ContainsBoth(a, Merged(g, s, c, bits, 0, hi - 1), Reserved(g, s, hi - 1, c));
    }
  }

  /**
   * When a copy keeps its reserved bits: exactly when they contain those the value brings and those of every copy
   * before it. The low 28 bits are those of the value in any case.
   */
  lemma ReservedIsKept(g: Geometry, s: seq<byte>, c: nat, v: nat, m: nat)
    requires Sane(g, |s|) && g.kind.FAT32? && c < Entries(g) && m < |g.fatStarts|
    ensures RangeFrom(FAT32, g, |s|, 0, c)
    ensures var t := SetFrom(FAT32, g, s, 0, c, v);
      && Held(g, t, m, c) % TWO28 == v % TWO28
      && (Reserved(g, t, m, c) == Reserved(g, s, m, c) <==>
            && Contains(Reserved(g, s, m, c), Top(v))
            && forall k | 0 <= k < m :: Contains(Reserved(g, s, m, c), Reserved(g, s, k, c)))
  {
    hide *;
    CopiesMerged(g, s, 0, c, v, m);
    var r := Merged(g, s, c, Top(v), 0, m);
    ReservedIs(g, SetFrom(FAT32, g, s, 0, c, v), m, c);
    MergedStep(g, s, c, Top(v), 0, m + 1);
    ContainsIs(Reserved(g, s, m, c), r);
    ToppedParts(v, Merged(g, s, c, Top(v), 0, m + 1));
    MergedContained(g, s, c, Top(v), m, Reserved(g, s, m, c));
  }

  lemma ContainsIs(a: nat, b: nat)
    requires a < 16 && b < 16
    ensures Contains(a, b) <==> OrNibble(b, a) == a
  {
    hide OrNibble;
  }

  /** Copies that agree still agree, and keep their reserved bits when the value brings none or the same. */
  lemma AgreeingCopies(g: Geometry, s: seq<byte>, c: nat, v: nat, bits: nat, m: nat)
    requires Sane(g, |s|) && g.kind.FAT32? && c < Entries(g) && m < |g.fatStarts|
    requires bits < 16 && forall k | 0 <= k < |g.fatStarts| :: Reserved(g, s, k, c) == bits
    ensures RangeFrom(FAT32, g, |s|, 0, c)
    ensures Held(g, SetFrom(FAT32, g, s, 0, c, v), m, c) == Topped(v, OrNibble(Top(v), bits))
    ensures Top(v) == 0 || Top(v) == bits ==>
      Held(g, SetFrom(FAT32, g, s, 0, c, v), m, c) == v % TWO28 + TWO28 * bits
  {
    hide *;
    CopiesMerged(g, s, 0, c, v, m);
    MergedEqual(g, s, c, Top(v), bits, m + 1);
    ToppedIs(v, bits);
    OrCommutes(bits, bits);
  }

  lemma ToppedIs(v: nat, bits: nat)
    ensures Topped(v, bits) == v % TWO28 + TWO28 * bits
  {
  }

  lemma {:induction false} MergedEqual(g: Geometry, s: seq<byte>, c: nat, first: nat, bits: nat, hi: nat)
    requires first < 16 && bits < 16 && 0 < hi <= |g.fatStarts|
    requires forall k | 0 <= k < hi :: Reserved(g, s, k, c) == bits
    ensures Merged(g, s, c, first, 0, hi) == OrNibble(first, bits)
  {
    hide *;
    MergedStep(g, s, c, first, 0, hi);
    if hi > 1 {
      MergedEqual(g, s, c, first, bits, hi - 1);
      OrTwice(first, bits);
    } else {
      MergedStep(g, s, c, first, 0, 0);
    }
  }

  lemma OrTwice(a: nat, b: nat)
    requires a < 16 && b < 16
    ensures OrNibble(OrNibble(a, b), b) == OrNibble(a, b)
  {
    var r := OrNibble(a, b);
    OrDigits(a, b);
    OrDigits(r, b);
    hide OrNibble;
    SameDigits(OrNibble(r, b), r);
  }

  /**
   * After the setter the copies agree on the entry exactly when none of them had a reserved bit that neither the value
   * nor the first copy has.
   */
  lemma CopiesAgree(g: Geometry, s: seq<byte>, c: nat, v: nat)
    requires Sane(g, |s|) && g.kind.FAT32? && c < Entries(g) && |g.fatStarts| > 0
    ensures RangeFrom(FAT32, g, |s|, 0, c)
    ensures var t, first := SetFrom(FAT32, g, s, 0, c, v), OrNibble(Top(v), Reserved(g, s, 0, c));
      (forall m | 0 <= m < |g.fatStarts| :: Held(g, t, m, c) == Held(g, t, 0, c)) <==>
      forall m | 0 <= m < |g.fatStarts| :: Contains(first, Reserved(g, s, m, c))
  {
    hide *;
    var n := |g.fatStarts|;
    CopiesMerged(g, s, 0, c, v, 0);
    var t, first := SetFrom(FAT32, g, s, 0, c, v), OrNibble(Top(v), Reserved(g, s, 0, c));
    forall m | 0 <= m < n
      ensures Held(g, t, m, c) == Held(g, t, 0, c) <==>
        forall k | 0 <= k < m + 1 :: Contains(first, Reserved(g, s, k, c))
    {
      AgreesUpTo(g, s, c, v, m);
    }
    if forall m | 0 <= m < n :: Held(g, t, m, c) == Held(g, t, 0, c) {
      assert Held(g, t, n - 1, c) == Held(g, t, 0, c);
    }
  }

  lemma AgreesUpTo(g: Geometry, s: seq<byte>, c: nat, v: nat, m: nat)
    requires Sane(g, |s|) && g.kind.FAT32? && c < Entries(g) && m < |g.fatStarts|
    ensures RangeFrom(FAT32, g, |s|, 0, c)
    ensures var t, first := SetFrom(FAT32, g, s, 0, c, v), OrNibble(Top(v), Reserved(g, s, 0, c));
      Held(g, t, m, c) == Held(g, t, 0, c) <==> forall k | 0 <= k < m + 1 :: Contains(first, Reserved(g, s, k, c))
  {
    hide *;
    var first := OrNibble(Top(v), Reserved(g, s, 0, c));
    CopiesMerged(g, s, 0, c, v, 0);
    CopiesMerged(g, s, 0, c, v, m);
    MergedOne(g, s, c, Top(v), 0);
    MergedGrows(g, s, c, Top(v), m + 1);
    ToppedApart(v, Merged(g, s, c, Top(v), 0, m + 1), first);
    MergedContained(g, s, c, Top(v), m + 1, first);
    ContainsItself(first, Top(v), Reserved(g, s, 0, c));
  }

  lemma ContainsItself(r: nat, a: nat, b: nat)
    requires a < 16 && b < 16 && r == OrNibble(a, b)
    ensures Contains(r, r) && Contains(r, a) && Contains(r, b)
  {
    ContainsBoth(r, a, b);
  }

  lemma OrCommutes(a: nat, b: nat)
    requires a < 16 && b < 16
    ensures OrNibble(a, b) == OrNibble(b, a)
    ensures Contains(a, b) && Contains(b, a) ==> a == b
    ensures Contains(a, a)
  {
    OrDigits(a, b);
    OrDigits(b, a);
    var r, t := OrNibble(a, b), OrNibble(b, a);
    assert OrNibble(a, a) == a;
    hide OrNibble;
    SameDigits(r, t);
  }

  /** What reaches the first copy is contained in what reaches a later one. */
  lemma MergedGrows(g: Geometry, s: seq<byte>, c: nat, bits: nat, hi: nat)
    requires bits < 16 && 0 < hi <= |g.fatStarts|
    ensures var first, r := OrNibble(bits, Reserved(g, s, 0, c)), Merged(g, s, c, bits, 0, hi);
      r == first <==> Contains(first, r)
  {
    hide *;
    var first, r := OrNibble(bits, Reserved(g, s, 0, c)), Merged(g, s, c, bits, 0, hi);
    OrCommutes(r, r);
    OrCommutes(first, first);
    OrCommutes(first, r);
    MergedContained(g, s, c, bits, hi, r);
    ContainsBoth(r, bits, Reserved(g, s, 0, c));
  }
}
