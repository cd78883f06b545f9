/** The bytes of directory entries: long-name fragments, the entry of a new file, and the one of a written file. */
module Encodings {
  import opened Bytes
  import opened FatCodec
  import opened Chains
  import opened Names
  import opened Directories
  import opened Layouts
  import opened Formatting
  import opened WriteSteps

  // ----- the checksum -----

  /** `r` is `x` rotated right by one bit: rotating back to the left is doubling modulo 255. */
  predicate IsRotated(r: nat, x: byte) {
    r < 0x100 && (2 * r == x || 2 * r == x + 255)
  }

  /** One byte more: the sum rotated right, plus the byte, in eight bits. */
  lemma ChecksumStep(s: seq<byte>, b: byte)
    ensures Checksum([]) == 0
    ensures exists r: nat :: IsRotated(r, Checksum(s)) && Checksum(s + [b]) == (r + b) % 0x100
  {
    var x := Checksum(s);
    assert (s + [b])[..|s|] == s;
    var r := (if x % 2 == 1 then 0x80 else 0) + x / 2;
    assert IsRotated(r, x);
  }

  // ----- fragments -----

  /** Where unit `k` of a fragment is. */
  function UnitPlace(k: nat): nat {
    if k < 5 then 1 + 2 * k else if k < 11 then 4 + 2 * k else 6 + 2 * k
  }

  lemma PlaceOf(e: Entry, k: nat)
    requires k < 13
    ensures FragmentUnits(e)[k] == Le16(e, UnitPlace(k))
  {
    var b := e[1..11] + e[14..26] + e[28..32];
    assert FragmentUnits(e)[k] == Le16(b, 2 * k);
    assert b[2 * k] == e[UnitPlace(k)] && b[2 * k + 1] == e[UnitPlace(k) + 1];
  }

  lemma OrdinalBits(i: nat, n: nat)
    ensures var o := Ordinal(i, n);
      && o % 0x40 == i % 0x40 && o / 0x80 == i % 0x100 / 0x80
      && (if i == n then o / 0x40 % 2 == 1 else o == i % 0x100)
  {
    var b := i % 0x100;
    var q := i / 0x100;
    assert i == 0x40 * (4 * q) + b;
    assert i % 0x40 == b % 0x40;
  }

  /**
   * A fragment as the FAT specification lays it out. Its number counts from 1 at the start of the name, and the last
   * one has bit 6 set; the units behind the name are a terminator and then 0xFFFF.
   */
  lemma FragmentLayout(name: Name, sum: byte, i: nat, k: nat)
    requires 1 <= i <= FragmentCount(name) && k < 13
    ensures var e, last := Fragment(name, sum, i), i == FragmentCount(name);
      && e[0] % 0x40 == i % 0x40 && e[0] / 0x80 == i % 0x100 / 0x80
      && (if last then e[0] / 0x40 % 2 == 1 else e[0] == i % 0x100)
      && e[11] == 0x0F && e[12] == 0 && e[13] == sum && e[26] == 0 && e[27] == 0
      && var j := 13 * (i - 1) + k;
         Le16(e, UnitPlace(k)) == if j < |name| then name[j] else if j == |name| then 0 else 0xFFFF
  {
    OrdinalBits(i, FragmentCount(name));
    FragmentHolds(name, sum, i);
    PlaceOf(Fragment(name, sum, i), k);
    assert Padded(name)[13 * (i - 1)..13 * i][k] == Padded(name)[13 * (i - 1) + k];
    hide Ordinal, FragmentUnits, Le16, UnitBytes;
  }

  /**
   * Gathered fragments without a terminator do not name their entry. So a long name of 13 units, or a multiple of 13,
   * is lost when whoever wrote it left out the terminator, as the FAT specification allows.
   */
  lemma UnterminatedIsLost(cs: Charset, a: seq<Entry>, i: nat)
    requires i < |a| && 0 !in ScanAt(a, i).long
    ensures !HasLong(a, i) && NameOf(cs, ScanAt(a, i), a[i]) == ShortNameOf(cs, a[i])
  {
    hide ScanAt, Checksum, ShortNameOf;
  }

  /**
   * Gathered fragments whose first unit is the terminator are left as they are, so that the entry shows all of their
   * units, and its short name is not looked at.
   */
  lemma EmptyNameIsShown(cs: Charset, a: seq<Entry>, i: nat)
    requires i < |a| && var sc := ScanAt(a, i);
      sc.long != [] && sc.long[0] == 0 && sc.have && Checksum(ShortBytes(a[i])) == sc.sum
    ensures HasLong(a, i) && NameOf(cs, ScanAt(a, i), a[i]) == ScanAt(a, i).long
  {
    hide ScanAt, Checksum, ShortNameOf;
  }

  /** The list ends with an entry that is no fragment, or is empty. */
  predicate Closed(a: seq<Entry>) {
    a == [] || !IsFragment(a[|a| - 1])
  }

  lemma {:induction false} GatheredAlike(a: seq<Entry>, b: seq<Entry>, c: seq<Entry>, k: nat)
    requires Closed(a) && Closed(b) && k <= |c|
    ensures var s, t := ScanAt(a + c, |a| + k), ScanAt(b + c, |b| + k);
      s.long == t.long && s.have == t.have && (s.have ==> s.sum == t.sum)
  {
    hide FragmentUnits;
    if k == 0 {
      ScanAppend(a, c, |a|);
      ScanAppend(b, c, |b|);
    } else {
      GatheredAlike(a, b, c, k - 1);
      assert (a + c)[|a| + k - 1] == c[k - 1] == (b + c)[|b| + k - 1];
    }
  }

  /** Nothing in front of an entry that is no fragment has a part in the names behind it. */
  lemma NamesAreLocal(cs: Charset, a: seq<Entry>, b: seq<Entry>, c: seq<Entry>, k: nat, name: Name)
    requires Closed(a) && Closed(b) && k < |c|
    ensures MatchesAt(cs, a + c, |a| + k, name) == MatchesAt(cs, b + c, |b| + k, name)
  {
    GatheredAlike(a, b, c, k);
    hide ScanAt, Checksum, ShortNameOf, Terminated;
  }

  // ----- entries -----

  /** The entry of a new file: archive attribute, time and date of creation, nothing else. */
  lemma NewEntryLayout(short: seq<byte>, date: nat, time: nat, k: nat)
    requires |short| == 11 && k < 32
    ensures var e := ShortEntry(short, date, time);
      && (k < 11 ==> e[k] == short[k]) && e[11] == 0x20
      && Le16(e, 14) == time % TWO16 && Le16(e, 16) == date % TWO16
      && (12 <= k < 14 || 18 <= k ==> e[k] == 0)
  {
  }

  lemma WrittenParts(e: Entry, first: nat, size: nat, date: nat, time: nat, k: nat)
    ensures var r := WithContents(e, first, size, date, time);
      && (k < 18 ==> r[k] == e[k])
      && r[18..20] == Put16(date) && r[20..22] == Put16(first / TWO16) && r[22..24] == Put16(time)
      && r[24..26] == Put16(date) && r[26..28] == Put16(first % TWO16) && r[28..32] == Put32(size)
  {
    hide Put16, Put32;
  }

  /**
   * The entry of a written file: first cluster and size, the date of access, time and date of writing; the rest stays.
   */
  lemma WrittenEntryLayout(e: Entry, first: nat, size: nat, date: nat, time: nat, k: nat)
    requires first < TWO32 && size < TWO32 && k < 18
    ensures var r := WithContents(e, first, size, date, time);
      && r[k] == e[k]
      && Le16(r, 18) == Le16(r, 24) == date % TWO16 && Le16(r, 22) == time % TWO16
      && Le16(r, 26) + TWO16 * Le16(r, 20) == first && Le32(r, 28) == size
  {
    hide *;
    var r := WithContents(e, first, size, date, time);
    WrittenParts(e, first, size, date, time, k);
    PutAt(r, 18, date);
    PutAt(r, 20, first / TWO16);
    PutAt(r, 22, time);
    PutAt(r, 24, date);
    PutAt(r, 26, first % TWO16);
    PutAt(r, 28, size);
    Halves(first);
    SmallMod(size);
  }

  /** A file without clusters: its entry records the last number that fits, of 16 bits on FAT16 and of 28 otherwise. */
  lemma EmptyEntryLayout(kind: FatKind, e: Entry, date: nat, time: nat)
    ensures var r := WithContents(e, FirstRecorded(kind, []), 0, date, time);
      && Le16(r, 26) == 0xFFFF && Le16(r, 20) == (if kind.FAT16? then 0 else 0x0FFF) && Le32(r, 28) == 0
      && IsEof(kind, First(kind, r))
  {
    var first := FirstRecorded(kind, []);
    var r := WithContents(e, first, 0, date, time);
    assert first < TWO32;
    RecordedFields(kind, e, first, 0, date, time);
    WrittenParts(e, first, 0, date, time, 0);
    PutAt(r, 20, first / TWO16);
    PutAt(r, 26, first % TWO16);
    PutAt(r, 28, 0);
    hide WithContents, Put16, Put32, Le16, Le32, First;
  }
}
