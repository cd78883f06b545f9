/** Directory entries, long-name fragments and the names a directory scan sees. */
module Names {
  import opened Bytes

  type Unit = x: int | 0 <= x < TWO16 witness 0
  type Name = seq<Unit>
  type Entry = e: seq<byte> | |e| == 32 witness Zeroes(32)

  /**
   * The parts of the string library that the directory code relies on without looking inside: case folding of a
   * name, and the name that a run of bytes decodes to.
   */
  datatype Charset = Charset(lower: Name -> Name, decode: seq<byte> -> Name)

  const LAST_LONG_ENTRY := 0x40
  const ATTR_LONG_NAME := 0x0F
  const ATTR_DIRECTORY := 0x10
  const ATTR_ARCHIVE := 0x20
  const DELETED := 0xE5
  const DOT := 0x2E
  const SPACE := 0x20

  const SLASH := 0x2F

  /** The entry that ends a directory. */
  const END: Entry := Zeroes(32)

  /** The name up to its first slash. */
  function Head(name: Name): (r: Name)
    ensures SLASH !in r && |r| <= |name| && (name != [] && name[0] != SLASH ==> r != [])
  {
    if name == [] || name[0] == SLASH then [] else [name[0]] + Head(name[1..])
  }

  /** The components of a path; empty ones are skipped. */
  function Parts(name: Name): (r: seq<Name>)
    ensures forall p | p in r :: p != [] && SLASH !in p
    decreases |name|
  {
    if name == [] then []
    else if name[0] == SLASH then Parts(name[1..])
    else [Head(name)] + Parts(name[|Head(name)|..])
  }

  /** The name under which `writeFile` looks for the file: the last component of a path. */
  function Target(name: Name): (r: Name)
    ensures SLASH !in name ==> r == name
    ensures SLASH in r ==> Parts(name) == []
  {
    if SLASH in name && Parts(name) != [] then Parts(name)[|Parts(name)| - 1] else name
  }

  /** The source tests the four low attribute bits together, so any one of them makes a fragment. */
  predicate IsFragment(e: Entry) {
    e[11] % 16 != 0
  }

  predicate IsLive(e: Entry) {
    !IsFragment(e) && e[0] != DELETED
  }

  function ShortBytes(e: Entry): (r: seq<byte>)
    ensures |r| == 11
  {
    e[..11]
  }

  function FileSize(e: Entry): nat {
    Le32(e, 28)
  }

  /** The checksum that ties long-name fragments to their short entry: rotate right, add, in 8 bits. */
  function Checksum(s: seq<byte>): byte {
    if s == [] then 0
    else
      var sum := Checksum(s[..|s| - 1]);
      ((if sum % 2 == 1 then 0x80 else 0) + sum / 2 + s[|s| - 1]) % 0x100
  }

  // ----- UTF-16 units in a fragment -----

  function Units(b: seq<byte>): (r: Name)
    ensures |r| == |b| / 2
  {
    seq(|b| / 2, i requires 0 <= i < |b| / 2 => Le16(b, 2 * i))
  }

  function UnitBytes(u: Name): (r: seq<byte>)
    ensures |r| == 2 * |u|
  {
    seq(2 * |u|, i requires 0 <= i < 2 * |u| => if i % 2 == 0 then u[i / 2] % 0x100 else u[i / 2] / 0x100)
  }

  lemma UnitsRoundTrip(u: Name)
    ensures Units(UnitBytes(u)) == u
  {
    forall i | 0 <= i < |u| ensures Le16(UnitBytes(u), 2 * i) == u[i] {
      assert UnitBytes(u)[2 * i] == u[i] % 0x100;
      assert UnitBytes(u)[2 * i + 1] == u[i] / 0x100;
    }
  }

  lemma UnitBytesConcat(u: Name, v: Name)
    ensures UnitBytes(u + v) == UnitBytes(u) + UnitBytes(v)
  {
    forall i | 0 <= i < 2 * |u + v| ensures UnitBytes(u + v)[i] == (UnitBytes(u) + UnitBytes(v))[i] {
      if i >= 2 * |u| {
        assert i / 2 - |u| == (i - 2 * |u|) / 2 && i % 2 == (i - 2 * |u|) % 2;
      }
    }
  }

  /** The 13 units of a fragment, from its three name fields. */
  function FragmentUnits(e: Entry): (r: Name)
    ensures |r| == 13
  {
    Units(e[1..11] + e[14..26] + e[28..32])
  }

  function FragmentCount(name: Name): (r: nat)
    ensures r >= 1
  {
    (2 * (|name| + 1) + 25) / 26
  }

  /** The name with its terminator, filled up with 0xFFFF to whole fragments. */
  function Padded(name: Name): (r: Name)
    ensures |r| == 13 * FragmentCount(name)
    ensures name + [0] <= r
  {
    name + [0] + seq(13 * FragmentCount(name) - |name| - 1, _ => 0xFFFF)
  }

  function Ordinal(i: nat, n: nat): byte {
    if i != n then i % 0x100
    else if i % 0x100 / LAST_LONG_ENTRY % 2 == 1 then i % 0x100
    else i % 0x100 + LAST_LONG_ENTRY
  }

  /** Fragment `i` of `name`, counted from 1. */
  function Fragment(name: Name, sum: byte, i: nat): (e: Entry)
    requires 1 <= i <= FragmentCount(name)
    ensures IsFragment(e) && e[0] == Ordinal(i, FragmentCount(name)) && e[13] == sum
  {
    var u := Padded(name)[13 * (i - 1)..13 * i];
    [Ordinal(i, FragmentCount(name))] + UnitBytes(u[..5]) + [ATTR_LONG_NAME, 0, sum] + UnitBytes(u[5..11]) + [0, 0]
    + UnitBytes(u[11..])
  }

  lemma FragmentHolds(name: Name, sum: byte, i: nat)
    requires 1 <= i <= FragmentCount(name)
    ensures FragmentUnits(Fragment(name, sum, i)) == Padded(name)[13 * (i - 1)..13 * i]
  {
    var e, u := Fragment(name, sum, i), Padded(name)[13 * (i - 1)..13 * i];
    assert e[1..11] == UnitBytes(u[..5]) && e[14..26] == UnitBytes(u[5..11]) && e[28..32] == UnitBytes(u[11..]);
    UnitBytesConcat(u[..5], u[5..11]);
    UnitBytesConcat(u[..5] + u[5..11], u[11..]);
    assert u[..5] + u[5..11] + u[11..] == u;
    UnitsRoundTrip(u);
  }

  /** The fragments in the order they are written: from `i` down to 1. */
  function Fragments(name: Name, sum: byte, i: nat): (r: seq<Entry>)
    requires i <= FragmentCount(name)
    ensures |r| == i
  {
    if i == 0 then [] else [Fragment(name, sum, i)] + Fragments(name, sum, i - 1)
  }

  // ----- scanning -----

  /** What the scan has gathered in front of an entry. */
  datatype Scan = Scan(long: Name, sum: byte, have: bool)

  function Step(sc: Scan, e: Entry): Scan {
    if IsFragment(e) then Scan(FragmentUnits(e) + sc.long, e[13], true)
    else Scan([], sc.sum, false)
  }

  function ScanAt(a: seq<Entry>, i: nat): Scan
    requires i <= |a|
  {
    if i == 0 then Scan([], 0, false) else Step(ScanAt(a, i - 1), a[i - 1])
  }

  function IndexOf(s: Name, u: Unit): (r: int)
    ensures r == -1 <==> u !in s
    ensures r != -1 ==> 0 <= r < |s| && s[r] == u && u !in s[..r]
  {
    if s == [] then -1
    else if s[0] == u then 0
    else
      var r := IndexOf(s[1..], u);
      assert forall x | x in s :: x == s[0] || x in s[1..];
      if r == -1 then -1 else
        assert s[..r + 1] == [s[0]] + s[1..][..r];
        r + 1
  }

  /**
   * The gathered name up to its terminator. A name without a terminator is dropped altogether, because truncating
   * at index -1 empties the string; one that starts with the terminator is left as it is.
   */
  function Terminated(s: Name): Name {
    var i := IndexOf(s, 0);
    if i == -1 then [] else if i == 0 then s else s[..i]
  }

  predicate IsBlank(b: byte) {
    b == SPACE || 9 <= b <= 13
  }

  function Trimmed(s: seq<byte>): (r: seq<byte>)
    decreases |s|
  {
    if s == [] then []
    else if IsBlank(s[0]) then Trimmed(s[1..])
    else if IsBlank(s[|s| - 1]) then Trimmed(s[..|s| - 1])
    else s
  }

  function AsciiLower(s: seq<byte>): (r: seq<byte>)
    ensures |r| == |s|
  {
    seq(|s|, i requires 0 <= i < |s| => if 0x41 <= s[i] <= 0x5A then s[i] + 0x20 else s[i])
  }

  /** The 8.3 name an entry shows when it has no valid long name. */
  function ShortNameOf(cs: Charset, e: Entry): Name {
    var base, ext := AsciiLower(Trimmed(e[..8])), AsciiLower(Trimmed(e[8..11]));
    cs.decode(if ext == [] then base else base + [DOT] + ext)
  }

  /** The name of a live entry: the long name when the checksum fits, else the short one. */
  function NameOf(cs: Charset, sc: Scan, e: Entry): Name {
    var long := Terminated(sc.long);
    if long != [] && sc.have && Checksum(ShortBytes(e)) == sc.sum then long else ShortNameOf(cs, e)
  }

  predicate Matches(cs: Charset, sc: Scan, e: Entry, name: Name) {
    IsLive(e) && cs.lower(NameOf(cs, sc, e)) == cs.lower(name)
  }

  predicate MatchesAt(cs: Charset, a: seq<Entry>, i: nat, name: Name)
    requires i < |a|
  {
    Matches(cs, ScanAt(a, i), a[i], name)
  }

  /** The fragments in front of the entry make a long name for it. */
  ghost predicate HasLong(a: seq<Entry>, i: nat)
    requires i < |a|
  {
    var sc := ScanAt(a, i);
    Terminated(sc.long) != [] && sc.have && Checksum(ShortBytes(a[i])) == sc.sum
  }

  /**
   * An entry is matched by its short name exactly when it is not deleted, none of its four low attribute bits is set,
   * so that it does not count as a fragment, and it has no long name that differs. Without a fragment directly in front
   * of it, it has none.
   */
  lemma FoundByShortName(cs: Charset, a: seq<Entry>, i: nat)
    requires i < |a|
    ensures MatchesAt(cs, a, i, ShortNameOf(cs, a[i])) <==>
      && a[i][0] != DELETED && a[i][11] % 16 == 0
      && (HasLong(a, i) ==> cs.lower(Terminated(ScanAt(a, i).long)) == cs.lower(ShortNameOf(cs, a[i])))
    ensures i == 0 || a[i - 1][11] % 16 == 0 ==> !HasLong(a, i)
  {
    hide Terminated, Checksum, ShortNameOf, FragmentUnits;
  }

  lemma ScanStart(a: seq<Entry>)
    ensures ScanAt(a, 0) == Scan([], 0, false)
  {
  }

  /** One step of the scan, as the loop of the source takes it. */
  lemma ScanNext(cs: Charset, a: seq<Entry>, i: nat, name: Name)
    requires i < |a|
    ensures ScanAt(a, i + 1) == if IsFragment(a[i]) then Scan(FragmentUnits(a[i]) + ScanAt(a, i).long, a[i][13], true)
                                else Scan([], ScanAt(a, i).sum, false)
    ensures MatchesAt(cs, a, i, name) <==> !IsFragment(a[i]) && Matches(cs, ScanAt(a, i), a[i], name)
  {
    hide FragmentUnits, NameOf;
  }

  /** The first entry at or after `i` with that name, or the length of the directory. */
  function FindFrom(cs: Charset, a: seq<Entry>, i: nat, name: Name): (r: nat)
    requires i <= |a|
    ensures i <= r <= |a|
    ensures r < |a| ==> MatchesAt(cs, a, r, name)
    ensures forall j | i <= j < r :: !MatchesAt(cs, a, j, name)
    decreases |a| - i
  {
    if i == |a| || MatchesAt(cs, a, i, name) then i else FindFrom(cs, a, i + 1, name)
  }

  function Find(cs: Charset, a: seq<Entry>, name: Name): (r: nat)
    ensures r <= |a|
  {
    FindFrom(cs, a, 0, name)
  }

  lemma {:induction false} FindIs(cs: Charset, a: seq<Entry>, name: Name, r: nat)
    requires r <= |a|
    requires r < |a| ==> MatchesAt(cs, a, r, name)
    requires forall j | 0 <= j < r :: !MatchesAt(cs, a, j, name)
    ensures Find(cs, a, name) == r
  {
  }

  lemma {:induction false} ScanPrefix(a: seq<Entry>, b: seq<Entry>, i: nat)
    requires i <= |a| && i <= |b| && a[..i] == b[..i]
    ensures ScanAt(a, i) == ScanAt(b, i)
  {
    if i > 0 {
      assert a[..i][i - 1] == b[..i][i - 1];
      assert a[..i - 1] == a[..i][..i - 1] && b[..i - 1] == b[..i][..i - 1];
      ScanPrefix(a, b, i - 1);
    }
  }

  /** The part of the padded name that the last `k` fragments hold. */
  function Tail(name: Name, k: nat): Name
    requires k <= FragmentCount(name)
  {
    Padded(name)[13 * (FragmentCount(name) - k)..]
  }

  lemma TailStep(name: Name, sum: byte, k: nat)
    requires 1 <= k <= FragmentCount(name)
    ensures Tail(name, k) == FragmentUnits(Fragment(name, sum, FragmentCount(name) + 1 - k)) + Tail(name, k - 1)
  {
    var i, u := FragmentCount(name) + 1 - k, Padded(name);
    FragmentHolds(name, sum, i);
    hide Fragment, FragmentUnits, Padded;
    assert u[13 * (i - 1)..13 * i] + u[13 * i..] == u[13 * (i - 1)..];
  }

  /** Reading back `k` fragments gathers their part of the name in front of what was gathered before them. */
  lemma {:induction false} ScanFragments(a: seq<Entry>, b: seq<Entry>, name: Name, sum: byte, k: nat)
    requires 1 <= k <= FragmentCount(name)
    requires b == a + Fragments(name, sum, FragmentCount(name))
    ensures ScanAt(b, |a| + k) == Scan(Tail(name, k) + ScanAt(a, |a|).long, sum, true)
  {
    hide *;
    var n, junk := FragmentCount(name), ScanAt(a, |a|).long;
    var e := Fragment(name, sum, n + 1 - k);
    FragmentsAt(name, sum, n, k - 1);
    assert b[|a| + k - 1] == e;
    TailStep(name, sum, k);
    if k == 1 {
      assert a[..|a|] == b[..|a|];
      ScanPrefix(a, b, |a|);
      TailEmpty(name);
      assert FragmentUnits(e) + Tail(name, 0) == FragmentUnits(e);
    } else {
      ScanFragments(a, b, name, sum, k - 1);
    }
    ScanFragment(b, |a| + k);
    assert FragmentUnits(e) + (Tail(name, k - 1) + junk) == Tail(name, k) + junk;
  }

  lemma ScanFragment(a: seq<Entry>, i: nat)
    requires 0 < i <= |a| && IsFragment(a[i - 1])
    ensures ScanAt(a, i) == Scan(FragmentUnits(a[i - 1]) + ScanAt(a, i - 1).long, a[i - 1][13], true)
  {
    hide FragmentUnits, IsFragment;
  }

  lemma TailEmpty(name: Name)
    ensures Tail(name, 0) == [] && Tail(name, FragmentCount(name)) == Padded(name)
  {
  }

  lemma {:induction false} FragmentsAt(name: Name, sum: byte, n: nat, k: nat)
    requires n <= FragmentCount(name) && k < n
    ensures Fragments(name, sum, n)[k] == Fragment(name, sum, n - k)
  {
    hide Fragment, FragmentCount;
    if k > 0 {
      FragmentsAt(name, sum, n - 1, k - 1);
    }
  }

  lemma {:induction false} FragmentsTake(name: Name, sum: byte, k: nat)
    requires k < FragmentCount(name)
    ensures var n, f := FragmentCount(name), Fragments(name, sum, FragmentCount(name));
            f[..k] + [Fragment(name, sum, n - k)] == f[..k + 1]
  {
    FragmentsAt(name, sum, FragmentCount(name), k);
    hide Fragment, FragmentCount;
  }

  lemma {:induction false} TerminatedIs(name: Name, rest: Name)
    requires name != [] && 0 !in name
    ensures Terminated(name + [0] + rest) == name
  {
    var s := name + [0] + rest;
    var i := IndexOf(s, 0);
    assert s[|name|] == 0;
    assert forall k | 0 <= k < |name| :: s[k] == name[k];
  }

  lemma {:induction false} ScanAll(a: seq<Entry>, name: Name, sum: byte)
    ensures ScanAt(a + Fragments(name, sum, FragmentCount(name)), |a| + FragmentCount(name))
            == Scan(Padded(name) + ScanAt(a, |a|).long, sum, true)
  {
    hide *;
    var n := FragmentCount(name);
    var f := Fragments(name, sum, n);
    ScanFragments(a, a + f, name, sum, n);
    TailEmpty(name);
  }

  lemma {:induction false} PaddedTerminated(name: Name, junk: Name)
    requires name != [] && 0 !in name
    ensures Terminated(Padded(name) + junk) == name
  {
    var u, p: Name := Padded(name), name + [0];
    hide *;
    var rest := u[|p|..] + junk;
    assert u + junk == p + rest;
    TerminatedIs(name, rest);
  }

  /**
   * Round trip of the long-name codec: whatever the scan had gathered before, after the fragments of `name` a short
   * entry with the matching checksum shows exactly `name`.
   */
  lemma {:induction false} LongNameRoundTrip(cs: Charset, a: seq<Entry>, name: Name, e: Entry)
    requires name != [] && 0 !in name
    ensures var sum := Checksum(ShortBytes(e));
            NameOf(cs, ScanAt(a + Fragments(name, sum, FragmentCount(name)), |a| + FragmentCount(name)), e) == name
  {
    ScanAll(a, name, Checksum(ShortBytes(e)));
    PaddedTerminated(name, ScanAt(a, |a|).long);
    hide ShortNameOf, Terminated, ScanAt, Fragments, Checksum, FragmentCount, Padded;
  }
}
