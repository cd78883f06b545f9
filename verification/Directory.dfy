/** The directory as the list of entries in front of its end marker: lookup, creation and update. */
module Directories {
  import opened Bytes
  import opened Options
  import opened Names

  function Latin1(name: Name): (r: seq<byte>)
    ensures |r| == |name|
  {
    seq(|name|, i requires 0 <= i < |name| => if name[i] < 0x100 then name[i] else 0x3F)
  }

  function AsciiUpper(s: seq<byte>): (r: seq<byte>)
    ensures |r| == |s|
  {
    seq(|s|, i requires 0 <= i < |s| => if 0x61 <= s[i] <= 0x7A then s[i] - 0x20 else s[i])
  }

  function Justified(s: seq<byte>, n: nat): (r: seq<byte>)
    ensures |r| == n
  {
    if |s| >= n then s[..n] else s + seq(n - |s|, _ => SPACE)
  }

  function Dots(name: Name): nat {
    if name == [] then 0 else Dots(name[1..]) + if name[0] == DOT then 1 else 0
  }

  function DotIndex(s: seq<byte>): (r: nat)
    ensures r <= |s|
    ensures r < |s| ==> s[r] == DOT
  {
    if s == [] || s[0] == DOT then 0 else 1 + DotIndex(s[1..])
  }

  /**
   * The short name the code tries first: upper case 8.3 for exactly one dot, else the first 11 characters as they
   * are.
   */
  function BaseShort(name: Name): (r: seq<byte>)
    ensures |r| == 11
  {
    if Dots(name) == 1 then
      var s := AsciiUpper(Latin1(name));
      var i := DotIndex(s);
      Justified(s[..i], 8) + Justified(if i < |s| then s[i + 1..] else [], 3)
    else Justified(Latin1(name), 11)
  }

  function Digit(i: nat): byte
    requires i < 10
  {
    0x30 + i
  }

  /** The short name with `i` written into its end. */
  function Numbered(s: seq<byte>, i: nat): (r: seq<byte>)
    requires |s| == 11 && i < 100
    ensures |r| == 11
    ensures r[0] == s[0]
  {
    if i < 10 then s[..7] + [Digit(i)] + s[8..] else s[..6] + [Digit(i / 10), Digit(i % 10)] + s[8..]
  }

  predicate TakenAt(a: seq<Entry>, i: nat, s: seq<byte>)
    requires i < |a|
  {
    !IsFragment(a[i]) && ShortBytes(a[i]) == s
  }

  predicate Taken(a: seq<Entry>, s: seq<byte>) {
    exists i | 0 <= i < |a| :: TakenAt(a, i, s)
  }

  function PickFrom(a: seq<Entry>, s: seq<byte>, i: nat): (r: Option<seq<byte>>)
    requires |s| == 11 && i <= 100
    ensures r.Some? ==> |r.value| == 11 && !Taken(a, r.value) && r.value[0] == s[0]
    decreases 100 - i
  {
    if i == 100 then None
    else if !Taken(a, Numbered(s, i)) then Some(Numbered(s, i))
    else PickFrom(a, Numbered(s, i), i + 1)
  }

  lemma NotTaken(a: seq<Entry>, s: seq<byte>)
    requires forall i | 0 <= i < |a| :: !TakenAt(a, i, s)
    ensures !Taken(a, s)
  {
  }

  lemma TakenIs(a: seq<Entry>, i: nat, s: seq<byte>)
    requires i < |a| && TakenAt(a, i, s)
    ensures Taken(a, s)
  {
  }

  lemma PickFromIs(a: seq<Entry>, s: seq<byte>, i: nat)
    requires |s| == 11 && i <= 100
    ensures i == 100 ==> PickFrom(a, s, i) == None
    ensures i < 100 ==> PickFrom(a, s, i) == if Taken(a, Numbered(s, i)) then PickFrom(a, Numbered(s, i), i + 1)
                                             else Some(Numbered(s, i))
  {
  }

  lemma PickIs(a: seq<Entry>, name: Name)
    ensures Pick(a, name)
            == if Taken(a, BaseShort(name)) then PickFrom(a, BaseShort(name), 0) else Some(BaseShort(name))
  {
  }

  /** The short name a new file gets; none when the plain one and all hundred numbered ones are taken. */
  function Pick(a: seq<Entry>, name: Name): (r: Option<seq<byte>>)
    ensures r.Some? ==> |r.value| == 11 && !Taken(a, r.value) && r.value[0] == BaseShort(name)[0]
  {
    if !Taken(a, BaseShort(name)) then Some(BaseShort(name)) else PickFrom(a, BaseShort(name), 0)
  }

  function ShortEntry(short: seq<byte>, date: nat, time: nat): (e: Entry)
    requires |short| == 11
    ensures ShortBytes(e) == short && !IsFragment(e)
    ensures forall k | 18 <= k < 32 :: e[k] == 0
  {
    var e := short + [ATTR_ARCHIVE, 0, 0] + Put16(time) + Put16(date) + Zeroes(14);
    assert e[..11] == short;
    e
  }

  /** The entries a new file appends. */
  function NewEntries(name: Name, short: seq<byte>, date: nat, time: nat): (r: seq<Entry>)
    requires |short| == 11
    ensures |r| == FragmentCount(name) + 1
    ensures r[FragmentCount(name)] == ShortEntry(short, date, time)
  {
    Fragments(name, Checksum(short), FragmentCount(name)) + [ShortEntry(short, date, time)]
  }

  lemma NewEntriesAre(name: Name, short: seq<byte>, date: nat, time: nat)
    requires |short| == 11
    ensures NewEntries(name, short, date, time)
            == Fragments(name, Checksum(short), FragmentCount(name)) + [ShortEntry(short, date, time)]
  {
  }

  /** A name whose fragments hold it: it is not empty, holds no terminator, and no fragment number is zero. */
  predicate Writable(name: Name) {
    name != [] && 0 !in name && FragmentCount(name) <= 256
  }

  /** A short name that starts with this unit reads as a deleted entry. */
  predicate IsHidden(name: Name) {
    name != [] && name[0] == DELETED
  }

  /** A name the code can store and find again. */
  predicate Storable(name: Name) {
    Writable(name) && !IsHidden(name)
  }

  lemma {:induction false} DotIsFirst(name: Name, s: seq<byte>)
    requires |s| == |name|
    requires forall i | 0 <= i < |name| :: s[i] == DOT <==> name[i] == DOT
    ensures Dots(name) >= 1 ==> DotIndex(s) < |s|
  {
    if name != [] && name[0] != DOT {
      DotIsFirst(name[1..], s[1..]);
    }
  }

  /** The short name is no end marker, and it is a deleted entry exactly for the names that start with that unit. */
  lemma ShortIsLive(name: Name)
    requires Writable(name)
    ensures BaseShort(name)[0] != 0
    ensures BaseShort(name)[0] == DELETED <==> IsHidden(name)
  {
    assert name[0] in name;
    assert Latin1(name)[0] != 0 && (Latin1(name)[0] == DELETED <==> IsHidden(name));
    var s := AsciiUpper(Latin1(name));
    assert s[0] != 0 && (s[0] == DELETED <==> IsHidden(name));
    if IsHidden(name) {
      ShortIsDeleted(name);
    }
    if Dots(name) == 1 && DotIndex(s) > 0 {
      assert Justified(s[..DotIndex(s)], 8)[0] == s[0];
    }
  }

  /** A name that starts with that unit gets a short name that reads as deleted. */
  lemma ShortIsDeleted(name: Name)
    requires IsHidden(name)
    ensures BaseShort(name)[0] == DELETED
  {
    var s := AsciiUpper(Latin1(name));
    assert s[0] == DELETED;
    if Dots(name) == 1 {
      assert DotIndex(s) > 0;
      assert Justified(s[..DotIndex(s)], 8)[0] == s[0];
    }
  }

  lemma {:induction false} ScanAppend(a: seq<Entry>, b: seq<Entry>, i: nat)
    requires i <= |a|
    ensures ScanAt(a + b, i) == ScanAt(a, i)
  {
    assert (a + b)[..i] == a[..i];
    ScanPrefix(a, a + b, i);
  }

  lemma MatchAppend(cs: Charset, a: seq<Entry>, b: seq<Entry>, i: nat, name: Name)
    requires i < |a|
    ensures MatchesAt(cs, a + b, i, name) == MatchesAt(cs, a, i, name)
  {
    ScanAppend(a, b, i);
    hide Matches, ScanAt;
  }

  /** Appending entries leaves the first match where it was, when there was one. */
  lemma {:induction false} FindAppend(cs: Charset, a: seq<Entry>, b: seq<Entry>, name: Name)
    ensures Find(cs, a, name) < |a| ==> Find(cs, a + b, name) == Find(cs, a, name)
    ensures Find(cs, a, name) == |a| ==> Find(cs, a + b, name) >= |a|
  {
    var r := Find(cs, a, name);
    forall j | 0 <= j < |a| ensures MatchesAt(cs, a + b, j, name) == MatchesAt(cs, a, j, name) {
      MatchAppend(cs, a, b, j, name);
    }
    hide MatchesAt, FindFrom;
    if r < |a| {
      FindIs(cs, a + b, name, r);
    }
  }

  /** What the entry appended for `name` shows: the name itself, if its short name is live. */
  lemma {:induction false} CreatedMatches(cs: Charset, a: seq<Entry>, name: Name, short: seq<byte>, date: nat,
                                          time: nat,
                                          other: Name)
    requires name != [] && 0 !in name && |short| == 11
    ensures var b, n := a + NewEntries(name, short, date, time), FragmentCount(name);
            && (forall j | |a| <= j < |a| + n :: IsFragment(b[j]))
            && (MatchesAt(cs, b, |a| + n, other) <==> short[0] != DELETED && cs.lower(name) == cs.lower(other))
  {
    hide *;
    var n, sum := FragmentCount(name), Checksum(short);
    var f, e := Fragments(name, sum, n), ShortEntry(short, date, time);
    var b := a + NewEntries(name, short, date, time);
    NewEntriesAre(name, short, date, time);
    assert b == a + f + [e];
    forall j | |a| <= j < |a| + n ensures IsFragment(b[j]) {
      FragmentsAt(name, sum, n, j - |a|);
      assert b[j] == f[j - |a|];
    }
    ScanAppend(a + f, [e], |a| + n);
    LongNameRoundTrip(cs, a, name, e);
    ShownMatches(cs, b, |a| + n, name, other);
    ShortFirst(short, date, time);
  }

  lemma ShownMatches(cs: Charset, a: seq<Entry>, i: nat, name: Name, other: Name)
    requires i < |a| && !IsFragment(a[i]) && NameOf(cs, ScanAt(a, i), a[i]) == name
    ensures MatchesAt(cs, a, i, other) <==> a[i][0] != DELETED && cs.lower(name) == cs.lower(other)
  {
    hide NameOf, ScanAt;
  }

  lemma ShortFirst(short: seq<byte>, date: nat, time: nat)
    requires |short| == 11
    ensures ShortEntry(short, date, time)[0] == short[0]
    ensures ShortBytes(ShortEntry(short, date, time)) == short
  {
    assert ShortBytes(ShortEntry(short, date, time))[0] == ShortEntry(short, date, time)[0];
  }

  /**
   * Creation and lookup agree. After the entries of `name` are appended, exactly the names that fold to the same
   * string as `name` find the new entry, if its short name is live; every other name is found where it was.
   */
  lemma {:induction false} CreateFind(cs: Charset, a: seq<Entry>, name: Name, short: seq<byte>, date: nat, time: nat,
                                      other: Name)
    requires name != [] && 0 !in name && |short| == 11
    ensures var b := a + NewEntries(name, short, date, time);
            Find(cs, b, other) ==
              if Find(cs, a, other) < |a| then Find(cs, a, other)
              else if short[0] != DELETED && cs.lower(name) == cs.lower(other) then |a| + FragmentCount(name)
              else |b|
  {
    var b, n := a + NewEntries(name, short, date, time), FragmentCount(name);
    FindAppend(cs, a, NewEntries(name, short, date, time), other);
    CreatedMatches(cs, a, name, short, date, time, other);
    forall j | |a| <= j < |a| + n ensures !MatchesAt(cs, b, j, other) {
      assert IsFragment(b[j]);
    }
    assert |b| == |a| + n + 1;
    hide MatchesAt, NewEntries, FragmentCount;
  }

  /** Changing only size, cluster and times of a live entry changes no scan. */
  lemma {:induction false} ScanUpdate(a: seq<Entry>, i: nat, e: Entry, j: nat)
    requires i < |a| && j <= |a| && !IsFragment(a[i]) && !IsFragment(e)
    ensures ScanAt(a[i := e], j) == ScanAt(a, j)
  {
    if j > 0 {
      ScanUpdate(a, i, e, j - 1);
    }
  }

  /** An update of size, cluster and times in place leaves every lookup as it was. */
  lemma {:induction false} UpdateFind(cs: Charset, a: seq<Entry>, i: nat, e: Entry, name: Name)
    requires i < |a| && !IsFragment(a[i]) && e[..12] == a[i][..12]
    ensures Find(cs, a[i := e], name) == Find(cs, a, name)
  {
    assert e[11] == e[..12][11] && a[i][11] == a[i][..12][11];
    assert e[..11] == e[..12][..11] && a[i][..11] == a[i][..12][..11];
    assert e[..8] == e[..12][..8] && a[i][..8] == a[i][..12][..8];
    assert e[8..11] == e[..12][8..11] && a[i][8..11] == a[i][..12][8..11];
    assert e[0] == e[..12][0] && a[i][0] == a[i][..12][0];
    var b := a[i := e];
    forall j | 0 <= j < |a| ensures MatchesAt(cs, b, j, name) == MatchesAt(cs, a, j, name) {
      ScanUpdate(a, i, e, j);
    }
    hide MatchesAt;
    FindIs(cs, b, name, Find(cs, a, name));
  }

  /** Live entries have different short names. */
  ghost predicate UniqueShort(a: seq<Entry>) {
    forall i, j | 0 <= i < j < |a| && IsLive(a[i]) && IsLive(a[j]) :: ShortBytes(a[i]) != ShortBytes(a[j])
  }

  /**
   * The names compare as `updateDirEntry` compares them: without the first byte when the new entry reads as deleted.
   */
  predicate NamedLike(x: Entry, e: Entry) {
    if e[0] == DELETED then x[1..11] == e[1..11] else ShortBytes(x) == ShortBytes(e)
  }

  predicate UpdatesAt(a: seq<Entry>, i: nat, e: Entry)
    requires i < |a|
  {
    !IsFragment(a[i]) && NamedLike(a[i], e)
  }

  /** The entry that an update with `e` overwrites: the first one, fragments aside, with that name. */
  function FindUpdate(a: seq<Entry>, i: nat, e: Entry): (r: nat)
    requires i <= |a|
    ensures i <= r <= |a|
    ensures r < |a| ==> UpdatesAt(a, r, e)
    ensures forall j | i <= j < r :: !UpdatesAt(a, j, e)
    decreases |a| - i
  {
    if i == |a| || UpdatesAt(a, i, e) then i else FindUpdate(a, i + 1, e)
  }

  lemma UpdatesAtIs(a: seq<Entry>, i: nat, e: Entry)
    requires i < |a|
    ensures UpdatesAt(a, i, e) <==> !IsFragment(a[i]) && NamedLike(a[i], e)
  {
  }

  lemma {:induction false} FindUpdateIs(a: seq<Entry>, r: nat, e: Entry)
    requires r < |a| && UpdatesAt(a, r, e) && forall j | 0 <= j < r :: !UpdatesAt(a, j, e)
    ensures FindUpdate(a, 0, e) == r
  {
  }

  lemma {:induction false} FindUpdateNone(a: seq<Entry>, e: Entry)
    requires forall j | 0 <= j < |a| :: !UpdatesAt(a, j, e)
    ensures FindUpdate(a, 0, e) == |a|
  {
  }

  lemma TakenAtIs(a: seq<Entry>, i: nat, s: seq<byte>)
    requires i < |a|
    ensures TakenAt(a, i, s) <==> !IsFragment(a[i]) && ShortBytes(a[i]) == s
  {
  }

  /** With unique short names the entry to overwrite is the one that was looked up. */
  lemma {:induction false} FindUpdateUnique(a: seq<Entry>, i: nat, e: Entry)
    requires i < |a| && IsLive(a[i]) && UniqueShort(a) && ShortBytes(e) == ShortBytes(a[i])
    ensures FindUpdate(a, 0, e) == i
  {
    assert e[0] == ShortBytes(e)[0] && a[i][0] == ShortBytes(a[i])[0];
    var r := FindUpdate(a, 0, e);
    assert UpdatesAt(a, i, e);
    assert r <= i;
    assert a[r][0] == ShortBytes(a[r])[0];
  }

  /** All that creating a file writes: its entries, and a new end marker. */
  function Appended(name: Name, short: seq<byte>, date: nat, time: nat): (r: seq<Entry>)
    requires |short| == 11
    ensures |r| == FragmentCount(name) + 2
  {
    NewEntries(name, short, date, time) + [END]
  }

  lemma AppendedIs(name: Name, short: seq<byte>, date: nat, time: nat)
    requires |short| == 11
    ensures var r, n := Appended(name, short, date, time), FragmentCount(name);
      && (forall k | 0 <= k < n :: r[k] == Fragments(name, Checksum(short), n)[k])
      && r[n] == ShortEntry(short, date, time) && r[n + 1] == END
  {
    NewEntriesAre(name, short, date, time);
    hide ShortEntry, Fragments, FragmentCount;
  }

  // ----- names that read as deleted -----

  /** Only the name decides what is overwritten. */
  lemma {:induction false} FindUpdateSame(a: seq<Entry>, d: Entry, e: Entry)
    requires ShortBytes(d) == ShortBytes(e)
    ensures FindUpdate(a, 0, d) == FindUpdate(a, 0, e)
  {
    assert d[0] == ShortBytes(d)[0] && e[0] == ShortBytes(e)[0];
    assert d[1..11] == ShortBytes(d)[1..11] && e[1..11] == ShortBytes(e)[1..11];
    var r := FindUpdate(a, 0, e);
    assert forall j | 0 <= j < |a| :: UpdatesAt(a, j, d) == UpdatesAt(a, j, e);
    hide UpdatesAt;
    if r < |a| {
      FindUpdateIs(a, r, d);
    } else {
      FindUpdateNone(a, d);
    }
  }

  /**
   * For a new entry that reads as deleted, the one overwritten is the new one if and only if no entry before it,
   * fragments aside, agrees in the ten bytes behind the first; otherwise it is the first such entry.
   */
  lemma {:induction false} HiddenUpdate(a: seq<Entry>, name: Name, short: seq<byte>, date: nat, time: nat, e: Entry)
    requires |short| == 11 && short[0] == DELETED && ShortBytes(e) == short
    ensures var b, at := a + NewEntries(name, short, date, time), |a| + FragmentCount(name);
      && FindUpdate(b, 0, e) == (if FindUpdate(a, 0, e) < |a| then FindUpdate(a, 0, e) else at)
      && (FindUpdate(b, 0, e) == at <==> forall j | 0 <= j < |a| :: IsFragment(a[j]) || a[j][1..11] != short[1..11])
  {
    var b, n, r := a + NewEntries(name, short, date, time), FragmentCount(name), FindUpdate(a, 0, e);
    assert e[0] == ShortBytes(e)[0] && e[1..11] == ShortBytes(e)[1..11];
    forall j | 0 <= j < |a|
      ensures UpdatesAt(b, j, e) == UpdatesAt(a, j, e)
      ensures UpdatesAt(a, j, e) <==> !IsFragment(a[j]) && a[j][1..11] == short[1..11]
    {
      assert b[j] == a[j];
    }
    forall j | |a| <= j < |a| + n ensures !UpdatesAt(b, j, e) {
      FragmentsAt(name, Checksum(short), n, j - |a|);
      assert b[j] == Fragments(name, Checksum(short), n)[j - |a|];
    }
    assert b[|a| + n] == ShortEntry(short, date, time) && UpdatesAt(b, |a| + n, e) by {
      assert ShortEntry(short, date, time)[1..11] == ShortBytes(ShortEntry(short, date, time))[1..11];
    }
    hide UpdatesAt, NewEntries, FragmentCount, IsFragment;
    FindUpdateIs(b, if r < |a| then r else |a| + n, e);
  }

  /** An entry that reads as deleted, in place of another one: that one is not found any more, every other one is. */
  lemma {:induction false} HideFind(cs: Charset, a: seq<Entry>, i: nat, e: Entry, name: Name)
    requires i < |a| && !IsFragment(a[i]) && !IsFragment(e) && e[0] == DELETED
    ensures Find(cs, a, name) != i ==> Find(cs, a[i := e], name) == Find(cs, a, name)
    ensures Find(cs, a[i := e], name) != i
  {
    var b, r := a[i := e], Find(cs, a, name);
    forall j | 0 <= j < |a| ensures MatchesAt(cs, b, j, name) == (j != i && MatchesAt(cs, a, j, name)) {
      ScanUpdate(a, i, e, j);
    }
    hide MatchesAt;
    if r != i {
      FindIs(cs, b, name, r);
    }
    assert Find(cs, b, name) < |b| ==> MatchesAt(cs, b, Find(cs, b, name), name);
  }

  /**
   * Names that differ in their first unit only, which is no dot, get short names that differ in their first byte only.
   */
  lemma TwinShort(x: Unit, y: Unit, rest: Name)
    requires x != DOT && y != DOT
    ensures BaseShort([x] + rest)[1..] == BaseShort([y] + rest)[1..]
  {
    var a, b := [x] + rest, [y] + rest;
    assert a[1..] == rest && b[1..] == rest;
    assert Dots(a) == Dots(rest) == Dots(b);
    forall k | 1 <= k < |a| ensures Latin1(a)[k] == Latin1(b)[k] {
      assert a[k] == rest[k - 1] && b[k] == rest[k - 1];
    }
    var s, t := AsciiUpper(Latin1(a)), AsciiUpper(Latin1(b));
    if Dots(a) == 1 {
      assert s[1..] == t[1..];
      assert s[0] != DOT && t[0] != DOT;
      assert DotIndex(s) == 1 + DotIndex(s[1..]) && DotIndex(t) == 1 + DotIndex(t[1..]);
      TwinParts(s, t, DotIndex(s));
    } else {
      JustifiedTail(Latin1(a), Latin1(b), 11);
    }
  }

  /** So an entry for a name that starts with U+00E5 compares equal to that of its twin. */
  lemma TwinIsOverwritten(a: seq<Entry>, i: nat, x: Unit, rest: Name, e: Entry)
    requires x != DOT && i < |a| && !IsFragment(a[i])
    requires ShortBytes(a[i]) == BaseShort([x] + rest) && ShortBytes(e) == BaseShort([DELETED] + rest)
    ensures FindUpdate(a, 0, e) <= i
  {
    TwinShort(x, DELETED, rest);
    assert IsHidden([DELETED] + rest);
    ShortIsDeleted([DELETED] + rest);
    assert e[0] == ShortBytes(e)[0] && e[1..11] == ShortBytes(e)[1..] && a[i][1..11] == ShortBytes(a[i])[1..];
    hide BaseShort;
    assert UpdatesAt(a, i, e);
  }

  lemma TwinParts(s: seq<byte>, t: seq<byte>, i: nat)
    requires 1 <= i <= |s| == |t| && s[1..] == t[1..]
    ensures (Justified(s[..i], 8) + Justified(if i < |s| then s[i + 1..] else [], 3))[1..]
            == (Justified(t[..i], 8) + Justified(if i < |t| then t[i + 1..] else [], 3))[1..]
  {
    forall k | 1 <= k < |s| ensures s[k] == t[k] {
      assert s[k] == s[1..][k - 1] && t[k] == t[1..][k - 1];
    }
    JustifiedTail(s[..i], t[..i], 8);
    assert i < |s| ==> s[i + 1..] == t[i + 1..];
    hide Justified;
    var p, q := Justified(s[..i], 8), Justified(t[..i], 8);
    forall k | 1 <= k < 8 ensures p[k] == q[k] {
      assert p[k] == p[1..][k - 1] && q[k] == q[1..][k - 1];
    }
  }

  lemma JustifiedTail(s: seq<byte>, t: seq<byte>, n: nat)
    requires |s| == |t| > 0 && n > 0 && forall k | 1 <= k < |s| :: s[k] == t[k]
    ensures Justified(s, n)[1..] == Justified(t, n)[1..]
  {
    forall k | 1 <= k < n ensures Justified(s, n)[k] == Justified(t, n)[k] {
    }
  }

  /** A fresh short name keeps short names unique. */
  lemma UniqueCreate(a: seq<Entry>, name: Name, short: seq<byte>, date: nat, time: nat)
    requires UniqueShort(a) && |short| == 11 && !Taken(a, short)
    ensures UniqueShort(a + NewEntries(name, short, date, time))
  {
    var b, n, sum := a + NewEntries(name, short, date, time), FragmentCount(name), Checksum(short);
    forall j | |a| <= j < |a| + n ensures IsFragment(b[j]) {
      FragmentsAt(name, sum, n, j - |a|);
      assert b[j] == Fragments(name, sum, n)[j - |a|];
    }
    assert b[|a| + n] == ShortEntry(short, date, time);
    forall i | 0 <= i < |a| && IsLive(b[i]) ensures ShortBytes(b[i]) != short {
      assert !TakenAt(a, i, short);
    }
  }

  lemma UniqueUpdate(a: seq<Entry>, i: nat, e: Entry)
    requires UniqueShort(a) && i < |a| && IsLive(a[i]) && e[..12] == a[i][..12]
    ensures UniqueShort(a[i := e])
  {
    assert e[11] == e[..12][11] && a[i][11] == a[i][..12][11];
    assert e[..11] == e[..12][..11] && a[i][..11] == a[i][..12][..11];
    assert e[0] == e[..12][0] && a[i][0] == a[i][..12][0];
  }
}
