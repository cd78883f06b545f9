/** The 8.3 names: which one a new file gets, and what an entry without a long name shows. */
module ShortNames {
  import opened Bytes
  import opened Names
  import opened Directories

  // ----- the characters -----

  /** The unit as the byte of a short name before its case changes; one that a byte cannot hold is a question mark. */
  function Narrow(u: Unit): byte {
    if u < 0x100 then u else '?' as int
  }

  predicate IsUpper(b: byte) {
    'A' as int <= b <= 'Z' as int
  }

  /** The same letter in the other case, or the same byte. */
  predicate SameLetter(b: byte, c: byte) {
    b == c || (IsUpper(b) && c == b + 32) || (IsUpper(c) && b == c + 32)
  }

  /** The same in upper case. */
  function Capital(u: Unit): byte {
    if 'a' as int <= Narrow(u) <= 'z' as int then Narrow(u) - 32 else Narrow(u)
  }

  // ----- the short name of a new file -----

  /** `n` bytes: those of the string, cut off or filled up with blanks. */
  ghost predicate FitsField(r: seq<byte>, s: seq<byte>, n: nat) {
    |r| == n && forall k | 0 <= k < n :: r[k] == if k < |s| then s[k] else SPACE
  }

  lemma {:induction false} NoDot(name: Name)
    ensures Dots(name) == 0 <==> DOT !in name
  {
    if name != [] {
      NoDot(name[1..]);
    }
  }

  lemma {:induction false} DotsJoin(p: Name, q: Name)
    ensures Dots(p + q) == Dots(p) + Dots(q)
  {
    if p == [] {
      assert p + q == q;
    } else {
      assert (p + q)[1..] == p[1..] + q;
      DotsJoin(p[1..], q);
    }
  }

  lemma {:induction false} DotIndexIs(s: seq<byte>, i: nat)
    requires i < |s| && s[i] == DOT && DOT !in s[..i]
    ensures DotIndex(s) == i
  {
    if i > 0 {
      assert s[..i][0] == s[0];
      assert s[1..][..i - 1] == s[..i][1..];
      DotIndexIs(s[1..], i - 1);
    }
  }

  lemma OneDot(base: Name, ext: Name)
    requires DOT !in base && DOT !in ext
    ensures Dots(base + [DOT] + ext) == 1
  {
    DotsJoin(base + [DOT], ext);
    DotsJoin(base, [DOT]);
    NoDot(base);
    NoDot(ext);
    assert Dots([DOT]) == 1;
  }

  lemma UpperJoin(base: Name, ext: Name)
    requires DOT !in base
    ensures var s := AsciiUpper(Latin1(base + [DOT] + ext));
      && DotIndex(s) == |base| < |s| && s[..|base|] == AsciiUpper(Latin1(base))
      && s[|base| + 1..] == AsciiUpper(Latin1(ext))
  {
    var name := base + [DOT] + ext;
    var s := AsciiUpper(Latin1(name));
    assert s[|base|] == DOT;
    forall k | 0 <= k < |base| ensures s[..|base|][k] == AsciiUpper(Latin1(base))[k] != DOT {
      assert name[k] == base[k] && base[k] in base;
    }
    DotIndexIs(s, |base|);
    forall k | 0 <= k < |ext| ensures s[|base| + 1..][k] == AsciiUpper(Latin1(ext))[k] {
      assert name[|base| + 1 + k] == ext[k];
    }
  }

  lemma OneDotFields(base: Name, ext: Name)
    requires DOT !in base && DOT !in ext
    ensures FitsField(BaseShort(base + [DOT] + ext)[..8], AsciiUpper(Latin1(base)), 8)
    ensures FitsField(BaseShort(base + [DOT] + ext)[8..], AsciiUpper(Latin1(ext)), 3)
  {
    OneDot(base, ext);
    UpperJoin(base, ext);
    var s := AsciiUpper(Latin1(base + [DOT] + ext));
    hide Dots, DotIndex, AsciiUpper, Latin1;
    var p, q := s[..|base|], s[|base| + 1..];
    assert BaseShort(base + [DOT] + ext) == Justified(p, 8) + Justified(q, 3);
    JustifiedFits(p, 8);
    JustifiedFits(q, 3);
  }

  lemma JustifiedFits(s: seq<byte>, n: nat)
    ensures FitsField(Justified(s, n), s, n)
  {
  }

  /** A name with exactly one dot: what is in front of it and behind it, in upper case, in fields of 8 and 3 bytes. */
  lemma OneDotShort(base: Name, ext: Name, k: nat)
    requires DOT !in base && DOT !in ext && k < 11
    ensures BaseShort(base + [DOT] + ext)[k] ==
      if k < 8 then if k < |base| then Capital(base[k]) else ' ' as int
      else if k - 8 < |ext| then Capital(ext[k - 8]) else ' ' as int
  {
    OneDotFields(base, ext);
    var r := BaseShort(base + [DOT] + ext);
    assert if k < 8 then r[..8][k] == r[k] else r[8..][k - 8] == r[k];
    hide BaseShort;
  }

  /** Any other name: its first eleven characters as they are. */
  lemma OtherShort(name: Name, k: nat)
    requires DOT !in name || exists p: Name, q: Name :: name == p + [DOT] + q && DOT in p
    requires k < 11
    ensures BaseShort(name)[k] == if k < |name| then Narrow(name[k]) else ' ' as int
  {
    NoDot(name);
    if DOT in name {
      var p: Name, q: Name :| name == p + [DOT] + q && DOT in p;
      DotsJoin(p + [DOT], q);
      DotsJoin(p, [DOT]);
      NoDot(p);
      NoDot([DOT]);
    }
  }

  /** The number is written in decimal, without leading zeroes, over the end of the first eight bytes. */
  lemma NumberedReads(s: seq<byte>, i: nat)
    requires |s| == 11 && i < 100
    ensures var r, d := Numbered(s, i), if i < 10 then 1 else 2;
      && (forall k | 0 <= k < 8 - d || 8 <= k < 11 :: r[k] == s[k])
      && r[7] - '0' as int + (if d == 2 then 10 * (r[6] - '0' as int) else 0) == i
      && (forall k | 8 - d <= k < 8 :: '0' as int <= r[k] <= '9' as int)
  {
  }

  /** The lowest number that is free, and not below `i`. */
  ghost predicate LowestFree(a: seq<Entry>, s: seq<byte>, i: nat, r: seq<byte>)
    requires |s| == 11
  {
    !Taken(a, r) && exists k | i <= k < 100 :: r == Numbered(s, k) && forall j | i <= j < k :: Taken(a, Numbered(s, j))
  }

  lemma {:induction false} PickFromLowest(a: seq<Entry>, s: seq<byte>, t: seq<byte>, i: nat)
    requires |s| == |t| == 11 && i <= 100
    requires forall k | i <= k < 100 :: Numbered(t, k) == Numbered(s, k)
    ensures match PickFrom(a, t, i)
            case None => forall k | i <= k < 100 :: Taken(a, Numbered(s, k))
            case Some(r) => LowestFree(a, s, i, r)
    decreases 100 - i
  {
    hide Taken;
    if i < 100 {
      var u := Numbered(t, i);
      assert u == Numbered(s, i);
      if Taken(a, u) {
        forall k | i + 1 <= k < 100 ensures Numbered(u, k) == Numbered(s, k) {
        }
        PickFromLowest(a, s, u, i + 1);
      }
    }
  }

  /**
   * A new file gets its plain short name when it is free, else the one with the lowest number that is free; none if and
   * only if the plain one and all hundred numbered ones are taken.
   */
  lemma PickIsLowest(a: seq<Entry>, name: Name)
    ensures var s := BaseShort(name);
      match Pick(a, name)
      case None => Taken(a, s) && forall k | 0 <= k < 100 :: Taken(a, Numbered(s, k))
      case Some(r) => if Taken(a, s) then LowestFree(a, s, 0, r) else r == s
  {
    var s := BaseShort(name);
    PickFromLowest(a, s, s, 0);
    hide Taken, Numbered, PickFrom, BaseShort;
  }

  // ----- the name an entry shows -----

  /** Neither end of the string is a blank. */
  predicate NoEdge(s: seq<byte>) {
    s == [] || (!IsBlank(s[0]) && !IsBlank(s[|s| - 1]))
  }

  /** Nothing but spaces, tabs, and line, page and carriage control. */
  predicate Blanks(s: seq<byte>) {
    forall k | 0 <= k < |s| :: s[k] in {9, 10, 11, 12, 13, 32}
  }

  /** Blanks in front of a string and behind it are dropped. */
  lemma {:induction false} TrimmedIs(front: seq<byte>, s: seq<byte>, back: seq<byte>)
    requires Blanks(front) && Blanks(back) && NoEdge(s)
    ensures Trimmed(front + s + back) == s
    decreases |front| + |back|
  {
    var r := front + s + back;
    if front != [] {
      assert r[0] == (front + s)[0] == front[0];
      assert r[1..] == front[1..] + s + back;
      TrimmedIs(front[1..], s, back);
    } else if back != [] {
      var n := |back| - 1;
      assert r[|r| - 1] == r[|front + s| + n] == back[n];
      if s == [] {
        assert r[0] == back[0];
        assert r[1..] == [] + s + back[1..];
        TrimmedIs([], s, back[1..]);
      } else {
        assert r[0] == s[0];
        assert r[..|r| - 1] == [] + s + back[..n];
        TrimmedIs([], s, back[..n]);
      }
    } else {
      assert r == s;
    }
  }

  lemma FieldTrimmed(r: seq<byte>, s: seq<byte>, n: nat)
    requires FitsField(r, s, n) && |s| <= n && NoEdge(s)
    ensures Trimmed(r) == s
  {
    var back := r[|s|..];
    assert forall k | 0 <= k < |back| :: back[k] == SPACE by {
      assert forall k | 0 <= k < |back| :: back[k] == r[|s| + k];
    }
    assert r == [] + s + back;
    hide Trimmed, NoEdge;
    TrimmedIs([], s, back);
  }

  /**
   * An entry whose name is `base` and `ext`, filled up with blanks, shows them in lower case with a dot between them,
   * and without a dot when there is no extension.
   */
  lemma ShortNameShows(cs: Charset, e: Entry, base: seq<byte>, ext: seq<byte>)
    requires |base| <= 8 && |ext| <= 3 && NoEdge(base) && NoEdge(ext)
    requires FitsField(e[..8], base, 8) && FitsField(e[8..11], ext, 3)
    ensures ShortNameOf(cs, e)
            == cs.decode(if ext == [] then AsciiLower(base) else AsciiLower(base) + ['.' as int] + AsciiLower(ext))
  {
    FieldTrimmed(e[..8], base, 8);
    FieldTrimmed(e[8..11], ext, 3);
  }

  /** Decoding inverts the Latin-1 encoding of names with units below the limit; UTF-8 does so below 0x80. */
  ghost predicate Decodes(cs: Charset, limit: nat) {
    forall name: Name :: (forall u | u in name :: u < limit) ==> cs.decode(Latin1(name)) == name
  }

  /** Names that differ in the case of ASCII letters only are the same to a lookup. */
  ghost predicate FoldsAscii(cs: Charset) {
    forall p: Name, q: Name ::
      |p| == |q| && (forall k | 0 <= k < |p| :: p[k] == q[k] || (p[k] < 0x80 && q[k] < 0x80 && SameLetter(p[k], q[k])))
      ==> cs.lower(p) == cs.lower(q)
  }

  /** One of the two parts of an 8.3 name. */
  ghost predicate IsPart(p: Name, n: nat, limit: nat) {
    && 1 <= |p| <= n && DOT !in p && (forall u | u in p :: u < limit)
    && !IsBlank(Narrow(p[0])) && !IsBlank(Narrow(p[|p| - 1]))
  }

  /** The name with its ASCII letters in lower case. */
  ghost predicate Lowered(p: Name, name: Name) {
    |p| == |name| && forall k | 0 <= k < |p| ::
      p[k] == if 'A' as int <= name[k] <= 'Z' as int then name[k] + 32 else name[k]
  }

  lemma PartShown(p: Name, n: nat, limit: nat)
    requires IsPart(p, n, limit) && 0x80 <= limit <= 0x100
    ensures var u := AsciiUpper(Latin1(p)); NoEdge(u) && u != [] && |u| == |p|
    ensures var b := AsciiLower(AsciiUpper(Latin1(p)));
      Lowered(b, p) && forall k | 0 <= k < |p| :: b[k] < limit
  {
    assert forall k | 0 <= k < |p| :: p[k] < limit by {
      assert forall k | 0 <= k < |p| :: p[k] in p;
    }
  }

  lemma Undecoded(cs: Charset, limit: nat, b: seq<byte>)
    requires Decodes(cs, limit) && limit <= 0x100 && forall k | 0 <= k < |b| :: b[k] < limit
    ensures cs.decode(b) == b
  {
    var name: Name := b;
    assert Latin1(name) == b;
    assert forall u | u in name :: u < limit;
  }

  /**
   * Round trip of the 8.3 names: an entry with the short name that is tried first for a name of that form shows that
   * name in lower case. So it is found under that name when it is live and has no long name.
   */
  lemma EightThree(cs: Charset, limit: nat, a: seq<Entry>, i: nat, base: Name, ext: Name)
    requires Decodes(cs, limit) && 0x80 <= limit <= 0x100 && IsPart(base, 8, limit) && IsPart(ext, 3, limit)
    requires i < |a| && ShortBytes(a[i]) == BaseShort(base + [DOT] + ext)
    ensures Lowered(ShortNameOf(cs, a[i]), base + [DOT] + ext)
    ensures FoldsAscii(cs) && IsLive(a[i]) && !HasLong(a, i) ==> MatchesAt(cs, a, i, base + [DOT] + ext)
  {
    Shown(cs, limit, a[i], base, ext);
    if FoldsAscii(cs) && IsLive(a[i]) && !HasLong(a, i) {
      LoweredFolds(cs, ShortNameOf(cs, a[i]), base + [DOT] + ext);
      hide ShortNameOf, Terminated, Checksum, ScanAt, FoldsAscii, Decodes, IsPart, BaseShort, Lowered;
    }
  }

  lemma Shown(cs: Charset, limit: nat, e: Entry, base: Name, ext: Name)
    requires Decodes(cs, limit) && 0x80 <= limit <= 0x100 && IsPart(base, 8, limit) && IsPart(ext, 3, limit)
    requires ShortBytes(e) == BaseShort(base + [DOT] + ext)
    ensures Lowered(ShortNameOf(cs, e), base + [DOT] + ext)
  {
    var dot: seq<byte> := [DOT];
    var b, x := AsciiLower(AsciiUpper(Latin1(base))), AsciiLower(AsciiUpper(Latin1(ext)));
    assert dot[0] < 0x80;
    PartShown(base, 8, limit);
    PartShown(ext, 3, limit);
    LoweredJoin(b, x, base, ext);
    hide *;
    ShownBytes(cs, limit, e, base, ext);
    Undecoded(cs, limit, b + dot + x);
  }

  lemma ShownBytes(cs: Charset, limit: nat, e: Entry, base: Name, ext: Name)
    requires 0x80 <= limit <= 0x100 && IsPart(base, 8, limit) && IsPart(ext, 3, limit)
    requires ShortBytes(e) == BaseShort(base + [DOT] + ext)
    ensures ShortNameOf(cs, e)
            == cs.decode(AsciiLower(AsciiUpper(Latin1(base))) + [DOT] + AsciiLower(AsciiUpper(Latin1(ext))))
  {
    OneDotFields(base, ext);
    assert e[..8] == ShortBytes(e)[..8] && e[8..11] == ShortBytes(e)[8..];
    PartShown(base, 8, limit);
    PartShown(ext, 3, limit);
    assert |base| <= 8 && |ext| <= 3;
    hide BaseShort, AsciiUpper, AsciiLower, Latin1, FitsField, ShortNameOf, NoEdge, IsPart, Lowered;
    ShortNameShows(cs, e, AsciiUpper(Latin1(base)), AsciiUpper(Latin1(ext)));
  }

  lemma LoweredJoin(b: Name, x: Name, base: Name, ext: Name)
    requires Lowered(b, base) && Lowered(x, ext)
    ensures Lowered(b + [DOT] + x, base + [DOT] + ext)
  {
  }

  lemma LoweredFolds(cs: Charset, p: Name, name: Name)
    requires FoldsAscii(cs) && Lowered(p, name)
    ensures cs.lower(p) == cs.lower(name)
  {
  }

}
