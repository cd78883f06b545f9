/** Bytes, little-endian fields and in-place replacement of a run of bytes. */
module Bytes {

  type byte = x: int | 0 <= x < 256 witness 0

  const TWO16 := 0x1_0000
  const TWO28 := 0x1000_0000
  const TWO32 := 0x1_0000_0000

  /** `s` with the bytes from `off` on replaced by `d`. */
  function Splice(s: seq<byte>, off: nat, d: seq<byte>): (r: seq<byte>)
    requires off + |d| <= |s|
    ensures |r| == |s|
  {
    s[..off] + d + s[off + |d|..]
  }

  function Zeroes(n: nat): (r: seq<byte>)
    ensures |r| == n
    ensures forall i | 0 <= i < n :: r[i] == 0
  {
    seq(n, _ => 0)
  }

  function Concat(chunks: seq<seq<byte>>): seq<byte> {
    if chunks == [] then [] else Concat(chunks[..|chunks| - 1]) + chunks[|chunks| - 1]
  }

  lemma {:induction false} ConcatStep(chunks: seq<seq<byte>>, k: nat)
    requires k < |chunks|
    ensures Concat(chunks[..k + 1]) == Concat(chunks[..k]) + chunks[k]
  {
    assert chunks[..k + 1][..k] == chunks[..k];
  }

  lemma ConcatOne(chunks: seq<seq<byte>>, d: seq<byte>)
    ensures Concat(chunks + [d]) == Concat(chunks) + d
  {
    assert (chunks + [d])[..|chunks|] == chunks;
  }

  /** The first chunk comes first. */
  lemma {:induction false} ConcatHead(chunks: seq<seq<byte>>)
    requires chunks != []
    ensures Concat(chunks) == chunks[0] + Concat(chunks[1..])
  {
    var n := |chunks| - 1;
    if n == 0 {
      assert chunks[..0] == [] && chunks[1..] == [];
    } else {
      ConcatHead(chunks[..n]);
      assert chunks[..n][1..] == chunks[1..][..n - 1];
      hide Concat;
      ConcatOne(chunks[..n], chunks[n]);
      ConcatOne(chunks[1..][..n - 1], chunks[n]);
      assert chunks[..n] + [chunks[n]] == chunks && chunks[1..][..n - 1] + [chunks[n]] == chunks[1..];
    }
  }

  function Le16(s: seq<byte>, off: nat): (r: nat)
    requires off + 2 <= |s|
    ensures r < TWO16
  {
    s[off] as int + 0x100 * (s[off + 1] as int)
  }

  function Le32(s: seq<byte>, off: nat): (r: nat)
    requires off + 4 <= |s|
    ensures r < TWO32
  {
    s[off] as int + 0x100 * (s[off + 1] as int) + 0x1_0000 * (s[off + 2] as int) + 0x100_0000 * (s[off + 3] as int)
  }

  function Put16(v: nat): (r: seq<byte>)
    ensures |r| == 2
  {
    [v % 0x100, v / 0x100 % 0x100]
  }

  function Put32(v: nat): (r: seq<byte>)
    ensures |r| == 4
  {
    [v % 0x100, v / 0x100 % 0x100, v / 0x1_0000 % 0x100, v / 0x100_0000 % 0x100]
  }

  /** Writing a field and reading it back truncates it to its width. */
  lemma FieldRoundTrip(v: nat)
    ensures Le16(Put16(v), 0) == v % TWO16
    ensures Le32(Put32(v), 0) == v % TWO32
  {
    var a, b, c := v / 0x100, v / 0x1_0000, v / 0x100_0000;
    assert b == a / 0x100 && c == b / 0x100;
    assert v == v % 0x100 + 0x100 * a;
    assert a == a % 0x100 + 0x100 * b;
    assert b == b % 0x100 + 0x100 * c;
    assert c == c % 0x100 + 0x100 * (c / 0x100);
  }

  lemma SpliceAt(s: seq<byte>, off: nat, d: seq<byte>, i: nat)
    requires off + |d| <= |s|
    requires i < |s|
    ensures Splice(s, off, d)[i] == if off <= i < off + |d| then d[i - off] else s[i]
  {
  }

  /** What was written is what is read back. */
  lemma SpliceWritten(s: seq<byte>, off: nat, d: seq<byte>)
    requires off + |d| <= |s|
    ensures Splice(s, off, d)[off..off + |d|] == d
  {
  }

  /** A run that does not meet the written bytes is unchanged. */
  lemma SpliceApart(s: seq<byte>, off: nat, d: seq<byte>, lo: nat, hi: nat)
    requires off + |d| <= |s|
    requires lo <= hi <= |s|
    requires hi <= off || off + |d| <= lo
    ensures Splice(s, off, d)[lo..hi] == s[lo..hi]
  {
    var r := Splice(s, off, d);
    forall i | 0 <= i < hi - lo ensures r[lo..hi][i] == s[lo..hi][i] {
      assert r[lo + i] == s[lo + i];
    }
  }

  /** A run that contains the written bytes changes by the same replacement. */
  lemma SpliceWithin(s: seq<byte>, off: nat, d: seq<byte>, lo: nat, hi: nat)
    requires lo <= off && off + |d| <= hi <= |s|
    ensures Splice(s, off, d)[lo..hi] == Splice(s[lo..hi], off - lo, d)
  {
    var r, t := Splice(s, off, d), Splice(s[lo..hi], off - lo, d);
    forall i | 0 <= i < hi - lo ensures r[lo..hi][i] == t[i] {
      SpliceAt(s, off, d, lo + i);
      SpliceAt(s[lo..hi], off - lo, d, i);
    }
  }
}
