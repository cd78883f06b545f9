/** Writing an uncompressed download synchronously: zero blocks are skipped, and the result can be read back. */
module DownloadWriters {
  import opened Bytes
  import opened Options
  import opened BlockDevices
  import opened ChainWalks
  import opened ImageWrites
  import opened ImageRuns

  predicate ZeroBlock(buf: seq<byte>, b: nat) {
    (b + 1) * 4096 <= |buf| && forall k | b * 4096 <= k < (b + 1) * 4096 :: buf[k] == 0
  }

  /** Byte `k` lies in a whole zero block, counted from the start of the buffer. */
  predicate Skipped(buf: seq<byte>, k: nat) {
    ZeroBlock(buf, k / 4096)
  }

  /** The bytes among the first `n` that are written. */
  function Kept(buf: seq<byte>, n: nat): (r: seq<byte>)
    requires n <= |buf|
    ensures |r| <= n
  {
    if n == 0 then [] else if Skipped(buf, n - 1) then Kept(buf, n - 1) else Kept(buf, n - 1) + [buf[n - 1]]
  }

  /** `now` is `before` with the first `n` bytes of `buf` written at `at`, but for the skipped ones. */
  predicate WrittenSkipping(before: seq<byte>, now: seq<byte>, at: nat, buf: seq<byte>, n: nat) {
    && |now| == |before| && n <= |buf|
    && (forall k | 0 <= k < n && !Skipped(buf, k) :: at + k < |now| && now[at + k] == buf[k])
    && (forall k | 0 <= k < n && Skipped(buf, k) && at + k < |now| :: now[at + k] == before[at + k])
    && forall o | 0 <= o < |now| && !(at <= o < at + n) :: now[o] == before[o]
  }

  lemma BlockOf(k: nat, b: nat)
    ensures k / 4096 == b <==> b * 4096 <= k < (b + 1) * 4096
  {
  }

  /** Skipped or not, a block goes as a whole; what is behind the last whole block is never skipped. */
  lemma SkippedInBlock(buf: seq<byte>, b: nat, k: nat)
    requires b * 4096 <= k < (b + 1) * 4096
    ensures Skipped(buf, k) <==> ZeroBlock(buf, b)
  {
    BlockOf(k, b);
  }

  lemma {:induction false} KeepAll(buf: seq<byte>, a: nat, n: nat)
    requires a <= n <= |buf| && forall k | a <= k < n :: !Skipped(buf, k)
    ensures Kept(buf, n) == Kept(buf, a) + buf[a..n]
  {
    hide Skipped;
    if a < n {
      KeepAll(buf, a, n - 1);
      assert buf[a..n] == buf[a..n - 1] + [buf[n - 1]];
    }
  }

  lemma {:induction false} KeepNone(buf: seq<byte>, a: nat, n: nat)
    requires a <= n <= |buf| && forall k | a <= k < n :: Skipped(buf, k)
    ensures Kept(buf, n) == Kept(buf, a)
  {
    if a < n {
      KeepNone(buf, a, n - 1);
    }
  }

  lemma NothingYet(before: seq<byte>, at: nat, buf: seq<byte>)
    ensures WrittenSkipping(before, before, at, buf, 0) && Kept(buf, 0) == []
  {
  }

  lemma WrittenMore(before: seq<byte>, mid: seq<byte>, now: seq<byte>, at: nat, buf: seq<byte>, a: nat, n: nat)
    requires WrittenSkipping(before, mid, at, buf, a) && a <= n <= |buf| && at + n <= |mid|
    requires forall k | a <= k < n :: !Skipped(buf, k)
    requires now == Splice(mid, at + a, buf[a..n])
    ensures WrittenSkipping(before, now, at, buf, n)
  {
    forall o | 0 <= o < |now| ensures now[o] == if at + a <= o < at + n then buf[o - at] else mid[o] {
      SpliceAt(mid, at + a, buf[a..n], o);
    }
    hide Skipped, Splice;
  }

  lemma SkippedMore(before: seq<byte>, now: seq<byte>, at: nat, buf: seq<byte>, a: nat, n: nat)
    requires WrittenSkipping(before, now, at, buf, a) && a <= n <= |buf|
    requires forall k | a <= k < n :: Skipped(buf, k)
    ensures WrittenSkipping(before, now, at, buf, n)
  {
    hide Skipped;
  }

  /** Skipping writes what a plain write would exactly when the skipped places already held zeroes. */
  lemma SkippingIsPlain(before: seq<byte>, now: seq<byte>, at: nat, buf: seq<byte>)
    requires WrittenSkipping(before, now, at, buf, |buf|) && at + |buf| <= |before|
    ensures now == Splice(before, at, buf) <==>
      forall k | 0 <= k < |buf| && Skipped(buf, k) :: before[at + k] == 0
  {
    var plain := Splice(before, at, buf);
    assert forall k | 0 <= k < |buf| && Skipped(buf, k) :: buf[k] == 0 by {
      forall k | 0 <= k < |buf| && Skipped(buf, k) ensures buf[k] == 0 {
        BlockOf(k, k / 4096);
      }
    }
    hide Skipped;
    forall o | 0 <= o < |before| ensures plain[o] == if at <= o < at + |buf| then buf[o - at] else before[o] {
      SpliceAt(before, at, buf, o);
    }
    hide Splice;
    if forall k | 0 <= k < |buf| && Skipped(buf, k) :: before[at + k] == 0 {
      forall o | 0 <= o < |before| ensures now[o] == plain[o] {
        if at <= o < at + |buf| {
          assert o == at + (o - at);
        }
      }
    } else {
      var k :| 0 <= k < |buf| && Skipped(buf, k) && before[at + k] != 0;
      assert now[at + k] == before[at + k] && plain[at + k] == buf[k];
    }
  }

  /** What reading an image back yields: the withheld chunk, then the device up to `total`. */
  function ReadBack(first: Option<seq<byte>>, content: seq<byte>, total: nat): seq<byte>
    requires total <= |content|
  {
    match first
    case None => content[..total]
    case Some(chunk) => if |chunk| < total then chunk + content[|chunk|..total] else chunk
  }

  lemma ReadStarts(first: Option<seq<byte>>, content: seq<byte>, total: nat)
    requires total <= |content|
    ensures first == None ==> ReadBack(first, content, 0) == []
    ensures first.Some? && |first.value| >= total ==> ReadBack(first, content, total) == first.value
    ensures first.Some? && |first.value| <= |content| ==> ReadBack(first, content, |first.value|) == first.value
  {
  }

  lemma ReadsOn(first: Option<seq<byte>>, content: seq<byte>, at: nat, n: nat)
    requires at + n <= |content| && (first.Some? ==> |first.value| <= at)
    ensures ReadBack(first, content, at + n) == ReadBack(first, content, at) + content[at..at + n]
  {
    match first
    case None =>
    case Some(chunk) =>
      if |chunk| < at {
        assert content[|chunk|..at + n] == content[|chunk|..at] + content[at..at + n];
      }
  }

  class DownloadWriter {
    const file: BlockDevice
    const expectedHash: bool  // the hash of the image is known beforehand
    var firstBlock: Option<seq<byte>>
    var writeHash: seq<byte>  // what the hash has consumed
    var bytesWritten: nat

    constructor (file: BlockDevice, expectedHash: bool)
      ensures this.file == file && this.expectedHash == expectedHash
      ensures firstBlock == None && writeHash == [] && bytesWritten == 0
    {
      this.file, this.expectedHash := file, expectedHash;
      firstBlock, writeHash, bytesWritten := None, [], 0;
    }

    /** The first chunk is withheld, and a seek makes room for it; the others are written where the device stands. */
    method WriteFile(buf: seq<byte>) returns (ok: bool)
      modifies this, file
      ensures writeHash == old(writeHash) + buf
      ensures firstBlock == if old(firstBlock) == None then Some(buf) else old(firstBlock)
      ensures |file.content| == |old(file.content)|
      ensures old(firstBlock) == None ==> file.content == old(file.content) && bytesWritten == old(bytesWritten)
      ensures ok && old(firstBlock) == None ==> file.pos == |buf|
      ensures ok && old(firstBlock) != None ==>
        && file.pos == old(file.pos) + |buf| <= |file.content| && bytesWritten == old(bytesWritten) + |buf|
        && file.content == Splice(old(file.content), old(file.pos), buf)
      ensures forall i | 0 <= i < |file.content| && !(old(file.pos) <= i < old(file.pos) + |buf|) ::
                file.content[i] == old(file.content[i])
      ensures file.reliable && (old(firstBlock) == None || old(file.pos) + |buf| <= |file.content|) ==> ok
    {
      writeHash := writeHash + buf;
      if firstBlock == None {
        firstBlock := Some(buf);
        ok := file.Seek(|buf|);
        return;
      }
      ok := file.WriteSequential(buf);
      if ok {
        bytesWritten := bytesWritten + |buf|;
      }
    }

    /** The buffer is dealt with up to `start`. */
    ghost predicate Upto(before: seq<byte>, at: nat, hash: seq<byte>, total: nat, buf: seq<byte>, start: nat)
      reads this, file
    {
      && start <= |buf| && |file.content| == |before| && firstBlock != None
      && file.pos == at + start && bytesWritten == total + start
      && WrittenSkipping(before, file.content, at, buf, start) && writeHash == hash + Kept(buf, start)
    }

    /** A run without zero blocks is written. */
    method WriteRun(buf: seq<byte>, start: nat, end: nat, ghost before: seq<byte>, ghost at: nat,
                    ghost hash: seq<byte>, ghost total: nat)
      returns (ok: bool)
      requires Upto(before, at, hash, total, buf, start) && start <= end <= |buf|
      requires forall k | start <= k < end :: !Skipped(buf, k)
      modifies this, file
      ensures firstBlock == old(firstBlock) && |file.content| == |before|
      ensures ok ==> Upto(before, at, hash, total, buf, end)
      ensures file.reliable && at + end <= |before| ==> ok
    {
      hide Skipped, Kept, WrittenSkipping, Splice;
      ghost var mid := file.content;
      ok := WriteFile(buf[start..end]);
      if ok {
        WrittenMore(before, mid, file.content, at, buf, start, end);
        KeepAll(buf, start, end);
      }
    }

    /** A run of zero blocks is passed over. */
    method SkipRun(buf: seq<byte>, start: nat, end: nat, ghost before: seq<byte>, ghost at: nat,
                   ghost hash: seq<byte>, ghost total: nat)
      returns (ok: bool)
      requires Upto(before, at, hash, total, buf, start) && start <= end <= |buf|
      requires forall k | start <= k < end :: Skipped(buf, k)
      modifies this, file
      ensures firstBlock == old(firstBlock) && |file.content| == |before|
      ensures ok ==> Upto(before, at, hash, total, buf, end)
      ensures file.reliable ==> ok
    {
      hide Skipped, Kept, WrittenSkipping;
      ok := file.Seek(file.pos + (end - start));
      if ok {
        bytesWritten := bytesWritten + (end - start);
        SkippedMore(before, file.content, at, buf, start, end);
        KeepNone(buf, start, end);
      }
    }

    lemma UptoIs(before: seq<byte>, at: nat, hash: seq<byte>, total: nat, buf: seq<byte>, start: nat)
      requires Upto(before, at, hash, total, buf, start)
      ensures file.pos == at + start && bytesWritten == total + start && start <= |buf|
      ensures WrittenSkipping(before, file.content, at, buf, start) && writeHash == hash + Kept(buf, start)
    {
      hide Kept, WrittenSkipping;
    }

    lemma Unstarted(buf: seq<byte>)
      requires firstBlock != None
      ensures Upto(file.content, file.pos, writeHash, bytesWritten, buf, 0)
    {
      NothingYet(file.content, file.pos, buf);
      hide Kept, WrittenSkipping;
    }

    /**
     * Runs of non-zero blocks are written, runs of whole zero blocks passed over with a seek. The position moves over
     * all of the buffer, and the hash takes only what was written.
     */
    method WriteFileZeroSkip(buf: seq<byte>) returns (ok: bool)
      modifies this, file
      ensures |file.content| == |old(file.content)|
      ensures firstBlock == if old(firstBlock) == None then Some(buf) else old(firstBlock)
      ensures old(firstBlock) == None ==>
        file.content == old(file.content) && writeHash == old(writeHash) + buf && (ok ==> file.pos == |buf|)
      ensures ok && old(firstBlock) != None ==>
        && file.pos == old(file.pos) + |buf| && bytesWritten == old(bytesWritten) + |buf|
        && if expectedHash
           then file.pos <= |file.content| && file.content == Splice(old(file.content), old(file.pos), buf)
                && writeHash == old(writeHash) + buf
           else WrittenSkipping(old(file.content), file.content, old(file.pos), buf, |buf|)
                && writeHash == old(writeHash) + Kept(buf, |buf|)
      ensures file.reliable && (old(firstBlock) == None || old(file.pos) + |buf| <= |file.content|) ==> ok
    {
      hide *;
      if firstBlock == None || expectedHash {
        ok := WriteFile(buf);
        return;
      }
      ghost var before, at, hash, total := file.content, file.pos, writeHash, bytesWritten;
      Unstarted(buf);
      // everything before `start` is done, and no block from there to `pos` is skipped
      var start: nat, pos: nat := 0, 0;
      while pos + 4096 <= |buf|
        invariant start <= pos <= |buf| && pos % 4096 == 0
        invariant firstBlock == old(firstBlock) && |file.content| == |before|
        invariant Upto(before, at, hash, total, buf, start)
        invariant forall k | start <= k < pos :: !Skipped(buf, k)
      {
        if IsBlockZero(buf, pos) {
          if pos > start {
            ok := WriteRun(buf, start, pos, before, at, hash, total);
            if !ok {
              return;
            }
          }
          var zeroStart := pos;
          while pos + 4096 <= |buf| && IsBlockZero(buf, pos)
            invariant zeroStart <= pos <= |buf| && pos % 4096 == 0
            invariant forall k | zeroStart <= k < pos :: Skipped(buf, k)
            modifies {}
            decreases |buf| - pos
          {
            WholeBlock(buf, pos);
            pos := pos + 4096;
          }
          ok := SkipRun(buf, zeroStart, pos, before, at, hash, total);
          if !ok {
            return;
          }
          start := pos;
        } else {
          WholeBlock(buf, pos);
          pos := pos + 4096;
        }
      }
      Tail(buf, start, pos);
      if |buf| > start {
        ok := WriteRun(buf, start, |buf|, before, at, hash, total);
        if !ok {
          return;
        }
      }
      UptoIs(before, at, hash, total, buf, |buf|);
      return true;
    }

    /** Compares the hash of what reads back with the hash of what was written. */
    method Verify(bufferSize: nat, sha: seq<byte> -> int) returns (ok: bool, same: bool)
      requires file.pos <= |file.content| && bufferSize > 0
      modifies file`pos
      ensures ok ==> (same <==> sha(ReadBack(firstBlock, file.content, old(file.pos))) == sha(writeHash))
      ensures file.reliable ==> ok
    {
      ghost var content := file.content;
      var total, verified: nat, hash := file.pos, 0, [];
      if firstBlock != None {
        hash, verified := firstBlock.value, |firstBlock.value|;
      }
      hide ReadBack;
      ReadStarts(firstBlock, content, total);
      same := false;
      ok := file.Seek(verified);
      if !ok {
        return;
      }
      while verified < total
        invariant file.pos == verified
        invariant verified == |hash| && (verified <= total || Some(hash) == firstBlock)
        invariant verified <= total ==> hash == ReadBack(firstBlock, content, verified)
        invariant file.reliable ==> ok
      {
        var n := if bufferSize < total - verified then bufferSize else total - verified;
        var data;
        ok, data := file.ReadSequential(n);
        if !ok {
          return;
        }
        ReadsOn(firstBlock, content, verified, n);
        hash, verified := hash + data, verified + n;
      }
      same := sha(hash) == sha(writeHash);
    }
  }

  predicate IsBlockZero(buf: seq<byte>, pos: nat)
    requires pos + 4096 <= |buf|
  {
    forall k | pos <= k < pos + 4096 :: buf[k] == 0
  }

  lemma WholeBlock(buf: seq<byte>, pos: nat)
    requires pos % 4096 == 0 && pos + 4096 <= |buf|
    ensures forall k | pos <= k < pos + 4096 :: Skipped(buf, k) <==> IsBlockZero(buf, pos)
    ensures (pos + 4096) % 4096 == 0
  {
    forall k | pos <= k < pos + 4096 ensures Skipped(buf, k) <==> IsBlockZero(buf, pos) {
      SkippedInBlock(buf, pos / 4096, k);
    }
  }

  lemma Tail(buf: seq<byte>, start: nat, pos: nat)
    requires start <= pos <= |buf| < pos + 4096 && pos % 4096 == 0
    requires forall k | start <= k < pos :: !Skipped(buf, k)
    ensures forall k | start <= k < |buf| :: !Skipped(buf, k)
  {
    forall k | pos <= k < |buf| ensures !Skipped(buf, k) {
      SkippedInBlock(buf, pos / 4096, k);
    }
  }

  // ----- a whole download -----

  /** The hash after the first `n` buffers. */
  function Hashed(bufs: seq<seq<byte>>, n: nat): seq<byte>
    requires 0 < n <= |bufs|
  {
    if n == 1 then bufs[0] else Hashed(bufs, n - 1) + Kept(bufs[n - 1], |bufs[n - 1]|)
  }

  /** The buffers after the first that are written so far. */
  ghost function Later(n: nat): set<nat> {
    Below(n) - {0}
  }

  /** The device holds zeroes wherever the download will skip. */
  ghost predicate ZeroedWhereSkipped(content: seq<byte>, bufs: seq<seq<byte>>) {
    && Off(bufs, |bufs|) <= |content|
    && forall j, k | 1 <= j < |bufs| && 0 <= k < |bufs[j]| && Skipped(bufs[j], k) ::
         Off(bufs, j) + k < |content| && content[Off(bufs, j) + k] == 0
  }

  lemma Untouched(mid: seq<byte>, before: seq<byte>, bufs: seq<seq<byte>>, j: nat, k: nat)
    requires Holds(mid, before, bufs, Later(j)) && 1 <= j < |bufs| && k < |bufs[j]|
    ensures Off(bufs, j) + k < |mid| == |before| && mid[Off(bufs, j) + k] == before[Off(bufs, j) + k]
  {
    OffStep(bufs, j);
    hide Off;
    forall i | i in Later(j) ensures !(Off(bufs, i) <= Off(bufs, j) + k < Off(bufs, i) + |bufs[i]|) {
      RegionsApart(bufs, i, j);
    }
  }

  lemma ZeroThere(before: seq<byte>, bufs: seq<seq<byte>>, j: nat, k: nat)
    requires ZeroedWhereSkipped(before, bufs) && 1 <= j < |bufs| && k < |bufs[j]| && Skipped(bufs[j], k)
    ensures Off(bufs, j) + k < |before| && before[Off(bufs, j) + k] == 0
  {
    hide Off, Skipped;
  }

  lemma Room(mid: seq<byte>, before: seq<byte>, bufs: seq<seq<byte>>, j: nat)
    requires Holds(mid, before, bufs, Later(j)) && j < |bufs|
    ensures Off(bufs, j) + |bufs[j]| <= |mid| == |before|
  {
    OffStep(bufs, j);
    hide Off, Later;
  }

  lemma StillZero(before: seq<byte>, mid: seq<byte>, bufs: seq<seq<byte>>, j: nat)
    requires ZeroedWhereSkipped(before, bufs) && 1 <= j < |bufs| && Holds(mid, before, bufs, Later(j))
    ensures Off(bufs, j) + |bufs[j]| <= |mid| == |before|
    ensures forall k | 0 <= k < |bufs[j]| && Skipped(bufs[j], k) :: mid[Off(bufs, j) + k] == 0
  {
    hide *;
    Room(mid, before, bufs, j);
    forall k | 0 <= k < |bufs[j]| && Skipped(bufs[j], k) ensures mid[Off(bufs, j) + k] == 0 {
      ZeroThere(before, bufs, j, k);
      Untouched(mid, before, bufs, j, k);
    }
  }

  lemma LaterStep(n: nat)
    requires n >= 1
    ensures Later(n) + {n} == Later(n + 1)
  {
  }

  /** A buffer written with skips over a device that holds the ones before it. */
  lemma SkippedHolds(before: seq<byte>, mid: seq<byte>, now: seq<byte>, bufs: seq<seq<byte>>, j: nat)
    requires ZeroedWhereSkipped(before, bufs) && 1 <= j < |bufs| && Holds(mid, before, bufs, Later(j))
    requires WrittenSkipping(mid, now, Off(bufs, j), bufs[j], |bufs[j]|)
    ensures Holds(now, before, bufs, Later(j + 1))
  {
    hide *;
    StillZero(before, mid, bufs, j);
    SkippingIsPlain(mid, now, Off(bufs, j), bufs[j]);
    HoldsPut(mid, before, bufs, Later(j), j);
    LaterStep(j);
  }

  /** After the first `n` buffers. */
  ghost predicate Downloaded(w: DownloadWriter, before: seq<byte>, bufs: seq<seq<byte>>, n: nat)
    requires 1 <= n <= |bufs|
    reads w, w.file
  {
    && w.firstBlock == Some(bufs[0]) && w.file.pos == Off(bufs, n) && w.writeHash == Hashed(bufs, n)
    && Holds(w.file.content, before, bufs, Later(n))
  }

  method WriteNext(w: DownloadWriter, bufs: seq<seq<byte>>, n: nat, ghost before: seq<byte>) returns (ok: bool)
    requires 1 <= n < |bufs| && !w.expectedHash && Downloaded(w, before, bufs, n) && ZeroedWhereSkipped(before, bufs)
    modifies w, w.file
    ensures ok ==> Downloaded(w, before, bufs, n + 1)
    ensures w.file.reliable ==> ok
  {
    ghost var mid := w.file.content;
    RoomFor(w.file.content, before, bufs, n);
    hide Hashed, Off, Holds, Later, ZeroedWhereSkipped, WrittenSkipping, Skipped, Splice, Kept;
    ok := w.WriteFileZeroSkip(bufs[n]);
    if ok {
      SkippedHolds(before, mid, w.file.content, bufs, n);
      HashedStep(bufs, n);
      OffStep(bufs, n);
    }
  }

  lemma RoomFor(content: seq<byte>, before: seq<byte>, bufs: seq<seq<byte>>, n: nat)
    requires Holds(content, before, bufs, Later(n)) && n < |bufs|
    ensures Off(bufs, n) + |bufs[n]| <= |content|
  {
    OffStep(bufs, n);
    hide Off;
  }

  method WriteDownload(w: DownloadWriter, bufs: seq<seq<byte>>) returns (ok: bool)
    requires w.firstBlock == None && w.writeHash == [] && !w.expectedHash && bufs != []
    requires ZeroedWhereSkipped(w.file.content, bufs)
    modifies w, w.file
    ensures ok ==> w.firstBlock == Some(bufs[0]) && w.writeHash == Hashed(bufs, |bufs|)
    ensures ok ==> w.file.pos == Off(bufs, |bufs|) && Holds(w.file.content, old(w.file.content), bufs, Later(|bufs|))
    ensures w.file.reliable ==> ok
  {
    hide Hashed, Off, Holds, Later, WrittenSkipping, Skipped, Splice, Kept;
    ghost var before := w.file.content;
    NothingLater(before, bufs);
    ok := w.WriteFileZeroSkip(bufs[0]);
    if !ok {
      return;
    }
    var n := 1;
    while n < |bufs|
      invariant 1 <= n <= |bufs| && Downloaded(w, before, bufs, n)
    {
      ok := WriteNext(w, bufs, n, before);
      if !ok {
        return;
      }
      n := n + 1;
    }
    return true;
  }

  lemma NothingLater(before: seq<byte>, bufs: seq<seq<byte>>)
    requires bufs != [] && Off(bufs, |bufs|) <= |before|
    ensures Holds(before, before, bufs, Later(1)) && Hashed(bufs, 1) == bufs[0] && Off(bufs, 1) == |bufs[0]|
  {
    assert Off(bufs, 0) == 0;
  }

  lemma HashedStep(bufs: seq<seq<byte>>, n: nat)
    requires 0 < n < |bufs|
    ensures Hashed(bufs, n + 1) == Hashed(bufs, n) + Kept(bufs[n], |bufs[n]|)
  {
  }

  /** What reads back after such a download is the image. */
  lemma ReadsBack(content: seq<byte>, before: seq<byte>, bufs: seq<seq<byte>>)
    requires bufs != [] && Holds(content, before, bufs, Later(|bufs|))
    ensures Off(bufs, |bufs|) <= |content| && ReadBack(Some(bufs[0]), content, Off(bufs, |bufs|)) == Concat(bufs)
  {
    OffStep(bufs, 0);
    assert Off(bufs, 0) == 0;
    HoldsPut(content, before, bufs, Later(|bufs|), 0);
    var first, n, w := bufs[0], Off(bufs, |bufs|), Later(|bufs|) + {0};
    hide *;
    assert forall j: nat | j < |bufs| :: j in w by { AllLater(|bufs|); }
    HeldPrefix(Splice(content, 0, first), before, bufs, w, |bufs|);
    assert bufs[..|bufs|] == bufs;
    StartSpliced(content, first, n);
  }

  /** Verifying a drained run of the ring finds the bytes that were hashed. */
  lemma DrainedReadsBack(c: Config, s: State, dev0: seq<byte>)
    requires Inv(c, s, dev0) && Drained(c, s) && c.chunks != []
    ensures |s.hashed| <= |s.dev| && s.first.Some? && ReadBack(s.first, s.dev, |s.hashed|) == s.hashed
  {
    Finished(c, s, dev0);
    Longest(c.chunks);
    var image, first := Concat(c.chunks), c.chunks[0];
    hide *;
    StartSpliced(s.dev, first, |image|);
    StartSpliced(dev0, image, |image|);
    assert image + dev0[|image|..|image|] == image;
  }

  lemma {:induction false} Longest(chunks: seq<seq<byte>>)
    requires chunks != []
    ensures |chunks[0]| <= |Concat(chunks)|
  {
    ConcatHead(chunks);
  }

  lemma AllLater(n: nat)
    ensures forall j: nat | j < n :: j in Later(n) + {0}
  {
  }

  lemma StartSpliced(content: seq<byte>, first: seq<byte>, n: nat)
    requires |first| <= n <= |content|
    ensures Splice(content, 0, first)[..n] == first + content[|first|..n]
    ensures ReadBack(Some(first), content, n) == first + content[|first|..n]
  {
  }

  lemma {:induction false} KeptLength(buf: seq<byte>, n: nat)
    requires n <= |buf|
    ensures |Kept(buf, n)| == n <==> forall k | 0 <= k < n :: !Skipped(buf, k)
    ensures |Kept(buf, n)| == n ==> Kept(buf, n) == buf[..n]
  {
    if n > 0 {
      KeptLength(buf, n - 1);
      hide Skipped;
      assert buf[..n - 1] + [buf[n - 1]] == buf[..n];
    }
  }

  /**
   * Verification compares the hash of the image with a hash that has not seen the skipped bytes: the two have consumed
   * the same bytes exactly when nothing was skipped.
   */
  lemma {:induction false} SkippingIsSeen(bufs: seq<seq<byte>>, n: nat)
    requires 0 < n <= |bufs|
    ensures |Hashed(bufs, n)| <= |Concat(bufs[..n])|
    ensures |Hashed(bufs, n)| == |Concat(bufs[..n])| ==> Hashed(bufs, n) == Concat(bufs[..n])
    ensures Hashed(bufs, n) == Concat(bufs[..n]) <==>
      forall j, k | 1 <= j < n && 0 <= k < |bufs[j]| :: !Skipped(bufs[j], k)
  {
    if n == 1 {
      assert bufs[..1] == [] + [bufs[0]];
      ConcatOne([], bufs[0]);
    } else {
      SkippingIsSeen(bufs, n - 1);
      ConcatStep(bufs, n - 1);
      KeptLength(bufs[n - 1], |bufs[n - 1]|);
      assert bufs[n - 1][..|bufs[n - 1]|] == bufs[n - 1];
      hide Concat, Kept, Skipped;
      assert |Hashed(bufs, n)| == |Hashed(bufs, n - 1)| + |Kept(bufs[n - 1], |bufs[n - 1]|)|;
    }
  }
}
