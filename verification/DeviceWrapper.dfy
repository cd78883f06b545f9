/** The write-back cache of 4096-byte blocks between the file system code and the device. */
module DeviceWrappers {
  import opened Bytes
  import opened BlockDevices

  const BLOCK: nat := 4096

  datatype CacheEntry = CacheEntry(block: seq<byte>, dirty: bool)

  /** The byte a reader of the cache sees at `o`: the cached one, else the device's. */
  function ByteAt(cache: map<nat, CacheEntry>, content: seq<byte>, o: nat): byte
    requires forall b | b in cache :: |cache[b].block| == BLOCK
  {
    if o / BLOCK in cache then cache[o / BLOCK].block[o % BLOCK]
    else if o < |content| then content[o]
    else 0
  }

  predicate OnDevice(content: seq<byte>, b: nat, block: seq<byte>) {
    (b + 1) * BLOCK <= |content| && content[b * BLOCK..(b + 1) * BLOCK] == block
  }

  /** Every block is whole, a clean block equals the device, and a clean cache has no dirty block. */
  ghost predicate Coherent(cache: map<nat, CacheEntry>, dirty: bool, content: seq<byte>) {
    && (forall b | b in cache :: |cache[b].block| == BLOCK)
    && (forall b | b in cache && !cache[b].dirty :: OnDevice(content, b, cache[b].block))
    && (!dirty ==> forall b | b in cache :: !cache[b].dirty)
  }

  /** Block `b` can be had without an error: it is cached, or the device holds all of it. */
  predicate Readable(cache: map<nat, CacheEntry>, content: seq<byte>, b: nat) {
    b in cache || (b + 1) * BLOCK <= |content|
  }

  /**
   * Every block the code looks at for this range can be had. The block at `offset + size` is among them
   * even when the range ends exactly in front of it.
   */
  predicate Reachable(cache: map<nat, CacheEntry>, content: seq<byte>, offset: nat, size: nat) {
    forall b | offset / BLOCK <= b <= (offset + size) / BLOCK :: Readable(cache, content, b)
  }

  /** The first block of the device is as it was. */
  ghost predicate SameFirst(before: seq<byte>, now: seq<byte>) {
    |now| == |before| && forall o | 0 <= o < BLOCK && o < |now| :: now[o] == before[o]
  }

  /** Behind its first block the device holds what a reader of the cache sees, with every dirty block whole. */
  ghost predicate RestDone(before: seq<byte>, now: seq<byte>, todo: map<nat, CacheEntry>)
    requires forall b | b in todo :: |todo[b].block| == BLOCK
  {
    && |now| == |before|
    && (forall b | b in todo && todo[b].dirty && b != 0 :: OnDevice(now, b, todo[b].block))
    && forall o | BLOCK <= o < |now| :: now[o] == ByteAt(todo, before, o)
  }

  /** At this moment of a flush block 0 is untouched, or all the rest is already on the device. */
  ghost predicate Ordered(before: seq<byte>, now: seq<byte>, todo: map<nat, CacheEntry>)
    requires forall b | b in todo :: |todo[b].block| == BLOCK
  {
    SameFirst(before, now) || RestDone(before, now, todo)
  }

  /** A flush step: the same blocks are cached, no block became dirty, and a reader sees the same bytes. */
  ghost predicate SameView(cache0: map<nat, CacheEntry>, content0: seq<byte>,
                           cache1: map<nat, CacheEntry>, content1: seq<byte>) {
    && |content0| == |content1|
    && cache0.Keys == cache1.Keys
    && (forall b | b in cache1 :: cache1[b].block == cache0[b].block && (cache1[b].dirty ==> cache0[b].dirty))
    && (forall b | b in cache0 :: |cache0[b].block| == BLOCK)
    && (forall o: nat :: ByteAt(cache1, content1, o) == ByteAt(cache0, content0, o))
  }

  lemma RestIsDone(cache0: map<nat, CacheEntry>, content0: seq<byte>, cache: map<nat, CacheEntry>, dirty: bool,
                   content: seq<byte>)
    requires SameView(cache0, content0, cache, content) && Coherent(cache, dirty, content)
    requires forall b | b in cache && b != 0 :: !cache[b].dirty
    ensures RestDone(content0, content, cache0)
  {
    forall o | BLOCK <= o < |content| ensures content[o] == ByteAt(cache0, content0, o) {
      assert content[o] == ByteAt(cache, content, o) by {
        var b := o / BLOCK;
        if b in cache {
          assert content[b * BLOCK..(b + 1) * BLOCK][o % BLOCK] == content[o];
        }
      }
    }
  }

  /** No block but the first one is dirty. */
  predicate OnlyFirstDirty(cache: map<nat, CacheEntry>) {
    forall b | b in cache && b != 0 :: !cache[b].dirty
  }

  /** Behind its first block the device is as it was. */
  predicate SameBehind(before: seq<byte>, now: seq<byte>) {
    |now| == |before| && forall o | BLOCK <= o < |now| :: now[o] == before[o]
  }

  lemma OrderedAtFirst(before: seq<byte>, todo: map<nat, CacheEntry>)
    requires forall b | b in todo :: |todo[b].block| == BLOCK
    ensures forall now: seq<byte> | SameFirst(before, now) :: Ordered(before, now, todo)
    ensures SameBehind(before, before)
  {
  }

  /** With the rest done, it stays done while only the first block changes. */
  lemma RestStays(before: seq<byte>, mid: seq<byte>, todo: map<nat, CacheEntry>)
    requires forall b | b in todo :: |todo[b].block| == BLOCK
    requires RestDone(before, mid, todo)
    ensures forall now: seq<byte> | SameBehind(mid, now) :: Ordered(before, now, todo)
  {
    forall now: seq<byte> | SameBehind(mid, now) ensures RestDone(before, now, todo) {
      forall b | b in todo && todo[b].dirty && b != 0 ensures OnDevice(now, b, todo[b].block) {
        assert now[b * BLOCK..(b + 1) * BLOCK] == mid[b * BLOCK..(b + 1) * BLOCK];
      }
    }
  }

  lemma SameFirstTransitive(a: seq<byte>, b: seq<byte>, c: seq<byte>)
    requires SameFirst(a, b) && SameFirst(b, c)
    ensures SameFirst(a, c)
  {
  }

  lemma Dirty(cache: map<nat, CacheEntry>, b: nat)
    requires b in cache && b != 0 && cache[b].dirty
    ensures !OnlyFirstDirty(cache)
  {
  }

  lemma AllClean(cache: map<nat, CacheEntry>)
    requires forall b | b in cache && b != 0 :: !cache[b].dirty
    ensures OnlyFirstDirty(cache)
  {
  }

  lemma SameViewTransitive(cache0: map<nat, CacheEntry>, content0: seq<byte>, cache1: map<nat, CacheEntry>,
                           content1: seq<byte>, cache2: map<nat, CacheEntry>, content2: seq<byte>)
    requires SameView(cache0, content0, cache1, content1) && SameView(cache1, content1, cache2, content2)
    ensures SameView(cache0, content0, cache2, content2)
  {
    hide ByteAt;
  }

  /** Caching block `b` as the device holds it changes nothing a reader can see. */
  lemma LoadKeepsView(cache: map<nat, CacheEntry>, content: seq<byte>, b: nat)
    requires forall b | b in cache :: |cache[b].block| == BLOCK
    requires b !in cache && (b + 1) * BLOCK <= |content|
    ensures forall o: nat :: ByteAt(cache[b := CacheEntry(content[b * BLOCK..(b + 1) * BLOCK], false)], content, o)
                             == ByteAt(cache, content, o)
  {
    forall o: nat | o / BLOCK == b
      ensures content[b * BLOCK..(b + 1) * BLOCK][o % BLOCK] == content[o]
    {
      assert o == b * BLOCK + o % BLOCK;
    }
  }

  /** Writing a cached block to the device and marking it clean changes nothing a reader can see. */
  lemma FlushKeepsView(cache: map<nat, CacheEntry>, dirty: bool, before: seq<byte>, after: seq<byte>, b: nat)
    requires Coherent(cache, dirty, before)
    requires b in cache && |after| == |before|
    requires forall i | 0 <= i < |after| && !(b * BLOCK <= i < b * BLOCK + BLOCK) :: after[i] == before[i]
    ensures forall o: nat :: ByteAt(cache, after, o) == ByteAt(cache, before, o)
    ensures forall o: nat :: ByteAt(cache[b := cache[b].(dirty := false)], after, o) == ByteAt(cache, before, o)
    ensures forall c | c in cache && c != b && OnDevice(before, c, cache[c].block) :: OnDevice(after, c, cache[c].block)
  {
    forall o: nat | o / BLOCK !in cache ensures o < |after| ==> after[o] == before[o] {
      assert o / BLOCK != b;
    }
    forall c | c in cache && c != b && OnDevice(before, c, cache[c].block)
      ensures OnDevice(after, c, cache[c].block)
    {
      assert after[c * BLOCK..(c + 1) * BLOCK] == before[c * BLOCK..(c + 1) * BLOCK];
    }
  }

  /**
   * Copying `d` into block `b` changes exactly the bytes it covers. A block that was not cached starts out
   * uninitialised, so it must be covered whole.
   */
  lemma CopyIntoBlock(cache: map<nat, CacheEntry>, content: seq<byte>, b: nat, block: seq<byte>, at: nat, d: seq<byte>)
    requires forall c | c in cache :: |cache[c].block| == BLOCK
    requires |block| == BLOCK && at + |d| <= BLOCK
    requires if b in cache then block == cache[b].block else at == 0 && |d| == BLOCK
    ensures var cache' := cache[b := CacheEntry(Splice(block, at, d), true)];
            forall o: nat :: ByteAt(cache', content, o) ==
              if b * BLOCK + at <= o < b * BLOCK + at + |d| then d[o - b * BLOCK - at] else ByteAt(cache, content, o)
  {
    forall o: nat | o / BLOCK == b
      ensures Splice(block, at, d)[o % BLOCK]
              == if b * BLOCK + at <= o < b * BLOCK + at + |d| then d[o - b * BLOCK - at] else ByteAt(cache, content, o)
    {
      assert o == b * BLOCK + o % BLOCK;
      SpliceAt(block, at, d, o % BLOCK);
    }
  }

  class DeviceWrapper {
    const file: BlockDevice
    var dirty: bool
    var cache: map<nat, CacheEntry>

    ghost predicate Valid()
      reads this, file
    {
      Coherent(cache, dirty, file.content)
    }

    /** The flat view: what a read of one byte at `o` yields. */
    ghost function At(o: nat): byte
      requires Valid()
      reads this, file
    {
      ByteAt(cache, file.content, o)
    }

    constructor (file: BlockDevice)
      ensures this.file == file && Valid() && cache == map[] && !dirty
      ensures forall o | 0 <= o < |file.content| :: At(o) == file.content[o]
    {
      this.file := file;
      dirty, cache := false, map[];
    }

    /** Reads one block from the device into the cache. */
    method LoadBlock(b: nat) returns (ok: bool)
      requires Valid() && b !in cache
      modifies this`cache, file`pos
      ensures Valid() && forall o: nat :: At(o) == old(At(o))
      ensures ok ==> (b + 1) * BLOCK <= |file.content|
      ensures ok ==> cache == old(cache)[b := CacheEntry(file.content[b * BLOCK..(b + 1) * BLOCK], false)]
      ensures !ok ==> cache == old(cache)
      ensures file.reliable && (b + 1) * BLOCK <= |file.content| ==> ok
    {
      ok := file.Seek(b * BLOCK);
      if !ok {
        return;
      }
      var data;
      ok, data := file.ReadSequential(BLOCK);
      if !ok || |data| != BLOCK {
        return false;
      }
      LoadKeepsView(cache, file.content, b);
      cache := cache[b := CacheEntry(data, false)];
    }

    method ReadIntoBlockCacheIfNeeded(offset: nat, size: nat) returns (ok: bool)
      requires Valid()
      modifies this`cache, file`pos
      ensures Valid()
      ensures forall o: nat :: At(o) == old(At(o))
      ensures forall b | b in old(cache) :: b in cache && cache[b] == old(cache[b])
      ensures forall b | b in cache && b !in old(cache) :: !cache[b].dirty
      ensures ok && size > 0 ==> forall b | offset / BLOCK <= b <= (offset + size) / BLOCK :: b in cache
      ensures ok && size > 0 ==> Reachable(old(cache), file.content, offset, size)
      ensures file.reliable && (size == 0 || Reachable(old(cache), file.content, offset, size)) ==> ok
    {
      if size == 0 {
        return true;
      }
      var i, last := offset / BLOCK, (offset + size) / BLOCK;
      while i <= last
        invariant offset / BLOCK <= i <= last + 1
        invariant Valid()
        invariant forall o: nat :: At(o) == old(At(o))
        invariant forall b | b in old(cache) :: b in cache && cache[b] == old(cache[b])
        invariant forall b | b in cache && b !in old(cache) :: !cache[b].dirty && (b + 1) * BLOCK <= |file.content|
        invariant forall b | offset / BLOCK <= b < i :: b in cache
      {
        if i !in cache {
          ok := LoadBlock(i);
          if !ok {
            assert file.reliable ==> !Readable(old(cache), file.content, i);
            return;
          }
        }
        i := i + 1;
      }
      return true;
    }

    /** What is read is the flat view; the view and the device stay as they were. */
    method Pread(size: nat, offset: nat) returns (ok: bool, buf: seq<byte>)
      requires Valid()
      modifies this`cache, file`pos
      ensures Valid()
      ensures forall o: nat :: At(o) == old(At(o))
      ensures ok ==> |buf| == size && forall k | 0 <= k < size :: buf[k] == At(offset + k)
      ensures ok && size > 0 ==> Reachable(old(cache), file.content, offset, size)
      ensures file.reliable && (size == 0 || Reachable(old(cache), file.content, offset, size)) ==> ok
    {
      buf := [];
      if size == 0 {
        return true, [];
      }
      ok := ReadIntoBlockCacheIfNeeded(offset, size);
      if !ok {
        return;
      }
      var i: nat, offsetInBlock: nat, left: nat := offset / BLOCK, offset % BLOCK, size;
      while left > 0
        invariant |buf| + left == size
        invariant offsetInBlock < BLOCK && (left > 0 ==> i * BLOCK + offsetInBlock == offset + |buf|)
        invariant forall k | 0 <= k < |buf| :: buf[k] == At(offset + k)
      {
        assert offset / BLOCK <= i <= (offset + size) / BLOCK by {
          assert i == (offset + |buf|) / BLOCK;
        }
        var n := if BLOCK - offsetInBlock < left then BLOCK - offsetInBlock else left;
        var piece := cache[i].block[offsetInBlock..offsetInBlock + n];
        forall k | 0 <= k < n ensures piece[k] == At(offset + |buf| + k) {
          assert (offset + |buf| + k) / BLOCK == i && (offset + |buf| + k) % BLOCK == offsetInBlock + k;
        }
        buf, left, offsetInBlock, i := buf + piece, left - n, 0, i + 1;
      }
    }

    /** Copies one piece into its block, which gets dirty. */
    method CopyPiece(b: nat, at: nat, d: seq<byte>)
      requires Coherent(cache, true, file.content) && at + |d| <= BLOCK
      requires b in cache || (at == 0 && |d| == BLOCK)
      modifies this`cache
      ensures Coherent(cache, true, file.content) && old(cache).Keys <= cache.Keys
      ensures forall o: nat :: ByteAt(cache, file.content, o)
                               == if b * BLOCK + at <= o < b * BLOCK + at + |d| then d[o - b * BLOCK - at]
                                  else old(ByteAt(cache, file.content, o))
    {
      assert |Zeroes(BLOCK)| == BLOCK;
      var block: seq<byte> :| |block| == BLOCK; // a fresh entry is not initialised
      if b in cache {
        block := cache[b].block;
      }
      CopyIntoBlock(cache, file.content, b, block, at, d);
      cache := cache[b := CacheEntry(Splice(block, at, d), true)];
    }

    /** The flat view changes in the written range and nowhere else; nothing reaches the device. */
    method Pwrite(buf: seq<byte>, offset: nat) returns (ok: bool)
      requires Valid()
      modifies this, file`pos
      ensures Valid()
      ensures ok ==> forall o: nat :: At(o) == if offset <= o < offset + |buf| then buf[o - offset] else old(At(o))
      ensures !ok ==> forall o: nat :: At(o) == old(At(o))
      ensures ok && |buf| > 0 && (offset % BLOCK != 0 || |buf| % BLOCK != 0) ==>
        Reachable(old(cache), file.content, offset, |buf|)
      ensures |buf| == 0 || (offset % BLOCK == 0 && |buf| % BLOCK == 0) ==> ok
      ensures file.reliable && Reachable(old(cache), file.content, offset, |buf|) ==> ok
    {
      ok := true;
      if |buf| == 0 {
        return;
      }
      var i: nat, offsetInBlock: nat, done: nat := offset / BLOCK, offset % BLOCK, 0;
      if offsetInBlock != 0 || |buf| % BLOCK != 0 {
        ok := ReadIntoBlockCacheIfNeeded(offset, |buf|);
        if !ok {
          return;
        }
      }
      while done < |buf|
        invariant done <= |buf|
        invariant offsetInBlock < BLOCK && (done < |buf| ==> i * BLOCK + offsetInBlock == offset + done)
        invariant offset % BLOCK != 0 || |buf| % BLOCK != 0 ==>
          forall b | offset / BLOCK <= b <= (offset + |buf|) / BLOCK :: b in cache
        invariant offset % BLOCK == 0 && |buf| % BLOCK == 0 ==> done % BLOCK == 0 && offsetInBlock == 0
        invariant Coherent(cache, true, file.content)
        invariant forall o: nat :: ByteAt(cache, file.content, o)
                                   == if offset <= o < offset + done then buf[o - offset] else old(At(o))
      {
        assert offset / BLOCK <= i <= (offset + |buf|) / BLOCK by {
          assert i == (offset + done) / BLOCK;
        }
        var n := if BLOCK - offsetInBlock < |buf| - done then BLOCK - offsetInBlock else |buf| - done;
        CopyPiece(i, offsetInBlock, buf[done..done + n]);
        done, offsetInBlock, i := done + n, 0, i + 1;
      }
      dirty := true;
    }

    /**
     * Flushes the cache. The view never changes. At every moment of the flush, also when a device error cuts it
     * short, block 0 is as it was unless all other dirty blocks are already on the device.
     */
    method Sync() returns (ok: bool)
      requires Valid()
      modifies this, file
      ensures Valid() && |file.content| == |old(file.content)|
      ensures forall o: nat :: At(o) == old(At(o))
      ensures cache.Keys == old(cache.Keys) && forall b | b in cache :: cache[b].block == old(cache[b].block)
      ensures old(file.history) <= file.history
      ensures old(dirty) ==> forall k | |old(file.history)| <= k < |file.history| ::
                Ordered(old(file.content), file.history[k], old(cache))
      ensures old(dirty) ==> Ordered(old(file.content), file.content, old(cache))
      ensures !old(dirty) ==> file.content == old(file.content) && file.history == old(file.history)
      ensures SameFirst(old(file.content), file.content) || OnlyFirstDirty(cache)
      ensures old(OnlyFirstDirty(cache)) ==> OnlyFirstDirty(cache) && SameBehind(old(file.content), file.content)
      ensures old(OnlyFirstDirty(cache)) ==> forall k | |old(file.history)| <= k < |file.history| ::
                SameBehind(old(file.content), file.history[k])
      ensures ok ==> !dirty && forall b | b in cache :: OnDevice(file.content, b, cache[b].block)
      ensures file.reliable && (forall b | b in cache && cache[b].dirty :: (b + 1) * BLOCK <= |file.content|) ==> ok
    {
      hide *;
      CleanCache();
      if !dirty {
        return true;
      }
      ghost var cache0, content0, n := cache, file.content, |file.history|;
      Blocks();
      OrderedAtFirst(content0, cache0);
      ok := FlushAllButFirst();
      ViewIs(cache0, content0);
      if !ok {
        return;
      }
      ghost var mid, m := file.content, |file.history|;
      DoneSoFar(cache0, content0);
      RestStays(content0, mid, cache0);
      ghost var cache1 := cache;
      ok := FlushFirst();
      SameViewTransitive(cache0, content0, cache1, mid, cache, file.content);
      ViewIs(cache0, content0);
    }

    lemma CleanCache()
      requires Valid()
      ensures !dirty ==> OnlyFirstDirty(cache) && SameFirst(file.content, file.content)
      ensures !dirty ==> forall b | b in cache :: OnDevice(file.content, b, cache[b].block)
      ensures SameBehind(file.content, file.content)
    {
    }

    lemma Blocks()
      requires Valid()
      ensures forall b | b in cache :: |cache[b].block| == BLOCK
      ensures forall o: nat :: At(o) == ByteAt(cache, file.content, o)
    {
      hide ByteAt;
    }

    lemma DoneSoFar(cache0: map<nat, CacheEntry>, content0: seq<byte>)
      requires Valid() && SameView(cache0, content0, cache, file.content) && OnlyFirstDirty(cache)
      ensures RestDone(content0, file.content, cache0)
    {
      RestIsDone(cache0, content0, cache, dirty, file.content);
    }

    /** The view after a step of a flush. */
    lemma ViewIs(cache0: map<nat, CacheEntry>, content0: seq<byte>)
      requires Valid() && SameView(cache0, content0, cache, file.content)
      ensures cache.Keys == cache0.Keys && forall b | b in cache :: cache[b].block == cache0[b].block
      ensures forall b | b in cache0 :: |cache0[b].block| == BLOCK
      ensures forall o: nat :: At(o) == ByteAt(cache0, content0, o)
    {
      hide ByteAt;
    }

    /** Writes block 0 when it is dirty, and with it the flush ends. */
    method FlushFirst() returns (ok: bool)
      requires Valid() && dirty && OnlyFirstDirty(cache)
      modifies this, file
      ensures Valid() && |file.content| == |old(file.content)| && OnlyFirstDirty(cache)
      ensures SameView(old(cache), old(file.content), cache, file.content)
      ensures SameBehind(old(file.content), file.content)
      ensures file.history == old(file.history) || file.history == old(file.history) + [file.content]
      ensures ok ==> !dirty && forall b | b in cache :: OnDevice(file.content, b, cache[b].block)
      ensures file.reliable && (forall b | b in cache && cache[b].dirty :: (b + 1) * BLOCK <= |file.content|) ==> ok
    {
      if 0 in cache && cache[0].dirty {
        ok := FlushBlock(0);
        if !ok {
          return;
        }
      }
      dirty := false;
      return true;
    }

    /** Writes every dirty block but block 0, with the MBR, which is saved for last. */
    method FlushAllButFirst() returns (ok: bool)
      requires Valid() && dirty
      modifies this, file
      ensures Valid() && dirty && |file.content| == |old(file.content)|
      ensures SameView(old(cache), old(file.content), cache, file.content)
      ensures 0 in cache ==> cache[0] == old(cache[0])
      ensures old(file.history) <= file.history
      ensures forall k | |old(file.history)| <= k < |file.history| :: SameFirst(old(file.content), file.history[k])
      ensures SameFirst(old(file.content), file.content)
      ensures old(OnlyFirstDirty(cache)) ==> file.content == old(file.content) && file.history == old(file.history)
      ensures ok || old(OnlyFirstDirty(cache)) ==> OnlyFirstDirty(cache)
      ensures file.reliable && (forall b | b in cache && cache[b].dirty :: (b + 1) * BLOCK <= |file.content|) ==> ok
    {
      hide *;
      ghost var cache0, content0, history0 := cache, file.content, file.history;
      SelfView();
      var keys := cache.Keys - {0};
      while keys != {}
        invariant keys <= cache.Keys - {0}
        invariant Valid() && dirty
        invariant SameView(cache0, content0, cache, file.content) && SameFirst(content0, file.content)
        invariant cache.Keys == cache0.Keys && |file.content| == |content0|
        invariant forall b | b in cache && b != 0 && b !in keys :: !cache[b].dirty
        invariant forall b | b in cache && cache[b].dirty :: cache0[b].dirty
        invariant 0 in cache ==> cache[0] == cache0[0]
        invariant history0 <= file.history
        invariant forall k | |history0| <= k < |file.history| :: SameFirst(content0, file.history[k])
        invariant OnlyFirstDirty(cache0) ==>
          file.content == content0 && file.history == history0 && OnlyFirstDirty(cache)
      {
        var b :| b in keys;
        if cache[b].dirty {
          ghost var cache1, content1 := cache, file.content;
          Dirty(cache, b);
          ok := FlushBlock(b);
          SameViewTransitive(cache0, content0, cache1, content1, cache, file.content);
          ViewIs(cache1, content1);
          SameFirstTransitive(content0, content1, file.content);
          if !ok {
            return;
          }
        }
        keys := keys - {b};
      }
      AllClean(cache);
      return true;
    }

    lemma SelfView()
      requires Valid()
      ensures SameView(cache, file.content, cache, file.content) && SameFirst(file.content, file.content)
    {
      hide ByteAt;
    }

    /** Seeks to a dirty block, writes it and marks it clean. */
    method FlushBlock(b: nat) returns (ok: bool)
      requires Valid() && dirty && b in cache && cache[b].dirty
      modifies this, file
      ensures Valid() && dirty
      ensures SameView(old(cache), old(file.content), cache, file.content)
      ensures b != 0 ==> SameFirst(old(file.content), file.content)
      ensures forall o | (b + 1) * BLOCK <= o < |file.content| :: file.content[o] == old(file.content[o])
      ensures ok ==> cache == old(cache)[b := old(cache[b]).(dirty := false)]
      ensures !ok ==> cache == old(cache)
      ensures file.history == old(file.history) || file.history == old(file.history) + [file.content]
      ensures file.reliable && (b + 1) * BLOCK <= |file.content| ==> ok
    {
      ok := file.Seek(b * BLOCK);
      if !ok {
        return;
      }
      ghost var before := file.content;
      ok := file.WriteSequential(cache[b].block);
      FlushKeepsView(cache, dirty, before, file.content, b);
      if ok {
        SpliceWritten(before, b * BLOCK, cache[b].block);
        cache := cache[b := cache[b].(dirty := false)];
      }
    }
  }
}
