/** The last steps of writing an image: the configuration, and the withheld first chunk. */
module ImageFinishes {
  import opened Bytes
  import opened Options
  import opened BlockDevices
  import opened DeviceWrappers
  import opened Layouts
  import opened PartitionTables
  import opened EveConfigurators
  import opened ImageWrites
  import opened ImageRuns

  /** What a reader sees when the cache holds `first` for the start of the device. */
  ghost predicate SeenWithFirst(view: View, content: seq<byte>, first: seq<byte>) {
    && |first| <= |content|
    && forall o: nat | o < |content| :: view(o) == Splice(content, 0, first)[o]
  }

  /** In this state of the device its first block is as it was, or everything behind it is final. */
  ghost predicate FirstIsLast(before: seq<byte>, now: seq<byte>, final: seq<byte>) {
    || SameFirst(before, now)
    || (|now| == |final| && forall o | BLOCK <= o < |now| :: now[o] == final[o])
  }

  /** The device as a reader of the cache sees it. */
  ghost function Seen(dw: DeviceWrapper): (r: seq<byte>)
    requires dw.Valid()
    reads dw, dw.file
    ensures |r| == |dw.file.content| && forall o | 0 <= o < |r| :: r[o] == dw.At(o)
  {
    var cache, content := dw.cache, dw.file.content;
    seq(|content|, o requires 0 <= o && forall b | b in cache :: |cache[b].block| == BLOCK => ByteAt(cache, content, o))
  }

  lemma SeenOnDevice(dw: DeviceWrapper)
    requires dw.Valid() && forall b | b in dw.cache :: OnDevice(dw.file.content, b, dw.cache[b].block)
    ensures forall o: nat | o < |dw.file.content| :: dw.At(o) == dw.file.content[o]
  {
    var content := dw.file.content;
    forall o: nat | o < |content| ensures dw.At(o) == content[o] {
      var b := o / BLOCK;
      if b in dw.cache {
        assert content[b * BLOCK..(b + 1) * BLOCK][o % BLOCK] == content[o];
      }
    }
  }

  /**
   * The configuration is written through a fresh cache that first takes the withheld chunk. Up to the flush the device
   * is untouched. During the flush, also when it fails midway, the first block changes only after the rest is final;
   * all of this whatever the configuration partition holds. The cache is flushed also after an error, once more when it
   * goes out of scope. A flush that ends leaves what the image has outside the configuration partition, and the files
   * inside it.
   */
  method ApplyEveConfig(file: BlockDevice, first: seq<byte>, work: Work, ghost view: View, ghost l: Layout)
    returns (ok: bool, applied: bool, start: nat, len: nat, placed: bool, ghost final: seq<byte>, ghost i: nat,
             ghost s': seq<byte>, ghost l': Layout)
    requires SeenWithFirst(view, file.content, first) && Prepared(work, view, l)
    requires forall o: nat | o >= |file.content| :: view(o) == 0
    modifies file
    ensures |file.content| == |old(file.content)| == |final|
    ensures old(file.history) <= file.history
    ensures forall k | |old(file.history)| <= k < |file.history| ::
              FirstIsLast(old(file.content), file.history[k], final)
    ensures forall o: nat | o < |final| && !(start <= o < start + len) ::
              final[o] == (if placed then Splice(old(file.content), 0, first) else old(file.content))[o]
    ensures ok ==> placed && file.content == final
    ensures len > 0 ==>
      FirstConfig(view, i) && start == EntryStart(EntryAt(view, i)) && len == EntryLength(EntryAt(view, i))
    ensures ok && !applied ==> len == 0 && NoConfig(view)
    ensures ok && applied && work.Files? ==>
      && Applied(work.cs, view, start, len, l, work.files, s', l')
      && forall k | 0 <= k < len && start + k < |final| :: s'[k] == final[start + k]
    ensures file.reliable && Within(|file.content|, 0, |first|) && TableWithin(view, |file.content|) ==>
      placed && (applied <==> !NoConfig(view))
  {
    hide *;
    ghost var before := file.content;
    FirstFits(view, before, first);
    var dw := Fresh(file);
    ok, applied, start, len, placed, final, i, s', l' := Stage(dw, first, work, view, l);
    Starting(before, dw, final);
    if ok {
      ok := FlushSeen(dw, before, final);
    }
    var flushed := FlushSeen(dw, before, final);
  }

  /** Everything up to the flush happens in the cache. */
  method Stage(dw: DeviceWrapper, first: seq<byte>, work: Work, ghost view: View, ghost l: Layout)
    returns (ok: bool, applied: bool, start: nat, len: nat, placed: bool, ghost final: seq<byte>, ghost i: nat,
             ghost s': seq<byte>, ghost l': Layout)
    requires dw.Valid() && SeenWithFirst(view, dw.file.content, first) && Prepared(work, view, l)
    requires forall o: nat | o >= |dw.file.content| :: view(o) == 0
    requires forall o: nat :: dw.At(o) == if o < |dw.file.content| then dw.file.content[o] else 0
    requires |first| <= |dw.file.content|
    modifies dw, dw.file`pos
    ensures dw.Valid() && final == Seen(dw) && |final| == |dw.file.content| && (ok ==> placed)
    ensures forall o: nat | o < |final| && !(start <= o < start + len) ::
              final[o] == (if placed then Splice(dw.file.content, 0, first) else dw.file.content)[o]
    ensures len > 0 ==>
      FirstConfig(view, i) && start == EntryStart(EntryAt(view, i)) && len == EntryLength(EntryAt(view, i))
    ensures ok && !applied ==> len == 0 && NoConfig(view)
    ensures ok && applied && work.Files? ==>
      && Applied(work.cs, view, start, len, l, work.files, s', l')
      && forall k | 0 <= k < len && start + k < |final| :: s'[k] == final[start + k]
    ensures dw.file.reliable && Within(|final|, 0, |first|) && TableWithin(view, |final|) ==>
      placed && (applied <==> !NoConfig(view)) && (!applied ==> ok)
  {
    hide *;
    applied, start, len, i, s', l' := false, 0, 0, 0, [], l;
    if Within(|dw.file.content|, 0, |first|) {
      WithinIsReachable(dw, 0, |first|);
    }
    placed := dw.Pwrite(first, 0);
    ok := placed;
    if placed {
      Overlaid(dw, view, first);
      ok, applied, start, len, i, s', l' := Apply(dw, work, view, l);
      final := Seen(dw);
      OutsideIs(view, dw.file.content, first, final, start, len);
    } else {
      final := Seen(dw);
      NotPlaced(dw);
    }
  }

  /** The flush of a cache that a reader sees as `final`; `before` is the device when the cache was opened. */
  ghost predicate Flushing(before: seq<byte>, dw: DeviceWrapper, final: seq<byte>)
    reads dw, dw.file
  {
    && dw.Valid() && |dw.file.content| == |before| && final == Seen(dw)
    && FirstIsLast(before, dw.file.content, final)
    && (SameFirst(before, dw.file.content) || OnlyFirstDirty(dw.cache))
  }

  lemma Starting(before: seq<byte>, dw: DeviceWrapper, final: seq<byte>)
    requires dw.Valid() && dw.file.content == before && final == Seen(dw)
    ensures Flushing(before, dw, final)
  {
  }

  lemma NotPlaced(dw: DeviceWrapper)
    requires dw.Valid()
    requires forall o: nat :: dw.At(o) == if o < |dw.file.content| then dw.file.content[o] else 0
    ensures Seen(dw) == dw.file.content
  {
    hide DeviceWrapper.At;
  }

  /**
   * One flush, the first or, after an error, another one: the first block changes only after the rest is final. When it
   * ends the device is what was seen, and a further flush does nothing.
   */
  method FlushSeen(dw: DeviceWrapper, ghost before: seq<byte>, ghost final: seq<byte>) returns (ok: bool)
    requires Flushing(before, dw, final)
    modifies dw, dw.file
    ensures Flushing(before, dw, final) && |dw.file.content| == |old(dw.file.content)| == |final|
    ensures old(dw.file.history) <= dw.file.history
    ensures forall k | |old(dw.file.history)| <= k < |dw.file.history| ::
              FirstIsLast(before, dw.file.history[k], final)
    ensures ok ==> !dw.dirty && dw.file.content == final
    ensures !old(dw.dirty) ==> dw.file.content == old(dw.file.content)
    ensures !ok && dw.file.reliable ==> exists b :: b in dw.cache && dw.cache[b].dirty && (b + 1) * BLOCK > |final|
  {
    hide *;
    ghost var content, cache := dw.file.content, dw.cache;
    FlushingIs(before, dw, final);
    StepsAreLast(before, dw, final);
    ok := dw.Sync();
    SameSeen(dw, final);
    if ok {
      SeenOnDevice(dw);
    }
    FlushedIs(before, content, dw, final);
  }

  lemma FlushingIs(before: seq<byte>, dw: DeviceWrapper, final: seq<byte>)
    requires Flushing(before, dw, final)
    ensures dw.Valid() && |dw.file.content| == |before| == |final| && final == Seen(dw)
    ensures FirstIsLast(before, dw.file.content, final)
    ensures forall o: nat | o < |final| :: final[o] == dw.At(o)
    ensures SameFirst(before, dw.file.content) || OnlyFirstDirty(dw.cache)
    ensures forall b | b in dw.cache :: |dw.cache[b].block| == BLOCK
  {
    hide FirstIsLast, SameFirst, OnlyFirstDirty, DeviceWrapper.At;
  }

  /** Every state of the device that a flush can make from here. */
  lemma StepsAreLast(before: seq<byte>, dw: DeviceWrapper, final: seq<byte>)
    requires Flushing(before, dw, final)
    requires forall b | b in dw.cache :: |dw.cache[b].block| == BLOCK
    ensures forall now: seq<byte> |
      Ordered(dw.file.content, now, dw.cache) && (OnlyFirstDirty(dw.cache) ==> SameBehind(dw.file.content, now)) ::
      FirstIsLast(before, now, final)
  {
    forall now: seq<byte> |
      Ordered(dw.file.content, now, dw.cache) && (OnlyFirstDirty(dw.cache) ==> SameBehind(dw.file.content, now))
      ensures FirstIsLast(before, now, final)
    {
      StepIsLast(before, dw, final, now);
    }
  }

  lemma StepIsLast(before: seq<byte>, dw: DeviceWrapper, final: seq<byte>, now: seq<byte>)
    requires Flushing(before, dw, final)
    requires forall b | b in dw.cache :: |dw.cache[b].block| == BLOCK
    requires Ordered(dw.file.content, now, dw.cache) && (OnlyFirstDirty(dw.cache) ==> SameBehind(dw.file.content, now))
    ensures FirstIsLast(before, now, final)
  {
    if SameFirst(before, dw.file.content) {
      if SameFirst(dw.file.content, now) {
        SameFirstTransitive(before, dw.file.content, now);
      }
      hide OnlyFirstDirty;
    } else {
      hide Ordered, OnlyFirstDirty, ByteAt;
    }
  }

  lemma SameSeen(dw: DeviceWrapper, final: seq<byte>)
    requires dw.Valid() && |final| == |dw.file.content| && forall o: nat | o < |final| :: final[o] == dw.At(o)
    ensures final == Seen(dw)
  {
    hide DeviceWrapper.At;
  }

  lemma FlushedIs(before: seq<byte>, content: seq<byte>, dw: DeviceWrapper, final: seq<byte>)
    requires dw.Valid() && |dw.file.content| == |before| && final == Seen(dw)
    requires FirstIsLast(before, dw.file.content, final)
    requires SameFirst(before, content) || OnlyFirstDirty(dw.cache)
    requires SameFirst(content, dw.file.content) || OnlyFirstDirty(dw.cache)
    ensures Flushing(before, dw, final)
  {
    if !OnlyFirstDirty(dw.cache) {
      SameFirstTransitive(before, content, dw.file.content);
    }
    hide OnlyFirstDirty, FirstIsLast, Seen;
  }

  method Fresh(file: BlockDevice) returns (dw: DeviceWrapper)
    ensures fresh(dw) && dw.file == file && dw.Valid() && !dw.dirty
    ensures forall o: nat :: dw.At(o) == if o < |file.content| then file.content[o] else 0
  {
    dw := new DeviceWrapper(file);
  }

  lemma FirstFits(view: View, content: seq<byte>, first: seq<byte>)
    requires SeenWithFirst(view, content, first)
    ensures |first| <= |content|
    ensures forall o: nat | o < |content| :: view(o) == if o < |first| then first[o] else content[o]
  {
  }

  lemma Overlaid(dw: DeviceWrapper, view: View, first: seq<byte>)
    requires dw.Valid() && SeenWithFirst(view, dw.file.content, first)
    requires forall o: nat | o >= |dw.file.content| :: view(o) == 0
    requires forall o: nat :: dw.At(o) == if 0 <= o < 0 + |first| then first[o - 0]
                                          else if o < |dw.file.content| then dw.file.content[o] else 0
    ensures forall o: nat :: dw.At(o) == view(o)
  {
    FirstFits(view, dw.file.content, first);
    hide *;
  }

  lemma OutsideIs(view: View, content: seq<byte>, first: seq<byte>, final: seq<byte>, start: nat, len: nat)
    requires SeenWithFirst(view, content, first) && |final| == |content|
    requires forall o: nat | o < |final| && !(start <= o < start + len) :: final[o] == view(o)
    ensures |first| <= |content|
    ensures forall o: nat | o < |final| && !(start <= o < start + len) :: final[o] == Splice(content, 0, first)[o]
  {
  }

  /** Everything behind the withheld chunk is on the device. */
  ghost predicate RestWritten(now: seq<byte>, image: seq<byte>, first: seq<byte>) {
    |now| == |image| && forall o | |first| <= o < |now| :: now[o] == image[o]
  }

  /**
   * After the drain: with a configuration the steps above, without one the withheld chunk goes to the start of the
   * device, with a seek whose result is not looked at. If that seek worked and nothing else failed, the device is the
   * image on what was there before, with the files in its configuration partition; the first block was the last to
   * change.
   */
  method WriteComplete(file: BlockDevice, first: seq<byte>, config: Option<Work>, ghost c: Config, ghost s: State,
                       ghost dev0: seq<byte>, ghost view: View, ghost l: Layout)
    returns (ok: bool, applied: bool, start: nat, len: nat, ghost sought: bool, ghost final: seq<byte>, ghost i: nat,
             ghost s': seq<byte>, ghost l': Layout)
    requires Inv(c, s, dev0) && Drained(c, s) && c.chunks != [] && file.content == s.dev && s.first == Some(first)
    requires config.Some? ==>
      && SeenWithFirst(view, file.content, first) && Prepared(config.value, view, l)
      && forall o: nat | o >= |file.content| :: view(o) == 0
    modifies file
    ensures file.reliable && config.None? ==> sought && ok
    ensures old(file.history) <= file.history
    ensures |file.content| == |final| == |dev0| >= |Concat(c.chunks)|
    ensures ok && sought ==>
      file.content == final && forall o: nat | o < |final| && !(start <= o < start + len) ::
        final[o] == Splice(dev0, 0, Concat(c.chunks))[o]
    ensures config.None? ==> len == 0 && !applied
    ensures len > 0 ==>
      FirstConfig(view, i) && start == EntryStart(EntryAt(view, i)) && len == EntryLength(EntryAt(view, i))
    ensures ok && config.Some? && !applied ==> len == 0 && NoConfig(view)
    ensures ok && applied && config.value.Files? ==>
      && Applied(config.value.cs, view, start, len, l, config.value.files, s', l')
      && forall k | 0 <= k < len && start + k < |final| :: s'[k] == final[start + k]
    ensures config.Some? && file.reliable && Within(|final|, 0, |first|) && TableWithin(view, |final|) ==>
      (applied <==> !NoConfig(view))
    ensures config.Some? ==> forall k | |old(file.history)| <= k < |file.history| ::
              FirstIsLast(old(file.content), file.history[k], final)
    ensures config.None? && sought ==> forall k | |old(file.history)| <= k < |file.history| ::
              RestWritten(file.history[k], Splice(dev0, 0, Concat(c.chunks)), first)
  {
    hide *;
    Ending(c, s, dev0, first);
    applied, start, len, sought, i, s', l' := false, 0, 0, true, 0, [], l;
    if config.Some? {
      var placed;
      ok, applied, start, len, placed, final, i, s', l' := ApplyEveConfig(file, first, config.value, view, l);
    } else {
      var result := file.Seek(0);
      sought := result;
      ok := file.WriteSequential(first);
      final := file.content;
      if sought {
        StartWritten(c, s, dev0, first, file.content);
      }
    }
  }

  lemma Ending(c: Config, s: State, dev0: seq<byte>, first: seq<byte>)
    requires Inv(c, s, dev0) && Drained(c, s) && c.chunks != [] && s.first == Some(first)
    ensures |s.dev| == |dev0| >= |Concat(c.chunks)| && |first| <= |s.dev|
    ensures Splice(s.dev, 0, first) == Splice(dev0, 0, Concat(c.chunks))
  {
    Finished(c, s, dev0);
    assert Holds(s.dev, dev0, c.chunks, OnDisk(s));
    hide Accounts, InUse, Placed, HashOrder, Off, Concat, Splice;
  }

  /** A write to the start, finished or torn, leaves everything behind it. */
  lemma StartWritten(c: Config, s: State, dev0: seq<byte>, first: seq<byte>, now: seq<byte>)
    requires Inv(c, s, dev0) && Drained(c, s) && c.chunks != [] && s.first == Some(first) && |now| == |s.dev|
    requires forall i | 0 <= i < |now| && !(0 <= i < 0 + |first|) :: now[i] == s.dev[i]
    ensures |Concat(c.chunks)| <= |dev0| && RestWritten(now, Splice(dev0, 0, Concat(c.chunks)), first)
  {
    Ending(c, s, dev0, first);
    var image := Splice(dev0, 0, Concat(c.chunks));
    assert forall o | |first| <= o < |now| :: Splice(s.dev, 0, first)[o] == s.dev[o];
    hide Inv, Drained, Concat, Splice;
  }
}
