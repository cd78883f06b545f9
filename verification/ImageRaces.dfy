/**
 * Runs of the image writer that end without the image on the device, although nothing fails and the hash is that of the
 * image: for every ring of three slots or more, and every image of more chunks than that.
 */
module ImageRaces {
  import opened Bytes
  import opened Options
  import opened ImageWrites
  import opened ImageRuns

  /** No write is synchronous, and none failed to be queued. */
  ghost predicate AllQueued(events: seq<Event>) {
    forall i | 0 <= i < |events| :: !IsSync(events[i])
  }

  /**
   * Completions are handled where the extraction thread polls for them: inside the call that writes a chunk, and in the
   * final drain.
   */
  ghost predicate Polled(c: Config, s: State, events: seq<Event>)
    requires Sized(c, s)
  {
    forall i | 0 <= i < |events| && events[i].Release? && After(c, s, events[..i]).Some? ::
      Polling(c, After(c, s, events[..i]).value)
  }

  ghost predicate Polling(c: Config, t: State) {
    t.acquired == t.submitted + 1 || t.submitted == |c.chunks|
  }

  ghost predicate Reached(c: Config, s: State, events: seq<Event>, t: State)
    requires Sized(c, s)
  {
    Sized(c, t) && After(c, s, events) == Some(t) && Polled(c, s, events)
  }

  lemma Do(c: Config, s: State, events: seq<Event>, t: State, e: Event)
    requires Sized(c, s) && Reached(c, s, events, t) && Enabled(c, t, e) && (e.Release? ==> Polling(c, t))
    ensures Reached(c, s, events + [e], Step(c, t, e))
    ensures AllQueued(events) && !IsSync(e) ==> AllQueued(events + [e])
  {
    var more, n := events + [e], |events|;
    assert more[..n] == events && more[n] == e && forall i | 0 <= i < n :: more[i] == events[i];
    assert forall i | 0 <= i < n :: more[..i] == events[..i];
    assert more[..n + 1] == more;
    AfterStep(c, s, more, n);
    hide After, Step, Enabled, Sized;
  }

  lemma Nothing(c: Config, s: State)
    requires Sized(c, s)
    ensures Reached(c, s, [], s) && AllQueued([])
  {
  }

  // ----- what single steps do -----

  lemma FillDoes(c: Config, s: State)
    requires Sized(c, s) && Enabled(c, s, Fill)
    ensures var r := Step(c, s, Fill);
      r == s.(slots := r.slots, acquired := s.acquired + 1, available := s.available - 1)
  {
    hide Splice, Off;
  }

  lemma CaptureDoes(c: Config, s: State)
    requires Sized(c, s) && Enabled(c, s, Capture)
    ensures c.chunks != []
    ensures var r := Step(c, s, Capture);
      && r == s.(hashed := r.hashed, first := r.first, released := r.released, available := s.available + 1,
                 submitted := 1, cursor := |c.chunks[0]|, next := |c.chunks[0]|, at := [0])
  {
    hide Splice, Off;
  }

  lemma SubmitDoes(c: Config, s: State)
    requires Sized(c, s) && Enabled(c, s, Submit)
    ensures s.submitted < |c.chunks| && |s.at| == s.submitted
    ensures Step(c, s, Submit)
            == s.(hashing := true, pending := s.pending + {s.submitted}, submitted := s.submitted + 1,
                  at := s.at + [s.next], next := s.next + |c.chunks[s.submitted]|)
  {
    hide Splice, Off;
  }

  lemma SubmitSyncDoes(c: Config, s: State)
    requires Sized(c, s) && Enabled(c, s, SubmitSync)
    ensures s.submitted < s.acquired && s.cursor + |c.chunks[s.submitted]| <= |s.dev|
    ensures var r, k := Step(c, s, SubmitSync), s.submitted;
      && r == s.(hashed := r.hashed, dev := Splice(s.dev, s.cursor, InSlot(c, s, k)), released := r.released,
                 available := s.available + 1, submitted := k + 1, at := r.at,
                 cursor := s.cursor + |c.chunks[k]|, next := r.next)
  {
    hide Splice, Off;
  }

  lemma HashDoneDoes(c: Config, s: State)
    requires Sized(c, s) && Enabled(c, s, HashDone)
    ensures var r := Step(c, s, HashDone); r == s.(hashing := false, hashed := r.hashed)
  {
    hide Splice, Off;
  }

  lemma LandDoes(c: Config, s: State, j: nat)
    requires Sized(c, s) && Enabled(c, s, Land(j))
    ensures 1 <= j < |s.at| && j < s.acquired && s.at[j] + |c.chunks[j]| <= |s.dev|
    ensures Step(c, s, Land(j)) == s.(dev := Splice(s.dev, s.at[j], InSlot(c, s, j)), pending := s.pending - {j},
                                      landed := s.landed + {j})
  {
    hide Splice, Off, InSlot;
  }

  lemma ReleaseDoes(c: Config, s: State, j: nat)
    requires Sized(c, s) && Enabled(c, s, Release(j))
    ensures Step(c, s, Release(j)) == s.(landed := s.landed - {j}, released := s.released + {j},
                                         available := s.available + 1)
  {
    hide Splice, Off;
  }

  /** When the steps are possible. */
  lemma CanFill(c: Config, s: State)
    requires Sized(c, s) && s.acquired == s.submitted < |c.chunks| && s.available > 0
    ensures Enabled(c, s, Fill)
  {
  }

  lemma CanSubmit(c: Config, s: State)
    requires Sized(c, s) && 1 <= s.submitted && s.acquired == s.submitted + 1 && !s.hashing
    requires s.submitted < |c.chunks| && s.next == Off(c.chunks, s.submitted)
    ensures Enabled(c, s, Submit)
  {
    OffStep(c.chunks, s.submitted);
    hide Off;
  }

  lemma CanSubmitSync(c: Config, s: State)
    requires Sized(c, s) && 1 <= s.submitted && s.acquired == s.submitted + 1 && !s.hashing
    requires s.submitted < |c.chunks| && s.cursor <= Off(c.chunks, s.submitted)
    ensures Enabled(c, s, SubmitSync)
  {
    OffStep(c.chunks, s.submitted);
    hide Off;
  }

  lemma CanHash(c: Config, s: State)
    requires Sized(c, s) && s.hashing && s.submitted > 0
    ensures Enabled(c, s, HashDone)
  {
  }

  lemma CanLand(c: Config, s: State, j: nat)
    requires Sized(c, s) && j in s.pending
    ensures Enabled(c, s, Land(j))
  {
  }

  lemma CanRelease(c: Config, s: State, j: nat)
    requires Sized(c, s) && j in s.landed && !s.hashing
    ensures Enabled(c, s, Release(j))
  {
  }

  // ----- rounds -----

  /**
   * Between rounds: `k` chunks were handed over, each but the last one is done with. With `stuck` the second chunk is
   * still in flight.
   */
  ghost predicate Line(c: Config, s: State, k: nat, stuck: bool) {
    && Sized(c, s) && c.n >= 3 && s.acquired == s.submitted == k && 2 <= k <= |c.chunks| && !s.hashing
    && s.next == Off(c.chunks, k) && |s.at| == k && (stuck ==> s.at[1] == Off(c.chunks, 1))
    && s.pending == (if stuck then {1} else {}) && s.landed == (if k == 2 then {} else {k - 1}) && (k == 2 ==> stuck)
    && s.available == if stuck && k > 2 then c.n - 2 else c.n - 1
  }

  /** The run up to the second chunk, which is on its way to the device. */
  lemma Opening(c: Config, s: State) returns (events: seq<Event>, t: State)
    requires Sized(c, s) && s == Start(c, s.slots, s.dev) && c.n >= 3 && |c.chunks| >= 3
    ensures Reached(c, s, events, t) && AllQueued(events) && Line(c, t, 2, true) && |t.dev| == |s.dev|
  {
    hide Reached, AllQueued, Step, Enabled, Sized, Line;
    Nothing(c, s);
    CanFill(c, s);
    Do(c, s, [], s, Fill);
    FillDoes(c, s);
    var s1 := Step(c, s, Fill);
    CanCapture(c, s1);
    Do(c, s, [] + [Fill], s1, Capture);
    CaptureDoes(c, s1);
    var s2 := Step(c, s1, Capture);
    FirstOff(c);
    CanFill(c, s2);
    Do(c, s, [] + [Fill] + [Capture], s2, Fill);
    FillDoes(c, s2);
    var s3 := Step(c, s2, Fill);
    CanSubmit(c, s3);
    Do(c, s, [] + [Fill] + [Capture] + [Fill], s3, Submit);
    SubmitDoes(c, s3);
    var s4 := Step(c, s3, Submit);
    CanHash(c, s4);
    events := [] + [Fill] + [Capture] + [Fill] + [Submit];
    Do(c, s, events, s4, HashDone);
    HashDoneDoes(c, s4);
    events, t := events + [HashDone], Step(c, s4, HashDone);
    LineIs(c, t, 2, true);
  }

  lemma CanCapture(c: Config, s: State)
    requires Sized(c, s) && s.submitted == 0 && s.acquired == 1
    ensures Enabled(c, s, Capture)
  {
  }

  lemma FirstOff(c: Config)
    requires |c.chunks| >= 2
    ensures Off(c.chunks, 1) == |c.chunks[0]| && Off(c.chunks, 2) == |c.chunks[0]| + |c.chunks[1]|
  {
  }

  lemma LineIs(c: Config, s: State, k: nat, stuck: bool)
    requires Sized(c, s) && c.n >= 3 && s.acquired == s.submitted == k && 2 <= k <= |c.chunks| && !s.hashing
    requires s.next == Off(c.chunks, k) && |s.at| == k && (stuck ==> s.at[1] == Off(c.chunks, 1))
    requires s.pending == (if stuck then {1} else {}) && (k == 2 ==> stuck)
    requires s.landed == if k == 2 then {} else {k - 1}
    requires s.available == if stuck && k > 2 then c.n - 2 else c.n - 1
    ensures Line(c, s, k, stuck)
  {
    hide Sized, Off;
  }

  lemma LineParts(c: Config, s: State, k: nat, stuck: bool)
    requires Line(c, s, k, stuck)
    ensures Sized(c, s) && c.n >= 3 && s.acquired == s.submitted == k && 2 <= k <= |c.chunks| && !s.hashing
    ensures s.next == Off(c.chunks, k) && |s.at| == k && (stuck ==> s.at[1] == Off(c.chunks, 1))
    ensures s.pending == (if stuck then {1} else {}) && (k == 2 ==> stuck)
    ensures s.landed == if k == 2 then {} else {k - 1}
    ensures s.available == if stuck && k > 2 then c.n - 2 else c.n - 1
  {
    hide Sized, Off;
  }

  /** Writing at or behind `o` leaves what is before. */
  lemma Before(dev: seq<byte>, o: nat, d: seq<byte>, limit: nat)
    requires limit <= o && o + |d| <= |dev|
    ensures forall i | 0 <= i < limit :: Splice(dev, o, d)[i] == dev[i]
  {
    forall i | 0 <= i < limit ensures Splice(dev, o, d)[i] == dev[i] {
      SpliceAt(dev, o, d, i);
    }
  }

  /** One chunk goes all the way to the device; the one before it is released inside the call that writes it. */
  lemma Round(c: Config, s: State, events: seq<Event>, t: State, k: nat, stuck: bool)
    returns (more: seq<Event>, r: State)
    requires Sized(c, s) && Reached(c, s, events, t) && AllQueued(events) && Line(c, t, k, stuck) && k < |c.chunks|
    ensures Reached(c, s, more, r) && AllQueued(more) && Line(c, r, k + 1, stuck) && |r.dev| == |t.dev|
    ensures forall i | 0 <= i < Off(c.chunks, k) && i < |t.dev| :: r.dev[i] == t.dev[i]
  {
    hide *;
    LineParts(c, t, k, stuck);
    CanFill(c, t);
    Do(c, s, events, t, Fill);
    FillDoes(c, t);
    more, r := events + [Fill], Step(c, t, Fill);
    NotSync(Fill);
    if k > 2 {
      PollingNow(c, r);
      CanRelease(c, r, k - 1);
      Do(c, s, more, r, Release(k - 1));
      ReleaseDoes(c, r, k - 1);
      more, r := more + [Release(k - 1)], Step(c, r, Release(k - 1));
      NotSync(Release(k - 1));
    }
    more, r := Finish(c, s, more, r, k);
    LineIs(c, r, k + 1, stuck);
  }

  /** The rest of a round: the chunk in the slot is handed over, hashed and lands. */
  lemma Finish(c: Config, s: State, events: seq<Event>, t: State, k: nat) returns (more: seq<Event>, r: State)
    requires Sized(c, s) && Reached(c, s, events, t) && AllQueued(events) && Sized(c, t)
    requires 1 <= k < |c.chunks| && t.submitted == k && t.acquired == k + 1 && !t.hashing && t.next == Off(c.chunks, k)
    requires |t.at| == k && k !in t.pending
    ensures Reached(c, s, more, r) && AllQueued(more) && |r.dev| == |t.dev| && Sized(c, r)
    ensures r == t.(hashed := r.hashed, submitted := k + 1, at := t.at + [t.next], next := Off(c.chunks, k + 1),
                    landed := t.landed + {k}, dev := r.dev)
    ensures forall i | 0 <= i < Off(c.chunks, k) && i < |t.dev| :: r.dev[i] == t.dev[i]
  {
    hide *;
    OffStep(c.chunks, k);
    CanSubmit(c, t);
    Do(c, s, events, t, Submit);
    SubmitDoes(c, t);
    NotSync(Submit);
    more, r := events + [Submit], Step(c, t, Submit);
    CanHash(c, r);
    Do(c, s, more, r, HashDone);
    HashDoneDoes(c, r);
    NotSync(HashDone);
    more, r := more + [HashDone], Step(c, r, HashDone);
    CanLand(c, r, k);
    Do(c, s, more, r, Land(k));
    LandDoes(c, r, k);
    NotSync(Land(k));
    Before(r.dev, r.at[k], InSlot(c, r, k), Off(c.chunks, k));
    more, r := more + [Land(k)], Step(c, r, Land(k));
    assert t.pending + {k} - {k} == t.pending;
  }

  lemma NotSync(e: Event)
    requires !e.SubmitSync? && !e.QueueFails?
    ensures !IsSync(e)
  {
  }

  lemma PollingNow(c: Config, t: State)
    requires t.acquired == t.submitted + 1 || t.submitted == |c.chunks|
    ensures Polling(c, t)
  {
  }

  /** Rounds for the chunks from `k` up to, but not including, `end`. */
  lemma {:induction false} Rounds(c: Config, s: State, events: seq<Event>, t: State, k: nat, end: nat, stuck: bool)
    returns (more: seq<Event>, r: State)
    requires Sized(c, s) && Reached(c, s, events, t) && AllQueued(events) && Line(c, t, k, stuck)
    requires k <= end <= |c.chunks|
    ensures Reached(c, s, more, r) && AllQueued(more) && Line(c, r, end, stuck) && |r.dev| == |t.dev|
    ensures forall i | 0 <= i < Off(c.chunks, k) && i < |t.dev| :: r.dev[i] == t.dev[i]
    decreases end - k
  {
    hide *;
    LineParts(c, t, k, stuck);
    if k == end {
      more, r := events, t;
    } else {
      more, r := Round(c, s, events, t, k, stuck);
      ghost var u := r;
      OffLe(c.chunks, k, k + 1);
      more, r := Rounds(c, s, more, r, k + 1, end, stuck);
    }
  }

  /**
   * The ring hands out the slot of the chunk in flight. Its write then takes the bytes of the new chunk to the device;
   * after that everything is as it would be without the delay.
   */
  lemma Overtake(c: Config, s: State, events: seq<Event>, t: State) returns (more: seq<Event>, r: State)
    requires Sized(c, s) && Reached(c, s, events, t) && AllQueued(events) && c.n + 1 < |c.chunks|
    requires Line(c, t, c.n + 1, true)
    ensures Reached(c, s, more, r) && AllQueued(more) && Line(c, r, c.n + 2, false) && |r.dev| == |t.dev|
    ensures Off(c.chunks, 1) + |c.chunks[1]| <= |r.dev|
    ensures var late := c.chunks[c.n + 1];
      forall i | 0 <= i < |c.chunks[1]| && i < |late| :: r.dev[Off(c.chunks, 1) + i] == late[i]
  {
    hide *;
    var n := c.n;
    LineParts(c, t, n + 1, true);
    CanFill(c, t);
    Do(c, s, events, t, Fill);
    FillDoes(c, t);
    NotSync(Fill);
    more, r := events + [Fill], Step(c, t, Fill);
    Overwrites(c, t);
    CanLand(c, r, 1);
    Do(c, s, more, r, Land(1));
    LandDoes(c, r, 1);
    NotSync(Land(1));
    WrongBytes(r.dev, Off(c.chunks, 1), InSlot(c, r, 1), c.chunks[n + 1]);
    more, r := more + [Land(1)], Step(c, r, Land(1));
    ghost var dev := r.dev;
    PollingNow(c, r);
    CanRelease(c, r, 1);
    Do(c, s, more, r, Release(1));
    ReleaseDoes(c, r, 1);
    NotSync(Release(1));
    more, r := more + [Release(1)], Step(c, r, Release(1));
    PollingNow(c, r);
    CanRelease(c, r, n);
    Do(c, s, more, r, Release(n));
    ReleaseDoes(c, r, n);
    NotSync(Release(n));
    more, r := more + [Release(n)], Step(c, r, Release(n));
    more, r := Finish(c, s, more, r, n + 1);
    LineIs(c, r, n + 2, false);
    OffStep(c.chunks, 1);
    OffLe(c.chunks, 2, n + 1);
  }

  lemma Overwrites(c: Config, t: State)
    requires Sized(c, t) && Enabled(c, t, Fill) && t.acquired == c.n + 1
    ensures c.n + 1 < |c.chunks| && 1 < Step(c, t, Fill).acquired && |InSlot(c, Step(c, t, Fill), 1)| == |c.chunks[1]|
    ensures forall i | 0 <= i < |c.chunks[1]| && i < |c.chunks[c.n + 1]| ::
              InSlot(c, Step(c, t, Fill), 1)[i] == c.chunks[c.n + 1][i]
  {
    SameSlot(c, c.n + 1);
    FilledSlot(c, t);
    FillFields(c, t);
    var r := Step(c, t, Fill);
    assert InSlot(c, r, 1) == r.slots[1 % c.n][..|c.chunks[1]|];
    assert InSlot(c, r, c.n + 1) == r.slots[1 % c.n][..|c.chunks[c.n + 1]|];
    hide Step, Sized, Enabled, InSlot;
    SamePrefix(r.slots[1 % c.n], |c.chunks[1]|, |c.chunks[c.n + 1]|);
  }

  lemma SamePrefix(s: seq<byte>, m: nat, n: nat)
    requires m <= |s| && n <= |s|
    ensures forall i | 0 <= i < m && i < n :: s[..m][i] == s[..n][i]
  {
  }

  lemma WrongBytes(dev: seq<byte>, o: nat, d: seq<byte>, e: seq<byte>)
    requires o + |d| <= |dev| && forall i | 0 <= i < |d| && i < |e| :: d[i] == e[i]
    ensures forall i | 0 <= i < |d| && i < |e| :: Splice(dev, o, d)[o + i] == e[i]
  {
    forall i | 0 <= i < |d| && i < |e| ensures Splice(dev, o, d)[o + i] == e[i] {
      SpliceAt(dev, o, d, o + i);
    }
  }

  /** The last chunk is released in the final drain. */
  lemma Drain(c: Config, s: State, events: seq<Event>, t: State) returns (more: seq<Event>, r: State)
    requires Sized(c, s) && Reached(c, s, events, t) && AllQueued(events) && Line(c, t, |c.chunks|, false)
    ensures Reached(c, s, more, r) && AllQueued(more) && Drained(c, r) && r.dev == t.dev
  {
    hide *;
    var m := |c.chunks|;
    LineParts(c, t, m, false);
    PollingNow(c, t);
    CanRelease(c, t, m - 1);
    Do(c, s, events, t, Release(m - 1));
    ReleaseDoes(c, t, m - 1);
    NotSync(Release(m - 1));
    more, r := events + [Release(m - 1)], Step(c, t, Release(m - 1));
    DrainedIs(c, r);
  }

  lemma DrainedIs(c: Config, s: State)
    requires s.submitted == |c.chunks| && !s.hashing && s.pending == {} && s.landed == {}
    ensures Drained(c, s)
  {
  }

  /** Chunk `k` of the image is at its place in the image. */
  lemma {:induction false} ConcatAt(chunks: seq<seq<byte>>, n: nat, k: nat, i: nat)
    requires k < n <= |chunks| && i < |chunks[k]|
    ensures |Concat(chunks[..n])| == Off(chunks, n) && Off(chunks, k) + i < Off(chunks, n)
    ensures Concat(chunks[..n])[Off(chunks, k) + i] == chunks[k][i]
  {
    ConcatSize(chunks, n);
    ConcatSize(chunks, n - 1);
    ConcatStep(chunks, n - 1);
    OffStep(chunks, n - 1);
    hide Concat, Off;
    if k < n - 1 {
      ConcatAt(chunks, n - 1, k, i);
    }
  }

  lemma {:induction false} ConcatSize(chunks: seq<seq<byte>>, n: nat)
    requires n <= |chunks|
    ensures |Concat(chunks[..n])| == Off(chunks, n)
  {
    if n > 0 {
      ConcatSize(chunks, n - 1);
      ConcatStep(chunks, n - 1);
      hide Concat;
    }
  }

  /** A device with another byte in the second chunk is not the image, whatever is put at its start. */
  lemma NotTheImage(c: Config, dev: seq<byte>, dev0: seq<byte>, i: nat)
    requires |c.chunks| >= 2 && Off(c.chunks, |c.chunks|) <= |dev| == |dev0| && i < |c.chunks[1]|
    requires Off(c.chunks, 1) + i < |dev| && dev[Off(c.chunks, 1) + i] != c.chunks[1][i]
    ensures |c.chunks[0]| <= |dev| && |Concat(c.chunks)| <= |dev0|
    ensures Splice(dev, 0, c.chunks[0]) != Splice(dev0, 0, Concat(c.chunks))
  {
    FirstOff(c);
    ConcatAt(c.chunks, |c.chunks|, 1, i);
    assert c.chunks[..|c.chunks|] == c.chunks;
    var o := Off(c.chunks, 1) + i;
    hide *;
    SpliceAt(dev, 0, c.chunks[0], o);
    SpliceAt(dev0, 0, Concat(c.chunks), o);
  }

  lemma NoFailures(events: seq<Event>)
    requires AllQueued(events)
    ensures Failures(events) == 0 && OneMode(events)
  {
    NoneFails(events);
  }

  lemma {:induction false} NoneFails(events: seq<Event>)
    requires forall i | 0 <= i < |events| :: !events[i].QueueFails?
    ensures Failures(events) == 0
  {
    if events != [] {
      NoneFails(events[..|events| - 1]);
    }
  }

  /**
   * A write overtaken by later ones. For every ring of three slots or more and every image in which the second chunk
   * and the one that gets its slot next differ somewhere, there is a run in which every write is queued and lands,
   * nothing fails, completions are handled only where the extraction thread polls, the hash is that of the image, and
   * the device is not.
   */
  lemma OutOfOrderCorrupts(c: Config, slots: seq<seq<byte>>, dev0: seq<byte>) returns (events: seq<Event>)
    requires Sized(c, Start(c, slots, dev0)) && c.n >= 3 && c.n + 2 <= |c.chunks|
    requires !Agree(c.chunks[c.n + 1], c.chunks[1])
    ensures After(c, Start(c, slots, dev0), events).Some?
    ensures AllQueued(events) && Polled(c, Start(c, slots, dev0), events) && Failures(events) == 0 && OneMode(events)
    ensures var end := After(c, Start(c, slots, dev0), events).value;
      && Drained(c, end) && end.hashed == Concat(c.chunks) && |c.chunks[0]| <= |end.dev| && |Concat(c.chunks)| <= |dev0|
      && Splice(end.dev, 0, c.chunks[0]) != Splice(dev0, 0, Concat(c.chunks))
  {
    hide *;
    var s, n, m := Start(c, slots, dev0), c.n, |c.chunks|;
    StartIs(c, slots, dev0);
    var i := Disagree(c.chunks[n + 1], c.chunks[1]);
    var t;
    events, t := Opening(c, s);
    events, t := Rounds(c, s, events, t, 2, n + 1, true);
    events, t := Overtake(c, s, events, t);
    ghost var dev := t.dev;
    events, t := Rounds(c, s, events, t, n + 2, m, false);
    OffStep(c.chunks, 1);
    OffLe(c.chunks, 2, n + 2);
    events, t := Drain(c, s, events, t);
    NotTheImage(c, t.dev, dev0, i);
    NoFailures(events);
    ReachedIs(c, s, events, t);
    HashIsOfImage(c, slots, dev0, events);
  }

  lemma ReachedIs(c: Config, s: State, events: seq<Event>, t: State)
    requires Sized(c, s) && Reached(c, s, events, t)
    ensures After(c, s, events) == Some(t) && Polled(c, s, events)
  {
    hide After, Polled;
  }

  lemma StartIs(c: Config, slots: seq<seq<byte>>, dev0: seq<byte>)
    requires Sized(c, Start(c, slots, dev0))
    ensures Start(c, slots, dev0).slots == slots && Start(c, slots, dev0).dev == dev0
    ensures Off(c.chunks, |c.chunks|) <= |dev0|
    ensures HashSound(c, Start(c, slots, dev0))
  {
    hide Off;
  }

  lemma Disagree(a: seq<byte>, b: seq<byte>) returns (i: nat)
    requires !Agree(a, b)
    ensures i < |a| && i < |b| && a[i] != b[i]
  {
    i :| 0 <= i < |a| && i < |b| && a[i] != b[i];
  }

  // ----- going back to synchronous writes -----

  /** The second chunk was written asynchronously and the others, up to chunk `k`, synchronously. */
  ghost predicate Lagging(c: Config, s: State, k: nat) {
    && Sized(c, s) && c.n >= 2 && s.acquired == s.submitted == k && 2 <= k <= |c.chunks| && !s.hashing
    && s.pending == {} && s.landed == {1} && s.available == c.n - 1
    && s.cursor + |c.chunks[1]| == Off(c.chunks, k)
  }

  lemma LaggingIs(c: Config, s: State, k: nat)
    requires Sized(c, s) && c.n >= 2 && s.acquired == s.submitted == k && 2 <= k <= |c.chunks| && !s.hashing
    requires s.pending == {} && s.landed == {1} && s.available == c.n - 1
    requires s.cursor + |c.chunks[1]| == Off(c.chunks, k)
    ensures Lagging(c, s, k)
  {
    hide Sized, Off;
  }

  lemma LaggingParts(c: Config, s: State, k: nat)
    requires Lagging(c, s, k)
    ensures Sized(c, s) && c.n >= 2 && s.acquired == s.submitted == k && 2 <= k <= |c.chunks| && !s.hashing
    ensures s.pending == {} && s.landed == {1} && s.available == c.n - 1
    ensures s.cursor + |c.chunks[1]| == Off(c.chunks, k)
  {
    hide Sized, Off;
  }

  lemma OpeningToSwitch(c: Config, s: State) returns (events: seq<Event>, t: State)
    requires Sized(c, s) && s == Start(c, s.slots, s.dev) && c.n >= 2 && |c.chunks| >= 3
    ensures Reached(c, s, events, t) && Failures(events) == 0 && Lagging(c, t, 2) && |t.dev| == |s.dev|
  {
    hide Reached, AllQueued, Step, Enabled, Sized, Lagging, Failures;
    Nothing(c, s);
    CanFill(c, s);
    Do(c, s, [], s, Fill);
    FillDoes(c, s);
    var s1 := Step(c, s, Fill);
    CanCapture(c, s1);
    Do(c, s, [] + [Fill], s1, Capture);
    CaptureDoes(c, s1);
    var s2 := Step(c, s1, Capture);
    FirstOff(c);
    CanFill(c, s2);
    Do(c, s, [] + [Fill] + [Capture], s2, Fill);
    FillDoes(c, s2);
    var s3 := Step(c, s2, Fill);
    events := [] + [Fill] + [Capture] + [Fill];
    events, t := Finish(c, s, events, s3, 1);
    NoFailures(events);
    LaggingIs(c, t, 2);
  }

  /** A chunk is written synchronously. */
  lemma SyncRound(c: Config, s: State, events: seq<Event>, t: State, k: nat) returns (more: seq<Event>, r: State)
    requires Sized(c, s) && Reached(c, s, events, t) && Failures(events) == 0 && Lagging(c, t, k) && k < |c.chunks|
    ensures Reached(c, s, more, r) && Failures(more) == 0 && Lagging(c, r, k + 1) && |r.dev| == |t.dev|
    ensures forall i | 0 <= i < t.cursor && i < |t.dev| :: r.dev[i] == t.dev[i]
    ensures t.cursor + |c.chunks[k]| == r.cursor <= |t.dev|
    ensures forall i | 0 <= i < |c.chunks[k]| :: r.dev[t.cursor + i] == c.chunks[k][i]
  {
    hide *;
    LaggingParts(c, t, k);
    CanFill(c, t);
    Do(c, s, events, t, Fill);
    FillDoes(c, t);
    FailuresStep(events, Fill);
    more, r := events + [Fill], Step(c, t, Fill);
    FilledSlot(c, t);
    OffStep(c.chunks, k);
    CanSubmitSync(c, r);
    Do(c, s, more, r, SubmitSync);
    SubmitSyncDoes(c, r);
    FailuresStep(more, SubmitSync);
    Before(r.dev, r.cursor, InSlot(c, r, k), r.cursor);
    WrongBytes(r.dev, r.cursor, InSlot(c, r, k), c.chunks[k]);
    more, r := more + [SubmitSync], Step(c, r, SubmitSync);
    LaggingIs(c, r, k + 1);
  }

  lemma FailuresStep(events: seq<Event>, e: Event)
    ensures Failures(events + [e]) == Failures(events) + if e.QueueFails? then 1 else 0
  {
    assert (events + [e])[..|events|] == events;
  }

  lemma {:induction false} SyncRounds(c: Config, s: State, events: seq<Event>, t: State, k: nat)
    returns (more: seq<Event>, r: State)
    requires Sized(c, s) && Reached(c, s, events, t) && Failures(events) == 0 && Lagging(c, t, k)
    ensures Reached(c, s, more, r) && Failures(more) == 0 && Lagging(c, r, |c.chunks|) && |r.dev| == |t.dev|
    ensures forall i | 0 <= i < t.cursor && i < |t.dev| :: r.dev[i] == t.dev[i]
    decreases |c.chunks| - k
  {
    hide *;
    LaggingParts(c, t, k);
    if k == |c.chunks| {
      more, r := events, t;
    } else {
      more, r := SyncRound(c, s, events, t, k);
      more, r := SyncRounds(c, s, more, r, k + 1);
    }
  }

  /**
   * Going back to synchronous writes after one asynchronous write: they continue where the last synchronous one ended.
   * For every ring of two slots or more and every image whose second and third chunk differ somewhere, nothing fails,
   * the hash is that of the image, and the device is not.
   */
  lemma SwitchCorrupts(c: Config, slots: seq<seq<byte>>, dev0: seq<byte>) returns (events: seq<Event>)
    requires Sized(c, Start(c, slots, dev0)) && c.n >= 2 && 3 <= |c.chunks| && !Agree(c.chunks[2], c.chunks[1])
    ensures After(c, Start(c, slots, dev0), events).Some?
    ensures Polled(c, Start(c, slots, dev0), events) && Failures(events) == 0
    ensures var end := After(c, Start(c, slots, dev0), events).value;
      && Drained(c, end) && end.hashed == Concat(c.chunks) && |c.chunks[0]| <= |end.dev| && |Concat(c.chunks)| <= |dev0|
      && Splice(end.dev, 0, c.chunks[0]) != Splice(dev0, 0, Concat(c.chunks))
  {
    hide *;
    var s, m := Start(c, slots, dev0), |c.chunks|;
    StartIs(c, slots, dev0);
    FirstOff(c);
    var i := Disagree(c.chunks[2], c.chunks[1]);
    var t;
    events, t := OpeningToSwitch(c, s);
    LaggingParts(c, t, 2);
    events, t := SyncRound(c, s, events, t, 2);
    events, t := SyncRounds(c, s, events, t, 3);
    LaggingParts(c, t, m);
    PollingNow(c, t);
    CanRelease(c, t, 1);
    Do(c, s, events, t, Release(1));
    ReleaseDoes(c, t, 1);
    FailuresStep(events, Release(1));
    events, t := events + [Release(1)], Step(c, t, Release(1));
    DrainedIs(c, t);
    NotTheImage(c, t.dev, dev0, i);
    ReachedIs(c, s, events, t);
    HashIsOfImage(c, slots, dev0, events);
  }
}
