/** Whole runs of the image writer: which of them leave the image on the device, and which do not. */
module ImageRuns {
  import opened Arith
  import opened Bytes
  import opened Options
  import opened ChainWalks
  import opened ImageWrites

  /** The state after these events, if each of them was possible when it happened. */
  ghost function After(c: Config, s: State, events: seq<Event>): (r: Option<State>)
    requires Sized(c, s)
    ensures r.Some? ==> Sized(c, r.value)
  {
    if events == [] then Some(s)
    else
      var e := events[|events| - 1];
      match After(c, s, events[..|events| - 1])
      case None => None
      case Some(t) => if Enabled(c, t, e) then Some(Step(c, t, e)) else None
  }

  /** Every slot is free when it is filled, and every write goes where it belongs. */
  ghost predicate Careful(c: Config, s: State, events: seq<Event>)
    requires Sized(c, s)
  {
    forall i | 0 <= i < |events| && After(c, s, events[..i]).Some? ::
      Enabled(c, After(c, s, events[..i]).value, events[i]) ==> Proper(c, After(c, s, events[..i]).value, events[i])
  }

  lemma {:induction false} AfterStep(c: Config, s: State, events: seq<Event>, i: nat)
    requires Sized(c, s) && i < |events|
    ensures After(c, s, events[..i + 1]) ==
      match After(c, s, events[..i])
      case None => None
      case Some(t) => if Enabled(c, t, events[i]) then Some(Step(c, t, events[i])) else None
  {
    assert events[..i + 1][..i] == events[..i];
  }

  /** In every careful run, whatever its interleaving, the invariant holds throughout. */
  lemma {:induction false} RunInv(c: Config, s: State, dev0: seq<byte>, events: seq<Event>, i: nat)
    requires Inv(c, s, dev0) && Careful(c, s, events) && i <= |events| && After(c, s, events[..i]).Some?
    ensures Inv(c, After(c, s, events[..i]).value, dev0)
  {
    if i == 0 {
      assert events[..0] == [];
    } else {
      AfterStep(c, s, events, i - 1);
      RunInv(c, s, dev0, events, i - 1);
      assert Proper(c, After(c, s, events[..i - 1]).value, events[i - 1]);
      hide *;
      StepInv(c, After(c, s, events[..i - 1]).value, dev0, events[i - 1]);
    }
  }

  // ----- the hash, in every run -----

  /**
   * The chunk just filled and the chunk being hashed are in their slots, and the hash has consumed those before them.
   */
  ghost predicate HashSound(c: Config, s: State) {
    && Sized(c, s) && (s.hashing ==> s.submitted > 0) && HashOrder(c, s)
    && (s.acquired == s.submitted + 1 ==> InSlot(c, s, s.submitted) == c.chunks[s.submitted])
    && (s.hashing ==> InSlot(c, s, s.submitted - 1) == c.chunks[s.submitted - 1])
  }

  lemma HashSoundFill(c: Config, s: State)
    requires HashSound(c, s) && Enabled(c, s, Fill) && c.n >= 2
    ensures HashSound(c, Step(c, s, Fill))
  {
    FillFields(c, s);
    FillRest(c, s);
    FilledSlot(c, s);
    if s.hashing {
      ModDiffers(s.submitted - 1, s.acquired, c.n);
      OtherSlot(c, s, s.submitted - 1);
    }
    hide Step, Enabled, Sized, Positions, InSlot, Concat, OnDisk;
  }

  /** A chunk that is taken from its slot as it should be. */
  lemma Consumed(c: Config, s: State, k: nat)
    requires Sized(c, s) && k < s.acquired && InSlot(c, s, k) == c.chunks[k]
    ensures k < |c.chunks| && Concat(c.chunks[..k]) + InSlot(c, s, k) == Concat(c.chunks[..k + 1])
    ensures k == 0 ==> Concat(c.chunks[..k]) == [] && InSlot(c, s, k) == c.chunks[0]
  {
    ConcatStep(c.chunks, k);
  }

  lemma SlotsKept(c: Config, s: State, e: Event)
    requires Sized(c, s) && Enabled(c, s, e) && !e.Fill?
    ensures Step(c, s, e).acquired == s.acquired
    ensures forall j: nat | j < s.acquired :: InSlot(c, Step(c, s, e), j) == InSlot(c, s, j)
  {
    assert Step(c, s, e).slots == s.slots;
    hide Step, Enabled, Off;
  }

  lemma HashSoundStep(c: Config, s: State, e: Event)
    requires HashSound(c, s) && Enabled(c, s, e) && c.n >= 2
    ensures HashSound(c, Step(c, s, e))
  {
    if e.Fill? {
      HashSoundFill(c, s);
    } else {
      HashFields(c, s, e);
      SlotsKept(c, s, e);
      assert s.submitted <= s.acquired <= s.submitted + 1 && s.acquired <= |c.chunks|;
      if e.Capture? || e.SubmitSync? || e.QueueFails? {
        Consumed(c, s, s.submitted);
      } else if e.HashDone? {
        Consumed(c, s, s.submitted - 1);
      }
      SizedBounds(c, Step(c, s, e));
      hide Step, Enabled, Sized, Positions, InSlot, Concat, Put, WrittenNow, Off;
    }
  }

  lemma SizedBounds(c: Config, s: State)
    requires Sized(c, s)
    ensures s.submitted <= s.acquired <= s.submitted + 1 && s.acquired <= |c.chunks|
  {
  }

  /**
   * In every interleaving, also where writes are overtaken, fail to queue or go astray, the hash consumes the chunks in
   * stream order, as long as the ring has two slots or more.
   */
  lemma {:induction false} HashInOrder(c: Config, s: State, events: seq<Event>)
    requires HashSound(c, s) && c.n >= 2 && After(c, s, events).Some?
    ensures HashSound(c, After(c, s, events).value)
  {
    if events != [] {
      var n := |events| - 1;
      assert events[..n + 1] == events;
      AfterStep(c, s, events, n);
      HashInOrder(c, s, events[..n]);
      hide *;
      HashSoundStep(c, After(c, s, events[..n]).value, events[n]);
    }
  }

  /** At the end of every drained run the hash is that of the image. */
  lemma HashIsOfImage(c: Config, slots: seq<seq<byte>>, dev0: seq<byte>, events: seq<Event>)
    requires Sized(c, Start(c, slots, dev0)) && c.n >= 2 && After(c, Start(c, slots, dev0), events).Some?
    ensures var s := After(c, Start(c, slots, dev0), events).value;
      Drained(c, s) ==> s.hashed == Concat(c.chunks)
  {
    HashInOrder(c, Start(c, slots, dev0), events);
    assert c.chunks[..|c.chunks|] == c.chunks;
    hide After, Concat, Sized;
  }

  // ----- when slots are filled only when free -----

  /** Slots were given back in stream order, each of them once. */
  ghost predicate InOrder(s: State) {
    s.extra == 0 && forall i: nat, j: nat | i < j && j in s.released :: i in s.released
  }

  /** A ring that counts free slots hands out a free one as long as they come back in order. */
  lemma OrderedIsFree(c: Config, s: State)
    requires Sized(c, s) && Accounts(c, s) && InOrder(s) && s.available > 0
    ensures TargetFree(c, s)
  {
    var k := s.acquired - c.n;
    if k >= 0 && k !in s.released {
      assert forall j | j in s.released :: j < k;
      assert s.released <= Below(k);
      SubsetCard(s.released, Below(k));
      assert false;
    }
  }

  ghost predicate Agree(a: seq<byte>, b: seq<byte>) {
    forall i | 0 <= i < |a| && i < |b| :: a[i] == b[i]
  }

  /** Filling is harmless exactly when the slot is free, or holds a chunk that starts with the same bytes. */
  lemma FillIsSafe(c: Config, s: State, dev0: seq<byte>)
    requires Inv(c, s, dev0) && Enabled(c, s, Fill)
    ensures InUse(c, Step(c, s, Fill)) <==>
      TargetFree(c, s) || Agree(c.chunks[s.acquired], c.chunks[s.acquired - c.n])
  {
    hide *;
    InvParts(c, s, dev0);
    if TargetFree(c, s) {
      FillInv(c, s, dev0);
      InvParts(c, Step(c, s, Fill), dev0);
    } else {
      FillFields(c, s);
      NotFree(c, s);
      Overwritten(c, s);
      OthersStay(c, s);
      FilledInUse(c, s);
    }
  }

  // ----- filling slots, in every run -----

  /** Every chunk in use that the next filling overwrites starts with the same bytes as the new one. */
  ghost predicate SlotSafe(c: Config, s: State)
    requires s.acquired <= |c.chunks| && c.n > 0
  {
    s.acquired < |c.chunks| ==>
      forall j: nat | j < s.acquired && j !in s.released && j % c.n == s.acquired % c.n ::
        Agree(c.chunks[s.acquired], c.chunks[j])
  }

  /** In no state of the run a chunk in use has been overwritten. */
  ghost predicate AlwaysInUse(c: Config, s: State, events: seq<Event>)
    requires Sized(c, s)
  {
    forall k | 0 <= k <= |events| && After(c, s, events[..k]).Some? :: InUse(c, After(c, s, events[..k]).value)
  }

  ghost predicate FillsSafe(c: Config, s: State, events: seq<Event>)
    requires Sized(c, s)
  {
    forall k | 0 <= k < |events| && events[k].Fill? && After(c, s, events[..k]).Some? ::
      SlotSafe(c, After(c, s, events[..k]).value)
  }

  /** A filling of any slot, free or not, leaves the chunks in use intact exactly when it is safe. */
  lemma FillKeepsInUse(c: Config, s: State)
    requires InUse(c, s) && Enabled(c, s, Fill)
    ensures s.acquired < |c.chunks| && (InUse(c, Step(c, s, Fill)) <==> SlotSafe(c, s))
  {
    hide *;
    SizedInUse(c, s);
    FillFields(c, s);
    InUseIs(c, s);
    InUseIs(c, Step(c, s, Fill));
    SlotSafeIs(c, s);
    FilledSlot(c, s);
    forall j: nat | j < s.acquired && j !in s.released
      ensures InSlot(c, Step(c, s, Fill), j) == c.chunks[j] <==>
        j % c.n != s.acquired % c.n || Agree(c.chunks[s.acquired], c.chunks[j])
    {
      if j % c.n == s.acquired % c.n {
        FillsOver(c, s, j);
      } else {
        OtherSlot(c, s, j);
      }
    }
  }

  lemma InUseIs(c: Config, s: State)
    requires Sized(c, s)
    ensures c.n > 0 && s.acquired <= |c.chunks|
    ensures InUse(c, s) <==> forall j: nat | j < s.acquired && j !in s.released :: InSlot(c, s, j) == c.chunks[j]
  {
    hide InSlot, Off;
  }

  lemma SlotSafeIs(c: Config, s: State)
    requires s.acquired < |c.chunks| && c.n > 0
    ensures SlotSafe(c, s) <==>
      forall j: nat | j < s.acquired && j !in s.released ::
        j % c.n != s.acquired % c.n || Agree(c.chunks[s.acquired], c.chunks[j])
  {
    hide Agree;
  }

  lemma FillsOver(c: Config, s: State, j: nat)
    requires Sized(c, s) && Enabled(c, s, Fill) && j < s.acquired && j % c.n == s.acquired % c.n
    requires InSlot(c, s, j) == c.chunks[j]
    ensures s.acquired < |c.chunks|
    ensures InSlot(c, Step(c, s, Fill), j) == c.chunks[j] <==> Agree(c.chunks[s.acquired], c.chunks[j])
  {
    var a, b, slot := c.chunks[s.acquired], c.chunks[j], s.slots[s.acquired % c.n];
    assert InSlot(c, Step(c, s, Fill), j) == Splice(slot, 0, a)[..|b|] && slot[..|b|] == b;
    assert |a| <= |slot| && |b| <= |slot|;
    hide *;
    OverwrittenBytes(slot, a, b);
  }

  /**
   * In every run, whatever its interleaving, mode or failures: no chunk is overwritten while it is in use if and only
   * if every filling is safe when it happens.
   */
  lemma {:induction false} SlotsIntact(c: Config, s: State, events: seq<Event>)
    requires InUse(c, s) && After(c, s, events).Some?
    ensures AlwaysInUse(c, s, events) <==> FillsSafe(c, s, events)
  {
    hide *;
    SizedInUse(c, s);
    if events == [] {
      NoEvents(c, s, events);
    } else {
      var n := |events| - 1;
      assert events[..n + 1] == events && events == events[..n] + [events[n]];
      AfterStep(c, s, events, n);
      SlotsIntact(c, s, events[..n]);
      IntactStep(c, s, events[..n], events[n]);
    }
  }

  lemma SizedInUse(c: Config, s: State)
    requires InUse(c, s)
    ensures Sized(c, s) && c.n > 0 && s.acquired <= |c.chunks|
  {
    hide InSlot, Off;
  }

  lemma NoEvents(c: Config, s: State, events: seq<Event>)
    requires InUse(c, s) && events == []
    ensures AlwaysInUse(c, s, events) && FillsSafe(c, s, events)
  {
    hide InUse, Off;
  }

  lemma IntactStep(c: Config, s: State, before: seq<Event>, e: Event)
    requires Sized(c, s) && After(c, s, before).Some? && Enabled(c, After(c, s, before).value, e)
    requires After(c, s, before + [e]) == Some(Step(c, After(c, s, before).value, e))
    requires AlwaysInUse(c, s, before) <==> FillsSafe(c, s, before)
    ensures AlwaysInUse(c, s, before + [e]) <==> FillsSafe(c, s, before + [e])
  {
    hide *;
    var t := After(c, s, before).value;
    AlwaysStep(c, s, before, e);
    SafeStep(c, s, before, e);
    if AlwaysInUse(c, s, before) {
      LastInUse(c, s, before);
      if e.Fill? {
        FillKeepsInUse(c, t);
      } else {
        InUseStays(c, t, e);
      }
    }
  }

  lemma LastInUse(c: Config, s: State, events: seq<Event>)
    requires Sized(c, s) && AlwaysInUse(c, s, events) && After(c, s, events).Some?
    ensures InUse(c, After(c, s, events).value)
  {
    assert events[..|events|] == events;
    hide After, InUse, Off;
  }

  lemma AlwaysStep(c: Config, s: State, before: seq<Event>, e: Event)
    requires Sized(c, s) && After(c, s, before + [e]).Some?
    ensures AlwaysInUse(c, s, before + [e]) <==>
      AlwaysInUse(c, s, before) && InUse(c, After(c, s, before + [e]).value)
  {
    hide *;
    var events, n := before + [e], |before|;
    assert events[..n + 1] == events;
    if AlwaysInUse(c, s, events) {
      AlwaysAt(c, s, events, n + 1);
      forall k | 0 <= k <= n && After(c, s, before[..k]).Some? ensures InUse(c, After(c, s, before[..k]).value) {
        assert events[..k] == before[..k];
        AlwaysAt(c, s, events, k);
      }
      AlwaysIs(c, s, before);
    }
    if AlwaysInUse(c, s, before) && InUse(c, After(c, s, events).value) {
      forall k | 0 <= k <= n + 1 && After(c, s, events[..k]).Some? ensures InUse(c, After(c, s, events[..k]).value) {
        if k <= n {
          assert events[..k] == before[..k];
          AlwaysAt(c, s, before, k);
        }
      }
      AlwaysIs(c, s, events);
    }
  }

  lemma AlwaysAt(c: Config, s: State, events: seq<Event>, k: nat)
    requires Sized(c, s) && AlwaysInUse(c, s, events) && k <= |events| && After(c, s, events[..k]).Some?
    ensures InUse(c, After(c, s, events[..k]).value)
  {
    hide After, InUse, Sized;
  }

  lemma AlwaysIs(c: Config, s: State, events: seq<Event>)
    requires Sized(c, s)
    requires forall k | 0 <= k <= |events| && After(c, s, events[..k]).Some? :: InUse(c, After(c, s, events[..k]).value)
    ensures AlwaysInUse(c, s, events)
  {
    hide After, InUse, Sized;
  }

  lemma SafeStep(c: Config, s: State, before: seq<Event>, e: Event)
    requires Sized(c, s) && After(c, s, before).Some?
    ensures var t := After(c, s, before).value;
      && t.acquired <= |c.chunks| && c.n > 0
      && (FillsSafe(c, s, before + [e]) <==> FillsSafe(c, s, before) && (e.Fill? ==> SlotSafe(c, t)))
  {
    var events, n := before + [e], |before|;
    assert events[n] == e && events[..n] == before && forall k | 0 <= k < n :: events[k] == before[k];
    assert forall k | 0 <= k <= n :: events[..k] == before[..k];
    hide After, SlotSafe, Off;
  }

  lemma NotFree(c: Config, s: State)
    requires !TargetFree(c, s)
    ensures s.acquired >= c.n && s.acquired - c.n !in s.released
  {
  }

  /** With the slot of a chunk still in use overwritten, what is in use is right if that chunk is. */
  lemma FilledInUse(c: Config, s: State)
    requires Sized(c, s) && Enabled(c, s, Fill) && !TargetFree(c, s)
    requires forall j: nat | j <= s.acquired && j !in s.released && j != s.acquired - c.n ::
               InSlot(c, Step(c, s, Fill), j) == c.chunks[j]
    ensures InUse(c, Step(c, s, Fill)) <==>
      InSlot(c, Step(c, s, Fill), s.acquired - c.n) == c.chunks[s.acquired - c.n]
  {
    FillFields(c, s);
    hide Sized, Enabled, Step, InSlot;
  }

  lemma OthersStay(c: Config, s: State)
    requires InUse(c, s) && Accounts(c, s) && Enabled(c, s, Fill)
    ensures forall j: nat | j <= s.acquired && j !in s.released && j != s.acquired - c.n ::
              InSlot(c, Step(c, s, Fill), j) == c.chunks[j]
  {
    assert forall j: nat | j + c.n < s.acquired :: j in s.released;
    assert forall j: nat | j < s.acquired && j !in s.released :: InSlot(c, s, j) == c.chunks[j];
    forall j: nat | j <= s.acquired && j !in s.released && j != s.acquired - c.n
      ensures InSlot(c, Step(c, s, Fill), j) == c.chunks[j]
    {
      hide *;
      if j < s.acquired {
        ModDiffers(j, s.acquired, c.n);
        OtherSlot(c, s, j);
      } else {
        FilledSlot(c, s);
      }
    }
  }

  /** The chunk whose slot was overwritten is still there exactly if the new one starts with the same bytes. */
  lemma Overwritten(c: Config, s: State)
    requires InUse(c, s) && Enabled(c, s, Fill) && s.acquired >= c.n && s.acquired - c.n !in s.released
    ensures InSlot(c, Step(c, s, Fill), s.acquired - c.n) == c.chunks[s.acquired - c.n] <==>
            Agree(c.chunks[s.acquired], c.chunks[s.acquired - c.n])
  {
    SameSlot(c, s.acquired);
    var k := s.acquired - c.n;
    assert InSlot(c, s, k) == c.chunks[k];
    var a, b, slot := c.chunks[s.acquired], c.chunks[k], s.slots[s.acquired % c.n];
    assert InSlot(c, Step(c, s, Fill), k) == Splice(slot, 0, a)[..|b|] && slot[..|b|] == b;
    assert |a| <= |slot| && |b| <= |slot|;
    hide *;
    OverwrittenBytes(slot, a, b);
  }

  lemma OverwrittenBytes(slot: seq<byte>, a: seq<byte>, b: seq<byte>)
    requires |a| <= |slot| && |b| <= |slot| && slot[..|b|] == b
    ensures Splice(slot, 0, a)[..|b|] == b <==> Agree(a, b)
  {
    var r := Splice(slot, 0, a);
    assert forall i | 0 <= i < |b| :: slot[i] == b[i] by {
      assert forall i | 0 <= i < |b| :: slot[..|b|][i] == b[i];
    }
    assert forall i | 0 <= i < |b| :: r[i] == if i < |a| then a[i] else b[i];
    if r[..|b|] == b {
      forall i | 0 <= i < |a| && i < |b| ensures a[i] == b[i] {
        assert r[..|b|][i] == r[i];
      }
    }
  }

  lemma SameSlot(c: Config, k: nat)
    requires c.n > 0 && k >= c.n
    ensures (k - c.n) % c.n == k % c.n
  {
    var n, q, r := c.n, k / c.n, k % c.n;
    DivMulLe(k, n);
    assert k == q * n + r;
    MulStep(q - 1, n);
    if q == 0 {
      assert false;
    }
    DivModUnique(q - 1, r, n);
  }

  // ----- when writes go where they belong -----

  ghost predicate IsSync(e: Event) {
    e.SubmitSync? || e.QueueFails?
  }

  ghost predicate AnyQueued(events: seq<Event>) {
    exists i | 0 <= i < |events| :: events[i].Submit?
  }

  ghost predicate AnyLate(events: seq<Event>) {
    exists i | 0 <= i < |events| :: events[i] == QueueFails(true)
  }

  /**
   * No synchronous write comes after an asynchronous one, and no asynchronous one after a failure that had taken its
   * place.
   */
  ghost predicate OneMode(events: seq<Event>) {
    forall i, j | 0 <= i < j < |events| ::
      (events[i].Submit? ==> !IsSync(events[j])) && (events[i] == QueueFails(true) ==> !events[j].Submit?)
  }

  ghost predicate AllInPlace(c: Config, s: State, events: seq<Event>)
    requires Sized(c, s)
  {
    forall i | 0 <= i < |events| && After(c, s, events[..i]).Some? ::
      InPlace(c, After(c, s, events[..i]).value, events[i])
  }

  /** The two places where the next write can go, for a run that has been in place so far. */
  ghost predicate Heads(c: Config, t: State, queued: bool, late: bool)
    requires t.submitted <= |c.chunks|
  {
    var o := Off(c.chunks, t.submitted);
    && !(queued && late)
    && (t.submitted == 0 ==> !queued && !late)
    && (t.submitted > 0 ==> if queued then t.cursor < o else t.cursor == o)
    && (t.submitted > 0 ==> if late then t.next > o else t.next == o)
  }

  lemma HeadsStep(c: Config, t: State, e: Event, queued: bool, late: bool)
    requires Sized(c, t) && Enabled(c, t, e) && Heads(c, t, queued, late)
    ensures InPlace(c, t, e) <==> !(e.Submit? && late) && !(IsSync(e) && queued)
    ensures InPlace(c, t, e) ==> Heads(c, Step(c, t, e), queued || e.Submit?, late || e == QueueFails(true))
  {
    if e.Capture? {
      assert Off(c.chunks, 1) == Off(c.chunks, 0) + |c.chunks[0]|;
    } else if e.Submit? || IsSync(e) {
      OffStep(c.chunks, t.submitted);
    }
    hide Off, Splice, InSlot;
  }

  lemma InPlaceStep(c: Config, s: State, events: seq<Event>, e: Event)
    requires Sized(c, s) && After(c, s, events).Some?
    ensures AllInPlace(c, s, events + [e]) <==>
      AllInPlace(c, s, events) && InPlace(c, After(c, s, events).value, e)
  {
    var r, n := events + [e], |events|;
    assert r[..n] == events;
    assert forall i | 0 <= i < n :: r[..i] == events[..i] && r[i] == events[i];
    if AllInPlace(c, s, r) {
      assert InPlace(c, After(c, s, r[..n]).value, r[n]);
      forall i | 0 <= i < n && After(c, s, events[..i]).Some?
        ensures InPlace(c, After(c, s, events[..i]).value, events[i])
      {
        assert r[..i] == events[..i] && r[i] == events[i];
      }
    }
  }

  lemma {:induction false} HeadsRun(c: Config, s: State, events: seq<Event>)
    requires Sized(c, s) && s.submitted == 0 && After(c, s, events).Some? && AllInPlace(c, s, events)
    ensures Heads(c, After(c, s, events).value, AnyQueued(events), AnyLate(events))
  {
    if events != [] {
      var n := |events| - 1;
      var before, e := events[..n], events[n];
      assert events[..n + 1] == events;
      AfterStep(c, s, events, n);
      assert events == before + [e];
      InPlaceStep(c, s, before, e);
      hide *;
      HeadsRun(c, s, before);
      Grows(before, e);
      HeadsStep(c, After(c, s, before).value, e, AnyQueued(before), AnyLate(before));
    }
  }

  lemma Grows(events: seq<Event>, e: Event)
    ensures AnyQueued(events + [e]) == (AnyQueued(events) || e.Submit?)
    ensures AnyLate(events + [e]) == (AnyLate(events) || e == QueueFails(true))
    ensures OneMode(events + [e]) <==>
      OneMode(events) && !(e.Submit? && AnyLate(events)) && !(IsSync(e) && AnyQueued(events))
  {
    var r, n := events + [e], |events|;
    assert r[n] == e && forall i | 0 <= i < n :: r[i] == events[i];
    if OneMode(r) {
      forall i, j | 0 <= i < j < n
        ensures (events[i].Submit? ==> !IsSync(events[j])) && (events[i] == QueueFails(true) ==> !events[j].Submit?)
      {
        assert r[i] == events[i] && r[j] == events[j];
      }
    }
  }

  /**
   * A run sends every chunk where it belongs exactly when it does not go back to synchronous writes after an
   * asynchronous one, which does not move the position they use, and queues nothing after a late failure.
   */
  lemma {:induction false} InPlaceIffOneMode(c: Config, s: State, events: seq<Event>)
    requires Sized(c, s) && s.submitted == 0 && After(c, s, events).Some?
    ensures AllInPlace(c, s, events) <==> OneMode(events)
  {
    hide *;
    if events == [] {
      NothingHappens(c, s, events);
    } else {
      var n := |events| - 1;
      var before, e := events[..n], events[n];
      assert events[..n + 1] == events && events == before + [e];
      AfterStep(c, s, events, n);
      InPlaceIffOneMode(c, s, before);
      OneModeStep(c, s, before, e);
    }
  }

  lemma NothingHappens(c: Config, s: State, events: seq<Event>)
    requires Sized(c, s) && events == []
    ensures AllInPlace(c, s, events) && OneMode(events)
  {
  }

  lemma OneModeStep(c: Config, s: State, before: seq<Event>, e: Event)
    requires Sized(c, s) && s.submitted == 0 && After(c, s, before).Some? && Enabled(c, After(c, s, before).value, e)
    requires AllInPlace(c, s, before) <==> OneMode(before)
    ensures AllInPlace(c, s, before + [e]) <==> OneMode(before + [e])
  {
    hide *;
    Grows(before, e);
    InPlaceStep(c, s, before, e);
    if AllInPlace(c, s, before) {
      HeadsRun(c, s, before);
      HeadsStep(c, After(c, s, before).value, e, AnyQueued(before), AnyLate(before));
    }
  }

  // ----- the whole run -----

  /** One mode of writing and slots given back in order: the invariant holds to the end. */
  lemma {:induction false} SafeRun(c: Config, s: State, dev0: seq<byte>, events: seq<Event>)
    requires Inv(c, s, dev0) && s.submitted == 0 && After(c, s, events).Some? && OneMode(events)
    requires forall k | 0 <= k <= |events| && After(c, s, events[..k]).Some? :: InOrder(After(c, s, events[..k]).value)
    ensures Inv(c, After(c, s, events).value, dev0)
  {
    InPlaceIffOneMode(c, s, events);
    assert events[..|events|] == events;
    OrderedRun(c, s, dev0, events, |events|);
  }

  lemma {:induction false} OrderedRun(c: Config, s: State, dev0: seq<byte>, events: seq<Event>, i: nat)
    requires Inv(c, s, dev0) && i <= |events| && After(c, s, events[..i]).Some? && AllInPlace(c, s, events)
    requires forall k | 0 <= k <= |events| && After(c, s, events[..k]).Some? :: InOrder(After(c, s, events[..k]).value)
    ensures Inv(c, After(c, s, events[..i]).value, dev0)
  {
    if i == 0 {
      assert events[..0] == [];
    } else {
      AfterStep(c, s, events, i - 1);
      OrderedRun(c, s, dev0, events, i - 1);
      var t := After(c, s, events[..i - 1]).value;
      assert InPlace(c, t, events[i - 1]) && InOrder(t) && Accounts(c, t);
      if events[i - 1].Fill? {
        OrderedIsFree(c, t);
      }
      assert Proper(c, t, events[i - 1]);
      hide *;
      StepInv(c, t, dev0, events[i - 1]);
    }
  }

  /** In a run without asynchronous writes every chunk is done with as soon as it is handed over. */
  ghost predicate AllDone(s: State) {
    s.extra == 0 && forall j: nat :: j in s.released <==> j < s.submitted
  }

  lemma AllDoneStep(c: Config, s: State, e: Event)
    requires Sized(c, s) && Enabled(c, s, e) && AllDone(s) && s.pending == {} && s.landed == {}
    requires !e.Submit? && !e.QueueFails?
    ensures var r := Step(c, s, e); AllDone(r) && r.pending == {} && r.landed == {}
  {
    hide Off, Splice, InSlot;
  }

  lemma {:induction false} AllDoneRun(c: Config, s: State, events: seq<Event>, i: nat)
    requires Sized(c, s) && AllDone(s) && s.pending == {} && s.landed == {}
    requires i <= |events| && After(c, s, events[..i]).Some?
    requires forall k | 0 <= k < |events| :: !events[k].Submit? && !events[k].QueueFails?
    ensures var t := After(c, s, events[..i]).value; AllDone(t) && t.pending == {} && t.landed == {}
  {
    if i == 0 {
      assert events[..0] == [];
    } else {
      AfterStep(c, s, events, i - 1);
      AllDoneRun(c, s, events, i - 1);
      AllDoneStep(c, After(c, s, events[..i - 1]).value, events[i - 1]);
      hide After, AllDone, Step, Enabled, Sized;
    }
  }

  /** Purely synchronous runs are safe: nothing has to be asked of the order in which slots come back. */
  lemma SyncRun(c: Config, slots: seq<seq<byte>>, dev0: seq<byte>, events: seq<Event>)
    requires Sized(c, Start(c, slots, dev0)) && After(c, Start(c, slots, dev0), events).Some?
    requires forall k | 0 <= k < |events| :: !events[k].Submit? && !events[k].QueueFails?
    ensures Inv(c, After(c, Start(c, slots, dev0), events).value, dev0)
  {
    var s := Start(c, slots, dev0);
    Init(c, slots, dev0);
    forall k | 0 <= k <= |events| && After(c, s, events[..k]).Some?
      ensures InOrder(After(c, s, events[..k]).value)
    {
      AllDoneRun(c, s, events, k);
    }
    hide After, Inv, InOrder;
    SafeRun(c, s, dev0, events);
  }

  function Failures(events: seq<Event>): nat {
    if events == [] then 0
    else Failures(events[..|events| - 1]) + if events[|events| - 1].QueueFails? then 1 else 0
  }

  /** Slots are given back a second time exactly when queueing fails. */
  lemma {:induction false} ExtraReleases(c: Config, s: State, events: seq<Event>)
    requires Sized(c, s) && After(c, s, events).Some?
    ensures After(c, s, events).value.extra == s.extra + Failures(events)
  {
    if events != [] {
      var n := |events| - 1;
      assert events[..n + 1] == events;
      AfterStep(c, s, events, n);
      ExtraReleases(c, s, events[..n]);
      ExtraStep(c, After(c, s, events[..n]).value, events[n]);
      hide After;
    }
  }

  lemma ExtraStep(c: Config, s: State, e: Event)
    requires Sized(c, s) && Enabled(c, s, e)
    ensures Step(c, s, e).extra == s.extra + if e.QueueFails? then 1 else 0
  {
    hide Off, Splice, InSlot;
  }

  // ----- the device at the end -----

  /** Nothing is left to do but the first chunk. */
  ghost predicate Drained(c: Config, s: State) {
    s.submitted == |c.chunks| && !s.hashing && s.pending == {} && s.landed == {}
  }

  lemma HeldChunk(dev: seq<byte>, dev0: seq<byte>, chunks: seq<seq<byte>>, w: set<nat>, j: nat)
    requires Holds(dev, dev0, chunks, w) && j in w
    ensures j < |chunks| && Off(chunks, j) + |chunks[j]| <= |dev|
    ensures dev[Off(chunks, j)..Off(chunks, j) + |chunks[j]|] == chunks[j]
  {
    hide Off;
  }

  lemma Empty(chunks: seq<seq<byte>>)
    ensures Off(chunks, 0) == 0 && Concat(chunks[..0]) == []
  {
  }

  lemma Longer(dev: seq<byte>, lo: nat, hi: nat)
    requires lo <= hi <= |dev|
    ensures dev[..lo] + dev[lo..hi] == dev[..hi]
  {
  }

  lemma {:induction false} HeldPrefix(dev: seq<byte>, dev0: seq<byte>, chunks: seq<seq<byte>>, w: set<nat>, k: nat)
    requires Holds(dev, dev0, chunks, w) && k <= |chunks| && forall j: nat | j < |chunks| :: j in w
    ensures Off(chunks, k) <= |dev| && dev[..Off(chunks, k)] == Concat(chunks[..k])
  {
    hide *;
    Empty(chunks);
    if k > 0 {
      HeldPrefix(dev, dev0, chunks, w, k - 1);
      ConcatStep(chunks, k - 1);
      OffStep(chunks, k - 1);
      HeldChunk(dev, dev0, chunks, w, k - 1);
      Longer(dev, Off(chunks, k - 1), Off(chunks, k));
    }
  }

  lemma HeldTail(dev: seq<byte>, dev0: seq<byte>, chunks: seq<seq<byte>>, w: set<nat>)
    requires Holds(dev, dev0, chunks, w)
    ensures |dev| == |dev0| && Off(chunks, |chunks|) <= |dev|
    ensures dev[Off(chunks, |chunks|)..] == dev0[Off(chunks, |chunks|)..]
  {
    var n := Off(chunks, |chunks|);
    hide Off;
    forall o | n <= o < |dev| ensures dev[o] == dev0[o] {
      forall j | j in w ensures !(Off(chunks, j) <= o < Off(chunks, j) + |chunks[j]|) {
        OffStep(chunks, j);
      }
    }
  }

  /** With every chunk written the device is the image followed by what was there. */
  lemma HeldAll(dev: seq<byte>, dev0: seq<byte>, chunks: seq<seq<byte>>, w: set<nat>)
    requires Holds(dev, dev0, chunks, w) && forall j: nat | j < |chunks| :: j in w
    ensures |Concat(chunks)| <= |dev0| && dev == Splice(dev0, 0, Concat(chunks))
  {
    hide *;
    HeldPrefix(dev, dev0, chunks, w, |chunks|);
    HeldTail(dev, dev0, chunks, w);
    assert chunks[..|chunks|] == chunks;
    FromParts(dev, dev0, Concat(chunks));
  }

  lemma FromParts(dev: seq<byte>, dev0: seq<byte>, image: seq<byte>)
    requires |image| <= |dev| == |dev0| && dev[..|image|] == image && dev[|image|..] == dev0[|image|..]
    ensures dev == Splice(dev0, 0, image)
  {
    assert dev == dev[..|image|] + dev[|image|..];
  }

  lemma AllReleased(c: Config, s: State)
    requires Sized(c, s) && Accounts(c, s) && Drained(c, s) && c.chunks != []
    ensures (forall j: nat :: j in s.released <==> j < |c.chunks|) && s.available == c.n + s.extra
    ensures forall j: nat | j < |c.chunks| :: j in OnDisk(s) + {0}
  {
    assert s.released == Below(|c.chunks|) by {
      hide Sized;
    }
  }

  /**
   * The end of a drained run: the hash is that of the whole image in stream order, every slot was given back, once
   * unless queueing failed, and writing the withheld chunk to the start leaves the image, whatever the order in which
   * the writes landed.
   */
  lemma Finished(c: Config, s: State, dev0: seq<byte>)
    requires Inv(c, s, dev0) && Drained(c, s) && c.chunks != []
    ensures s.hashed == Concat(c.chunks) && s.first == Some(c.chunks[0])
    ensures (forall j: nat :: j in s.released <==> j < |c.chunks|) && s.available == c.n + s.extra
    ensures |c.chunks[0]| <= |s.dev| && |Concat(c.chunks)| <= |dev0|
    ensures Splice(s.dev, 0, s.first.value) == Splice(dev0, 0, Concat(c.chunks))
  {
    assert c.chunks[..|c.chunks|] == c.chunks;
    assert Holds(s.dev, dev0, c.chunks, OnDisk(s)) && Off(c.chunks, 0) == 0;
    AllReleased(c, s);
    assert s.hashed == Concat(c.chunks) && s.first == Some(c.chunks[0]);
    hide *;
    HoldsPut(s.dev, dev0, c.chunks, OnDisk(s), 0);
    HeldAll(Splice(s.dev, 0, c.chunks[0]), dev0, c.chunks, OnDisk(s) + {0});
  }

  // ----- the boot block -----

  /** In every run, careful or not, the start of the device stays as it was until the withheld chunk is written. */
  lemma {:induction false} StartStays(c: Config, s: State, events: seq<Event>, i: nat)
    requires Sized(c, s) && c.chunks != [] && i <= |events| && After(c, s, events[..i]).Some?
    ensures var t := After(c, s, events[..i]).value;
      && Sized(c, t) && |t.dev| == |s.dev| && |c.chunks[0]| <= |s.dev|
      && t.dev[..|c.chunks[0]|] == s.dev[..|c.chunks[0]|]
  {
    OffStep(c.chunks, 0);
    assert Off(c.chunks, 0) == 0;
    if i == 0 {
      assert events[..0] == [];
    } else {
      AfterStep(c, s, events, i - 1);
      StartStays(c, s, events, i - 1);
      StartStep(c, After(c, s, events[..i - 1]).value, events[i - 1]);
      hide After;
    }
  }

  /** With a first chunk of at least a block the zeroed boot block stays zero. */
  lemma BootBlockStaysZero(c: Config, s: State, events: seq<Event>, i: nat)
    requires Sized(c, s) && c.chunks != [] && i <= |events| && After(c, s, events[..i]).Some?
    requires |c.chunks[0]| >= 4096 && |s.dev| >= 4096 && s.dev[..4096] == Zeroes(4096)
    ensures var t := After(c, s, events[..i]).value; |t.dev| >= 4096 && t.dev[..4096] == Zeroes(4096)
  {
    StartStays(c, s, events, i);
    var a, b, n := After(c, s, events[..i]).value.dev, s.dev, |c.chunks[0]|;
    hide *;
    assert a[..n][..4096] == a[..4096] && b[..n][..4096] == b[..4096];
  }

  lemma {:induction false} StartStep(c: Config, s: State, e: Event)
    requires Sized(c, s) && Enabled(c, s, e) && c.chunks != []
    ensures var r := Step(c, s, e);
      && |r.dev| == |s.dev| && |c.chunks[0]| <= |s.dev| && r.dev[..|c.chunks[0]|] == s.dev[..|c.chunks[0]|]
  {
    OffStep(c.chunks, 0);
    assert Off(c.chunks, 0) == 0;
    if e.Land? || e.SubmitSync? || e.QueueFails? {
      var k := if e.Land? then e.j else s.submitted;
      var o, d, n := if e.Land? then s.at[e.j] else s.cursor, InSlot(c, s, k), |c.chunks[0]|;
      assert Step(c, s, e).dev == Splice(s.dev, o, d);
      hide *;
      SpliceApart(s.dev, o, d, 0, n);
      assert Splice(s.dev, o, d)[0..n] == Splice(s.dev, o, d)[..n] && s.dev[0..n] == s.dev[..n];
    }
  }

  // ----- padding -----

  /** What the extraction thread makes of what it read: zeroes up to a whole number of sectors. */
  function Padded(data: seq<byte>): (r: seq<byte>)
    ensures |r| % 512 == 0 && |data| <= |r| < |data| + 512 && r[..|data|] == data
    ensures forall cap: nat | |data| <= cap && cap % 512 == 0 :: |r| <= cap
  {
    if |data| % 512 == 0 then data else data + Zeroes(512 - |data| % 512)
  }

  function PaddedAll(pieces: seq<seq<byte>>): (r: seq<seq<byte>>)
    ensures |r| == |pieces| && forall k | 0 <= k < |r| :: r[k] == Padded(pieces[k])
  {
    seq(|pieces|, k requires 0 <= k < |pieces| => Padded(pieces[k]))
  }

  lemma PadsBehind(a: seq<byte>, b: seq<byte>)
    requires |a| % 512 == 0
    ensures Padded(a + b) == a + Padded(b)
    ensures |b| % 512 == 0 ==> |a + b| % 512 == 0
  {
    SameRest(|a|, |b|);
    var fill := if |b| % 512 == 0 then [] else Zeroes(512 - |b| % 512);
    assert Padded(b) == b + fill && Padded(a + b) == a + b + fill;
    hide Padded;
    assert a + b + fill == a + (b + fill);
  }

  lemma SameRest(m: nat, n: nat)
    requires m % 512 == 0
    ensures (m + n) % 512 == n % 512
  {
  }

  lemma PaddedFirst(pieces: seq<seq<byte>>, n: nat)
    requires n <= |pieces|
    ensures PaddedAll(pieces)[..n] == PaddedAll(pieces[..n])
    ensures Concat(PaddedAll([])) == Padded(Concat([])) == []
  {
  }

  /** When every read but the last is whole sectors, the chunks are the image with padding at its end only. */
  lemma {:induction false} PaddedAtTheEnd(pieces: seq<seq<byte>>)
    requires forall k | 0 <= k < |pieces| - 1 :: |pieces[k]| % 512 == 0
    ensures Concat(PaddedAll(pieces)) == Padded(Concat(pieces))
    ensures (forall k | 0 <= k < |pieces| :: |pieces[k]| % 512 == 0) ==> |Concat(pieces)| % 512 == 0
  {
    if pieces == [] {
      PaddedFirst(pieces, 0);
    } else {
      var n := |pieces| - 1;
      PaddedAtTheEnd(pieces[..n]);
      PaddedFirst(pieces, n);
      hide Padded, PaddedAll;
      ConcatStep(pieces, n);
      ConcatStep(PaddedAll(pieces), n);
      assert pieces[..n + 1] == pieces && PaddedAll(pieces)[..n + 1] == PaddedAll(pieces);
      hide Concat;
      PadsBehind(Concat(pieces[..n]), pieces[n]);
    }
  }

  /** `padded` is the image with the zeroes behind it that it takes to fill the last sector. */
  ghost predicate ZeroFilled(image: seq<byte>, padded: seq<byte>) {
    exists k | 0 <= k < 512 :: (|image| + k) % 512 == 0 && padded == image + Zeroes(k)
  }

  lemma PaddedIsFilled(image: seq<byte>)
    ensures ZeroFilled(image, Padded(image))
  {
    var k := if |image| % 512 == 0 then 0 else 512 - |image| % 512;
    LastSector(|image|, k);
    assert Padded(image) == image + Zeroes(k);
  }

  lemma LastSector(n: nat, k: nat)
    requires k == if n % 512 == 0 then 0 else 512 - n % 512
    ensures (n + k) % 512 == 0
  {
    assert n == 512 * (n / 512) + n % 512;
  }

  /**
   * The end of a drained run on what was read from an image: hash and device have the image, then the zeroes that fill
   * its last sector, and the device behind them has what was there before.
   */
  lemma FinishedImage(c: Config, s: State, dev0: seq<byte>, pieces: seq<seq<byte>>)
    requires Inv(c, s, dev0) && Drained(c, s) && pieces != [] && c.chunks == PaddedAll(pieces)
    requires forall k | 0 <= k < |pieces| - 1 :: |pieces[k]| % 512 == 0
    ensures ZeroFilled(Concat(pieces), s.hashed) && s.first.Some?
    ensures |s.first.value| <= |s.dev| && |s.hashed| <= |dev0|
    ensures Splice(s.dev, 0, s.first.value) == s.hashed + dev0[|s.hashed|..]
  {
    hide *;
    assert |c.chunks| == |pieces|;
    Finished(c, s, dev0);
    PaddedAtTheEnd(pieces);
    PaddedIsFilled(Concat(pieces));
    SpliceStart(dev0, s.hashed);
  }

  lemma SpliceStart(s: seq<byte>, d: seq<byte>)
    requires |d| <= |s|
    ensures Splice(s, 0, d) == d + s[|d|..]
  {
    assert s[..0] == [];
  }
}
