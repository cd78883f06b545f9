/**
 * Writing an image: an extraction thread that fills ring slots, at most one hash task, and asynchronous writes that
 * land and complete in any order. The first chunk is withheld until everything else is on the device.
 */
module ImageWrites {
  import opened Arith
  import opened Bytes
  import opened Options

  /** The ring has `n` slots of `cap` bytes; the image comes in these chunks. */
  datatype Config = Config(n: nat, cap: nat, chunks: seq<seq<byte>>)

  datatype State = State(
    slots: seq<seq<byte>>,     // what the ring slots hold
    acquired: nat,             // slots taken so far: chunk `k` goes to slot `k % n`
    available: int,            // the ring only counts free slots, it does not know which they are
    submitted: nat,            // chunks handed over to be hashed and written
    hashing: bool,             // the hash task is busy with the last submitted chunk
    hashed: seq<byte>,         // what the hash has consumed
    pending: set<nat>,         // chunks whose write is in flight and reads their slot
    landed: set<nat>,          // chunks on the device whose completion is not handled yet
    released: set<nat>,        // chunks whose slot was given back
    extra: nat,                // slots given back a second time
    first: Option<seq<byte>>,  // the withheld chunk
    cursor: nat,               // where the next synchronous write goes
    next: nat,                 // where the next asynchronous write goes
    at: seq<nat>,              // where the chunks handed over were sent
    dev: seq<byte>)

  datatype Event =
    | Fill             // the extraction thread acquires a slot and fills it
    | Capture          // the first chunk is hashed, copied, and its slot given back
    | Submit           // a chunk goes to the hash task and, asynchronously, to the device
    | SubmitSync       // the same, synchronously
    // Queueing the write failed, perhaps after its place was taken: its callback gives the slot back, then it is
    // written synchronously and its slot given back once more.
    | QueueFails(late: bool)
    | HashDone
    | Land(j: nat)     // the device has the chunk
    | Release(j: nat)  // its completion callback waits for the hash and gives the slot back

  ghost predicate Sized(c: Config, s: State) {
    && c.n > 0 && |s.slots| == c.n && (forall i | 0 <= i < c.n :: |s.slots[i]| == c.cap)
    && (forall k | 0 <= k < |c.chunks| :: 0 < |c.chunks[k]| <= c.cap)
    && Off(c.chunks, |c.chunks|) <= |s.dev|
    && s.acquired <= |c.chunks| && s.submitted <= s.acquired <= s.submitted + 1
    && (forall j | j in s.pending || j in s.landed :: 1 <= j < s.submitted)
    && Positions(c, s)
  }

  /** Everything but the withheld chunk is sent behind it. */
  ghost predicate Positions(c: Config, s: State)
    requires s.submitted <= |c.chunks| && forall j | j in s.pending :: 1 <= j < s.submitted
  {
    && |s.at| == s.submitted
    && (s.submitted > 0 ==> |c.chunks[0]| <= s.cursor && |c.chunks[0]| <= s.next)
    && forall j | j in s.pending :: |c.chunks[0]| <= s.at[j] && s.at[j] + |c.chunks[j]| <= |s.dev|
  }

  /** Where chunk `k` goes on the device. */
  function Off(chunks: seq<seq<byte>>, k: nat): nat
    requires k <= |chunks|
  {
    if k == 0 then 0 else Off(chunks, k - 1) + |chunks[k - 1]|
  }

  lemma {:induction false} OffLe(chunks: seq<seq<byte>>, i: nat, k: nat)
    requires i <= k <= |chunks|
    ensures Off(chunks, i) <= Off(chunks, k)
  {
    if i < k {
      OffLe(chunks, i, k - 1);
    }
  }

  lemma {:induction false} OffStep(chunks: seq<seq<byte>>, k: nat)
    requires k < |chunks|
    ensures Off(chunks, k + 1) == Off(chunks, k) + |chunks[k]| <= Off(chunks, |chunks|)
  {
    OffLe(chunks, k + 1, |chunks|);
  }

  /** The chunk as it is in its slot at this moment. */
  ghost function InSlot(c: Config, s: State, j: nat): (r: seq<byte>)
    requires Sized(c, s) && j < s.acquired
    ensures |r| == |c.chunks[j]|
  {
    s.slots[j % c.n][..|c.chunks[j]|]
  }

  /** The device with the slot of chunk `j` written at `o`. */
  ghost function Put(c: Config, s: State, j: nat, o: nat): (r: seq<byte>)
    requires Sized(c, s) && j < s.acquired && o + |c.chunks[j]| <= |s.dev|
    ensures |r| == |s.dev|
  {
    Splice(s.dev, o, InSlot(c, s, j))
  }

  ghost predicate Enabled(c: Config, s: State, e: Event)
    requires Sized(c, s)
  {
    match e
    case Fill => s.acquired == s.submitted && s.acquired < |c.chunks| && s.available > 0
    case Capture => s.submitted == 0 && s.acquired == 1
    case Submit =>
      s.submitted >= 1 && s.acquired == s.submitted + 1 && !s.hashing && s.next + |c.chunks[s.submitted]| <= |s.dev|
    case SubmitSync | QueueFails(_) =>
      s.submitted >= 1 && s.acquired == s.submitted + 1 && !s.hashing && s.cursor + |c.chunks[s.submitted]| <= |s.dev|
    case HashDone => s.hashing && s.submitted > 0
    case Land(j) => j in s.pending
    case Release(j) => j in s.landed && (j + 1 < s.submitted || !s.hashing)
  }

  /** The next chunk put into the slot whose turn it is. */
  ghost function Filled(c: Config, s: State): (r: State)
    requires Sized(c, s) && Enabled(c, s, Fill)
    ensures Sized(c, r)
  {
    var i := s.acquired % c.n;
    s.(slots := s.slots[i := Splice(s.slots[i], 0, c.chunks[s.acquired])], acquired := s.acquired + 1,
       available := s.available - 1)
  }

  /** The next chunk hashed and written at once. */
  ghost function WrittenNow(c: Config, s: State): (r: State)
    requires Sized(c, s) && Enabled(c, s, SubmitSync)
    ensures Sized(c, r)
  {
    var k := s.submitted;
    var n := |c.chunks[k]|;
    s.(hashed := s.hashed + InSlot(c, s, k), dev := Put(c, s, k, s.cursor), released := s.released + {k},
       available := s.available + 1, submitted := k + 1, at := s.at + [s.cursor], cursor := s.cursor + n,
       next := s.next + n)
  }

  ghost function Step(c: Config, s: State, e: Event): (r: State)
    requires Sized(c, s) && Enabled(c, s, e)
    ensures Sized(c, r)
  {
    match e
    case Fill => Filled(c, s)
    case Capture =>
      s.(hashed := s.hashed + InSlot(c, s, 0), first := Some(InSlot(c, s, 0)), released := s.released + {0},
         available := s.available + 1, submitted := 1, cursor := |c.chunks[0]|, next := |c.chunks[0]|, at := [0])
    case Submit =>
      s.(hashing := true, pending := s.pending + {s.submitted}, submitted := s.submitted + 1,
         at := s.at + [s.next], next := s.next + |c.chunks[s.submitted]|)
    case SubmitSync =>
      WrittenNow(c, s)
    case QueueFails(late) =>
      var r := WrittenNow(c, s);
      r.(available := r.available + 1, extra := s.extra + 1,
         next := r.next + if late then |c.chunks[s.submitted]| else 0)
    case HashDone =>
      s.(hashing := false, hashed := s.hashed + InSlot(c, s, s.submitted - 1))
    case Land(j) =>
      s.(dev := Put(c, s, j, s.at[j]), pending := s.pending - {j}, landed := s.landed + {j})
    case Release(j) =>
      s.(landed := s.landed - {j}, released := s.released + {j}, available := s.available + 1)
  }

  // ----- the invariant -----

  /** The slot that the next chunk goes to is not in use: the chunk that was there has been released. */
  ghost predicate TargetFree(c: Config, s: State) {
    s.acquired >= c.n ==> s.acquired - c.n in s.released
  }

  /** What the step writes, now or later, goes where it belongs. */
  ghost predicate InPlace(c: Config, s: State, e: Event)
    requires s.submitted <= |c.chunks|
  {
    match e
    case Submit => s.next == Off(c.chunks, s.submitted)
    case SubmitSync | QueueFails(_) => s.cursor == Off(c.chunks, s.submitted)
    case _ => true
  }

  /** A slot is filled only when it is free, and a write goes only where it belongs. */
  ghost predicate Proper(c: Config, s: State, e: Event)
    requires s.submitted <= |c.chunks|
  {
    (e.Fill? ==> TargetFree(c, s)) && InPlace(c, s, e)
  }

  /** The chunks of `w` are on the device, and the rest of it is as it was. */
  ghost predicate Holds(dev: seq<byte>, dev0: seq<byte>, chunks: seq<seq<byte>>, w: set<nat>) {
    && |dev| == |dev0| && Off(chunks, |chunks|) <= |dev|
    && (forall j | j in w :: j < |chunks|)
    && (forall j | j in w ::
          var lo, hi := Off(chunks, j), Off(chunks, j) + |chunks[j]|;
          hi <= |dev| && dev[lo..hi] == chunks[j])
    && (forall o | 0 <= o < |dev| && (forall j | j in w :: !(Off(chunks, j) <= o < Off(chunks, j) + |chunks[j]|)) ::
          dev[o] == dev0[o])
  }

  /** The chunks whose write reached the device. */
  ghost function OnDisk(s: State): set<nat> {
    set j: nat | 0 < j < s.submitted && j !in s.pending
  }

  /** Every chunk handed over is in flight, landed or released, and the ring's count follows the releases. */
  ghost predicate Accounts(c: Config, s: State) {
    && (forall j | j in s.released :: j < s.submitted)
    && (forall j: nat | j < s.submitted :: j in s.released || j in s.pending || j in s.landed)
    && s.pending !! s.landed && s.pending !! s.released && s.landed !! s.released
    && (forall j: nat | j + c.n < s.acquired :: j in s.released)
    && s.available == c.n + s.extra - (s.acquired - |s.released|)
    && (s.hashing ==> s.submitted >= 2 && s.submitted - 1 !in s.released)
  }

  /** A slot is not overwritten before it is released. */
  ghost predicate InUse(c: Config, s: State) {
    && Sized(c, s)
    && forall j: nat | j < s.acquired && j !in s.released :: InSlot(c, s, j) == c.chunks[j]
  }

  /** What was handed over went, or is on its way, to where it belongs. */
  ghost predicate Placed(c: Config, s: State)
    requires Sized(c, s)
  {
    forall k | 1 <= k < s.submitted :: s.at[k] == Off(c.chunks, k)
  }

  /** The hash has consumed the chunks in their order. */
  ghost predicate HashOrder(c: Config, s: State)
    requires Sized(c, s) && (s.hashing ==> s.submitted > 0)
  {
    && s.hashed == Concat(c.chunks[..if s.hashing then s.submitted - 1 else s.submitted])
    && (s.first == if s.submitted > 0 then Some(c.chunks[0]) else None)
  }

  ghost predicate Inv(c: Config, s: State, dev0: seq<byte>) {
    && InUse(c, s) && Placed(c, s) && Accounts(c, s) && HashOrder(c, s)
    && Holds(s.dev, dev0, c.chunks, OnDisk(s))
  }

  lemma {:induction false} RegionsApart(chunks: seq<seq<byte>>, i: nat, j: nat)
    requires i < |chunks| && j < |chunks| && i != j
    ensures Off(chunks, i) + |chunks[i]| <= Off(chunks, j) || Off(chunks, j) + |chunks[j]| <= Off(chunks, i)
    ensures Off(chunks, i) + |chunks[i]| <= Off(chunks, |chunks|)
  {
    OffStep(chunks, i);
    OffStep(chunks, j);
    hide Off;
    if i < j {
      OffLe(chunks, i + 1, j);
    } else {
      OffLe(chunks, j + 1, i);
    }
  }

  /** One more chunk reaches the device, whatever the order. */
  lemma {:induction false} HoldsPut(dev: seq<byte>, dev0: seq<byte>, chunks: seq<seq<byte>>, w: set<nat>, j: nat)
    requires Holds(dev, dev0, chunks, w) && j < |chunks|
    ensures Off(chunks, j) + |chunks[j]| <= |dev|
    ensures Holds(Splice(dev, Off(chunks, j), chunks[j]), dev0, chunks, w + {j})
  {
    hide Off;
    OffStep(chunks, j);
    var o, d := Off(chunks, j), chunks[j];
    var r := Splice(dev, o, d);
    SpliceWritten(dev, o, d);
    forall i | i in w + {j}
      ensures Off(chunks, i) + |chunks[i]| <= |r| && r[Off(chunks, i)..Off(chunks, i) + |chunks[i]|] == chunks[i]
    {
      if i != j {
        RegionsApart(chunks, i, j);
        SpliceApart(dev, o, d, Off(chunks, i), Off(chunks, i) + |chunks[i]|);
      }
    }
    hide Splice;
    forall k | 0 <= k < |r| && (forall i | i in w + {j} :: !(Off(chunks, i) <= k < Off(chunks, i) + |chunks[i]|))
      ensures r[k] == dev0[k]
    {
      assert j in w + {j};
      SpliceAt(dev, o, d, k);
      assert forall i | i in w :: i in w + {j};
    }
  }

  lemma Init(c: Config, slots: seq<seq<byte>>, dev0: seq<byte>)
    requires c.n > 0 && |slots| == c.n && (forall i | 0 <= i < c.n :: |slots[i]| == c.cap)
    requires (forall k | 0 <= k < |c.chunks| :: 0 < |c.chunks[k]| <= c.cap) && Off(c.chunks, |c.chunks|) <= |dev0|
    ensures Inv(c, Start(c, slots, dev0), dev0)
  {
  }

  ghost function Start(c: Config, slots: seq<seq<byte>>, dev0: seq<byte>): State {
    State(slots, 0, c.n, 0, false, [], {}, {}, {}, 0, None, 0, 0, [], dev0)
  }

  lemma ModDiffers(j: nat, a: nat, n: nat)
    requires 0 < a - j < n
    ensures j % n != a % n
  {
    if j % n == a % n {
      var x, y := a / n, j / n;
      assert a == x * n + a % n && j == y * n + j % n;
      if x <= y {
        MulLe(x, y, n);
      } else {
        MulLe(y + 1, x, n);
        MulStep(y, n);
      }
    }
  }

  /** A chunk still in use is in another slot than the one that is filled next. */
  lemma SlotsDiffer(c: Config, s: State, j: nat)
    requires c.n > 0 && j < s.acquired && j !in s.released && TargetFree(c, s)
    requires forall j: nat | j + c.n < s.acquired :: j in s.released
    ensures j % c.n != s.acquired % c.n
  {
    ModDiffers(j, s.acquired, c.n);
  }

  lemma FilledSlot(c: Config, s: State)
    requires Sized(c, s) && Enabled(c, s, Fill)
    ensures InSlot(c, Step(c, s, Fill), s.acquired) == c.chunks[s.acquired]
  {
  }

  lemma OtherSlot(c: Config, s: State, j: nat)
    requires Sized(c, s) && Enabled(c, s, Fill) && j < s.acquired && j % c.n != s.acquired % c.n
    ensures InSlot(c, Step(c, s, Fill), j) == InSlot(c, s, j)
  {
  }

  lemma FillFields(c: Config, s: State)
    requires Sized(c, s) && Enabled(c, s, Fill)
    ensures var r := Step(c, s, Fill); r.acquired == s.acquired + 1 <= |c.chunks| && r.released == s.released
  {
  }

  lemma InvParts(c: Config, s: State, dev0: seq<byte>)
    requires Inv(c, s, dev0)
    ensures Sized(c, s) && InUse(c, s) && Accounts(c, s) && Placed(c, s) && HashOrder(c, s) && c.n > 0
    ensures Holds(s.dev, dev0, c.chunks, OnDisk(s)) && |s.dev| == |dev0|
  {
    hide Accounts, Placed, HashOrder, Off;
  }

  lemma SlotAfterFill(c: Config, s: State, j: nat)
    requires InUse(c, s) && Accounts(c, s) && Enabled(c, s, Fill) && TargetFree(c, s)
    requires j <= s.acquired && j !in s.released
    ensures j < Step(c, s, Fill).acquired <= |c.chunks| && InSlot(c, Step(c, s, Fill), j) == c.chunks[j]
  {
    FillFields(c, s);
    if j < s.acquired {
      assert InSlot(c, s, j) == c.chunks[j];
      SlotsDiffer(c, s, j);
      hide *;
      OtherSlot(c, s, j);
    } else {
      hide *;
      FilledSlot(c, s);
    }
  }

  lemma SlotsAfterFill(c: Config, s: State, dev0: seq<byte>)
    requires Inv(c, s, dev0) && Enabled(c, s, Fill) && TargetFree(c, s)
    ensures forall j: nat | j <= s.acquired && j !in s.released :: InSlot(c, Step(c, s, Fill), j) == c.chunks[j]
  {
    hide *;
    InvParts(c, s, dev0);
    FillFields(c, s);
    forall j: nat | j <= s.acquired && j !in s.released ensures InSlot(c, Step(c, s, Fill), j) == c.chunks[j] {
      SlotAfterFill(c, s, j);
    }
  }

  lemma FillAccounts(c: Config, s: State)
    requires Sized(c, s) && Accounts(c, s) && Enabled(c, s, Fill) && TargetFree(c, s)
    ensures Accounts(c, Step(c, s, Fill))
  {
    var r := Step(c, s, Fill);
    assert r.acquired == s.acquired + 1 && r.available == s.available - 1 && r.submitted == s.submitted;
    assert r.released == s.released && r.pending == s.pending && r.landed == s.landed && r.extra == s.extra;
    assert r.hashing == s.hashing;
    hide Step, Enabled, Sized;
  }

  lemma FillRest(c: Config, s: State)
    requires Sized(c, s) && Enabled(c, s, Fill)
    ensures var r := Step(c, s, Fill);
      && r.dev == s.dev && r.hashed == s.hashed && r.first == s.first
      && r.submitted == s.submitted && r.hashing == s.hashing
      && r.pending == s.pending && r.released == s.released && r.acquired == s.acquired + 1 && OnDisk(r) == OnDisk(s)
      && (Placed(c, s) ==> Placed(c, r))
  {
  }

  lemma FillHash(c: Config, s: State)
    requires Sized(c, s) && Accounts(c, s) && HashOrder(c, s) && Enabled(c, s, Fill) && TargetFree(c, s)
    ensures Accounts(c, Step(c, s, Fill)) && HashOrder(c, Step(c, s, Fill))
  {
    FillRest(c, s);
    FillAccounts(c, s);
    hide Concat, Accounts, Sized, Step, Enabled, OnDisk, Placed;
  }

  /** Filling a free slot leaves the chunks in use alone. */
  lemma FillInv(c: Config, s: State, dev0: seq<byte>)
    requires Inv(c, s, dev0) && Enabled(c, s, Fill) && TargetFree(c, s)
    ensures Inv(c, Step(c, s, Fill), dev0)
  {
    SlotsAfterFill(c, s, dev0);
    FillAccounts(c, s);
    FillRest(c, s);
    FillHash(c, s);
    hide Holds, Off, Concat, Accounts, Step, InSlot, OnDisk, Sized, Enabled, HashOrder, Placed;
  }

  lemma PlacedStays(c: Config, s: State, e: Event)
    requires Sized(c, s) && Placed(c, s) && Enabled(c, s, e) && InPlace(c, s, e) && !e.Fill?
    ensures Placed(c, Step(c, s, e))
  {
    hide Off, InSlot, Put, Splice;
  }

  lemma InUseStays(c: Config, s: State, e: Event)
    requires InUse(c, s) && Enabled(c, s, e) && !e.Fill?
    ensures InUse(c, Step(c, s, e))
  {
    var r := Step(c, s, e);
    assert r.slots == s.slots && s.released <= r.released && r.acquired == s.acquired;
    hide Step, Enabled, Off;
    forall j: nat | j < r.acquired && j !in r.released ensures InSlot(c, r, j) == c.chunks[j] {
      assert InSlot(c, s, j) == c.chunks[j];
    }
  }

  lemma AccountsStay(c: Config, s: State, e: Event)
    requires Sized(c, s) && Accounts(c, s) && Enabled(c, s, e) && !e.Fill?
    ensures Accounts(c, Step(c, s, e))
  {
    hide Accounts, Step, Enabled, Sized;
    match e
    case Capture | SubmitSync | QueueFails(_) => GiveBack(c, s, e);
    case Submit => QueueUp(c, s);
    case HashDone => HashEnds(c, s);
    case Land(j) => Lands(c, s, j);
    case Release(j) => Releases(c, s, j);
  }

  lemma GiveBack(c: Config, s: State, e: Event)
    requires Sized(c, s) && Accounts(c, s) && Enabled(c, s, e) && (e.Capture? || e.SubmitSync? || e.QueueFails?)
    ensures Accounts(c, Step(c, s, e))
  {
    var r, k := Step(c, s, e), s.submitted;
    assert r.released == s.released + {k} && r.pending == s.pending && r.landed == s.landed;
    assert r.acquired == s.acquired && r.submitted == k + 1 && r.hashing == s.hashing == false;
    assert r.available - r.extra == s.available - s.extra + 1;
    hide Step, Enabled, Sized;
    assert k !in s.released;
  }

  lemma QueueUp(c: Config, s: State)
    requires Sized(c, s) && Accounts(c, s) && Enabled(c, s, Submit)
    ensures Accounts(c, Step(c, s, Submit))
  {
    var r, k := Step(c, s, Submit), s.submitted;
    assert r == s.(hashing := true, pending := s.pending + {k}, submitted := k + 1, at := r.at, next := r.next);
    assert k >= 1 && k !in s.landed;
    hide Step, Enabled, Sized;
  }

  lemma HashEnds(c: Config, s: State)
    requires Sized(c, s) && Accounts(c, s) && Enabled(c, s, HashDone)
    ensures Accounts(c, Step(c, s, HashDone))
  {
    hide Sized, InSlot;
  }

  lemma Lands(c: Config, s: State, j: nat)
    requires Sized(c, s) && Accounts(c, s) && Enabled(c, s, Land(j))
    ensures Accounts(c, Step(c, s, Land(j)))
  {
    var r := Step(c, s, Land(j));
    assert r == s.(dev := r.dev, pending := s.pending - {j}, landed := s.landed + {j}) && j in s.pending;
    hide Step, Enabled, Sized;
  }

  lemma Releases(c: Config, s: State, j: nat)
    requires Sized(c, s) && Accounts(c, s) && Enabled(c, s, Release(j))
    ensures Accounts(c, Step(c, s, Release(j)))
  {
    var r := Step(c, s, Release(j));
    assert r == s.(landed := s.landed - {j}, released := s.released + {j}, available := s.available + 1);
    assert j in s.landed && (j + 1 < s.submitted || !s.hashing) && j < s.submitted;
    hide Step, Enabled, Sized;
    assert j !in s.released;
  }

  /** What a step does to the hash. */
  lemma HashFields(c: Config, s: State, e: Event)
    requires Sized(c, s) && Enabled(c, s, e) && !e.Fill?
    ensures var r, k := Step(c, s, e), s.submitted;
      if e.Capture? then k == 0 < s.acquired && r == r.(hashed := s.hashed + InSlot(c, s, 0), hashing := s.hashing,
                                                       first := Some(InSlot(c, s, 0)), submitted := 1)
      else if e.SubmitSync? || e.QueueFails? then
        0 < k < s.acquired && !s.hashing
        && r == r.(hashed := s.hashed + InSlot(c, s, k), hashing := false, first := s.first, submitted := k + 1)
      else if e.Submit? then
        0 < k && !s.hashing && r == r.(hashed := s.hashed, hashing := true, first := s.first, submitted := k + 1)
      else if e.HashDone? then
        s.hashing && 0 < k
        && r == r.(hashed := s.hashed + InSlot(c, s, k - 1), hashing := false, first := s.first, submitted := k)
      else r == r.(hashed := s.hashed, hashing := s.hashing, first := s.first, submitted := k)
  {
    hide Off, Splice, InSlot;
  }

  lemma HashNext(c: Config, s: State, k: nat)
    requires InUse(c, s) && Accounts(c, s) && k < s.acquired && k !in s.released
    ensures k < |c.chunks| && Concat(c.chunks[..k]) + InSlot(c, s, k) == Concat(c.chunks[..k + 1])
    ensures k == 0 ==> Concat(c.chunks[..k]) == [] && InSlot(c, s, k) == c.chunks[0]
  {
    ConcatStep(c.chunks, k);
  }

  lemma HashStays(c: Config, s: State, e: Event)
    requires InUse(c, s) && Accounts(c, s) && HashOrder(c, s) && Enabled(c, s, e) && !e.Fill?
    ensures Accounts(c, Step(c, s, e)) && HashOrder(c, Step(c, s, e))
  {
    AccountsStay(c, s, e);
    hide *;
    if e.Capture? || e.SubmitSync? || e.QueueFails? {
      HashGiven(c, s, e);
    } else if e.HashDone? {
      HashEnded(c, s);
    } else {
      HashAsBefore(c, s, e);
    }
  }

  lemma HashGiven(c: Config, s: State, e: Event)
    requires InUse(c, s) && Accounts(c, s) && HashOrder(c, s) && Enabled(c, s, e)
    requires e.Capture? || e.SubmitSync? || e.QueueFails?
    requires Accounts(c, Step(c, s, e))
    ensures HashOrder(c, Step(c, s, e))
  {
    HashFields(c, s, e);
    assert s.submitted !in s.released;
    HashNext(c, s, s.submitted);
    hide InUse, Accounts, Off, Concat, Splice, InSlot, Put, Step, Enabled, Sized, Positions, WrittenNow;
  }

  lemma HashEnded(c: Config, s: State)
    requires InUse(c, s) && Accounts(c, s) && HashOrder(c, s) && Enabled(c, s, HashDone)
    requires Accounts(c, Step(c, s, HashDone))
    ensures HashOrder(c, Step(c, s, HashDone))
  {
    HashFields(c, s, HashDone);
    assert s.submitted - 1 !in s.released;
    HashNext(c, s, s.submitted - 1);
    hide InUse, Accounts, Off, Concat, Splice, InSlot, Put, Step, Enabled, Sized, Positions, WrittenNow;
  }

  lemma HashAsBefore(c: Config, s: State, e: Event)
    requires Sized(c, s) && Accounts(c, s) && HashOrder(c, s)
    requires Enabled(c, s, e) && (e.Submit? || e.Land? || e.Release?)
    requires Accounts(c, Step(c, s, e))
    ensures HashOrder(c, Step(c, s, e))
  {
    HashFields(c, s, e);
    assert Step(c, s, e).hashing ==> Step(c, s, e).submitted > 0;
    hide Accounts, Off, Concat, Splice, InSlot, Put, Step, Enabled, Sized, Positions, WrittenNow;
  }

  /** The chunk that a step puts on the device, if it does. */
  ghost function Written(s: State, e: Event): set<nat> {
    match e
    case Land(j) => {j}
    case SubmitSync | QueueFails(_) => {s.submitted}
    case _ => {}
  }

  /** What a step does to the writes in flight. */
  lemma FlightFields(c: Config, s: State, e: Event)
    requires Sized(c, s) && Enabled(c, s, e) && !e.Fill?
    ensures var r, k := Step(c, s, e), s.submitted;
      if e.Capture? then k == 0 && r == r.(submitted := 1, pending := s.pending)
      else if e.Submit? then 0 < k && r == r.(submitted := k + 1, pending := s.pending + {k})
      else if e.SubmitSync? || e.QueueFails? then 0 < k && r == r.(submitted := k + 1, pending := s.pending)
      else if e.Land? then e.j in s.pending && 0 < e.j < k && r == r.(submitted := k, pending := s.pending - {e.j})
      else r == r.(submitted := k, pending := s.pending)
    ensures forall j | j in s.pending :: j < s.submitted
  {
    hide Off, Splice, InSlot;
  }

  lemma OnDiskStep(c: Config, s: State, e: Event)
    requires Sized(c, s) && Enabled(c, s, e) && !e.Fill?
    ensures OnDisk(Step(c, s, e)) == OnDisk(s) + Written(s, e)
  {
    FlightFields(c, s, e);
    hide Step, Enabled, Sized, Positions, InSlot;
    var r := Step(c, s, e);
    forall j: nat ensures j in OnDisk(r) <==> j in OnDisk(s) + Written(s, e) {
    }
  }

  lemma WrittenInUse(c: Config, s: State, e: Event, k: nat)
    requires InUse(c, s) && Accounts(c, s) && Enabled(c, s, e) && !e.Fill? && k in Written(s, e)
    ensures k < s.acquired <= |c.chunks| && InSlot(c, s, k) == c.chunks[k]
  {
    assert k !in s.released && k < s.acquired;
    hide Off, Splice, Accounts;
  }

  lemma WrittenThere(c: Config, s: State, e: Event, k: nat)
    requires Sized(c, s) && Placed(c, s) && Enabled(c, s, e) && InPlace(c, s, e) && k in Written(s, e) && k < s.acquired
    requires Off(c.chunks, k) + |c.chunks[k]| <= |s.dev|
    ensures Step(c, s, e).dev == Splice(s.dev, Off(c.chunks, k), InSlot(c, s, k))
  {
    hide Off, Splice, InSlot;
  }

  lemma DevStep(c: Config, s: State, e: Event)
    requires InUse(c, s) && Placed(c, s) && Accounts(c, s) && Enabled(c, s, e) && InPlace(c, s, e) && !e.Fill?
    ensures Written(s, e) == {} ==> Step(c, s, e).dev == s.dev
    ensures forall k | k in Written(s, e) ::
      && k < |c.chunks| && Written(s, e) == {k} && Off(c.chunks, k) + |c.chunks[k]| <= |s.dev|
      && Step(c, s, e).dev == Splice(s.dev, Off(c.chunks, k), c.chunks[k])
  {
    forall k | k in Written(s, e)
      ensures k < |c.chunks| && Off(c.chunks, k) + |c.chunks[k]| <= |s.dev|
      ensures Step(c, s, e).dev == Splice(s.dev, Off(c.chunks, k), c.chunks[k])
    {
      OffStep(c.chunks, k);
      WrittenInUse(c, s, e, k);
      WrittenThere(c, s, e, k);
    }
    hide Accounts, Off, Splice, InSlot, InUse, Sized, Placed, InPlace;
  }

  /** A write that lands, at once or later, adds its chunk. */
  lemma DeviceStays(c: Config, s: State, dev0: seq<byte>, e: Event)
    requires Inv(c, s, dev0) && Enabled(c, s, e) && InPlace(c, s, e) && !e.Fill?
    ensures var r := Step(c, s, e); Holds(r.dev, dev0, c.chunks, OnDisk(r))
  {
    OnDiskStep(c, s, e);
    DevStep(c, s, e);
    hide *;
    if k :| k in Written(s, e) {
      HoldsPut(s.dev, dev0, c.chunks, OnDisk(s), k);
    } else {
      assert Written(s, e) == {};
      assert OnDisk(s) + {} == OnDisk(s);
    }
  }

  lemma OtherInv(c: Config, s: State, dev0: seq<byte>, e: Event)
    requires Inv(c, s, dev0) && Enabled(c, s, e) && InPlace(c, s, e) && !e.Fill?
    ensures Inv(c, Step(c, s, e), dev0)
  {
    InUseStays(c, s, e);
    PlacedStays(c, s, e);
    HashStays(c, s, e);
    DeviceStays(c, s, dev0, e);
    hide InUse, Placed, Accounts, HashOrder, Holds, Step, Enabled;
  }

  /** Every step that fills only a free slot and sends its write to the right place keeps the invariant. */
  lemma StepInv(c: Config, s: State, dev0: seq<byte>, e: Event)
    requires Inv(c, s, dev0) && Enabled(c, s, e) && Proper(c, s, e)
    ensures Inv(c, Step(c, s, e), dev0)
  {
    assert (e.Fill? ==> TargetFree(c, s)) && InPlace(c, s, e);
    hide *;
    if e.Fill? {
      FillInv(c, s, dev0);
    } else {
      OtherInv(c, s, dev0, e);
    }
  }
}
