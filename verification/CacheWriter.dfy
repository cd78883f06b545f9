/**
 * The cache file writer: the download queues chunks, a second thread hashes and writes them. Every step below is what
 * one thread does without giving the other a chance to be seen in between.
 */
module CacheWriters {
  import opened Bytes
  import opened Options

  const MAX_ROUNDS := 10

  datatype Limits = Limits(size: nat, memory: nat)

  /** Where the download is. It waits for space in rounds of 50 ms, for 500 ms. */
  datatype Client = Idle | Waiting(data: seq<byte>, rounds: nat) | Joining | Stopping

  /** Where the writer thread is. */
  datatype Writer = Top | AtQueue | Holding(chunk: seq<byte>) | Hashed(chunk: seq<byte>) | AtCheck | Leaving | Done

  datatype State = State(
    queue: seq<seq<byte>>,
    client: Client,
    writer: Writer,
    hashed: seq<byte>,
    file: seq<byte>,
    active: bool,
    shouldStop: bool,
    hasError: bool,
    finishing: bool,
    removed: bool,               // cleaned up: the queue was cleared and the file removed
    emitted: Option<seq<byte>>,  // the bytes whose hash was reported as that of the finished file
    accepted: seq<seq<byte>>,    // the writes that returned true
    refused: bool,               // a write returned false while the file was open
    broke: bool)                 // the file system did not take all of a chunk

  datatype Event =
    | Write(data: seq<byte>) | Round          // `write`: the look at the flags, then one look at the queue
    | Finish | Join                           // `finish`: until it waits for the thread, and from then on
    | Cancel | CancelEnd                      // `cancel`, likewise
    | Begin | Take | Hash | Store(n: nat) | Check | Leave  // the thread; `n` bytes of the chunk were taken

  function Size(queue: seq<seq<byte>>): (r: nat)
    ensures r == |Concat(queue)|
  {
    |Concat(queue)|
  }

  predicate Full(l: Limits, queue: seq<seq<byte>>) {
    |queue| >= l.size || Size(queue) >= l.memory
  }

  predicate Enabled(s: State, e: Event) {
    match e
    case Write(_) => s.client.Idle?
    case Round => s.client.Waiting?
    case Finish => s.client.Idle? && s.active
    case Join => s.client.Joining? && s.writer.Done?
    case Cancel => s.client.Idle? && (s.active || !s.writer.Done?)
    case CancelEnd => s.client.Stopping?
    case Begin => s.writer.Top?
    case Take => s.writer.AtQueue? && (s.queue != [] || s.shouldStop || s.finishing)
    case Hash => s.writer.Holding?
    case Store(n) => s.writer.Hashed? && n <= |s.writer.chunk|
    case Check => s.writer.AtCheck?
    case Leave => s.writer.Leaving?
  }

  /** Cleaning up, by the thread or by the canceller. */
  function CleanedUp(s: State): State {
    s.(queue := [], removed := true)
  }

  /** One look at the queue. */
  function AfterRound(l: Limits, s: State): State
    requires s.client.Waiting?
  {
    var d := s.client.data;
    if !Full(l, s.queue) then s.(queue := s.queue + [d], accepted := s.accepted + [d], client := Idle) else Waited(s)
  }

  /** A look at a full queue. */
  function Waited(s: State): State
    requires s.client.Waiting?
  {
    if s.client.rounds >= MAX_ROUNDS then s.(hasError := true, refused := true, client := Idle)
    else if s.shouldStop || s.hasError then s.(refused := true, client := Idle)
    else s.(client := Waiting(s.client.data, s.client.rounds + 1))
  }

  function Step(l: Limits, s: State, e: Event): State
    requires Enabled(s, e)
  {
    match e
    case Write(d) =>
      if !s.active || s.hasError || s.shouldStop then s.(refused := s.refused || s.active)
      else s.(client := Waiting(d, 0))
    case Round =>
      AfterRound(l, s)
    case Finish =>
      s.(finishing := true, client := Joining)
    case Join =>
      s.(emitted := if s.hasError then None else Some(s.hashed), active := false, client := Idle)
    case Cancel =>
      s.(shouldStop := true, client := Stopping)
    case CancelEnd =>
      (if s.writer.Done? then CleanedUp(s) else s).(active := false, client := Idle)
    case Begin =>
      s.(writer := if s.shouldStop then Leaving else AtQueue)
    case Take =>
      if s.queue == [] then s.(writer := AtCheck) else s.(writer := Holding(s.queue[0]), queue := s.queue[1..])
    case Hash =>
      s.(writer := Hashed(s.writer.chunk), hashed := s.hashed + s.writer.chunk)
    case Store(n) =>
      var r := s.(file := s.file + s.writer.chunk[..n]);
      if n < |s.writer.chunk| then r.(hasError := true, broke := true, writer := Leaving) else r.(writer := AtCheck)
    case Check =>
      s.(writer := if s.finishing && s.queue == [] then Leaving else Top)
    case Leave =>
      (if s.shouldStop || s.hasError then CleanedUp(s) else s).(writer := Done)
  }

  function Opened(): State {
    State([], Idle, Top, [], [], true, false, false, false, false, None, [], false, false)
  }

  // ----- a write does not block the download -----

  /**
   * A look at the queue ends the write or leaves it waiting for one round more, of at most ten: it is queued when there
   * is room, and refused otherwise, for good when the rounds are used up.
   */
  lemma RoundEnds(l: Limits, s: State)
    requires Enabled(s, Round) && s.client.rounds <= 10
    ensures var r, d := Step(l, s, Round), s.client.data;
      && (r.client.Idle? || (r.client == Waiting(d, s.client.rounds + 1) && s.client.rounds < 10))
      && (r.accepted == s.accepted + [d] && r.queue == s.queue + [d] <==>
            |s.queue| < l.size && |Concat(s.queue)| < l.memory)
      && (r.client.Idle? && r.accepted == s.accepted ==> r.refused && (s.shouldStop || r.hasError))
  {
    assert |s.accepted + [s.client.data]| == |s.accepted| + 1;
    assert s.client.Waiting?;
    hide *;
    RoundIs(l, s);
    FullIs(l, s.queue);
    if Full(l, s.queue) {
      RoundFields(l, s);
      assert |s.accepted + [s.client.data]| == |s.accepted| + 1;
    }
    LookEnds(l, s);
  }

  lemma LookEnds(l: Limits, s: State)
    requires s.client.Waiting? && s.client.rounds <= 10
    ensures var r, d := AfterRound(l, s), s.client.data;
      && (r.client.Idle? || (r.client == Waiting(d, s.client.rounds + 1) && s.client.rounds < 10))
      && (!Full(l, s.queue) ==> r.accepted == s.accepted + [d] && r.queue == s.queue + [d])
      && (Full(l, s.queue) && r.client.Idle? ==> r.refused && (s.shouldStop || r.hasError))
  {
    hide *;
    RoundFields(l, s);
    if Full(l, s.queue) {
      FullLook(l, s);
      WaitedEnds(s);
    }
  }

  lemma FullLook(l: Limits, s: State)
    requires s.client.Waiting? && Full(l, s.queue)
    ensures AfterRound(l, s) == Waited(s)
  {
    hide Full, Waited, Concat;
  }

  lemma WaitedEnds(s: State)
    requires s.client.Waiting? && s.client.rounds <= 10
    ensures var r := Waited(s);
      if r.client.Idle? then r.refused && (s.shouldStop || r.hasError)
      else r.client == Waiting(s.client.data, s.client.rounds + 1) && s.client.rounds < 10
  {
    var r := Waited(s);
    assert MAX_ROUNDS == 10;
    if s.client.rounds < 10 && !s.shouldStop && !s.hasError {
      assert r == s.(client := Waiting(s.client.data, s.client.rounds + 1));
      hide *;
    } else {
      assert r.client == Idle && r.refused;
      hide *;
    }
  }

  lemma FullIs(l: Limits, queue: seq<seq<byte>>)
    ensures Full(l, queue) <==> !(|queue| < l.size && |Concat(queue)| < l.memory)
  {
    hide Concat;
  }

  /** The session has failed, was stopped or has ended, and no write is under way. */
  predicate Shut(s: State) {
    (s.hasError || s.shouldStop || !s.active) && !s.client.Waiting?
  }

  /** A write to an open session that has neither failed nor was stopped looks at the queue; any other is refused. */
  lemma WriteBegins(l: Limits, s: State, d: seq<byte>)
    requires Enabled(s, Write(d))
    ensures var r := Step(l, s, Write(d));
      && r.accepted == s.accepted && r.queue == s.queue
      && (r.client == Waiting(d, 0) <==> !Shut(s)) && (r.client != Waiting(d, 0) ==> r.client.Idle?)
      && (Shut(s) && s.active ==> r.refused)
  {
    hide Full, AfterRound, Concat;
  }

  lemma ShutStep(l: Limits, s: State, e: Event)
    requires Shut(s) && Enabled(s, e)
    ensures Shut(Step(l, s, e)) && Step(l, s, e).accepted == s.accepted && |Step(l, s, e).queue| <= |s.queue|
  {
    if OfThread(e) {
      ShutThread(l, s, e);
    } else {
      ShutClient(l, s, e);
    }
    hide *;
  }

  lemma ShutThread(l: Limits, s: State, e: Event)
    requires Shut(s) && Enabled(s, e) && OfThread(e)
    ensures Shut(Step(l, s, e)) && Step(l, s, e).accepted == s.accepted && |Step(l, s, e).queue| <= |s.queue|
  {
    hide Full, AfterRound, Concat;
  }

  lemma ShutClient(l: Limits, s: State, e: Event)
    requires Shut(s) && Enabled(s, e) && !OfThread(e)
    ensures Shut(Step(l, s, e)) && Step(l, s, e).accepted == s.accepted && |Step(l, s, e).queue| <= |s.queue|
  {
    hide Full, AfterRound, Concat;
  }

  /** After an error, a stop or the end nothing more is accepted or queued, whatever is written. */
  lemma {:induction false} NothingAccepted(l: Limits, s: State, events: seq<Event>)
    requires Shut(s) && After(l, s, events).Some?
    ensures var t := After(l, s, events).value;
      Shut(t) && t.accepted == s.accepted && |t.queue| <= |s.queue|
  {
    if events != [] {
      var n := |events| - 1;
      NothingAccepted(l, s, events[..n]);
      ShutStep(l, After(l, s, events[..n]).value, events[n]);
      hide Shut, Step, Enabled;
    }
  }

  // ----- what every step keeps -----

  /** The chunk taken off the queue whose bytes are not hashed yet, or not in the file yet. */
  function Unhashed(w: Writer): seq<byte> {
    if w.Holding? then w.chunk else []
  }

  function Unwritten(w: Writer): seq<byte> {
    if w.Hashed? then w.chunk else []
  }

  /** The hash has consumed the accepted bytes in their order, and the rest is in flight or queued. */
  ghost predicate HashConserved(s: State) {
    && (!s.removed ==> s.hashed + Unhashed(s.writer) + Concat(s.queue) == Concat(s.accepted))
    && |s.hashed| <= |Concat(s.accepted)| && s.hashed == Concat(s.accepted)[..|s.hashed|]
  }

  /** The file holds what was hashed, but for the chunk being written. */
  ghost predicate FileConserved(s: State) {
    !s.broke ==> s.hashed == s.file + Unwritten(s.writer)
  }

  /** The queue stays in its limits; its last chunk may reach over the one on memory. */
  ghost predicate Bounded(l: Limits, s: State) {
    && |s.queue| <= l.size
    && (s.queue != [] ==> Size(s.queue[..|s.queue| - 1]) < l.memory)
  }

  ghost predicate Flags(s: State) {
    && (s.hasError ==> s.refused || s.broke)
    && (s.refused ==> s.hasError || s.shouldStop)
    && (s.broke ==> s.hasError)
    && (s.removed ==> s.hasError || s.shouldStop)
    && (s.shouldStop ==> s.client.Stopping? || !s.active) && (s.client.Stopping? ==> s.shouldStop)
    && (s.client.Joining? ==> s.active && s.finishing && !s.shouldStop)
    && (s.client.Waiting? ==> s.active)
    && (s.finishing ==> s.client.Joining? || !s.active)
    && (s.writer.Leaving? || s.writer.Done? ==> s.hasError || s.shouldStop || (s.finishing && s.queue == []))
    && (s.removed ==> s.writer.Done?) && (s.writer.Done? && s.hasError ==> s.removed)
    && (s.shouldStop && s.writer.Done? && !s.client.Stopping? ==> s.removed && s.queue == [])
  }

  /**
   * Only a complete file is reported: nothing was refused, the hash and the file are of all accepted bytes, and the
   * file is still there.
   */
  ghost predicate Reported(s: State) {
    s.emitted.Some? ==>
      && s.emitted.value == Concat(s.accepted) == s.file
      && !s.refused && !s.broke && !s.active && s.queue == [] && s.writer.Done? && s.client.Idle? && !s.removed
  }

  ghost predicate Inv(l: Limits, s: State) {
    HashConserved(s) && FileConserved(s) && Bounded(l, s) && Flags(s) && Reported(s)
  }

  lemma OpenedIsValid(l: Limits)
    ensures Inv(l, Opened())
  {
  }

  lemma FlagsStep(l: Limits, s: State, e: Event)
    requires Flags(s) && Enabled(s, e)
    ensures Flags(Step(l, s, e))
  {
    if OfThread(e) {
      FlagsThread(l, s, e);
    } else if e.Round? {
      FlagsRound(l, s);
    } else {
      FlagsClient(l, s, e);
    }
    hide *;
  }

  /** The steps that the thread takes. */
  predicate OfThread(e: Event) {
    e.Begin? || e.Take? || e.Hash? || e.Store? || e.Check? || e.Leave?
  }

  lemma FlagsThread(l: Limits, s: State, e: Event)
    requires Flags(s) && Enabled(s, e) && OfThread(e)
    ensures Flags(Step(l, s, e))
  {
    hide Full, AfterRound, Concat;
  }

  lemma FlagsRound(l: Limits, s: State)
    requires Flags(s) && Enabled(s, Round)
    ensures Flags(Step(l, s, Round))
  {
    hide Full;
    RoundIs(l, s);
    hide Step, Enabled, Concat;
  }

  lemma FlagsClient(l: Limits, s: State, e: Event)
    requires Flags(s) && Enabled(s, e) && !OfThread(e) && !e.Round?
    ensures Flags(Step(l, s, e))
  {
    hide Full, AfterRound, Concat;
  }

  /** The steps that neither take, hash or add a chunk nor clean up leave the queue and the hash alone. */
  lemma PlainFields(l: Limits, s: State, e: Event)
    requires Enabled(s, e) && !e.Take? && !e.Hash? && !e.Round? && !e.Leave? && !e.CancelEnd?
    ensures var r := Step(l, s, e);
      && r == s.(client := r.client, writer := r.writer, file := r.file, active := r.active,
                 shouldStop := r.shouldStop, hasError := r.hasError, finishing := r.finishing, emitted := r.emitted,
                 refused := r.refused, broke := r.broke)
      && Unhashed(r.writer) == Unhashed(s.writer)
  {
    hide *;
    if e.Store? {
      StoreFields(l, s, e);
    } else if e.Check? || e.Begin? {
      LookFields(l, s, e);
    } else {
      ClientFields(l, s, e);
    }
  }

  lemma StoreFields(l: Limits, s: State, e: Event)
    requires e.Store? && Enabled(s, e)
    ensures var r := Step(l, s, e);
      && r == s.(writer := r.writer, file := r.file, hasError := r.hasError, broke := r.broke)
      && Unhashed(r.writer) == Unhashed(s.writer)
  {
    StoreIs(l, s, e.n);
    hide Step, Enabled, Full, Concat, AfterRound;
  }

  lemma StoreIs(l: Limits, s: State, n: nat)
    requires Enabled(s, Store(n))
    ensures s.writer.Hashed? && n <= |s.writer.chunk|
    ensures var r := s.(file := s.file + s.writer.chunk[..n]);
      Step(l, s, Store(n)) == if n < |s.writer.chunk| then r.(hasError := true, broke := true, writer := Leaving)
                              else r.(writer := AtCheck)
  {
    hide Full, Concat, AfterRound;
  }

  lemma LookFields(l: Limits, s: State, e: Event)
    requires (e.Check? || e.Begin?) && Enabled(s, e)
    ensures var r := Step(l, s, e);
      && r == s.(writer := r.writer) && Unhashed(r.writer) == Unhashed(s.writer)
      && !r.writer.Hashed? && !s.writer.Hashed?
  {
    hide Full, Concat, AfterRound;
  }

  lemma ClientFields(l: Limits, s: State, e: Event)
    requires (e.Write? || e.Finish? || e.Join? || e.Cancel?) && Enabled(s, e)
    ensures var r := Step(l, s, e);
      r == s.(client := r.client, active := r.active, shouldStop := r.shouldStop, finishing := r.finishing,
              emitted := r.emitted, refused := r.refused)
  {
    hide Full, Concat, AfterRound;
  }

  lemma LastFields(l: Limits, s: State, e: Event)
    requires Enabled(s, e) && (e.Leave? || e.CancelEnd?)
    ensures var r := Step(l, s, e);
      && r == s.(client := r.client, writer := r.writer, active := r.active, removed := r.removed, queue := r.queue)
      && (r.removed || !s.removed) && (r.queue == s.queue || (r.queue == [] && r.removed))
      && Unhashed(r.writer) == Unhashed(s.writer)
  {
    hide *;
    if e.Leave? {
      LeaveFields(l, s);
    } else {
      CancelFields(l, s);
    }
  }

  lemma LeaveFields(l: Limits, s: State)
    requires Enabled(s, Leave)
    ensures var r := Step(l, s, Leave);
      && r == s.(writer := Done, removed := r.removed, queue := r.queue)
      && (r.removed || !s.removed) && (r.queue == s.queue || (r.queue == [] && r.removed))
      && Unhashed(Done) == Unhashed(s.writer) && s.writer.Leaving?
  {
    hide Full, Concat, AfterRound;
  }

  lemma CancelFields(l: Limits, s: State)
    requires Enabled(s, CancelEnd)
    ensures var r := Step(l, s, CancelEnd);
      && r == s.(client := Idle, active := false, removed := r.removed, queue := r.queue)
      && (r.removed || !s.removed) && (r.queue == s.queue || (r.queue == [] && r.removed))
  {
    hide Full, Concat, AfterRound;
  }

  lemma OtherFields(l: Limits, s: State, e: Event)
    requires Enabled(s, e) && !e.Take? && !e.Hash? && !e.Round?
    ensures var r := Step(l, s, e);
      && r.hashed == s.hashed && r.accepted == s.accepted && Unhashed(r.writer) == Unhashed(s.writer)
      && (r.removed || (r.queue == s.queue && r.removed == s.removed)) && (r.queue == s.queue || r.queue == [])
  {
    if e.Leave? || e.CancelEnd? {
      LastFields(l, s, e);
    } else {
      PlainFields(l, s, e);
    }
    hide Step, Unhashed;
  }

  lemma RoundFields(l: Limits, s: State)
    requires s.client.Waiting?
    ensures Step(l, s, Round) == AfterRound(l, s)
    ensures var r, d := AfterRound(l, s), s.client.data;
      if Full(l, s.queue)
      then
        r == r.(hashed := s.hashed, writer := s.writer, removed := s.removed, queue := s.queue, accepted := s.accepted)
      else r == s.(queue := s.queue + [d], accepted := s.accepted + [d], client := Idle)
  {
    hide Full, Step, Concat, Size, Enabled, Waited;
    RoundIs(l, s);
    WaitedFields(s);
  }

  lemma WaitedFields(s: State)
    requires s.client.Waiting?
    ensures var r := Waited(s); r == s.(client := r.client, hasError := r.hasError, refused := r.refused)
  {
  }

  lemma RoundIs(l: Limits, s: State)
    requires s.client.Waiting?
    ensures Step(l, s, Round) == AfterRound(l, s)
  {
    hide AfterRound;
  }

  lemma BoundedStep(l: Limits, s: State, e: Event)
    requires Bounded(l, s) && Enabled(s, e)
    ensures Bounded(l, Step(l, s, e))
  {
    hide *;
    if e.Take? {
      BoundedTake(l, s);
    } else if e.Hash? {
      HashKeepsQueue(l, s);
      BoundedSame(l, s, Step(l, s, e));
    } else if e.Round? {
      BoundedRound(l, s);
    } else {
      OtherFields(l, s, e);
      BoundedSame(l, s, Step(l, s, e));
    }
  }

  lemma HashKeepsQueue(l: Limits, s: State)
    requires Enabled(s, Hash)
    ensures Step(l, s, Hash).queue == s.queue
  {
  }

  lemma BoundedSame(l: Limits, s: State, r: State)
    requires Bounded(l, s) && (r.queue == s.queue || r.queue == [])
    ensures Bounded(l, r)
  {
    hide Size;
  }

  lemma BoundedTake(l: Limits, s: State)
    requires Bounded(l, s) && Enabled(s, Take)
    ensures Bounded(l, Step(l, s, Take))
  {
    if s.queue != [] {
      TailBounded(l, s.queue);
    }
    hide Size;
  }

  lemma BoundedRound(l: Limits, s: State)
    requires Bounded(l, s) && Enabled(s, Round)
    ensures Bounded(l, Step(l, s, Round))
  {
    assert s.client.Waiting?;
    hide *;
    RoundFields(l, s);
    if Full(l, s.queue) {
      BoundedSame(l, s, Step(l, s, Round));
    } else {
      BoundedAppend(l, s, Step(l, s, Round), s.client.data);
    }
  }

  lemma BoundedAppend(l: Limits, s: State, r: State, d: seq<byte>)
    requires Bounded(l, s) && !Full(l, s.queue) && r.queue == s.queue + [d]
    ensures Bounded(l, r)
  {
    assert r.queue[..|s.queue|] == s.queue;
    hide Size;
  }

  lemma TailBounded(l: Limits, queue: seq<seq<byte>>)
    requires queue != [] && Size(queue[..|queue| - 1]) < l.memory
    ensures queue[1..] != [] ==> Size(queue[1..][..|queue| - 2]) < l.memory
  {
    var n := |queue| - 1;
    if n > 0 {
      ConcatHead(queue[..n]);
      assert queue[1..][..n - 1] == queue[..n][1..];
      hide Concat;
    }
  }

  lemma FileStep(l: Limits, s: State, e: Event)
    requires FileConserved(s) && Flags(s) && Enabled(s, e)
    ensures FileConserved(Step(l, s, e))
  {
    if e.Store? {
      StoreIs(l, s, e.n);
      FileStore(l, s, e.n);
    } else if e.Hash? {
      FileHash(l, s);
    } else {
      FileFields(l, s, e);
      FileSame(s, Step(l, s, e));
    }
    hide *;
  }

  lemma FileStore(l: Limits, s: State, n: nat)
    requires FileConserved(s) && Flags(s) && s.writer.Hashed? && n <= |s.writer.chunk| && Enabled(s, Store(n))
    ensures FileConserved(Step(l, s, Store(n)))
  {
    StoreIs(l, s, n);
    if n == |s.writer.chunk| {
      assert s.writer.chunk[..n] == s.writer.chunk;
    }
    hide Step, Enabled, Full, Concat;
  }

  lemma FileHash(l: Limits, s: State)
    requires FileConserved(s) && Enabled(s, Hash)
    ensures FileConserved(Step(l, s, Hash))
  {
    assert s.file + [] == s.file;
    hide Full, Concat, AfterRound;
  }

  lemma FileFields(l: Limits, s: State, e: Event)
    requires Enabled(s, e) && !e.Store? && !e.Hash?
    ensures var r := Step(l, s, e);
      && r == r.(file := s.file, hashed := s.hashed, broke := s.broke)
      && (r.writer == s.writer || (!r.writer.Hashed? && !s.writer.Hashed?))
  {
    hide *;
    if e.Round? {
      RoundKeeps(l, s);
    } else if e.Take? {
      TakeKeeps(l, s);
    } else if e.Leave? {
      LeaveFields(l, s);
    } else if e.CancelEnd? {
      CancelFields(l, s);
    } else if e.Check? || e.Begin? {
      LookFields(l, s, e);
    } else {
      ClientFields(l, s, e);
    }
  }

  lemma RoundKeeps(l: Limits, s: State)
    requires Enabled(s, Round)
    ensures var r := Step(l, s, Round);
            r == r.(file := s.file, hashed := s.hashed, broke := s.broke, writer := s.writer)
  {
    assert s.client.Waiting?;
    hide Full, Concat, Enabled, Step, Waited;
    RoundIs(l, s);
    WaitedFields(s);
  }

  lemma TakeKeeps(l: Limits, s: State)
    requires Enabled(s, Take)
    ensures var r := Step(l, s, Take);
      r == s.(queue := r.queue, writer := r.writer) && !r.writer.Hashed? && !s.writer.Hashed?
  {
    TakeIs(l, s);
    hide Step, Enabled, Full, Concat, AfterRound;
  }

  lemma TakeIs(l: Limits, s: State)
    requires Enabled(s, Take)
    ensures s.writer.AtQueue?
    ensures Step(l, s, Take) == if s.queue == [] then s.(writer := AtCheck)
                                else s.(writer := Holding(s.queue[0]), queue := s.queue[1..])
  {
    hide Full, Concat, AfterRound;
  }

  lemma FileSame(s: State, r: State)
    requires FileConserved(s) && r == r.(file := s.file, hashed := s.hashed, broke := s.broke)
    requires r.writer == s.writer || (!r.writer.Hashed? && !s.writer.Hashed?)
    ensures FileConserved(r)
  {
  }

  lemma HashStep(l: Limits, s: State, e: Event)
    requires HashConserved(s) && Flags(s) && Enabled(s, e)
    ensures HashConserved(Step(l, s, e))
  {
    hide *;
    if e.Take? {
      HashTake(l, s);
    } else if e.Hash? {
      HashHash(l, s);
    } else if e.Round? {
      HashRound(l, s);
    } else {
      HashOther(l, s, e);
    }
  }

  lemma HashTake(l: Limits, s: State)
    requires HashConserved(s) && Enabled(s, Take)
    ensures HashConserved(Step(l, s, Take))
  {
    if s.queue != [] {
      ConcatHead(s.queue);
      Associates(s.hashed, s.queue[0], Concat(s.queue[1..]));
    }
    assert s.hashed + [] == s.hashed;
    hide Concat;
  }

  lemma HashHash(l: Limits, s: State)
    requires HashConserved(s) && Flags(s) && Enabled(s, Hash)
    ensures HashConserved(Step(l, s, Hash))
  {
    assert !s.removed;
    Consumes(s.hashed, s.writer.chunk, Concat(s.queue), Concat(s.accepted));
    hide Concat, Flags;
  }

  lemma HashRound(l: Limits, s: State)
    requires HashConserved(s) && Enabled(s, Round)
    ensures HashConserved(Step(l, s, Round))
  {
    RoundFields(l, s);
    hide Step, Enabled, Full, AfterRound;
    ConcatOne(s.queue, s.client.data);
    ConcatOne(s.accepted, s.client.data);
    LongerPrefix(s.hashed, Concat(s.accepted), s.client.data);
    Associates(s.hashed + Unhashed(s.writer), Concat(s.queue), s.client.data);
    hide Concat, Unhashed;
  }

  lemma HashOther(l: Limits, s: State, e: Event)
    requires HashConserved(s) && Enabled(s, e) && !e.Take? && !e.Hash? && !e.Round?
    ensures HashConserved(Step(l, s, e))
  {
    OtherFields(l, s, e);
    hide Concat, Step, Enabled, Unhashed;
  }

  lemma Associates(a: seq<byte>, b: seq<byte>, c: seq<byte>)
    ensures a + (b + c) == (a + b) + c
  {
  }

  lemma Consumes(h: seq<byte>, d: seq<byte>, rest: seq<byte>, all: seq<byte>)
    requires h + d + rest == all
    ensures |h + d| <= |all| && h + d == all[..|h + d|] && (h + d) + [] + rest == all
  {
  }

  lemma LongerPrefix(h: seq<byte>, all: seq<byte>, d: seq<byte>)
    requires |h| <= |all| && h == all[..|h|]
    ensures h == (all + d)[..|h|]
  {
  }

  lemma ReportedStep(l: Limits, s: State, e: Event)
    requires HashConserved(s) && FileConserved(s) && Flags(s) && Reported(s) && Enabled(s, e)
    ensures Reported(Step(l, s, e))
  {
    assert Concat([]) == [];
    hide Full, Concat;
  }

  lemma InvStep(l: Limits, s: State, e: Event)
    requires Inv(l, s) && Enabled(s, e)
    ensures Inv(l, Step(l, s, e))
  {
    FlagsStep(l, s, e);
    BoundedStep(l, s, e);
    FileStep(l, s, e);
    HashStep(l, s, e);
    ReportedStep(l, s, e);
    hide HashConserved, FileConserved, Bounded, Flags, Reported, Step;
  }

  // ----- whole sessions -----

  /** The state after these events, if each of them was possible when it happened. */
  function After(l: Limits, s: State, events: seq<Event>): Option<State> {
    if events == [] then Some(s)
    else
      var e := events[|events| - 1];
      match After(l, s, events[..|events| - 1])
      case None => None
      case Some(t) => if Enabled(t, e) then Some(Step(l, t, e)) else None
  }

  lemma {:induction false} RunInv(l: Limits, s: State, events: seq<Event>)
    requires Inv(l, s) && After(l, s, events).Some?
    ensures Inv(l, After(l, s, events).value)
  {
    if events != [] {
      var n := |events| - 1;
      RunInv(l, s, events[..n]);
      InvStep(l, After(l, s, events[..n]).value, events[n]);
      hide Inv, Step, Enabled;
    }
  }

  /**
   * In every interleaving, until a stop or an error: what is in the file, in flight and queued is what was accepted,
   * in that order, the hash follows the same order, and the queue stays in its limits.
   */
  lemma Conservation(l: Limits, events: seq<Event>)
    requires After(l, Opened(), events).Some?
    ensures var s := After(l, Opened(), events).value;
      && Bounded(l, s)
      && (!s.hasError && !s.shouldStop ==>
            && s.file + Unwritten(s.writer) + Unhashed(s.writer) + Concat(s.queue) == Concat(s.accepted)
            && s.hashed + Unhashed(s.writer) + Concat(s.queue) == Concat(s.accepted))
  {
    OpenedIsValid(l);
    RunInv(l, Opened(), events);
    hide Step, After, Concat, Reported, Bounded;
  }

  /** Only complete files are reported, and a finished session is reported exactly when nothing went wrong. */
  lemma Reports(l: Limits, events: seq<Event>)
    requires After(l, Opened(), events).Some?
    ensures var s := After(l, Opened(), events).value;
      && Reported(s)
      && (Enabled(s, Join) ==> (Step(l, s, Join).emitted.Some? <==> !s.refused && !s.broke))
  {
    OpenedIsValid(l);
    RunInv(l, Opened(), events);
    hide After, Concat, Bounded, HashConserved;
  }

  /**
   * When `finish` returns, the file is gone exactly when a write was refused or the file system did not take all of a
   * chunk, and then nothing is reported. `hash()` yields what was hashed in any case.
   */
  lemma FileIsGone(l: Limits, events: seq<Event>)
    requires After(l, Opened(), events).Some? && Enabled(After(l, Opened(), events).value, Join)
    ensures var s := After(l, Opened(), events).value;
      && (s.removed <==> s.refused || s.broke)
      && var t := Step(l, s, Join); t.removed == s.removed && t.hashed == s.hashed && (t.emitted == None <==> t.removed)
  {
    OpenedIsValid(l);
    RunInv(l, Opened(), events);
    hide After, Concat, Bounded, HashConserved, FileConserved, Reported;
  }

  // ----- `finish` ends -----

  /** How many steps the thread has left once no more writes come. */
  function Measure(s: State): nat {
    6 * |s.queue| +
    match s.writer
    case Done => 0
    case Leaving => 1
    case AtCheck => if s.queue == [] then 2 else 6
    case AtQueue => 3
    case Top => 4
    case Hashed(_) => 7
    case Holding(_) => 8
  }

  /** Waiting for the thread, every step but the end of the wait brings that end nearer. */
  lemma MeasureStep(l: Limits, s: State, e: Event)
    requires Flags(s) && s.client.Joining? && Enabled(s, e) && !e.Join?
    ensures Step(l, s, e).client.Joining? && Measure(Step(l, s, e)) < Measure(s)
  {
  }

  /** The thread is never stuck while `finish` waits for it, nor after `cancel`. */
  lemma ThreadMoves(s: State)
    requires Flags(s) && (s.client.Joining? || s.shouldStop) && !s.writer.Done?
    ensures exists e :: Enabled(s, e) && OfThread(e)
  {
    var e := match s.writer
      case Leaving => Leave
      case AtCheck => Check
      case AtQueue => Take
      case Top => Begin
      case Hashed(_) => Store(0)
      case _ => Hash;
    assert Enabled(s, e) && OfThread(e);
  }

  /** `finish` returns: the run to the end of its wait is no longer than the measure, however it goes. */
  lemma {:induction false} FinishEnds(l: Limits, s: State, events: seq<Event>)
    requires Inv(l, s) && s.client.Joining? && After(l, s, events).Some? && forall e | e in events :: !e.Join?
    ensures var t := After(l, s, events).value;
      && t.client.Joining? && Measure(t) + |events| <= Measure(s)
      && (t.writer.Done? ==> Enabled(t, Join)) && (!t.writer.Done? ==> exists e :: Enabled(t, e) && OfThread(e))
  {
    RunInv(l, s, events);
    if events != [] {
      var n := |events| - 1;
      RunInv(l, s, events[..n]);
      FinishEnds(l, s, events[..n]);
      assert events[n] in events;
      MeasureStep(l, After(l, s, events[..n]).value, events[n]);
    }
    var t := After(l, s, events).value;
    hide HashConserved, FileConserved, Reported, Bounded, Flags, Step, Measure, After;
    if !t.writer.Done? {
      ThreadMoves(t);
    }
  }

  // ----- `cancel` ends -----

  /** How many steps the thread has left after a stop, whatever is queued. */
  function StepsLeft(w: Writer): (r: nat)
    ensures r <= 6
  {
    match w
    case Done => 0
    case Leaving => 1
    case Top => 2
    case AtCheck => 3
    case Hashed(_) => 4
    case Holding(_) => 5
    case AtQueue => 6
  }

  /** How many of the events are steps of the thread. */
  function ThreadSteps(events: seq<Event>): nat {
    if events == [] then 0
    else ThreadSteps(events[..|events| - 1]) + if OfThread(events[|events| - 1]) then 1 else 0
  }

  /** After a stop every step of the thread brings its end nearer, and no other step takes it back. */
  lemma StoppingStep(l: Limits, s: State, e: Event)
    requires Flags(s) && s.shouldStop && Enabled(s, e)
    ensures Step(l, s, e).shouldStop
    ensures StepsLeft(Step(l, s, e).writer) + (if OfThread(e) then 1 else 0) <= StepsLeft(s.writer)
  {
    hide Full, Concat, AfterRound;
    if e.Round? {
      RoundKeeps(l, s);
    }
  }

  lemma {:induction false} StoppingRun(l: Limits, s: State, events: seq<Event>)
    requires Inv(l, s) && s.shouldStop && After(l, s, events).Some?
    ensures var t := After(l, s, events).value;
      Inv(l, t) && t.shouldStop && StepsLeft(t.writer) + ThreadSteps(events) <= StepsLeft(s.writer)
  {
    RunInv(l, s, events);
    if events != [] {
      var n := |events| - 1;
      RunInv(l, s, events[..n]);
      StoppingRun(l, s, events[..n]);
      FlagsOf(l, After(l, s, events[..n]).value);
      StoppingStep(l, After(l, s, events[..n]).value, events[n]);
    }
    hide Inv, Flags, Step, Enabled, StepsLeft;
  }

  lemma FlagsOf(l: Limits, s: State)
    requires Inv(l, s)
    ensures Flags(s) && Reported(s)
  {
  }

  lemma Stopped(s: State)
    requires Flags(s) && Reported(s) && s.shouldStop
    ensures s.client.Stopping? ==> Enabled(s, CancelEnd)
    ensures s.client.Idle? && !s.writer.Done? ==> Enabled(s, Cancel)
    ensures s.writer.Done? && !s.client.Stopping? ==> s.removed && s.queue == []
    ensures s.emitted == None
  {
    hide Concat;
  }

  /**
   * A cancelled session ends: in every run after `cancel` the thread takes at most six steps and is never stuck before
   * its last one, and when it is done and `cancel` has returned, the file is gone, nothing is queued, and nothing was
   * reported. As long as the thread runs, `cancel` can be called once more.
   */
  lemma CancelEnds(l: Limits, s: State, events: seq<Event>)
    requires Inv(l, s) && s.shouldStop && After(l, s, events).Some?
    ensures var t := After(l, s, events).value;
      && t.shouldStop && StepsLeft(t.writer) + ThreadSteps(events) <= StepsLeft(s.writer) <= 6
      && (!t.writer.Done? ==> exists e :: Enabled(t, e) && OfThread(e))
      && (t.client.Stopping? ==> Enabled(t, CancelEnd)) && (t.client.Idle? && !t.writer.Done? ==> Enabled(t, Cancel))
      && (t.writer.Done? && !t.client.Stopping? ==> t.removed && t.queue == []) && t.emitted == None
  {
    hide *;
    StoppingRun(l, s, events);
    var t := After(l, s, events).value;
    FlagsOf(l, t);
    Stopped(t);
    if !t.writer.Done? {
      ThreadMoves(t);
    }
  }

  /**
   * `hash()` after `finish()` is not a report of success: for every chunk, a session that was sound when `finish` was
   * called can end with nothing reported and the file removed, because the file system takes only `n` bytes of the
   * chunk, and `hash()` still yields the hash of all accepted bytes.
   */
  lemma HashWithoutFile(l: Limits, d: seq<byte>, n: nat)
    requires l.size > 0 && l.memory > 0 && n < |d|
    ensures exists before, after ::
      && After(l, Opened(), before).Some? && After(l, Opened(), before + [Finish] + after).Some?
      && var s, t := After(l, Opened(), before).value, After(l, Opened(), before + [Finish] + after).value;
         && s.active && !s.hasError && s.accepted == [d]
         && !t.active && t.client.Idle? && t.emitted == None && t.removed && t.hashed == d && t.file == d[..n]
  {
    hide *;
    var before, after := [Write(d), Round], [Begin, Take, Hash, Store(n), Leave, Join];
    var e := before + [Finish] + after;
    Losing(e, d, n);
    Sound(l, e, d, n);
    Finishing(l, e, d, n);
    Broken(l, e, d, n);
    assert e[..2] == before && e[..9] == e;
    LostIs(d, n);
    assert After(l, Opened(), before).Some?;
  }

  lemma Losing(e: seq<Event>, d: seq<byte>, n: nat)
    requires e == [Write(d), Round] + [Finish] + [Begin, Take, Hash, Store(n), Leave, Join]
    ensures IsLosing(e, d, n)
  {
  }

  lemma LostIs(d: seq<byte>, n: nat)
    requires n < |d|
    ensures var s, t := Queued(d), Lost(d, n);
      && s.active && !s.hasError && s.accepted == [d]
      && !t.active && t.client.Idle? && t.emitted == None && t.removed && t.hashed == d && t.file == d[..n]
  {
  }

  /** One chunk queued. */
  function Queued(d: seq<byte>): State {
    Opened().(queue := [d], accepted := [d])
  }

  /** `finish` waits, and the chunk is hashed but not in the file. */
  function HashedOnly(d: seq<byte>): State {
    Opened().(accepted := [d], finishing := true, client := Joining, hashed := d, writer := Hashed(d))
  }

  function Lost(d: seq<byte>, n: nat): State
    requires n < |d|
  {
    Opened().(accepted := [d], finishing := true, hashed := d, file := d[..n], hasError := true, broke := true,
              removed := true, writer := Done, active := false)
  }

  predicate IsLosing(e: seq<Event>, d: seq<byte>, n: nat) {
    e == [Write(d), Round, Finish, Begin, Take, Hash, Store(n), Leave, Join]
  }

  lemma Sound(l: Limits, e: seq<Event>, d: seq<byte>, n: nat)
    requires l.size > 0 && l.memory > 0 && IsLosing(e, d, n)
    ensures After(l, Opened(), e[..2]) == Some(Queued(d))
  {
    var o := Opened();
    assert After(l, o, e[..0]) == Some(o) && Size([]) == 0;
    hide After, Concat;
    Extend(l, o, e, 0, o, o.(client := Waiting(d, 0)));
    Extend(l, o, e, 1, o.(client := Waiting(d, 0)), Queued(d));
  }

  lemma Finishing(l: Limits, e: seq<Event>, d: seq<byte>, n: nat)
    requires IsLosing(e, d, n) && After(l, Opened(), e[..2]) == Some(Queued(d))
    ensures After(l, Opened(), e[..6]) == Some(HashedOnly(d))
  {
    hide After, Concat;
    var o, t := Opened(), Queued(d).(finishing := true, client := Joining);
    assert [] + d == d;
    Extend(l, o, e, 2, Queued(d), t);
    Extend(l, o, e, 3, t, t.(writer := AtQueue));
    Extend(l, o, e, 4, t.(writer := AtQueue), t.(writer := Holding(d), queue := []));
    Extend(l, o, e, 5, t.(writer := Holding(d), queue := []), HashedOnly(d));
  }

  lemma Broken(l: Limits, e: seq<Event>, d: seq<byte>, n: nat)
    requires n < |d| && IsLosing(e, d, n) && After(l, Opened(), e[..6]) == Some(HashedOnly(d))
    ensures After(l, Opened(), e[..9]) == Some(Lost(d, n))
  {
    hide After, Concat;
    var o, t := Opened(), HashedOnly(d).(file := d[..n], hasError := true, broke := true, writer := Leaving);
    assert [] + d[..n] == d[..n];
    Extend(l, o, e, 6, HashedOnly(d), t);
    Extend(l, o, e, 7, t, t.(removed := true, writer := Done));
    Extend(l, o, e, 8, t.(removed := true, writer := Done), Lost(d, n));
  }

  lemma Extend(l: Limits, s: State, events: seq<Event>, k: nat, t: State, r: State)
    requires k < |events| && After(l, s, events[..k]) == Some(t) && Enabled(t, events[k]) && r == Step(l, t, events[k])
    ensures After(l, s, events[..k + 1]) == Some(r)
  {
    assert events[..k + 1][..k] == events[..k];
  }
}
