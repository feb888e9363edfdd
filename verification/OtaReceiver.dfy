/** The Coprocessor's OTA machine: control operations correlated with an asynchronous backend, and
    the stream of chunks it accepts (coproc-core/src/coproc_ota.c). */
module OtaReceiver {
  import opened Bytes
  import opened OtaStream

  const CHUNK_SIZE: nat := 4048
  const ALIGNMENT: nat := 16
  const PROGRESS_INTERVAL: nat := 65536

  datatype Phase = Unspecified | Idle | Receiving | Verifying | ReadyToActivate | Failed

  datatype Operation = Begin | Finalize | Abort | Activate

  datatype Status = Fine | Busy | Invalid | NotReady | NotFound | Internal

  datatype Pending = Pending(operation: uint32, session: uint32, request: nat, kind: Operation)

  /** The history: transfers begun and chunks accepted by the backend, answers to requests (or
      their end without one), and progress events. */
  datatype Entry =
    | Began(transfer: uint32, size: uint64)
    | Accepted(chunk: Chunk)
    | Answered(request: nat, status: Status)
    | Dropped(request: nat)
    | Progress(phase: Phase, bytes: uint64)

  datatype Ota = Ota(
    session: uint32,
    phase: Phase,
    pending: Option<Pending>,
    transfer: uint32,
    imageSize: uint64,
    accepted: uint64,
    received: uint64,
    reported: uint64,
    nextOperation: uint32,
    nextTransfer: uint32,
    log: seq<Entry>)

  predicate IsIdle(p: Phase) {
    p.Unspecified? || p.Idle? || p.Failed?
  }

  function Log(o: Ota, e: Entry): Ota {
    o.(log := o.log + [e])
  }

  function Emit(o: Ota): Ota {
    Log(o.(reported := o.received), Progress(o.phase, o.received))
  }

  function Enter(o: Ota, phase: Phase): Ota {
    if o.phase == phase then o else Emit(o.(phase := phase))
  }

  /** The 32-bit counters skip zero. */
  function Fresh(next: uint32): (uint32, uint32) {
    if next == 0 then (1, 2) else (next, Wrap32(next + 1))
  }

  function Submit(o: Ota, request: nat, kind: Operation): Ota {
    var (operation, next) := Fresh(o.nextOperation);
    o.(nextOperation := next, pending := Some(Pending(operation, o.session, request, kind)))
  }

  /** A backend that refuses the call at once is answered for. */
  function Submitted(o: Ota, request: nat, accepted: bool): Ota {
    if accepted then o else Log(o.(pending := None), Answered(request, Internal))
  }

  datatype BeginMessage = BeginMessage(size: uint64, digestSize: nat)

  function HandleBegin(o: Ota, request: nat, alloc: bool, message: Option<BeginMessage>, accepted: bool): Ota {
    if o.pending.Some? || !IsIdle(o.phase) then Log(o, Answered(request, Busy))
    else if !alloc || message.None? then Log(o, Dropped(request))
    else if message.value.size == 0 || message.value.digestSize != 32 then Log(o, Answered(request, Invalid))
    else
      var (transfer, next) := Fresh(o.nextTransfer);
      var started := o.(nextTransfer := next, transfer := transfer, imageSize := message.value.size,
                        accepted := 0, received := 0, reported := 0);
      Submitted(Submit(Log(started, Began(transfer, message.value.size)), request, Begin), request, accepted)
  }

  function HandleFinalize(o: Ota, request: nat, transfer: Option<uint32>, accepted: bool): Ota {
    if transfer.None? then Log(o, Dropped(request))
    else if o.pending.Some? then Log(o, Answered(request, Busy))
    else if !o.phase.Receiving? then Log(o, Answered(request, NotReady))
    else if transfer.value != o.transfer then Log(o, Answered(request, NotFound))
    else Submitted(Enter(Submit(o, request, Finalize), Verifying), request, accepted)
  }

  function HandleAbort(o: Ota, request: nat, transfer: Option<uint32>, present: bool, accepted: bool): Ota {
    if transfer.None? then Log(o, Dropped(request))
    else if o.pending.Some? then Log(o, Answered(request, Busy))
    else if IsIdle(o.phase) then Log(o, Answered(request, Fine))
    else if transfer.value != o.transfer then Log(o, Answered(request, NotFound))
    else if !present then Log(Enter(o, Idle).(transfer := 0), Answered(request, Fine))
    else Submitted(Submit(o, request, Abort), request, accepted)
  }

  function HandleActivate(o: Ota, request: nat, transfer: Option<uint32>, accepted: bool): Ota {
    if transfer.None? then Log(o, Dropped(request))
    else if o.pending.Some? then Log(o, Answered(request, Busy))
    else if !o.phase.ReadyToActivate? then Log(o, Answered(request, NotReady))
    else if transfer.value != o.transfer then Log(o, Answered(request, NotFound))
    else Submitted(Submit(o, request, Activate), request, accepted)
  }

  /** A completion counts only for the pending operation of the current session. */
  predicate Matches(o: Ota, operation: uint32) {
    o.pending.Some? && operation == o.pending.value.operation && o.pending.value.session == o.session
  }

  function Completed(o: Ota, operation: uint32, succeeded: bool): Ota {
    if !Matches(o, operation) then o
    else
      var p := o.pending.value;
      var idle := o.(pending := None);
      if !succeeded then
        Log(if p.kind.Abort? then idle else Enter(idle, Failed), Answered(p.request, Internal))
      else
        match p.kind
        case Begin => Log(Enter(idle, Receiving), Answered(p.request, Fine))
        case Finalize => Log(Enter(idle, ReadyToActivate), Answered(p.request, Fine))
        case Abort =>
          Enter(Log(idle, Answered(p.request, Fine)), Idle).(transfer := 0, accepted := 0, received := 0)
        case Activate => Log(idle, Answered(p.request, Fine))
  }

  predicate Acceptable(o: Ota, c: Chunk) {
    && o.phase.Receiving? && c.transfer == o.transfer
    && 1 <= |c.data| <= CHUNK_SIZE
    && c.offset == o.accepted && c.offset <= o.imageSize && |c.data| <= o.imageSize - c.offset
    && c.offset % ALIGNMENT == 0
    && (c.offset + |c.data| == o.imageSize || |c.data| % ALIGNMENT == 0)
  }

  /** One stream frame: the new state, and whether its credit goes back at once. */
  function HandleFrame(o: Ota, payload: seq<byte>, writes: bool): (Ota, bool) {
    var chunk := Read(payload);
    if chunk.None? || !Acceptable(o, chunk.value)
    then (if o.phase.Receiving? || o.phase.Verifying? then Enter(o, Failed) else o, true)
    else if !writes then (Enter(o, Failed), true)
    else (Log(o.(accepted := o.accepted + |chunk.value.data|), Accepted(chunk.value)), false)
  }

  /** A durable write; its credit goes back in any case. */
  function WriteDone(o: Ota, transfer: uint32, bytes: uint64, succeeded: bool): Ota {
    if transfer != o.transfer || !o.phase.Receiving? then o
    else if !succeeded then Enter(o, Failed)
    else
      var o' := o.(received := if bytes > o.received then bytes else o.received);
      var unreported := (o'.received as int - o'.reported) % 0x1_0000_0000_0000_0000;
      if o'.received == o'.imageSize || unreported >= PROGRESS_INTERVAL
      then Emit(o') else o'
  }

  /** A new Hello ends the session. A pending request is never answered. */
  function Reset(o: Ota, session: uint32): Ota {
    var dropped := if o.pending.Some? then Log(o, Dropped(o.pending.value.request)) else o;
    dropped.(session := session, phase := Idle, pending := None, transfer := 0, imageSize := 0,
             accepted := 0, received := 0, reported := 0)
  }

  datatype Event =
    | Begins(request: nat, alloc: bool, message: Option<BeginMessage>, accepted: bool)
    | Finalizes(request: nat, of: Option<uint32>, accepted: bool)
    | Aborts(request: nat, of: Option<uint32>, present: bool, accepted: bool)
    | Activates(request: nat, of: Option<uint32>, accepted: bool)
    | Queries(request: nat)
    | Completes(operation: uint32, succeeded: bool)
    | Streams(payload: seq<byte>, writes: bool)
    | Writes(transfer: uint32, bytes: uint64, succeeded: bool)
    | Resets(session: uint32)

  function Step(o: Ota, e: Event): Ota {
    match e
    case Begins(request, alloc, message, accepted) => HandleBegin(o, request, alloc, message, accepted)
    case Finalizes(request, of, accepted) => HandleFinalize(o, request, of, accepted)
    case Aborts(request, of, present, accepted) => HandleAbort(o, request, of, present, accepted)
    case Activates(request, of, accepted) => HandleActivate(o, request, of, accepted)
    case Queries(request) => Log(o, Answered(request, Fine))
    case Completes(operation, succeeded) => Completed(o, operation, succeeded)
    case Streams(payload, writes) => HandleFrame(o, payload, writes).0
    case Writes(transfer, bytes, succeeded) => WriteDone(o, transfer, bytes, succeeded)
    case Resets(session) => Reset(o, session)
  }

  function Run(o: Ota, events: seq<Event>): Ota
    decreases |events|
  {
    if |events| == 0 then o else Run(Step(o, events[0]), events[1..])
  }

  // ---------------------------------------------------------------------------------------
  // The image as a contiguous prefix
  // ---------------------------------------------------------------------------------------

  /** The transfer begun last, its image size, and the bytes written to it so far. */
  datatype Position = Position(transfer: uint32, size: nat, image: seq<byte>)

  function At(log: seq<Entry>): Position
    decreases |log|
  {
    if |log| == 0 then Position(0, 0, [])
    else
      var front := At(log[..|log| - 1]);
      match log[|log| - 1]
      case Began(transfer, size) => Position(transfer, size, [])
      case Accepted(chunk) => front.(image := front.image + chunk.data)
      case _ => front
  }

  /** Every chunk ever accepted continues the image of the transfer begun last: it starts where
      the image ended, stays inside it, is 1..4048 bytes at a 16-aligned offset, and only one
      that ends the image may have an unaligned length. */
  ghost predicate Contiguous(log: seq<Entry>)
    decreases |log|
  {
    |log| > 0 ==>
      var e, front := log[|log| - 1], At(log[..|log| - 1]);
      && Contiguous(log[..|log| - 1])
      && (e.Accepted? ==> Continues(front, e.chunk))
  }

  ghost predicate Continues(p: Position, c: Chunk) {
    && c.transfer == p.transfer
    && c.offset == |p.image| && c.offset + |c.data| <= p.size
    && 1 <= |c.data| <= 4048
    && c.offset % 16 == 0
    && (|c.data| % 16 == 0 || c.offset + |c.data| == p.size)
  }

  lemma Extended(log: seq<Entry>, e: Entry)
    ensures At(log + [e]) == match e
                             case Began(transfer, size) => Position(transfer, size, [])
                             case Accepted(chunk) => At(log).(image := At(log).image + chunk.data)
                             case _ => At(log)
    ensures Contiguous(log + [e]) <==> Contiguous(log) && (e.Accepted? ==> Continues(At(log), e.chunk))
  {
    assert (log + [e])[..|log|] == log;
  }

  /** While a transfer is being set up or received, the counters describe the history. */
  ghost predicate Tracks(o: Ota) {
    && Contiguous(o.log)
    && (o.phase.Receiving? ==>
          At(o.log) == Position(o.transfer, o.imageSize, At(o.log).image) && |At(o.log).image| == o.accepted)
    && (o.pending.Some? && o.pending.value.kind.Begin? ==>
          At(o.log) == Position(o.transfer, o.imageSize, []) && o.accepted == 0 && IsIdle(o.phase))
  }

  predicate Quiet(e: Entry) {
    !e.Began? && !e.Accepted?
  }

  lemma QuietLog(o: Ota, e: Entry)
    requires Quiet(e)
    ensures At(Log(o, e).log) == At(o.log)
    ensures Contiguous(Log(o, e).log) <==> Contiguous(o.log)
  {
    hide At, Contiguous;
    Extended(o.log, e);
  }

  lemma EnterKeeps(o: Ota, phase: Phase)
    ensures var o' := Enter(o, phase);
            && o' == o.(phase := phase, reported := o'.reported, log := o'.log)
            && At(o'.log) == At(o.log)
            && (Contiguous(o'.log) <==> Contiguous(o.log))
  {
    hide At, Contiguous;
    QuietLog(o.(phase := phase, reported := o.received), Progress(phase, o.received));
  }

  lemma SubmittedKeeps(o: Ota, request: nat, accepted: bool)
    ensures var o' := Submitted(o, request, accepted);
            && o' == o.(pending := o'.pending, log := o'.log)
            && (o'.pending == o.pending || o'.pending == None)
            && At(o'.log) == At(o.log)
            && (Contiguous(o'.log) <==> Contiguous(o.log))
  {
    hide At, Contiguous;
    QuietLog(o.(pending := None), Answered(request, Internal));
  }

  lemma BeginTracks(o: Ota, request: nat, alloc: bool, message: Option<BeginMessage>, accepted: bool)
    requires Tracks(o)
    ensures Tracks(HandleBegin(o, request, alloc, message, accepted))
  {
    hide At, Contiguous;
    QuietLog(o, Answered(request, Busy));
    QuietLog(o, Dropped(request));
    QuietLog(o, Answered(request, Invalid));
    if o.pending.None? && IsIdle(o.phase) && alloc && message.Some? && message.value.size != 0
       && message.value.digestSize == 32 {
      var (transfer, next) := Fresh(o.nextTransfer);
      Extended(o.log, Began(transfer, message.value.size));
      var begun := Log(o.(nextTransfer := next, transfer := transfer, imageSize := message.value.size,
                          accepted := 0, received := 0, reported := 0), Began(transfer, message.value.size));
      SubmittedKeeps(Submit(begun, request, Begin), request, accepted);
    }
  }

  lemma ControlTracks(o: Ota, e: Event)
    requires Tracks(o) && (e.Finalizes? || e.Aborts? || e.Activates? || e.Queries?)
    ensures Tracks(Step(o, e))
  {
    hide At, Contiguous;
    QuietLog(o, Dropped(e.request));
    QuietLog(o, Answered(e.request, Busy));
    QuietLog(o, Answered(e.request, NotReady));
    QuietLog(o, Answered(e.request, NotFound));
    QuietLog(o, Answered(e.request, Fine));
    match e
    case Finalizes(request, _, accepted) =>
      EnterKeeps(Submit(o, request, Finalize), Verifying);
      SubmittedKeeps(Enter(Submit(o, request, Finalize), Verifying), request, accepted);
    case Aborts(request, _, _, accepted) =>
      EnterKeeps(o, Idle);
      QuietLog(Enter(o, Idle).(transfer := 0), Answered(request, Fine));
      SubmittedKeeps(Submit(o, request, Abort), request, accepted);
    case Activates(request, _, accepted) =>
      SubmittedKeeps(Submit(o, request, Activate), request, accepted);
    case Queries(_) =>
  }

  lemma CompletedTracks(o: Ota, operation: uint32, succeeded: bool)
    requires Tracks(o)
    ensures Tracks(Completed(o, operation, succeeded))
  {
    hide At, Contiguous;
    if Matches(o, operation) {
      var p := o.pending.value;
      var idle := o.(pending := None);
      EnterKeeps(idle, Failed);
      EnterKeeps(idle, Receiving);
      EnterKeeps(idle, ReadyToActivate);
      QuietLog(idle, Answered(p.request, Internal));
      QuietLog(idle, Answered(p.request, Fine));
      QuietLog(Enter(idle, Failed), Answered(p.request, Internal));
      QuietLog(Enter(idle, Receiving), Answered(p.request, Fine));
      QuietLog(Enter(idle, ReadyToActivate), Answered(p.request, Fine));
      EnterKeeps(Log(idle, Answered(p.request, Fine)), Idle);
    }
  }

  lemma FrameTracks(o: Ota, payload: seq<byte>, writes: bool)
    requires Tracks(o)
    ensures Tracks(HandleFrame(o, payload, writes).0)
  {
    hide At, Contiguous, Read;
    EnterKeeps(o, Failed);
    var chunk := Read(payload);
    if chunk.Some? && Acceptable(o, chunk.value) {
      Extended(o.log, Accepted(chunk.value));
    }
  }

  lemma DataTracks(o: Ota, e: Event)
    requires Tracks(o) && (e.Writes? || e.Resets?)
    ensures Tracks(Step(o, e))
  {
    hide At, Contiguous;
    EnterKeeps(o, Failed);
    if e.Writes? {
      var o' := o.(received := if e.bytes > o.received then e.bytes else o.received);
      QuietLog(o'.(reported := o'.received), Progress(o'.phase, o'.received));
    } else if o.pending.Some? {
      QuietLog(o, Dropped(o.pending.value.request));
    }
  }

  lemma {:induction false} RunTracks(o: Ota, events: seq<Event>)
    requires Tracks(o)
    ensures Tracks(Run(o, events))
    decreases |events|
  {
    hide Tracks, HandleBegin, HandleFrame, Completed;
    if |events| > 0 {
      match events[0] {
        case Begins(request, alloc, message, accepted) => BeginTracks(o, request, alloc, message, accepted);
        case Completes(operation, succeeded) => CompletedTracks(o, operation, succeeded);
        case Streams(payload, writes) => FrameTracks(o, payload, writes);
        case Writes(_, _, _) => DataTracks(o, events[0]);
        case Resets(_) => DataTracks(o, events[0]);
        case _ => ControlTracks(o, events[0]);
      }
      RunTracks(Step(o, events[0]), events[1..]);
    }
  }

  /** The machine as it starts. The counters may stand anywhere. */
  predicate Booted(o: Ota) {
    o.phase.Unspecified? && o.pending.None? && o.log == []
  }

  /** In every run, over any requests, completions, frames and resets: all accepted writes of each
      transfer form a contiguous prefix of its image, and while it is received the byte counter
      is the length of that prefix. */
  lemma PrefixIntegrity(o: Ota, events: seq<Event>)
    requires Booted(o)
    ensures var r := Run(o, events);
            && Contiguous(r.log)
            && (r.phase.Receiving? ==>
                  && At(r.log).transfer == r.transfer && At(r.log).size == r.imageSize
                  && |At(r.log).image| == r.accepted <= r.imageSize)
  {
    hide Run;
    RunTracks(o, events);
    ImageFits(Run(o, events).log);
  }

  lemma {:induction false} ImageFits(log: seq<Entry>)
    requires Contiguous(log)
    ensures |At(log).image| <= At(log).size
    decreases |log|
  {
    if |log| > 0 {
      ImageFits(log[..|log| - 1]);
    }
  }

  // ---------------------------------------------------------------------------------------
  // End to end
  // ---------------------------------------------------------------------------------------

  /** A chunk as the Host wrote it is accepted with exactly its transfer, offset and bytes if it is
      the next piece of the transfer being received and the backend takes it; a duplicate, a gap,
      an overlap, a foreign transfer, or anything at any other time writes nothing and returns
      its credit. */
  lemma HostChunkExactly(o: Ota, c: Chunk, writes: bool)
    ensures var (o', returned) := HandleFrame(o, Written(c), writes);
            && (Acceptable(o, c) && writes ==>
                  !returned && o' == o.(accepted := o.accepted + |c.data|, log := o.log + [Accepted(c)]))
            && (!(Acceptable(o, c) && writes) ==>
                  && returned && o'.accepted == o.accepted && At(o'.log) == At(o.log)
                  && (o.phase.Receiving? ==> o'.phase.Failed?))
  {
    hide Read, Written, At;
    ReadOfWritten(c);
    EnterKeeps(o, Failed);
  }

  function PieceAt(transfer: uint32, image: seq<byte>, at: nat): Chunk
    requires at < |image| < 0x1_0000_0000_0000_0000
  {
    var n := Min(CHUNK_SIZE, |image| - at);
    Chunk(transfer, at, image[at..at + n])
  }

  /** The events of one undisturbed transfer: the image in order, chunk by chunk, with write
      completions and queries anywhere in between. */
  ghost predicate Feeds(events: seq<Event>, transfer: uint32, image: seq<byte>, at: nat)
    requires at <= |image| < 0x1_0000_0000_0000_0000
    decreases |events|
  {
    if |events| == 0 then at == |image|
    else
      match events[0]
      case Streams(payload, writes) =>
        && at < |image| && writes
        && payload == Written(PieceAt(transfer, image, at))
        && Feeds(events[1..], transfer, image, at + |PieceAt(transfer, image, at).data|)
      case Writes(_, _, succeeded) => succeeded && Feeds(events[1..], transfer, image, at)
      case Queries(_) => Feeds(events[1..], transfer, image, at)
      case _ => false
  }

  lemma PieceTaken(o: Ota, transfer: uint32, image: seq<byte>, at: nat)
    requires at < |image| < 0x1_0000_0000_0000_0000
    requires o.phase.Receiving? && o.transfer == transfer && o.imageSize == |image| && o.accepted == at
    requires at % ALIGNMENT == 0 && At(o.log).image == image[..at]
    ensures var c := PieceAt(transfer, image, at);
            var o' := HandleFrame(o, Written(c), true).0;
            && o' == o.(accepted := at + |c.data|, log := o'.log)
            && At(o'.log).image == image[..at + |c.data|]
            && (at + |c.data| == |image| || (at + |c.data|) % ALIGNMENT == 0)
  {
    hide Written, At, HandleFrame;
    var c := PieceAt(transfer, image, at);
    assert Acceptable(o, c);
    HostChunkExactly(o, c, true);
    Extended(o.log, Accepted(c));
    assert image[..at] + image[at..at + |c.data|] == image[..at + |c.data|];
  }

  lemma BenignKeeps(o: Ota, e: Event)
    requires o.phase.Receiving? && ((e.Writes? && e.succeeded) || e.Queries?)
    ensures var o' := Step(o, e);
            && o'.phase.Receiving? && o'.transfer == o.transfer && o'.imageSize == o.imageSize
            && o'.accepted == o.accepted && At(o'.log) == At(o.log)
  {
    hide At;
    if e.Writes? {
      var o' := o.(received := if e.bytes > o.received then e.bytes else o.received);
      QuietLog(o'.(reported := o'.received), Progress(o'.phase, o'.received));
    } else {
      QuietLog(o, Answered(e.request, Fine));
    }
  }

  /** What the Host streams is what the flash gets: an image fed in order and accepted by the
      backend ends up in the write log byte for byte. */
  lemma {:induction false} ImageArrives(o: Ota, events: seq<Event>, transfer: uint32, image: seq<byte>, at: nat)
    requires at <= |image| < 0x1_0000_0000_0000_0000 && Feeds(events, transfer, image, at)
    requires o.phase.Receiving? && o.transfer == transfer && o.imageSize == |image| && o.accepted == at
    requires at % ALIGNMENT == 0 || at == |image|
    requires At(o.log).image == image[..at]
    ensures var r := Run(o, events);
            r.phase.Receiving? && r.accepted == |image| && At(r.log).image == image
    decreases |events|
  {
    hide At, HandleFrame, Written, WriteDone;
    if |events| == 0 {
      assert image[..at] == image;
    } else {
      var next := Step(o, events[0]);
      if events[0].Streams? {
        PieceTaken(o, transfer, image, at);
        ImageArrives(next, events[1..], transfer, image, next.accepted);
      } else {
        BenignKeeps(o, events[0]);
        ImageArrives(next, events[1..], transfer, image, at);
      }
    }
  }

  // ---------------------------------------------------------------------------------------
  // Requests and completions
  // ---------------------------------------------------------------------------------------

  function Concluded(log: seq<Entry>): multiset<nat>
    decreases |log|
  {
    if |log| == 0 then multiset{}
    else Concluded(log[..|log| - 1]) + Conclusion(log[|log| - 1])
  }

  function Conclusion(e: Entry): multiset<nat> {
    match e
    case Answered(request, _) => multiset{request}
    case Dropped(request) => multiset{request}
    case _ => multiset{}
  }

  function Outstanding(o: Ota): multiset<nat> {
    if o.pending.Some? then multiset{o.pending.value.request} else multiset{}
  }

  function Asked(e: Event): multiset<nat> {
    match e
    case Begins(request, _, _, _) => multiset{request}
    case Finalizes(request, _, _) => multiset{request}
    case Aborts(request, _, _, _) => multiset{request}
    case Activates(request, _, _) => multiset{request}
    case Queries(request) => multiset{request}
    case _ => multiset{}
  }

  function AllAsked(events: seq<Event>): multiset<nat>
    decreases |events|
  {
    if |events| == 0 then multiset{} else Asked(events[0]) + AllAsked(events[1..])
  }

  /** Requests concluded or outstanding. */
  function Settled(o: Ota): multiset<nat> {
    Concluded(o.log) + Outstanding(o)
  }

  lemma LogSettles(o: Ota, e: Entry)
    ensures Settled(Log(o, e)) == Settled(o) + Conclusion(e)
  {
    assert (o.log + [e])[..|o.log|] == o.log;
  }

  lemma SameSettled(o: Ota, o': Ota)
    requires o'.log == o.log && o'.pending == o.pending
    ensures Settled(o') == Settled(o)
  {
  }

  lemma EnterSettles(o: Ota, phase: Phase)
    ensures Settled(Enter(o, phase)) == Settled(o) && Enter(o, phase).pending == o.pending
  {
    hide Settled;
    var entered := o.(phase := phase, reported := o.received);
    LogSettles(entered, Progress(phase, o.received));
    SameSettled(o, entered);
  }

  lemma ClearSettles(o: Ota)
    requires o.pending.Some?
    ensures Settled(o.(pending := None)) + multiset{o.pending.value.request} == Settled(o)
  {
    hide Concluded;
  }

  lemma SubmitSettles(o: Ota, request: nat, kind: Operation)
    requires o.pending.None?
    ensures Settled(Submit(o, request, kind)) == Settled(o) + multiset{request}
  {
    hide Concluded;
  }

  /** A submission the backend refuses at once is answered instead. */
  lemma SubmittedSettles(o: Ota, request: nat, accepted: bool)
    requires o.pending.Some? && o.pending.value.request == request
    ensures Settled(Submitted(o, request, accepted)) == Settled(o)
  {
    hide Settled;
    ClearSettles(o);
    LogSettles(o.(pending := None), Answered(request, Internal));
  }

  lemma BeginSettles(o: Ota, request: nat, alloc: bool, message: Option<BeginMessage>, accepted: bool)
    ensures Settled(HandleBegin(o, request, alloc, message, accepted)) == Settled(o) + multiset{request}
  {
    hide Settled, Submit, Submitted;
    LogSettles(o, Answered(request, Busy));
    LogSettles(o, Answered(request, Invalid));
    LogSettles(o, Dropped(request));
    if o.pending.None? && message.Some? {
      var (transfer, next) := Fresh(o.nextTransfer);
      var begun := o.(nextTransfer := next, transfer := transfer, imageSize := message.value.size,
                      accepted := 0, received := 0, reported := 0);
      SameSettled(o, begun);
      SubmissionSettles(begun, Began(transfer, message.value.size), request, accepted);
    }
  }

  lemma SubmissionSettles(o: Ota, e: Entry, request: nat, accepted: bool)
    requires o.pending.None? && Conclusion(e) == multiset{}
    ensures Settled(Submitted(Submit(Log(o, e), request, Begin), request, accepted)) == Settled(o) + multiset{request}
  {
    hide Settled;
    LogSettles(o, e);
    SubmitSettles(Log(o, e), request, Begin);
    SubmittedSettles(Submit(Log(o, e), request, Begin), request, accepted);
  }

  lemma FinalizeSettles(o: Ota, request: nat, transfer: Option<uint32>, accepted: bool)
    ensures Settled(HandleFinalize(o, request, transfer, accepted)) == Settled(o) + multiset{request}
  {
    hide Settled, Enter, Submitted;
    LogSettles(o, Answered(request, Busy));
    LogSettles(o, Answered(request, NotReady));
    LogSettles(o, Answered(request, NotFound));
    LogSettles(o, Dropped(request));
    if o.pending.None? {
      SubmitSettles(o, request, Finalize);
      EnterSettles(Submit(o, request, Finalize), Verifying);
      SubmittedSettles(Enter(Submit(o, request, Finalize), Verifying), request, accepted);
    }
  }

  lemma AbortSettles(o: Ota, request: nat, transfer: Option<uint32>, present: bool, accepted: bool)
    ensures Settled(HandleAbort(o, request, transfer, present, accepted)) == Settled(o) + multiset{request}
  {
    hide Settled, Enter, Submitted;
    LogSettles(o, Answered(request, Busy));
    LogSettles(o, Answered(request, NotFound));
    LogSettles(o, Answered(request, Fine));
    LogSettles(o, Dropped(request));
    EnterSettles(o, Idle);
    SameSettled(Enter(o, Idle), Enter(o, Idle).(transfer := 0));
    LogSettles(Enter(o, Idle).(transfer := 0), Answered(request, Fine));
    if o.pending.None? {
      SubmitSettles(o, request, Abort);
      SubmittedSettles(Submit(o, request, Abort), request, accepted);
    }
  }

  lemma ActivateSettles(o: Ota, request: nat, transfer: Option<uint32>, accepted: bool)
    ensures Settled(HandleActivate(o, request, transfer, accepted)) == Settled(o) + multiset{request}
  {
    hide Settled, Submitted;
    LogSettles(o, Answered(request, Busy));
    LogSettles(o, Answered(request, NotReady));
    LogSettles(o, Answered(request, NotFound));
    LogSettles(o, Dropped(request));
    if o.pending.None? {
      SubmitSettles(o, request, Activate);
      SubmittedSettles(Submit(o, request, Activate), request, accepted);
    }
  }

  lemma CompletedSettles(o: Ota, operation: uint32, succeeded: bool)
    ensures Settled(Completed(o, operation, succeeded)) == Settled(o)
  {
    hide Settled, Enter;
    if Matches(o, operation) {
      var request := o.pending.value.request;
      var idle := o.(pending := None);
      ClearSettles(o);
      EnterSettles(idle, Failed);
      EnterSettles(idle, Receiving);
      EnterSettles(idle, ReadyToActivate);
      LogSettles(idle, Answered(request, Internal));
      LogSettles(idle, Answered(request, Fine));
      LogSettles(Enter(idle, Failed), Answered(request, Internal));
      LogSettles(Enter(idle, Receiving), Answered(request, Fine));
      LogSettles(Enter(idle, ReadyToActivate), Answered(request, Fine));
      EnterSettles(Log(idle, Answered(request, Fine)), Idle);
      if succeeded && o.pending.value.kind.Abort? {
        SameSettled(Enter(Log(idle, Answered(request, Fine)), Idle), Completed(o, operation, succeeded));
      }
    }
  }

  lemma FrameSettles(o: Ota, payload: seq<byte>, writes: bool)
    ensures Settled(HandleFrame(o, payload, writes).0) == Settled(o)
  {
    hide Settled, Enter, Read;
    EnterSettles(o, Failed);
    var chunk := Read(payload);
    if chunk.Some? && Acceptable(o, chunk.value) {
      var grown := o.(accepted := o.accepted + |chunk.value.data|);
      SameSettled(o, grown);
      LogSettles(grown, Accepted(chunk.value));
    }
  }

  lemma WriteSettles(o: Ota, transfer: uint32, bytes: uint64, succeeded: bool)
    ensures Settled(WriteDone(o, transfer, bytes, succeeded)) == Settled(o)
  {
    hide Settled, Enter;
    EnterSettles(o, Failed);
    var grown := o.(received := if bytes > o.received then bytes else o.received);
    SameSettled(o, grown);
    SameSettled(o, grown.(reported := grown.received));
    LogSettles(grown.(reported := grown.received), Progress(grown.phase, grown.received));
  }

  lemma ResetSettles(o: Ota, session: uint32)
    ensures Settled(Reset(o, session)) == Settled(o)
  {
    hide Settled;
    if o.pending.Some? {
      var cleared := o.(pending := None);
      ClearSettles(o);
      LogSettles(cleared, Dropped(o.pending.value.request));
      SameSettled(Log(cleared, Dropped(o.pending.value.request)), Reset(o, session));
    } else {
      SameSettled(o, Reset(o, session));
    }
  }

  lemma StepSettles(o: Ota, e: Event)
    ensures Settled(Step(o, e)) == Settled(o) + Asked(e)
  {
    hide Settled, HandleBegin, HandleFinalize, HandleAbort, HandleActivate, Completed, HandleFrame, WriteDone, Reset;
    assert Settled(o) + multiset{} == Settled(o);
    match e
    case Begins(request, alloc, message, accepted) => BeginSettles(o, request, alloc, message, accepted);
    case Completes(operation, succeeded) => CompletedSettles(o, operation, succeeded);
    case Streams(payload, writes) => FrameSettles(o, payload, writes);
    case Writes(transfer, bytes, succeeded) => WriteSettles(o, transfer, bytes, succeeded);
    case Resets(session) => ResetSettles(o, session);
    case Finalizes(request, of, accepted) => FinalizeSettles(o, request, of, accepted);
    case Aborts(request, of, present, accepted) => AbortSettles(o, request, of, present, accepted);
    case Activates(request, of, accepted) => ActivateSettles(o, request, of, accepted);
    case Queries(request) => LogSettles(o, Answered(request, Fine));
  }

  /** Over every interleaving each request is concluded exactly once or is the one pending: it is
      answered, or dropped because it did not decode, found no memory, or lost its session. */
  lemma {:induction false} RequestsConclude(o: Ota, events: seq<Event>)
    ensures var r := Run(o, events);
            Concluded(r.log) + Outstanding(r) == Concluded(o.log) + Outstanding(o) + AllAsked(events)
    decreases |events|
  {
    hide Step, Concluded, Outstanding;
    if |events| > 0 {
      StepSettles(o, events[0]);
      RequestsConclude(Step(o, events[0]), events[1..]);
      assert Settled(o) + AllAsked(events) == Settled(o) + Asked(events[0]) + AllAsked(events[1..]);
    } else {
      assert Settled(o) + multiset{} == Settled(o);
    }
  }

  // ---------------------------------------------------------------------------------------
  // Operation ids
  // ---------------------------------------------------------------------------------------

  const IDS: nat := 0xffff_ffff

  /** The id counter after `n` operations, and the id the next one gets. */
  function Counter(next: uint32, n: nat): uint32 {
    if n == 0 then next else Fresh(Counter(next, n - 1)).1
  }

  function IdOf(next: uint32, n: nat): uint32 {
    Fresh(Counter(next, n)).0
  }

  lemma {:induction false} IdsCycle(next: uint32, n: nat)
    ensures IdOf(next, n) == (IdOf(next, 0) - 1 + n) % IDS + 1
    decreases n
  {
    if n > 0 {
      IdsCycle(next, n - 1);
      NextInCycle(IdOf(next, 0) - 1 + n - 1);
    }
  }

  lemma NextInCycle(x: nat)
    ensures (x + 1) % IDS == if x % IDS == IDS - 1 then 0 else x % IDS + 1
  {
  }

  lemma CycleSeparates(x: nat, d: nat)
    requires 0 < d < IDS
    ensures (x + d) % IDS != x % IDS
  {
  }

  /** Ids repeat only after 2^32 - 1 operations, so among the operations that can still complete
      at most one matches: the late completion of any other operation of that window changes
      nothing, whatever its outcome and whatever session it was submitted in. */
  lemma LateCompletionIgnored(o: Ota, first: uint32, m: nat, n: nat, succeeded: bool)
    requires o.pending.Some? && o.pending.value.operation == IdOf(first, n)
    requires m != n && m < n + IDS && n < m + IDS
    ensures Completed(o, IdOf(first, m), succeeded) == o
  {
    hide IdOf;
    IdsCycle(first, m);
    IdsCycle(first, n);
    var base := IdOf(first, 0) - 1;
    if m < n {
      CycleSeparates(base + m, n - m);
    } else {
      CycleSeparates(base + n, m - n);
    }
  }

  /** The image becomes activatable only by the successful completion of a pending FINALIZE. */
  lemma ReadyOnlyByFinalize(o: Ota, e: Event)
    requires !o.phase.ReadyToActivate?
    ensures Step(o, e).phase.ReadyToActivate? <==>
            e.Completes? && e.succeeded && Matches(o, e.operation) && o.pending.value.kind.Finalize?
  {
    hide Read;
  }

  /** That completion does not look at the phase: a stray chunk that failed the transfer while it
      was being verified is overridden. */
  lemma FailureOverridden(o: Ota, payload: seq<byte>, writes: bool)
    requires o.phase.Verifying? && o.pending.Some? && o.pending.value.kind.Finalize?
    requires o.pending.value.session == o.session
    ensures var failed := HandleFrame(o, payload, writes).0;
            && failed.phase.Failed?
            && Completed(failed, o.pending.value.operation, true).phase.ReadyToActivate?
  {
    hide Read;
  }
}
