/** What the OTA service owes its Host: which event changes the phase and which answer each request
    gets, and that a transfer one of whose writes failed never becomes activatable. */
module OtaLaws {
  import opened Bytes
  import opened OtaStream
  import opened OtaReceiver

  // ---------------------------------------------------------------------------------------
  // Phases
  // ---------------------------------------------------------------------------------------

  /** The pending operation completes with success. */
  predicate Succeeds(o: Ota, e: Event, kind: Operation) {
    && e.Completes? && e.succeeded && o.pending.Some? && o.pending.value.kind == kind
    && e.operation == o.pending.value.operation && o.pending.value.session == o.session
  }

  predicate Fails(o: Ota, e: Event) {
    && e.Completes? && !e.succeeded && o.pending.Some? && !o.pending.value.kind.Abort?
    && e.operation == o.pending.value.operation && o.pending.value.session == o.session
  }

  /** A frame that is not the next chunk of the transfer, or that the backend does not take. */
  predicate Stray(o: Ota, e: Event) {
    && e.Streams?
    && (o.phase.Verifying? ||
        (o.phase.Receiving? && !(Read(e.payload).Some? && Acceptable(o, Read(e.payload).value) && e.writes)))
  }

  /** A write of the transfer being received that the flash did not take. */
  predicate FailedWrite(o: Ota, e: Event) {
    e.Writes? && e.transfer == o.transfer && o.phase.Receiving? && !e.succeeded
  }

  /** Each phase is entered by exactly these events. */
  lemma PhaseEntered(o: Ota, e: Event)
    ensures var next := Step(o, e).phase;
            && (!o.phase.Receiving? ==> (next.Receiving? <==> Succeeds(o, e, Begin)))
            && (!o.phase.Verifying? ==>
                  (next.Verifying? <==>
                   e.Finalizes? && e.of == Some(o.transfer) && o.pending.None? && o.phase.Receiving?))
            && (!o.phase.ReadyToActivate? ==> (next.ReadyToActivate? <==> Succeeds(o, e, Finalize)))
            && (!o.phase.Failed? ==> (next.Failed? <==> Fails(o, e) || Stray(o, e) || FailedWrite(o, e)))
            && (!o.phase.Idle? ==>
                  (next.Idle? <==>
                   || e.Resets? || Succeeds(o, e, Abort)
                   || (e.Aborts? && !e.present && e.of == Some(o.transfer) && o.pending.None? && !IsIdle(o.phase))))
            && (next.Unspecified? ==> o.phase.Unspecified?)
  {
    if e.Completes? {
      CompletionEnters(o, e);
    } else if e.Streams? {
      FrameEnters(o, e);
    } else {
      hide HandleFrame, Completed, Read, Acceptable;
    }
  }

  lemma CompletionEnters(o: Ota, e: Event)
    requires e.Completes?
    ensures Step(o, e).phase ==
            if Fails(o, e) then Failed
            else if Succeeds(o, e, Begin) then Receiving
            else if Succeeds(o, e, Finalize) then ReadyToActivate
            else if Succeeds(o, e, Abort) then Idle
            else o.phase
  {
  }

  lemma FrameEnters(o: Ota, e: Event)
    requires e.Streams?
    ensures Step(o, e).phase == if Stray(o, e) then Failed else o.phase
  {
    hide Read;
  }

  // ---------------------------------------------------------------------------------------
  // Answers
  // ---------------------------------------------------------------------------------------

  function New(o: Ota, e: Event): seq<Entry> {
    if |Step(o, e).log| >= |o.log| then Step(o, e).log[|o.log|..] else []
  }

  /** The last entry an event leaves. */
  predicate Says(o: Ota, e: Event, entry: Entry) {
    |New(o, e)| > 0 && New(o, e)[|New(o, e)| - 1] == entry
  }

  /** BEGIN with a free slot and a sound request. */
  predicate Starts(o: Ota, e: Event) {
    && e.Begins? && o.pending.None? && !(o.phase.Receiving? || o.phase.Verifying? || o.phase.ReadyToActivate?)
    && e.alloc && e.message.Some? && e.message.value.size > 0 && e.message.value.digestSize == 32
  }

  /** A BEGIN is busy while an operation is pending or a transfer occupies the slot, dropped without
      memory or message, invalid without a size or a digest of 32 bytes, and otherwise sets up a
      transfer under a new id, pending unless the backend refuses. */
  lemma BeginAnswers(o: Ota, e: Event)
    requires e.Begins?
    ensures var o' := Step(o, e);
            var busy := o.pending.Some? || o.phase.Receiving? || o.phase.Verifying? || o.phase.ReadyToActivate?;
            && (Says(o, e, Answered(e.request, Busy)) <==> busy)
            && (Says(o, e, Dropped(e.request)) <==> !busy && (!e.alloc || e.message.None?))
            && (Says(o, e, Answered(e.request, Invalid)) <==>
                !busy && e.alloc && e.message.Some? && (e.message.value.size == 0 || e.message.value.digestSize != 32))
            && (Says(o, e, Answered(e.request, Internal)) <==> Starts(o, e) && !e.accepted)
            && !Says(o, e, Answered(e.request, Fine))
            && (Starts(o, e) <==> |New(o, e)| > 0 && New(o, e)[0] == Began(o'.transfer, o'.imageSize))
            && (Starts(o, e) ==> o'.transfer != 0 && o'.imageSize == e.message.value.size &&
                                 o'.accepted == o'.received == o'.reported == 0 && o'.phase == o.phase)
            && (Starts(o, e) && e.accepted <==>
                o.pending.None? && o'.pending.Some? && o'.pending.value.request == e.request &&
                o'.pending.value.kind.Begin? && o'.pending.value.session == o.session)
  {
  }

  /** FINALIZE, ABORT and ACTIVATE: dropped if undecodable, busy while an operation is pending, not
      found for another transfer; otherwise by the phase, and submitted to the backend. */
  lemma FinalizeAnswers(o: Ota, e: Event)
    requires e.Finalizes?
    ensures var busy, taken := o.pending.Some?, o.phase.Receiving? && e.of == Some(o.transfer);
            && (Says(o, e, Dropped(e.request)) <==> e.of.None?)
            && (Says(o, e, Answered(e.request, Busy)) <==> e.of.Some? && busy)
            && (Says(o, e, Answered(e.request, NotReady)) <==> e.of.Some? && !busy && !o.phase.Receiving?)
            && (Says(o, e, Answered(e.request, NotFound)) <==>
                e.of.Some? && !busy && o.phase.Receiving? && e.of.value != o.transfer)
            && (Says(o, e, Answered(e.request, Internal)) <==> !busy && taken && !e.accepted)
            && !Says(o, e, Answered(e.request, Fine))
            && Submits(o, e, e.request, Finalize, !busy && taken && e.accepted)
  {
  }

  lemma AbortAnswers(o: Ota, e: Event)
    requires e.Aborts?
    ensures var busy, of := o.pending.Some?, e.of == Some(o.transfer);
            && (Says(o, e, Dropped(e.request)) <==> e.of.None?)
            && (Says(o, e, Answered(e.request, Busy)) <==> e.of.Some? && busy)
            && (Says(o, e, Answered(e.request, NotFound)) <==>
                e.of.Some? && !busy && !IsIdle(o.phase) && e.of.value != o.transfer)
            && (Says(o, e, Answered(e.request, Fine)) <==>
                e.of.Some? && !busy && (IsIdle(o.phase) || (of && !e.present)))
            && (Says(o, e, Answered(e.request, Internal)) <==>
                !busy && of && !IsIdle(o.phase) && e.present && !e.accepted)
            && Submits(o, e, e.request, Abort, !busy && of && !IsIdle(o.phase) && e.present && e.accepted)
            && (!busy && of && !IsIdle(o.phase) && !e.present ==> Step(o, e).transfer == 0)
  {
  }

  lemma ActivateAnswers(o: Ota, e: Event)
    requires e.Activates?
    ensures var busy, ready := o.pending.Some?, o.phase.ReadyToActivate?;
            && (Says(o, e, Dropped(e.request)) <==> e.of.None?)
            && (Says(o, e, Answered(e.request, Busy)) <==> e.of.Some? && busy)
            && (Says(o, e, Answered(e.request, NotReady)) <==> e.of.Some? && !busy && !ready)
            && (Says(o, e, Answered(e.request, NotFound)) <==> e.of.Some? && !busy && ready && e.of.value != o.transfer)
            && (Says(o, e, Answered(e.request, Internal)) <==>
                !busy && ready && e.of == Some(o.transfer) && !e.accepted)
            && !Says(o, e, Answered(e.request, Fine))
            && Submits(o, e, e.request, Activate, !busy && ready && e.of == Some(o.transfer) && e.accepted)
  {
  }

  /** The request becomes the pending operation of the session exactly when `taken`. */
  predicate Submits(o: Ota, e: Event, request: nat, kind: Operation, taken: bool) {
    var o' := Step(o, e);
    && (taken <==> o.pending.None? && o'.pending.Some?)
    && (taken ==> o'.pending.value.request == request && o'.pending.value.kind == kind &&
                  o'.pending.value.session == o.session && o'.pending.value.operation != 0)
  }

  /** A completion answers the request it matches, with success exactly as the backend says, and
      frees the slot; any other changes nothing. */
  lemma CompletionAnswers(o: Ota, e: Event)
    requires e.Completes?
    ensures var matches := o.pending.Some? && e.operation == o.pending.value.operation &&
                           o.pending.value.session == o.session;
            && (!matches ==> Step(o, e) == o)
            && (matches ==>
                  var request := o.pending.value.request;
                  && Step(o, e).pending.None?
                  && (Answered(request, Fine) in New(o, e) <==> e.succeeded)
                  && (Answered(request, Internal) in New(o, e) <==> !e.succeeded))
            && (Succeeds(o, e, Abort) ==> Step(o, e).transfer == Step(o, e).accepted == Step(o, e).received == 0)
  {
    if Matches(o, e.operation) {
      var p := o.pending.value;
      var answer := Answered(p.request, if e.succeeded then Fine else Internal);
      var first, second := New(o, e)[0], New(o, e)[|New(o, e)| - 1];
      assert 1 <= |New(o, e)| <= 2;
      assert (first == answer && (second == answer || second.Progress?)) || (first.Progress? && second == answer);
      assert New(o, e) == if |New(o, e)| == 1 then [first] else [first, second];
    }
  }

  /** A new session leaves no transfer, no progress and no pending operation. */
  lemma ResetClears(o: Ota, session: uint32)
    ensures var r := Reset(o, session);
            && r.session == session && r.phase.Idle? && r.pending.None?
            && r.transfer == r.imageSize == r.accepted == r.received == r.reported == 0
            && r.nextOperation == o.nextOperation && r.nextTransfer == o.nextTransfer
            && (forall operation, succeeded :: Completed(r, operation, succeeded) == r)
            && (forall payload, writes :: HandleFrame(r, payload, writes) == (r, true))
  {
    hide Read;
  }

  // ---------------------------------------------------------------------------------------
  // A failed write
  // ---------------------------------------------------------------------------------------

  /** What became of the transfer begun last: nothing of it is lost yet, a write of it failed, or it
      failed and was then aborted or ended with its session. */
  datatype Fate = Whole | Spoiled | Gone

  function After(o: Ota, e: Event, f: Fate): Fate {
    if FailedWrite(o, e) then Spoiled
    else if Starts(o, e) then Whole
    else if f.Spoiled? && (e.Resets? || Succeeds(o, e, Abort)) then Gone
    else f
  }

  function FateOf(o: Ota, events: seq<Event>, f: Fate): Fate
    decreases |events|
  {
    if |events| == 0 then f else FateOf(Step(o, events[0]), events[1..], After(o, events[0], f))
  }

  /** Which operations can be pending in which phase. */
  predicate Orderly(o: Ota) {
    o.pending.Some? ==>
      match o.pending.value.kind
      case Begin => IsIdle(o.phase)
      case Finalize => o.phase.Verifying? || o.phase.Failed?
      case Activate => o.phase.ReadyToActivate?
      case Abort => true
  }

  predicate Ended(o: Ota, f: Fate) {
    && (f.Spoiled? ==> o.phase.Failed? && (o.pending.Some? ==> o.pending.value.kind.Abort?))
    && (f.Gone? ==> o.phase.Idle? && o.pending.None?)
  }

  lemma StepOrderly(o: Ota, e: Event)
    requires Orderly(o)
    ensures Orderly(Step(o, e))
  {
    hide Read;
  }

  lemma StepEnded(o: Ota, e: Event, f: Fate)
    requires Orderly(o) && Ended(o, f)
    ensures Ended(Step(o, e), After(o, e, f))
  {
    hide Read;
  }

  lemma {:induction false} RunEnded(o: Ota, events: seq<Event>, f: Fate)
    requires Orderly(o) && Ended(o, f)
    ensures Orderly(Run(o, events)) && Ended(Run(o, events), FateOf(o, events, f))
    decreases |events|
  {
    hide Step, Orderly, Ended, After;
    if |events| > 0 {
      StepOrderly(o, events[0]);
      StepEnded(o, events[0], f);
      RunEnded(Step(o, events[0]), events[1..], After(o, events[0], f));
    }
  }

  /** Over every run: once a write of the transfer being received is reported failed, and until
      another BEGIN starts, the phase is FAILED (IDLE after an ABORT or a new session), no chunk is
      accepted, every FINALIZE is refused, and no event makes the image activatable. */
  lemma FailedWriteIsFatal(o: Ota, events: seq<Event>, e: Event)
    requires Booted(o) && !FateOf(o, events, Whole).Whole?
    ensures var r := Run(o, events);
            && (if FateOf(o, events, Whole).Spoiled? then r.phase.Failed? else r.phase.Idle?)
            && (e.Streams? ==> HandleFrame(r, e.payload, e.writes) == (r, true))
            && (e.Finalizes? && e.of.Some? ==>
                  Step(r, e).log == r.log + [Answered(e.request, if r.pending.Some? then Busy else NotReady)])
            && !Step(r, e).phase.ReadyToActivate? && !Step(r, e).phase.Receiving? && !Step(r, e).phase.Verifying?
  {
    hide Run, FateOf, Read;
    RunEnded(o, events, Whole);
  }

  /** So an image is activatable, or being received or verified, only if no write of it was reported
      failed while it was received. */
  lemma ReadyOnlyIfWhole(o: Ota, events: seq<Event>)
    requires Booted(o)
    ensures var p := Run(o, events).phase;
            p.ReadyToActivate? || p.Receiving? || p.Verifying? ==> FateOf(o, events, Whole).Whole?
  {
    hide Run, FateOf;
    RunEnded(o, events, Whole);
  }

  /** Only a failure reported while receiving counts: one that arrives during verification is dropped,
      and the image becomes activatable although the flash did not take the chunk. */
  lemma LateFailureIgnored(o: Ota, bytes: uint64)
    requires o.phase.Verifying? && o.pending.Some? && o.pending.value.kind.Finalize?
    requires o.pending.value.session == o.session
    ensures var r := Step(o, Writes(o.transfer, bytes, false));
            r == o && Step(r, Completes(o.pending.value.operation, true)).phase.ReadyToActivate?
  {
  }

  // ---------------------------------------------------------------------------------------
  // Progress
  // ---------------------------------------------------------------------------------------

  predicate Reported(o: Ota) {
    o.phase.Receiving? || o.phase.Verifying? ==> o.reported <= o.received
  }

  lemma StepReported(o: Ota, e: Event)
    requires Reported(o) && Orderly(o)
    requires o.pending.Some? && o.pending.value.kind.Begin? ==> o.reported <= o.received
    ensures Reported(Step(o, e))
    ensures var o' := Step(o, e); o'.pending.Some? && o'.pending.value.kind.Begin? ==> o'.reported <= o'.received
  {
    hide Read;
  }

  lemma {:induction false} RunReported(o: Ota, events: seq<Event>)
    requires Reported(o) && Orderly(o)
    requires o.pending.Some? && o.pending.value.kind.Begin? ==> o.reported <= o.received
    ensures Reported(Run(o, events))
    decreases |events|
  {
    hide Step, Orderly, Reported;
    if |events| > 0 {
      StepOrderly(o, events[0]);
      StepReported(o, events[0]);
      RunReported(Step(o, events[0]), events[1..]);
    }
  }

  /** In every run a durable write of the transfer being received raises the bytes received and never
      lowers them; it reports progress exactly when the image is complete or 65536 bytes have come in
      since the last report, and then reports all of them. */
  lemma ProgressExactly(o: Ota, events: seq<Event>, bytes: uint64)
    requires Booted(o) && Run(o, events).phase.Receiving?
    ensures var r := Run(o, events);
            var r' := Step(r, Writes(r.transfer, bytes, true));
            && r'.received >= r.received && r'.received >= bytes
            && (r'.received == r.received || r'.received == bytes) && r'.phase.Receiving?
            && (if r'.received == r.imageSize || r'.received - r.reported >= 65536
                then r'.log == r.log + [Progress(Receiving, r'.received)] && r'.reported == r'.received
                else r'.log == r.log && r'.reported == r.reported)
  {
    RunReported(o, events);
    var r := Run(o, events);
    hide Run;
    var received := if bytes > r.received then bytes else r.received;
    assert (received as int - r.reported) % 0x1_0000_0000_0000_0000 == received - r.reported;
  }

  // ---------------------------------------------------------------------------------------
  // Operation ids
  // ---------------------------------------------------------------------------------------

  /** The event hands an operation to the backend, whether it takes it or not. */
  predicate Hands(o: Ota, e: Event) {
    match e
    case Begins(_, _, _, _) => Starts(o, e)
    case Finalizes(_, of, _) => o.pending.None? && o.phase.Receiving? && of == Some(o.transfer)
    case Aborts(_, of, present, _) => o.pending.None? && !IsIdle(o.phase) && of == Some(o.transfer) && present
    case Activates(_, of, _) => o.pending.None? && o.phase.ReadyToActivate? && of == Some(o.transfer)
    case _ => false
  }

  function Handed(o: Ota, events: seq<Event>): nat
    decreases |events|
  {
    if |events| == 0 then 0
    else (if Hands(o, events[0]) then 1 else 0) + Handed(Step(o, events[0]), events[1..])
  }

  function Begun(o: Ota, events: seq<Event>): nat
    decreases |events|
  {
    if |events| == 0 then 0
    else (if Starts(o, events[0]) then 1 else 0) + Begun(Step(o, events[0]), events[1..])
  }

  /** The pending operation was the last one handed over, and the next gets the next id. */
  predicate InTurn(o: Ota, first: uint32, n: nat) {
    && o.nextOperation == Counter(first, n)
    && (o.pending.Some? ==> n > 0 && o.pending.value.operation == IdOf(first, n - 1))
  }

  lemma StepInTurn(o: Ota, e: Event, first: uint32, n: nat)
    requires InTurn(o, first, n)
    ensures InTurn(Step(o, e), first, if Hands(o, e) then n + 1 else n)
  {
    hide Read;
  }

  lemma {:induction false} RunInTurn(o: Ota, events: seq<Event>, first: uint32, n: nat)
    requires InTurn(o, first, n)
    ensures InTurn(Run(o, events), first, n + Handed(o, events))
    decreases |events|
  {
    hide Step, InTurn, Hands;
    if |events| > 0 {
      StepInTurn(o, events[0], first, n);
      RunInTurn(Step(o, events[0]), events[1..], first, if Hands(o, events[0]) then n + 1 else n);
    }
  }

  /** Over every run the operations are numbered in turn, so a completion of any other one handed over
      in the same 2^32 - 1 changes nothing. */
  lemma OthersIgnored(o: Ota, events: seq<Event>, m: nat, succeeded: bool)
    requires Booted(o) && Run(o, events).pending.Some?
    requires var n := Handed(o, events); m + 1 != n && m + 1 < n + IDS && n < m + 1 + IDS
    ensures Handed(o, events) > 0
    ensures Run(o, events).pending.value.operation == IdOf(o.nextOperation, Handed(o, events) - 1)
    ensures Step(Run(o, events), Completes(IdOf(o.nextOperation, m), succeeded)) == Run(o, events)
  {
    hide Run, Handed, Counter, IdOf;
    assert InTurn(o, o.nextOperation, 0) by { NoneYet(o.nextOperation); }
    RunInTurn(o, events, o.nextOperation, 0);
    LateCompletionIgnored(Run(o, events), o.nextOperation, m, Handed(o, events) - 1, succeeded);
  }

  lemma NoneYet(first: uint32)
    ensures Counter(first, 0) == first
  {
  }

  lemma TransferInTurn(o: Ota, e: Event)
    ensures Step(o, e).nextTransfer == if Starts(o, e) then Fresh(o.nextTransfer).1 else o.nextTransfer
    ensures Starts(o, e) ==> Step(o, e).transfer == Fresh(o.nextTransfer).0
  {
    hide Read;
  }

  lemma {:induction false} RunTransfers(o: Ota, events: seq<Event>, first: uint32, n: nat)
    requires o.nextTransfer == Counter(first, n)
    ensures Run(o, events).nextTransfer == Counter(first, n + Begun(o, events))
    decreases |events|
  {
    hide Step, Starts, Fresh;
    if |events| > 0 {
      TransferInTurn(o, events[0]);
      CounterNext(first, n);
      RunTransfers(Step(o, events[0]), events[1..], first, if Starts(o, events[0]) then n + 1 else n);
    }
  }

  lemma CounterNext(first: uint32, n: nat)
    ensures Counter(first, n + 1) == Fresh(Counter(first, n)).1
  {
  }

  /** Over every run the transfers are numbered in turn, so two of the same 2^32 - 1 never share an
      id. */
  lemma TransfersNumbered(o: Ota, events: seq<Event>, e: Event)
    requires Starts(Run(o, events), e)
    ensures Step(Run(o, events), e).transfer == IdOf(o.nextTransfer, Begun(o, events))
  {
    hide Step, Run, Begun, Starts, Fresh;
    NoneYet(o.nextTransfer);
    RunTransfers(o, events, o.nextTransfer, 0);
    TransferInTurn(Run(o, events), e);
  }
}
