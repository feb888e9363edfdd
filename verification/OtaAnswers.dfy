/** Which OTA requests are answered: every one exactly once, unless it did not decode, found no
    memory, or was pending when its session ended. */
module OtaAnswers {
  import opened Bytes
  import opened OtaStream
  import opened OtaReceiver

  function Drops(log: seq<Entry>): multiset<nat>
    decreases |log|
  {
    if |log| == 0 then multiset{}
    else
      var e := log[|log| - 1];
      Drops(log[..|log| - 1]) + if e.Dropped? then multiset{e.request} else multiset{}
  }

  function Answers(log: seq<Entry>): multiset<nat>
    decreases |log|
  {
    if |log| == 0 then multiset{}
    else
      var e := log[|log| - 1];
      Answers(log[..|log| - 1]) + if e.Answered? then multiset{e.request} else multiset{}
  }

  lemma {:induction false} ConcludedSplits(log: seq<Entry>)
    ensures Concluded(log) == Answers(log) + Drops(log)
    decreases |log|
  {
    if |log| > 0 {
      ConcludedSplits(log[..|log| - 1]);
    }
  }

  /** The requests one event ends without an answer. */
  function DroppedBy(o: Ota, e: Event): multiset<nat> {
    match e
    case Begins(request, alloc, message, _) =>
      if o.pending.None? && IsIdle(o.phase) && (!alloc || message.None?) then multiset{request} else multiset{}
    case Finalizes(request, of, _) => if of.None? then multiset{request} else multiset{}
    case Aborts(request, of, _, _) => if of.None? then multiset{request} else multiset{}
    case Activates(request, of, _) => if of.None? then multiset{request} else multiset{}
    case Resets(_) => Outstanding(o)
    case _ => multiset{}
  }

  function AllDropped(o: Ota, events: seq<Event>): multiset<nat>
    decreases |events|
  {
    if |events| == 0 then multiset{} else DroppedBy(o, events[0]) + AllDropped(Step(o, events[0]), events[1..])
  }

  lemma LogDrops(o: Ota, e: Entry)
    ensures Drops(Log(o, e).log) == Drops(o.log) + if e.Dropped? then multiset{e.request} else multiset{}
    ensures !e.Dropped? ==> Drops(Log(o, e).log) == Drops(o.log)
  {
    assert (o.log + [e])[..|o.log|] == o.log;
  }

  lemma EnterDrops(o: Ota, phase: Phase)
    ensures Drops(Enter(o, phase).log) == Drops(o.log)
  {
    hide Drops;
    LogDrops(o.(phase := phase, reported := o.received), Progress(phase, o.received));
  }

  lemma SubmittedDrops(o: Ota, request: nat, accepted: bool)
    ensures Drops(Submitted(o, request, accepted).log) == Drops(o.log)
  {
    hide Drops;
    LogDrops(o.(pending := None), Answered(request, Internal));
  }

  lemma BeginDrops(o: Ota, e: Event)
    requires e.Begins?
    ensures Drops(Step(o, e).log) == Drops(o.log) + DroppedBy(o, e)
  {
    hide Drops, Submitted;
    LogDrops(o, Answered(e.request, Busy));
    LogDrops(o, Answered(e.request, Invalid));
    LogDrops(o, Dropped(e.request));
    if e.message.Some? {
      var (transfer, next) := Fresh(o.nextTransfer);
      var begun := o.(nextTransfer := next, transfer := transfer, imageSize := e.message.value.size,
                      accepted := 0, received := 0, reported := 0);
      LogDrops(begun, Began(transfer, e.message.value.size));
      var logged := Log(begun, Began(transfer, e.message.value.size));
      SubmittedDrops(Submit(logged, e.request, Begin), e.request, e.accepted);
    }
  }

  lemma ControlDrops(o: Ota, e: Event)
    requires e.Finalizes? || e.Aborts? || e.Activates? || e.Queries?
    ensures Drops(Step(o, e).log) == Drops(o.log) + DroppedBy(o, e)
  {
    hide Drops, Submitted, Enter;
    var request := e.request;
    LogDrops(o, Answered(request, Busy));
    LogDrops(o, Answered(request, NotReady));
    LogDrops(o, Answered(request, NotFound));
    LogDrops(o, Answered(request, Fine));
    LogDrops(o, Dropped(request));
    match e
    case Finalizes(_, _, accepted) =>
      EnterDrops(Submit(o, request, Finalize), Verifying);
      SubmittedDrops(Enter(Submit(o, request, Finalize), Verifying), request, accepted);
    case Aborts(_, _, _, accepted) =>
      EnterDrops(o, Idle);
      LogDrops(Enter(o, Idle).(transfer := 0), Answered(request, Fine));
      SubmittedDrops(Submit(o, request, Abort), request, accepted);
    case Activates(_, _, accepted) =>
      SubmittedDrops(Submit(o, request, Activate), request, accepted);
    case Queries(_) =>
  }

  lemma CompletedDrops(o: Ota, operation: uint32, succeeded: bool)
    ensures Drops(Completed(o, operation, succeeded).log) == Drops(o.log)
  {
    hide Drops, Enter;
    if Matches(o, operation) {
      var request := o.pending.value.request;
      var idle := o.(pending := None);
      EnterDrops(idle, Failed);
      EnterDrops(idle, Receiving);
      EnterDrops(idle, ReadyToActivate);
      LogDrops(idle, Answered(request, Internal));
      LogDrops(idle, Answered(request, Fine));
      LogDrops(Enter(idle, Failed), Answered(request, Internal));
      LogDrops(Enter(idle, Receiving), Answered(request, Fine));
      LogDrops(Enter(idle, ReadyToActivate), Answered(request, Fine));
      EnterDrops(Log(idle, Answered(request, Fine)), Idle);
    }
  }

  lemma DataDrops(o: Ota, e: Event)
    requires e.Streams? || e.Writes? || e.Resets?
    ensures Drops(Step(o, e).log) == Drops(o.log) + DroppedBy(o, e)
  {
    hide Drops, Enter, Read;
    EnterDrops(o, Failed);
    match e
    case Streams(payload, _) =>
      if Read(payload).Some? && Acceptable(o, Read(payload).value) {
        var c := Read(payload).value;
        LogDrops(o.(accepted := o.accepted + |c.data|), Accepted(c));
      }
    case Writes(_, bytes, _) =>
      var o' := o.(received := if bytes > o.received then bytes else o.received);
      LogDrops(o'.(reported := o'.received), Progress(o'.phase, o'.received));
    case Resets(_) =>
      if o.pending.Some? {
        LogDrops(o, Dropped(o.pending.value.request));
      }
  }

  lemma StepDrops(o: Ota, e: Event)
    ensures Drops(Step(o, e).log) == Drops(o.log) + DroppedBy(o, e)
  {
    hide Drops, HandleFrame, HandleBegin, HandleFinalize, HandleAbort, HandleActivate, Completed, WriteDone, Reset;
    match e
    case Begins(_, _, _, _) => BeginDrops(o, e);
    case Completes(operation, succeeded) => CompletedDrops(o, operation, succeeded);
    case Streams(_, _) => DataDrops(o, e);
    case Writes(_, _, _) => DataDrops(o, e);
    case Resets(_) => DataDrops(o, e);
    case _ => ControlDrops(o, e);
  }

  lemma {:induction false} RunDrops(o: Ota, events: seq<Event>)
    ensures Drops(Run(o, events).log) == Drops(o.log) + AllDropped(o, events)
    decreases |events|
  {
    hide Step, Drops, DroppedBy;
    if |events| > 0 {
      StepDrops(o, events[0]);
      RunDrops(Step(o, events[0]), events[1..]);
      assert Drops(o.log) + AllDropped(o, events) ==
        Drops(o.log) + DroppedBy(o, events[0]) + AllDropped(Step(o, events[0]), events[1..]);
    } else {
      assert Drops(o.log) + multiset{} == Drops(o.log);
    }
  }

  /** From boot on, over every interleaving, the requests answered, the one pending and those ended
      without an answer are together the requests made, each counted once. */
  lemma AnsweredExactly(o: Ota, events: seq<Event>)
    requires Booted(o)
    ensures var r := Run(o, events);
            Answers(r.log) + Outstanding(r) + AllDropped(o, events) == AllAsked(events)
  {
    hide Run, AllAsked, AllDropped;
    RequestsConclude(o, events);
    RunDrops(o, events);
    ConcludedSplits(Run(o, events).log);
    BootedEmpty(o);
    Regroup(Concluded(o.log) + Outstanding(o), Answers(Run(o, events).log), Drops(Run(o, events).log),
            Outstanding(Run(o, events)), AllDropped(o, events), AllAsked(events), Drops(o.log));
  }

  lemma BootedEmpty(o: Ota)
    requires Booted(o)
    ensures Concluded(o.log) + Outstanding(o) == multiset{} && Drops(o.log) == multiset{}
  {
  }

  lemma Regroup(start: multiset<nat>, answers: multiset<nat>, drops: multiset<nat>, outstanding: multiset<nat>,
                dropped: multiset<nat>, asked: multiset<nat>, none: multiset<nat>)
    requires answers + drops + outstanding == start + asked && start == multiset{} && none == multiset{}
    requires drops == none + dropped
    ensures answers + outstanding + dropped == asked
  {
    assert drops == dropped;
    assert answers + outstanding + dropped == answers + drops + outstanding;
    assert start + asked == asked;
  }

  /** Exactly one response each: when all requests decode and find memory, no session ends with a
      request pending, and the backend has completed what it was given. */
  lemma EachAnsweredOnce(o: Ota, events: seq<Event>)
    requires Booted(o) && AllDropped(o, events) == multiset{} && Run(o, events).pending.None?
    ensures Answers(Run(o, events).log) == AllAsked(events)
  {
    hide Run, AllAsked, AllDropped;
    AnsweredExactly(o, events);
    var answers := Answers(Run(o, events).log);
    assert answers + multiset{} + multiset{} == answers;
  }
}
