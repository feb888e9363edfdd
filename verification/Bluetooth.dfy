/** The Coprocessor's Bluetooth lifecycle and its HCI receive path
    (coproc-core/src/coproc_bluetooth.c). */
module Bluetooth {
  import opened Bytes
  import RawRecord
  import Receiver
  import R = OtaReceiver

  datatype State = Unspecified | Disabled | Enabled | Error

  datatype Operation = Initialize | Enable | Disable | Deinitialize | GetInfo

  datatype Status = Fine | Busy | NotReady | NotSupported | Internal

  datatype Pending = Pending(operation: uint32, session: uint32, request: nat, kind: Operation)

  datatype Entry = Answered(request: nat, status: Status) | Dropped(request: nat)

  datatype Controller = Controller(
    session: uint32,
    state: State,
    stopped: bool,
    pending: Option<Pending>,
    nextOperation: uint32,
    log: seq<Entry>)

  function Log(c: Controller, e: Entry): Controller {
    c.(log := c.log + [e])
  }

  function Submit(c: Controller, request: nat, kind: Operation, accepted: bool): Controller {
    var (operation, next) := R.Fresh(c.nextOperation);
    var submitted := c.(nextOperation := next);
    if accepted then submitted.(pending := Some(Pending(operation, c.session, request, kind)))
    else Log(submitted, Answered(request, Internal))
  }

  /** What the state alone already answers. */
  function AtOnce(state: State, kind: Operation): Option<Status> {
    match kind
    case Initialize => if state.Unspecified? then None else Some(Fine)
    case Enable =>
      if state.Unspecified? || state.Error? then Some(NotReady) else if state.Enabled? then Some(Fine) else None
    case Disable => if state.Unspecified? || state.Disabled? then Some(Fine) else None
    case Deinitialize => if state.Unspecified? then Some(Fine) else None
    case GetInfo => None
  }

  predicate Decoded(kind: Operation) {
    kind.Initialize? || kind.Enable? || kind.Deinitialize?
  }

  /** `hci` says whether an INITIALIZE asks for the HCI transport. */
  function Handle(c: Controller, request: nat, kind: Operation, decodes: bool, hci: bool, accepted: bool): Controller {
    if Decoded(kind) && !decodes then Log(c, Dropped(request))
    else if kind.Initialize? && !hci then Log(c, Answered(request, NotSupported))
    else if c.pending.Some? then Log(c, Answered(request, Busy))
    else
      match AtOnce(c.state, kind)
      case Some(status) => Log(c, Answered(request, status))
      case None => Submit(c, request, kind, accepted)
  }

  predicate Matches(c: Controller, operation: uint32, info: bool) {
    c.pending.Some? && c.pending.value.kind.GetInfo? == info && operation == c.pending.value.operation &&
    c.pending.value.session == c.session
  }

  /** `bluetooth_operation_completed`, and `bluetooth_info_completed` for GET_INFO. */
  function Completed(c: Controller, operation: uint32, info: bool, succeeded: bool): Controller {
    if !Matches(c, operation, info) then c
    else
      var p := c.pending.value;
      var idle := c.(pending := None);
      if !succeeded then Log(idle, Answered(p.request, Internal))
      else
        var done := match p.kind
                    case Initialize => idle.(state := Disabled)
                    case Enable => idle.(state := Enabled)
                    case Disable => idle.(state := Disabled, stopped := false)
                    case Deinitialize => idle.(state := Unspecified, stopped := false)
                    case GetInfo => idle;
        Log(done, Answered(p.request, Fine))
  }

  function EnterError(c: Controller): Controller {
    c.(state := Error, stopped := true)
  }

  function Reset(c: Controller, session: uint32): Controller {
    var dropped := if c.pending.Some? then Log(c, Dropped(c.pending.value.request)) else c;
    dropped.(session := session, state := Unspecified, stopped := false, pending := None)
  }

  // ---------------------------------------------------------------------------------------
  // HCI frames
  // ---------------------------------------------------------------------------------------

  const COMMAND: byte := 1
  const ACL: byte := 2
  const MAX_PACKET: nat := 1024

  predicate PacketValid(kind: byte, packet: seq<byte>) {
    |packet| <= MAX_PACKET &&
    if kind == COMMAND then |packet| >= 3 && packet[2] as int + 3 == |packet|
    else if kind == ACL then |packet| >= 4 && packet[2] as int + packet[3] as int * 0x100 + 4 == |packet|
    else false
  }

  predicate AllValid(rs: seq<RawRecord.Record>) {
    forall k :: 0 <= k < |rs| ==> PacketValid(rs[k].kind, rs[k].payload)
  }

  /** A frame the validation pass lets through: records to the end, all valid. */
  predicate FrameValid(payload: seq<byte>) {
    |payload| != 0 && RawRecord.Parse(payload).Some? && AllValid(RawRecord.Parse(payload).value)
  }

  /** How many of the records from `n` on are handed over: up to the first the backend refuses. */
  function HandedFrom(rs: seq<RawRecord.Record>, takes: seq<bool>, n: nat): (r: nat)
    requires n <= |rs|
    ensures n <= r <= |rs|
    decreases |rs| - n
  {
    if n == |rs| || n >= |takes| || !takes[n] then n else HandedFrom(rs, takes, n + 1)
  }

  /** What becomes of one HCI frame: whether HCI is stopped afterwards, how many records were handed
      over, and whether its credit goes back. */
  datatype Reception = Reception(stopped: bool, handed: nat, credit: bool)

  function Received(stopped: bool, payload: seq<byte>, takes: seq<bool>): Reception {
    if stopped || !FrameValid(payload) then Reception(true, 0, false)
    else
      var rs := RawRecord.Parse(payload).value;
      var n := HandedFrom(rs, takes, 0);
      Reception(false, n, n == |rs|)
  }

  datatype Event =
    | Handles(request: nat, kind: Operation, decodes: bool, hci: bool, accepted: bool)
    | Completes(operation: uint32, info: bool, succeeded: bool)
    | Frames(payload: seq<byte>)
    | Fails
    | Resets(session: uint32)

  function Step(c: Controller, e: Event): Controller {
    match e
    case Handles(request, kind, decodes, hci, accepted) => Handle(c, request, kind, decodes, hci, accepted)
    case Completes(operation, info, succeeded) => Completed(c, operation, info, succeeded)
    case Frames(payload) => if c.stopped || FrameValid(payload) then c else EnterError(c)
    case Fails => EnterError(c)
    case Resets(session) => Reset(c, session)
  }

  function Run(c: Controller, events: seq<Event>): Controller
    decreases |events|
  {
    if |events| == 0 then c else Run(Step(c, events[0]), events[1..])
  }

  // ---------------------------------------------------------------------------------------
  // Correlation
  // ---------------------------------------------------------------------------------------

  function Concluded(log: seq<Entry>): multiset<nat>
    decreases |log|
  {
    if |log| == 0 then multiset{} else Concluded(log[..|log| - 1]) + multiset{log[|log| - 1].request}
  }

  function Settled(c: Controller): multiset<nat> {
    Concluded(c.log) + if c.pending.Some? then multiset{c.pending.value.request} else multiset{}
  }

  function Asked(e: Event): multiset<nat> {
    if e.Handles? then multiset{e.request} else multiset{}
  }

  function AllAsked(events: seq<Event>): multiset<nat>
    decreases |events|
  {
    if |events| == 0 then multiset{} else Asked(events[0]) + AllAsked(events[1..])
  }

  lemma LogSettles(c: Controller, e: Entry)
    ensures Settled(Log(c, e)) == Settled(c) + multiset{e.request}
  {
    assert (c.log + [e])[..|c.log|] == c.log;
  }

  lemma ClearSettles(c: Controller, c': Controller, e: Entry)
    requires c.pending.Some? && c'.pending.None? && c'.log == c.log && e.request == c.pending.value.request
    ensures Settled(Log(c', e)) == Settled(c)
  {
    hide Concluded;
    LogSettles(c', e);
  }

  lemma SubmitSettles(c: Controller, request: nat, kind: Operation, accepted: bool)
    requires c.pending.None?
    ensures Settled(Submit(c, request, kind, accepted)) == Settled(c) + multiset{request}
  {
    hide Concluded;
    var (_, next) := R.Fresh(c.nextOperation);
    LogSettles(c.(nextOperation := next), Answered(request, Internal));
  }

  lemma HandleSettles(c: Controller, request: nat, kind: Operation, decodes: bool, hci: bool, accepted: bool)
    ensures Settled(Handle(c, request, kind, decodes, hci, accepted)) == Settled(c) + multiset{request}
  {
    hide Settled, Submit;
    LogSettles(c, Dropped(request));
    LogSettles(c, Answered(request, NotSupported));
    LogSettles(c, Answered(request, Busy));
    match AtOnce(c.state, kind)
    case Some(status) => LogSettles(c, Answered(request, status));
    case None =>
      if c.pending.None? {
        SubmitSettles(c, request, kind, accepted);
      }
  }

  lemma CompletedSettles(c: Controller, operation: uint32, info: bool, succeeded: bool)
    ensures Settled(Completed(c, operation, info, succeeded)) == Settled(c)
  {
    hide Settled;
    if Matches(c, operation, info) {
      var p := c.pending.value;
      var idle := c.(pending := None);
      ClearSettles(c, idle, Answered(p.request, Internal));
      ClearSettles(c, idle.(state := Disabled), Answered(p.request, Fine));
      ClearSettles(c, idle.(state := Enabled), Answered(p.request, Fine));
      ClearSettles(c, idle.(state := Disabled, stopped := false), Answered(p.request, Fine));
      ClearSettles(c, idle.(state := Unspecified, stopped := false), Answered(p.request, Fine));
      ClearSettles(c, idle, Answered(p.request, Fine));
    }
  }

  lemma StepSettles(c: Controller, e: Event)
    ensures Settled(Step(c, e)) == Settled(c) + Asked(e)
  {
    hide Concluded, Handle, Completed, FrameValid;
    assert Settled(c) + multiset{} == Settled(c);
    match e
    case Handles(request, kind, decodes, hci, accepted) => HandleSettles(c, request, kind, decodes, hci, accepted);
    case Completes(operation, info, succeeded) => CompletedSettles(c, operation, info, succeeded);
    case Frames(_) =>
    case Fails =>
    case Resets(session) =>
      if c.pending.Some? {
        ClearSettles(c, c.(pending := None), Dropped(c.pending.value.request));
      }
  }

  /** Over every interleaving each lifecycle request is concluded exactly once, or is the one
      pending. */
  lemma {:induction false} RequestsConclude(c: Controller, events: seq<Event>)
    ensures Settled(Run(c, events)) == Settled(c) + AllAsked(events)
    decreases |events|
  {
    hide Step, Settled;
    if |events| > 0 {
      StepSettles(c, events[0]);
      RequestsConclude(Step(c, events[0]), events[1..]);
      assert Settled(c) + AllAsked(events) == Settled(c) + Asked(events[0]) + AllAsked(events[1..]);
    } else {
      assert Settled(c) + multiset{} == Settled(c);
    }
  }

  function Drops(log: seq<Entry>): multiset<nat>
    decreases |log|
  {
    if |log| == 0 then multiset{}
    else
      var e := log[|log| - 1];
      Drops(log[..|log| - 1]) + if e.Dropped? then multiset{e.request} else multiset{}
  }

  function Answers(log: seq<Entry>): multiset<nat>
    decreases |log|
  {
    if |log| == 0 then multiset{}
    else
      var e := log[|log| - 1];
      Answers(log[..|log| - 1]) + if e.Answered? then multiset{e.request} else multiset{}
  }

  lemma {:induction false} ConcludedSplits(log: seq<Entry>)
    ensures Concluded(log) == Answers(log) + Drops(log)
    decreases |log|
  {
    if |log| > 0 {
      ConcludedSplits(log[..|log| - 1]);
    }
  }

  /** The requests one event ends without an answer: those that do not decode, and the one pending
      when the session ends. */
  function DroppedBy(c: Controller, e: Event): multiset<nat> {
    match e
    case Handles(request, kind, decodes, _, _) => if Decoded(kind) && !decodes then multiset{request} else multiset{}
    case Resets(_) => if c.pending.Some? then multiset{c.pending.value.request} else multiset{}
    case _ => multiset{}
  }

  function AllDropped(c: Controller, events: seq<Event>): multiset<nat>
    decreases |events|
  {
    if |events| == 0 then multiset{} else DroppedBy(c, events[0]) + AllDropped(Step(c, events[0]), events[1..])
  }

  lemma LogDrops(c: Controller, e: Entry)
    ensures Drops(Log(c, e).log) == Drops(c.log) + if e.Dropped? then multiset{e.request} else multiset{}
    ensures e.Answered? ==> Drops(Log(c, e).log) == Drops(c.log)
  {
    assert (c.log + [e])[..|c.log|] == c.log;
  }

  lemma HandleDrops(c: Controller, e: Event)
    requires e.Handles?
    ensures Drops(Step(c, e).log) == Drops(c.log) + DroppedBy(c, e)
  {
    hide Drops;
    LogDrops(c, Dropped(e.request));
    forall status
      ensures Drops(Log(c, Answered(e.request, status)).log) == Drops(c.log)
    {
      LogDrops(c, Answered(e.request, status));
    }
    var (_, next) := R.Fresh(c.nextOperation);
    LogDrops(c.(nextOperation := next), Answered(e.request, Internal));
  }

  lemma StepDrops(c: Controller, e: Event)
    ensures Drops(Step(c, e).log) == Drops(c.log) + DroppedBy(c, e)
  {
    hide Drops, FrameValid, Handle;
    match e
    case Handles(_, _, _, _, _) => HandleDrops(c, e);
    case Completes(_, _, _) =>
      if c.pending.Some? {
        var request := c.pending.value.request;
        LogDrops(c, Answered(request, Internal));
        LogDrops(c, Answered(request, Fine));
      }
    case Resets(_) =>
      if c.pending.Some? {
        LogDrops(c, Dropped(c.pending.value.request));
      }
    case _ =>
  }

  lemma {:induction false} RunDrops(c: Controller, events: seq<Event>)
    ensures Drops(Run(c, events).log) == Drops(c.log) + AllDropped(c, events)
    decreases |events|
  {
    hide Step, Drops, DroppedBy;
    if |events| > 0 {
      StepDrops(c, events[0]);
      RunDrops(Step(c, events[0]), events[1..]);
      assert Drops(c.log) + AllDropped(c, events) ==
        Drops(c.log) + DroppedBy(c, events[0]) + AllDropped(Step(c, events[0]), events[1..]);
    } else {
      assert Drops(c.log) + multiset{} == Drops(c.log);
    }
  }

  /** Exactly one response each: when all requests decode, no session ends with a request pending,
      and the backend has completed what it was given. */
  lemma EachAnsweredOnce(c: Controller, events: seq<Event>)
    requires c.log == [] && c.pending.None? && AllDropped(c, events) == multiset{} && Run(c, events).pending.None?
    ensures Answers(Run(c, events).log) == AllAsked(events)
  {
    hide Run, AllAsked, AllDropped;
    RequestsConclude(c, events);
    RunDrops(c, events);
    var r := Run(c, events);
    ConcludedSplits(r.log);
    assert Settled(c) == multiset{} && Drops(c.log) == multiset{};
    assert Answers(r.log) + multiset{} + multiset{} == Answers(r.log);
    assert multiset{} + AllAsked(events) == AllAsked(events);
  }

  /** The late completion of an operation other than the pending one, submitted within the last
      2^32 - 1 operations, changes nothing; nor does a completion of the wrong sort. */
  lemma LateCompletionIgnored(c: Controller, first: uint32, m: nat, n: nat, info: bool, succeeded: bool)
    requires c.pending.Some? && c.pending.value.operation == R.IdOf(first, n)
    requires m != n && m < n + R.IDS && n < m + R.IDS
    ensures Completed(c, R.IdOf(first, m), info, succeeded) == c
  {
    hide R.IdOf;
    R.IdsCycle(first, m);
    R.IdsCycle(first, n);
    var base := R.IdOf(first, 0) - 1;
    if m < n {
      R.CycleSeparates(base + m, n - m);
    } else {
      R.CycleSeparates(base + n, m - n);
    }
  }

  // ---------------------------------------------------------------------------------------
  // The error latch
  // ---------------------------------------------------------------------------------------

  /** In the ERROR state HCI is always stopped. */
  lemma {:induction false} ErrorStopsHci(c: Controller, events: seq<Event>)
    requires c.state.Error? ==> c.stopped
    ensures Run(c, events).state.Error? ==> Run(c, events).stopped
    decreases |events|
  {
    hide FrameValid;
    if |events| > 0 {
      ErrorStopsHci(Step(c, events[0]), events[1..]);
    }
  }

  /** The latch opens only by a successful DISABLE or DEINITIALIZE, or a new session. */
  lemma LatchOpensOnly(c: Controller, e: Event)
    requires c.stopped
    ensures !Step(c, e).stopped <==>
            || e.Resets?
            || (e.Completes? && e.succeeded && Matches(c, e.operation, e.info)
                && (c.pending.value.kind.Disable? || c.pending.value.kind.Deinitialize?))
  {
    hide FrameValid;
  }

  /** But the state can leave ERROR with HCI still stopped: exactly when an INITIALIZE or ENABLE
      that was pending while HCI stopped completes successfully. */
  lemma StoppedOutsideErrorExactly(c: Controller, e: Event)
    requires c.stopped ==> c.state.Error?
    ensures (Step(c, e).stopped && !Step(c, e).state.Error?) <==>
            && c.stopped && e.Completes? && e.succeeded && Matches(c, e.operation, e.info)
            && (c.pending.value.kind.Initialize? || c.pending.value.kind.Enable?)
  {
    hide FrameValid;
  }

  lemma EnabledButStopped() returns (events: seq<Event>)
    ensures var c := Run(Controller(1, Disabled, false, None, 1, []), events);
            c.state.Enabled? && c.stopped
  {
    events := [Handles(7, Enable, true, true, true), Fails, Completes(1, false, true)];
    assert events[1..] == [Fails, Completes(1, false, true)];
    assert events[1..][1..] == [Completes(1, false, true)];
  }

  // ---------------------------------------------------------------------------------------
  // The lifecycle and the receive path in code
  // ---------------------------------------------------------------------------------------

  /** The lifecycle fields, updated in place. */
  class Lifecycle {
    var session: uint32
    var state: State
    var stopped: bool
    var pending: Option<Pending>
    var nextOperation: uint32
    ghost var log: seq<Entry>

    ghost function View(): Controller
      reads this
    {
      Controller(session, state, stopped, pending, nextOperation, log)
    }

    constructor ()
      ensures View() == Controller(0, Unspecified, false, None, 1, [])
    {
      session, state, stopped, pending, nextOperation, log := 0, Unspecified, false, None, 1, [];
    }

    ghost method Conclude(e: Entry)
      modifies this`log
      ensures log == old(log) + [e]
    {
      log := log + [e];
    }

    /** `bluetooth_begin_operation` and `bluetooth_submit_result`. */
    method BeginOperation(request: nat, kind: Operation, accepted: bool)
      requires pending.None?
      modifies this
      ensures View() == Submit(old(View()), request, kind, accepted)
    {
      var operation := nextOperation;
      nextOperation := Wrap32(nextOperation + 1);
      if operation == 0 {
        operation := nextOperation;
        nextOperation := Wrap32(nextOperation + 1);
      }
      pending := Some(Pending(operation, session, request, kind));
      if !accepted {
        pending := None;
        Conclude(Answered(request, Internal));
      }
    }

    /** `handle_bluetooth` */
    method OnRequest(request: nat, kind: Operation, decodes: bool, hci: bool, accepted: bool)
      modifies this
      ensures View() == Handle(old(View()), request, kind, decodes, hci, accepted)
    {
      hide Submit;
      if Decoded(kind) && !decodes {
        Conclude(Dropped(request));
        return;
      }
      if kind.Initialize? && !hci {
        Conclude(Answered(request, NotSupported));
        return;
      }
      if pending.Some? {
        Conclude(Answered(request, Busy));
        return;
      }
      var answer := AtOnce(state, kind);
      if answer.Some? {
        Conclude(Answered(request, answer.value));
        return;
      }
      BeginOperation(request, kind, accepted);
    }

    /** `bluetooth_operation_completed` and `bluetooth_info_completed`. */
    method OnCompleted(operation: uint32, info: bool, succeeded: bool)
      modifies this
      ensures View() == Completed(old(View()), operation, info, succeeded)
    {
      if pending.None? || pending.value.kind.GetInfo? != info || operation != pending.value.operation ||
         pending.value.session != session {
        return;
      }
      var p := pending.value;
      pending := None;
      if !succeeded {
        Conclude(Answered(p.request, Internal));
        return;
      }
      match p.kind {
        case Initialize => state := Disabled;
        case Enable => state := Enabled;
        case Disable =>
          state := Disabled;
          stopped := false;
        case Deinitialize =>
          state := Unspecified;
          stopped := false;
        case GetInfo =>
      }
      Conclude(Answered(p.request, Fine));
    }

    /** `bluetooth_enter_error` */
    method OnError()
      modifies this`state, this`stopped
      ensures View() == EnterError(old(View()))
    {
      state, stopped := Error, true;
    }

    /** The Bluetooth part of a new Hello. */
    method OnReset(next: uint32)
      modifies this
      ensures View() == Reset(old(View()), next)
    {
      if pending.Some? {
        Conclude(Dropped(pending.value.request));
      }
      session, state, stopped, pending := next, Unspecified, false, None;
    }

    /** The service over any run: every request made is answered, dropped or pending, once. */
    method Serve(events: seq<Event>)
      requires log == [] && pending.None?
      modifies this
      ensures View() == Run(old(View()), events)
      ensures Settled(View()) == AllAsked(events)
      ensures AllDropped(old(View()), events) == multiset{} && pending.None? ==> Answers(log) == AllAsked(events)
    {
      hide Handle, Completed, FrameValid;
      RequestsConclude(View(), events);
      assert Settled(View()) + AllAsked(events) == AllAsked(events);
      if AllDropped(View(), events) == multiset{} && Run(View(), events).pending.None? {
        EachAnsweredOnce(View(), events);
      }
      assert events[0..] == events;
      var i := 0;
      while i < |events|
        invariant i <= |events|
        invariant Run(View(), events[i..]) == Run(old(View()), events)
      {
        assert events[i..][0] == events[i] && events[i..][1..] == events[i + 1..];
        match events[i] {
          case Handles(request, kind, decodes, hci, accepted) => OnRequest(request, kind, decodes, hci, accepted);
          case Completes(operation, info, succeeded) => OnCompleted(operation, info, succeeded);
          case Frames(payload) =>
            if !stopped && !FrameValid(payload) {
              OnError();
            }
          case Fails => OnError();
          case Resets(next) => OnReset(next);
        }
        i := i + 1;
      }
      assert events[|events|..] == [];
    }
  }

  class HciReceiver {
    var state: State
    var stopped: bool
    ghost var delivered: seq<RawRecord.Record>

    constructor ()
      ensures state == Unspecified && !stopped && delivered == []
    {
      state, stopped, delivered := Unspecified, false, [];
    }

    /** The validation pass. */
    method ValidateFrame(data: array<byte>, start: nat, size: nat) returns (valid: bool)
      requires start + size <= data.Length
      ensures valid == FrameValid(data[start..start + size])
    {
      hide RawRecord.ParseFrom, RawRecord.Next, Receiver.Prepend, PacketValid, AllValid;
      assert AllValid([]) by { NoneInvalid(); }
      if size == 0 {
        return false;
      }
      ghost var payload := data[start..start + size];
      ghost var seen: seq<RawRecord.Record> := [];
      var it := new RawRecord.Iterator(data, start, size);
      Receiver.ParseStep(payload, 0);
      var step := it.Advance();
      ghost var rest := RawRecord.Parse(payload);
      assert rest.Some? ==> [] + rest.value == rest.value;
      while step.View?
        invariant it.Valid() && it.data == data && it.Content() == payload && fresh(it)
        invariant it.offset <= size && AllValid(seen)
        invariant step.View? ==> step.at + step.size == it.offset &&
                                 rest == Receiver.Prepend(payload, step, RawRecord.ParseFrom(payload, it.offset))
        invariant step.End? ==> rest == Some([])
        invariant step.Bad? ==> rest == None
        invariant RawRecord.Parse(payload) == if rest.None? then None else Some(seen + rest.value)
        decreases size - it.offset, step.View?
      {
        var packet := data[start + step.at..start + step.at + step.size];
        SliceOfSlice(data[..], start, start + size, step.at, step.at + step.size);
        ghost var r := RawRecord.Record(step.kind, step.flags, packet);
        ghost var tail := RawRecord.ParseFrom(payload, it.offset);
        Rejoin(payload, step, tail, seen, r);
        if !PacketValid(step.kind, packet) {
          if tail.Some? {
            OneInvalid(RawRecord.Parse(payload).value, |seen|);
          }
          return false;
        }
        AllValidMore(seen, r);
        seen := seen + [r];
        rest := tail;
        Receiver.ParseStep(payload, it.offset);
        step := it.Advance();
      }
      valid := step.End?;
      assert valid ==> RawRecord.Parse(payload).value == seen;
    }

    /** The delivery pass: stops at the first record the backend refuses. */
    method DeliverFrame(data: array<byte>, start: nat, size: nat, takes: seq<bool>) returns (all: bool)
      requires start + size <= data.Length && RawRecord.Parse(data[start..start + size]).Some?
      modifies this`delivered
      ensures var rs := RawRecord.Parse(data[start..start + size]).value;
              && delivered == old(delivered) + rs[..HandedFrom(rs, takes, 0)]
              && (all <==> HandedFrom(rs, takes, 0) == |rs|)
    {
      hide RawRecord.ParseFrom, RawRecord.Next, Receiver.Prepend;
      ghost var payload := data[start..start + size];
      ghost var rs := RawRecord.Parse(payload).value;
      var it := new RawRecord.Iterator(data, start, size);
      var n := 0;
      Receiver.ParseStep(payload, 0);
      var step := it.Advance();
      assert rs[0..] == rs && delivered + rs[..0] == delivered;
      while step.View?
        invariant it.Valid() && it.data == data && it.Content() == payload && fresh(it)
        invariant it.offset <= size && n <= |rs|
        invariant step.View? ==>
                    && step.at + step.size == it.offset
                    && Receiver.Prepend(payload, step, RawRecord.ParseFrom(payload, it.offset)) == Some(rs[n..])
        invariant !step.View? ==> n == |rs|
        invariant HandedFrom(rs, takes, n) == HandedFrom(rs, takes, 0)
        invariant delivered == old(delivered) + rs[..n]
        decreases size - it.offset, step.View?
      {
        Receiver.PrependTail(payload, step, RawRecord.ParseFrom(payload, it.offset), rs, n);
        if n >= |takes| || !takes[n] {
          return false;
        }
        delivered := delivered + [rs[n]];
        assert rs[..n] + [rs[n]] == rs[..n + 1];
        n := n + 1;
        Receiver.ParseStep(payload, it.offset);
        step := it.Advance();
      }
      all := true;
    }

    /** `process_hci_frame`: a malformed record anywhere delivers nothing and latches the error; the
        credit goes back only if the backend took every record. */
    method OnFrame(data: array<byte>, start: nat, size: nat, takes: seq<bool>) returns (credit: bool)
      requires start + size <= data.Length
      modifies this
      ensures var payload := data[start..start + size];
              var r := Received(old(stopped), payload, takes);
              && stopped == r.stopped && credit == r.credit
              && state == (if stopped && !old(stopped) then Error else old(state))
              && delivered == old(delivered) + if stopped then [] else RawRecord.Parse(payload).value[..r.handed]
    {
      hide RawRecord.ParseFrom, AllValid, HandedFrom;
      assert delivered + [] == delivered;
      if stopped {
        return false;
      }
      var valid := ValidateFrame(data, start, size);
      if !valid {
        state, stopped := Error, true;
        return false;
      }
      credit := DeliverFrame(data, start, size, takes);
    }
  }

  lemma NoneInvalid()
    ensures AllValid([])
  {
  }

  lemma AllValidMore(seen: seq<RawRecord.Record>, r: RawRecord.Record)
    requires AllValid(seen) && PacketValid(r.kind, r.payload)
    ensures AllValid(seen + [r])
  {
    hide PacketValid;
  }

  lemma OneInvalid(rs: seq<RawRecord.Record>, k: nat)
    requires k < |rs| && !PacketValid(rs[k].kind, rs[k].payload)
    ensures !AllValid(rs)
  {
  }

  /** One more record of a payload read. */
  lemma Rejoin(data: seq<byte>, s: RawRecord.Step, tail: Option<seq<RawRecord.Record>>, seen: seq<RawRecord.Record>,
               r: RawRecord.Record)
    requires s.View? && s.at + s.size <= |data|
    requires r == RawRecord.Record(s.kind, s.flags, data[s.at..s.at + s.size])
    ensures var whole := Receiver.Prepend(data, s, tail);
            && (whole.None? <==> tail.None?)
            && (tail.Some? ==> seen + whole.value == (seen + [r]) + tail.value && (seen + whole.value)[|seen|] == r)
  {
  }
}
