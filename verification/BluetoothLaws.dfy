/** What the Bluetooth service owes its Host: the answer each request gets, the events that change the
    controller's state, and the packets that may pass. */
module BluetoothLaws {
  import opened Bytes
  import opened Bluetooth
  import RawRecord
  import R = OtaReceiver

  // ---------------------------------------------------------------------------------------
  // Packets
  // ---------------------------------------------------------------------------------------

  /** A two-byte opcode, the number of parameter bytes, and those bytes. */
  predicate CommandOf(packet: seq<byte>, opcode: seq<byte>, parameters: seq<byte>) {
    |opcode| == 2 && |parameters| < 256 && packet == opcode + [|parameters|] + parameters
  }

  /** A two-byte handle, the number of data bytes, low byte first, and those bytes; with its header at
      most 1024 bytes. */
  predicate AclOf(packet: seq<byte>, handle: seq<byte>, data: seq<byte>) {
    |handle| == 2 && |data| <= 1020 && packet == handle + [|data| % 256, |data| / 256] + data
  }

  lemma CommandExactly(packet: seq<byte>)
    ensures PacketValid(1, packet) <==> exists opcode, parameters :: CommandOf(packet, opcode, parameters)
  {
    if PacketValid(1, packet) {
      assert CommandOf(packet, packet[..2], packet[3..]);
    }
  }

  lemma AclExactly(packet: seq<byte>)
    ensures PacketValid(2, packet) <==> exists handle, data :: AclOf(packet, handle, data)
  {
    hide PacketValid, AclOf;
    if PacketValid(2, packet) {
      AclParts(packet);
    }
    if handle, data :| AclOf(packet, handle, data) {
      AclBuilt(packet, handle, data);
    }
  }

  lemma AclParts(packet: seq<byte>)
    requires PacketValid(2, packet)
    ensures |packet| >= 4 && AclOf(packet, packet[..2], packet[4..])
  {
  }

  lemma AclBuilt(packet: seq<byte>, handle: seq<byte>, data: seq<byte>)
    requires AclOf(packet, handle, data)
    ensures PacketValid(2, packet)
  {
  }

  /** Nothing else passes towards the controller. */
  lemma OthersRefused(kind: byte, packet: seq<byte>)
    requires kind != 1 && kind != 2
    ensures !PacketValid(kind, packet)
  {
  }

  /** A frame passes if HCI runs, and it is not empty, parses and holds valid packets only; HCI is stopped
      after any other. Of a frame that passes the records go over up to the first the backend refuses,
      and its credit returns if there is none; of any other frame none goes over. */
  lemma FramePassesExactly(stopped: bool, payload: seq<byte>, takes: seq<bool>)
    ensures var r, records := Received(stopped, payload, takes), RawRecord.Parse(payload);
            var passes := !stopped && payload != [] && records.Some? &&
                          forall k :: 0 <= k < |records.value| ==>
                            PacketValid(records.value[k].kind, records.value[k].payload);
            && r.stopped == !passes
            && (!passes ==> r.handed == 0 && !r.credit)
            && (passes ==>
                  && r.handed <= |records.value| && (r.credit <==> r.handed == |records.value|)
                  && r.handed <= |takes| && (forall k :: 0 <= k < r.handed ==> takes[k])
                  && (r.handed < |records.value| ==> r.handed >= |takes| || !takes[r.handed]))
  {
    hide RawRecord.ParseFrom, PacketValid;
    if FrameValid(payload) {
      FirstRefused(RawRecord.Parse(payload).value, takes, 0);
    }
    assert payload == [] <==> |payload| == 0;
  }

  lemma {:induction false} FirstRefused(rs: seq<RawRecord.Record>, takes: seq<bool>, n: nat)
    requires n <= |rs|
    ensures var r := HandedFrom(rs, takes, n);
            && (r <= |takes| || r == n) && (forall k :: n <= k < r ==> takes[k])
            && (r < |rs| ==> r >= |takes| || !takes[r])
    decreases |rs| - n
  {
    if n < |rs| && n < |takes| && takes[n] {
      FirstRefused(rs, takes, n + 1);
    }
  }

  // ---------------------------------------------------------------------------------------
  // Answers
  // ---------------------------------------------------------------------------------------

  predicate Says(c: Controller, e: Event, entry: Entry) {
    |Step(c, e).log| == |c.log| + 1 && Step(c, e).log[|c.log|] == entry
  }

  /** The states in which a request has nothing left to do. */
  predicate Idempotent(state: State, kind: Operation) {
    || (kind.Initialize? && (state.Disabled? || state.Enabled? || state.Error?))
    || (kind.Enable? && state.Enabled?)
    || (kind.Disable? && (state.Unspecified? || state.Disabled?))
    || (kind.Deinitialize? && state.Unspecified?)
  }

  /** A request that decodes and asks for the HCI transport is busy while another is pending, not ready
      if it enables a controller that is not initialized or in error, answered at once if there is
      nothing to do, and otherwise given to the backend. */
  lemma RequestAnswers(c: Controller, e: Event)
    requires e.Handles?
    ensures var read := e.decodes || e.kind.Disable? || e.kind.GetInfo?;
            var sound := read && (e.kind.Initialize? ==> e.hci);
            var free := sound && c.pending.None?;
            var early := e.kind.Enable? && (c.state.Unspecified? || c.state.Error?);
            var taken := free && !early && !Idempotent(c.state, e.kind);
            && (Says(c, e, Dropped(e.request)) <==> !read)
            && (Says(c, e, Answered(e.request, NotSupported)) <==> read && e.kind.Initialize? && !e.hci)
            && (Says(c, e, Answered(e.request, Busy)) <==> sound && c.pending.Some?)
            && (Says(c, e, Answered(e.request, NotReady)) <==> free && early)
            && (Says(c, e, Answered(e.request, Fine)) <==> free && Idempotent(c.state, e.kind))
            && (Says(c, e, Answered(e.request, Internal)) <==> taken && !e.accepted)
            && (taken && e.accepted <==> c.pending.None? && Step(c, e).pending.Some?)
            && (taken && e.accepted ==>
                  var p := Step(c, e).pending.value;
                  p.request == e.request && p.kind == e.kind && p.session == c.session && p.operation != 0)
            && Step(c, e).state == c.state && Step(c, e).stopped == c.stopped
  {
  }

  /** The pending operation of this kind completes with success. */
  predicate Succeeds(c: Controller, e: Event, kind: Operation) {
    && e.Completes? && e.succeeded && c.pending.Some? && c.pending.value.kind == kind
    && e.info == kind.GetInfo? && e.operation == c.pending.value.operation && c.pending.value.session == c.session
  }

  /** Each state is entered by exactly these events. */
  lemma StateEntered(c: Controller, e: Event)
    ensures var next := Step(c, e).state;
            && (!c.state.Enabled? ==> (next.Enabled? <==> Succeeds(c, e, Enable)))
            && (!c.state.Disabled? ==> (next.Disabled? <==> Succeeds(c, e, Initialize) || Succeeds(c, e, Disable)))
            && (!c.state.Error? ==>
                  (next.Error? <==> e.Fails? || (e.Frames? && !c.stopped && !FrameValid(e.payload))))
            && (!c.state.Unspecified? ==> (next.Unspecified? <==> e.Resets? || Succeeds(c, e, Deinitialize)))
  {
    hide FrameValid, Handle;
    if e.Handles? {
      HandleKeeps(c, e);
    }
  }

  lemma HandleKeeps(c: Controller, e: Event)
    requires e.Handles?
    ensures Step(c, e).state == c.state && Step(c, e).stopped == c.stopped
  {
  }

  /** A completion answers the request it matches, with success exactly as the backend says, and
      frees the slot; any other changes nothing. */
  lemma CompletionAnswers(c: Controller, e: Event)
    requires e.Completes?
    ensures var matches := c.pending.Some? && e.operation == c.pending.value.operation &&
                           c.pending.value.session == c.session && e.info == c.pending.value.kind.GetInfo?;
            && (!matches ==> Step(c, e) == c)
            && (matches ==>
                  && Step(c, e).pending.None?
                  && Says(c, e, Answered(c.pending.value.request, if e.succeeded then Fine else Internal)))
  {
  }

  // ---------------------------------------------------------------------------------------
  // Operation ids
  // ---------------------------------------------------------------------------------------

  /** The event hands an operation to the backend, whether it takes it or not. */
  predicate Hands(c: Controller, e: Event) {
    && e.Handles? && (e.decodes || e.kind.Disable? || e.kind.GetInfo?) && (e.kind.Initialize? ==> e.hci)
    && c.pending.None? && !(e.kind.Enable? && (c.state.Unspecified? || c.state.Error?)) && !Idempotent(c.state, e.kind)
  }

  function Handed(c: Controller, events: seq<Event>): nat
    decreases |events|
  {
    if |events| == 0 then 0
    else (if Hands(c, events[0]) then 1 else 0) + Handed(Step(c, events[0]), events[1..])
  }

  predicate InTurn(c: Controller, first: uint32, n: nat) {
    && c.nextOperation == R.Counter(first, n)
    && (c.pending.Some? ==> n > 0 && c.pending.value.operation == R.IdOf(first, n - 1))
  }

  lemma StepInTurn(c: Controller, e: Event, first: uint32, n: nat)
    requires InTurn(c, first, n)
    ensures InTurn(Step(c, e), first, if Hands(c, e) then n + 1 else n)
  {
    hide FrameValid;
  }

  lemma {:induction false} RunInTurn(c: Controller, events: seq<Event>, first: uint32, n: nat)
    requires InTurn(c, first, n)
    ensures InTurn(Run(c, events), first, n + Handed(c, events))
    decreases |events|
  {
    hide Step, InTurn, Hands;
    if |events| > 0 {
      StepInTurn(c, events[0], first, n);
      RunInTurn(Step(c, events[0]), events[1..], first, if Hands(c, events[0]) then n + 1 else n);
    }
  }

  /** Over every run the operations are numbered in turn, so a completion of any other one handed over
      in the same 2^32 - 1 changes nothing. */
  lemma OthersIgnored(c: Controller, events: seq<Event>, m: nat, info: bool, succeeded: bool)
    requires c.pending.None? && Run(c, events).pending.Some?
    requires var n := Handed(c, events); m + 1 != n && m + 1 < n + R.IDS && n < m + 1 + R.IDS
    ensures Handed(c, events) > 0
    ensures Run(c, events).pending.value.operation == R.IdOf(c.nextOperation, Handed(c, events) - 1)
    ensures Step(Run(c, events), Completes(R.IdOf(c.nextOperation, m), info, succeeded)) == Run(c, events)
  {
    assert InTurn(c, c.nextOperation, 0);
    hide Run, Handed, R.Counter, R.IdOf;
    RunInTurn(c, events, c.nextOperation, 0);
    LateCompletionIgnored(Run(c, events), c.nextOperation, m, Handed(c, events) - 1, info, succeeded);
  }
}
