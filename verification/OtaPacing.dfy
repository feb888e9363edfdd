/** One OTA session end to end: the Host's stream sender behind its credit gate, the wire, the
    Coprocessor's OTA machine, and a backend that completes each accepted write once. */
module OtaPacing {
  import opened Bytes
  import opened OtaStream
  import opened CreditGate
  import Aggregation
  import R = OtaReceiver

  const WINDOW: nat := 4

  /** `submitted` are the chunks given to the stream sender and admitted; `writing` accepted writes
      the backend has not completed, `done` completions queued for the worker, `returning`
      CreditUpdates on the way, `refused` CreditUpdates the sender could not send, `lost` frames
      and CreditUpdates lost on the wire. */
  datatype Sys = Sys(
    gate: Gate,
    admitting: seq<Chunk>,
    queue: seq<Chunk>,
    wire: seq<seq<byte>>,
    ota: R.Ota,
    writing: nat,
    done: nat,
    returning: nat,
    refused: nat,
    lost: nat,
    submitted: seq<Chunk>)

  datatype Move =
    | Sends(chunk: Chunk)
    | Publishes(k: nat, ok: bool)
    | Drains(sent: bool)
    | Delivers(writes: bool, pays: bool)
    | Finishes
    | Reports(transfer: uint32, bytes: uint64, succeeded: bool, pays: bool)
    | Credits
    | Loses(k: nat)
    | LosesCredit
    | Controls(e: R.Event)

  /** The arguments the stream sender takes; `limit` is the negotiated record limit. */
  predicate Sendable(c: Chunk, limit: nat) {
    0 < |c.data| && c.transfer != 0 && |c.data| + SUB_HEADER <= limit
  }

  ghost function Step(limit: nat, s: Sys, m: Move): Sys {
    match m
    case Sends(chunk) =>
      if !Sendable(chunk, limit) then s
      else
        var g := Turned(Aggregation.HostSide, s.gate, Reserve);
        if s.gate.credit <= s.gate.inflight then s.(gate := g)
        else s.(gate := g, admitting := s.admitting + [chunk], submitted := s.submitted + [chunk])
    case Publishes(k, ok) =>
      if k >= |s.admitting| then s
      else
        s.(gate := Turned(Aggregation.HostSide, s.gate, Publish(ok)),
           admitting := s.admitting[..k] + s.admitting[k + 1..],
           queue := if ok then s.queue + [s.admitting[k]] else s.queue)
    case Drains(sent) =>
      if |s.queue| == 0 then s
      else
        var goes := sent && Release(s.gate).credit >= 1;
        s.(gate := Turned(Aggregation.HostSide, s.gate, Drain(sent)), queue := s.queue[1..],
           wire := if goes then s.wire + [Written(s.queue[0])] else s.wire)
    case Delivers(writes, pays) =>
      if |s.wire| == 0 then s
      else
        var (ota, back) := R.HandleFrame(s.ota, s.wire[0], writes);
        var taken := s.(ota := ota, wire := s.wire[1..]);
        if back then GiveBack(taken, pays) else taken.(writing := s.writing + 1)
    case Finishes => if s.writing == 0 then s else s.(writing := s.writing - 1, done := s.done + 1)
    case Reports(transfer, bytes, succeeded, pays) =>
      if s.done == 0 then s
      else GiveBack(s.(done := s.done - 1, ota := R.WriteDone(s.ota, transfer, bytes, succeeded)), pays)
    case Credits =>
      if s.returning == 0 then s
      else s.(returning := s.returning - 1, gate := Turned(Aggregation.HostSide, s.gate, Update(1)))
    case Loses(k) => if k >= |s.wire| then s else s.(wire := s.wire[..k] + s.wire[k + 1..], lost := s.lost + 1)
    case LosesCredit =>
      if s.returning == 0 then s else s.(returning := s.returning - 1, lost := s.lost + 1)
    case Controls(e) => if e.Streams? || e.Writes? || e.Resets? then s else s.(ota := R.Step(s.ota, e))
  }

  function GiveBack(s: Sys, pays: bool): Sys {
    if pays then s.(returning := s.returning + 1) else s.(refused := s.refused + 1)
  }

  ghost function Run(limit: nat, s: Sys, moves: seq<Move>): Sys
    decreases |moves|
  {
    if |moves| == 0 then s else Run(limit, Step(limit, s, moves[0]), moves[1..])
  }

  ghost predicate Paced(s: Sys) {
    && s.gate.credit + |s.wire| + s.writing + s.done + s.returning + s.refused + s.lost == WINDOW
    && Bounded(s.gate) && s.gate.admitting == |s.admitting| && s.gate.queued == |s.queue|
  }

  ghost predicate Later(s: Sys, s': Sys) {
    Paced(s') && (Sound(s.gate) ==> Sound(s'.gate))
  }

  function TurnOf(m: Move): Option<Turn> {
    match m
    case Sends(_) => Some(Reserve)
    case Publishes(_, ok) => Some(Publish(ok))
    case Drains(sent) => Some(Drain(sent))
    case Credits => Some(Update(1))
    case _ => None
  }

  lemma StepPaced(limit: nat, s: Sys, m: Move)
    requires Paced(s)
    ensures Later(s, Step(limit, s, m))
  {
    hide Paced, Later, Step;
    if TurnOf(m).Some? {
      GatePaced(limit, s, m);
    } else {
      WirePaced(limit, s, m);
    }
  }

  lemma WirePaced(limit: nat, s: Sys, m: Move)
    requires Paced(s) && TurnOf(m).None?
    ensures Later(s, Step(limit, s, m))
  {
    hide R.HandleFrame, R.WriteDone, R.Step, Written, Turned, Sound, Bounded;
  }

  lemma GatePaced(limit: nat, s: Sys, m: Move)
    requires Paced(s) && TurnOf(m).Some?
    ensures Later(s, Step(limit, s, m))
  {
    hide R.HandleFrame, R.WriteDone, R.Step, Written, Turned, Sound, Bounded;
    GateTurns(Aggregation.HostSide, s.gate, TurnOf(m).value);
    InSession(Aggregation.HostSide, s.gate, TurnOf(m).value);
    ReleaseKeepsCredit(s.gate);
  }

  // ---------------------------------------------------------------------------------------
  // What is written is what was sent
  // ---------------------------------------------------------------------------------------

  ghost predicate Carries(payload: seq<byte>, c: Chunk) {
    payload == Written(c)
  }

  ghost predicate Comes(payload: seq<byte>, submitted: seq<Chunk>) {
    exists c :: c in submitted && Carries(payload, c)
  }

  lemma ComesStill(payload: seq<byte>, submitted: seq<Chunk>, c: Chunk)
    requires Comes(payload, submitted)
    ensures Comes(payload, submitted + [c])
  {
    hide Carries;
    var c' :| c' in submitted && Carries(payload, c');
    assert c' in submitted + [c];
  }

  ghost predicate Genuine(s: Sys) {
    && (forall k :: 0 <= k < |s.admitting| ==> s.admitting[k] in s.submitted)
    && (forall k :: 0 <= k < |s.queue| ==> s.queue[k] in s.submitted)
    && (forall k :: 0 <= k < |s.wire| ==> Comes(s.wire[k], s.submitted))
  }

  lemma StepGenuine(limit: nat, s: Sys, m: Move)
    requires Genuine(s)
    ensures Genuine(Step(limit, s, m))
  {
    hide Written, R.HandleFrame, R.WriteDone, R.Step, Turned;
    var s' := Step(limit, s, m);
    if m.Drains? && |s.queue| > 0 {
      assert Carries(Written(s.queue[0]), s.queue[0]);
      assert Comes(Written(s.queue[0]), s.submitted);
    }
    hide Comes;
    if m.Sends? {
      forall k | 0 <= k < |s.wire|
        ensures Comes(s.wire[k], s'.submitted)
      {
        ComesStill(s.wire[k], s.submitted, m.chunk);
      }
    }
  }

  lemma {:induction false} RunKept(limit: nat, s: Sys, moves: seq<Move>)
    requires Paced(s) && Genuine(s)
    ensures Later(s, Run(limit, s, moves)) && Genuine(Run(limit, s, moves))
    decreases |moves|
  {
    hide Step, Paced, Sound, Genuine;
    if |moves| > 0 {
      StepPaced(limit, s, moves[0]);
      StepGenuine(limit, s, moves[0]);
      RunKept(limit, Step(limit, s, moves[0]), moves[1..]);
    }
  }

  /** The session as negotiated: the whole window with the Host, a cleared counter, and whatever an
      earlier session left admitted or queued. */
  ghost predicate Opened(s: Sys) {
    && s.gate.credit == WINDOW && s.gate.inflight == 0
    && s.gate.admitting == |s.admitting| && s.gate.queued == |s.queue|
    && s.wire == [] && s.writing == s.done == s.returning == s.refused == s.lost == 0
    && Genuine(s)
  }

  /** Credit paces the Host to the flash: over accept, reject and backend-refuse paths alike the
      four units are with the Host, in a frame, in a write, in a queued completion or in a
      CreditUpdate, less those a refused CreditUpdate or a loss took. At most four chunks are
      outstanding, and if nothing was left over an admitted chunk never lacks credit. */
  lemma CreditPacesToFlash(limit: nat, s: Sys, moves: seq<Move>)
    requires Opened(s)
    ensures var r := Run(limit, s, moves);
            && r.gate.credit + |r.wire| + r.writing + r.done + r.returning == WINDOW - r.refused - r.lost
            && |r.wire| + r.writing + r.done <= WINDOW
            && (s.admitting == s.queue == [] ==> |r.queue| + |r.admitting| == r.gate.inflight <= r.gate.credit)
  {
    hide Run, Genuine;
    RunKept(limit, s, moves);
  }

  /** Every write the backend accepts carries exactly the transfer, offset and bytes of a chunk
      given to the Host's stream sender, in this session or, if it was left over, an earlier one. */
  lemma WritesAreSends(limit: nat, s: Sys, moves: seq<Move>, writes: bool)
    requires Opened(s)
    ensures var r := Run(limit, s, moves);
            |r.wire| > 0 ==>
              var (ota, back) := R.HandleFrame(r.ota, r.wire[0], writes);
              !back ==> exists c :: c in r.submitted && Carries(r.wire[0], c) && R.Acceptable(r.ota, c) &&
                                    ota.log == r.ota.log + [R.Accepted(c)]
  {
    hide Run, R.Acceptable, Read, Written;
    RunKept(limit, s, moves);
    var r := Run(limit, s, moves);
    if |r.wire| > 0 {
      assert Comes(r.wire[0], r.submitted);
      var c :| c in r.submitted && Carries(r.wire[0], c);
      ReadOfWritten(c);
      assert Carries(r.wire[0], c);
    }
  }
}
