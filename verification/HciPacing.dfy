/** The credit of the Host's HCI frames over one session: the window shrinks for good by every frame
    that the Coprocessor does not hand over whole. */
module HciPacing {
  import opened Bytes
  import opened CreditGate
  import Aggregation
  import Bluetooth
  import RawRecord

  const WINDOW: nat := 16

  /** `withheld` counts frames stopped, malformed or refused by the backend, whose credit the
      Coprocessor keeps; `refused` CreditUpdates it could not send; `lost` frames and CreditUpdates
      lost on the wire. */
  datatype Sys = Sys(
    gate: Gate,
    admitting: seq<seq<byte>>,
    queue: seq<seq<byte>>,
    wire: seq<seq<byte>>,
    stopped: bool,
    returning: nat,
    refused: nat,
    withheld: nat,
    lost: nat)

  datatype Move =
    | Sends(payload: seq<byte>)
    | Publishes(k: nat, ok: bool)
    | Drains(sent: bool)
    | Delivers(takes: seq<bool>, pays: bool)
    | Credits
    | Loses(k: nat)
    | LosesCredit
    | Stops
    | Restarts

  function Step(s: Sys, m: Move): Sys {
    match m
    case Sends(payload) =>
      var g := Turned(Aggregation.HostSide, s.gate, Reserve);
      if s.gate.credit <= s.gate.inflight then s.(gate := g)
      else s.(gate := g, admitting := s.admitting + [payload])
    case Publishes(k, ok) =>
      if k >= |s.admitting| then s
      else
        s.(gate := Turned(Aggregation.HostSide, s.gate, Publish(ok)),
           admitting := s.admitting[..k] + s.admitting[k + 1..],
           queue := if ok then s.queue + [s.admitting[k]] else s.queue)
    case Drains(sent) =>
      if |s.queue| == 0 then s
      else
        s.(gate := Turned(Aggregation.HostSide, s.gate, Drain(sent)), queue := s.queue[1..],
           wire := if sent && Release(s.gate).credit >= 1 then s.wire + [s.queue[0]] else s.wire)
    case Delivers(takes, pays) =>
      if |s.wire| == 0 then s
      else
        var r := Bluetooth.Received(s.stopped, s.wire[0], takes);
        var taken := s.(wire := s.wire[1..], stopped := r.stopped);
        if !r.credit then taken.(withheld := s.withheld + 1)
        else if pays then taken.(returning := s.returning + 1)
        else taken.(refused := s.refused + 1)
    case Credits =>
      if s.returning == 0 then s
      else s.(returning := s.returning - 1, gate := Turned(Aggregation.HostSide, s.gate, Update(1)))
    case Loses(k) => if k >= |s.wire| then s else s.(wire := s.wire[..k] + s.wire[k + 1..], lost := s.lost + 1)
    case LosesCredit =>
      if s.returning == 0 then s else s.(returning := s.returning - 1, lost := s.lost + 1)
    case Stops => s.(stopped := true)
    case Restarts => s.(stopped := false)
  }

  function Run(s: Sys, moves: seq<Move>): Sys
    decreases |moves|
  {
    if |moves| == 0 then s else Run(Step(s, moves[0]), moves[1..])
  }

  ghost predicate Paced(s: Sys) {
    && s.gate.credit + |s.wire| + s.returning + Gone(s) == WINDOW
    && Bounded(s.gate) && s.gate.admitting == |s.admitting| && s.gate.queued == |s.queue|
  }

  /** Credit that never comes back in the session. */
  function Gone(s: Sys): nat {
    s.withheld + s.refused + s.lost
  }

  ghost predicate Later(s: Sys, s': Sys) {
    && Paced(s') && Gone(s) <= Gone(s') && s.withheld <= s'.withheld
    && (Sound(s.gate) ==> Sound(s'.gate))
  }

  function TurnOf(m: Move): Turn {
    match m
    case Sends(_) => Reserve
    case Publishes(_, ok) => Publish(ok)
    case Drains(sent) => Drain(sent)
    case _ => Update(1)
  }

  lemma StepPaced(s: Sys, m: Move)
    requires Paced(s)
    ensures Later(s, Step(s, m))
  {
    hide Bluetooth.Received, Turned, Sound, Bounded;
    GateTurns(Aggregation.HostSide, s.gate, TurnOf(m));
    InSession(Aggregation.HostSide, s.gate, TurnOf(m));
    ReleaseKeepsCredit(s.gate);
  }

  lemma {:induction false} RunPaced(s: Sys, moves: seq<Move>)
    requires Paced(s)
    ensures Later(s, Run(s, moves))
    decreases |moves|
  {
    hide Paced, Step, Sound;
    if |moves| > 0 {
      StepPaced(s, moves[0]);
      RunPaced(Step(s, moves[0]), moves[1..]);
    }
  }

  /** The session as negotiated: the whole window with the Host, a cleared counter, and whatever an
      earlier session left admitted or queued. */
  ghost predicate Opened(s: Sys) {
    && s.gate.credit == WINDOW && s.gate.inflight == 0
    && s.gate.admitting == |s.admitting| && s.gate.queued == |s.queue|
    && s.wire == [] && s.returning == Gone(s) == 0
  }

  /** In every run the window is in the Host's credit, in frames, in CreditUpdates, or gone with a
      frame not handed over whole, a refused CreditUpdate or a loss; if nothing was left over, an
      admitted record never lacks credit. */
  lemma HciCreditConserved(s: Sys, moves: seq<Move>)
    requires Opened(s)
    ensures var r := Run(s, moves);
            && r.gate.credit + |r.wire| + r.returning == WINDOW - r.refused - r.withheld - r.lost
            && (s.admitting == s.queue == [] ==> |r.queue| + |r.admitting| == r.gate.inflight <= r.gate.credit)
  {
    hide Run;
    RunPaced(s, moves);
  }

  /** A frame's credit goes back exactly when HCI was running, every record was valid and the
      backend took them all. */
  lemma CreditBackExactly(stopped: bool, payload: seq<byte>, takes: seq<bool>)
    ensures Bluetooth.Received(stopped, payload, takes).credit <==>
            && !stopped && Bluetooth.FrameValid(payload)
            && var n := |RawRecord.Parse(payload).value|;
               n <= |takes| && forall k :: 0 <= k < n ==> takes[k]
  {
    hide RawRecord.ParseFrom, Bluetooth.AllValid;
    if Bluetooth.FrameValid(payload) {
      HandedAll(RawRecord.Parse(payload).value, takes, 0);
    }
  }

  lemma {:induction false} HandedAll(rs: seq<RawRecord.Record>, takes: seq<bool>, n: nat)
    requires n <= |rs|
    ensures Bluetooth.HandedFrom(rs, takes, n) == |rs| <==>
            n == |rs| || (|rs| <= |takes| && forall k :: n <= k < |rs| ==> takes[k])
    decreases |rs| - n
  {
    if n < |rs| && n < |takes| && takes[n] {
      HandedAll(rs, takes, n + 1);
    }
  }

  /** Credit gone is gone for the session: once the whole window is, the Host sends no HCI frame
      again, however long it waits and whatever restarts. */
  lemma WindowClosedForGood(s: Sys, moves: seq<Move>)
    requires Paced(s) && Gone(s) == WINDOW
    ensures var r := Run(s, moves); r.gate.credit == 0 && r.wire == [] && r.returning == 0 && !Usable(r.gate)
  {
    hide Run;
    RunPaced(s, moves);
  }

  // ---------------------------------------------------------------------------------------
  // A window closing
  // ---------------------------------------------------------------------------------------

  /** `k` frames of one payload, each sent and taken off the wire, of whose records the backend
      takes none. */
  function Rounds(payload: seq<byte>, k: nat): seq<Move> {
    if k == 0 then []
    else [Sends(payload), Publishes(0, true), Drains(true), Delivers([], true)] + Rounds(payload, k - 1)
  }

  lemma OneMove(s: Sys, m: Move, rest: seq<Move>)
    ensures Run(s, [m] + rest) == Run(Step(s, m), rest)
  {
    assert ([m] + rest)[1..] == rest;
  }

  lemma OneRound(s: Sys, payload: seq<byte>, rest: seq<Move>)
    requires s.gate.inflight == 0 && s.gate.credit > 0 && s.gate.admitting == s.gate.queued == 0
    requires s.admitting == s.queue == s.wire == []
    requires !Bluetooth.Received(s.stopped, payload, []).credit
    ensures var next := s.(gate := s.gate.(credit := s.gate.credit - 1), withheld := s.withheld + 1,
                           stopped := Bluetooth.Received(s.stopped, payload, []).stopped);
            Run(s, [Sends(payload), Publishes(0, true), Drains(true), Delivers([], true)] + rest) == Run(next, rest)
  {
    hide Run, Step, Bluetooth.Received, Turned;
    FourMoves(s, Sends(payload), Publishes(0, true), Drains(true), Delivers([], true), rest);
    Sent(s, payload);
    Undelivered(s.(gate := s.gate.(credit := s.gate.credit - 1), wire := [payload]), payload);
  }

  lemma Sent(s: Sys, payload: seq<byte>)
    requires s.gate.inflight == 0 && s.gate.credit > 0 && s.gate.admitting == s.gate.queued == 0
    requires s.admitting == s.queue == s.wire == []
    ensures Step(Step(Step(s, Sends(payload)), Publishes(0, true)), Drains(true)) ==
            s.(gate := s.gate.(credit := s.gate.credit - 1), wire := [payload])
  {
    hide Bluetooth.Received;
    var admitted := s.(gate := s.gate.(inflight := 1, admitting := 1), admitting := [payload]);
    var queued := s.(gate := s.gate.(inflight := 1, queued := 1), queue := [payload]);
    assert Step(s, Sends(payload)) == admitted;
    assert Step(admitted, Publishes(0, true)) == queued;
  }

  lemma Undelivered(s: Sys, payload: seq<byte>)
    requires s.wire == [payload] && !Bluetooth.Received(s.stopped, payload, []).credit
    ensures Step(s, Delivers([], true)) ==
            s.(wire := [], withheld := s.withheld + 1, stopped := Bluetooth.Received(s.stopped, payload, []).stopped)
  {
    hide Bluetooth.Received;
  }

  lemma FourMoves(s: Sys, m: Move, n: Move, o: Move, p: Move, rest: seq<Move>)
    ensures Run(s, [m, n, o, p] + rest) == Run(Step(Step(Step(Step(s, m), n), o), p), rest)
  {
    hide Run, Step;
    OneMove(s, m, [n] + ([o] + ([p] + rest)));
    OneMove(Step(s, m), n, [o] + ([p] + rest));
    OneMove(Step(Step(s, m), n), o, [p] + rest);
    OneMove(Step(Step(Step(s, m), n), o), p, rest);
    assert [m, n, o, p] + rest == [m] + ([n] + ([o] + ([p] + rest)));
  }

  /** A record the Host's sender builds and the Coprocessor finds valid. */
  ghost predicate Genuine(r: RawRecord.Record) {
    RawRecord.Encodable(r) && Bluetooth.PacketValid(r.kind, r.payload)
  }

  /** Its frame costs a unit for good when HCI is stopped, and also when it runs and the backend
      refuses the record. */
  lemma NoneTaken(r: RawRecord.Record, stopped: bool)
    requires Genuine(r)
    ensures var payload := RawRecord.Encode(r);
            && Bluetooth.FrameValid(payload)
            && Bluetooth.Received(stopped, payload, []) == Bluetooth.Reception(stopped, 0, false)
  {
    RawRecord.ParseOfEncoded([r]);
    RawRecord.EncodeAllOne(r);
    hide RawRecord.ParseFrom, Bluetooth.PacketValid;
  }

  lemma {:induction false} WindowShrinks(s: Sys, r: RawRecord.Record, k: nat)
    requires Genuine(r) && k <= s.gate.credit
    requires s.gate.inflight == 0 && s.gate.admitting == s.gate.queued == 0
    requires s.admitting == s.queue == s.wire == []
    ensures Run(s, Rounds(RawRecord.Encode(r), k)) ==
            s.(gate := s.gate.(credit := s.gate.credit - k), withheld := s.withheld + k)
    decreases k
  {
    if k > 0 {
      NoneTaken(r, s.stopped);
      var payload := RawRecord.Encode(r);
      OneRound(s, payload, Rounds(payload, k - 1));
      WindowShrinks(s.(gate := s.gate.(credit := s.gate.credit - 1), withheld := s.withheld + 1), r, k - 1);
    }
  }

  /** HCI_Reset, from a session just negotiated: sixteen frames that the stopped HCI drops, or that a
      refusing backend does not take, and the Host can send no HCI again in the session. */
  lemma WindowCloses(s: Sys, moves: seq<Move>)
    requires Opened(s) && s.admitting == s.queue == []
    ensures var reset := RawRecord.Record(1, 0, [0x03, 0x0C, 0x00]);
            var r := Run(s, Rounds(RawRecord.Encode(reset), WINDOW));
            && r.withheld == WINDOW && r.stopped == s.stopped
            && !Usable(Run(r, moves).gate)
  {
    var reset := RawRecord.Record(1, 0, [0x03, 0x0C, 0x00]);
    assert Genuine(reset);
    WindowShrinks(s, reset, WINDOW);
    RunPaced(s, Rounds(RawRecord.Encode(reset), WINDOW));
    hide Run;
    WindowClosedForGood(Run(s, Rounds(RawRecord.Encode(reset), WINDOW)), moves);
  }
}
