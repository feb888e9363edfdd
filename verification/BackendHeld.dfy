/** What the verdicts of the Coprocessor's backend mean: a record it answers Pending is held, and is
    refunded when it completes; every other record of a valid frame is refunded at once. */
module BackendHeld {
  import opened Bytes
  import opened Aggregation
  import opened LinkState
  import opened Wire
  import opened Transmit
  import opened CreditProtocol
  import opened CreditInvariant
  import opened CreditTheorems
  import FrameCodec
  import RawRecord
  import Receiver

  /** The records of a log that the backend promised to complete later. */
  function Promised(log: seq<Receiver.Handover>): set<nat> {
    set k | 0 <= k < |log| && log[k].answer == Some(Pending)
  }

  lemma PromisedGrows(log: seq<Receiver.Handover>, h: Receiver.Handover)
    ensures |Promised(log + [h])| == |Promised(log)| + (if h.answer == Some(Pending) then 1 else 0)
  {
    var more := Promised(log + [h]);
    if h.answer == Some(Pending) {
      assert more == Promised(log) + {|log|};
    } else {
      assert more == Promised(log);
    }
  }

  lemma {:induction false} PromisedConcat(a: seq<Receiver.Handover>, b: seq<Receiver.Handover>)
    ensures |Promised(a + b)| == |Promised(a)| + |Promised(b)|
    decreases |b|
  {
    if |b| == 0 {
      assert a + b == a && Promised(b) == {};
    } else {
      var front, last := b[..|b| - 1], b[|b| - 1];
      assert b == front + [last] && a + b == a + front + [last];
      PromisedConcat(a, front);
      PromisedGrows(a + front, last);
      PromisedGrows(front, last);
    }
  }

  // ---------------------------------------------------------------------------------------
  // One frame
  // ---------------------------------------------------------------------------------------

  lemma {:induction false} KeptIsPromised(rs: seq<RawRecord.Record>, a: Arrival, n: nat)
    requires n <= |rs|
    ensures KeptCount(rs, a, n) == |Promised(Receiver.Handovers(rs, a, n))|
    decreases n
  {
    if n == 0 {
      assert Promised([]) == {};
    } else {
      var front := Receiver.Handovers(rs, a, n - 1);
      var answer := if n - 1 < |a.verdicts| then Some(a.verdicts[n - 1]) else None;
      KeptIsPromised(rs, a, n - 1);
      PromisedGrows(front, Receiver.Handover(rs[n - 1].payload, answer));
      hide Promised;
      assert front + [] == front;
    }
  }

  /** The records of a valid payload that are refunded at once: another kind, no backend, no answer,
      or an answer other than Pending. */
  function Refunded(rs: seq<RawRecord.Record>, a: Arrival, n: nat): set<nat>
    requires n <= |rs|
  {
    set k | 0 <= k < n && !(rs[k].kind == 1 && a.backend && k < |a.verdicts| && a.verdicts[k] == Pending)
  }

  lemma {:induction false} RefundedCount(rs: seq<RawRecord.Record>, a: Arrival, n: nat)
    requires n <= |rs|
    ensures |Refunded(rs, a, n)| == n - KeptCount(rs, a, n)
    decreases n
  {
    if n > 0 {
      RefundedCount(rs, a, n - 1);
      if !(rs[n - 1].kind == 1 && a.backend && n - 1 < |a.verdicts| && a.verdicts[n - 1] == Pending) {
        assert Refunded(rs, a, n) == Refunded(rs, a, n - 1) + {n - 1};
      } else {
        assert Refunded(rs, a, n) == Refunded(rs, a, n - 1);
      }
    }
  }

  lemma FewRecords(payload: seq<byte>)
    requires RawRecord.Parse(payload).Some?
    ensures |RawRecord.Parse(payload).value| <= |payload|
  {
    hide RawRecord.Views;
    RawRecord.ParseIsViews(payload, 0);
    RawRecord.ViewsDisjoint(payload, 0);
  }

  /** Whatever an Ethernet frame holds: of a valid payload one unit goes back at once for every record
      not answered Pending, and the others are kept; a malformed payload returns one unit. */
  lemma RefundedAtOnce(c: Config, t: Tx, rx: CoprocRx, frame: seq<byte>, a: Arrival)
    requires FrameCodec.Decode(frame, c.maxFrame).Ok?
    requires IsEthernet(FrameCodec.Decode(frame, c.maxFrame).value.0.channel)
    ensures var (header, payload) := FrameCodec.Decode(frame, c.maxFrame).value;
            var records := RawRecord.Parse(payload);
            var units := if |payload| > 0 && records.Some? then |Refunded(records.value, a, |records.value|)| else 1;
            var (_, _, kept, out) := CoprocReceive(c, t, rx, Data(frame), a);
            var skipped := Skipped(rx, header.channel, header.sequence);
            && kept == |Promised(Receiver.Handed(c, a, frame))| && units <= UINT32_MAX
            && out == SendCredit(t.session, header.channel, skipped, a.gapAccepted) +
                      SendCredit(t.session, header.channel, units, a.refundAccepted)
  {
    var (header, payload) := FrameCodec.Decode(frame, c.maxFrame).value;
    PayloadRefunded(payload, a);
    PayloadShort(frame, c.maxFrame);
    hide FrameCodec.Decode, RawRecord.Parse, Refunded, Promised, Receiver.HandedPayload, PayloadUnits, KeptUnits,
      Skipped, Tracked, SendCredit;
  }

  lemma PayloadShort(frame: seq<byte>, max: FrameLimit)
    requires FrameCodec.Decode(frame, max).Ok?
    ensures |FrameCodec.Decode(frame, max).value.1| <= UINT32_MAX
  {
    FrameCodec.AcceptedExactly(frame, max);
    hide FrameCodec.Decode;
  }

  lemma PayloadRefunded(payload: seq<byte>, a: Arrival)
    ensures KeptUnits(payload, a) == |Promised(Receiver.HandedPayload(payload, a))|
    ensures var records := RawRecord.Parse(payload);
            var units := if |payload| > 0 && records.Some? then |Refunded(records.value, a, |records.value|)| else 1;
            units == PayloadUnits(payload) - KeptUnits(payload, a) && units <= |payload| + 1
  {
    assert Promised([]) == {};
    hide RawRecord.ParseFrom, KeptCount, Receiver.Handovers, Refunded;
    if |payload| > 0 && RawRecord.Parse(payload).Some? {
      var rs := RawRecord.Parse(payload).value;
      FewRecords(payload);
      KeptIsPromised(rs, a, |rs|);
      RefundedCount(rs, a, |rs|);
    }
  }

  // ---------------------------------------------------------------------------------------
  // Whole runs
  // ---------------------------------------------------------------------------------------

  /** What a step hands to the backend on an interface. */
  function HandedOver(link: Link, s: Sys, m: Move, i: nat): seq<Receiver.Handover> {
    if m.CoprocTakes? && |s.up| > 0 && s.up[0].Data? && ChannelOf(s.up[0].frame) == Some(ChannelAt(i))
    then Receiver.Handed(link.coproc, m.arrival, s.up[0].frame) else []
  }

  function Log(link: Link, s: Sys, moves: seq<Move>, i: nat): seq<Receiver.Handover>
    decreases |moves|
  {
    if |moves| == 0 then []
    else HandedOver(link, s, moves[0], i) + Log(link, After(link, s, moves[0]), moves[1..], i)
  }

  /** The records a step completes; the backend completes none that it does not hold. */
  function Completes(s: Sys, m: Move, i: nat): nat
    requires i < 3
  {
    if m.BackendCompletes? && Index(ChannelAt(m.interface)) == i && m.units <= s.books[i].held then m.units else 0
  }

  function Completed(link: Link, s: Sys, moves: seq<Move>, i: nat): nat
    requires i < 3
    decreases |moves|
  {
    if |moves| == 0 then 0
    else Completes(s, moves[0], i) + Completed(link, After(link, s, moves[0]), moves[1..], i)
  }

  lemma StepHeld(link: Link, s: Sys, m: Move, i: nat)
    requires Balanced(link, s) && i < 3
    ensures After(link, s, m).books[i].held + Completes(s, m, i) ==
            s.books[i].held + |Promised(HandedOver(link, s, m, i))|
  {
    assert Promised([]) == {};
    hide Promised, After, Law, Receiver.Handed, ChannelOf, WireOk, JobsOk, Backlog;
    if m.CoprocTakes? {
      TakeIsMove(link, s, m.arrival);
      TakeHeld(link, s, m.arrival, i);
    } else {
      OtherHeld(link, s, m, i);
    }
  }

  lemma TakeIsMove(link: Link, s: Sys, a: Arrival)
    ensures After(link, s, CoprocTakes(a)) == CoprocTake(link, s, a)
  {
    hide CoprocTake;
  }

  lemma OtherHeld(link: Link, s: Sys, m: Move, i: nat)
    requires LinkOk(link) && s.coproc.session == link.session && i < 3 && !m.CoprocTakes?
    ensures After(link, s, m).books[i].held + Completes(s, m, i) == s.books[i].held
  {
    hide Work, HostReceive, HostFlush, CoprocFlush, AdmitRecord, PlaceOf, RecordsIn, WithinLimit, SendDone;
    match m
    case BackendCompletes(_, _, _) =>
    case _ =>
      hide RxComplete;
  }

  lemma TakeHeld(link: Link, s: Sys, a: Arrival, i: nat)
    requires Flow(link, s) && i < 3
    ensures CoprocTake(link, s, a).books[i].held ==
            s.books[i].held + |Promised(HandedOver(link, s, CoprocTakes(a), i))|
  {
    assert Promised([]) == {};
    hide Promised, JobsOk, Backlog, PlaceOf, RecordsIn, CoprocReceive, KeptUnits, PayloadUnits, Skipped,
      Receiver.Handed;
    if |s.up| > 0 && s.up[0].Data? {
      assert SlotOk(s.up[0], link.session);
      FrameHeld(link.coproc, s.up[0].frame, a, link.session);
    }
  }

  /** What is kept of a frame is what was promised; a frame beyond the limit is handed to nobody. */
  lemma FrameHeld(c: Config, frame: seq<byte>, a: Arrival, session: uint32)
    requires FrameOk(frame, session)
    ensures Contents(frame).Some? && IsEthernet(Contents(frame).value.0.channel)
    ensures |Promised(Receiver.Handed(c, a, frame))| ==
            if |frame| <= c.maxFrame then KeptUnits(Contents(frame).value.1, a) else 0
  {
    assert Promised([]) == {};
    hide FrameCodec.Decode, RawRecord.ParseFrom, Canonical, Records, Receiver.Handovers, Promised;
    DecodeWithin(frame, c.maxFrame);
    var payload := Contents(frame).value.1;
    if |payload| > 0 && RawRecord.Parse(payload).Some? {
      var rs := RawRecord.Parse(payload).value;
      KeptIsPromised(rs, a, |rs|);
    }
  }

  lemma {:induction false} RunHeld(link: Link, s: Sys, moves: seq<Move>, i: nat)
    requires Balanced(link, s) && i < 3
    ensures Reached(link, s, moves).books[i].held + Completed(link, s, moves, i) ==
            s.books[i].held + |Promised(Log(link, s, moves, i))|
    decreases |moves|
  {
    assert Promised([]) == {};
    hide Balanced, After, HandedOver, Completes, Promised;
    if |moves| > 0 {
      var next := After(link, s, moves[0]);
      StepBalanced(link, s, moves[0]);
      StepHeld(link, s, moves[0], i);
      RunHeld(link, next, moves[1..], i);
      PromisedConcat(HandedOver(link, s, moves[0], i), Log(link, next, moves[1..], i));
    }
  }

  /** In every run the records held are those the backend answered Pending, less those it completed,
      and with them the grant is accounted for. */
  lemma HeldIsPromised(link: Link, s: Sys, moves: seq<Move>, i: nat)
    requires Started(link, s) && i < 3
    ensures var r := Reached(link, s, moves);
            var log := Log(link, s, moves, i);
            var promised := set k | 0 <= k < |log| && log[k].answer == Some(Pending);
            && r.books[i].held == |promised| - Completed(link, s, moves, i)
            && r.host.credit[ChannelAt(i)] + Sum(r.up, Units(ChannelAt(i))) +
               (|promised| - Completed(link, s, moves, i)) + r.coprocRx.pending[i] +
               Sum(r.down, Credits(ChannelAt(i))) + Refundable(r, i) + Leaked(r.books[i]) == link.grants[i]
  {
    hide Reached, Log, Completed, Sum, Refundable, Leaked, JobsOk, Backlog;
    OpenedBalanced(link, s);
    RunHeld(link, s, moves, i);
    CreditConserved(link, s, moves, i);
    var log := Log(link, s, moves, i);
    assert Promised(log) == set k | 0 <= k < |log| && log[k].answer == Some(Pending);
  }
}
