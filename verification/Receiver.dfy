/** The receive halves of the two endpoints as the code keeps them. Each frame payload is walked
    twice, so that a malformed tail delivers nothing, and each method performs exactly the step
    that LinkState defines. */
module Receiver {
  import opened Bytes
  import opened Aggregation
  import opened LinkState
  import FrameCodec
  import RawRecord
  import Sender

  /** The Ethernet payloads among the first `n` records, in order. */
  function Deliverable(rs: seq<RawRecord.Record>, n: nat): seq<seq<byte>>
    requires n <= |rs|
  {
    if n == 0 then []
    else Deliverable(rs, n - 1) + if rs[n - 1].kind == 1 then [rs[n - 1].payload] else []
  }

  /** What a payload delivers: every Ethernet record of it, or nothing. */
  function Delivery(payload: seq<byte>): seq<seq<byte>> {
    if |payload| == 0 then []
    else
      match RawRecord.Parse(payload)
      case None => []
      case Some(rs) => Deliverable(rs, |rs|)
  }

  /** The Ethernet frame a well-formed job was built from. */
  function FrameOf(job: Job): seq<byte> {
    if job.EthernetTx? && |Records(job.record)| > 0 then Records(job.record)[0].payload else []
  }

  lemma {:induction false} DeliverableAll(rs: seq<RawRecord.Record>, n: nat)
    requires n <= |rs| && forall k :: 0 <= k < |rs| ==> rs[k].kind == 1
    ensures |Deliverable(rs, n)| == n && forall k :: 0 <= k < n ==> Deliverable(rs, n)[k] == rs[k].payload
    decreases n
  {
    if n > 0 {
      DeliverableAll(rs, n - 1);
    }
  }

  /** End to end over one aggregated frame: what the sender admitted as separate Ethernet frames is
      what the receiver delivers, frame by frame and in admission order. */
  lemma BatchDelivers(jobs: seq<Job>, channel: byte)
    requires |jobs| > 0 && OneChannel(jobs, channel) && AllWellFormed(jobs)
    requires forall k :: 0 <= k < |jobs| ==> Records(jobs[k].record)[0].kind == 1
    ensures |Delivery(Joined(jobs))| == |jobs|
    ensures forall k :: 0 <= k < |jobs| ==> Delivery(Joined(jobs))[k] == FrameOf(jobs[k])
  {
    hide Joined, Deliverable, RawRecord.ParseFrom, RawRecord.EncodeAll;
    JoinedRecords(jobs, channel);
    var rs := Records(Joined(jobs));
    DeliverableAll(rs, |rs|);
    if |Joined(jobs)| == 0 {
      EmptyRecords();
    }
  }

  function Prepend(data: seq<byte>, s: RawRecord.Step, rest: Option<seq<RawRecord.Record>>)
    : Option<seq<RawRecord.Record>>
    requires s.View? && s.at + s.size <= |data|
  {
    if rest.None? then None
    else Some([RawRecord.Record(s.kind, s.flags, data[s.at..s.at + s.size])] + rest.value)
  }

  lemma PrependTail(data: seq<byte>, s: RawRecord.Step, rest: Option<seq<RawRecord.Record>>,
                    all: seq<RawRecord.Record>, n: nat)
    requires s.View? && s.at + s.size <= |data| && n <= |all| && Prepend(data, s, rest) == Some(all[n..])
    ensures n < |all| && all[n] == RawRecord.Record(s.kind, s.flags, data[s.at..s.at + s.size])
    ensures rest == Some(all[n + 1..])
  {
    assert all[n..] == [RawRecord.Record(s.kind, s.flags, data[s.at..s.at + s.size])] + rest.value;
    assert |all[n..]| > 0;
    assert all[n..][0] == all[n] && all[n..][1..] == all[n + 1..];
  }

  lemma ParseStep(data: seq<byte>, offset: nat)
    ensures var s := RawRecord.Next(data, offset);
            && (s.End? ==> RawRecord.ParseFrom(data, offset) == Some([]))
            && (s.Bad? ==> RawRecord.ParseFrom(data, offset) == None)
            && (s.View? ==>
                  && s.at + s.size <= |data| && offset < s.at + s.size
                  && RawRecord.ParseFrom(data, offset) == Prepend(data, s, RawRecord.ParseFrom(data, s.at + s.size)))
  {
    RawRecord.NextInBounds(data, offset);
  }

  /** The first pass: whether the payload parses, and how many records it has. */
  method CountRecords(data: array<byte>, start: nat, size: nat) returns (valid: bool, units: nat)
    requires start + size <= data.Length
    ensures var payload := data[start..start + size];
            && valid == (size != 0 && RawRecord.Parse(payload).Some?)
            && (valid ==> units == |RawRecord.Parse(payload).value|)
  {
    hide RawRecord.ParseFrom, RawRecord.Next;
    units := 0;
    if size == 0 {
      return false, 0;
    }
    ghost var payload := data[start..start + size];
    var it := new RawRecord.Iterator(data, start, size);
    ParseStep(payload, 0);
    var step := it.Advance();
    while step.View?
      invariant it.Valid() && it.data == data && it.Content() == payload && fresh(it)
      invariant it.offset <= size
      invariant step.View? ==>
                  step.at + step.size == it.offset &&
                  var rest := RawRecord.ParseFrom(payload, it.offset);
                  && (rest.None? ==> RawRecord.Parse(payload).None?)
                  && (rest.Some? ==> RawRecord.Parse(payload).Some? &&
                                     |RawRecord.Parse(payload).value| == units + 1 + |rest.value|)
      invariant step.End? ==> RawRecord.Parse(payload).Some? && |RawRecord.Parse(payload).value| == units
      invariant step.Bad? ==> RawRecord.Parse(payload).None?
      decreases size - it.offset, step.View?
    {
      units := units + 1;
      ParseStep(payload, it.offset);
      step := it.Advance();
    }
    valid := step.End?;
  }

  // ---------------------------------------------------------------------------------------
  // The Host
  // ---------------------------------------------------------------------------------------

  class HostReceiver {
    const sender: Sender.Sender
    const pending: array<uint32>
    var due: nat
    ghost var delivered: seq<seq<byte>>

    ghost predicate Valid()
      reads sender
    {
      && sender.Valid() && pending.Length == 3
      && pending != sender.credit && pending != sender.sequence && pending != sender.queued
    }

    ghost function View(): HostRx
      requires Valid()
      reads this, pending, sender
    {
      HostRx(pending[..], due)
    }

    constructor (sender: Sender.Sender)
      requires sender.Valid()
      ensures Valid() && fresh(pending) && this.sender == sender && delivered == []
      ensures View() == HostRx([0, 0, 0], 0)
    {
      this.sender := sender;
      due, delivered := 0, [];
      pending := new uint32[3](_ => 0);
    }

    /** `accumulate_ethernet_rx_credit` */
    method AccumulateCredit(channel: byte, units: nat, now: nat)
      requires Valid()
      modifies this`due, pending
      ensures View() == Accumulate(old(View()), channel, units, now)
    {
      var i := Index(channel);
      pending[i] := SaturatingAdd(pending[i], if units > UINT32_MAX then UINT32_MAX else units);
      assert pending[..] == old(pending[..])[i := pending[i]];
      if due == 0 {
        due := now + HOST_DELAY_MS;
      }
    }

    /** The second pass dispatches the Ethernet records of a payload that the first pass accepted. */
    method Dispatch(data: array<byte>, start: nat, size: nat)
      requires start + size <= data.Length && RawRecord.Parse(data[start..start + size]).Some?
      modifies this`delivered
      ensures var rs := RawRecord.Parse(data[start..start + size]).value;
              delivered == old(delivered) + Deliverable(rs, |rs|)
    {
      hide RawRecord.ParseFrom, RawRecord.Next, Prepend;
      ghost var payload := data[start..start + size];
      ghost var all := RawRecord.Parse(payload).value;
      var it := new RawRecord.Iterator(data, start, size);
      ghost var n := 0;
      ParseStep(payload, 0);
      var step := it.Advance();
      assert all[0..] == all;
      assert delivered + [] == delivered;
      while step.View?
        invariant it.Valid() && it.data == data && it.Content() == payload && fresh(it)
        invariant it.offset <= size && n <= |all|
        invariant step.View? ==>
                    && step.at + step.size == it.offset
                    && Prepend(payload, step, RawRecord.ParseFrom(payload, it.offset)) == Some(all[n..])
        invariant !step.View? ==> n == |all|
        invariant delivered == old(delivered) + Deliverable(all, n)
        decreases size - it.offset, step.View?
      {
        PrependTail(payload, step, RawRecord.ParseFrom(payload, it.offset), all, n);
        if step.kind == 1 {
          delivered := delivered + [data[start + step.at..start + step.at + step.size]];
          SliceOfSlice(data[..], start, start + size, step.at, step.at + step.size);
        }
        n := n + 1;
        ParseStep(payload, it.offset);
        step := it.Advance();
      }
    }

    /** `process_frame`, up to the Ethernet branch. */
    method TakeFrame(frame: array<byte>, size: nat, now: nat)
      requires Valid() && size <= frame.Length
      modifies this, pending, sender`session
      ensures (sender.View(), View()) ==
              HostReceive(sender.config, old(sender.View()), old(View()), Data(frame[..size]), now)
      ensures delivered == old(delivered) + Dispatched(sender.config, old(sender.session), frame[..size])
    {
      hide FrameCodec.Decode, PayloadUnits, Delivery, Accumulate;
      assert delivered + [] == delivered;
      assert frame[0..size] == frame[..size];
      var decoded := FrameCodec.DecodeFrom(frame, 0, size, sender.config.maxFrame);
      if decoded.Err? {
        return;
      }
      var header := decoded.value;
      if sender.session != 0 && header.session != sender.session {
        sender.session := 0;
        return;
      }
      if !IsEthernet(header.channel) {
        return;
      }
      PayloadPlace(frame[..size], sender.config.maxFrame);
      assert frame[FrameCodec.HEADER_SIZE..size] == frame[..size][FrameCodec.HEADER_SIZE..];
      TakePayload(header.channel, frame, FrameCodec.HEADER_SIZE, size - FrameCodec.HEADER_SIZE, now);
    }

    /** The Ethernet branch: all records or none, and one unit of debt for each, or one unit for a
        payload that does not parse. */
    method TakePayload(channel: byte, data: array<byte>, start: nat, size: nat, now: nat)
      requires Valid() && start + size <= data.Length
      modifies this, pending
      ensures View() == Accumulate(old(View()), channel, PayloadUnits(data[start..start + size]), now)
      ensures delivered == old(delivered) + Delivery(data[start..start + size])
    {
      hide RawRecord.ParseFrom, Accumulate, Deliverable;
      assert delivered + [] == delivered;
      var valid, units := CountRecords(data, start, size);
      if valid {
        Dispatch(data, start, size);
      }
      AccumulateCredit(channel, if valid then units else 1, now);
    }

    /** `handle_credit_update`, behind the same session check. */
    method TakeCredit(session: uint32, channel: byte, units: uint32)
      requires Valid()
      modifies sender`session, sender`congested, sender.credit
      ensures (sender.View(), View()) ==
              HostReceive(sender.config, old(sender.View()), old(View()), Credit(session, channel, units), 0)
    {
      if sender.session != 0 && session != sender.session {
        sender.session := 0;
        return;
      }
      sender.credit[channel] := SaturatingAdd(sender.credit[channel], units);
      assert sender.credit[..] == old(sender.credit[..])[channel := sender.credit[channel]];
      sender.congested := false;
    }

    method Pay(i: nat, over: bool, accepted: bool) returns (refused: bool)
      requires Valid() && i < 3
      modifies pending, sender`submitted
      ensures var units := old(pending[i]);
              && refused == (HostPays(units, over) && !accepted)
              && pending[i] == (if HostPays(units, over) && accepted then 0 else units)
              && sender.submitted == old(sender.submitted) +
                 if HostPays(units, over) then SendCredit(sender.session, ChannelAt(i), units, accepted) else []
      ensures forall k :: 0 <= k < 3 && k != i ==> pending[k] == old(pending[k])
    {
      hide SendCredit;
      refused := false;
      assert sender.submitted + [] == sender.submitted;
      var units := pending[i];
      if units != 0 && (units >= HOST_BATCH || over) {
        var sent := sender.SendCreditUpdate(ChannelAt(i), units, accepted);
        if sent {
          pending[i] := 0;
        }
        refused := !sent;
      }
    }

    /** `flush_ethernet_rx_credits` */
    method Flush(accepted: InterfaceFlags, now: nat) returns (retry: bool)
      requires Valid()
      modifies this`due, pending, sender`submitted
      ensures (View(), retry, sender.submitted) ==
              var (rx, r, out) := HostFlush(old(sender.View()), old(View()), accepted, now);
              (rx, r, old(sender.submitted) + out)
    {
      hide SendCredit, HostPays, HostUnpaid;
      var over := due != 0 && now >= due;
      ghost var before := pending[..];
      ghost var wire := sender.submitted;
      retry := false;
      var i := 0;
      assert wire + [] == wire;
      while i < 3
        invariant 0 <= i <= 3 && Valid()
        invariant forall k :: 0 <= k < 3 ==>
                    pending[k] == if k < i && HostPays(before[k], over) && accepted[k] then 0 else before[k]
        invariant retry <==> exists k :: 0 <= k < i && HostPays(before[k], over) && !accepted[k]
        invariant sender.submitted == wire + HostPaid(sender.session, before, over, accepted, i)
      {
        var refused := Pay(i, over, accepted[i]);
        retry := retry || refused;
        i := i + 1;
      }
      AllUnpaid(pending[..], before, over, accepted);
      due := if pending[0] == 0 && pending[1] == 0 && pending[2] == 0 then 0 else now + HOST_DELAY_MS;
    }
  }

  lemma InTurn(wire: seq<Slot>, first: seq<Slot>, second: seq<Slot>)
    ensures wire + first + second == wire + (first + second)
  {
  }

  /** A record given to the backend, and what the backend answered, if it did. */
  datatype Handover = Handover(payload: seq<byte>, answer: Option<Verdict>)

  /** What the second pass hands over of the first `n` records. */
  function Handovers(rs: seq<RawRecord.Record>, a: Arrival, n: nat): seq<Handover>
    requires n <= |rs|
  {
    if n == 0 then []
    else
      var answer := if n - 1 < |a.verdicts| then Some(a.verdicts[n - 1]) else None;
      Handovers(rs, a, n - 1) +
      if rs[n - 1].kind == 1 && a.backend then [Handover(rs[n - 1].payload, answer)] else []
  }

  lemma NoneDelivered(rs: seq<RawRecord.Record>, a: Arrival)
    ensures KeptCount(rs, a, 0) == 0 && Handovers(rs, a, 0) == []
  {
  }

  lemma OneDelivered(rs: seq<RawRecord.Record>, a: Arrival, n: nat)
    requires n < |rs|
    ensures KeptCount(rs, a, n + 1) == KeptCount(rs, a, n) + (if KeptByBackend(rs[n], a, n) then 1 else 0)
    ensures Handovers(rs, a, n + 1) == Handovers(rs, a, n) +
            if rs[n].kind == 1 && a.backend
            then [Handover(rs[n].payload, if n < |a.verdicts| then Some(a.verdicts[n]) else None)] else []
  {
  }

  lemma AllUnpaid(left: PerInterface, pending: PerInterface, due: bool, accepted: InterfaceFlags)
    requires forall k :: 0 <= k < 3 ==> left[k] == if HostPays(pending[k], due) && accepted[k] then 0 else pending[k]
    ensures left == HostUnpaid(pending, due, accepted)
  {
  }

  // ---------------------------------------------------------------------------------------
  // The Coprocessor
  // ---------------------------------------------------------------------------------------

  class CoprocReceiver {
    const sender: Sender.Sender
    const expected: array<uint32>
    const seen: array<bool>
    const pending: array<uint32>
    var failures: uint32
    var wakeQueued: bool
    ghost var handed: seq<Handover>

    ghost predicate Valid()
      reads sender
    {
      && sender.Valid() && pending.Length == 3 && expected.Length == CHANNELS && seen.Length == CHANNELS
      && pending != expected
      && {pending, expected} !! {sender.credit, sender.sequence, sender.queued}
    }

    ghost function View(): CoprocRx
      requires Valid()
      reads this, pending, expected, seen, sender
    {
      CoprocRx(expected[..], seen[..], pending[..], failures, wakeQueued)
    }

    constructor (sender: Sender.Sender)
      requires sender.Valid()
      ensures Valid() && fresh(pending) && fresh(expected) && fresh(seen) && this.sender == sender
      ensures handed == [] && failures == 0 && !wakeQueued && pending[..] == [0, 0, 0]
      ensures forall k :: 0 <= k < CHANNELS ==> !seen[k]
    {
      this.sender := sender;
      failures, wakeQueued, handed := 0, false, [];
      pending := new uint32[3](_ => 0);
      expected := new uint32[CHANNELS](_ => 0);
      seen := new bool[CHANNELS](_ => false);
    }

    /** The second pass hands the Ethernet records to the backend, logged with its answers, and counts
        those it did not keep. */
    method Deliver(data: array<byte>, start: nat, size: nat, a: Arrival) returns (back: nat)
      requires start + size <= data.Length && RawRecord.Parse(data[start..start + size]).Some?
      modifies this`handed
      ensures var rs := RawRecord.Parse(data[start..start + size]).value;
              && back == |rs| - KeptCount(rs, a, |rs|)
              && handed == old(handed) + Handovers(rs, a, |rs|)
    {
      hide RawRecord.ParseFrom, RawRecord.Next, Prepend, KeptCount, Handovers;
      ghost var payload := data[start..start + size];
      ghost var all := RawRecord.Parse(payload).value;
      var it := new RawRecord.Iterator(data, start, size);
      var n := 0;
      back := 0;
      ParseStep(payload, 0);
      var step := it.Advance();
      assert all[0..] == all;
      NoneDelivered(all, a);
      assert handed + [] == handed;
      while step.View?
        invariant it.Valid() && it.data == data && it.Content() == payload && fresh(it)
        invariant it.offset <= size && n <= |all|
        invariant step.View? ==>
                    && step.at + step.size == it.offset
                    && Prepend(payload, step, RawRecord.ParseFrom(payload, it.offset)) == Some(all[n..])
        invariant !step.View? ==> n == |all|
        invariant back == n - KeptCount(all, a, n)
        invariant handed == old(handed) + Handovers(all, a, n)
        decreases size - it.offset, step.View?
      {
        PrependTail(payload, step, RawRecord.ParseFrom(payload, it.offset), all, n);
        OneDelivered(all, a, n);
        if step.kind != 1 || !a.backend {
          back := back + 1;
        } else {
          var answer := if n < |a.verdicts| then Some(a.verdicts[n]) else None;
          handed := handed + [Handover(data[start + step.at..start + step.at + step.size], answer)];
          SliceOfSlice(data[..], start, start + size, step.at, step.at + step.size);
          if answer != Some(Pending) {
            back := back + 1;
          }
        }
        n := n + 1;
        ParseStep(payload, it.offset);
        step := it.Advance();
      }
    }

    /** `process_frame`, up to the Ethernet branch: the gap refund, the records, the refund of
        those the backend did not keep. */
    method TakeFrame(frame: array<byte>, size: nat, a: Arrival) returns (kept: nat)
      requires Valid() && size <= frame.Length
      modifies this, expected, seen, sender`submitted
      ensures (sender.View(), View(), kept, sender.submitted) ==
              var (t, rx, k, out) :=
                CoprocReceive(sender.config, old(sender.View()), old(View()), Data(frame[..size]), a);
              (t, rx, k, old(sender.submitted) + out)
      ensures handed == old(handed) + Handed(sender.config, a, frame[..size])
    {
      hide FrameCodec.Decode, PayloadUnits, KeptUnits, HandedPayload, SendCredit, Skipped, Tracked;
      kept := 0;
      assert handed + [] == handed && sender.submitted + [] == sender.submitted;
      assert frame[0..size] == frame[..size];
      var decoded := FrameCodec.DecodeFrom(frame, 0, size, sender.config.maxFrame);
      if decoded.Err? {
        return;
      }
      var header := decoded.value;
      var skipped := Gap(header.channel, header.sequence);
      if IsEthernet(header.channel) {
        var _ := sender.SendCreditUpdate(header.channel, skipped, a.gapAccepted);
      }
      Track(header.channel, header.sequence);
      if !IsEthernet(header.channel) {
        return;
      }
      PayloadPlace(frame[..size], sender.config.maxFrame);
      assert frame[FrameCodec.HEADER_SIZE..size] == frame[..size][FrameCodec.HEADER_SIZE..];
      var back;
      back, kept := TakePayload(frame, FrameCodec.HEADER_SIZE, size - FrameCodec.HEADER_SIZE, a);
      var units: uint32 := if back > UINT32_MAX then UINT32_MAX else back;
      var _ := sender.SendCreditUpdate(header.channel, units, a.refundAccepted);
      InTurn(old(sender.submitted), SendCredit(sender.session, header.channel, skipped, a.gapAccepted),
             SendCredit(sender.session, header.channel, units, a.refundAccepted));
    }

    /** Frames skipped on a channel; a backward step is taken for reordering. */
    method Gap(channel: byte, sequence: uint32) returns (skipped: uint32)
      requires Valid()
      ensures skipped == Skipped(View(), channel, sequence)
    {
      skipped := 0;
      if seen[channel] && sequence != expected[channel] {
        skipped := Wrap32(sequence - expected[channel]);
        if skipped >= 0x8000_0000 {
          skipped := 0;
        }
      }
    }

    method Track(channel: byte, sequence: uint32)
      requires Valid()
      modifies expected, seen
      ensures View() == Tracked(old(View()), channel, sequence)
    {
      expected[channel] := Wrap32(sequence + 1);
      seen[channel] := true;
      assert expected[..] == old(expected[..])[channel := Wrap32(sequence + 1)];
      assert seen[..] == old(seen[..])[channel := true];
    }

    method TakePayload(data: array<byte>, start: nat, size: nat, a: Arrival) returns (back: nat, kept: nat)
      requires Valid() && start + size <= data.Length
      modifies this`handed
      ensures var payload := data[start..start + size];
              && kept == KeptUnits(payload, a) && back == PayloadUnits(payload) - kept
              && handed == old(handed) + HandedPayload(payload, a)
    {
      hide RawRecord.ParseFrom, Handovers, KeptCount;
      assert handed + [] == handed;
      var valid, units := CountRecords(data, start, size);
      if valid {
        back := Deliver(data, start, size, a);
        kept := units - back;
      } else {
        back, kept := 1, 0;
      }
    }

    /** The CREDIT_UPDATE branch of `handle_rpc`. */
    method TakeCredit(session: uint32, channel: byte, units: uint32, a: Arrival) returns (ok: bool)
      requires Valid()
      modifies sender`congested, sender.credit
      ensures sender.View() ==
              CoprocReceive(sender.config, old(sender.View()), View(), Credit(session, channel, units), a).0
      ensures ok <==> session == sender.session && UINT32_MAX - old(sender.credit[channel]) >= units
    {
      if session != sender.session || UINT32_MAX - sender.credit[channel] < units {
        return false;
      }
      sender.credit[channel] := sender.credit[channel] + units;
      assert sender.credit[..] == old(sender.credit[..])[channel := sender.credit[channel]];
      sender.congested := false;
      ok := true;
    }

    /** `wlh_coproc_ethernet_rx_complete` */
    method RxDone(session: uint32, channel: byte, units: uint32, failed: bool, initialCredit: uint32)
      returns (outcome: Outcome, wake: bool)
      requires Valid()
      modifies this`failures, this`wakeQueued, pending
      ensures (View(), outcome, wake) ==
              RxComplete(sender.View(), old(View()), session, channel, units, failed, initialCredit)
    {
      wake := false;
      if units == 0 || !IsEthernet(channel) {
        return BadArgument, false;
      }
      if sender.session == 0 || session != sender.session {
        return BadState, false;
      }
      var i := Index(channel);
      pending[i] := SaturatingAdd(pending[i], units);
      assert pending[..] == old(pending[..])[i := pending[i]];
      if failed && failures < UINT32_MAX {
        failures := failures + 1;
      }
      if !wakeQueued && pending[i] >= BatchUnits(initialCredit) {
        wakeQueued := true;
        wake := true;
      }
      outcome := Done;
    }

    method Pay(i: nat, accepted: bool) returns (refused: bool)
      requires Valid() && i < 3
      modifies pending, sender`submitted
      ensures var units := old(pending[i]);
              var open := sender.session != 0;
              && refused == (units != 0 && !(open && accepted))
              && pending[i] == (if open && accepted then 0 else units)
              && sender.submitted == old(sender.submitted) +
                 if open then SendCredit(sender.session, ChannelAt(i), units, accepted) else []
      ensures forall k :: 0 <= k < 3 && k != i ==> pending[k] == old(pending[k])
    {
      refused := false;
      assert sender.submitted + [] == sender.submitted;
      var units := pending[i];
      if units != 0 {
        pending[i] := 0;
        var sent := false;
        if sender.session != 0 {
          sent := sender.SendCreditUpdate(ChannelAt(i), units, accepted);
        }
        if !sent {
          pending[i] := SaturatingAdd(pending[i], units);
          refused := true;
        }
      }
    }

    /** `flush_ethernet_rx_completions` */
    method Flush(accepted: InterfaceFlags) returns (retry: bool)
      requires Valid()
      modifies this`failures, this`wakeQueued, pending, sender`submitted
      ensures (View(), retry, sender.submitted) ==
              var (rx, r, out) := CoprocFlush(old(sender.View()), old(View()), accepted);
              (rx, r, old(sender.submitted) + out)
    {
      hide SendCredit;
      wakeQueued := false;
      failures := 0;
      ghost var before := pending[..];
      ghost var wire := sender.submitted;
      retry := false;
      var i := 0;
      assert wire + [] == wire;
      while i < 3
        invariant 0 <= i <= 3 && Valid() && !wakeQueued && failures == 0
        invariant forall k :: 0 <= k < 3 ==>
                    pending[k] == if k < i && sender.session != 0 && accepted[k] then 0 else before[k]
        invariant retry <==> exists k :: 0 <= k < i && CoprocKeeps(sender.session, before, accepted, k)
        invariant sender.submitted == wire + CoprocPaid(sender.session, before, accepted, i)
      {
        var refused := Pay(i, accepted[i]);
        assert refused == CoprocKeeps(sender.session, before, accepted, i);
        retry := retry || refused;
        i := i + 1;
      }
      assert pending[..] == CoprocUnpaid(sender.session, before, accepted);
    }
  }

  function HandedPayload(payload: seq<byte>, a: Arrival): seq<Handover> {
    if |payload| == 0 then []
    else
      match RawRecord.Parse(payload)
      case None => []
      case Some(rs) => Handovers(rs, a, |rs|)
  }

  /** What one frame hands to the Coprocessor's backend, with its answers. */
  function Handed(c: Config, a: Arrival, frame: seq<byte>): seq<Handover> {
    match FrameCodec.Decode(frame, c.maxFrame)
    case Err(_) => []
    case Ok((header, payload)) => if !IsEthernet(header.channel) then [] else HandedPayload(payload, a)
  }

  function Payloads(log: seq<Handover>): seq<seq<byte>> {
    seq(|log|, k requires 0 <= k < |log| => log[k].payload)
  }

  lemma {:induction false} HandoversDeliver(rs: seq<RawRecord.Record>, a: Arrival, n: nat)
    requires n <= |rs|
    ensures Payloads(Handovers(rs, a, n)) == if a.backend then Deliverable(rs, n) else []
    decreases n
  {
    if n > 0 {
      HandoversDeliver(rs, a, n - 1);
    }
  }

  /** The frames in that log are those accepted. */
  lemma HandedAccepted(c: Config, a: Arrival, frame: seq<byte>)
    ensures Payloads(Handed(c, a, frame)) == Accepted(c, a.backend, frame)
  {
    hide FrameCodec.Decode, Handovers, RawRecord.ParseFrom, Deliverable;
    var decoded := FrameCodec.Decode(frame, c.maxFrame);
    if decoded.Ok? && |decoded.value.1| > 0 && RawRecord.Parse(decoded.value.1).Some? {
      var rs := RawRecord.Parse(decoded.value.1).value;
      HandoversDeliver(rs, a, |rs|);
    }
  }

  /** The Ethernet frames one frame delivers to the Coprocessor's backend. */
  function Accepted(c: Config, backend: bool, frame: seq<byte>): seq<seq<byte>> {
    match FrameCodec.Decode(frame, c.maxFrame)
    case Err(_) => []
    case Ok((header, payload)) => if !IsEthernet(header.channel) || !backend then [] else Delivery(payload)
  }

  /** What one frame dispatches to the Host application. */
  function Dispatched(c: Config, session: uint32, frame: seq<byte>): seq<seq<byte>> {
    match FrameCodec.Decode(frame, c.maxFrame)
    case Err(_) => []
    case Ok((header, payload)) =>
      if (session != 0 && header.session != session) || !IsEthernet(header.channel) then [] else Delivery(payload)
  }

  lemma PayloadPlace(frame: seq<byte>, max: nat)
    requires FrameCodec.Decode(frame, max).Ok?
    ensures |frame| >= FrameCodec.HEADER_SIZE
    ensures FrameCodec.Decode(frame, max).value.1 == frame[FrameCodec.HEADER_SIZE..]
  {
    hide FrameCodec.HeaderBytes, FrameCodec.FrameChecksum, FrameCodec.HeaderAt;
  }
}
