/** What the two endpoints' frame handling decides besides credit: how a send ends, when an endpoint is
    congested, what a frame of another session does, and what the flushes leave. */
module LinkLaws {
  import opened Bytes
  import opened LinkState
  import FrameCodec

  /** The header of a data frame: version 1, no flags, the session and the next sequence number. */
  function Plain(channel: byte, session: uint32, sequence: uint32): FrameCodec.FrameHeader {
    FrameCodec.FrameHeader(0x4c57, 1, 24, channel, 0, 0, session, sequence, 0, 0)
  }

  /** No CreditUpdate is ever for nothing: one goes out exactly for units that are accepted. */
  lemma CreditSentExactly(session: uint32, channel: byte, units: uint32, accepted: bool)
    ensures var out := SendCredit(session, channel, units, accepted);
            && (out == [] <==> units == 0 || !accepted)
            && (out != [] ==> out == [Credit(session, channel, units)])
  {
  }

  /** A send ends in the first of these ways that applies; only a sent frame moves credit and sequence,
      and only lack of credit marks the endpoint congested. */
  lemma SendEndsExactly(c: Config, t: Tx, channel: byte, payload: seq<byte>, reserved: bool, units: nat, env: Send)
    ensures var (t', outcome, out) := SendFrame(c, t, channel, payload, reserved, units, env);
            var fits := 24 + |payload| <= c.maxFrame && |payload| <= 65535 && units > 0;
            var covered := reserved || t.credit[channel] >= units;
            && (outcome == BadArgument <==> !fits)
            && (outcome == NoCredit <==> fits && !covered)
            && (outcome == NoMemory <==> fits && covered && !env.alloc)
            && (outcome == Refused <==> fits && covered && env.alloc && !env.submit)
            && (outcome == Done <==> fits && covered && env.alloc && env.submit)
            && (outcome != Done ==> out == [] && t' == if outcome == NoCredit then t.(congested := true) else t)
            && (outcome == Done ==>
                  && |out| == 1 && out[0].Data? && t'.congested == t.congested
                  && Ok(out[0].frame) == FrameCodec.Encode(Plain(channel, t.session, t.sequence[channel]), payload)
                  && t'.sequence == t.sequence[channel := (t.sequence[channel] as int + 1) % 0x1_0000_0000]
                  && (reserved ==> t'.credit == t.credit)
                  && (!reserved ==>
                        t.credit[channel] >= units && t'.credit == t.credit[channel := t.credit[channel] - units]))
  {
    hide FrameCodec.HeaderBytes, FrameCodec.FrameChecksum;
    assert t.credit[channel := t.credit[channel]] == t.credit;
  }

  /** On the Host a frame or a CreditUpdate of another session ends the session and does nothing else. */
  lemma ForeignEndsSession(c: Config, t: Tx, rx: HostRx, slot: Slot, now: nat)
    requires t.session != 0
    requires slot.Credit? ==> slot.session != t.session
    requires slot.Data? ==> FrameCodec.Decode(slot.frame, c.maxFrame).Ok? &&
                            FrameCodec.Decode(slot.frame, c.maxFrame).value.0.session != t.session
    requires !slot.Lost?
    ensures HostReceive(c, t, rx, slot, now) == (t.(session := 0), rx)
  {
    hide FrameCodec.Decode, PayloadUnits;
  }

  /** Anything else it does not accept leaves both endpoints as they were. */
  lemma NotAcceptedIgnored(c: Config, t: Tx, host: HostRx, coproc: CoprocRx, frame: seq<byte>, now: nat, a: Arrival)
    requires FrameCodec.Decode(frame, c.maxFrame).Err?
    ensures HostReceive(c, t, host, Data(frame), now) == (t, host)
    ensures CoprocReceive(c, t, coproc, Data(frame), a) == (t, coproc, 0, [])
  {
    hide FrameCodec.Decode;
  }

  /** A CreditUpdate of the session adds its units and ends congestion; the Coprocessor takes none of
      another session, nor one that would overflow. */
  lemma UpdateTaken(c: Config, t: Tx, host: HostRx, coproc: CoprocRx, session: uint32, channel: byte, units: uint32,
                    now: nat, a: Arrival)
    requires session == t.session && t.credit[channel] + units <= 0xffff_ffff
    ensures var more := t.(credit := t.credit[channel := t.credit[channel] + units], congested := false);
            && HostReceive(c, t, host, Credit(session, channel, units), now) == (more, host)
            && CoprocReceive(c, t, coproc, Credit(session, channel, units), a) == (more, coproc, 0, [])
  {
  }

  lemma UpdateRejected(c: Config, t: Tx, coproc: CoprocRx, session: uint32, channel: byte, units: uint32, a: Arrival)
    requires session != t.session || t.credit[channel] + units > 0xffff_ffff
    ensures CoprocReceive(c, t, coproc, Credit(session, channel, units), a) == (t, coproc, 0, [])
  {
  }

  /** The Host's flush leaves a date exactly when it leaves a debt, one millisecond ahead, and asks for a
      retry exactly when something due was refused. */
  lemma HostFlushLeaves(t: Tx, rx: HostRx, accepted: InterfaceFlags, now: nat)
    ensures var (rx', retry, _) := HostFlush(t, rx, accepted, now);
            var due := rx.due > 0 && now >= rx.due;
            && rx'.due == (if forall i :: 0 <= i < 3 ==> rx'.pending[i] == 0 then 0 else now + 1)
            && (retry <==> exists i :: 0 <= i < 3 && rx.pending[i] > 0 && (rx.pending[i] >= 8 || due) && !accepted[i])
  {
    hide HostPaid;
    var rx' := HostFlush(t, rx, accepted, now).0;
    assert rx'.pending == [0, 0, 0] <==> forall i :: 0 <= i < 3 ==> rx'.pending[i] == 0;
    assert forall i :: 0 <= i < 3 ==>
      (HostPays(rx.pending[i], HostDue(rx, now)) <==>
       rx.pending[i] > 0 && (rx.pending[i] >= 8 || (rx.due > 0 && now >= rx.due)));
  }

  /** The Coprocessor's flush pays every interface of a session, keeps what is refused and asks for a
      retry exactly then; the wake and the count of failures start anew. */
  lemma CoprocFlushLeaves(t: Tx, rx: CoprocRx, accepted: InterfaceFlags)
    ensures var (rx', retry, _) := CoprocFlush(t, rx, accepted);
            && !rx'.wakeQueued && rx'.failures == 0 && rx'.sequence == rx.sequence && rx'.valid == rx.valid
            && (forall i :: 0 <= i < 3 ==>
                  rx'.pending[i] == if t.session != 0 && accepted[i] then 0 else rx.pending[i])
            && (retry <==> exists i :: 0 <= i < 3 && rx'.pending[i] > 0)
  {
    hide CoprocPaid;
    var rx' := CoprocFlush(t, rx, accepted).0;
    assert forall i :: 0 <= i < 3 ==> (CoprocKeeps(t.session, rx.pending, accepted, i) <==> rx'.pending[i] > 0);
  }

  /** A failed completion is counted, up to the largest number there is. */
  lemma FailuresCounted(t: Tx, rx: CoprocRx, session: uint32, channel: byte, units: uint32, failed: bool,
                        initial: uint32)
    ensures var (rx', outcome, _) := RxComplete(t, rx, session, channel, units, failed, initial);
            && rx'.failures == (if outcome.Done? && failed && rx.failures < 0xffff_ffff then rx.failures + 1
                                else rx.failures)
            && (outcome.BadArgument? <==> units == 0 || !IsEthernet(channel))
            && (outcome.BadState? <==> units > 0 && IsEthernet(channel) && (t.session == 0 || session != t.session))
            && (!outcome.Done? ==> rx' == rx)
  {
  }
}
