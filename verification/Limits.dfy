/** The limits and thresholds of the data path, with their numbers: who is admitted, when withheld
    credit is paid or asks for a wake, and what a Hello grants. */
module Limits {
  import opened Bytes
  import opened Aggregation
  import opened LinkState
  import RawRecord
  import Session
  import HciPacing
  import OtaPacing

  /** The records that may be queued: 1 to 1600 bytes on the Host; up to a frame of 4096 with its two
      headers on the Coprocessor. */
  predicate SizeFits(side: Side, size: nat) {
    match side
    case HostSide => 1 <= size <= 1600
    case CoprocSide => size <= 4064
  }

  /** A record is admitted exactly when its size fits, a slot is free, memory and the mutex are had,
      the queue has room and, on the Host, credit exceeds what is queued on the interface. It is then
      the last job, as one record of kind 1. */
  lemma AdmittedExactly(c: Config, t: Tx, i: nat, payload: seq<byte>, alloc: bool, locked: bool)
    requires i < 3
    ensures var channel := ChannelAt(i);
            var (t', outcome) := AdmitRecord(c, t, channel, payload, alloc, locked);
            && (outcome.Done? <==>
                && SizeFits(c.side, |payload|) && t.slots > 0 && alloc && |t.queue| < c.queueDepth
                && (c.side.HostSide? ==> locked && t.credit[channel] > t.queued[i]))
            && (outcome.Done? ==>
                  t'.queue == t.queue + [EthernetTx(channel, RawRecord.Encode(RawRecord.Record(1, 0, payload)))] &&
                  t'.slots == t.slots - 1)
            && (!outcome.Done? ==> t' == t)
  {
  }

  /** What a refused sender is told, first cause first. */
  lemma RefusedExactly(c: Config, t: Tx, i: nat, payload: seq<byte>, alloc: bool, locked: bool)
    requires i < 3
    ensures var outcome := AdmitRecord(c, t, ChannelAt(i), payload, alloc, locked).1;
            var fits, host := SizeFits(c.side, |payload|), c.side.HostSide?;
            var covered := host ==> t.credit[ChannelAt(i)] > t.queued[i];
            var room := |t.queue| < c.queueDepth;
            && (outcome == BadArgument <==> !fits)
            && (outcome == NoSlot <==> fits && (t.slots == 0 || (alloc && host && !locked)))
            && (outcome == NoMemory <==> fits && t.slots > 0 && (!alloc || (!host && !room)))
            && (outcome == NoCredit <==> fits && t.slots > 0 && alloc && host && locked && !(covered && room))
  {
  }

  /** The Host pays an interface at once from eight units on, and anything withheld after its date,
      one millisecond after it was first withheld; a refused CreditUpdate stays owed. */
  lemma HostPaysExactly(t: Tx, rx: HostRx, accepted: InterfaceFlags, now: nat, i: nat)
    requires i < 3
    ensures var (rx', retry, _) := HostFlush(t, rx, accepted, now);
            var due := rx.pending[i] >= 8 || (rx.due > 0 && now >= rx.due);
            && rx'.pending[i] == (if due && accepted[i] then 0 else rx.pending[i])
            && (due && rx.pending[i] > 0 && !accepted[i] ==> retry)
  {
    hide HostPaid;
  }

  lemma WithheldFor(rx: HostRx, channel: byte, units: nat, now: nat)
    ensures rx.due == 0 ==> Accumulate(rx, channel, units, now).due == now + 1
    ensures rx.due != 0 ==> Accumulate(rx, channel, units, now).due == rx.due
  {
  }

  /** A completion asks for a wake exactly when none is queued and the interface has reached 32 units,
      or the initial credit if that is less and not zero. */
  lemma WakesExactly(t: Tx, rx: CoprocRx, session: uint32, channel: byte, units: uint32, failed: bool, initial: uint32)
    ensures var (rx', outcome, wake) := RxComplete(t, rx, session, channel, units, failed, initial);
            var sum := rx'.pending[Index(channel)];
            && (outcome.Done? <==> units > 0 && (channel == 2 || channel == 3 || channel == 10) &&
                                   t.session != 0 && session == t.session)
            && (wake <==> outcome.Done? && !rx.wakeQueued && (sum >= 32 || (initial > 0 && sum >= initial)))
            && (outcome.Done? ==> rx'.wakeQueued == (rx.wakeQueued || wake))
  {
  }

  /** The windows that the pacing laws speak of are those a Hello grants. */
  lemma WindowsGranted(before: PerChannel, initial: uint32, has: Session.Services)
    requires has.bluetooth && has.ota
    ensures Session.SeededCredit(Session.Granted(initial, has))[4] == HciPacing.WINDOW
    ensures Session.SeededCredit(Session.Granted(initial, has))[5] == OtaPacing.WINDOW
  {
    hide Session.SeededCredit, Session.Granted;
    HelloGrants(before, initial, has, 4);
    HelloGrants(before, initial, has, 5);
  }

  /** The Host's credit after a Hello: the configured one on the control and Wi-Fi channels, 16 for HCI,
      4 for advertising and 4 for OTA where there is such a service, and nothing anywhere else. */
  lemma HelloGrants(before: PerChannel, initial: uint32, has: Session.Services, channel: byte)
    ensures Session.SeededCredit(Session.Granted(initial, has))[channel] ==
            if channel <= 3 then initial
            else if channel == 4 && has.bluetooth then 16
            else if channel == 9 && has.bluetooth && has.advertising then 4
            else if channel == 5 && has.ota then 4
            else if channel == 10 && has.eth then initial
            else 0
  {
    hide Session.SeededCredit, Session.Granted;
    Session.CreditsAgree(before, initial, has, channel);
  }
}
