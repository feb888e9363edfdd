/** Every step of the credit protocol keeps the balance of every interface in both directions. */
module CreditInvariant {
  import opened Bytes
  import opened Aggregation
  import opened LinkState
  import opened Wire
  import opened Transmit
  import opened CreditProtocol
  import FrameCodec

  // ---------------------------------------------------------------------------------------
  // The invariant
  // ---------------------------------------------------------------------------------------

  /** Credit of one interface that circulates in the Host-to-Coprocessor direction. */
  function Circulating(s: Sys, i: nat): nat {
    if i >= 3 then 0
    else s.host.credit[ChannelAt(i)] + Sum(s.up, Units(ChannelAt(i))) + s.books[i].held +
         s.coprocRx.pending[i] + Sum(s.down, Credits(ChannelAt(i)))
  }

  /** Lost places whose one unit the next received frame will refund. */
  function Refundable(s: Sys, i: nat): nat {
    if i >= 3 then 0 else s.books[i].missed + Sum(s.up, Losses(ChannelAt(i)))
  }

  function Leaked(b: Book): int {
    b.early + b.extra + b.refused + b.wrapped
  }

  ghost predicate UpLaw(link: Link, s: Sys, i: nat)
    requires i < 3
  {
    && Circulating(s, i) + Refundable(s, i) + Leaked(s.books[i]) == link.grants[i]
    && s.books[i].wrapped >= 0
  }

  /** The other direction has no gap refund: whatever is lost stays lost. */
  ghost predicate DownLaw(link: Link, s: Sys, i: nat)
    requires i < 3
  {
    s.coproc.credit[ChannelAt(i)] + Sum(s.down, Units(ChannelAt(i))) + s.hostRx.pending[i] +
    Sum(s.up, Credits(ChannelAt(i))) + s.books[i].down == link.grants[i]
  }

  /** Sequence numbers are the true place numbers modulo 2^32, at the sender, on the wire and at
      the receiver. */
  ghost predicate SequenceLaw(s: Sys, i: nat)
    requires i < 3
  {
    var channel, b := ChannelAt(i), s.books[i];
    && InSequence(s.up, channel, b.gone)
    && s.host.sequence[channel] == Wrap32(b.gone + Places(s.up, channel))
    && b.missed <= b.gone
    && (s.coprocRx.valid[channel] ==> s.coprocRx.sequence[channel] == Wrap32(b.gone - b.missed))
    && (!s.coprocRx.valid[channel] ==> b.missed == 0)
  }

  ghost predicate Flow(link: Link, s: Sys) {
    && s.host.session == link.session && s.coproc.session == link.session
    && WireOk(s.up, link.session) && WireOk(s.down, link.session)
    && JobsOk(Backlog(s.host)) && JobsOk(Backlog(s.coproc))
  }

  ghost predicate Law(link: Link, s: Sys, i: nat)
    requires i < 3
  {
    UpLaw(link, s, i) && DownLaw(link, s, i) && SequenceLaw(s, i)
  }

  ghost predicate Balanced(link: Link, s: Sys) {
    LinkOk(link) && Flow(link, s) && forall i :: 0 <= i < 3 ==> Law(link, s, i)
  }

  lemma OpenedBalanced(link: Link, s: Sys)
    requires LinkOk(link) && Opened(link, s) && JobsOk(Backlog(s.host)) && JobsOk(Backlog(s.coproc))
    ensures Balanced(link, s)
  {
    hide JobsOk, Backlog;
    forall i | 0 <= i < 3
      ensures Law(link, s, i)
    {
      assert s.host.sequence[ChannelAt(i)] == s.books[i].gone;
    }
  }

  // ---------------------------------------------------------------------------------------
  // Wires
  // ---------------------------------------------------------------------------------------

  lemma Appended(w: seq<Slot>, out: seq<Slot>, channel: byte, next: nat, session: uint32)
    ensures Sum(w + out, Units(channel)) == Sum(w, Units(channel)) + Sum(out, Units(channel))
    ensures Sum(w + out, Credits(channel)) == Sum(w, Credits(channel)) + Sum(out, Credits(channel))
    ensures Sum(w + out, Losses(channel)) == Sum(w, Losses(channel)) + Sum(out, Losses(channel))
    ensures Places(w + out, channel) == Places(w, channel) + Places(out, channel)
    ensures InSequence(w + out, channel, next) <==>
            InSequence(w, channel, next) && InSequence(out, channel, next + Places(w, channel))
    ensures WireOk(w, session) && WireOk(out, session) ==> WireOk(w + out, session)
  {
    hide Sum, Places, InSequence, SlotOk;
    SumConcat(w, out, Units(channel));
    SumConcat(w, out, Credits(channel));
    SumConcat(w, out, Losses(channel));
    PlacesConcat(w, out, channel);
    InSequenceConcat(w, out, channel, next);
  }

  ghost predicate CreditsOnly(w: seq<Slot>, session: uint32) {
    forall k :: 0 <= k < |w| ==> w[k].Credit? && w[k].session == session && IsEthernet(w[k].channel)
  }

  lemma {:induction false} CreditsOnlyFacts(w: seq<Slot>, session: uint32, channel: byte, next: nat)
    requires CreditsOnly(w, session)
    ensures Sum(w, Units(channel)) == Sum(w, Losses(channel)) == Places(w, channel) == 0
    ensures InSequence(w, channel, next) && WireOk(w, session)
    decreases |w|
  {
    if |w| > 0 {
      CreditsOnlyFacts(w[1..], session, channel, next);
    }
  }

  lemma SendCreditFacts(session: uint32, of: byte, units: uint32, accepted: bool, channel: byte)
    requires IsEthernet(of)
    ensures CreditsOnly(SendCredit(session, of, units, accepted), session)
    ensures Sum(SendCredit(session, of, units, accepted), Credits(channel)) ==
            if accepted && of == channel then units else 0
  {
    if units != 0 && accepted {
      SumOne(Credit(session, of, units), Credits(channel));
    }
  }

  lemma NoCredits(session: uint32, channel: byte)
    ensures CreditsOnly([], session) && Sum([], Credits(channel)) == 0
  {
  }

  lemma CreditsConcat(a: seq<Slot>, b: seq<Slot>, session: uint32, channel: byte)
    requires CreditsOnly(a, session) && CreditsOnly(b, session)
    ensures CreditsOnly(a + b, session)
    ensures Sum(a + b, Credits(channel)) == Sum(a, Credits(channel)) + Sum(b, Credits(channel))
  {
    SumConcat(a, b, Credits(channel));
  }

  lemma {:induction false} HostPaidFacts(session: uint32, pending: PerInterface, due: bool,
                                         accepted: InterfaceFlags, n: nat, i: nat)
    requires n <= 3 && i < 3
    ensures var out := HostPaid(session, pending, due, accepted, n);
            && CreditsOnly(out, session)
            && Sum(out, Credits(ChannelAt(i))) ==
               if i < n && HostPays(pending[i], due) && accepted[i] then pending[i] else 0
    decreases n
  {
    hide Sum, SendCredit, CreditsOnly;
    NoCredits(session, ChannelAt(i));
    if n > 0 {
      HostPaidFacts(session, pending, due, accepted, n - 1, i);
      var channel, units := ChannelAt(n - 1), pending[n - 1];
      SendCreditFacts(session, channel, units, accepted[n - 1], ChannelAt(i));
      var last := if HostPays(units, due) then SendCredit(session, channel, units, accepted[n - 1]) else [];
      CreditsConcat(HostPaid(session, pending, due, accepted, n - 1), last, session, ChannelAt(i));
    }
  }

  lemma {:induction false} CoprocPaidFacts(session: uint32, pending: PerInterface, accepted: InterfaceFlags,
                                           n: nat, i: nat)
    requires n <= 3 && i < 3 && session != 0
    ensures var out := CoprocPaid(session, pending, accepted, n);
            && CreditsOnly(out, session)
            && Sum(out, Credits(ChannelAt(i))) == if i < n && accepted[i] then pending[i] else 0
    decreases n
  {
    hide Sum, SendCredit, CreditsOnly;
    if n == 0 {
      NoCredits(session, ChannelAt(i));
    } else {
      CoprocPaidFacts(session, pending, accepted, n - 1, i);
      var channel, units := ChannelAt(n - 1), pending[n - 1];
      SendCreditFacts(session, channel, units, accepted[n - 1], ChannelAt(i));
      CreditsConcat(CoprocPaid(session, pending, accepted, n - 1),
                    SendCredit(session, channel, units, accepted[n - 1]), session, ChannelAt(i));
    }
  }

  // ---------------------------------------------------------------------------------------
  // Transmit steps
  // ---------------------------------------------------------------------------------------

  lemma SentFacts(c: Config, t: Tx, t': Tx, out: seq<Slot>, of: byte, units: nat, channel: byte, next: nat)
    requires Sent(c, t, t', out, of, units) && t.sequence[channel] == Wrap32(next)
    ensures t'.credit[channel] + Sum(out, Units(channel)) == t.credit[channel]
    ensures Sum(out, Credits(channel)) == Sum(out, Losses(channel)) == 0
    ensures InSequence(out, channel, next) && t'.sequence[channel] == Wrap32(next + Places(out, channel))
    ensures WireOk(out, t.session)
  {
    hide FrameOk, ChannelOf, SequenceOf, UnitsOf;
    if out != [] {
      assert out == [out[0]] && out[1..] == [];
      SumOne(out[0], Units(channel));
      SumOne(out[0], Credits(channel));
      SumOne(out[0], Losses(channel));
      assert Places(out[1..], channel) == 0;
    }
  }

  lemma HostWorkBalanced(link: Link, s: Sys, canExpand: bool, send: Send)
    requires Balanced(link, s)
    ensures Balanced(link, HostWork(link, s, canExpand, send))
  {
    hide Work, Attempt, Sent, Sum, Places, InSequence, SlotOk, WireOk, JobsOk, Backlog;
    WorkKeeps(link.host, s.host, canExpand, send, 0);
    var (t, _, out) := Work(link.host, s.host, canExpand, send);
    var (of, units) := Attempt(link.host, s.host, canExpand);
    forall i | 0 <= i < 3
      ensures Law(link, HostWork(link, s, canExpand, send), i)
      ensures WireOk(s.up + out, link.session)
    {
      var channel, next := ChannelAt(i), s.books[i].gone;
      assert Law(link, s, i);
      SentFacts(link.host, s.host, t, out, of, units, channel, next + Places(s.up, channel));
      Appended(s.up, out, channel, next, link.session);
    }
    assert Law(link, HostWork(link, s, canExpand, send), 0);
  }

  lemma CoprocWorkBalanced(link: Link, s: Sys, canExpand: bool, send: Send)
    requires Balanced(link, s)
    ensures Balanced(link, CoprocWork(link, s, canExpand, send))
  {
    hide Work, Attempt, Sent, Sum, Places, InSequence, SlotOk, WireOk, JobsOk, Backlog;
    WorkKeeps(link.coproc, s.coproc, canExpand, send, 0);
    var (t, _, out) := Work(link.coproc, s.coproc, canExpand, send);
    var (of, units) := Attempt(link.coproc, s.coproc, canExpand);
    forall i | 0 <= i < 3
      ensures Law(link, CoprocWork(link, s, canExpand, send), i)
      ensures WireOk(s.down + out, link.session)
    {
      var channel := ChannelAt(i);
      assert Law(link, s, i);
      SentFacts(link.coproc, s.coproc, t, out, of, units, channel, s.coproc.sequence[channel]);
      Appended(s.down, out, channel, 0, link.session);
    }
    assert Law(link, CoprocWork(link, s, canExpand, send), 0);
  }

  // ---------------------------------------------------------------------------------------
  // Refund steps
  // ---------------------------------------------------------------------------------------

  lemma HostPayBalanced(link: Link, s: Sys, accepted: InterfaceFlags, now: nat)
    requires Balanced(link, s)
    ensures Balanced(link, HostPay(s, accepted, now))
  {
    hide HostPaid, Sum, Places, InSequence, SlotOk, WireOk, JobsOk, Backlog;
    var due := HostDue(s.hostRx, now);
    var out := HostPaid(link.session, s.hostRx.pending, due, accepted, 3);
    forall i | 0 <= i < 3
      ensures Law(link, HostPay(s, accepted, now), i)
      ensures WireOk(s.up + out, link.session)
    {
      var channel, next := ChannelAt(i), s.books[i].gone;
      assert Law(link, s, i);
      HostPaidFacts(link.session, s.hostRx.pending, due, accepted, 3, i);
      CreditsOnlyFacts(out, link.session, channel, next + Places(s.up, channel));
      Appended(s.up, out, channel, next, link.session);
    }
    assert Law(link, HostPay(s, accepted, now), 0);
  }

  lemma CoprocPayBalanced(link: Link, s: Sys, accepted: InterfaceFlags)
    requires Balanced(link, s)
    ensures Balanced(link, CoprocPay(s, accepted))
  {
    hide CoprocPaid, Sum, Places, InSequence, SlotOk, WireOk, JobsOk, Backlog;
    var out := CoprocPaid(link.session, s.coprocRx.pending, accepted, 3);
    forall i | 0 <= i < 3
      ensures Law(link, CoprocPay(s, accepted), i)
      ensures WireOk(s.down + out, link.session)
    {
      var channel := ChannelAt(i);
      assert Law(link, s, i);
      CoprocPaidFacts(link.session, s.coprocRx.pending, accepted, 3, i);
      CreditsOnlyFacts(out, link.session, channel, 0);
      Appended(s.down, out, channel, 0, link.session);
    }
    assert Law(link, CoprocPay(s, accepted), 0);
  }

  lemma JobsMore(jobs: seq<Job>, id: nat)
    requires JobsOk(jobs)
    ensures JobsOk(jobs + [Other(id)])
  {
  }

  lemma QueueKeeps(c: Config, t: Tx, id: nat)
    requires JobsOk(Backlog(t))
    ensures JobsOk(Backlog(Queue(c, t, id)))
    ensures Queue(c, t, id) == t.(queue := Queue(c, t, id).queue)
  {
    hide JobsOk;
    JobsMore(Backlog(t), id);
    assert Deferred(t.deferred) + (t.queue + [Other(id)]) == Backlog(t) + [Other(id)];
  }

  lemma RxCompleteFacts(t: Tx, rx: CoprocRx, session: uint32, i: nat, units: uint32, failed: bool, initial: uint32)
    requires i < 3 && rx.pending[i] + units <= UINT32_MAX
    ensures var (rx', outcome, _) := RxComplete(t, rx, session, ChannelAt(i), units, failed, initial);
            outcome.Done? ==>
              && rx' == rx.(pending := rx'.pending, failures := rx'.failures, wakeQueued := rx'.wakeQueued)
              && rx'.pending == rx.pending[i := rx.pending[i] + units]
  {
  }

  lemma HeldFits(link: Link, s: Sys, i: nat)
    requires i < 3 && Law(link, s, i)
    ensures s.coprocRx.pending[i] + s.books[i].held <= link.grants[i]
  {
    hide Sum;
  }

  lemma CompletionBalanced(link: Link, s: Sys, interface: nat, units: uint32, failed: bool)
    requires Balanced(link, s)
    ensures Balanced(link, Completion(link, s, interface, units, failed))
  {
    hide UpLaw, DownLaw, SequenceLaw, Sum, SlotOk, WireOk, JobsOk, Backlog, RxComplete;
    var s' := Completion(link, s, interface, units, failed);
    var i := Index(ChannelAt(interface));
    assert Law(link, s, i);
    if s.books[i].held >= units {
      HeldFits(link, s, i);
      RxCompleteFacts(s.coproc, s.coprocRx, link.session, i, units, failed, link.initialCredit);
    }
    forall k | 0 <= k < 3
      ensures Law(link, s', k)
    {
      assert Law(link, s, k);
      CompletionLaw(link, s, s', i, k, units);
    }
  }

  /** `units` records of interface `i` move from the backend to the Coprocessor's debt. */
  lemma CompletionLaw(link: Link, s: Sys, s': Sys, i: nat, k: nat, units: uint32)
    requires i < 3 && k < 3 && Law(link, s, k)
    requires s' == s || (units <= s.books[i].held && s.coprocRx.pending[i] + units <= UINT32_MAX
                         && s' == s.(coprocRx := s'.coprocRx,
                                     books := s.books[i := s.books[i].(held := s.books[i].held - units)])
                         && s'.coprocRx.sequence == s.coprocRx.sequence && s'.coprocRx.valid == s.coprocRx.valid
                         && s'.coprocRx.pending == s.coprocRx.pending[i := s.coprocRx.pending[i] + units])
    ensures Law(link, s', k)
  {
    hide Sum, Places, InSequence;
  }

  // ---------------------------------------------------------------------------------------
  // Receive steps
  // ---------------------------------------------------------------------------------------

  /** The front place of a wire, weighed. */
  lemma Front(w: seq<Slot>, channel: byte, next: nat, session: uint32)
    requires |w| > 0
    ensures Sum(w, Units(channel)) == Weigh(Units(channel), w[0]) + Sum(w[1..], Units(channel))
    ensures Sum(w, Credits(channel)) == Weigh(Credits(channel), w[0]) + Sum(w[1..], Credits(channel))
    ensures Sum(w, Losses(channel)) == Weigh(Losses(channel), w[0]) + Sum(w[1..], Losses(channel))
    ensures var one := if Occupies(w[0], channel) then 1 else 0;
            && Places(w, channel) == one + Places(w[1..], channel)
            && (InSequence(w, channel, next) ==>
                  && InSequence(w[1..], channel, next + one)
                  && (w[0].Data? && one == 1 ==> SequenceOf(w[0].frame) == Wrap32(next)))
    ensures WireOk(w, session) ==> SlotOk(w[0], session) && WireOk(w[1..], session)
  {
    hide Weigh, Occupies, SequenceOf, SlotOk;
  }

  lemma WrapDifference(a: nat, m: nat)
    requires m <= a
    ensures Wrap32(Wrap32(a) - Wrap32(a - m)) == Wrap32(m)
  {
    var n := 0x1_0000_0000;
    var q, r := a / n, (a - m) / n;
    assert Wrap32(a) - Wrap32(a - m) == m - n * (q - r);
    WrapShift(m, r - q);
  }

  lemma WrapAtMost(x: nat)
    ensures Wrap32(x) <= x && (x < 0x1_0000_0000 ==> Wrap32(x) == x)
  {
  }

  lemma WrapShift(x: int, k: int)
    ensures Wrap32(x + 0x1_0000_0000 * k) == Wrap32(x)
  {
  }

  /** The gap a received frame reports never exceeds the places truly lost before it, and equals
      them exactly while fewer than 2^31 are outstanding. */
  lemma SkippedExactly(s: Sys, i: nat, sequence: uint32)
    requires i < 3 && SequenceLaw(s, i) && sequence == Wrap32(s.books[i].gone)
    ensures Skipped(s.coprocRx, ChannelAt(i), sequence) <= s.books[i].missed
    ensures Skipped(s.coprocRx, ChannelAt(i), sequence) == s.books[i].missed <==>
            s.books[i].missed < 0x8000_0000
  {
    hide InSequence, Places;
    var b := s.books[i];
    if s.coprocRx.valid[ChannelAt(i)] {
      WrapDifference(b.gone, b.missed);
      WrapAtMost(b.missed);
    }
  }

  /** What the Host takes in, interface by interface: its credit grows by the units of a
      CreditUpdate, its debt by the records of a frame. */
  lemma HostReceiveFacts(c: Config, t: Tx, rx: HostRx, slot: Slot, now: nat, i: nat)
    requires i < 3 && t.session != 0 && SlotOk(slot, t.session) && WithinLimit(slot, c.maxFrame)
    requires t.credit[ChannelAt(i)] + Weigh(Credits(ChannelAt(i)), slot) <= UINT32_MAX
    requires rx.pending[i] + Weigh(Units(ChannelAt(i)), slot) <= UINT32_MAX
    ensures var (t', rx') := HostReceive(c, t, rx, slot, now);
            && t' == t.(credit := t'.credit, congested := t'.congested)
            && t'.credit[ChannelAt(i)] == t.credit[ChannelAt(i)] + Weigh(Credits(ChannelAt(i)), slot)
            && rx'.pending[i] == rx.pending[i] + Weigh(Units(ChannelAt(i)), slot)
  {
    hide Canonical, Records, FrameCodec.Decode, PayloadUnits;
    if slot.Data? {
      DecodeWithin(slot.frame, c.maxFrame);
    }
  }

  lemma HostTakeFlow(link: Link, s: Sys, now: nat)
    requires Balanced(link, s) && |s.down| > 0
    ensures Flow(link, HostTake(link, s, now))
  {
    hide JobsOk, Weigh, Occupies, SlotOk, SequenceOf, FrameCodec.Decode, PayloadUnits, Accumulate;
    Front(s.down, STA, 0, link.session);
    assert SlotOk(s.down[0], link.session);
    SameSession(s.down[0], link.host, link.session);
    assert Backlog(HostTake(link, s, now).host) == Backlog(s.host);
  }

  lemma SameSession(slot: Slot, c: Config, session: uint32)
    requires SlotOk(slot, session)
    ensures slot.Credit? ==> slot.session == session
    ensures slot.Data? && FrameCodec.Decode(slot.frame, c.maxFrame).Ok? ==>
              FrameCodec.Decode(slot.frame, c.maxFrame).value.0.session == session
  {
    hide Canonical, Records, FrameCodec.Decode;
    if slot.Data? {
      DecodeWithin(slot.frame, c.maxFrame);
    }
  }

  lemma HostTakeLaw(link: Link, s: Sys, now: nat, i: nat)
    requires Balanced(link, s) && |s.down| > 0 && i < 3
    ensures Law(link, HostTake(link, s, now), i)
  {
    hide Sum, Places, InSequence, JobsOk, WireOk, HostReceive, Weigh, Occupies, SlotOk, SequenceOf, RecordsIn;
    assert Law(link, s, i);
    Front(s.down, ChannelAt(i), 0, link.session);
    if WithinLimit(s.down[0], link.host.maxFrame) {
      HostReceiveFacts(link.host, s.host, s.hostRx, s.down[0], now, i);
    } else {
      PlaceWeights(s.down[0], link.session, i);
    }
  }

  /** A place of one interface weighs its records there and nothing elsewhere. */
  lemma PlaceWeights(slot: Slot, session: uint32, i: nat)
    requires i < 3 && SlotOk(slot, session)
    ensures var mine := PlaceOf(slot) == i;
            && (slot.Data? ==>
                  && Weigh(Units(ChannelAt(i)), slot) == (if mine then RecordsIn(slot) else 0)
                  && Weigh(Credits(ChannelAt(i)), slot) == Weigh(Losses(ChannelAt(i)), slot) == 0
                  && RecordsIn(slot) >= 1)
            && (slot.Lost? ==>
                  && Weigh(Losses(ChannelAt(i)), slot) == (if mine then 1 else 0)
                  && Weigh(Units(ChannelAt(i)), slot) == Weigh(Credits(ChannelAt(i)), slot) == 0)
            && (slot.Credit? ==>
                  && Weigh(Credits(ChannelAt(i)), slot) == (if mine then slot.units else 0)
                  && Weigh(Units(ChannelAt(i)), slot) == Weigh(Losses(ChannelAt(i)), slot) == 0)
            && (Occupies(slot, ChannelAt(i)) <==> mine && !slot.Credit?)
  {
    hide Canonical, Records, PayloadUnits, FrameCodec.Decode;
    if slot.Data? {
      var payload := Contents(slot.frame).value.1;
      CanonicalUnits(payload);
    }
  }

  lemma HostTakeBalanced(link: Link, s: Sys, now: nat)
    requires Balanced(link, s)
    ensures Balanced(link, HostTake(link, s, now))
  {
    hide Law, Flow;
    if |s.down| > 0 {
      forall i | 0 <= i < 3
        ensures Law(link, HostTake(link, s, now), i)
      {
        HostTakeLaw(link, s, now, i);
      }
      HostTakeFlow(link, s, now);
    }
  }

  lemma MissedLaw(link: Link, s: Sys, a: Arrival, i: nat)
    requires Balanced(link, s) && |s.up| > 0 && i < 3
    requires s.up[0].Lost? || !WithinLimit(s.up[0], link.coproc.maxFrame)
    ensures Law(link, CoprocTake(link, s, a), i)
  {
    hide Sum, Places, InSequence, JobsOk, WireOk, Weigh, Occupies, SlotOk, SequenceOf, RecordsIn, PlaceOf, Wrap32;
    assert Law(link, s, i);
    assert SlotOk(s.up[0], link.session) by { Front(s.up, STA, 0, link.session); }
    Front(s.up, ChannelAt(i), s.books[i].gone, link.session);
    PlaceWeights(s.up[0], link.session, i);
    LostIsOne(s.up[0]);
  }

  lemma CreditlessFlow(link: Link, s: Sys, a: Arrival)
    requires Balanced(link, s) && |s.up| > 0
    requires !s.up[0].Data? || !WithinLimit(s.up[0], link.coproc.maxFrame)
    ensures Flow(link, CoprocTake(link, s, a))
  {
    hide JobsOk, Weigh, Occupies, SlotOk, SequenceOf, RecordsIn, PlaceOf, Missed;
    Front(s.up, STA, 0, link.session);
    assert s.down + [] == s.down;
    assert Backlog(CoprocTake(link, s, a).coproc) == Backlog(s.coproc);
  }

  lemma LostIsOne(slot: Slot)
    ensures slot.Lost? ==> RecordsIn(slot) == 1
  {
  }

  lemma CreditTakenLaw(link: Link, s: Sys, a: Arrival, i: nat)
    requires Balanced(link, s) && |s.up| > 0 && i < 3 && s.up[0].Credit?
    ensures Law(link, CoprocTake(link, s, a), i)
  {
    hide Sum, Places, InSequence, JobsOk, WireOk, SequenceOf, UpLaw, SequenceLaw;
    var k := PlaceOf(s.up[0]);
    assert Law(link, s, i);
    assert Law(link, s, k);
    Front(s.up, ChannelAt(i), s.books[i].gone, link.session);
    Front(s.up, ChannelAt(k), s.books[k].gone, link.session);
    assert ChannelAt(k) == s.up[0].channel;
    assert s.down + [] == s.down;
    UpUntouched(link, s, CoprocTake(link, s, a), i);
  }

  /** A CreditUpdate for the Coprocessor leaves the other direction alone. */
  lemma UpUntouched(link: Link, s: Sys, s': Sys, i: nat)
    requires i < 3 && UpLaw(link, s, i) && SequenceLaw(s, i) && |s.up| > 0 && s.up[0].Credit?
    requires s' == s.(coproc := s'.coproc, up := s.up[1..])
    ensures UpLaw(link, s', i) && SequenceLaw(s', i)
  {
    hide Sum, Places, InSequence;
    Front(s.up, ChannelAt(i), s.books[i].gone, link.session);
  }

  /** What a frame of the session tells the Coprocessor, and what it sends back. */
  lemma CoprocReceiveFacts(c: Config, t: Tx, rx: CoprocRx, frame: seq<byte>, a: Arrival)
    returns (channel: byte, sequence: uint32, kept: nat, back: nat, out: seq<Slot>)
    requires FrameOk(frame, t.session) && |frame| <= c.maxFrame && UnitsOf(frame) <= UINT32_MAX
    ensures ChannelOf(frame) == Some(channel) && IsEthernet(channel) && SequenceOf(frame) == sequence
    ensures kept + back == UnitsOf(frame)
    ensures CoprocReceive(c, t, rx, Data(frame), a) == (t, Tracked(rx, channel, sequence), kept, out)
    ensures out == SendCredit(t.session, channel, Skipped(rx, channel, sequence), a.gapAccepted) +
                   SendCredit(t.session, channel, back, a.refundAccepted)
    ensures Contents(frame).Some? && Contents(frame).value.0.channel == channel
    ensures Contents(frame).value.0.sequence == sequence && KeptUnits(Contents(frame).value.1, a) == kept
    ensures PayloadUnits(Contents(frame).value.1) == kept + back
  {
    hide Canonical, Records, FrameCodec.Decode, PayloadUnits, KeptUnits, SendCredit, Tracked, Skipped;
    DecodeWithin(frame, c.maxFrame);
    var (header, payload) := Contents(frame).value;
    channel, sequence := header.channel, header.sequence;
    kept := KeptUnits(payload, a);
    back := PayloadUnits(payload) - kept;
    out := CoprocReceive(c, t, rx, Data(frame), a).3;
  }

  /** The CreditUpdates of one arrival, weighed. */
  lemma RefundFacts(session: uint32, of: byte, skipped: uint32, gap: bool, back: uint32, refund: bool,
                    channel: byte)
    requires IsEthernet(of)
    ensures var out := SendCredit(session, of, skipped, gap) + SendCredit(session, of, back, refund);
            && CreditsOnly(out, session)
            && Sum(out, Credits(channel)) ==
               if of == channel then (if gap then skipped else 0) + (if refund then back else 0) else 0
  {
    hide SendCredit, CreditsOnly, Sum;
    SendCreditFacts(session, of, skipped, gap, channel);
    SendCreditFacts(session, of, back, refund, channel);
    CreditsConcat(SendCredit(session, of, skipped, gap), SendCredit(session, of, back, refund), session, channel);
  }

  /** The balance of one interface over the arrival of a frame, given as facts about its parts. */
  lemma ArrivalLaw(link: Link, s: Sys, s': Sys, a: Arrival, i: nat, k: nat, skipped: nat, kept: nat, back: nat)
    requires i < 3 && k < 3 && Law(link, s, i) && |s.up| > 0 && s.up[0].Data?
    requires s' == s.(coprocRx := s'.coprocRx, up := s.up[1..], down := s'.down, books := s'.books)
    requires s'.books == s.books[k := Received(s.books[k], skipped, kept, back, a)]
    requires s'.coprocRx.pending == s.coprocRx.pending
    requires i == k ==> skipped <= s.books[k].missed
    requires var ch := ChannelAt(i);
             && Sum(s.up, Units(ch)) == Sum(s.up[1..], Units(ch)) + (if i == k then kept + back else 0)
             && Sum(s.up, Credits(ch)) == Sum(s.up[1..], Credits(ch))
             && Sum(s.up, Losses(ch)) == Sum(s.up[1..], Losses(ch))
             && Sum(s'.down, Units(ch)) == Sum(s.down, Units(ch))
             && Sum(s'.down, Credits(ch)) == Sum(s.down, Credits(ch)) +
                (if i == k then (if a.gapAccepted then skipped else 0) + (if a.refundAccepted then back else 0) else 0)
    ensures UpLaw(link, s', i) && DownLaw(link, s', i)
  {
    hide Sum, SequenceLaw;
  }

  lemma FrontSequence(s: Sys, i: nat, mine: bool)
    requires i < 3 && SequenceLaw(s, i) && |s.up| > 0 && s.up[0].Data?
    requires Occupies(s.up[0], ChannelAt(i)) <==> mine
    ensures var one := if mine then 1 else 0;
            && InSequence(s.up[1..], ChannelAt(i), s.books[i].gone + one)
            && Places(s.up, ChannelAt(i)) == one + Places(s.up[1..], ChannelAt(i))
    ensures mine ==> SequenceOf(s.up[0].frame) == Wrap32(s.books[i].gone)
  {
    hide Places, InSequence, SequenceOf, Occupies, Wrap32, Sum, Weigh, WireOk, SlotOk;
    Front(s.up, ChannelAt(i), s.books[i].gone, 0);
  }

  lemma ArrivalSequence(s: Sys, s': Sys, i: nat, k: nat, of: byte, sequence: uint32)
    requires i < 3 && k < 3 && SequenceLaw(s, i) && |s.up| > 0 && s.up[0].Data?
    requires s'.up == s.up[1..] && s'.host == s.host && ChannelAt(k) == of
    requires Occupies(s.up[0], ChannelAt(i)) <==> i == k
    requires SequenceOf(s.up[0].frame) == sequence
    requires s'.coprocRx == Tracked(s.coprocRx, of, sequence)
    requires i != k ==> s'.books[i] == s.books[i]
    requires i == k ==> s'.books[i].gone == s.books[i].gone + 1 && s'.books[i].missed == 0
    ensures SequenceLaw(s', i)
    ensures i == k ==> sequence == Wrap32(s.books[i].gone)
  {
    hide Places, InSequence, SequenceOf, Occupies, Wrap32, Tracked;
    FrontSequence(s, i, i == k);
    WrapNext(s.books[i].gone);
    TrackedAt(s.coprocRx, of, sequence, ChannelAt(i));
  }

  lemma TrackedAt(rx: CoprocRx, of: byte, sequence: uint32, channel: byte)
    ensures var rx' := Tracked(rx, of, sequence);
            && rx'.valid[channel] == (of == channel || rx.valid[channel])
            && rx'.sequence[channel] == (if of == channel then Wrap32(sequence + 1) else rx.sequence[channel])
  {
  }

  lemma WrapNext(x: nat)
    ensures Wrap32(Wrap32(x) + 1) == Wrap32(x + 1)
  {
  }

  lemma FrameTakenLaw(link: Link, s: Sys, a: Arrival, i: nat)
    requires Balanced(link, s) && |s.up| > 0 && i < 3
    requires s.up[0].Data? && WithinLimit(s.up[0], link.coproc.maxFrame)
    ensures Law(link, CoprocTake(link, s, a), i)
    ensures Flow(link, CoprocTake(link, s, a))
  {
    hide Sum, Places, InSequence, JobsOk, WireOk, SequenceOf, CoprocReceive, Skipped, Tracked, UpLaw, DownLaw,
      SequenceLaw, FrameOk, UnitsOf, Received, SendCredit, CreditsOnly, KeptUnits, PayloadUnits;
    var frame := s.up[0].frame;
    var s' := CoprocTake(link, s, a);
    assert SlotOk(s.up[0], link.session) by { Front(s.up, STA, 0, link.session); }
    FrameUnitsBounded(link, s);
    var of, sequence, kept, back, out := CoprocReceiveFacts(link.coproc, s.coproc, s.coprocRx, frame, a);
    var k := Index(of);
    var skipped := Skipped(s.coprocRx, of, sequence);
    assert Law(link, s, i);
    Front(s.up, ChannelAt(i), s.books[i].gone, link.session);
    RefundFacts(link.session, of, skipped, a.gapAccepted, back, a.refundAccepted, ChannelAt(i));
    CreditsOnlyFacts(out, link.session, ChannelAt(i), 0);
    Appended(s.down, out, ChannelAt(i), 0, link.session);
    TrackedKeeps(s.coprocRx, of, sequence);
    ReceivedKeeps(s.books[k], skipped, kept, back, a);
    ArrivalSequence(s, s', i, k, of, sequence);
    if i == k {
      SkippedExactly(s, i, sequence);
    }
    ArrivalLaw(link, s, s', a, i, k, skipped, kept, back);
  }

  lemma TrackedKeeps(rx: CoprocRx, channel: byte, sequence: uint32)
    ensures Tracked(rx, channel, sequence).pending == rx.pending
  {
  }

  lemma ReceivedKeeps(b: Book, skipped: nat, kept: nat, back: nat, a: Arrival)
    ensures Received(b, skipped, kept, back, a).gone == b.gone + 1
    ensures Received(b, skipped, kept, back, a).missed == 0
  {
  }

  /** A frame on the wire never carries more units than the grant. */
  lemma FrameUnitsBounded(link: Link, s: Sys)
    requires Balanced(link, s) && |s.up| > 0 && s.up[0].Data?
    ensures UnitsOf(s.up[0].frame) <= UINT32_MAX
  {
    hide Sum, Places, InSequence, JobsOk, SequenceOf, UnitsOf, Canonical, Records, SequenceLaw, DownLaw;
    Front(s.up, STA, 0, link.session);
    var k := PlaceOf(s.up[0]);
    assert Law(link, s, k);
    Front(s.up, ChannelAt(k), 0, link.session);
  }

  lemma CoprocTakeBalanced(link: Link, s: Sys, a: Arrival)
    requires Balanced(link, s)
    ensures Balanced(link, CoprocTake(link, s, a))
  {
    hide Law, Flow;
    if |s.up| > 0 {
      forall i | 0 <= i < 3
        ensures Law(link, CoprocTake(link, s, a), i)
        ensures Flow(link, CoprocTake(link, s, a))
      {
        CoprocTakeLaw(link, s, a, i);
      }
      CoprocTakeLaw(link, s, a, 0);
    }
  }

  lemma CoprocTakeLaw(link: Link, s: Sys, a: Arrival, i: nat)
    requires Balanced(link, s) && |s.up| > 0 && i < 3
    ensures Law(link, CoprocTake(link, s, a), i)
    ensures Flow(link, CoprocTake(link, s, a))
  {
    hide Law, Flow, CoprocTake;
    if s.up[0].Lost? || !WithinLimit(s.up[0], link.coproc.maxFrame) {
      MissedLaw(link, s, a, i);
      CreditlessFlow(link, s, a);
    } else if s.up[0].Data? {
      FrameTakenLaw(link, s, a, i);
    } else {
      CreditTakenLaw(link, s, a, i);
      CreditlessFlow(link, s, a);
    }
  }

  // ---------------------------------------------------------------------------------------
  // Losses
  // ---------------------------------------------------------------------------------------

  /** One place of a wire taken out, or replaced by a lost place. */
  lemma Removed(w: seq<Slot>, k: nat, channel: byte, session: uint32)
    requires k < |w|
    ensures var rest := w[..k] + w[k + 1..];
            && Sum(rest, Units(channel)) + Weigh(Units(channel), w[k]) == Sum(w, Units(channel))
            && Sum(rest, Credits(channel)) + Weigh(Credits(channel), w[k]) == Sum(w, Credits(channel))
            && Sum(rest, Losses(channel)) + Weigh(Losses(channel), w[k]) == Sum(w, Losses(channel))
            && (WireOk(w, session) ==> WireOk(rest, session))
  {
    hide Sum, Weigh, SlotOk;
    SumRemove(w, k, Units(channel));
    SumRemove(w, k, Credits(channel));
    SumRemove(w, k, Losses(channel));
  }

  /** A CreditUpdate takes no place, so taking it out keeps the sequence. */
  lemma RemovedSequence(w: seq<Slot>, k: nat, channel: byte, next: nat)
    requires k < |w| && w[k].Credit?
    ensures var rest := w[..k] + w[k + 1..];
            && Places(rest, channel) == Places(w, channel)
            && (InSequence(w, channel, next) ==> InSequence(rest, channel, next))
  {
    hide Places, InSequence;
    var front, back := w[..k], w[k + 1..];
    assert w == front + ([w[k]] + back);
    PlacesConcat(front, [w[k]] + back, channel);
    PlacesConcat(front, back, channel);
    InSequenceConcat(front, [w[k]] + back, channel, next);
    InSequenceConcat(front, back, channel, next);
    Front([w[k]] + back, channel, next + Places(front, channel), 0);
    assert ([w[k]] + back)[1..] == back;
  }

  lemma Replaced(w: seq<Slot>, k: nat, lost: Slot, channel: byte, next: nat)
    requires k < |w| && lost.Lost? && w[k].Data?
    requires Occupies(lost, channel) <==> Occupies(w[k], channel)
    ensures var w' := w[k := lost];
            && Sum(w', Units(channel)) + Weigh(Units(channel), w[k]) == Sum(w, Units(channel))
            && Sum(w', Credits(channel)) == Sum(w, Credits(channel))
            && Sum(w', Losses(channel)) == Sum(w, Losses(channel)) + Weigh(Losses(channel), lost)
            && Places(w', channel) == Places(w, channel)
            && (InSequence(w, channel, next) ==> InSequence(w', channel, next))
  {
    hide Sum, Places, InSequence, Occupies;
    SumReplace(w, k, lost, Units(channel));
    SumReplace(w, k, lost, Credits(channel));
    SumReplace(w, k, lost, Losses(channel));
    if InSequence(w, channel, next) {
      InSequenceLose(w, k, lost, channel, next);
    }
    PlacesReplace(w, k, lost, channel);
  }

  lemma PlacesReplace(w: seq<Slot>, k: nat, lost: Slot, channel: byte)
    requires k < |w| && (Occupies(lost, channel) <==> Occupies(w[k], channel))
    ensures Places(w[k := lost], channel) == Places(w, channel)
  {
    hide Places, Occupies;
    var front, back := w[..k], w[k + 1..];
    assert w == front + ([w[k]] + back) && w[k := lost] == front + ([lost] + back);
    PlacesConcat(front, [w[k]] + back, channel);
    PlacesConcat(front, [lost] + back, channel);
    Front([w[k]] + back, channel, 0, 0);
    Front([lost] + back, channel, 0, 0);
    assert ([w[k]] + back)[1..] == back == ([lost] + back)[1..];
  }

  lemma LostWeights(i: nat, k: nat)
    requires i < 3 && k < 3
    ensures IsEthernet(ChannelAt(k))
    ensures Weigh(Losses(ChannelAt(i)), Lost(ChannelAt(k))) == if i == k then 1 else 0
    ensures Occupies(Lost(ChannelAt(k)), ChannelAt(i)) <==> i == k
  {
  }

  lemma UpDropLaw(link: Link, s: Sys, k: nat, i: nat)
    requires Balanced(link, s) && k < |s.up| && i < 3
    ensures Law(link, UpDrop(s, k), i)
    ensures Flow(link, UpDrop(s, k))
  {
    hide Flow, Law;
    assert Law(link, s, i);
    if s.up[k].Credit? {
      UpDropCredit(link, s, k, i);
    } else if s.up[k].Data? {
      UpDropFrame(link, s, k, i);
    }
  }

  lemma UpDropCredit(link: Link, s: Sys, k: nat, i: nat)
    requires Flow(link, s) && k < |s.up| && i < 3 && Law(link, s, i) && s.up[k].Credit?
    ensures Law(link, UpDrop(s, k), i)
    ensures Flow(link, UpDrop(s, k))
  {
    hide Sum, Places, InSequence, JobsOk, Weigh, Occupies, SlotOk, RecordsIn, PlaceOf, Wrap32;
    assert SlotOk(s.up[k], link.session);
    PlaceWeights(s.up[k], link.session, i);
    Removed(s.up, k, ChannelAt(i), link.session);
    RemovedSequence(s.up, k, ChannelAt(i), s.books[i].gone);
  }

  lemma UpDropFrame(link: Link, s: Sys, k: nat, i: nat)
    requires Flow(link, s) && k < |s.up| && i < 3 && Law(link, s, i) && s.up[k].Data?
    ensures Law(link, UpDrop(s, k), i)
    ensures Flow(link, UpDrop(s, k))
  {
    hide Sum, Places, InSequence, JobsOk, Weigh, Occupies, SlotOk, RecordsIn, PlaceOf, Wrap32;
    assert SlotOk(s.up[k], link.session);
    PlaceWeights(s.up[k], link.session, i);
    LostWeights(i, PlaceOf(s.up[k]));
    Replaced(s.up, k, Lost(ChannelAt(PlaceOf(s.up[k]))), ChannelAt(i), s.books[i].gone);
    assert SlotOk(Lost(ChannelAt(PlaceOf(s.up[k]))), link.session) by { LostOk(PlaceOf(s.up[k]), link.session); }
  }

  lemma LostOk(k: nat, session: uint32)
    ensures SlotOk(Lost(ChannelAt(k)), session)
  {
  }

  lemma DownDropLaw(link: Link, s: Sys, k: nat, i: nat)
    requires Balanced(link, s) && k < |s.down| && i < 3
    ensures Law(link, DownDrop(s, k), i)
    ensures Flow(link, DownDrop(s, k))
  {
    hide Sum, Places, InSequence, JobsOk, Weigh, Occupies, SlotOk, RecordsIn, PlaceOf, Wrap32;
    assert Law(link, s, i);
    assert SlotOk(s.down[k], link.session);
    PlaceWeights(s.down[k], link.session, i);
    Removed(s.down, k, ChannelAt(i), link.session);
  }

  // ---------------------------------------------------------------------------------------
  // Runs
  // ---------------------------------------------------------------------------------------

  /** Steps of the transmit side that touch neither credit nor sequence nor wire. */
  lemma QuietBalanced(link: Link, s: Sys, s': Sys)
    requires Balanced(link, s)
    requires s' == s.(host := s'.host, coproc := s'.coproc, hostOwned := s'.hostOwned, coprocOwned := s'.coprocOwned)
    requires s'.host.session == s.host.session && s'.coproc.session == s.coproc.session
    requires s'.host.credit == s.host.credit && s'.host.sequence == s.host.sequence
    requires s'.coproc.credit == s.coproc.credit
    requires JobsOk(Backlog(s'.host)) && JobsOk(Backlog(s'.coproc))
    ensures Balanced(link, s')
  {
    hide JobsOk, Backlog, WireOk, Sum, Places, InSequence;
    forall i | 0 <= i < 3
      ensures Law(link, s', i)
    {
      assert Law(link, s, i);
    }
  }

  lemma DropsBalanced(link: Link, s: Sys, m: Move)
    requires Balanced(link, s) && (m.UpDrops? || m.DownDrops?)
    ensures Balanced(link, After(link, s, m))
  {
    hide Law, Flow;
    var s' := After(link, s, m);
    if s' != s {
      forall i | 0 <= i < 3
        ensures Law(link, s', i)
        ensures Flow(link, s')
      {
        if m.UpDrops? {
          UpDropLaw(link, s, m.at, i);
        } else {
          DownDropLaw(link, s, m.at, i);
        }
      }
      assert Law(link, s', 0);
    }
  }

  lemma TransmitBalanced(link: Link, s: Sys, m: Move)
    requires Balanced(link, s)
    requires m.HostAdmits? || m.CoprocAdmits? || m.HostQueues? || m.CoprocQueues? || m.HostSendsDone? ||
             m.CoprocSendsDone?
    ensures Balanced(link, After(link, s, m))
  {
    hide Law, JobsOk, WireOk, AdmitRecord, Queue;
    match m
    case HostAdmits(i, payload, alloc, locked) =>
      AdmitKeeps(link.host, s.host, ChannelAt(i), payload, alloc, locked, 0);
      QuietBalanced(link, s, After(link, s, m));
    case CoprocAdmits(i, payload, alloc) =>
      AdmitKeeps(link.coproc, s.coproc, ChannelAt(i), payload, alloc, true, 0);
      QuietBalanced(link, s, After(link, s, m));
    case HostQueues(id) =>
      QueueKeeps(link.host, s.host, id);
      QuietBalanced(link, s, After(link, s, m));
    case CoprocQueues(id) =>
      QueueKeeps(link.coproc, s.coproc, id);
      QuietBalanced(link, s, After(link, s, m));
    case HostSendsDone(_, _) => SendsDoneBalanced(link, s, m);
    case CoprocSendsDone(_, _) => SendsDoneBalanced(link, s, m);
  }

  lemma SendsDoneBalanced(link: Link, s: Sys, m: Move)
    requires Balanced(link, s) && (m.HostSendsDone? || m.CoprocSendsDone?)
    ensures Balanced(link, After(link, s, m))
  {
    hide Law, JobsOk, WireOk, SendDone, Backlog;
    match m
    case HostSendsDone(k, status) =>
      if k < |s.hostOwned| {
        CompletionKeeps(link.host, s.host, s.hostOwned[k], status, 0);
        QuietBalanced(link, s, After(link, s, m));
      }
    case CoprocSendsDone(k, status) =>
      if k < |s.coprocOwned| {
        CompletionKeeps(link.coproc, s.coproc, s.coprocOwned[k], status, 0);
        QuietBalanced(link, s, After(link, s, m));
      }
  }

  lemma StepBalanced(link: Link, s: Sys, m: Move)
    requires Balanced(link, s)
    ensures Balanced(link, After(link, s, m))
  {
    hide Balanced, HostWork, CoprocWork, HostTake, CoprocTake, HostPay, CoprocPay, Completion, UpDrop, DownDrop,
      Admit, Queue;
    match m
    case HostWorks(canExpand, send) => HostWorkBalanced(link, s, canExpand, send);
    case CoprocWorks(canExpand, send) => CoprocWorkBalanced(link, s, canExpand, send);
    case HostTakes(now) => HostTakeBalanced(link, s, now);
    case CoprocTakes(arrival) => CoprocTakeBalanced(link, s, arrival);
    case HostFlushes(accepted, now) => HostPayBalanced(link, s, accepted, now);
    case CoprocFlushes(accepted) => CoprocPayBalanced(link, s, accepted);
    case BackendCompletes(i, units, failed) => CompletionBalanced(link, s, i, units, failed);
    case UpDrops(_) => DropsBalanced(link, s, m);
    case DownDrops(_) => DropsBalanced(link, s, m);
    case _ => TransmitBalanced(link, s, m);
  }

  /** Every reachable state of the session is balanced, whatever the transport, the allocator and
      the backend do. */
  lemma {:induction false} RunBalanced(link: Link, s: Sys, moves: seq<Move>)
    requires Balanced(link, s)
    ensures Balanced(link, Reached(link, s, moves))
    decreases |moves|
  {
    hide Balanced, After;
    if |moves| > 0 {
      StepBalanced(link, s, moves[0]);
      RunBalanced(link, After(link, s, moves[0]), moves[1..]);
    }
  }
}
