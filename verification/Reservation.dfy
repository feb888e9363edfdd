/** Admission reserves credit and slots: what the Host queues in a session is covered by credit it
    holds, and neither endpoint ever gives back more Ethernet slots than it has. */
module Reservation {
  import opened Bytes
  import opened Aggregation
  import opened LinkState
  import opened Wire
  import opened Transmit
  import opened CreditProtocol
  import opened CreditTheorems
  import opened Session
  import FrameCodec

  /** Data frames, told by their channel byte. */
  ghost predicate AllEthernet(frames: seq<seq<byte>>) {
    forall k :: 0 <= k < |frames| ==> |frames[k]| >= FrameCodec.HEADER_SIZE && IsEthernet(frames[k][4])
  }

  /** What holds of both endpoints at any time, whatever credit a session granted. */
  ghost predicate Slotted(link: Link, s: Sys) {
    && link.host.side.HostSide? && link.coproc.side.CoprocSide?
    && JobsOk(Backlog(s.host)) && JobsOk(Backlog(s.coproc))
    && SlotsKept(link.host, s.host, |s.hostOwned|) && SlotsKept(link.coproc, s.coproc, |s.coprocOwned|)
    && AllEthernet(s.hostOwned) && AllEthernet(s.coprocOwned)
  }

  lemma QueueCovered(c: Config, t: Tx, id: nat, owned: nat)
    requires JobsOk(Backlog(t))
    ensures var t' := Queue(c, t, id);
            && JobsOk(Backlog(t'))
            && (Tallied(t) ==> Tallied(t'))
            && (Reserved(t) ==> Reserved(t'))
            && (SlotsKept(c, t, owned) ==> SlotsKept(c, t', owned))
  {
    hide JobsOk, Count, Total;
    CountOther(Backlog(t), id);
    assert Deferred(t.deferred) + (t.queue + [Other(id)]) == Backlog(t) + [Other(id)];
  }

  /** More credit covers as much. */
  lemma MoreCredit(t: Tx, t': Tx)
    requires t' == t.(session := t'.session, credit := t'.credit, congested := t'.congested)
    requires forall i :: 0 <= i < 3 ==> t'.credit[ChannelAt(i)] >= t.credit[ChannelAt(i)]
    ensures Backlog(t') == Backlog(t)
    ensures Tallied(t) ==> Tallied(t')
    ensures Reserved(t) ==> Reserved(t')
  {
  }

  lemma HostReceiveAdds(c: Config, t: Tx, rx: HostRx, slot: Slot, now: nat)
    ensures var t' := HostReceive(c, t, rx, slot, now).0;
            && t' == t.(session := t'.session, credit := t'.credit, congested := t'.congested)
            && forall i :: 0 <= i < 3 ==> t'.credit[ChannelAt(i)] >= t.credit[ChannelAt(i)]
  {
    hide FrameCodec.Decode, PayloadUnits;
  }

  lemma CoprocReceiveAdds(c: Config, t: Tx, rx: CoprocRx, slot: Slot, a: Arrival)
    ensures var t' := CoprocReceive(c, t, rx, slot, a).0;
            t' == t.(credit := t'.credit, congested := t'.congested)
  {
    hide FrameCodec.Decode, PayloadUnits, KeptUnits, Skipped, Tracked;
  }

  /** What an iteration sends is a data frame, and the transport has it with its slot. */
  lemma WorkTakes(c: Config, t: Tx, canExpand: bool, send: Send, owned: seq<seq<byte>>)
    requires JobsOk(Backlog(t)) && SlotsKept(c, t, |owned|) && AllEthernet(owned)
    ensures var (t', _, out) := Work(c, t, canExpand, send);
            && JobsOk(Backlog(t'))
            && SlotsKept(c, t', |owned + FramesOf(out)|) && AllEthernet(owned + FramesOf(out))
            && (c.side.HostSide? && Tallied(t) ==> Tallied(t'))
            && (c.side.HostSide? && Reserved(t) ==> Reserved(t'))
  {
    hide Work, Attempt, JobOk, Backlog, UnitsOf, SequenceOf, FrameOk, ChannelOf;
    WorkKeeps(c, t, canExpand, send, |owned|);
    var out := Work(c, t, canExpand, send).2;
    if out != [] {
      assert out == [out[0]] && out[1..] == [] && FramesOf(out) == [out[0].frame] + FramesOf(out[1..]);
      ChannelByte(out[0].frame);
    }
  }

  /** Completing one of the frames gives its slot back. */
  lemma DoneReturns(c: Config, t: Tx, owned: seq<seq<byte>>, k: nat, status: int)
    requires JobsOk(Backlog(t)) && SlotsKept(c, t, |owned|) && AllEthernet(owned) && k < |owned|
    ensures var t', rest := SendDone(c, t, owned[k], status), owned[..k] + owned[k + 1..];
            && JobsOk(Backlog(t')) && SlotsKept(c, t', |rest|) && AllEthernet(rest)
            && (Tallied(t) ==> Tallied(t')) && (Reserved(t) ==> Reserved(t'))
  {
    hide JobsOk, SendDone, Tallied, Reserved;
    CompletionKeeps(c, t, owned[k], status, |owned| - 1);
  }

  lemma StepSlotted(link: Link, s: Sys, m: Move)
    requires Slotted(link, s)
    ensures Slotted(link, After(link, s, m))
    ensures Tallied(s.host) ==> Tallied(After(link, s, m).host)
    ensures Reserved(s.host) ==> Reserved(After(link, s, m).host)
  {
    hide JobsOk, Work, SendDone, AllEthernet, FramesOf, AdmitRecord, Queue, HostReceive,
      CoprocReceive, HostFlush, CoprocFlush, RxComplete,
      CoprocTakesFrame, PlaceOf, RecordsIn, Attempt, Sent, Count, Total, Weigh;
    match m
    case HostAdmits(i, payload, alloc, locked) =>
      AdmitKeeps(link.host, s.host, ChannelAt(i), payload, alloc, locked, |s.hostOwned|);
    case CoprocAdmits(i, payload, alloc) =>
      AdmitKeeps(link.coproc, s.coproc, ChannelAt(i), payload, alloc, true, |s.coprocOwned|);
    case HostQueues(id) => QueueCovered(link.host, s.host, id, |s.hostOwned|);
    case CoprocQueues(id) => QueueCovered(link.coproc, s.coproc, id, |s.coprocOwned|);
    case HostWorks(canExpand, send) => WorkTakes(link.host, s.host, canExpand, send, s.hostOwned);
    case CoprocWorks(canExpand, send) => WorkTakes(link.coproc, s.coproc, canExpand, send, s.coprocOwned);
    case HostSendsDone(k, status) =>
      if k < |s.hostOwned| {
        DoneReturns(link.host, s.host, s.hostOwned, k, status);
      }
    case CoprocSendsDone(k, status) =>
      if k < |s.coprocOwned| {
        DoneReturns(link.coproc, s.coproc, s.coprocOwned, k, status);
      }
    case HostTakes(now) =>
      if |s.down| > 0 {
        HostReceiveAdds(link.host, s.host, s.hostRx, s.down[0], now);
        MoreCredit(s.host, HostReceive(link.host, s.host, s.hostRx, s.down[0], now).0);
      }
    case CoprocTakes(a) =>
      if |s.up| > 0 {
        CoprocReceiveAdds(link.coproc, s.coproc, s.coprocRx, s.up[0], a);
        assert Backlog(After(link, s, m).coproc) == Backlog(s.coproc);
      }
    case _ =>
      assert Backlog(After(link, s, m).host) == Backlog(s.host);
      assert Backlog(After(link, s, m).coproc) == Backlog(s.coproc);
  }

  lemma {:induction false} RunSlotted(link: Link, s: Sys, moves: seq<Move>)
    requires Slotted(link, s)
    ensures Slotted(link, Reached(link, s, moves))
    ensures Tallied(s.host) ==> Tallied(Reached(link, s, moves).host)
    ensures Reserved(s.host) ==> Reserved(Reached(link, s, moves).host)
    decreases |moves|
  {
    hide Slotted, Tallied, Reserved, After;
    if |moves| > 0 {
      StepSlotted(link, s, moves[0]);
      RunSlotted(link, After(link, s, moves[0]), moves[1..]);
    }
  }

  /** Slots are conserved on both sides, so giving one back when the transport completes a frame
      stays within the configured depth. */
  lemma SlotsConserved(link: Link, s: Sys, moves: seq<Move>)
    requires Slotted(link, s)
    ensures var r := Reached(link, s, moves);
            && r.host.slots + Total(Backlog(r.host)) + |r.hostOwned| == link.host.slotDepth
            && r.coproc.slots + Total(Backlog(r.coproc)) + |r.coprocOwned| == link.coproc.slotDepth
            && (|r.hostOwned| > 0 ==> r.host.slots < link.host.slotDepth)
            && (|r.coprocOwned| > 0 ==> r.coproc.slots < link.coproc.slotDepth)
  {
    hide Reached, JobsOk;
    RunSlotted(link, s, moves);
  }

  // ---------------------------------------------------------------------------------------
  // Sessions
  // ---------------------------------------------------------------------------------------

  /** What the Hello exchange grants to the three interfaces. */
  predicate GrantedBy(link: Link, has: Services) {
    link.grants == [link.initialCredit, link.initialCredit, if has.eth then link.initialCredit else 0]
  }

  function NewSession(link: Link, s: Sys, has: Services): Sys {
    Exchanged(s, link.session, link.initialCredit, has)
  }

  /** A Hello changes neither the waiting jobs nor the counters and slots. */
  lemma HelloKeeps(link: Link, s: Sys, has: Services)
    ensures var n := NewSession(link, s, has);
            && Backlog(n.host) == Backlog(s.host) && Backlog(n.coproc) == Backlog(s.coproc)
            && (Slotted(link, s) ==> Slotted(link, n))
            && (Tallied(s.host) ==> Tallied(n.host))
  {
    hide SeededCredit, OwnCredit, JobsOk, Count, Total;
  }

  /** The new session starts with every waiting job covered exactly when no interface has more jobs
      left over from before than the Hello grants it. */
  lemma HelloReserves(link: Link, s: Sys, has: Services)
    requires GrantedBy(link, has) && Tallied(s.host)
    ensures Reserved(NewSession(link, s, has).host) <==>
            forall i :: 0 <= i < 3 ==> Count(Backlog(s.host), i) <= link.grants[i]
  {
    hide SeededCredit, OwnCredit, Count, Opened;
    HelloKeeps(link, s, has);
    HelloOpens(link, s, has);
    var n := NewSession(link, s, has);
    assert forall i :: 0 <= i < 3 ==> n.host.credit[ChannelAt(i)] == link.grants[i] by { OpenedCredit(link, n); }
  }

  lemma OpenedCredit(link: Link, n: Sys)
    requires Opened(link, n)
    ensures forall i :: 0 <= i < 3 ==> n.host.credit[ChannelAt(i)] == link.grants[i]
  {
  }

  /** The reservation is sound: throughout a session that no interface entered with more jobs than
      its grant, each counter is the number of jobs queued or deferred and is covered by the credit
      held, so whatever the next worker iteration sends, it is never refused for lack of credit. */
  lemma HostNeverLacksCredit(link: Link, s: Sys, has: Services, moves: seq<Move>, canExpand: bool, send: Send)
    requires Slotted(link, s) && Tallied(s.host) && GrantedBy(link, has)
    requires forall i :: 0 <= i < 3 ==> Count(Backlog(s.host), i) <= link.grants[i]
    ensures var r := Reached(link, NewSession(link, s, has), moves);
            && (forall i :: 0 <= i < 3 ==>
                  r.host.queued[i] == Count(Backlog(r.host), i) <= r.host.credit[ChannelAt(i)])
            && !Work(link.host, r.host, canExpand, send).1.NoCredit?
  {
    hide Work, JobsOk, Attempt, Sent, Count, Backlog, SlotsKept, Reached, Exchanged;
    HelloKeeps(link, s, has);
    HelloReserves(link, s, has);
    var n := NewSession(link, s, has);
    RunSlotted(link, n, moves);
    var r := Reached(link, n, moves);
    WorkKeeps(link.host, r.host, canExpand, send, |r.hostOwned|);
  }

  /** A job left over for an interface that the new session grants nothing is refused, although the
      session is as good as any other for the balance of credit. */
  lemma LeftoverJobLacksCredit(link: Link, s: Sys, has: Services, canExpand: bool, send: Send)
    requires LinkOk(link) && Slotted(link, s) && GrantedBy(link, has) && !has.eth
    requires |Backlog(s.host)| > 0 && Backlog(s.host)[0].EthernetTx? && Backlog(s.host)[0].channel == ETH
    requires FrameCodec.HEADER_SIZE + |Backlog(s.host)[0].record| <= link.host.maxFrame
    ensures var n := NewSession(link, s, has);
            Started(link, n) && !Reserved(n.host) && Work(link.host, n.host, canExpand, send).1.NoCredit?
  {
    hide SeededCredit, OwnCredit, Gather, JobsOk, Opened;
    HelloKeeps(link, s, has);
    HelloOpens(link, s, has);
    var n := NewSession(link, s, has);
    OpenedCredit(link, n);
    assert n.host.credit[ChannelAt(2)] == 0;
    var jobs := Backlog(n.host);
    AggregateTakesFront(MergeOf(link.host, canExpand), jobs[0], jobs[1..]);
    CountsFirst(jobs);
  }

  lemma CountsFirst(jobs: seq<Job>)
    requires |jobs| > 0 && jobs[0].EthernetTx? && jobs[0].channel == ETH
    ensures Count(jobs, 2) >= 1
  {
  }
}
