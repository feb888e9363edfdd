/** Delivery over whole runs of the credit protocol: the Ethernet frames handed over at one end are
    those admitted at the other, in their order, less exactly the frames of refused sends, of wire
    frames lost or refused for their size, and of arrivals without a backend. */
module EndToEnd {
  import opened Bytes
  import opened Aggregation
  import opened LinkState
  import opened Wire
  import opened Transmit
  import opened CreditProtocol
  import opened CreditInvariant
  import opened CreditTheorems
  import opened Refinement
  import FrameCodec
  import RawRecord
  import Receiver

  // ---------------------------------------------------------------------------------------
  // In order
  // ---------------------------------------------------------------------------------------

  /** `at` picks the elements of `a` out of `b` from left to right. */
  ghost predicate Picks<T>(at: seq<nat>, a: seq<T>, b: seq<T>) {
    && |at| == |a|
    && (forall k :: 0 <= k < |at| ==> at[k] < |b| && b[at[k]] == a[k])
    && (forall j, k :: 0 <= j < k < |at| ==> at[j] < at[k])
  }

  /** `a` is a subsequence of `b`. */
  ghost predicate InOrder<T>(a: seq<T>, b: seq<T>) {
    exists at :: Picks(at, a, b)
  }

  lemma InOrderSelf<T>(a: seq<T>)
    ensures InOrder(a, a)
  {
    assert Picks(seq(|a|, k requires 0 <= k < |a| => k as nat), a, a);
  }

  lemma InOrderThrough<T>(a: seq<T>, b: seq<T>, c: seq<T>)
    requires InOrder(a, b) && InOrder(b, c)
    ensures InOrder(a, c)
  {
    var f :| Picks(f, a, b);
    var g :| Picks(g, b, c);
    assert Picks(seq(|f|, k requires 0 <= k < |f| => g[f[k]]), a, c);
  }

  lemma InOrderConcat<T>(a: seq<T>, b: seq<T>, c: seq<T>, d: seq<T>)
    requires InOrder(a, b) && InOrder(c, d)
    ensures InOrder(a + c, b + d)
  {
    var f :| Picks(f, a, b);
    var g :| Picks(g, c, d);
    var at := seq(|f| + |g|, k requires 0 <= k < |f| + |g| => if k < |f| then f[k] else |b| + g[k - |f|]);
    assert Picks(at, a + c, b + d);
  }

  lemma InOrderNone<T>(b: seq<T>)
    ensures InOrder([], b)
  {
    assert Picks([], [], b);
  }

  lemma {:induction false} Increasing(at: seq<nat>, k: nat)
    requires k < |at| && forall i, j :: 0 <= i < j < |at| ==> at[i] < at[j]
    ensures k <= at[k]
  {
    if k > 0 {
      Increasing(at, k - 1);
    }
  }

  /** A subsequence of the same length is the whole. */
  lemma InOrderWhole<T>(a: seq<T>, b: seq<T>)
    requires InOrder(a, b) && |a| == |b|
    ensures a == b
  {
    var at :| Picks(at, a, b);
    hide Picks;
    forall k | 0 <= k < |a|
      ensures a[k] == b[k]
    {
      PickedSame(at, a, b, k);
    }
  }

  lemma PickedSame<T>(at: seq<nat>, a: seq<T>, b: seq<T>, k: nat)
    requires Picks(at, a, b) && k < |a| == |b|
    ensures a[k] == b[k]
  {
    Increasing(at, k);
    FromTheEnd(at, k, |b|);
    assert at[k] == k;
  }

  lemma {:induction false} FromTheEnd(at: seq<nat>, k: nat, n: nat)
    requires k < |at| == n && (forall i, j :: 0 <= i < j < |at| ==> at[i] < at[j])
    requires forall j :: 0 <= j < |at| ==> at[j] < n
    ensures at[k] <= k
    decreases n - k
  {
    if k + 1 < n {
      FromTheEnd(at, k + 1, n);
    }
  }

  // ---------------------------------------------------------------------------------------
  // One leg of the journey
  // ---------------------------------------------------------------------------------------

  type Packets = seq<seq<byte>>

  /** What lies between admission and delivery before and after a step that admits, delivers and
      removes: nothing is reordered, duplicated or made up, and only `removed` disappears. */
  ghost predicate Passed(before: Packets, after: Packets, admitted: Packets, delivered: Packets, removed: Packets) {
    && InOrder(delivered + after, before + admitted)
    && multiset(before + admitted) == multiset(delivered + after) + multiset(removed)
  }

  lemma PassedUnchanged(before: Packets)
    ensures Passed(before, before, [], [], [])
  {
    assert [] + before == before == before + [];
    InOrderSelf(before);
  }

  lemma PassedIn(before: Packets, after: Packets, admitted: Packets)
    requires after == before + admitted
    ensures Passed(before, after, admitted, [], [])
  {
    assert [] + after == after;
    InOrderSelf(after);
  }

  lemma PassedOut(before: Packets, after: Packets, delivered: Packets)
    requires before == delivered + after
    ensures Passed(before, after, [], delivered, [])
  {
    assert before + [] == before;
    InOrderSelf(before);
  }

  lemma PassedAway(front: Packets, removed: Packets, back: Packets, before: Packets, after: Packets)
    requires before == front + (removed + back) && after == front + back
    ensures Passed(before, after, [], [], removed)
  {
    InOrderSelf(front);
    InOrderSelf(back);
    InOrderNone(removed);
    InOrderConcat([], removed, back, back);
    assert [] + back == back;
    InOrderConcat(front, front, back, removed + back);
    assert [] + after == after && before + [] == before;
  }

  lemma PassedThen(s: Packets, a: Packets, d: Packets, r: Packets, t: Packets,
                   a': Packets, d': Packets, r': Packets, u: Packets)
    requires Passed(s, t, a, d, r) && Passed(t, u, a', d', r')
    ensures Passed(s, u, a + a', d + d', r + r')
  {
    hide InOrder;
    OrderThen(s, a, d, t, a', d', u);
    CountsAdd(s, a, d, r, t, a', d', r', u);
  }

  lemma OrderThen(s: Packets, a: Packets, d: Packets, t: Packets, a': Packets, d': Packets, u: Packets)
    requires InOrder(d + t, s + a) && InOrder(d' + u, t + a')
    ensures InOrder(d + d' + u, s + (a + a'))
  {
    hide InOrder;
    InOrderSelf(d);
    InOrderSelf(a');
    InOrderConcat(d, d, d' + u, t + a');
    InOrderConcat(d + t, s + a, a', a');
    assert d + (t + a') == d + t + a';
    assert s + a + a' == s + (a + a');
    assert d + (d' + u) == d + d' + u;
    InOrderThrough(d + d' + u, d + t + a', s + (a + a'));
  }

  lemma CountsAdd(s: Packets, a: Packets, d: Packets, r: Packets, t: Packets,
                a': Packets, d': Packets, r': Packets, u: Packets)
    requires multiset(s + a) == multiset(d + t) + multiset(r)
    requires multiset(t + a') == multiset(d' + u) + multiset(r')
    ensures multiset(s + (a + a')) == multiset(d + d' + u) + multiset(r + r')
  {
    assert s + (a + a') == s + a + a';
    calc {
      multiset(s + a + a');
      multiset(s + a) + multiset(a');
      multiset(d) + multiset(t) + multiset(r) + multiset(a');
      multiset(d) + multiset(t + a') + multiset(r);
      multiset(d) + (multiset(d') + multiset(u) + multiset(r')) + multiset(r);
      multiset(d + d' + u) + multiset(r + r');
    }
  }

  // ---------------------------------------------------------------------------------------
  // Packets in jobs and on wires
  // ---------------------------------------------------------------------------------------

  function PacketsOf(rs: seq<RawRecord.Record>): Packets {
    Receiver.Deliverable(rs, |rs|)
  }

  lemma {:induction false} PacketsMore(a: seq<RawRecord.Record>, b: seq<RawRecord.Record>, n: nat)
    requires n <= |b|
    ensures Receiver.Deliverable(a + b, |a| + n) == Receiver.Deliverable(a, |a|) + Receiver.Deliverable(b, n)
    decreases n
  {
    if n == 0 {
      PacketsWithin(a, b, |a|);
    } else {
      PacketsMore(a, b, n - 1);
    }
  }

  lemma {:induction false} PacketsWithin(a: seq<RawRecord.Record>, b: seq<RawRecord.Record>, n: nat)
    requires n <= |a|
    ensures Receiver.Deliverable(a + b, n) == Receiver.Deliverable(a, n)
    decreases n
  {
    if n > 0 {
      PacketsWithin(a, b, n - 1);
    }
  }

  lemma PacketsConcat(a: seq<RawRecord.Record>, b: seq<RawRecord.Record>)
    ensures PacketsOf(a + b) == PacketsOf(a) + PacketsOf(b)
  {
    PacketsMore(a, b, |b|);
  }

  /** The records of the waiting jobs of one channel. */
  function Queued(jobs: seq<Job>, channel: byte): seq<RawRecord.Record> {
    if |jobs| == 0 then []
    else (if jobs[0].EthernetTx? && jobs[0].channel == channel then Records(jobs[0].record) else [])
         + Queued(jobs[1..], channel)
  }

  lemma {:induction false} QueuedConcat(a: seq<Job>, b: seq<Job>, channel: byte)
    ensures Queued(a + b, channel) == Queued(a, channel) + Queued(b, channel)
    decreases |a|
  {
    hide Records;
    if |a| == 0 {
      assert a + b == b;
    } else {
      assert (a + b)[1..] == a[1..] + b;
      QueuedConcat(a[1..], b, channel);
    }
  }

  lemma {:induction false} QueuedBatch(jobs: seq<Job>, channel: byte, of: byte)
    requires OneChannel(jobs, channel) && AllWellFormed(jobs)
    ensures Queued(jobs, of) == if of == channel then Records(Joined(jobs)) else []
    decreases |jobs|
  {
    hide Records, Canonical;
    if |jobs| == 0 {
      JoinedRecords(jobs, channel);
    } else {
      QueuedBatch(jobs[1..], channel, of);
      JoinedRecords(jobs[1..], channel);
      assert WellFormed(jobs[0]);
      RecordsConcat(jobs[0].record, Joined(jobs[1..]));
    }
  }

  /** Everything admitted on a channel and neither delivered nor removed: the wire, then the jobs. */
  ghost function InFlight(wire: seq<Slot>, jobs: seq<Job>, channel: byte): Packets {
    OnWire(wire, channel) + Waits(jobs, channel)
  }

  // ---------------------------------------------------------------------------------------
  // The steps of a leg
  // ---------------------------------------------------------------------------------------

  lemma CarriedOne(slot: Slot, channel: byte)
    ensures Carried([slot], channel) ==
            if slot.Data? && ChannelOf(slot.frame) == Some(channel) then Records(Contents(slot.frame).value.1) else []
  {
    hide Records, Contents;
    assert [slot][1..] == [];
    assert Carried([slot][1..], channel) == [];
  }

  ghost function OnWire(w: seq<Slot>, channel: byte): Packets {
    PacketsOf(Carried(w, channel))
  }

  lemma OnWireConcat(a: seq<Slot>, b: seq<Slot>, channel: byte)
    ensures OnWire(a + b, channel) == OnWire(a, channel) + OnWire(b, channel)
  {
    CarriedConcat(a, b, channel);
    PacketsConcat(Carried(a, channel), Carried(b, channel));
  }

  ghost function Waits(jobs: seq<Job>, channel: byte): Packets {
    PacketsOf(Queued(jobs, channel))
  }

  lemma WaitsConcat(a: seq<Job>, b: seq<Job>, channel: byte)
    ensures Waits(a + b, channel) == Waits(a, channel) + Waits(b, channel)
  {
    QueuedConcat(a, b, channel);
    PacketsConcat(Queued(a, channel), Queued(b, channel));
  }

  ghost predicate NoData(w: seq<Slot>) {
    forall k :: 0 <= k < |w| ==> !w[k].Data?
  }

  lemma {:induction false} NoDataCarried(w: seq<Slot>, channel: byte)
    requires NoData(w)
    ensures Carried(w, channel) == []
    decreases |w|
  {
    if |w| > 0 {
      NoDataCarried(w[1..], channel);
    }
  }

  /** CreditUpdates put on the wire carry nothing. */
  lemma CreditsPass(w: seq<Slot>, out: seq<Slot>, jobs: seq<Job>, channel: byte)
    requires NoData(out)
    ensures InFlight(w + out, jobs, channel) == InFlight(w, jobs, channel)
  {
    NoDataCarried(out, channel);
    CarriedConcat(w, out, channel);
    hide Carried, PacketsOf, Queued;
    assert Carried(w, channel) + [] == Carried(w, channel);
  }

  /** What the head of the wire carries leaves it. */
  lemma HeadLeaves(w: seq<Slot>, jobs: seq<Job>, channel: byte)
    requires |w| > 0
    ensures InFlight(w, jobs, channel) == OnWire([w[0]], channel) + InFlight(w[1..], jobs, channel)
  {
    hide OnWire, Waits;
    assert [w[0]] + w[1..] == w;
    OnWireConcat([w[0]], w[1..], channel);
  }

  /** A place in the middle of the wire is taken out. */
  lemma PlaceLeaves(w: seq<Slot>, k: nat, jobs: seq<Job>, channel: byte)
    requires k < |w|
    ensures Passed(InFlight(w, jobs, channel), InFlight(w[..k] + w[k + 1..], jobs, channel), [], [],
                   OnWire([w[k]], channel))
  {
    hide OnWire, Waits, Passed;
    assert w == w[..k] + ([w[k]] + w[k + 1..]);
    OnWireConcat(w[..k], [w[k]] + w[k + 1..], channel);
    OnWireConcat([w[k]], w[k + 1..], channel);
    OnWireConcat(w[..k], w[k + 1..], channel);
    Cleared(OnWire(w[..k], channel), OnWire([w[k]], channel), OnWire(w[k + 1..], channel), Waits(jobs, channel));
  }

  lemma Cleared(front: Packets, lost: Packets, back: Packets, waits: Packets)
    ensures Passed(front + (lost + back) + waits, front + back + waits, [], [], lost)
  {
    hide Passed;
    assert front + (lost + back) + waits == front + (lost + (back + waits));
    assert front + back + waits == front + (back + waits);
    PassedAway(front, lost, back + waits, front + (lost + back) + waits, front + back + waits);
  }

  /** Its marker carries nothing. */
  lemma MarkerCarries(w: seq<Slot>, k: nat, lost: Slot, jobs: seq<Job>, channel: byte)
    requires k < |w| && lost.Lost?
    ensures InFlight(w[k := lost], jobs, channel) == InFlight(w[..k] + w[k + 1..], jobs, channel)
  {
    NoDataCarried([lost], channel);
    assert w[k := lost] == w[..k] + ([lost] + w[k + 1..]);
    assert OnWire([lost], channel) == [];
    hide OnWire, Waits;
    OnWireConcat(w[..k], [lost] + w[k + 1..], channel);
    OnWireConcat([lost], w[k + 1..], channel);
    OnWireConcat(w[..k], w[k + 1..], channel);
    assert [] + OnWire(w[k + 1..], channel) == OnWire(w[k + 1..], channel);
  }

  /** The packet of an admitted record. */
  function Taken(c: Config, t: Tx, interface: nat, payload: seq<byte>, alloc: bool, locked: bool, channel: byte)
    : Packets
  {
    if ChannelAt(interface) == channel && AdmitRecord(c, t, ChannelAt(interface), payload, alloc, locked).1.Done?
    then [payload] else []
  }

  lemma RecordPacket(payload: seq<byte>, channel: byte, of: byte)
    requires |payload| <= UINT32_MAX
    ensures Waits([EthernetTx(channel, RawRecord.Header(1, 0, |payload|) + payload)], of) ==
            if channel == of then [payload] else []
  {
    var r := RawRecord.Record(1, 0, payload);
    RawRecord.EncodeAllOne(r);
    CanonicalOfEncoded([r]);
    var jobs := [EthernetTx(channel, RawRecord.Header(1, 0, |payload|) + payload)];
    assert Records(jobs[0].record) == [r];
    assert jobs[1..] == [] && Queued(jobs[1..], of) == [];
    assert Receiver.Deliverable([r], 0) == [];
  }

  lemma JobsAppended(w: seq<Slot>, jobs: seq<Job>, more: seq<Job>, channel: byte)
    ensures InFlight(w, jobs + more, channel) == InFlight(w, jobs, channel) + Waits(more, channel)
  {
    hide OnWire, Waits;
    WaitsConcat(jobs, more, channel);
  }

  lemma AdmitPasses(c: Config, t: Tx, w: seq<Slot>, interface: nat, payload: seq<byte>, alloc: bool, locked: bool,
                    channel: byte)
    ensures Passed(InFlight(w, Backlog(t), channel),
                   InFlight(w, Backlog(Admit(c, t, interface, payload, alloc, locked)), channel),
                   Taken(c, t, interface, payload, alloc, locked, channel), [], [])
  {
    hide InFlight, Waits, Passed;
    var before := InFlight(w, Backlog(t), channel);
    if AdmitRecord(c, t, ChannelAt(interface), payload, alloc, locked).1.Done? {
      JobAdmitted(c, t, interface, payload, alloc, locked);
      hide AdmitRecord, Backlog;
      RecordPacket(payload, ChannelAt(interface), channel);
      JobsAppended(w, Backlog(t), [EthernetTx(ChannelAt(interface), RawRecord.Header(1, 0, |payload|) + payload)],
                   channel);
      PassedIn(before, InFlight(w, Backlog(Admit(c, t, interface, payload, alloc, locked)), channel),
               Taken(c, t, interface, payload, alloc, locked, channel));
    } else {
      PassedUnchanged(before);
    }
  }

  lemma JobAdmitted(c: Config, t: Tx, interface: nat, payload: seq<byte>, alloc: bool, locked: bool)
    requires AdmitRecord(c, t, ChannelAt(interface), payload, alloc, locked).1.Done?
    ensures |payload| <= UINT32_MAX
    ensures Backlog(Admit(c, t, interface, payload, alloc, locked)) ==
            Backlog(t) + [EthernetTx(ChannelAt(interface), RawRecord.Header(1, 0, |payload|) + payload)]
  {
  }

  lemma QueuePasses(c: Config, t: Tx, w: seq<Slot>, id: nat, channel: byte)
    ensures InFlight(w, Backlog(Queue(c, t, id)), channel) == InFlight(w, Backlog(t), channel)
  {
    if |t.queue| < c.queueDepth {
      assert Backlog(Queue(c, t, id)) == Backlog(t) + [Other(id)];
      assert [Other(id)][1..] == [] && Queued([Other(id)][1..], channel) == [];
      assert Waits([Other(id)], channel) == [];
      JobsAppended(w, Backlog(t), [Other(id)], channel);
      hide InFlight;
    }
  }

  /** The packets of a batch that did not go out. */
  ghost function Unsent(c: Config, t: Tx, canExpand: bool, send: Send, channel: byte): Packets {
    var n := Attempt(c, t, canExpand).1;
    if |Backlog(t)| == 0 || Backlog(t)[0].Other? || Work(c, t, canExpand, send).1.Done? then []
    else Waits(if n <= |Backlog(t)| then Backlog(t)[..n] else Backlog(t), channel)
  }

  lemma WorkPasses(c: Config, t: Tx, w: seq<Slot>, canExpand: bool, send: Send, channel: byte)
    requires JobsOk(Backlog(t))
    ensures var (t', _, out) := Work(c, t, canExpand, send);
            Passed(InFlight(w, Backlog(t), channel), InFlight(w + out, Backlog(t'), channel), [], [],
                   Unsent(c, t, canExpand, send, channel))
  {
    hide Passed;
    if |Backlog(t)| == 0 {
      assert w + [] == w;
      PassedUnchanged(InFlight(w, Backlog(t), channel));
    } else if Backlog(t)[0].Other? {
      OtherPasses(c, t, w, canExpand, send, channel);
    } else {
      BatchPasses(c, t, w, canExpand, send, channel);
    }
  }

  lemma OtherPasses(c: Config, t: Tx, w: seq<Slot>, canExpand: bool, send: Send, channel: byte)
    requires JobsOk(Backlog(t)) && |Backlog(t)| > 0 && Backlog(t)[0].Other?
    ensures var (t', _, out) := Work(c, t, canExpand, send);
            Passed(InFlight(w, Backlog(t), channel), InFlight(w + out, Backlog(t'), channel), [], [], [])
  {
    hide Passed, Records, JobOk;
    var (t', _, out) := Work(c, t, canExpand, send);
    assert w + [] == w;
    assert Backlog(t') == Backlog(t)[1..];
    assert Queued(Backlog(t), channel) == Queued(Backlog(t)[1..], channel);
    PassedUnchanged(InFlight(w, Backlog(t), channel));
  }

  lemma BatchPasses(c: Config, t: Tx, w: seq<Slot>, canExpand: bool, send: Send, channel: byte)
    requires JobsOk(Backlog(t)) && |Backlog(t)| > 0 && Backlog(t)[0].EthernetTx?
    ensures var (t', _, out) := Work(c, t, canExpand, send);
            Passed(InFlight(w, Backlog(t), channel), InFlight(w + out, Backlog(t'), channel), [], [],
                   Unsent(c, t, canExpand, send, channel))
  {
    hide Work, Attempt, Passed, Records, Canonical, Carried, Joined, RecordFits, Queued, WellFormed;
    hide Receiver.Deliverable;
    var (t', outcome, out) := Work(c, t, canExpand, send);
    var (of, n) := Attempt(c, t, canExpand);
    var jobs := Backlog(t);
    hide Backlog;
    MergedBatch(c, t, canExpand, send, channel);
    assert AllWellFormed(jobs[..n]);
    QueuedBatch(jobs[..n], of, channel);
    assert jobs == jobs[..n] + jobs[n..];
    WaitsConcat(jobs[..n], jobs[n..], channel);
    OnWireConcat(w, out, channel);
    hide Counted;
    NoPackets();
    assert OnWire(out, channel) == if outcome.Done? then Waits(jobs[..n], channel) else [];
    Settled(OnWire(w, channel), OnWire(out, channel), Waits(jobs[..n], channel), Waits(jobs[n..], channel),
            outcome.Done?);
  }

  lemma NoPackets()
    ensures PacketsOf([]) == []
  {
  }

  /** A batch moves from the jobs to the wire, or is gone. */
  lemma Settled(wire: Packets, out: Packets, batch: Packets, rest: Packets, goes: bool)
    requires out == if goes then batch else []
    ensures Passed(wire + (batch + rest), wire + out + rest, [], [], if goes then [] else batch)
  {
    hide Passed;
    if goes {
      assert wire + out + rest == wire + (batch + rest);
      PassedUnchanged(wire + (batch + rest));
    } else {
      assert wire + out + rest == wire + rest;
      PassedAway(wire, batch, rest, wire + (batch + rest), wire + out + rest);
    }
  }

  // ---------------------------------------------------------------------------------------
  // Both directions
  // ---------------------------------------------------------------------------------------

  datatype Leg = ToCoproc | ToHost

  ghost function Between(s: Sys, leg: Leg, channel: byte): Packets {
    match leg
    case ToCoproc => InFlight(s.up, Backlog(s.host), channel)
    case ToHost => InFlight(s.down, Backlog(s.coproc), channel)
  }

  /** What a step admits at the near end. */
  ghost function Admits(link: Link, s: Sys, m: Move, leg: Leg, channel: byte): Packets {
    match (leg, m)
    case (ToCoproc, HostAdmits(i, payload, alloc, locked)) =>
      Taken(link.host, s.host, i, payload, alloc, locked, channel)
    case (ToHost, CoprocAdmits(i, payload, alloc)) => Taken(link.coproc, s.coproc, i, payload, alloc, true, channel)
    case _ => []
  }

  /** What it hands over at the far end: to the Coprocessor's backend or the Host's application. */
  ghost function Delivers(link: Link, s: Sys, m: Move, leg: Leg, channel: byte): Packets {
    match (leg, m)
    case (ToCoproc, CoprocTakes(a)) =>
      if |s.up| > 0 && s.up[0].Data? && ChannelOf(s.up[0].frame) == Some(channel)
      then Receiver.Accepted(link.coproc, a.backend, s.up[0].frame) else []
    case (ToHost, HostTakes(_)) =>
      if |s.down| > 0 && s.down[0].Data? && ChannelOf(s.down[0].frame) == Some(channel)
      then Receiver.Dispatched(link.host, s.host.session, s.down[0].frame) else []
    case _ => []
  }

  /** What it takes away: a batch whose send is refused, a frame lost on the wire, a frame beyond its
      receiver's limit, a frame that arrives where there is no backend. */
  ghost function Removes(link: Link, s: Sys, m: Move, leg: Leg, channel: byte): Packets {
    match (leg, m)
    case (ToCoproc, HostWorks(canExpand, send)) => Unsent(link.host, s.host, canExpand, send, channel)
    case (ToHost, CoprocWorks(canExpand, send)) => Unsent(link.coproc, s.coproc, canExpand, send, channel)
    case (ToCoproc, UpDrops(k)) => if k < |s.up| then OnWire([s.up[k]], channel) else []
    case (ToHost, DownDrops(k)) => if k < |s.down| then OnWire([s.down[k]], channel) else []
    case (ToCoproc, CoprocTakes(a)) =>
      if |s.up| > 0 && !(a.backend && WithinLimit(s.up[0], link.coproc.maxFrame))
      then OnWire([s.up[0]], channel) else []
    case (ToHost, HostTakes(_)) =>
      if |s.down| > 0 && !WithinLimit(s.down[0], link.host.maxFrame) then OnWire([s.down[0]], channel) else []
    case _ => []
  }

  lemma DeliveryOfRecords(payload: seq<byte>)
    ensures Receiver.Delivery(payload) == PacketsOf(Records(payload))
  {
    if |payload| == 0 {
      EmptyRecords();
    }
  }

  /** A slot of the session at the head of a wire is delivered whole or not at all. */
  lemma SlotDelivered(slot: Slot, session: uint32, c: Config, channel: byte)
    requires SlotOk(slot, session) && session != 0
    ensures slot.Data? ==>
              && Receiver.Accepted(c, true, slot.frame) == Receiver.Dispatched(c, session, slot.frame)
              && Receiver.Accepted(c, false, slot.frame) == []
              && (ChannelOf(slot.frame) == Some(channel) ==>
                    Receiver.Accepted(c, true, slot.frame) ==
                    if WithinLimit(slot, c.maxFrame) then OnWire([slot], channel) else [])
    ensures !slot.Data? || ChannelOf(slot.frame) != Some(channel) ==> OnWire([slot], channel) == []
  {
    CarriedOne(slot, channel);
    if slot.Data? {
      DecodeWithin(slot.frame, c.maxFrame);
      hide FrameCodec.Decode, Records, Receiver.Deliverable, Canonical;
      DeliveryOfRecords(Contents(slot.frame).value.1);
    }
    NoPackets();
  }

  lemma HeadPasses(w: seq<Slot>, jobs: seq<Job>, channel: byte, delivered: Packets, removed: Packets)
    requires |w| > 0
    requires (delivered == OnWire([w[0]], channel) && removed == []) ||
             (delivered == [] && removed == OnWire([w[0]], channel))
    ensures Passed(InFlight(w, jobs, channel), InFlight(w[1..], jobs, channel), [], delivered, removed)
  {
    hide InFlight, OnWire, Passed;
    HeadLeaves(w, jobs, channel);
    var before, after := InFlight(w, jobs, channel), InFlight(w[1..], jobs, channel);
    if removed == [] {
      if delivered == [] {
        assert before == after;
        PassedUnchanged(before);
      } else {
        PassedOut(before, after, delivered);
      }
    } else {
      assert before == [] + (removed + after) && after == [] + after;
      PassedAway([], removed, after, before, after);
    }
  }

  /** Nothing of the leg is touched, up to CreditUpdates put on its wire. */
  lemma Untouched(s: Sys, s': Sys, leg: Leg, out: seq<Slot>, channel: byte)
    requires NoData(out)
    requires leg.ToCoproc? ==> s'.up == s.up + out && Backlog(s'.host) == Backlog(s.host)
    requires leg.ToHost? ==> s'.down == s.down + out && Backlog(s'.coproc) == Backlog(s.coproc)
    ensures Passed(Between(s, leg, channel), Between(s', leg, channel), [], [], [])
  {
    hide InFlight, Passed, Backlog;
    if leg.ToCoproc? {
      CreditsPass(s.up, out, Backlog(s.host), channel);
    } else {
      CreditsPass(s.down, out, Backlog(s.coproc), channel);
    }
    PassedUnchanged(Between(s, leg, channel));
  }

  lemma CoprocTakePasses(link: Link, s: Sys, a: Arrival, leg: Leg, channel: byte)
    requires Flow(link, s) && link.session != 0
    ensures var m := CoprocTakes(a);
            Passed(Between(s, leg, channel), Between(CoprocTake(link, s, a), leg, channel), [],
                   Delivers(link, s, m, leg, channel), Removes(link, s, m, leg, channel))
  {
    hide Passed, InFlight, OnWire, CoprocReceive, CoprocTakesFrame, Receiver.Accepted, Receiver.Dispatched, SlotOk,
      ChannelOf, PlaceOf, RecordsIn, JobsOk, Missed;
    var s' := CoprocTake(link, s, a);
    if |s.up| == 0 {
      assert s.up + [] == s.up && s.down + [] == s.down;
      Untouched(s, s', leg, [], channel);
    } else if leg.ToCoproc? {
      assert SlotOk(s.up[0], link.session);
      SlotDelivered(s.up[0], link.session, link.coproc, channel);
      HeadPasses(s.up, Backlog(s.host), channel, Delivers(link, s, CoprocTakes(a), leg, channel),
                 Removes(link, s, CoprocTakes(a), leg, channel));
    } else {
      CoprocTakeLeaves(link, s, a, channel);
    }
  }

  lemma CoprocTakeLeaves(link: Link, s: Sys, a: Arrival, channel: byte)
    requires |s.up| > 0
    ensures Passed(Between(s, ToHost, channel), Between(CoprocTake(link, s, a), ToHost, channel), [], [], [])
  {
    hide Passed, InFlight, CoprocTakesFrame, PlaceOf, RecordsIn, JobsOk, Missed;
    var s' := CoprocTake(link, s, a);
    if s.up[0].Lost? || !WithinLimit(s.up[0], link.coproc.maxFrame) {
      assert s.down + [] == s.down;
      Untouched(s, s', ToHost, [], channel);
    } else {
      ReceivesCredits(link.coproc, s.coproc, s.coprocRx, s.up[0], a);
      hide CoprocReceive;
      Untouched(s, s', ToHost, CoprocReceive(link.coproc, s.coproc, s.coprocRx, s.up[0], a).3, channel);
    }
  }

  lemma ReceivesCredits(c: Config, t: Tx, rx: CoprocRx, slot: Slot, a: Arrival)
    ensures var (t', _, _, out) := CoprocReceive(c, t, rx, slot, a);
            NoData(out) && Backlog(t') == Backlog(t)
  {
    hide FrameCodec.Decode, KeptUnits, PayloadUnits, Skipped, Tracked;
  }

  lemma HostTakePasses(link: Link, s: Sys, now: nat, leg: Leg, channel: byte)
    requires Flow(link, s) && link.session != 0
    ensures var m := HostTakes(now);
            Passed(Between(s, leg, channel), Between(HostTake(link, s, now), leg, channel), [],
                   Delivers(link, s, m, leg, channel), Removes(link, s, m, leg, channel))
  {
    hide Passed, InFlight, OnWire, HostReceive, Receiver.Accepted, Receiver.Dispatched, SlotOk,
      ChannelOf, PlaceOf, RecordsIn, JobsOk;
    var s' := HostTake(link, s, now);
    if |s.down| == 0 {
      assert s.up + [] == s.up && s.down + [] == s.down;
      Untouched(s, s', leg, [], channel);
    } else if leg.ToHost? {
      assert SlotOk(s.down[0], link.session);
      SlotDelivered(s.down[0], link.session, link.host, channel);
      HeadPasses(s.down, Backlog(s.coproc), channel, Delivers(link, s, HostTakes(now), leg, channel),
                 Removes(link, s, HostTakes(now), leg, channel));
    } else {
      HostReceiveKeepsJobs(link.host, s.host, s.hostRx, s.down[0], now);
      assert s.up + [] == s.up;
      Untouched(s, s', leg, [], channel);
    }
  }

  lemma HostReceiveKeepsJobs(c: Config, t: Tx, rx: HostRx, slot: Slot, now: nat)
    ensures Backlog(HostReceive(c, t, rx, slot, now).0) == Backlog(t)
  {
    hide FrameCodec.Decode, PayloadUnits, Accumulate;
  }

  lemma DropPasses(link: Link, s: Sys, m: Move, leg: Leg, channel: byte)
    requires m.UpDrops? || m.DownDrops?
    ensures Passed(Between(s, leg, channel), Between(After(link, s, m), leg, channel), [], [],
                   Removes(link, s, m, leg, channel))
  {
    hide Passed, InFlight, OnWire, PlaceOf, RecordsIn;
    var s' := After(link, s, m);
    if m.UpDrops? && leg.ToCoproc? && m.at < |s.up| && !s.up[m.at].Lost? {
      PlaceLeaves(s.up, m.at, Backlog(s.host), channel);
      if s.up[m.at].Data? {
        MarkerCarries(s.up, m.at, Lost(ChannelAt(PlaceOf(s.up[m.at]))), Backlog(s.host), channel);
      }
    } else if m.DownDrops? && leg.ToHost? && m.at < |s.down| && !s.down[m.at].Lost? {
      PlaceLeaves(s.down, m.at, Backlog(s.coproc), channel);
    } else {
      assert s.up + [] == s.up && s.down + [] == s.down;
      if m.UpDrops? && leg.ToCoproc? && m.at < |s.up| {
        MarkerEmpty(s.up[m.at], channel);
      }
      if m.DownDrops? && leg.ToHost? && m.at < |s.down| {
        MarkerEmpty(s.down[m.at], channel);
      }
      Untouched(s, s', leg, [], channel);
    }
  }

  lemma MarkerEmpty(slot: Slot, channel: byte)
    requires slot.Lost?
    ensures OnWire([slot], channel) == []
  {
    NoDataCarried([slot], channel);
  }

  lemma FlushPasses(link: Link, s: Sys, m: Move, leg: Leg, channel: byte)
    requires m.HostFlushes? || m.CoprocFlushes?
    ensures Passed(Between(s, leg, channel), Between(After(link, s, m), leg, channel), [], [], [])
  {
    hide Passed, InFlight, HostUnpaid, CoprocUnpaid;
    var s' := After(link, s, m);
    if m.HostFlushes? && leg.ToCoproc? {
      HostPaysCredits(s.host.session, s.hostRx.pending, HostDue(s.hostRx, m.now), m.accepted, 3);
      Untouched(s, s', leg, HostFlush(s.host, s.hostRx, m.accepted, m.now).2, channel);
    } else if m.CoprocFlushes? && leg.ToHost? {
      CoprocPaysCredits(s.coproc.session, s.coprocRx.pending, m.accepted, 3);
      Untouched(s, s', leg, CoprocFlush(s.coproc, s.coprocRx, m.accepted).2, channel);
    } else {
      assert s.up + [] == s.up && s.down + [] == s.down;
      Untouched(s, s', leg, [], channel);
    }
  }

  lemma {:induction false} HostPaysCredits(session: uint32, pending: PerInterface, due: bool, accepted: InterfaceFlags,
                                           n: nat)
    requires n <= 3
    ensures NoData(HostPaid(session, pending, due, accepted, n))
    decreases n
  {
    if n > 0 {
      HostPaysCredits(session, pending, due, accepted, n - 1);
    }
  }

  lemma {:induction false} CoprocPaysCredits(session: uint32, pending: PerInterface, accepted: InterfaceFlags, n: nat)
    requires n <= 3
    ensures NoData(CoprocPaid(session, pending, accepted, n))
    decreases n
  {
    if n > 0 {
      CoprocPaysCredits(session, pending, accepted, n - 1);
    }
  }

  lemma SendPasses(link: Link, s: Sys, m: Move, leg: Leg, channel: byte)
    requires Flow(link, s)
    requires m.HostAdmits? || m.HostQueues? || m.HostWorks? || m.CoprocAdmits? || m.CoprocQueues? || m.CoprocWorks?
    ensures Passed(Between(s, leg, channel), Between(After(link, s, m), leg, channel),
                   Admits(link, s, m, leg, channel), [], Removes(link, s, m, leg, channel))
  {
    hide Passed, InFlight, Admit, Queue, Work, Backlog, Unsent, Taken, WireOk, JobsOk;
    match (leg, m)
    case (ToCoproc, HostAdmits(i, payload, alloc, locked)) =>
      AdmitPasses(link.host, s.host, s.up, i, payload, alloc, locked, channel);
    case (ToCoproc, HostQueues(id)) =>
      QueuePasses(link.host, s.host, s.up, id, channel);
      PassedUnchanged(Between(s, leg, channel));
    case (ToCoproc, HostWorks(canExpand, send)) => WorkPasses(link.host, s.host, s.up, canExpand, send, channel);
    case (ToHost, CoprocAdmits(i, payload, alloc)) =>
      AdmitPasses(link.coproc, s.coproc, s.down, i, payload, alloc, true, channel);
    case (ToHost, CoprocQueues(id)) =>
      QueuePasses(link.coproc, s.coproc, s.down, id, channel);
      PassedUnchanged(Between(s, leg, channel));
    case (ToHost, CoprocWorks(canExpand, send)) =>
      WorkPasses(link.coproc, s.coproc, s.down, canExpand, send, channel);
    case _ => PassedUnchanged(Between(s, leg, channel));
  }

  lemma StepPasses(link: Link, s: Sys, m: Move, leg: Leg, channel: byte)
    requires Balanced(link, s)
    ensures Passed(Between(s, leg, channel), Between(After(link, s, m), leg, channel), Admits(link, s, m, leg, channel),
                   Delivers(link, s, m, leg, channel), Removes(link, s, m, leg, channel))
  {
    hide Passed, InFlight, Flow, Law, Between;
    match m
    case CoprocTakes(a) => CoprocTakePasses(link, s, a, leg, channel);
    case HostTakes(now) => HostTakePasses(link, s, now, leg, channel);
    case UpDrops(_) => DropPasses(link, s, m, leg, channel);
    case DownDrops(_) => DropPasses(link, s, m, leg, channel);
    case HostFlushes(_, _) => FlushPasses(link, s, m, leg, channel);
    case CoprocFlushes(_) => FlushPasses(link, s, m, leg, channel);
    case HostSendsDone(_, _) => DonePasses(link, s, m, leg, channel);
    case CoprocSendsDone(_, _) => DonePasses(link, s, m, leg, channel);
    case BackendCompletes(_, _, _) => IdlePasses(link, s, m, leg, channel);
    case _ => SendPasses(link, s, m, leg, channel);
  }

  /** A completion queues at most a job without a record. */
  lemma DonePasses(link: Link, s: Sys, m: Move, leg: Leg, channel: byte)
    requires m.HostSendsDone? || m.CoprocSendsDone?
    ensures Passed(Between(s, leg, channel), Between(After(link, s, m), leg, channel), [], [], [])
  {
    hide Passed, InFlight, SendDone, Backlog;
    PassedUnchanged(Between(s, leg, channel));
    match m
    case HostSendsDone(k, status) =>
      if k < |s.hostOwned| {
        DoneKeeps(link.host, s.host, s.hostOwned[k], status, s.up, channel);
      }
    case CoprocSendsDone(k, status) =>
      if k < |s.coprocOwned| {
        DoneKeeps(link.coproc, s.coproc, s.coprocOwned[k], status, s.down, channel);
      }
  }

  lemma DoneKeeps(c: Config, t: Tx, frame: seq<byte>, status: int, w: seq<Slot>, channel: byte)
    ensures InFlight(w, Backlog(SendDone(c, t, frame, status)), channel) == InFlight(w, Backlog(t), channel)
  {
    QueuePasses(c, t, w, TRANSPORT_FAILED, channel);
    hide InFlight;
    assert Backlog(SendDone(c, t, frame, status)) == Backlog(t) ||
           Backlog(SendDone(c, t, frame, status)) == Backlog(Queue(c, t, TRANSPORT_FAILED));
  }

  lemma IdlePasses(link: Link, s: Sys, m: Move, leg: Leg, channel: byte)
    requires m.BackendCompletes?
    ensures Passed(Between(s, leg, channel), Between(After(link, s, m), leg, channel), [], [], [])
  {
    hide Passed, InFlight, RxComplete;
    assert s.up + [] == s.up && s.down + [] == s.down;
    Untouched(s, After(link, s, m), leg, [], channel);
  }

  // ---------------------------------------------------------------------------------------
  // Whole runs
  // ---------------------------------------------------------------------------------------

  ghost function Admitted(link: Link, s: Sys, moves: seq<Move>, leg: Leg, channel: byte): Packets
    decreases |moves|
  {
    if |moves| == 0 then []
    else Admits(link, s, moves[0], leg, channel) + Admitted(link, After(link, s, moves[0]), moves[1..], leg, channel)
  }

  ghost function Delivered(link: Link, s: Sys, moves: seq<Move>, leg: Leg, channel: byte): Packets
    decreases |moves|
  {
    if |moves| == 0 then []
    else Delivers(link, s, moves[0], leg, channel) + Delivered(link, After(link, s, moves[0]), moves[1..], leg, channel)
  }

  ghost function Removed(link: Link, s: Sys, moves: seq<Move>, leg: Leg, channel: byte): Packets
    decreases |moves|
  {
    if |moves| == 0 then []
    else Removes(link, s, moves[0], leg, channel) + Removed(link, After(link, s, moves[0]), moves[1..], leg, channel)
  }

  lemma {:induction false} RunPasses(link: Link, s: Sys, moves: seq<Move>, leg: Leg, channel: byte)
    requires Balanced(link, s)
    ensures Passed(Between(s, leg, channel), Between(Reached(link, s, moves), leg, channel),
                   Admitted(link, s, moves, leg, channel), Delivered(link, s, moves, leg, channel),
                   Removed(link, s, moves, leg, channel))
    decreases |moves|
  {
    hide Passed, Between, Balanced, After, Admits, Delivers, Removes;
    if |moves| == 0 {
      PassedUnchanged(Between(s, leg, channel));
    } else {
      var next := After(link, s, moves[0]);
      StepBalanced(link, s, moves[0]);
      StepPasses(link, s, moves[0], leg, channel);
      RunPasses(link, next, moves[1..], leg, channel);
      PassedThen(Between(s, leg, channel), Admits(link, s, moves[0], leg, channel),
                 Delivers(link, s, moves[0], leg, channel), Removes(link, s, moves[0], leg, channel),
                 Between(next, leg, channel), Admitted(link, next, moves[1..], leg, channel),
                 Delivered(link, next, moves[1..], leg, channel), Removed(link, next, moves[1..], leg, channel),
                 Between(Reached(link, s, moves), leg, channel));
    }
  }

  /** End to end, over every run of the session with its losses, refusals and merged frames: the
      packets delivered on a channel, then those on the wire and in the queue, are in order among
      the packets admitted, and those missing are exactly the packets of refused sends, of frames
      lost or beyond the receiver's limit, and of arrivals without a backend. */
  lemma DeliveredInOrder(link: Link, s: Sys, moves: seq<Move>, leg: Leg, channel: byte)
    requires Started(link, s)
    ensures var admitted := Between(s, leg, channel) + Admitted(link, s, moves, leg, channel);
            var reached := Delivered(link, s, moves, leg, channel) + Between(Reached(link, s, moves), leg, channel);
            && InOrder(reached, admitted)
            && multiset(admitted) == multiset(reached) + multiset(Removed(link, s, moves, leg, channel))
  {
    hide Between, Opened, Backlog, JobsOk, InOrder, Balanced;
    OpenedBalanced(link, s);
    RunPasses(link, s, moves, leg, channel);
  }

  /** Every packet admitted is delivered or still on its way, all of them in order, exactly when
      nothing was removed. */
  lemma DeliveredExactly(link: Link, s: Sys, moves: seq<Move>, leg: Leg, channel: byte)
    requires Started(link, s)
    ensures Delivered(link, s, moves, leg, channel) + Between(Reached(link, s, moves), leg, channel) ==
            Between(s, leg, channel) + Admitted(link, s, moves, leg, channel) <==>
            Removed(link, s, moves, leg, channel) == []
  {
    hide Between, Started, Admitted, Delivered, Removed, InOrder;
    DeliveredInOrder(link, s, moves, leg, channel);
    var admitted := Between(s, leg, channel) + Admitted(link, s, moves, leg, channel);
    var reached := Delivered(link, s, moves, leg, channel) + Between(Reached(link, s, moves), leg, channel);
    var removed := Removed(link, s, moves, leg, channel);
    assert |admitted| == |multiset(admitted)| == |reached| + |removed|;
    if removed == [] {
      InOrderWhole(reached, admitted);
    }
  }
}
