/** Aggregation against the sending of one record per frame, at the level of what goes out on the
    wire and is charged. */
module Refinement {
  import opened Bytes
  import opened Aggregation
  import opened LinkState
  import opened Wire
  import opened Transmit
  import CreditGate
  import FrameCodec
  import RawRecord

  /** The records a wire carries for one channel, in order. */
  ghost function Carried(w: seq<Slot>, channel: byte): seq<RawRecord.Record>
    decreases |w|
  {
    if |w| == 0 then []
    else (if w[0].Data? && ChannelOf(w[0].frame) == Some(channel) then Records(Contents(w[0].frame).value.1) else [])
         + Carried(w[1..], channel)
  }

  lemma {:induction false} CarriedConcat(a: seq<Slot>, b: seq<Slot>, channel: byte)
    ensures Carried(a + b, channel) == Carried(a, channel) + Carried(b, channel)
    decreases |a|
  {
    hide ChannelOf, Records, Contents;
    if |a| == 0 {
      assert a + b == b;
    } else {
      assert (a + b)[1..] == a[1..] + b;
      CarriedConcat(a[1..], b, channel);
    }
  }

  /** The same endpoint with aggregation off. */
  function Single(c: Config): Config {
    c.(mergeLimit := 1)
  }

  /** The simple worker: `n` iterations, each of which takes one job. */
  function Singly(c: Config, t: Tx, n: nat, send: Send): (Tx, seq<Slot>)
    decreases n
  {
    if n == 0 then (t, [])
    else
      var (t', _, out) := Work(Single(c), t, false, send);
      var (end, rest) := Singly(c, t', n - 1, send);
      (end, out + rest)
  }

  predicate Accepts(send: Send) {
    send.alloc && send.submit
  }

  predicate RecordFits(c: Config, job: Job) {
    job.EthernetTx? ==> FrameCodec.HEADER_SIZE + |job.record| <= c.maxFrame
  }

  /** How many of `n` records the simple worker gets out on a channel with this credit. */
  function Goes(credit: nat, n: nat, fits: bool, send: Send): nat {
    if !fits || !Accepts(send) then 0 else Min(credit, n)
  }

  // ---------------------------------------------------------------------------------------
  // One iteration of the simple worker
  // ---------------------------------------------------------------------------------------

  lemma OneTaken(c: Config, t: Tx)
    requires |Backlog(t)| > 0 && Backlog(t)[0].EthernetTx?
    ensures var (merged, b) := TakeBatch(Single(c), t, false);
            && b.units == 1 && b.payload == Backlog(t)[0].record && Backlog(merged) == Backlog(t)[1..]
  {
  }

  /** What one frame of the channel does to a sender: it goes out and is charged, or nothing
      happens. */
  lemma SendExactly(c: Config, t: Tx, channel: byte, payload: seq<byte>, units: nat, send: Send, of: byte)
    requires IsEthernet(channel) && Canonical(payload) && |Records(payload)| == units && units >= 1
    ensures var (t', outcome, out) := SendFrame(c, t, channel, payload, false, units, send);
            var goes := FrameCodec.HEADER_SIZE + |payload| <= c.maxFrame && Accepts(send) && units <= t.credit[channel];
            && (outcome.Done? <==> goes)
            && t'.credit == (if goes then t.credit[channel := t.credit[channel] - units] else t.credit)
            && t'.session == t.session && t'.queue == t.queue && t'.deferred == t.deferred && t'.queued == t.queued
            && Carried(out, of) == if goes && channel == of then Records(payload) else []
  {
    hide Canonical, Records, FrameCodec.Encode, FrameOk, ChannelOf, SequenceOf, UnitsOf, Contents;
    if FrameCodec.HEADER_SIZE + |payload| <= c.maxFrame {
      EncodedFrame(channel, t.session, t.sequence[channel], payload);
    }
    var out := SendFrame(c, t, channel, payload, false, units, send).2;
    if out != [] {
      assert out == [out[0]] && out[1..] == [];
      assert Carried(out[1..], of) == [];
    }
  }

  // ---------------------------------------------------------------------------------------
  // A batch against its records one by one
  // ---------------------------------------------------------------------------------------

  function Counted(c: Config, t: Tx, i: nat, n: nat): PerInterface
    requires i < 3
  {
    if c.side.HostSide? then t.queued[i := Less(t.queued[i], n)] else t.queued
  }

  lemma OneSingly(c: Config, t: Tx, send: Send, of: byte)
    requires JobsOk(Backlog(t)) && |Backlog(t)| > 0 && Backlog(t)[0].EthernetTx?
    ensures var job := Backlog(t)[0];
            var (t', _, out) := Work(Single(c), t, false, send);
            var k := Goes(t.credit[job.channel], 1, RecordFits(c, job), send);
            && Backlog(t') == Backlog(t)[1..] && t'.session == t.session
            && t'.credit == t.credit[job.channel := t.credit[job.channel] - k]
            && t'.queued == Counted(c, t, Index(job.channel), 1)
            && Carried(out, of) == if k == 1 && job.channel == of then Records(job.record) else []
  {
    hide Aggregate, SendFrame, Canonical, Records, Carried, WellFormed;
    var job := Backlog(t)[0];
    assert JobOk(job);
    OneTaken(c, t);
    var (merged, b) := TakeBatch(Single(c), t, false);
    OneRecord(job);
    SendExactly(Single(c), merged, job.channel, b.payload, 1, send, of);
    var t' := Work(Single(c), t, false, send).0;
    assert Backlog(t') == Backlog(merged);
  }

  lemma OneRecord(job: Job)
    requires JobOk(job) && job.EthernetTx?
    ensures Canonical(job.record) && |Records(job.record)| == 1 && IsEthernet(job.channel)
  {
  }

  lemma FrontRecords(jobs: seq<Job>, k: nat, channel: byte)
    requires JobsOk(jobs) && 1 <= k <= |jobs| && OneChannel(jobs[..k], channel)
    ensures Records(Joined(jobs[..k])) == Records(jobs[0].record) + Records(Joined(jobs[1..][..k - 1]))
  {
    hide Records, Canonical;
    FrontSplit(jobs, k);
    assert JobOk(jobs[0]) && jobs[..k][0] == jobs[0];
    OneRecord(jobs[0]);
    JoinedRecords(jobs[1..][..k - 1], channel);
    RecordsConcat(jobs[0].record, Joined(jobs[1..][..k - 1]));
  }

  /** The simple worker over one batch: the credit decides how far it gets. */
  lemma {:induction false} SinglyBatch(c: Config, t: Tx, n: nat, send: Send, channel: byte, fits: bool, of: byte)
    requires JobsOk(Backlog(t)) && n <= |Backlog(t)| && OneChannel(Backlog(t)[..n], channel)
    requires forall k :: 0 <= k < n ==> RecordFits(c, Backlog(t)[k]) == fits
    ensures var (t', out) := Singly(c, t, n, send);
            var k := Goes(t.credit[channel], n, fits, send);
            && Backlog(t') == Backlog(t)[n..] && t'.session == t.session
            && t'.credit == t.credit[channel := t.credit[channel] - k]
            && t'.queued == Counted(c, t, Index(channel), n)
            && Carried(out, of) == if channel == of then Records(Joined(Backlog(t)[..k])) else []
    decreases n
  {
    hide Work, Records, Canonical, JobOk, RecordFits, Carried, Backlog, Joined, Counted, Index;
    var jobs := Backlog(t);
    CountedSoFar(c, t, Index(channel));
    if n == 0 {
      NoneJoined(jobs);
      NothingCarried(of);
      assert t.credit[channel := t.credit[channel]] == t.credit;
    } else {
      assert jobs[0] == jobs[..n][0];
      OneSingly(c, t, send, of);
      var (t', _, out) := Work(Single(c), t, false, send);
      FrontSplit(jobs, n);
      CountedThen(c, t, t', Index(channel), n);
      SinglyBatch(c, t', n - 1, send, channel, fits, of);
      CarriedConcat(out, Singly(c, t', n - 1, send).1, of);
      var k := Goes(t.credit[channel], n, fits, send);
      if k > 0 {
        assert jobs[..k] == jobs[..n][..k];
        FrontRecords(jobs, k, channel);
      } else {
        NoneJoined(jobs);
        NoneJoined(jobs[1..]);
      }
    }
  }

  lemma CountedSoFar(c: Config, t: Tx, i: nat)
    requires i < 3
    ensures Counted(c, t, i, 0) == t.queued
  {
    assert t.queued[i := t.queued[i]] == t.queued;
  }

  lemma CountedThen(c: Config, t: Tx, t': Tx, i: nat, n: nat)
    requires i < 3 && n > 0 && t'.queued == Counted(c, t, i, 1)
    ensures Counted(c, t', i, n - 1) == Counted(c, t, i, n)
  {
  }

  lemma NothingCarried(of: byte)
    ensures Carried([], of) == []
  {
  }

  /** The batch an iteration takes. */
  lemma BatchTaken(c: Config, t: Tx, canExpand: bool)
    requires JobsOk(Backlog(t)) && |Backlog(t)| > 0 && Backlog(t)[0].EthernetTx?
    ensures var (channel, n) := Attempt(c, t, canExpand);
            var (merged, b) := TakeBatch(c, t, canExpand);
            var fits := RecordFits(c, Backlog(t)[0]);
            && 1 <= n == b.units <= |Backlog(t)| && OneChannel(Backlog(t)[..n], channel) && IsEthernet(channel)
            && (forall k :: 0 <= k < n ==> RecordFits(c, Backlog(t)[k]) == fits) && (!fits ==> n == 1)
            && b.payload == Joined(Backlog(t)[..n]) && (fits <==> FrameCodec.HEADER_SIZE + |b.payload| <= c.maxFrame)
            && Canonical(b.payload) && |Records(b.payload)| == n
            && Backlog(merged) == Backlog(t)[n..] && JobsOk(Backlog(merged))
            && merged == t.(queue := merged.queue, deferred := merged.deferred, slots := merged.slots,
                            queued := Counted(c, t, Index(channel), n))
  {
    hide Gather, Canonical, Records, WellFormed, Stopped, Joined, RecordFits;
    var jobs := Backlog(t);
    var channel := jobs[0].channel;
    assert JobOk(jobs[0]);
    var m := MergeOf(c, canExpand);
    assert [jobs[0]] + jobs[1..] == jobs;
    AggregateTakesFront(m, jobs[0], jobs[1..]);
    BatchKeeps(m, jobs);
    var (merged, b) := TakeBatch(c, t, canExpand);
    GatherPayload(m, channel, jobs[0].record, |jobs[0].record|, 1, jobs[1..]);
    BatchFits(c, jobs, b.units, channel, b.payload);
  }

  /** The merging worker over one batch: all of it or nothing. */
  lemma MergedBatch(c: Config, t: Tx, canExpand: bool, send: Send, of: byte)
    requires JobsOk(Backlog(t)) && |Backlog(t)| > 0 && Backlog(t)[0].EthernetTx?
    ensures var (channel, n) := Attempt(c, t, canExpand);
            var (t', outcome, out) := Work(c, t, canExpand, send);
            var fits := RecordFits(c, Backlog(t)[0]);
            var goes := fits && Accepts(send) && n <= t.credit[channel];
            && 1 <= n <= |Backlog(t)| && OneChannel(Backlog(t)[..n], channel)
            && (forall k :: 0 <= k < n ==> RecordFits(c, Backlog(t)[k]) == fits) && (!fits ==> n == 1)
            && Backlog(t') == Backlog(t)[n..] && JobsOk(Backlog(t')) && t'.session == t.session
            && t'.credit == (if goes then t.credit[channel := t.credit[channel] - n] else t.credit)
            && t'.queued == Counted(c, t, Index(channel), n)
            && (outcome.Done? <==> goes)
            && Carried(out, of) == if goes && channel == of then Records(Joined(Backlog(t)[..n])) else []
  {
    hide TakeBatch, Attempt, SendFrame, Canonical, Records, Carried, JobOk, Joined, RecordFits;
    BatchTaken(c, t, canExpand);
    var (channel, n) := Attempt(c, t, canExpand);
    FrontOf(c, t, canExpand);
    var (merged, b) := TakeBatch(c, t, canExpand);
    SendExactly(c, merged, channel, b.payload, n, send, of);
    var t' := Work(c, t, canExpand, send).0;
    assert Backlog(t') == Backlog(merged);
  }

  lemma FrontOf(c: Config, t: Tx, canExpand: bool)
    requires |Backlog(t)| > 0 && Backlog(t)[0].EthernetTx?
    ensures Attempt(c, t, canExpand).0 == Backlog(t)[0].channel
  {
  }

  /** A payload of several records fits only if each does; merging never makes one that does not. */
  lemma BatchFits(c: Config, jobs: seq<Job>, n: nat, channel: byte, payload: seq<byte>)
    requires 1 <= n <= |jobs| && OneChannel(jobs[..n], channel) && payload == Joined(jobs[..n])
    requires |payload| <= (if |jobs[0].record| > c.maxFrame - FrameCodec.HEADER_SIZE
                           then |jobs[0].record| else c.maxFrame - FrameCodec.HEADER_SIZE)
    requires n > 1 ==> |payload| <= c.maxFrame - FrameCodec.HEADER_SIZE
    ensures var fits := RecordFits(c, jobs[0]);
            && (forall k :: 0 <= k < n ==> RecordFits(c, jobs[k]) == fits)
            && (fits <==> FrameCodec.HEADER_SIZE + |payload| <= c.maxFrame) && (!fits ==> n == 1)
  {
    assert jobs[..n][0] == jobs[0];
    if n == 1 {
      assert jobs[..1] == [jobs[0]] && [jobs[0]][1..] == [];
      assert Joined([jobs[0]]) == jobs[0].record + Joined([]);
    } else {
      forall k | 0 <= k < n
        ensures RecordFits(c, jobs[k])
      {
        assert jobs[..n][k] == jobs[k];
        PartOfJoined(jobs[..n], k);
      }
    }
  }

  lemma {:induction false} PartOfJoined(jobs: seq<Job>, k: nat)
    requires k < |jobs| && jobs[k].EthernetTx?
    ensures |jobs[k].record| <= |Joined(jobs)|
    decreases |jobs|
  {
    if k > 0 {
      PartOfJoined(jobs[1..], k - 1);
    }
  }

  // ---------------------------------------------------------------------------------------
  // When they agree
  // ---------------------------------------------------------------------------------------

  /** What the code could check before it sends: the batch is within the credit held. Without any
      credit, or when the allocator or the transport refuses, neither worker gets a record out. */
  predicate Covered(c: Config, t: Tx, canExpand: bool, send: Send) {
    |Backlog(t)| > 0 && Backlog(t)[0].EthernetTx? && Accepts(send) ==>
      var (channel, n) := Attempt(c, t, canExpand); t.credit[channel] == 0 || n <= t.credit[channel]
  }

  /** Two senders with the same jobs, counters and credit. Their slots, sequence numbers and the
      split between deferred slot and queue may differ. */
  predicate Aligned(t: Tx, s: Tx) {
    t.session == s.session && t.credit == s.credit && t.queued == s.queued && Backlog(t) == Backlog(s)
  }

  ghost predicate SameOut(a: seq<Slot>, b: seq<Slot>) {
    forall of: byte :: Carried(a, of) == Carried(b, of)
  }

  /** One batch refines its records sent singly exactly when it is covered: the same records go out
      on every channel and the same credit is charged. The jobs taken and the queued counters agree
      in any case. */
  lemma BatchRefinesExactly(c: Config, t: Tx, s: Tx, canExpand: bool, send: Send)
    requires Aligned(t, s) && JobsOk(Backlog(t)) && |Backlog(t)| > 0 && Backlog(t)[0].EthernetTx?
    ensures var (t1, _, out1) := Work(c, t, canExpand, send);
            var (t2, out2) := Singly(c, s, Attempt(c, t, canExpand).1, send);
            && Backlog(t1) == Backlog(t2) && t1.queued == t2.queued && t1.session == t2.session && JobsOk(Backlog(t1))
            && (t1.credit == t2.credit && SameOut(out1, out2) <==> Covered(c, t, canExpand, send))
            && (t1.credit == t2.credit <==> Covered(c, t, canExpand, send))
  {
    hide Work, Singly, Attempt, Records, Canonical, Carried, JobOk, RecordFits, Joined;
    var (channel, n) := Attempt(c, t, canExpand);
    var (t1, _, out1) := Work(c, t, canExpand, send);
    var (t2, out2) := Singly(c, s, n, send);
    var fits := RecordFits(c, Backlog(t)[0]);
    MergedBatch(c, t, canExpand, send, STA);
    SinglyBatch(c, s, n, send, channel, fits, STA);
    var k := Goes(t.credit[channel], n, fits, send);
    assert t2.credit[channel] == t.credit[channel] - k;
    if Covered(c, t, canExpand, send) {
      forall of: byte
        ensures Carried(out1, of) == Carried(out2, of)
      {
        MergedBatch(c, t, canExpand, send, of);
        SinglyBatch(c, s, n, send, channel, fits, of);
        NoneJoined(Backlog(t));
      }
      assert t.credit[channel := t.credit[channel]] == t.credit;
    }
  }

  lemma NoneJoined(jobs: seq<Job>)
    ensures Records(Joined(jobs[..0])) == []
  {
    EmptyRecords();
  }

  // ---------------------------------------------------------------------------------------
  // Runs
  // ---------------------------------------------------------------------------------------

  /** What happens to a sender: an iteration, a CreditUpdate, or a record offered when there is room
      for it. */
  datatype Turn =
    | Works(canExpand: bool, send: Send)
    | Refills(interface: nat, units: uint32)
    | Offers(interface: nat, payload: seq<byte>)

  function Refilled(c: Config, t: Tx, channel: byte, units: uint32): Tx {
    match CreditGate.Credited(c.side, t.credit[channel], units)
    case None => t
    case Some(credit) => t.(credit := t.credit[channel := credit])
  }

  function Offered(c: Config, t: Tx, channel: byte, payload: seq<byte>): Tx {
    var (t', outcome) :=
      AdmitRecord(c.(queueDepth := |t.queue| + 1), t.(slots := t.slots + 1), channel, payload, true, true);
    if outcome.Done? then t' else t
  }

  function Merging(c: Config, t: Tx, turn: Turn): (Tx, seq<Slot>) {
    match turn
    case Works(canExpand, send) => var (t', _, out) := Work(c, t, canExpand, send); (t', out)
    case Refills(i, units) => (Refilled(c, t, ChannelAt(i), units), [])
    case Offers(i, payload) => (Offered(c, t, ChannelAt(i), payload), [])
  }

  /** The simple worker takes the jobs that the merging one, in state `t`, takes in one turn. */
  function Simple(c: Config, t: Tx, s: Tx, turn: Turn): (Tx, seq<Slot>) {
    match turn
    case Works(canExpand, send) => Singly(c, s, if |Backlog(t)| == 0 then 0 else Attempt(c, t, canExpand).1, send)
    case Refills(i, units) => (Refilled(c, s, ChannelAt(i), units), [])
    case Offers(i, payload) => (Offered(c, s, ChannelAt(i), payload), [])
  }

  /** After every turn both have the same credit and have put the same records out. */
  ghost predicate Agree(c: Config, t: Tx, s: Tx, turns: seq<Turn>)
    decreases |turns|
  {
    |turns| > 0 ==>
      var (t', out1), (s', out2) := Merging(c, t, turns[0]), Simple(c, t, s, turns[0]);
      t'.credit == s'.credit && SameOut(out1, out2) && Agree(c, t', s', turns[1..])
  }

  predicate CoveredTurn(c: Config, t: Tx, turn: Turn) {
    turn.Works? ==> Covered(c, t, turn.canExpand, turn.send)
  }

  predicate AllCovered(c: Config, t: Tx, turns: seq<Turn>)
    decreases |turns|
  {
    |turns| > 0 ==> CoveredTurn(c, t, turns[0]) && AllCovered(c, Merging(c, t, turns[0]).0, turns[1..])
  }

  lemma OtherTurn(c: Config, t: Tx, s: Tx, canExpand: bool, send: Send)
    requires Aligned(t, s) && JobsOk(Backlog(t)) && |Backlog(t)| > 0 && Backlog(t)[0].Other?
    ensures var (t', out1) := Merging(c, t, Works(canExpand, send));
            var (s', out2) := Simple(c, t, s, Works(canExpand, send));
            Aligned(t', s') && JobsOk(Backlog(t')) && out1 == out2 == []
  {
    hide JobOk;
    var (s', _, out) := Work(Single(c), s, false, send);
    assert Singly(c, s, 1, send) == (s', out + []);
    assert out + [] == [];
    assert Backlog(s') == Backlog(s)[1..];
    assert Backlog(Work(c, t, canExpand, send).0) == Backlog(t)[1..];
  }

  lemma OfferTurn(c: Config, t: Tx, s: Tx, i: nat, payload: seq<byte>)
    requires Aligned(t, s) && JobsOk(Backlog(t))
    ensures Aligned(Offered(c, t, ChannelAt(i), payload), Offered(c, s, ChannelAt(i), payload))
    ensures JobsOk(Backlog(Offered(c, t, ChannelAt(i), payload)))
    ensures c.side.HostSide? && Reserved(t) ==> Reserved(Offered(c, t, ChannelAt(i), payload))
  {
    hide JobsOk;
    var channel := ChannelAt(i);
    AdmitKeeps(c.(queueDepth := |t.queue| + 1), t.(slots := t.slots + 1), channel, payload, true, true, 0);
    assert Backlog(t.(slots := t.slots + 1)) == Backlog(t);
    OfferAppends(c, t, channel, payload);
    OfferAppends(c, s, channel, payload);
  }

  lemma OfferAppends(c: Config, t: Tx, channel: byte, payload: seq<byte>)
    ensures var t' := Offered(c, t, channel, payload);
            if Admissible(c.side, |payload|) && (c.side.HostSide? ==> t.credit[channel] > t.queued[Index(channel)])
            then
              && Backlog(t') == Backlog(t) + [EthernetTx(channel, RawRecord.Header(1, 0, |payload|) + payload)]
              && t' == t.(queue := t'.queue, queued := t'.queued)
              && t'.queued == (if c.side.HostSide?
                               then t.queued[Index(channel) := Wrap32(t.queued[Index(channel)] + 1)] else t.queued)
            else t' == t
  {
  }

  lemma TurnAgrees(c: Config, t: Tx, s: Tx, turn: Turn)
    requires Aligned(t, s) && JobsOk(Backlog(t))
    ensures var (t', out1), (s', out2) := Merging(c, t, turn), Simple(c, t, s, turn);
            && JobsOk(Backlog(t'))
            && (CoveredTurn(c, t, turn) ==> Aligned(t', s') && SameOut(out1, out2))
            && (!CoveredTurn(c, t, turn) ==> t'.credit != s'.credit)
  {
    hide Work, Singly, Attempt, Carried, JobsOk, AdmitRecord, Backlog, Offered, Aggregate;
    match turn
    case Works(canExpand, send) =>
      if |Backlog(t)| == 0 {
        IdleTurn(c, t, s, canExpand, send);
      } else if Backlog(t)[0].Other? {
        OtherTurn(c, t, s, canExpand, send);
      } else {
        BatchRefinesExactly(c, t, s, canExpand, send);
      }
    case Refills(i, units) =>
      SameBacklog(c, t, ChannelAt(i), units);
      SameBacklog(c, s, ChannelAt(i), units);
    case Offers(i, payload) => OfferTurn(c, t, s, i, payload);
  }

  lemma IdleTurn(c: Config, t: Tx, s: Tx, canExpand: bool, send: Send)
    requires |Backlog(t)| == 0
    ensures Merging(c, t, Works(canExpand, send)) == (t, [])
    ensures Simple(c, t, s, Works(canExpand, send)) == (s, [])
  {
  }

  lemma SameBacklog(c: Config, t: Tx, channel: byte, units: uint32)
    ensures Backlog(Refilled(c, t, channel, units)) == Backlog(t)
    ensures Reserved(t) ==> Reserved(Refilled(c, t, channel, units))
  {
  }

  /** Over every run of iterations, CreditUpdates and admissions, the merging worker and the simple
      one agree at every turn if and only if every batch is covered. */
  lemma {:induction false} AggregationRefinesExactly(c: Config, t: Tx, s: Tx, turns: seq<Turn>)
    requires Aligned(t, s) && JobsOk(Backlog(t))
    ensures Agree(c, t, s, turns) <==> AllCovered(c, t, turns)
    decreases |turns|
  {
    hide Merging, Simple, SameOut, CoveredTurn, JobsOk, Aligned;
    if |turns| > 0 {
      TurnAgrees(c, t, s, turns[0]);
      var t', s' := Merging(c, t, turns[0]).0, Simple(c, t, s, turns[0]).0;
      assert Aligned(t', s') ==> t'.credit == s'.credit by { AlignedCredit(t', s'); }
      if CoveredTurn(c, t, turns[0]) {
        AggregationRefinesExactly(c, t', s', turns[1..]);
      }
    }
  }

  /** Everything the two put on the wire over a run. */
  function MergedOut(c: Config, t: Tx, turns: seq<Turn>): seq<Slot>
    decreases |turns|
  {
    if |turns| == 0 then []
    else var (t', out) := Merging(c, t, turns[0]); out + MergedOut(c, t', turns[1..])
  }

  function SimpleOut(c: Config, t: Tx, s: Tx, turns: seq<Turn>): seq<Slot>
    decreases |turns|
  {
    if |turns| == 0 then []
    else
      var (s', out) := Simple(c, t, s, turns[0]);
      out + SimpleOut(c, Merging(c, t, turns[0]).0, s', turns[1..])
  }

  /** With every batch covered, the wires carry the same record stream on every channel. */
  lemma {:induction false} SameStreams(c: Config, t: Tx, s: Tx, turns: seq<Turn>, of: byte)
    requires Aligned(t, s) && JobsOk(Backlog(t)) && AllCovered(c, t, turns)
    ensures Carried(MergedOut(c, t, turns), of) == Carried(SimpleOut(c, t, s, turns), of)
    decreases |turns|
  {
    hide Merging, Simple, CoveredTurn, JobsOk, Aligned, Carried;
    if |turns| > 0 {
      TurnAgrees(c, t, s, turns[0]);
      var (t', out1) := Merging(c, t, turns[0]);
      var (s', out2) := Simple(c, t, s, turns[0]);
      SameStreams(c, t', s', turns[1..], of);
      CarriedConcat(out1, MergedOut(c, t', turns[1..]), of);
      CarriedConcat(out2, SimpleOut(c, t', s', turns[1..]), of);
    }
  }

  lemma AlignedCredit(t: Tx, s: Tx)
    ensures Aligned(t, s) ==> t.credit == s.credit
  {
  }

  // ---------------------------------------------------------------------------------------
  // The Host
  // ---------------------------------------------------------------------------------------

  lemma HostCovered(c: Config, t: Tx, turn: Turn)
    requires c.side.HostSide? && JobsOk(Backlog(t)) && Reserved(t)
    ensures CoveredTurn(c, t, turn) && Reserved(Merging(c, t, turn).0) && JobsOk(Backlog(Merging(c, t, turn).0))
  {
    hide Work, JobsOk, Aggregate, Offered, Count, Sent, Canonical, Records;
    match turn
    case Works(canExpand, send) =>
      WorkKeeps(c, t, canExpand, send, 0);
      if |Backlog(t)| > 0 && Backlog(t)[0].EthernetTx? {
        TakeBatchKeeps(c, t, canExpand, 0);
        FirstIsEthernet(Backlog(t));
      }
    case Refills(i, units) => SameBacklog(c, t, ChannelAt(i), units);
    case Offers(i, payload) => OfferTurn(c, t, t, i, payload);
  }

  lemma FirstIsEthernet(jobs: seq<Job>)
    requires JobsOk(jobs) && |jobs| > 0 && jobs[0].EthernetTx?
    ensures ChannelAt(Index(jobs[0].channel)) == jobs[0].channel
  {
  }

  /** On the Host the reservation covers every batch, so merging refines one record per frame in
      every run. */
  lemma {:induction false} HostAggregationRefines(c: Config, t: Tx, turns: seq<Turn>)
    requires c.side.HostSide? && JobsOk(Backlog(t)) && Reserved(t)
    ensures AllCovered(c, t, turns)
    decreases |turns|
  {
    hide Merging, CoveredTurn, JobsOk, Reserved;
    if |turns| > 0 {
      HostCovered(c, t, turns[0]);
      HostAggregationRefines(c, Merging(c, t, turns[0]).0, turns[1..]);
    }
  }

  // ---------------------------------------------------------------------------------------
  // The Coprocessor
  // ---------------------------------------------------------------------------------------

  /** A batch that exceeds the credit left is dropped whole, where one record per frame would have
      got out as many as there is credit for. */
  lemma UncoveredBatchDropped(c: Config, t: Tx, canExpand: bool, send: Send)
    requires JobsOk(Backlog(t)) && !Covered(c, t, canExpand, send)
    ensures var (channel, n) := Attempt(c, t, canExpand);
            var credit := t.credit[channel];
            && 0 < credit < n <= |Backlog(t)|
            && Work(c, t, canExpand, send).2 == []
            && Backlog(Work(c, t, canExpand, send).0) == Backlog(t)[n..]
            && Carried(Singly(c, t, n, send).1, channel) == Records(Joined(Backlog(t)[..credit]))
  {
    hide Work, Singly, Attempt, Records, Canonical, Carried, JobOk, RecordFits, Joined, Sent;
    var (channel, n) := Attempt(c, t, canExpand);
    MergedBatch(c, t, canExpand, send, channel);
    SinglyBatch(c, t, n, send, channel, RecordFits(c, Backlog(t)[0]), channel);
    WorkKeeps(c, t, canExpand, send, 0);
    UnchargedSendsNothing(c, t, canExpand, send);
  }

  lemma UnchargedSendsNothing(c: Config, t: Tx, canExpand: bool, send: Send)
    ensures !Work(c, t, canExpand, send).1.Done? ==> Work(c, t, canExpand, send).2 == []
  {
    hide FrameCodec.Encode, Aggregate;
  }
}
