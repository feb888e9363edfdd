/** What the transmit half keeps: admitted jobs stay inside the credit they were admitted
    against, Ethernet slots are conserved, and every frame charges the units it carries. */
module Transmit {
  import opened Bytes
  import opened Aggregation
  import opened LinkState
  import opened Wire
  import FrameCodec
  import RawRecord

  /** Ethernet jobs of one interface, and of all of them. */
  function Count(jobs: seq<Job>, i: nat): nat {
    if |jobs| == 0 then 0
    else (if jobs[0].EthernetTx? && Index(jobs[0].channel) == i then 1 else 0) + Count(jobs[1..], i)
  }

  function Total(jobs: seq<Job>): nat {
    if |jobs| == 0 then 0 else (if jobs[0].EthernetTx? then 1 else 0) + Total(jobs[1..])
  }

  ghost predicate JobOk(job: Job) {
    WellFormed(job) && (job.EthernetTx? ==> IsEthernet(job.channel))
  }

  ghost predicate JobsOk(jobs: seq<Job>) {
    forall k :: 0 <= k < |jobs| ==> JobOk(jobs[k])
  }

  lemma {:induction false} CountConcat(a: seq<Job>, b: seq<Job>, i: nat)
    ensures Count(a + b, i) == Count(a, i) + Count(b, i) && Total(a + b) == Total(a) + Total(b)
    decreases |a|
  {
    if |a| == 0 {
      assert a + b == b;
    } else {
      assert (a + b)[1..] == a[1..] + b;
      CountConcat(a[1..], b, i);
    }
  }

  lemma {:induction false} CountOneChannel(jobs: seq<Job>, channel: byte, i: nat)
    requires OneChannel(jobs, channel)
    ensures Count(jobs, i) == (if Index(channel) == i then |jobs| else 0) && Total(jobs) == |jobs|
    decreases |jobs|
  {
    if |jobs| > 0 {
      CountOneChannel(jobs[1..], channel, i);
    }
  }

  /** Interface counters equal to the jobs waiting. */
  ghost predicate Tallied(t: Tx) {
    forall i :: 0 <= i < 3 ==> t.queued[i] == Count(Backlog(t), i)
  }

  /** And each within its channel's credit. */
  ghost predicate Reserved(t: Tx) {
    Tallied(t) && forall i :: 0 <= i < 3 ==> t.queued[i] <= t.credit[ChannelAt(i)]
  }

  /** Free slots, jobs waiting and frames with the transport make up the configured depth. */
  ghost predicate SlotsKept(c: Config, t: Tx, owned: nat) {
    t.slots + Total(Backlog(t)) + owned == c.slotDepth
  }

  // ---------------------------------------------------------------------------------------
  // Admission
  // ---------------------------------------------------------------------------------------

  lemma RecordJobOk(channel: byte, payload: seq<byte>)
    requires IsEthernet(channel) && |payload| <= UINT32_MAX
    ensures JobOk(EthernetTx(channel, RawRecord.Header(1, 0, |payload|) + payload))
  {
    var r := RawRecord.Record(1, 0, payload);
    RawRecord.EncodeAllOne(r);
    CanonicalOfEncoded([r]);
  }

  lemma CountMore(jobs: seq<Job>, channel: byte, record: seq<byte>)
    ensures var more := jobs + [EthernetTx(channel, record)];
            && Total(more) == Total(jobs) + 1
            && forall i :: 0 <= i < 3 ==> Count(more, i) == Count(jobs, i) + (if Index(channel) == i then 1 else 0)
  {
    var job := EthernetTx(channel, record);
    assert [job][1..] == [];
    CountConcat(jobs, [job], 0);
    forall i | 0 <= i < 3
      ensures Count(jobs + [job], i) == Count(jobs, i) + (if Index(channel) == i then 1 else 0)
    {
      CountConcat(jobs, [job], i);
    }
  }

  /** An admitted record keeps the reservation and moves one slot from free to waiting; a refused
      one leaves everything as it was. */
  lemma AdmitKeeps(c: Config, t: Tx, channel: byte, payload: seq<byte>, alloc: bool, locked: bool, owned: nat)
    requires IsEthernet(channel) && JobsOk(Backlog(t))
    ensures var (t', outcome) := AdmitRecord(c, t, channel, payload, alloc, locked);
            && JobsOk(Backlog(t'))
            && t'.session == t.session && t'.credit == t.credit && t'.sequence == t.sequence
            && (c.side.HostSide? && Tallied(t) ==> Tallied(t'))
            && (c.side.HostSide? && Reserved(t) ==> Reserved(t'))
            && (SlotsKept(c, t, owned) ==> SlotsKept(c, t', owned))
            && (outcome.Done? <==> t' != t)
            && (outcome.Done? ==> |Backlog(t')| == |Backlog(t)| + 1)
  {
    hide WellFormed, Count, Total;
    var (t', outcome) := AdmitRecord(c, t, channel, payload, alloc, locked);
    if outcome.Done? {
      var record := RawRecord.Header(1, 0, |payload|) + payload;
      RecordJobOk(channel, payload);
      CountMore(Backlog(t), channel, record);
      assert Backlog(t') == Backlog(t) + [EthernetTx(channel, record)];
      assert ChannelAt(Index(channel)) == channel;
    }
  }

  lemma CountOther(jobs: seq<Job>, id: nat)
    ensures var more := jobs + [Other(id)];
            && Total(more) == Total(jobs)
            && (JobsOk(jobs) ==> JobsOk(more))
            && forall i :: 0 <= i < 3 ==> Count(more, i) == Count(jobs, i)
  {
    hide Canonical, Records;
    assert [Other(id)][1..] == [];
    CountConcat(jobs, [Other(id)], 0);
    forall i | 0 <= i < 3
      ensures Count(jobs + [Other(id)], i) == Count(jobs, i)
    {
      CountConcat(jobs, [Other(id)], i);
    }
  }

  // ---------------------------------------------------------------------------------------
  // Completion
  // ---------------------------------------------------------------------------------------

  /** Whatever the status, completing an Ethernet frame moves one slot from the transport back to the
      free ones, and completing any other frame moves none. A job is queued exactly when the failure
      counts, as a cancelled frame of the Coprocessor does not, and there is room. Nothing else of
      the endpoint changes. */
  lemma CompletionKeeps(c: Config, t: Tx, frame: seq<byte>, status: int, owned: nat)
    requires JobsOk(Backlog(t))
    ensures var t' := SendDone(c, t, frame, status);
            var ethernet := |frame| >= 24 && (frame[4] == 2 || frame[4] == 3 || frame[4] == 10);
            var told := status != 0 && !(c.side.CoprocSide? && status == 1) && |t.queue| < c.queueDepth;
            && (ethernet ==> (SlotsKept(c, t', owned) <==> SlotsKept(c, t, owned + 1)))
            && t'.slots == t.slots + (if ethernet then 1 else 0)
            && Backlog(t') == Backlog(t) + (if told then [Other(TRANSPORT_FAILED)] else [])
            && t' == t.(slots := t'.slots, queue := t'.queue)
            && JobsOk(Backlog(t'))
            && (Tallied(t) ==> Tallied(t')) && (Reserved(t) ==> Reserved(t'))
  {
    hide JobsOk, Count, Total;
    CountOther(Backlog(t), TRANSPORT_FAILED);
    assert Deferred(t.deferred) + (t.queue + [Other(TRANSPORT_FAILED)]) == Backlog(t) + [Other(TRANSPORT_FAILED)];
  }

  // ---------------------------------------------------------------------------------------
  // One worker iteration
  // ---------------------------------------------------------------------------------------

  /** `out` is either nothing, or one frame of `channel` whose units were charged. */
  ghost predicate Sent(c: Config, t: Tx, t': Tx, out: seq<Slot>, channel: byte, units: nat)
  {
    if out == [] then t'.credit == t.credit && t'.sequence == t.sequence
    else
      && |out| == 1 && out[0].Data? && IsEthernet(channel)
      && FrameOk(out[0].frame, t.session) && |out[0].frame| <= c.maxFrame
      && ChannelOf(out[0].frame) == Some(channel)
      && SequenceOf(out[0].frame) == t.sequence[channel]
      && UnitsOf(out[0].frame) == units
      && 1 <= units <= t.credit[channel]
      && t'.credit == t.credit[channel := t.credit[channel] - units]
      && t'.sequence == t.sequence[channel := Wrap32(t.sequence[channel] as int + 1)]
  }

  lemma SendKeeps(c: Config, t: Tx, channel: byte, payload: seq<byte>, units: nat, env: Send)
    requires IsEthernet(channel)
    requires Canonical(payload) && |Records(payload)| == units && units >= 1
    ensures var (t', outcome, out) := SendFrame(c, t, channel, payload, false, units, env);
            && Sent(c, t, t', out, channel, units)
            && t' == t.(credit := t'.credit, sequence := t'.sequence, congested := t'.congested)
            && (outcome.Done? <==> out != [])
            && (outcome.NoCredit? ==> t.credit[channel] < units)
            && (t'.congested != t.congested ==> outcome.NoCredit?)
  {
    hide Canonical, Records, FrameCodec.Encode, FrameOk, ChannelOf, SequenceOf, UnitsOf;
    if FrameCodec.HEADER_SIZE + |payload| <= c.maxFrame {
      EncodedFrame(channel, t.session, t.sequence[channel], payload);
    }
  }

  lemma CountFront(jobs: seq<Job>, n: nat, channel: byte)
    requires n <= |jobs| && OneChannel(jobs[..n], channel)
    ensures Total(jobs) == n + Total(jobs[n..])
    ensures forall i :: 0 <= i < 3 ==>
              Count(jobs, i) == (if Index(channel) == i then n else 0) + Count(jobs[n..], i)
  {
    assert jobs[..n] + jobs[n..] == jobs;
    CountConcat(jobs[..n], jobs[n..], 0);
    CountOneChannel(jobs[..n], channel, 0);
    forall i | 0 <= i < 3
      ensures Count(jobs, i) == (if Index(channel) == i then n else 0) + Count(jobs[n..], i)
    {
      CountConcat(jobs[..n], jobs[n..], i);
      CountOneChannel(jobs[..n], channel, i);
    }
  }

  /** Of the waiting jobs, the batch takes the front; its payload parses to its units. */
  lemma BatchKeeps(m: Merge, waiting: seq<Job>)
    requires |waiting| > 0 && waiting[0].EthernetTx? && JobsOk(waiting)
    ensures var b := Aggregate(m, waiting[0], waiting[1..]);
            && b.units <= |waiting|
            && Deferred(b.deferred) + b.queue == waiting[b.units..]
            && JobsOk(waiting[b.units..])
            && Canonical(b.payload) && |Records(b.payload)| == b.units
            && Total(waiting) == b.units + Total(waiting[b.units..])
            && forall i :: 0 <= i < 3 ==>
                 Count(waiting, i) == (if Index(waiting[0].channel) == i then b.units else 0)
                                      + Count(waiting[b.units..], i)
  {
    hide Aggregate, Canonical, Records, Count, Total, WellFormed, Stopped;
    var job := waiting[0];
    var b := Aggregate(m, job, waiting[1..]);
    assert [job] + waiting[1..] == waiting;
    AggregateTakesFront(m, job, waiting[1..]);
    JoinedRecords(waiting[..b.units], job.channel);
    CountFront(waiting, b.units, job.channel);
  }

  /** The channel and the units of the frame an iteration would send. */
  function Attempt(c: Config, t: Tx, canExpand: bool): (byte, nat)
  {
    if |Backlog(t)| > 0 && Backlog(t)[0].EthernetTx?
    then (Backlog(t)[0].channel, Aggregate(MergeOf(c, canExpand), Backlog(t)[0], Backlog(t)[1..]).units)
    else (STA, 1)
  }

  /** Over an iteration: what is sent is charged exactly, jobs are taken off the front, the slot
      law holds with the new frame in the transport's hands, and on the Host the reservation
      holds and the frame is never refused for lack of credit. */
  lemma WorkKeeps(c: Config, t: Tx, canExpand: bool, env: Send, owned: nat)
    requires JobsOk(Backlog(t))
    ensures var (t', outcome, out) := Work(c, t, canExpand, env);
            var (channel, units) := Attempt(c, t, canExpand);
            && JobsOk(Backlog(t')) && t'.session == t.session
            && Sent(c, t, t', out, channel, units)
            && (SlotsKept(c, t, owned) ==> SlotsKept(c, t', owned + |out|))
            && (c.side.HostSide? && Tallied(t) ==> Tallied(t'))
            && (c.side.HostSide? && Reserved(t) ==>
                  Reserved(t') && !outcome.NoCredit? && t'.congested == t.congested)
  {
    hide Aggregate, SendFrame, Canonical, Records, FrameOk, ChannelOf, SequenceOf, UnitsOf;
    var waiting := Backlog(t);
    if |waiting| > 0 {
      if waiting[0].Other? {
        OtherKeeps(c, t, canExpand, env, owned);
      } else {
        EthernetKeeps(c, t, canExpand, env, owned);
      }
    }
  }

  lemma OtherKeeps(c: Config, t: Tx, canExpand: bool, env: Send, owned: nat)
    requires JobsOk(Backlog(t)) && |Backlog(t)| > 0 && Backlog(t)[0].Other?
    ensures var (t', outcome, out) := Work(c, t, canExpand, env);
            && JobsOk(Backlog(t')) && out == [] && outcome == Done
            && t' == t.(queue := t'.queue, deferred := t'.deferred)
            && (SlotsKept(c, t, owned) ==> SlotsKept(c, t', owned))
            && (Tallied(t) ==> Tallied(t'))
            && (Reserved(t) ==> Reserved(t'))
  {
    hide WellFormed;
    var (t', outcome, out) := Work(c, t, canExpand, env);
    assert Backlog(t') == Backlog(t)[1..];
    assert forall i :: 0 <= i < 3 ==> Count(Backlog(t), i) == Count(Backlog(t'), i);
  }

  lemma TakeBatchKeeps(c: Config, t: Tx, canExpand: bool, owned: nat)
    requires JobsOk(Backlog(t)) && |Backlog(t)| > 0 && Backlog(t)[0].EthernetTx?
    ensures var (merged, b) := TakeBatch(c, t, canExpand);
            var i := Index(Backlog(t)[0].channel);
            && JobsOk(Backlog(merged))
            && merged == t.(queue := merged.queue, deferred := merged.deferred,
                            slots := merged.slots, queued := merged.queued)
            && Canonical(b.payload) && |Records(b.payload)| == b.units
            && (SlotsKept(c, t, owned) ==> SlotsKept(c, merged, owned + 1))
            && (c.side.HostSide? && Tallied(t) ==> Tallied(merged))
            && (c.side.HostSide? && Reserved(t) ==>
                  && b.units <= t.credit[ChannelAt(i)]
                  && forall k :: 0 <= k < 3 ==>
                       && merged.queued[k] == Count(Backlog(merged), k)
                       && merged.queued[k] + (if k == i then b.units else 0) <= t.credit[ChannelAt(k)])
  {
    hide Aggregate, Canonical, Records, WellFormed;
    BatchKeeps(MergeOf(c, canExpand), Backlog(t));
    var (merged, b) := TakeBatch(c, t, canExpand);
    assert Backlog(merged) == Backlog(t)[b.units..];
  }

  lemma EthernetKeeps(c: Config, t: Tx, canExpand: bool, env: Send, owned: nat)
    requires JobsOk(Backlog(t)) && |Backlog(t)| > 0 && Backlog(t)[0].EthernetTx?
    ensures var (t', outcome, out) := Work(c, t, canExpand, env);
            var (channel, units) := Attempt(c, t, canExpand);
            && JobsOk(Backlog(t')) && t'.session == t.session
            && Sent(c, t, t', out, channel, units)
            && (SlotsKept(c, t, owned) ==> SlotsKept(c, t', owned + |out|))
            && (c.side.HostSide? && Tallied(t) ==> Tallied(t'))
            && (c.side.HostSide? && Reserved(t) ==>
                  Reserved(t') && !outcome.NoCredit? && t'.congested == t.congested)
  {
    hide Aggregate, SendFrame, Canonical, Records, FrameOk, ChannelOf, SequenceOf, UnitsOf, WellFormed;
    var channel := Backlog(t)[0].channel;
    assert JobOk(Backlog(t)[0]);
    var (merged, b) := TakeBatch(c, t, canExpand);
    TakeBatchKeeps(c, t, canExpand, owned);
    SendKeeps(c, merged, channel, b.payload, b.units, env);
    var (t', outcome, out) := Work(c, t, canExpand, env);
    assert Backlog(t') == Backlog(merged);
    assert ChannelAt(Index(channel)) == channel;
  }
}
