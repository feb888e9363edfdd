/** The worker queue and the merging of queued Ethernet records into one frame payload
    (`aggregate_ethernet_jobs` of host-core/src/host.c and coproc-core/src/coproc.c). */
module Aggregation {
  import opened Bytes
  import RawRecord

  /** A queued job. `Other` is any job that is not an Ethernet transmission. */
  datatype Job = EthernetTx(channel: byte, record: seq<byte>) | Other(id: nat)

  /** The two endpoints read the configured limit differently: the Host merges only for a limit
      of at least two, the Coprocessor takes zero for "no limit". */
  datatype Side = HostSide | CoprocSide

  predicate MayMerge(side: Side, limit: nat, units: nat) {
    match side
    case HostSide => limit >= 2 && units < limit
    case CoprocSide => limit == 0 || units < limit
  }

  /** The merging configuration, and whether the one buffer expansion gets its memory. */
  datatype Merge = Merge(side: Side, limit: nat, capacity: nat, canExpand: bool)

  datatype Batch = Batch(payload: seq<byte>, units: nat, deferred: Option<Job>, queue: seq<Job>)

  predicate Fits(m: Merge, channel: byte, size: nat, job: Job) {
    job.EthernetTx? && job.channel == channel && size <= m.capacity && |job.record| <= m.capacity - size
  }

  /** `room` is the storage behind the payload gathered so far. */
  function Gather(m: Merge, channel: byte, payload: seq<byte>, room: nat, units: nat, queue: seq<Job>)
    : (b: Batch)
    ensures units <= b.units
    decreases |queue|
  {
    if !MayMerge(m.side, m.limit, units) || |queue| == 0 then Batch(payload, units, None, queue)
    else if !Fits(m, channel, |payload|, queue[0]) || (room < m.capacity && !m.canExpand)
    then Batch(payload, units, Some(queue[0]), queue[1..])
    else
      var room' := if room < m.capacity then m.capacity else room;
      Gather(m, channel, payload + queue[0].record, room', units + 1, queue[1..])
  }

  function Aggregate(m: Merge, first: Job, queue: seq<Job>): (b: Batch)
    requires first.EthernetTx?
    ensures 1 <= b.units
  {
    Gather(m, first.channel, first.record, |first.record|, 1, queue)
  }

  // ---------------------------------------------------------------------------------------
  // What one batch holds
  // ---------------------------------------------------------------------------------------

  function Joined(jobs: seq<Job>): seq<byte> {
    if |jobs| == 0 then []
    else (if jobs[0].EthernetTx? then jobs[0].record else []) + Joined(jobs[1..])
  }

  function Deferred(d: Option<Job>): seq<Job> {
    match d
    case None => []
    case Some(job) => [job]
  }

  ghost predicate OneChannel(jobs: seq<Job>, channel: byte) {
    forall i :: 0 <= i < |jobs| ==> jobs[i].EthernetTx? && jobs[i].channel == channel
  }

  /** `merged` is the front of `jobs` that `b` took; what it left is the rest, in order. */
  ghost predicate Took(b: Batch, jobs: seq<Job>, merged: nat, channel: byte) {
    && merged <= |jobs|
    && OneChannel(jobs[..merged], channel)
    && Deferred(b.deferred) + b.queue == jobs[merged..]
  }

  lemma FrontSplit<T>(q: seq<T>, n: nat)
    requires 1 <= n <= |q|
    ensures q[..n] == [q[0]] + q[1..][..n - 1]
    ensures q[..n][1..] == q[1..][..n - 1]
    ensures q[n..] == q[1..][n - 1..]
  {
  }

  predicate Merges(m: Merge, channel: byte, size: nat, room: nat, units: nat, queue: seq<Job>) {
    && MayMerge(m.side, m.limit, units) && |queue| > 0
    && Fits(m, channel, size, queue[0]) && (room >= m.capacity || m.canExpand)
  }

  lemma GatherNone(m: Merge, channel: byte, payload: seq<byte>, room: nat, units: nat, queue: seq<Job>)
    requires !Merges(m, channel, |payload|, room, units, queue)
    ensures var b := Gather(m, channel, payload, room, units, queue);
            b.units == units && b.payload == payload && Took(b, queue, 0, channel)
  {
    assert |queue| > 0 ==> [queue[0]] + queue[1..] == queue;
  }

  lemma GatherMore(m: Merge, channel: byte, payload: seq<byte>, room: nat, units: nat, queue: seq<Job>)
    requires Merges(m, channel, |payload|, room, units, queue)
    ensures |queue| > 0 && queue[0].EthernetTx? && queue[0].channel == channel
    ensures MayMerge(m.side, m.limit, units) && |payload| + |queue[0].record| <= m.capacity
    ensures Gather(m, channel, payload, room, units, queue) ==
            Gather(m, channel, payload + queue[0].record, if room < m.capacity then m.capacity else room,
                   units + 1, queue[1..])
  {
  }

  lemma {:induction false} GatherTakesFront(m: Merge, channel: byte, payload: seq<byte>, room: nat,
                                            units: nat, queue: seq<Job>)
    ensures var b := Gather(m, channel, payload, room, units, queue);
            units <= b.units && Took(b, queue, b.units - units, channel)
    decreases |queue|
  {
    var b := Gather(m, channel, payload, room, units, queue);
    hide Gather, Merges, Took;
    if Merges(m, channel, |payload|, room, units, queue) {
      GatherMore(m, channel, payload, room, units, queue);
      var room' := if room < m.capacity then m.capacity else room;
      GatherTakesFront(m, channel, payload + queue[0].record, room', units + 1, queue[1..]);
      TookFirst(b, queue[0], queue[1..], b.units - units - 1);
      assert [queue[0]] + queue[1..] == queue;
    } else {
      GatherNone(m, channel, payload, room, units, queue);
    }
  }

  /** The limit of one frame: on the Host below two nothing merges, on the Coprocessor zero is no
      limit. */
  predicate AtLimit(m: Merge, units: nat) {
    match m.side
    case HostSide => m.limit < 2 || units >= m.limit
    case CoprocSide => m.limit > 0 && units >= m.limit
  }

  /** Why merging stopped: the limit, an empty queue, a job that may not join, or no memory. */
  ghost predicate Stopped(m: Merge, channel: byte, b: Batch) {
    match b.deferred
    case None => AtLimit(m, b.units) || |b.queue| == 0
    case Some(job) =>
      || job.Other? || job.channel != channel || |b.payload| + |job.record| > m.capacity
      || !m.canExpand
  }

  lemma {:induction false} GatherStops(m: Merge, channel: byte, payload: seq<byte>, room: nat,
                                       units: nat, queue: seq<Job>)
    ensures Stopped(m, channel, Gather(m, channel, payload, room, units, queue))
    decreases |queue|
  {
    if Merges(m, channel, |payload|, room, units, queue) {
      var room' := if room < m.capacity then m.capacity else room;
      GatherStops(m, channel, payload + queue[0].record, room', units + 1, queue[1..]);
    }
  }

  lemma {:induction false} GatherPayload(m: Merge, channel: byte, payload: seq<byte>, room: nat,
                                         units: nat, queue: seq<Job>)
    ensures var b := Gather(m, channel, payload, room, units, queue);
            && units <= b.units <= units + |queue|
            && b.payload == payload + Joined(queue[..b.units - units])
            && (b.units > units ==> |b.payload| <= m.capacity)
            && (b.units > units ==> MayMerge(m.side, m.limit, b.units - 1))
    decreases |queue|
  {
    var b := Gather(m, channel, payload, room, units, queue);
    hide Gather, Merges, MayMerge, Took;
    if Merges(m, channel, |payload|, room, units, queue) {
      GatherMore(m, channel, payload, room, units, queue);
      var next := queue[0].record;
      var room' := if room < m.capacity then m.capacity else room;
      GatherPayload(m, channel, payload + next, room', units + 1, queue[1..]);
      FrontSplit(queue, b.units - units);
      var rest := Joined(queue[1..][..b.units - units - 1]);
      assert (payload + next) + rest == payload + (next + rest);
    } else {
      GatherNone(m, channel, payload, room, units, queue);
      assert queue[..0] == [];
    }
  }

  /** A batch is the longest allowed front of the queue: the first job and the jobs merged into it
      come off the front, nothing is reordered, and the payload outgrows the frame only if the
      first record alone did. */
  lemma AggregateTakesFront(m: Merge, first: Job, queue: seq<Job>)
    requires first.EthernetTx?
    ensures var b := Aggregate(m, first, queue);
            && b.units >= 1
            && Took(b, [first] + queue, b.units, first.channel)
            && b.payload == Joined(([first] + queue)[..b.units])
            && |b.payload| <= (if |first.record| > m.capacity then |first.record| else m.capacity)
            && (m.limit >= 1 ==> b.units <= m.limit) && (m.side.HostSide? && m.limit < 2 ==> b.units == 1)
            && Stopped(m, first.channel, b)
  {
    var b := Aggregate(m, first, queue);
    hide Gather, Took, Stopped, Joined, MayMerge;
    GatherTakesFront(m, first.channel, first.record, |first.record|, 1, queue);
    GatherPayload(m, first.channel, first.record, |first.record|, 1, queue);
    assert Took(b, [first] + queue, b.units, first.channel) by { TookFirst(b, first, queue, b.units - 1); }
    assert b.payload == Joined(([first] + queue)[..b.units]) by { JoinedFirst(first, queue, b.units - 1); }
    assert (m.limit >= 1 ==> b.units <= m.limit) && (m.side.HostSide? && m.limit < 2 ==> b.units == 1) by {
      UnitsWithinLimit(m.side, m.limit, b.units);
    }
    assert Stopped(m, first.channel, b) by {
      GatherStops(m, first.channel, first.record, |first.record|, 1, queue);
    }
  }

  lemma TookFirst(b: Batch, first: Job, queue: seq<Job>, n: nat)
    requires first.EthernetTx? && Took(b, queue, n, first.channel)
    ensures Took(b, [first] + queue, n + 1, first.channel)
  {
    assert ([first] + queue)[..n + 1] == [first] + queue[..n];
    assert ([first] + queue)[n + 1..] == queue[n..];
  }

  lemma JoinedFirst(first: Job, queue: seq<Job>, n: nat)
    requires first.EthernetTx? && n <= |queue|
    ensures Joined(([first] + queue)[..n + 1]) == first.record + Joined(queue[..n])
  {
    var front := ([first] + queue)[..n + 1];
    assert front == [first] + queue[..n];
    assert front[1..] == queue[..n];
  }

  lemma UnitsWithinLimit(side: Side, limit: nat, units: nat)
    requires units >= 1 && (units > 1 ==> MayMerge(side, limit, units - 1))
    ensures limit >= 1 ==> units <= limit
    ensures side.HostSide? && limit < 2 ==> units == 1
  {
  }

  // ---------------------------------------------------------------------------------------
  // Records
  // ---------------------------------------------------------------------------------------

  /** Bytes that are encoded records laid end to end. */
  ghost predicate Canonical(bytes: seq<byte>) {
    var parsed := RawRecord.Parse(bytes);
    parsed.Some? && RawRecord.AllEncodable(parsed.value) && RawRecord.EncodeAll(parsed.value) == bytes
  }

  /** The records a receiver takes out of a payload; none if it does not parse. */
  function Records(bytes: seq<byte>): seq<RawRecord.Record> {
    match RawRecord.Parse(bytes)
    case None => []
    case Some(rs) => rs
  }

  lemma CanonicalOfEncoded(rs: seq<RawRecord.Record>)
    requires RawRecord.AllEncodable(rs)
    ensures Canonical(RawRecord.EncodeAll(rs)) && Records(RawRecord.EncodeAll(rs)) == rs
  {
    RawRecord.ParseOfEncoded(rs);
  }

  /** Laying canonical payloads end to end lays their records end to end. */
  lemma RecordsConcat(a: seq<byte>, b: seq<byte>)
    requires Canonical(a) && Canonical(b)
    ensures Canonical(a + b) && Records(a + b) == Records(a) + Records(b)
  {
    RawRecord.EncodeAllConcat(Records(a), Records(b));
    CanonicalOfEncoded(Records(a) + Records(b));
  }

  /** An Ethernet job as the senders build it: exactly one encoded record. */
  ghost predicate WellFormed(job: Job) {
    job.EthernetTx? ==> Canonical(job.record) && |Records(job.record)| == 1
  }

  ghost predicate AllWellFormed(jobs: seq<Job>) {
    forall i :: 0 <= i < |jobs| ==> WellFormed(jobs[i])
  }

  lemma {:induction false} JoinedRecords(jobs: seq<Job>, channel: byte)
    requires OneChannel(jobs, channel) && AllWellFormed(jobs)
    ensures Canonical(Joined(jobs)) && |Records(Joined(jobs))| == |jobs|
    ensures forall i :: 0 <= i < |jobs| ==> Records(Joined(jobs))[i] == Records(jobs[i].record)[0]
    decreases |jobs|
  {
    if |jobs| == 0 {
      CanonicalOfEncoded([]);
    } else {
      JoinedRecords(jobs[1..], channel);
      RecordsConcat(jobs[0].record, Joined(jobs[1..]));
    }
  }

  // ---------------------------------------------------------------------------------------
  // The worker over whole runs
  // ---------------------------------------------------------------------------------------

  /** What the worker did with the jobs it took: one frame, or one other job. */
  datatype Action = Frame(channel: byte, payload: seq<byte>, units: nat) | Handled(id: nat)

  datatype Worker = Worker(queue: seq<Job>, deferred: Option<Job>, done: seq<Action>)

  datatype Event = Enqueue(job: Job) | Iterate(m: Merge)

  function Waiting(w: Worker): seq<Job> {
    Deferred(w.deferred) + w.queue
  }

  /** One iteration takes the deferred job if there is one, otherwise the queue head; an empty
      queue makes it wait. */
  function Step(w: Worker, e: Event): Worker {
    match e
    case Enqueue(job) => w.(queue := w.queue + [job])
    case Iterate(m) =>
      if |Waiting(w)| == 0 then w
      else
        var job := Waiting(w)[0];
        var queue := Waiting(w)[1..];
        match job
        case Other(id) => Worker(queue, None, w.done + [Handled(id)])
        case EthernetTx(channel, _) =>
          var b := Aggregate(m, job, queue);
          Worker(b.queue, b.deferred, w.done + [Frame(channel, b.payload, b.units)])
  }

  function Run(w: Worker, events: seq<Event>): Worker
    decreases |events|
  {
    if |events| == 0 then w else Run(Step(w, events[0]), events[1..])
  }

  function Added(e: Event): seq<Job> {
    if e.Enqueue? then [e.job] else []
  }

  function Admitted(events: seq<Event>): seq<Job>
    decreases |events|
  {
    if |events| == 0 then [] else Added(events[0]) + Admitted(events[1..])
  }

  /** The actions are the jobs in order, cut into runs: a frame is one run of Ethernet jobs of
      its channel, and each job is one credit unit. */
  ghost predicate Explains(jobs: seq<Job>, done: seq<Action>)
    decreases |done|
  {
    if |done| == 0 then |jobs| == 0
    else
      match done[0]
      case Handled(id) => |jobs| >= 1 && jobs[0] == Other(id) && Explains(jobs[1..], done[1..])
      case Frame(channel, payload, units) =>
        && 1 <= units <= |jobs|
        && OneChannel(jobs[..units], channel)
        && payload == Joined(jobs[..units])
        && Explains(jobs[units..], done[1..])
  }

  lemma {:induction false} ExplainsMore(jobs: seq<Job>, done: seq<Action>, run: seq<Job>, a: Action)
    requires Explains(jobs, done) && Explains(run, [a])
    ensures Explains(jobs + run, done + [a])
    decreases |done|
  {
    if |done| == 0 {
      assert jobs + run == run && done + [a] == [a];
    } else {
      var n := if done[0].Frame? then done[0].units else 1;
      ExplainsMore(jobs[n..], done[1..], run, a);
      assert (jobs + run)[n..] == jobs[n..] + run;
      assert (jobs + run)[..n] == jobs[..n];
      assert (done + [a])[1..] == done[1..] + [a];
    }
  }

  /** One iteration moves a front of the waiting jobs into the done log. */
  lemma IterateTakesFront(w: Worker, m: Merge) returns (run: seq<Job>)
    requires |Waiting(w)| > 0
    ensures var w' := Step(w, Iterate(m));
            && run + Waiting(w') == Waiting(w)
            && w'.done == w.done + [w'.done[|w.done|]]
            && Explains(run, [w'.done[|w.done|]])
  {
    var jobs := Waiting(w);
    var w' := Step(w, Iterate(m));
    assert jobs == [jobs[0]] + jobs[1..];
    if jobs[0].Other? {
      run := [jobs[0]];
      assert run[1..] == [] && [w'.done[|w.done|]][1..] == [];
    } else {
      AggregateTakesFront(m, jobs[0], jobs[1..]);
      var units := Aggregate(m, jobs[0], jobs[1..]).units;
      run := jobs[..units];
      assert run[..units] == run && run[units..] == [];
      assert [w'.done[|w.done|]][1..] == [];
    }
  }

  lemma IterateKeepsOrder(w: Worker, m: Merge, past: seq<Job>) returns (past': seq<Job>)
    requires Explains(past, w.done) && |Waiting(w)| > 0
    ensures Explains(past', Step(w, Iterate(m)).done)
    ensures past' + Waiting(Step(w, Iterate(m))) == past + Waiting(w)
  {
    hide Explains, Step, Waiting;
    var run := IterateTakesFront(w, m);
    var w' := Step(w, Iterate(m));
    ExplainsMore(past, w.done, run, w'.done[|w.done|]);
    past' := past + run;
    assert past' + Waiting(w') == past + (run + Waiting(w'));
  }

  /** `past` are the jobs already handled when the worker is in state `w`. */
  lemma StepKeepsOrder(w: Worker, e: Event, past: seq<Job>) returns (past': seq<Job>)
    requires Explains(past, w.done)
    ensures Explains(past', Step(w, e).done)
    ensures past' + Waiting(Step(w, e)) == past + Waiting(w) + Added(e)
  {
    hide Explains, Aggregate;
    past' := past;
    if e.Enqueue? {
      assert Waiting(Step(w, e)) == Waiting(w) + [e.job];
      assert past + (Waiting(w) + [e.job]) == past + Waiting(w) + [e.job];
    } else {
      assert past + Waiting(w) + [] == past + Waiting(w);
      if |Waiting(w)| > 0 {
        past' := IterateKeepsOrder(w, e.m, past);
      }
    }
  }

  lemma {:induction false} RunKeepsOrder(w: Worker, events: seq<Event>, past: seq<Job>)
    returns (past': seq<Job>)
    requires Explains(past, w.done)
    ensures Explains(past', Run(w, events).done)
    ensures past' + Waiting(Run(w, events)) == past + Waiting(w) + Admitted(events)
    decreases |events|
  {
    hide Explains, Step, Waiting, Added;
    past' := past;
    if |events| > 0 {
      var next := StepKeepsOrder(w, events[0], past);
      past' := RunKeepsOrder(Step(w, events[0]), events[1..], next);
      assert past + Waiting(w) + Admitted(events) ==
        (past + Waiting(w) + Added(events[0])) + Admitted(events[1..]);
    }
  }

  const IDLE: Worker := Worker([], None, [])

  /** Over every run, the jobs handled and the jobs still waiting (in the deferred slot first) are
      together the admitted jobs in admission order: none is lost, duplicated or overtaken. */
  lemma WorkerKeepsOrder(events: seq<Event>)
    ensures var w := Run(IDLE, events);
            var all := Admitted(events);
            exists n :: 0 <= n <= |all| && Explains(all[..n], w.done) && all[n..] == Waiting(w)
  {
    var past := RunKeepsOrder(IDLE, events, []);
    var all := Admitted(events);
    assert past + Waiting(Run(IDLE, events)) == all;
    assert all[..|past|] == past && all[|past|..] == Waiting(Run(IDLE, events));
  }

  // ---------------------------------------------------------------------------------------
  // Refinement of one record per frame
  // ---------------------------------------------------------------------------------------

  /** The simple worker: every Ethernet job becomes a frame of its own. */
  function OnePerFrame(jobs: seq<Job>): seq<Action> {
    if |jobs| == 0 then []
    else [match jobs[0]
          case Other(id) => Handled(id)
          case EthernetTx(channel, record) => Frame(channel, record, 1)] + OnePerFrame(jobs[1..])
  }

  /** The payloads can be read back record by record. */
  ghost predicate Readable(done: seq<Action>) {
    forall i :: 0 <= i < |done| ==>
      done[i].Frame? ==> Canonical(done[i].payload) && |Records(done[i].payload)| == done[i].units
  }

  /** The records the peer reads from one channel, in order. */
  ghost function Stream(done: seq<Action>, channel: byte): seq<RawRecord.Record>
    decreases |done|
  {
    if |done| == 0 then []
    else (if done[0].Frame? && done[0].channel == channel then Records(done[0].payload) else [])
         + Stream(done[1..], channel)
  }

  function Charged(done: seq<Action>, channel: byte): nat {
    if |done| == 0 then 0
    else (if done[0].Frame? && done[0].channel == channel then done[0].units else 0)
         + Charged(done[1..], channel)
  }

  lemma EmptyRecords()
    ensures Canonical([]) && Records([]) == []
  {
    CanonicalOfEncoded([]);
  }

  lemma {:induction false} OnePerFrameRun(run: seq<Job>, rest: seq<Job>, channel: byte, of: byte)
    requires OneChannel(run, of) && AllWellFormed(run) && AllWellFormed(rest)
    ensures AllWellFormed(run + rest)
    ensures Stream(OnePerFrame(run + rest), channel) ==
            (if of == channel then Records(Joined(run)) else []) + Stream(OnePerFrame(rest), channel)
    ensures Charged(OnePerFrame(run + rest), channel) ==
            (if of == channel then |run| else 0) + Charged(OnePerFrame(rest), channel)
    decreases |run|
  {
    hide Records, Canonical;
    if |run| == 0 {
      EmptyRecords();
      assert run + rest == rest;
    } else {
      assert (run + rest)[1..] == run[1..] + rest;
      OnePerFrameRun(run[1..], rest, channel, of);
      JoinedRecords(run[1..], of);
      RecordsConcat(run[0].record, Joined(run[1..]));
    }
  }

  /** Merged frames carry, channel by channel, the record stream of one record per frame and
      charge the same credit in total. */
  lemma {:induction false} AggregationRefines(jobs: seq<Job>, done: seq<Action>, channel: byte)
    requires AllWellFormed(jobs) && Explains(jobs, done)
    ensures Readable(done)
    ensures Stream(done, channel) == Stream(OnePerFrame(jobs), channel)
    ensures Charged(done, channel) == Charged(OnePerFrame(jobs), channel)
    decreases |done|
  {
    hide Records, Canonical, Joined;
    if |done| > 0 {
      match done[0]
      case Handled(id) =>
        AggregationRefines(jobs[1..], done[1..], channel);
      case Frame(of, payload, units) =>
        var run, rest := jobs[..units], jobs[units..];
        AggregationRefines(rest, done[1..], channel);
        JoinedRecords(run, of);
        OnePerFrameRun(run, rest, channel, of);
        assert run + rest == jobs;
    }
  }
}
