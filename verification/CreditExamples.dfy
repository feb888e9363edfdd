/** Runs that lose credit, one for each cause that the balance names. */
module CreditExamples {
  import opened Bytes
  import opened Aggregation
  import opened LinkState
  import opened Wire
  import opened Transmit
  import opened CreditProtocol
  import opened CreditInvariant
  import opened CreditTheorems
  import Refinement
  import FrameCodec
  import RawRecord

  const ACCEPTED: Send := Send(true, true)
  const TAKEN: Move := CoprocTakes(Arrival(false, [], true, true))

  /** One Ethernet frame of nine bytes on the station interface, as either sender queues it. */
  function NineBytes(): Job {
    var payload := seq(9, _ => 0);
    EthernetTx(STA, RawRecord.Header(1, 0, 9) + payload)
  }

  lemma NineBytesOk()
    ensures JobOk(NineBytes()) && NineBytes().EthernetTx? && NineBytes().channel == STA
    ensures |NineBytes().record| == 17
  {
    RecordJobOk(STA, seq(9, _ => 0));
  }

  /** An endpoint that merges and has room for two such records in a frame. */
  ghost predicate MergesTwo(c: Config) {
    c.mergeLimit >= 2 && c.maxFrame >= FrameCodec.HEADER_SIZE + 34
  }

  lemma TwoMerge(c: Config, t: Tx)
    requires MergesTwo(c) && Backlog(t) == [NineBytes(), NineBytes()]
    ensures Attempt(c, t, true) == (STA, 2)
    ensures TakeBatch(c, t, true).1.units == 2 && |TakeBatch(c, t, true).1.payload| == 34
  {
    hide Gather, NineBytes;
    NineBytesOk();
    var jobs := Backlog(t);
    var m := MergeOf(c, true);
    var b := Aggregate(m, jobs[0], jobs[1..]);
    assert [jobs[0]] + jobs[1..] == jobs;
    AggregateTakesFront(m, jobs[0], jobs[1..]);
    JoinedSize(jobs, b.units);
  }

  lemma JoinedSize(jobs: seq<Job>, n: nat)
    requires jobs == [NineBytes(), NineBytes()] && n <= 2
    ensures |Joined(jobs[..n])| == 17 * n
  {
    hide NineBytes;
    NineBytesOk();
    if n == 1 {
      assert jobs[..1][1..] == [];
    } else if n == 2 {
      assert jobs[..2] == jobs && jobs[1..][1..] == [] && jobs[1..][0] == NineBytes();
      assert |Joined(jobs[1..])| == 17;
    }
  }

  /** Two records queued and at least two units of credit: one frame of two units goes out. */
  lemma TwoSent(c: Config, t: Tx)
    requires MergesTwo(c) && Backlog(t) == [NineBytes(), NineBytes()] && t.credit[STA] >= 2
    ensures var (t', outcome, out) := Work(c, t, true, ACCEPTED);
            && outcome == Done && |out| == 1 && out[0].Data?
            && ChannelOf(out[0].frame) == Some(STA) && UnitsOf(out[0].frame) == 2
            && |out[0].frame| == FrameCodec.HEADER_SIZE + 34
  {
    hide Aggregate, FrameCodec.Encode, FrameOk, ChannelOf, SequenceOf, UnitsOf, Canonical, Records;
    NineBytesOk();
    TwoMerge(c, t);
    TakeBatchKeeps(c, t, true, 0);
    var (merged, b) := TakeBatch(c, t, true);
    EncodedFrame(STA, merged.session, merged.sequence[STA], b.payload);
  }

  lemma ReachedTwo(link: Link, s: Sys, a: Move, b: Move)
    ensures Reached(link, s, [a, b]) == After(link, After(link, s, a), b)
  {
    hide After;
    var moves := [a, b];
    var s' := After(link, s, a);
    assert moves[1..] == [b] && [b][1..] == [];
    assert Reached(link, s', [b]) == Reached(link, After(link, s', b), []);
    assert Reached(link, s, moves) == Reached(link, s', moves[1..]);
  }

  /** A session in which the Host has two mergeable records queued and credit for both. */
  ghost predicate HostHasTwo(link: Link, s: Sys) {
    Started(link, s) && MergesTwo(link.host) && Backlog(s.host) == [NineBytes(), NineBytes()] && link.grants[0] >= 2
  }

  /** The same towards the Host. */
  ghost predicate CoprocHasTwo(link: Link, s: Sys) {
    Started(link, s) && MergesTwo(link.coproc) && Backlog(s.coproc) == [NineBytes(), NineBytes()] && link.grants[0] >= 2
  }

  function Endpoint(queue: seq<Job>, queued: uint32): Tx {
    Tx(1, seq(CHANNELS, _ => 4), seq(CHANNELS, _ => 0), [queued, 0, 0], 14, queue, None, false)
  }

  function Opening(host: Tx, coproc: Tx): Sys {
    var b := Book(0, 0, 0, 0, 0, 0, 0, 0);
    var rx := CoprocRx(seq(CHANNELS, _ => 0), seq(CHANNELS, _ => false), [0, 0, 0], 0, false);
    Sys(host, HostRx([0, 0, 0], 0), [], coproc, rx, [], [], [], [b, b, b])
  }

  /** There is such a session, between a Host limit of 4096 and a Coprocessor limit of 50. */
  lemma TwoQueued() returns (link: Link, s: Sys)
    ensures HostHasTwo(link, s)
    ensures FrameCodec.HEADER_SIZE + 17 <= link.coproc.maxFrame < FrameCodec.HEADER_SIZE + 34
  {
    hide NineBytes;
    NineBytesOk();
    link := Link(Config(HostSide, 4096, 8, 16, 16), Config(CoprocSide, 50, 8, 16, 16), 1, [4, 4, 4], 4);
    s := Opening(Endpoint([NineBytes(), NineBytes()], 2), Endpoint([], 0));
    assert Backlog(s.host) == [NineBytes(), NineBytes()] && Backlog(s.coproc) == [];
  }

  lemma TwoQueuedTowardsHost() returns (link: Link, s: Sys)
    ensures CoprocHasTwo(link, s)
  {
    hide NineBytes;
    NineBytesOk();
    link := Link(Config(HostSide, 4096, 8, 16, 16), Config(CoprocSide, 4096, 8, 16, 16), 1, [4, 4, 4], 4);
    s := Opening(Endpoint([], 0), Endpoint([NineBytes(), NineBytes()], 0));
    assert Backlog(s.coproc) == [NineBytes(), NineBytes()] && Backlog(s.host) == [];
  }

  lemma HostSendsTwo(link: Link, s: Sys)
    requires HostHasTwo(link, s)
    ensures var r := After(link, s, HostWorks(true, ACCEPTED));
            && Balanced(link, r) && |r.up| == 1 && r.up[0].Data? && PlaceOf(r.up[0]) == 0 && RecordsIn(r.up[0]) == 2
            && |r.up[0].frame| == FrameCodec.HEADER_SIZE + 34
            && r.books == s.books && r.coprocRx == s.coprocRx && r.down == s.down
            && Circulating(r, 0) + Refundable(r, 0) == link.grants[0]
  {
    hide Work, NineBytes, ChannelOf, UnitsOf, JobsOk, WireOk, Law;
    OpenedBalanced(link, s);
    StepBalanced(link, s, HostWorks(true, ACCEPTED));
    TwoSent(link.host, s.host);
    var r := After(link, s, HostWorks(true, ACCEPTED));
    WholeAfter(link, r);
  }

  lemma WholeAfter(link: Link, r: Sys)
    requires Balanced(link, r) && Leaked(r.books[0]) == 0
    ensures Circulating(r, 0) + Refundable(r, 0) == link.grants[0]
  {
    hide Circulating, Refundable, Flow;
    assert Law(link, r, 0);
  }

  /** One lost frame of two merged records costs one unit for good: the gap refund counts frames. */
  lemma LostBatchLeaks(link: Link, s: Sys)
    requires HostHasTwo(link, s)
    ensures var r := Reached(link, s, [HostWorks(true, ACCEPTED), UpDrops(0)]);
            Circulating(r, 0) + Refundable(r, 0) == link.grants[0] - 1
  {
    hide After, Started, NineBytes, Circulating, Refundable, Balanced, PlaceOf, RecordsIn;
    ReachedTwo(link, s, HostWorks(true, ACCEPTED), UpDrops(0));
    HostSendsTwo(link, s);
    var r := After(link, s, HostWorks(true, ACCEPTED));
    LostFrameCosts(link, r, 0);
    DropIsMove(link, r, 0);
  }

  lemma DropIsMove(link: Link, s: Sys, k: nat)
    ensures After(link, s, UpDrops(k)) == UpDrop(s, k)
  {
  }

  /** A frame lost before the first frame of the session arrives costs all its units: the
      Coprocessor has nothing yet to compare the next sequence number with. */
  lemma LostFirstFrameLeaks(link: Link, s: Sys)
    requires HostHasTwo(link, s)
    ensures var sent := After(link, s, HostWorks(true, ACCEPTED));
            var r := Reached(link, sent, [UpDrops(0), TAKEN]);
            Circulating(r, 0) + Refundable(r, 0) == link.grants[0] - 2
  {
    var sent := After(link, s, HostWorks(true, ACCEPTED));
    HostSendsTwo(link, s);
    OpenBook(link, s);
    LostThenMissed(link, sent);
    hide After, Started, NineBytes, Circulating, Refundable, Balanced, PlaceOf, RecordsIn, Leaked;
    ReachedTwo(link, sent, UpDrops(0), TAKEN);
    StepBalanced(link, sent, UpDrops(0));
    StepBalanced(link, After(link, sent, UpDrops(0)), TAKEN);
    LeakedAfter(link, After(link, After(link, sent, UpDrops(0)), TAKEN));
  }

  lemma OpenBook(link: Link, s: Sys)
    requires Opened(link, s)
    ensures Leaked(s.books[0]) == 0 && !s.coprocRx.valid[STA]
  {
  }

  /** The frame is dropped, and its place is met before any frame of the session. */
  lemma LostThenMissed(link: Link, s: Sys)
    requires |s.up| == 1 && s.up[0].Data? && PlaceOf(s.up[0]) == 0 && RecordsIn(s.up[0]) == 2
    requires Leaked(s.books[0]) == 0 && !s.coprocRx.valid[STA]
    ensures Leaked(After(link, After(link, s, UpDrops(0)), TAKEN).books[0]) == 2
  {
    hide CoprocReceive, CoprocTakesFrame, ChannelOf, UnitsOf;
  }

  lemma LeakedAfter(link: Link, r: Sys)
    requires Balanced(link, r)
    ensures Circulating(r, 0) + Refundable(r, 0) == link.grants[0] - Leaked(r.books[0])
  {
    hide Circulating, Refundable, Flow;
    assert Law(link, r, 0);
  }

  /** The Host merges up to its own frame size. If the Coprocessor's is smaller, it refuses a frame
      although each of its records alone would have fitted, and its units are lost. */
  lemma OversizedBatchLeaks(link: Link, s: Sys)
    requires HostHasTwo(link, s)
    requires FrameCodec.HEADER_SIZE + 17 <= link.coproc.maxFrame < FrameCodec.HEADER_SIZE + 34
    ensures var r := Reached(link, s, [HostWorks(true, ACCEPTED), TAKEN]);
            Circulating(r, 0) + Refundable(r, 0) == link.grants[0] - 2
  {
    hide Work, NineBytes, Circulating, Refundable, JobsOk, WireOk, Law, CoprocReceive, CoprocTakesFrame;
    ReachedTwo(link, s, HostWorks(true, ACCEPTED), TAKEN);
    HostSendsTwo(link, s);
    var sent := After(link, s, HostWorks(true, ACCEPTED));
    StepBalanced(link, sent, TAKEN);
    var r := After(link, sent, TAKEN);
    assert Leaked(r.books[0]) == 2;
    LeakedAfter(link, r);
  }

  /** Whatever is lost on the way to the Host is lost for good. */
  lemma LostTowardsHostLeaks(link: Link, s: Sys)
    requires CoprocHasTwo(link, s)
    ensures var r := Reached(link, s, [CoprocWorks(true, ACCEPTED), DownDrops(0)]);
            r.coproc.credit[STA] + Sum(r.down, Units(STA)) + r.hostRx.pending[0] + Sum(r.up, Credits(STA)) ==
            link.grants[0] - 2
  {
    hide Work, NineBytes, ChannelOf, UnitsOf, JobsOk, WireOk, Law, Sum;
    ReachedTwo(link, s, CoprocWorks(true, ACCEPTED), DownDrops(0));
    OpenedBalanced(link, s);
    TwoSent(link.coproc, s.coproc);
    StepBalanced(link, s, CoprocWorks(true, ACCEPTED));
    var sent := After(link, s, CoprocWorks(true, ACCEPTED));
    assert sent.down[0] == Work(link.coproc, s.coproc, true, ACCEPTED).2[0];
    StepBalanced(link, sent, DownDrops(0));
    var r := After(link, sent, DownDrops(0));
    assert r.books[0].down == 2;
    DownAfter(link, r);
  }

  lemma DownAfter(link: Link, r: Sys)
    requires Balanced(link, r)
    ensures r.coproc.credit[STA] + Sum(r.down, Units(STA)) + r.hostRx.pending[0] + Sum(r.up, Credits(STA)) ==
            link.grants[0] - r.books[0].down
  {
    hide Sum, Flow;
    assert Law(link, r, 0);
  }

  /** The Coprocessor admits without looking at credit. With one unit left and two records queued,
      the merged batch is refused and both records are dropped; without merging, the first goes out
      and the second stays queued. */
  lemma MergedBatchDropped(c: Config, t: Tx)
    requires c.side.CoprocSide? && MergesTwo(c) && Backlog(t) == [NineBytes(), NineBytes()] && t.credit[STA] == 1
    ensures var (t', outcome, out) := Work(c, t, true, ACCEPTED);
            outcome.NoCredit? && out == [] && Backlog(t') == []
    ensures var (t', outcome, out) := Work(Refinement.Single(c), t, false, ACCEPTED);
            outcome.Done? && |out| == 1 && Backlog(t') == [NineBytes()]
            && Refinement.Carried(out, STA) == Records(NineBytes().record)
    ensures !Refinement.AllCovered(c, t, [Refinement.Works(true, ACCEPTED)])
  {
    hide Aggregate, SendFrame, NineBytes, Canonical, Records, Refinement.Carried;
    NineBytesOk();
    TwoMerge(c, t);
    Refinement.BatchTaken(c, t, true);
    var (merged, b) := TakeBatch(c, t, true);
    OverCredit(c, merged, b.payload);
    Refinement.UncoveredBatchDropped(c, t, true, ACCEPTED);
    Refinement.MergedBatch(Refinement.Single(c), t, false, ACCEPTED, STA);
    Refinement.OneSingly(c, t, ACCEPTED, STA);
    Refinement.OneTaken(c, t);
    SentOnce(Refinement.Single(c), t);
  }

  lemma OverCredit(c: Config, t: Tx, payload: seq<byte>)
    requires FrameCodec.HEADER_SIZE + |payload| <= c.maxFrame && t.credit[STA] == 1
    ensures SendFrame(c, t, STA, payload, false, 2, ACCEPTED).1.NoCredit?
  {
  }

  lemma SentOnce(c: Config, t: Tx)
    requires JobsOk(Backlog(t)) && Work(c, t, false, ACCEPTED).1.Done? && |Backlog(t)| > 0 && Backlog(t)[0].EthernetTx?
    ensures |Work(c, t, false, ACCEPTED).2| == 1
  {
    hide FrameCodec.Encode, Aggregate;
  }
}
