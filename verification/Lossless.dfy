/** Sessions whose transport loses nothing: in each direction the grant is conserved exactly as long
    as no frame exceeds its receiver's size limit. */
module Lossless {
  import opened Bytes
  import opened LinkState
  import opened Wire
  import opened Transmit
  import opened CreditProtocol
  import opened CreditInvariant
  import opened CreditTheorems
  import FrameCodec

  /** The transport loses nothing and the refund for a received frame is not refused. A refused
      flush is allowed: its units stay pending. */
  predicate Smooth(m: Move) {
    match m
    case CoprocTakes(a) => a.refundAccepted
    case UpDrops(_) => false
    case DownDrops(_) => false
    case _ => true
  }

  predicate AllSmooth(moves: seq<Move>) {
    forall k :: 0 <= k < |moves| ==> Smooth(moves[k])
  }

  // ---------------------------------------------------------------------------------------
  // From Host to Coprocessor
  // ---------------------------------------------------------------------------------------

  /** The Coprocessor's limit refuses the arriving frame of the interface. */
  predicate RefusesUp(link: Link, s: Sys, m: Move, i: nat) {
    m.CoprocTakes? && |s.up| > 0 && !WithinLimit(s.up[0], link.coproc.maxFrame) && PlaceOf(s.up[0]) == i
  }

  predicate FitsUp(link: Link, s: Sys, moves: seq<Move>, i: nat)
    decreases |moves|
  {
    |moves| > 0 ==> !RefusesUp(link, s, moves[0], i) && FitsUp(link, After(link, s, moves[0]), moves[1..], i)
  }

  ghost predicate NoneLost(w: seq<Slot>) {
    forall k :: 0 <= k < |w| ==> !w[k].Lost?
  }

  ghost predicate Intact(b: Book) {
    b.missed == b.early == b.extra == b.refused == b.wrapped == 0
  }

  lemma SentNoneLost(c: Config, t: Tx, canExpand: bool, send: Send)
    requires JobsOk(Backlog(t))
    ensures NoneLost(Work(c, t, canExpand, send).2)
  {
    hide Work, JobsOk, Backlog, UnitsOf, FrameOk, ChannelOf, SequenceOf, Attempt;
    WorkKeeps(c, t, canExpand, send, 0);
  }

  lemma NoneLostStep(link: Link, s: Sys, m: Move)
    requires Balanced(link, s) && NoneLost(s.up) && Smooth(m)
    ensures NoneLost(After(link, s, m).up)
  {
    hide Work, HostReceive, CoprocReceive, HostPaid, CoprocFlush, RxComplete, AdmitRecord, PlaceOf, RecordsIn, Law,
      JobsOk, Backlog, WireOk, CoprocTakesFrame, Queue;
    match m
    case HostWorks(canExpand, send) =>
      SentNoneLost(link.host, s.host, canExpand, send);
    case HostFlushes(accepted, now) =>
      HostPaidFacts(link.session, s.hostRx.pending, HostDue(s.hostRx, now), accepted, 3, 0);
    case _ =>
  }

  /** Without gaps and losses only a refused frame takes credit out of circulation. */
  lemma IntactStep(link: Link, s: Sys, m: Move, i: nat)
    requires Balanced(link, s) && NoneLost(s.up) && Smooth(m) && i < 3 && Intact(s.books[i])
    ensures Intact(After(link, s, m).books[i]) <==> !RefusesUp(link, s, m, i)
    ensures RefusesUp(link, s, m, i) ==>
              var b := After(link, s, m).books[i]; b.missed + b.early >= 1 && b.refused == b.wrapped == 0
  {
    hide Work, HostReceive, CoprocReceive, HostFlush, CoprocFlush, RxComplete, AdmitRecord, PlaceOf, RecordsIn,
      KeptUnits, PayloadUnits, Contents, UpLaw, DownLaw, Flow, InSequence, Places, Skipped;
    if m.CoprocTakes? && |s.up| > 0 && s.up[0].Data? && ChannelOf(s.up[0].frame) == Some(ChannelAt(i)) {
      assert Law(link, s, i);
      FrontSequence(s, i, true);
      SkippedExactly(s, i, SequenceOf(s.up[0].frame));
    }
  }

  lemma {:induction false} NoneLostSum(w: seq<Slot>, channel: byte)
    requires NoneLost(w)
    ensures Sum(w, Losses(channel)) == 0
    decreases |w|
  {
    if |w| > 0 {
      NoneLostSum(w[1..], channel);
    }
  }

  lemma WholeIfIntact(link: Link, s: Sys, i: nat)
    requires Balanced(link, s) && NoneLost(s.up) && i < 3
    ensures Intact(s.books[i]) ==> Circulating(s, i) == link.grants[i]
    ensures s.books[i].missed + s.books[i].early >= 1 ==> Circulating(s, i) < link.grants[i]
  {
    hide Circulating, Flow, DownLaw, SequenceLaw, Sum;
    assert Law(link, s, i);
    NoneLostSum(s.up, ChannelAt(i));
  }

  /** In every state along the run the whole grant circulates. */
  ghost predicate Circulates(link: Link, s: Sys, moves: seq<Move>, i: nat)
    requires i < 3
    decreases |moves|
  {
    && Circulating(s, i) == link.grants[i]
    && (|moves| > 0 ==> Circulates(link, After(link, s, moves[0]), moves[1..], i))
  }

  lemma {:induction false} CirculatesFrom(link: Link, s: Sys, moves: seq<Move>, i: nat)
    requires Balanced(link, s) && NoneLost(s.up) && i < 3 && Intact(s.books[i]) && AllSmooth(moves)
    ensures Circulates(link, s, moves, i) <==> FitsUp(link, s, moves, i)
    ensures FitsUp(link, s, moves, i) ==> Circulating(Reached(link, s, moves), i) == link.grants[i]
    decreases |moves|
  {
    hide Balanced, After, Smooth, NoneLost, Intact, Circulating, RefusesUp;
    WholeIfIntact(link, s, i);
    if |moves| > 0 {
      var s' := After(link, s, moves[0]);
      StepBalanced(link, s, moves[0]);
      NoneLostStep(link, s, moves[0]);
      IntactStep(link, s, moves[0], i);
      WholeIfIntact(link, s', i);
      if !RefusesUp(link, s, moves[0], i) {
        CirculatesFrom(link, s', moves[1..], i);
      }
    }
  }

  /** Over a lossless transport the grant of an interface circulates whole in every state of a run
      if and only if the Coprocessor never refuses one of its frames for its size, whatever is
      admitted, merged, refused by allocator or transport, held by the backend, or left pending
      by a refused flush. */
  lemma UpConservedExactly(link: Link, s: Sys, moves: seq<Move>, i: nat)
    requires Started(link, s) && i < 3 && AllSmooth(moves)
    ensures Circulates(link, s, moves, i) <==> FitsUp(link, s, moves, i)
    ensures FitsUp(link, s, moves, i) ==> Circulating(Reached(link, s, moves), i) == link.grants[i]
  {
    hide Reached, Circulates, FitsUp, JobsOk, Backlog, Circulating;
    OpenedBalanced(link, s);
    CirculatesFrom(link, s, moves, i);
  }

  // ---------------------------------------------------------------------------------------
  // From Coprocessor to Host
  // ---------------------------------------------------------------------------------------

  predicate RefusesDown(link: Link, s: Sys, m: Move, i: nat) {
    m.HostTakes? && |s.down| > 0 && !WithinLimit(s.down[0], link.host.maxFrame) && PlaceOf(s.down[0]) == i
  }

  predicate FitsDown(link: Link, s: Sys, moves: seq<Move>, i: nat)
    decreases |moves|
  {
    |moves| > 0 ==> !RefusesDown(link, s, moves[0], i) && FitsDown(link, After(link, s, moves[0]), moves[1..], i)
  }

  /** What the Host refuses is lost for good. */
  lemma DownStep(link: Link, s: Sys, m: Move, i: nat)
    requires Balanced(link, s) && Smooth(m) && i < 3
    ensures var lost := After(link, s, m).books[i].down - s.books[i].down;
            lost >= 0 && (lost == 0 <==> !RefusesDown(link, s, m, i))
  {
    hide Work, HostReceive, CoprocReceive, HostFlush, CoprocFlush, RxComplete, AdmitRecord, PlaceOf, RecordsIn,
      KeptUnits, PayloadUnits, Contents, Law, InSequence, Places, Skipped;
    if m.HostTakes? && |s.down| > 0 {
      Front(s.down, STA, 0, link.session);
      PlaceWeights(s.down[0], link.session, PlaceOf(s.down[0]));
    }
  }

  lemma {:induction false} DownLostExactly(link: Link, s: Sys, moves: seq<Move>, i: nat)
    requires Balanced(link, s) && i < 3 && AllSmooth(moves)
    ensures Reached(link, s, moves).books[i].down >= s.books[i].down
    ensures Reached(link, s, moves).books[i].down == s.books[i].down <==> FitsDown(link, s, moves, i)
    decreases |moves|
  {
    hide Balanced, After, Smooth, RefusesDown;
    if |moves| > 0 {
      StepBalanced(link, s, moves[0]);
      DownStep(link, s, moves[0], i);
      DownLostExactly(link, After(link, s, moves[0]), moves[1..], i);
    }
  }

  /** In the other direction the grant is whole in the end if and only if the Host refused no frame
      of the interface for its size. */
  lemma DownConservedExactly(link: Link, s: Sys, moves: seq<Move>, i: nat)
    requires Started(link, s) && i < 3 && AllSmooth(moves)
    ensures var r := Reached(link, s, moves);
            (r.coproc.credit[ChannelAt(i)] + Sum(r.down, Units(ChannelAt(i))) + r.hostRx.pending[i] +
             Sum(r.up, Credits(ChannelAt(i))) == link.grants[i]) <==> FitsDown(link, s, moves, i)
  {
    hide Reached, FitsDown, Sum, JobsOk, Backlog, Circulating, Refundable;
    OpenedBalanced(link, s);
    CreditConserved(link, s, moves, i);
    DownLostExactly(link, s, moves, i);
  }

  // ---------------------------------------------------------------------------------------
  // Ordered limits
  // ---------------------------------------------------------------------------------------

  ghost predicate AllWithin(w: seq<Slot>, limit: nat) {
    forall k :: 0 <= k < |w| ==> WithinLimit(w[k], limit)
  }

  lemma SentWithin(c: Config, t: Tx, canExpand: bool, send: Send, limit: nat)
    requires JobsOk(Backlog(t)) && c.maxFrame <= limit
    ensures AllWithin(Work(c, t, canExpand, send).2, limit)
  {
    hide Work, JobsOk, Backlog, UnitsOf, FrameOk, ChannelOf, SequenceOf, Attempt;
    WorkKeeps(c, t, canExpand, send, 0);
  }

  lemma CreditsWithin(out: seq<Slot>, session: uint32, limit: nat)
    requires CreditsOnly(out, session)
    ensures AllWithin(out, limit)
  {
  }

  lemma ConcatWithin(a: seq<Slot>, b: seq<Slot>, limit: nat)
    requires AllWithin(a, limit) && AllWithin(b, limit)
    ensures AllWithin(a + b, limit) && (|a| > 0 ==> AllWithin(a[1..], limit))
  {
  }

  lemma WithinUpStep(link: Link, s: Sys, m: Move)
    requires Balanced(link, s) && AllWithin(s.up, link.coproc.maxFrame) && Smooth(m)
    requires link.host.maxFrame <= link.coproc.maxFrame
    ensures AllWithin(After(link, s, m).up, link.coproc.maxFrame)
  {
    hide Work, HostReceive, CoprocReceive, HostPaid, CoprocFlush, RxComplete, AdmitRecord, PlaceOf, RecordsIn, Law,
      JobsOk, Backlog, WireOk, AllWithin, CoprocTakesFrame, Queue;
    var limit := link.coproc.maxFrame;
    match m
    case HostWorks(canExpand, send) =>
      SentWithin(link.host, s.host, canExpand, send, limit);
      ConcatWithin(s.up, Work(link.host, s.host, canExpand, send).2, limit);
    case HostFlushes(accepted, now) =>
      var due := HostDue(s.hostRx, now);
      HostPaidFacts(link.session, s.hostRx.pending, due, accepted, 3, 0);
      var out := HostPaid(link.session, s.hostRx.pending, due, accepted, 3);
      CreditsWithin(out, link.session, limit);
      ConcatWithin(s.up, out, limit);
    case _ =>
      ConcatWithin(s.up, s.up, limit);
  }

  lemma WithinDownStep(link: Link, s: Sys, m: Move)
    requires Balanced(link, s) && AllWithin(s.down, link.host.maxFrame) && Smooth(m)
    requires link.coproc.maxFrame <= link.host.maxFrame
    ensures AllWithin(After(link, s, m).down, link.host.maxFrame)
  {
    hide Work, HostReceive, CoprocReceive, HostPaid, CoprocPaid, RxComplete, AdmitRecord, PlaceOf, RecordsIn, Law,
      JobsOk, Backlog, WireOk, AllWithin, CoprocTakesFrame, Queue;
    var limit := link.host.maxFrame;
    ConcatWithin(s.down, s.down, limit);
    match m
    case CoprocWorks(canExpand, send) =>
      SentWithin(link.coproc, s.coproc, canExpand, send, limit);
      ConcatWithin(s.down, Work(link.coproc, s.coproc, canExpand, send).2, limit);
    case CoprocFlushes(accepted) =>
      CoprocPaidFacts(link.session, s.coprocRx.pending, accepted, 3, 0);
      var out := CoprocPaid(link.session, s.coprocRx.pending, accepted, 3);
      CreditsWithin(out, link.session, limit);
      ConcatWithin(s.down, out, limit);
    case CoprocTakes(a) =>
      RefundWithin(link, s, a, limit);
    case _ =>
  }

  lemma RefundWithin(link: Link, s: Sys, a: Arrival, limit: nat)
    requires Balanced(link, s) && AllWithin(s.down, limit)
    ensures AllWithin(CoprocTake(link, s, a).down, limit)
  {
    hide CoprocReceive, PlaceOf, RecordsIn, Law, JobsOk, Backlog, WireOk, AllWithin, CoprocTakesFrame, CreditsOnly,
      SendCredit, SlotOk;
    if |s.up| > 0 {
      RepliesAreCredits(link, s, a);
      var out := CoprocReceive(link.coproc, s.coproc, s.coprocRx, s.up[0], a).3;
      CreditsWithin(out, link.session, limit);
      ConcatWithin(s.down, out, limit);
    }
  }

  lemma RepliesAreCredits(link: Link, s: Sys, a: Arrival)
    requires |s.up| > 0 && s.coproc.session == link.session
    ensures CreditsOnly(CoprocReceive(link.coproc, s.coproc, s.coprocRx, s.up[0], a).3, link.session)
  {
    hide FrameCodec.Decode, PayloadUnits, KeptUnits, Skipped, Tracked;
  }

  lemma {:induction false} LimitsFitUp(link: Link, s: Sys, moves: seq<Move>, i: nat)
    requires Balanced(link, s) && AllWithin(s.up, link.coproc.maxFrame) && AllSmooth(moves)
    requires link.host.maxFrame <= link.coproc.maxFrame
    ensures FitsUp(link, s, moves, i)
    decreases |moves|
  {
    hide Balanced, After, Smooth;
    if |moves| > 0 {
      StepBalanced(link, s, moves[0]);
      WithinUpStep(link, s, moves[0]);
      LimitsFitUp(link, After(link, s, moves[0]), moves[1..], i);
    }
  }

  lemma {:induction false} LimitsFitDown(link: Link, s: Sys, moves: seq<Move>, i: nat)
    requires Balanced(link, s) && AllWithin(s.down, link.host.maxFrame) && AllSmooth(moves)
    requires link.coproc.maxFrame <= link.host.maxFrame
    ensures FitsDown(link, s, moves, i)
    decreases |moves|
  {
    hide Balanced, After, Smooth;
    if |moves| > 0 {
      StepBalanced(link, s, moves[0]);
      WithinDownStep(link, s, moves[0]);
      LimitsFitDown(link, After(link, s, moves[0]), moves[1..], i);
    }
  }

  /** A Host limit no larger than the Coprocessor's is enough for its direction. */
  lemma UpConserves(link: Link, s: Sys, moves: seq<Move>, i: nat)
    requires Started(link, s) && i < 3 && AllSmooth(moves) && link.host.maxFrame <= link.coproc.maxFrame
    ensures var r := Reached(link, s, moves);
            r.host.credit[ChannelAt(i)] + Sum(r.up, Units(ChannelAt(i))) + r.books[i].held +
            r.coprocRx.pending[i] + Sum(r.down, Credits(ChannelAt(i))) == link.grants[i]
  {
    hide Reached, FitsUp, JobsOk, Backlog, Sum, Circulates;
    OpenedBalanced(link, s);
    LimitsFitUp(link, s, moves, i);
    UpConservedExactly(link, s, moves, i);
  }

  /** A Coprocessor limit no larger than the Host's is enough for the other. */
  lemma DownConserves(link: Link, s: Sys, moves: seq<Move>, i: nat)
    requires Started(link, s) && i < 3 && AllSmooth(moves) && link.coproc.maxFrame <= link.host.maxFrame
    ensures var r := Reached(link, s, moves);
            r.coproc.credit[ChannelAt(i)] + Sum(r.down, Units(ChannelAt(i))) + r.hostRx.pending[i] +
            Sum(r.up, Credits(ChannelAt(i))) == link.grants[i]
  {
    hide Reached, FitsDown, JobsOk, Backlog, Sum;
    OpenedBalanced(link, s);
    LimitsFitDown(link, s, moves, i);
    DownConservedExactly(link, s, moves, i);
  }
}
