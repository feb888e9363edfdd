/** What the balance says about whole sessions. */
module CreditTheorems {
  import opened Bytes
  import opened LinkState
  import opened Wire
  import opened Transmit
  import opened CreditProtocol
  import opened CreditInvariant

  /** A session start with nothing but well-formed jobs in the queues. */
  ghost predicate Started(link: Link, s: Sys) {
    LinkOk(link) && Opened(link, s) && JobsOk(Backlog(s.host)) && JobsOk(Backlog(s.coproc))
  }

  // ---------------------------------------------------------------------------------------
  // Conservation
  // ---------------------------------------------------------------------------------------

  /** In every reachable state and for every interface: what circulates from Host to Coprocessor,
      what the next gap refund returns and what has leaked are together the Hello grant, so loss
      never inflates the window; and the other direction conserves its grant up to what it lost. */
  lemma CreditConserved(link: Link, s: Sys, moves: seq<Move>, i: nat)
    requires Started(link, s) && i < 3
    ensures var r := Reached(link, s, moves);
            && Circulating(r, i) + Refundable(r, i) + Leaked(r.books[i]) == link.grants[i]
            && Leaked(r.books[i]) >= 0 && r.books[i].wrapped >= 0
            && Circulating(r, i) + Refundable(r, i) <= link.grants[i]
            && r.coproc.credit[ChannelAt(i)] + Sum(r.down, Units(ChannelAt(i))) + r.hostRx.pending[i] +
               Sum(r.up, Credits(ChannelAt(i))) + r.books[i].down == link.grants[i]
  {
    hide Reached, Circulating, Refundable, Sum, Opened, JobsOk, Backlog;
    OpenedBalanced(link, s);
    RunBalanced(link, s, moves);
    assert Law(link, Reached(link, s, moves), i);
  }

  /** The window is whole, up to the gaps that will be refunded, exactly when none of the four
      causes has taken anything: no place lost before the first frame received, no lost frame of
      several records, no CreditUpdate refused or lost, no gap past 2^31. */
  lemma WindowWholeExactly(link: Link, s: Sys, moves: seq<Move>, i: nat)
    requires Started(link, s) && i < 3
    ensures var r := Reached(link, s, moves);
            Circulating(r, i) + Refundable(r, i) == link.grants[i] <==>
            r.books[i].early == r.books[i].extra == r.books[i].refused == r.books[i].wrapped == 0
  {
    hide Reached, Circulating, Refundable, Started;
    CreditConserved(link, s, moves, i);
  }

  /** What losing a frame costs, whenever it happens: all its units but the one its gap will
      refund. */
  lemma LostFrameCosts(link: Link, s: Sys, k: nat)
    requires Balanced(link, s) && k < |s.up| && s.up[k].Data?
    ensures var i, s' := PlaceOf(s.up[k]), UpDrop(s, k);
            && RecordsIn(s.up[k]) >= 1
            && Circulating(s', i) + Refundable(s', i) ==
               Circulating(s, i) + Refundable(s, i) - (RecordsIn(s.up[k]) - 1)
  {
    hide UpDrop, RecordsIn, Circulating, Refundable, PlaceOf, JobsOk, Backlog;
    var i := PlaceOf(s.up[k]);
    UpDropLaw(link, s, k, i);
    assert Law(link, s, i);
    assert SlotOk(s.up[k], link.session);
    PlaceWeights(s.up[k], link.session, i);
    DropBooks(s, k);
  }

  lemma DropBooks(s: Sys, k: nat)
    requires k < |s.up| && s.up[k].Data? && RecordsIn(s.up[k]) >= 1
    ensures var b, b' := s.books[PlaceOf(s.up[k])], UpDrop(s, k).books[PlaceOf(s.up[k])];
            b' == b.(extra := b.extra + (RecordsIn(s.up[k]) - 1))
  {
    hide RecordsIn, PlaceOf;
  }

  lemma {:induction false} WeightInSum(w: seq<Slot>, k: nat, m: Measure)
    requires k < |w|
    ensures Weigh(m, w[k]) <= Sum(w, m)
    decreases |w|
  {
    hide Weigh;
    if k > 0 {
      WeightInSum(w[1..], k - 1, m);
    }
  }

  /** No CreditUpdate on either wire could make its receiver's credit exceed the grant: neither the
      Host's saturation nor the Coprocessor's overflow rejection is ever reached. */
  lemma CreditNeverOverflows(link: Link, s: Sys, moves: seq<Move>, k: nat)
    requires Started(link, s)
    ensures var r := Reached(link, s, moves);
            && (k < |r.down| && r.down[k].Credit? ==>
                  var of := r.down[k].channel;
                  IsEthernet(of) && r.host.credit[of] + r.down[k].units <= link.grants[Index(of)])
            && (k < |r.up| && r.up[k].Credit? ==>
                  var of := r.up[k].channel;
                  IsEthernet(of) && r.coproc.credit[of] + r.up[k].units <= link.grants[Index(of)])
  {
    hide Reached, Sum, Opened, JobsOk, Backlog, InSequence;
    OpenedBalanced(link, s);
    RunBalanced(link, s, moves);
    var r := Reached(link, s, moves);
    if k < |r.down| && r.down[k].Credit? {
      assert SlotOk(r.down[k], link.session);
      assert Law(link, r, Index(r.down[k].channel));
      WeightInSum(r.down, k, Credits(r.down[k].channel));
    }
    if k < |r.up| && r.up[k].Credit? {
      assert SlotOk(r.up[k], link.session);
      assert Law(link, r, Index(r.up[k].channel));
      WeightInSum(r.up, k, Credits(r.up[k].channel));
    }
  }

  // ---------------------------------------------------------------------------------------
  // Where credit can leak
  // ---------------------------------------------------------------------------------------

  /** Below 2^31 units of grant the sequence difference is the true number of lost frames. */
  lemma GapsExactStep(link: Link, s: Sys, m: Move, i: nat)
    requires Balanced(link, s) && i < 3 && link.grants[i] < 0x8000_0000 && s.books[i].wrapped == 0
    ensures After(link, s, m).books[i].wrapped == 0
  {
    hide Sum, Places, InSequence, Flow, Work, HostReceive, CoprocReceive, HostFlush, CoprocFlush, RxComplete,
      AdmitRecord, DownLaw, Wrap32, Weigh, SlotOk, Skipped, PlaceOf, RecordsIn, KeptUnits;
    assert Law(link, s, i);
    if m.CoprocTakes? && |s.up| > 0 && s.up[0].Data? && ChannelOf(s.up[0].frame) == Some(ChannelAt(i)) {
      GapExact(link, s, i);
    }
  }

  lemma GapExact(link: Link, s: Sys, i: nat)
    requires Balanced(link, s) && i < 3 && link.grants[i] < 0x8000_0000 && |s.up| > 0 && s.up[0].Data?
    requires ChannelOf(s.up[0].frame) == Some(ChannelAt(i))
    ensures Skipped(s.coprocRx, ChannelAt(i), SequenceOf(s.up[0].frame)) == s.books[i].missed
  {
    hide Sum, Places, InSequence, Flow, Wrap32, Weigh, SlotOk, Skipped;
    assert Law(link, s, i);
    FrontSequence(s, i, true);
    SkippedExactly(s, i, SequenceOf(s.up[0].frame));
  }

  /** No CreditUpdate of the Coprocessor is refused at its sender or lost on the way. */
  predicate Delivers(s: Sys, m: Move) {
    match m
    case CoprocTakes(a) => a.gapAccepted && a.refundAccepted
    case DownDrops(at) => at < |s.down| ==> !s.down[at].Credit?
    case _ => true
  }

  predicate AllDelivered(link: Link, s: Sys, moves: seq<Move>)
    decreases |moves|
  {
    |moves| > 0 ==> Delivers(s, moves[0]) && AllDelivered(link, After(link, s, moves[0]), moves[1..])
  }

  lemma DeliveredStep(link: Link, s: Sys, m: Move, i: nat)
    requires i < 3 && Delivers(s, m) && s.books[i].refused == 0
    ensures After(link, s, m).books[i].refused == 0
  {
    hide Work, HostReceive, CoprocReceive, HostFlush, CoprocFlush, RxComplete, AdmitRecord, PlaceOf, RecordsIn,
      KeptUnits, PayloadUnits, Skipped, Contents;
  }

  /** Every frame on the wire to the Coprocessor carries one record. */
  ghost predicate Singles(w: seq<Slot>) {
    forall k :: 0 <= k < |w| && w[k].Data? ==> UnitsOf(w[k].frame) <= 1
  }

  lemma SinglesStep(link: Link, s: Sys, m: Move, i: nat)
    requires Balanced(link, s) && i < 3 && link.host.mergeLimit < 2 && Singles(s.up) && s.books[i].extra == 0
    ensures Singles(After(link, s, m).up) && After(link, s, m).books[i].extra == 0
  {
    hide Work, HostReceive, CoprocReceive, HostPaid, CoprocFlush, RxComplete, AdmitRecord, PlaceOf, UnitsOf, KeptUnits,
      PayloadUnits, Skipped, Contents, Law, JobsOk, Backlog, WireOk, Sent, Attempt;
    match m
    case HostWorks(canExpand, send) =>
      SinglesSent(link, s, canExpand, send);
    case HostFlushes(accepted, now) =>
      HostPaidFacts(link.session, s.hostRx.pending, HostDue(s.hostRx, now), accepted, 3, 0);
    case _ =>
  }

  lemma SinglesSent(link: Link, s: Sys, canExpand: bool, send: Send)
    requires link.host.mergeLimit < 2 && link.host.side.HostSide? && JobsOk(Backlog(s.host))
    ensures Singles(Work(link.host, s.host, canExpand, send).2)
  {
    hide Work, JobsOk, Backlog, UnitsOf, FrameOk, ChannelOf, SequenceOf;
    WorkKeeps(link.host, s.host, canExpand, send, 0);
    AttemptsOne(link.host, s.host, canExpand);
  }

  lemma AttemptsOne(c: Config, t: Tx, canExpand: bool)
    requires c.mergeLimit < 2 && c.side.HostSide?
    ensures Attempt(c, t, canExpand).1 == 1
  {
  }

  /** Whatever an interface lost, one step of a run keeps the four causes apart: gaps are exact
      below 2^31, nothing is refused if CreditUpdates are delivered, and without aggregation a
      lost frame is worth exactly the one unit its gap refunds. */
  lemma {:induction false} LeaksApart(link: Link, s: Sys, moves: seq<Move>, i: nat)
    requires Balanced(link, s) && i < 3 && link.grants[i] < 0x8000_0000 && link.host.mergeLimit < 2
    requires AllDelivered(link, s, moves) && Singles(s.up)
    requires s.books[i].wrapped == s.books[i].refused == s.books[i].extra == 0
    ensures var b := Reached(link, s, moves).books[i]; b.wrapped == b.refused == b.extra == 0
    decreases |moves|
  {
    hide Balanced, After, Singles, Delivers;
    if |moves| > 0 {
      GapsExactStep(link, s, moves[0], i);
      DeliveredStep(link, s, moves[0], i);
      SinglesStep(link, s, moves[0], i);
      StepBalanced(link, s, moves[0]);
      LeaksApart(link, After(link, s, moves[0]), moves[1..], i);
    }
  }

  /** Refunded exactly once: with aggregation off, a grant below 2^31 and CreditUpdates delivered,
      every lost frame is either still refundable or already refunded, except those lost before
      the first frame of the session was received. */
  lemma LostFramesRefundedOnce(link: Link, s: Sys, moves: seq<Move>, i: nat)
    requires Started(link, s) && i < 3 && link.grants[i] < 0x8000_0000 && link.host.mergeLimit < 2
    requires AllDelivered(link, s, moves)
    ensures var r := Reached(link, s, moves);
            Circulating(r, i) + Refundable(r, i) == link.grants[i] - r.books[i].early
  {
    hide Reached, Circulating, Refundable, Sum, JobsOk, Backlog;
    OpenedBalanced(link, s);
    LeaksApart(link, s, moves, i);
    CreditConserved(link, s, moves, i);
  }
}
