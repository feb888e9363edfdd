/** The reservation in front of the HCI and OTA channels: a sender takes a unit of in-flight count
    against the credit, the worker releases it when it sends, and a CreditUpdate that makes
    credit usable again calls the registered tx_ready. A Hello clears the counter and sets the
    credit anew, calls nobody, and leaves the queue as it is. */
module CreditGate {
  import opened Bytes
  import opened Aggregation

  /** `admitting` reservations have not reached the queue yet, `queued` have. `waiting` records
      that a sender was refused for lack of credit and not called since; `calls` counts calls. */
  datatype Gate = Gate(
    credit: uint32,
    inflight: uint32,
    admitting: nat,
    queued: nat,
    waiting: bool,
    calls: nat)

  /** `Hello` is the Coprocessor's handling of a Hello. On the Host it is the end of a session, whose
      credit is then zero (or kept, after a frame of a foreign session), and the HelloResponse,
      before which nothing is reserved. */
  datatype Turn =
    | Reserve
    | Publish(ok: bool)
    | Drain(sent: bool)
    | Update(units: uint32)
    | Hello(credit: uint32)

  predicate Usable(g: Gate) {
    g.credit > g.inflight
  }

  function Release(g: Gate): Gate {
    g.(inflight := if g.inflight > 0 then g.inflight - 1 else 0)
  }

  function Call(g: Gate): Gate {
    g.(waiting := false, calls := g.calls + 1)
  }

  /** The Host saturates at an overflow, the Coprocessor rejects the update. */
  function Credited(side: Side, credit: uint32, units: uint32): Option<uint32> {
    match side
    case HostSide => Some(SaturatingAdd(credit, units))
    case CoprocSide => if UINT32_MAX - credit < units then None else Some(credit + units)
  }

  function Turned(side: Side, g: Gate, t: Turn): Gate {
    match t
    case Reserve =>
      if g.credit <= g.inflight then g.(waiting := true)
      else g.(inflight := g.inflight + 1, admitting := g.admitting + 1)
    case Publish(ok) =>
      if g.admitting == 0 then g
      else if ok then g.(admitting := g.admitting - 1, queued := g.queued + 1)
      else Release(g.(admitting := g.admitting - 1))
    case Drain(sent) =>
      if g.queued == 0 then g
      else
        var released := Release(g.(queued := g.queued - 1));
        if released.credit >= 1 && sent then released.(credit := released.credit - 1) else released
    case Hello(credit) => g.(credit := credit, inflight := 0)
    case Update(units) =>
      match Credited(side, g.credit, units)
      case None => g
      case Some(credit) =>
        var updated := g.(credit := credit);
        if !Usable(g) && Usable(updated) then Call(updated) else updated
  }

  function Course(side: Side, g: Gate, turns: seq<Turn>): Gate
    decreases |turns|
  {
    if |turns| == 0 then g else Course(side, Turned(side, g, turns[0]), turns[1..])
  }

  /** The counter is the records admitted and not yet sent, and credit covers it. */
  ghost predicate Sound(g: Gate) {
    g.inflight == g.admitting + g.queued <= g.credit
  }

  /** What is left of that across sessions: the counter never exceeds either. */
  ghost predicate Bounded(g: Gate) {
    g.inflight <= g.credit && g.inflight <= g.admitting + g.queued
  }

  /** Every record admitted and not yet sent has a unit of credit. */
  ghost predicate Covered(g: Gate) {
    g.admitting + g.queued <= g.credit
  }

  /** Nobody who was refused is left waiting while credit is usable. */
  ghost predicate Called(g: Gate) {
    g.waiting ==> !Usable(g)
  }

  /** What one turn does to the records and the credit. */
  lemma GateTurns(side: Side, g: Gate, t: Turn)
    requires Bounded(g)
    ensures var g' := Turned(side, g, t);
            match t
            case Reserve => g'.credit == g.credit && g'.queued == g.queued &&
                            g'.admitting == g.admitting + (if Usable(g) then 1 else 0)
            case Publish(ok) => g'.credit == g.credit &&
                                (g.admitting > 0 ==> g'.admitting == g.admitting - 1 &&
                                                     g'.queued == g.queued + (if ok then 1 else 0))
            case Drain(sent) => g'.admitting == g.admitting &&
                                (g.queued > 0 ==>
                                   g'.queued == g.queued - 1 &&
                                   g'.credit == g.credit - (if sent && Release(g).credit >= 1 then 1 else 0))
            case Update(units) => g'.admitting == g.admitting && g'.queued == g.queued &&
                                  (g.credit + units <= UINT32_MAX ==> g'.credit == g.credit + units)
            case Hello(credit) => g'.admitting == g.admitting && g'.queued == g.queued && g'.credit == credit
  {
  }

  // ---------------------------------------------------------------------------------------
  // The reservation
  // ---------------------------------------------------------------------------------------

  /** Every turn keeps the reservation sound, except a Hello that finds records admitted and unsent;
      the bounds survive that too. */
  lemma SoundAfterExactly(side: Side, g: Gate, t: Turn)
    requires Sound(g)
    ensures Sound(Turned(side, g, t)) <==> (t.Hello? ==> g.admitting == g.queued == 0)
  {
  }

  lemma BoundedAfter(side: Side, g: Gate, t: Turn)
    requires Bounded(g)
    ensures Bounded(Turned(side, g, t))
  {
  }

  /** Within a session both are kept. */
  lemma InSession(side: Side, g: Gate, t: Turn)
    requires Bounded(g) && !t.Hello?
    ensures var g' := Turned(side, g, t); Bounded(g') && (Sound(g) ==> Sound(g'))
  {
    BoundedAfter(side, g, t);
    if Sound(g) {
      SoundAfterExactly(side, g, t);
    }
  }

  lemma ReleaseKeepsCredit(g: Gate)
    ensures Release(g).credit == g.credit
  {
  }

  lemma {:induction false} CourseBounded(side: Side, g: Gate, turns: seq<Turn>)
    requires Bounded(g)
    ensures Bounded(Course(side, g, turns))
    decreases |turns|
  {
    if |turns| > 0 {
      BoundedAfter(side, g, turns[0]);
      CourseBounded(side, Turned(side, g, turns[0]), turns[1..]);
    }
  }

  /** Whatever sessions came and went, once nothing is admitted and unsent the reservation is sound. */
  lemma SoundOnceDrained(side: Side, g: Gate, turns: seq<Turn>)
    requires Bounded(g)
    ensures var r := Course(side, g, turns); r.admitting == r.queued == 0 ==> Sound(r)
  {
    CourseBounded(side, g, turns);
  }

  /** Every Hello of the run finds nothing admitted and unsent. */
  predicate HellosFindNothing(side: Side, g: Gate, turns: seq<Turn>)
    decreases |turns|
  {
    |turns| > 0 ==>
      && (turns[0].Hello? ==> g.admitting == g.queued == 0)
      && HellosFindNothing(side, Turned(side, g, turns[0]), turns[1..])
  }

  ghost predicate SoundThroughout(side: Side, g: Gate, turns: seq<Turn>)
    decreases |turns|
  {
    Sound(g) && (|turns| > 0 ==> SoundThroughout(side, Turned(side, g, turns[0]), turns[1..]))
  }

  /** The counter is the records admitted and unsent, within the credit, in every state of a run
      exactly when every Hello of the run finds none. */
  lemma {:induction false} SoundThroughoutExactly(side: Side, g: Gate, turns: seq<Turn>)
    requires Sound(g)
    ensures SoundThroughout(side, g, turns) <==> HellosFindNothing(side, g, turns)
    decreases |turns|
  {
    if |turns| > 0 {
      var g' := Turned(side, g, turns[0]);
      SoundAfterExactly(side, g, turns[0]);
      if Sound(g') {
        SoundThroughoutExactly(side, g', turns[1..]);
      } else {
        assert !SoundThroughout(side, g', turns[1..]);
      }
    }
  }

  lemma {:induction false} SoundAtEnd(side: Side, g: Gate, turns: seq<Turn>)
    requires SoundThroughout(side, g, turns)
    ensures Sound(Course(side, g, turns))
    decreases |turns|
  {
    if |turns| > 0 {
      SoundAtEnd(side, Turned(side, g, turns[0]), turns[1..]);
    }
  }

  /** An admitted record then always finds the credit it reserved. */
  lemma AdmittedNeverLacksCredit(side: Side, g: Gate, turns: seq<Turn>)
    requires Sound(g) && HellosFindNothing(side, g, turns)
    ensures var r := Course(side, g, turns);
            && r.inflight == r.admitting + r.queued
            && (r.queued > 0 ==> r.credit >= 1 && Turned(side, r, Drain(true)).credit == r.credit - 1)
  {
    SoundThroughoutExactly(side, g, turns);
    SoundAtEnd(side, g, turns);
  }

  /** Turns of one session. */
  predicate OneSession(turns: seq<Turn>) {
    forall k :: 0 <= k < |turns| ==> !turns[k].Hello?
  }

  /** One record admitted, queued and sent, `n` times over. */
  function Rounds(n: nat): (turns: seq<Turn>)
    ensures OneSession(turns)
  {
    if n == 0 then [] else [Reserve, Publish(true), Drain(true)] + Rounds(n - 1)
  }

  lemma OneTurn(side: Side, g: Gate, t: Turn, rest: seq<Turn>)
    ensures Course(side, g, [t] + rest) == Course(side, Turned(side, g, t), rest)
  {
    assert ([t] + rest)[1..] == rest;
  }

  lemma OneRound(side: Side, g: Gate, rest: seq<Turn>)
    requires g.inflight == 0 && g.credit > 0
    ensures Course(side, g, [Reserve, Publish(true), Drain(true)] + rest) ==
            Course(side, g.(credit := g.credit - 1), rest)
  {
    var reserved := g.(inflight := 1, admitting := g.admitting + 1);
    var queued := g.(inflight := 1, queued := g.queued + 1);
    assert Turned(side, g, Reserve) == reserved && Turned(side, reserved, Publish(true)) == queued;
    assert Turned(side, queued, Drain(true)) == g.(credit := g.credit - 1);
    hide Turned, Course;
    OneTurn(side, g, Reserve, [Publish(true)] + ([Drain(true)] + rest));
    OneTurn(side, reserved, Publish(true), [Drain(true)] + rest);
    OneTurn(side, queued, Drain(true), rest);
    assert [Reserve, Publish(true), Drain(true)] + rest == [Reserve] + ([Publish(true)] + ([Drain(true)] + rest));
  }

  lemma {:induction false} AfterRounds(side: Side, g: Gate, n: uint32)
    requires g.inflight == 0 && n <= g.credit
    ensures Course(side, g, Rounds(n)) == g.(credit := g.credit - n)
    decreases n
  {
    if n > 0 {
      OneRound(side, g, Rounds(n - 1));
      AfterRounds(side, g.(credit := g.credit - 1), n - 1);
      hide Course;
    }
  }

  /** Records left over by a Hello are behind no credit: after as many records as the new session
      grants, what was left over still fills the queue, with no credit for it. */
  lemma LeftoversLackCredit(side: Side, g: Gate, credit: uint32)
    ensures var r := Course(side, Turned(side, g, Hello(credit)), Rounds(credit));
            && r.admitting == g.admitting && r.queued == g.queued && r.credit == 0
            && (g.queued > 0 ==> Turned(side, r, Drain(true)) == r.(queued := g.queued - 1))
  {
    AfterRounds(side, Turned(side, g, Hello(credit)), credit);
  }

  /** A record is queued, the next session begins, and as many records as it grants are admitted and
      sent, the old one first: the last is in the queue with no credit. */
  lemma LeftoverRun(side: Side, credit: uint32)
    requires credit > 0
    ensures var turns := [Reserve, Publish(true), Hello(credit)] + Rounds(credit);
            var r := Course(side, Gate(credit, 0, 0, 0, false, 0), turns);
            r.queued == 1 && r.credit == 0 && Turned(side, r, Drain(true)) == r.(queued := 0)
  {
    var g := Gate(credit, 0, 0, 0, false, 0);
    var reserved := g.(inflight := 1, admitting := 1);
    var queued := g.(inflight := 1, queued := 1);
    assert Turned(side, g, Reserve) == reserved && Turned(side, reserved, Publish(true)) == queued;
    LeftoversLackCredit(side, queued, credit);
    OneTurn(side, g, Reserve, [Publish(true)] + ([Hello(credit)] + Rounds(credit)));
    OneTurn(side, reserved, Publish(true), [Hello(credit)] + Rounds(credit));
    OneTurn(side, queued, Hello(credit), Rounds(credit));
    assert [Reserve, Publish(true), Hello(credit)] + Rounds(credit) ==
           [Reserve] + ([Publish(true)] + ([Hello(credit)] + Rounds(credit)));
    hide Course;
  }

  /** A session covers every record admitted, whatever its run, exactly when it is entered with no
      record admitted and unsent. */
  lemma SessionCoversExactly(side: Side, g: Gate, credit: uint32)
    ensures (forall turns :: OneSession(turns) ==> Covered(Course(side, Turned(side, g, Hello(credit)), turns))) <==>
            g.admitting == g.queued == 0
  {
    var entered := Turned(side, g, Hello(credit));
    if g.admitting == g.queued == 0 {
      forall turns | OneSession(turns)
        ensures Covered(Course(side, entered, turns))
      {
        SessionSound(side, entered, turns);
      }
    } else {
      LeftoversLackCredit(side, g, credit);
      assert OneSession(Rounds(credit)) && !Covered(Course(side, entered, Rounds(credit)));
    }
  }

  lemma {:induction false} SessionSound(side: Side, g: Gate, turns: seq<Turn>)
    requires Sound(g) && OneSession(turns)
    ensures Sound(Course(side, g, turns))
    decreases |turns|
  {
    if |turns| > 0 {
      SoundAfterExactly(side, g, turns[0]);
      SessionSound(side, Turned(side, g, turns[0]), turns[1..]);
    }
  }

  // ---------------------------------------------------------------------------------------
  // The wakeup
  // ---------------------------------------------------------------------------------------

  /** A reservation given back without a frame having been sent: allocator, queue or transport
      refused, or HCI was stopped. */
  predicate GivesBack(g: Gate, t: Turn) {
    && g.inflight > 0
    && ((t.Publish? && !t.ok && g.admitting > 0) || (t.Drain? && !t.sent && g.queued > 0))
  }

  predicate Grants(t: Turn) {
    t.Hello? && t.credit > 0
  }

  /** Credit becomes usable again only at a CreditUpdate, which then calls exactly once, or by a
      reservation given back or a Hello with credit, which never call. */
  lemma UsableAgain(side: Side, g: Gate, t: Turn)
    requires Bounded(g) && !Usable(g)
    ensures var g' := Turned(side, g, t);
            && (Usable(g') <==> (t.Update? && g'.credit > g.credit) || GivesBack(g, t) || Grants(t))
            && g'.calls == g.calls + (if t.Update? && Usable(g') then 1 else 0)
  {
  }

  /** A call is made exactly when a CreditUpdate takes credit from within the counter to beyond it, and
      never for credit that was usable already. */
  lemma OnlyTheEdgeCalls(side: Side, g: Gate, t: Turn)
    ensures var g' := Turned(side, g, t);
            && (t.Update? && g.credit <= g.inflight < g'.credit ==> g'.calls == g.calls + 1 && !g'.waiting)
            && (!(t.Update? && g.credit <= g.inflight < g'.credit) ==>
                  g'.calls == g.calls && (g.waiting ==> g'.waiting))
  {
  }

  /** An update beyond the largest number leaves the Host with that number and is rejected whole by the
      Coprocessor; any other adds its units. */
  lemma UpdateAdds(side: Side, g: Gate, units: uint32)
    ensures var sum := g.credit + units;
            Turned(side, g, Update(units)).credit ==
            if sum <= 0xffff_ffff then sum else if side.HostSide? then 0xffff_ffff else g.credit
    ensures side.CoprocSide? && g.credit + units > 0xffff_ffff ==> Turned(side, g, Update(units)) == g
  {
  }

  /** The two ways a wakeup is lost: somebody waits, and a reservation is given back or a Hello
      brings credit. */
  predicate Misses(g: Gate, t: Turn) {
    g.waiting && (GivesBack(g, t) || Grants(t))
  }

  lemma LostWakeupExactly(side: Side, g: Gate, t: Turn)
    requires Bounded(g) && Called(g)
    ensures !Called(Turned(side, g, t)) <==> Misses(g, t)
  {
  }

  /** No turn of the run misses a call. */
  predicate Steady(side: Side, g: Gate, turns: seq<Turn>)
    decreases |turns|
  {
    |turns| > 0 ==> !Misses(g, turns[0]) && Steady(side, Turned(side, g, turns[0]), turns[1..])
  }

  ghost predicate CalledThroughout(side: Side, g: Gate, turns: seq<Turn>)
    decreases |turns|
  {
    Called(g) && (|turns| > 0 ==> CalledThroughout(side, Turned(side, g, turns[0]), turns[1..]))
  }

  /** Over a run of any sessions nobody told to wait is ever left beside usable credit, exactly when
      no turn misses a call. */
  lemma {:induction false} NoLostWakeup(side: Side, g: Gate, turns: seq<Turn>)
    requires Bounded(g) && Called(g)
    ensures CalledThroughout(side, g, turns) <==> Steady(side, g, turns)
    decreases |turns|
  {
    if |turns| > 0 {
      var g' := Turned(side, g, turns[0]);
      LostWakeupExactly(side, g, turns[0]);
      BoundedAfter(side, g, turns[0]);
      if Called(g') {
        NoLostWakeup(side, g', turns[1..]);
      } else {
        assert !CalledThroughout(side, g', turns[1..]);
      }
    }
  }

  lemma {:induction false} CalledAtEnd(side: Side, g: Gate, turns: seq<Turn>)
    requires CalledThroughout(side, g, turns)
    ensures Called(Course(side, g, turns))
    decreases |turns|
  {
    if |turns| > 0 {
      CalledAtEnd(side, Turned(side, g, turns[0]), turns[1..]);
    }
  }

  /** One unit of credit: a record is queued, the next sender is told to wait, and the transport
      refuses the frame. The sender waits on, though credit is usable. */
  lemma WakeupLost(side: Side)
    ensures var g := Course(side, Gate(1, 0, 0, 0, false, 0), [Reserve, Publish(true), Reserve, Drain(false)]);
            g.waiting && Usable(g) && g.calls == 0
  {
    var turns := [Reserve, Publish(true), Reserve, Drain(false)];
    assert turns[1..] == [Publish(true), Reserve, Drain(false)];
    assert turns[1..][1..] == [Reserve, Drain(false)];
    assert turns[1..][1..][1..] == [Drain(false)];
  }

  /** No credit left: a sender is told to wait, and the next session begins. It waits on. */
  lemma WakeupLostAtHello(side: Side, credit: uint32)
    requires credit > 0
    ensures var g := Course(side, Gate(0, 0, 0, 0, false, 0), [Reserve, Hello(credit)]);
            g.waiting && Usable(g) && g.calls == 0
  {
    assert [Reserve, Hello(credit)] == [Reserve] + ([Hello(credit)] + []);
    OneTurn(side, Gate(0, 0, 0, 0, false, 0), Reserve, [Hello(credit)] + []);
    OneTurn(side, Gate(0, 0, 0, 0, true, 0), Hello(credit), []);
  }

  // ---------------------------------------------------------------------------------------
  // The counters in place
  // ---------------------------------------------------------------------------------------

  /** The credit of one reserved channel and its in-flight counter, as the endpoints keep them. */
  class ReservedChannel {
    const side: Side
    var credit: uint32
    var inflight: uint32
    ghost var admitting: nat
    ghost var queued: nat
    ghost var waiting: bool
    ghost var calls: nat

    ghost function View(): Gate
      reads this
    {
      Gate(credit, inflight, admitting, queued, waiting, calls)
    }

    constructor (side: Side, credit: uint32)
      ensures this.side == side && View() == Gate(credit, 0, 0, 0, false, 0)
    {
      this.side, this.credit, inflight := side, credit, 0;
      admitting, queued, waiting, calls := 0, 0, false, 0;
    }

    /** The part of a send under the mutex: refuse, or reserve. */
    method Take() returns (ok: bool)
      modifies this
      ensures View() == Turned(side, old(View()), Reserve)
      ensures ok <==> Usable(old(View()))
    {
      if credit <= inflight {
        waiting := true;
        return false;
      }
      inflight := inflight + 1;
      admitting := admitting + 1;
      ok := true;
    }

    /** The record is queued, or the reservation given back. */
    method Settle(ok: bool)
      requires admitting > 0
      modifies this
      ensures View() == Turned(side, old(View()), Publish(ok))
    {
      admitting := admitting - 1;
      if ok {
        queued := queued + 1;
      } else if inflight > 0 {
        inflight := inflight - 1;
      }
    }

    /** The worker takes a queued record and sends it on the charged channel. */
    method Send(accepted: bool) returns (charged: bool)
      requires queued > 0
      modifies this
      ensures View() == Turned(side, old(View()), Drain(accepted))
      ensures charged <==> credit < old(credit)
    {
      queued := queued - 1;
      if inflight > 0 {
        inflight := inflight - 1;
      }
      charged := false;
      if credit >= 1 && accepted {
        credit := credit - 1;
        charged := true;
      }
    }

    /** A CreditUpdate of the channel, and whether it calls the sender. */
    method OnCreditUpdate(units: uint32) returns (called: bool)
      modifies this
      ensures View() == Turned(side, old(View()), Update(units))
      ensures called <==> calls == old(calls) + 1
    {
      if side.CoprocSide? && UINT32_MAX - credit < units {
        return false;
      }
      var wasUsable := credit > inflight;
      credit := SaturatingAdd(credit, units);
      called := !wasUsable && credit > inflight;
      if called {
        waiting := false;
        calls := calls + 1;
      }
    }

    /** A Hello: the counter is cleared and the credit set, whatever the queue holds. */
    method OnHello(units: uint32)
      modifies this
      ensures View() == Turned(side, old(View()), Hello(units))
    {
      inflight := 0;
      credit := units;
    }

    /** The channel over any run of turns that settle and send what there is: the counter exceeds
        neither the records nor the credit, reservations stay sound if every Hello finds no record
        admitted and unsent, and if no turn misses a call nobody refused is left waiting. */
    method Serve(turns: seq<Turn>)
      requires Bounded(View()) && Possible(side, View(), turns)
      modifies this
      ensures View() == Course(side, old(View()), turns)
      ensures inflight <= admitting + queued && inflight <= credit
      ensures old(Sound(View()) && HellosFindNothing(side, View(), turns)) ==> inflight == admitting + queued
      ensures old(Called(View()) && Steady(side, View(), turns)) ==> (waiting ==> credit <= inflight)
    {
      CourseBounded(side, View(), turns);
      if Sound(View()) && HellosFindNothing(side, View(), turns) {
        AdmittedNeverLacksCredit(side, View(), turns);
      }
      if Called(View()) && Steady(side, View(), turns) {
        NoLostWakeup(side, View(), turns);
        CalledAtEnd(side, View(), turns);
      }
      hide Turned, Sound, Bounded, Called, Steady, HellosFindNothing;
      assert turns[0..] == turns;
      var i := 0;
      while i < |turns|
        invariant i <= |turns|
        invariant Course(side, View(), turns[i..]) == Course(side, old(View()), turns)
        invariant Possible(side, View(), turns[i..])
      {
        assert turns[i..][0] == turns[i] && turns[i..][1..] == turns[i + 1..];
        match turns[i] {
          case Reserve => var _ := Take();
          case Publish(ok) => Settle(ok);
          case Drain(sent) => var _ := Send(sent);
          case Update(units) => var _ := OnCreditUpdate(units);
          case Hello(units) => OnHello(units);
        }
        i := i + 1;
      }
      assert turns[|turns|..] == [];
    }
  }

  /** Only reserved records are settled and only queued ones sent. */
  ghost predicate Possible(side: Side, g: Gate, turns: seq<Turn>)
    decreases |turns|
  {
    |turns| > 0 ==>
      && (turns[0].Publish? ==> g.admitting > 0) && (turns[0].Drain? ==> g.queued > 0)
      && Possible(side, Turned(side, g, turns[0]), turns[1..])
  }
}
