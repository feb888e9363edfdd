/** When the Coprocessor's worker may sleep: completed records withheld for batching never outgrow
    a batch while nothing is on its way to wake the worker, so a Host out of credit never waits
    for the heartbeat. */
module Wakeup {
  import opened Bytes
  import opened LinkState
  import opened Wire
  import opened Transmit
  import opened CreditProtocol
  import opened CreditInvariant
  import opened CreditTheorems
  import opened Lossless

  /** Where the worker stands: before its flush, blocked on the queue (with the one-millisecond
      retry or without), or inside a job. */
  datatype Place = Top | Blocked(retry: bool) | Busy

  /** `enqueuing` counts backend threads between releasing the mutex and queueing their wake. */
  datatype Worker = Worker(
    place: Place,
    t: Tx,
    rx: CoprocRx,
    queued: nat,
    deferred: bool,
    enqueuing: nat)

  datatype WorkerTurn =
    | Flush(accepted: InterfaceFlags)
    | Receive
    | Timeout
    | Merge(taken: nat, defers: bool)
    | Reset
    | Finish
    | Completed(session: uint32, channel: byte, units: uint32, failed: bool)
    | QueueWake
    | QueueJob

  function Next(depth: nat, initialCredit: uint32, w: Worker, turn: WorkerTurn): Worker {
    match turn
    case Flush(accepted) =>
      if !w.place.Top? then w
      else var (rx, retry, _) := CoprocFlush(w.t, w.rx, accepted); w.(rx := rx, place := Blocked(retry))
    case Receive =>
      if !w.place.Blocked? then w
      else if w.deferred then w.(deferred := false, place := Busy)
      else if w.queued > 0 then w.(queued := w.queued - 1, place := Busy)
      else w
    case Timeout => if w.place.Blocked? then w.(place := Top) else w
    case Merge(taken, defers) =>
      if w.place.Busy? && taken <= w.queued then w.(queued := w.queued - taken, deferred := w.deferred || defers) else w
    case Reset =>
      if w.place.Busy? then w.(rx := w.rx.(pending := [0, 0, 0], failures := 0, wakeQueued := false)) else w
    case Finish => if w.place.Busy? then w.(place := Top) else w
    case Completed(session, channel, units, failed) =>
      var (rx, _, wake) := RxComplete(w.t, w.rx, session, channel, units, failed, initialCredit);
      w.(rx := rx, enqueuing := w.enqueuing + if wake then 1 else 0)
    case QueueWake =>
      if w.enqueuing == 0 then w
      else w.(enqueuing := w.enqueuing - 1, queued := if w.queued < depth then w.queued + 1 else w.queued)
    case QueueJob => if w.queued < depth then w.(queued := w.queued + 1) else w
  }

  function Course(depth: nat, initialCredit: uint32, w: Worker, turns: seq<WorkerTurn>): Worker
    decreases |turns|
  {
    if |turns| == 0 then w
    else Course(depth, initialCredit, Next(depth, initialCredit, w, turns[0]), turns[1..])
  }

  /** Something will make the blocked worker run: a job, a wake on its way, or the retry timer. */
  predicate Stirring(w: Worker) {
    (w.place.Blocked? && w.place.retry) || w.deferred || w.queued > 0 || w.enqueuing > 0
  }

  predicate BelowBatch(rx: CoprocRx, initialCredit: uint32) {
    forall i :: 0 <= i < 3 ==> rx.pending[i] < 32 && (initialCredit > 0 ==> rx.pending[i] < initialCredit)
  }

  /** A blocked worker that nothing stirs withholds less than a batch and owes no wake. */
  predicate Awake(initialCredit: uint32, w: Worker) {
    w.place.Blocked? && !Stirring(w) ==> BelowBatch(w.rx, initialCredit) && !w.rx.wakeQueued
  }

  lemma StepAwake(depth: nat, initialCredit: uint32, w: Worker, turn: WorkerTurn)
    requires depth > 0 && Awake(initialCredit, w)
    ensures Awake(initialCredit, Next(depth, initialCredit, w, turn))
  {
    hide CoprocPaid;
    if turn.Flush? && w.place.Top? {
      var (rx, retry, _) := CoprocFlush(w.t, w.rx, turn.accepted);
      forall i | 0 <= i < 3 && !retry
        ensures rx.pending[i] == 0
      {
        assert !CoprocKeeps(w.t.session, w.rx.pending, turn.accepted, i);
      }
    }
  }

  lemma {:induction false} CourseAwake(depth: nat, initialCredit: uint32, w: Worker, turns: seq<WorkerTurn>)
    requires depth > 0 && Awake(initialCredit, w)
    ensures Awake(initialCredit, Course(depth, initialCredit, w, turns))
    decreases |turns|
  {
    hide Awake, Next;
    if |turns| > 0 {
      StepAwake(depth, initialCredit, w, turns[0]);
      CourseAwake(depth, initialCredit, Next(depth, initialCredit, w, turns[0]), turns[1..]);
    }
  }

  /** From the start of the worker on, whatever interleaving of jobs, completions, wakes dropped by
      a full queue, refused CreditUpdates and session resets: blocked with an empty queue, no
      retry and no wake being queued, every interface withholds less than
      min(initial credit, 32) units. */
  lemma SleepsBelowBatch(depth: nat, initialCredit: uint32, w: Worker, turns: seq<WorkerTurn>)
    requires depth > 0 && w.place.Top?
    ensures var r := Course(depth, initialCredit, w, turns);
            r.place.Blocked? && !Stirring(r) ==> BelowBatch(r.rx, initialCredit)
  {
    CourseAwake(depth, initialCredit, w, turns);
  }

  // ---------------------------------------------------------------------------------------
  // The worker inside the credit protocol
  // ---------------------------------------------------------------------------------------

  /** The whole session together with the place of the Coprocessor's worker. */
  datatype Joint = Joint(sys: Sys, place: Place, enqueuing: nat)

  /** A move of the protocol, or a step of the worker alone: it gets a job, its wait runs out, its
      job is done, or a backend thread queues the wake it owes. */
  datatype JointTurn = Plays(m: Move) | Gets | Expires | Ends | Wakes

  const WAKE: nat := 0

  /** The worker flushes only at the top of its loop, and takes frames and jobs only inside one. */
  function Act(link: Link, x: Joint, turn: JointTurn): Joint {
    match turn
    case Plays(m) =>
      if m.CoprocFlushes? then
        if !x.place.Top? then x
        else Joint(After(link, x.sys, m), Blocked(CoprocFlush(x.sys.coproc, x.sys.coprocRx, m.accepted).1), x.enqueuing)
      else if (m.CoprocTakes? || m.CoprocWorks?) && !x.place.Busy? then x
      else
        var sys := After(link, x.sys, m);
        var owes := m.BackendCompletes? && sys.coprocRx.wakeQueued && !x.sys.coprocRx.wakeQueued;
        Joint(sys, x.place, x.enqueuing + if owes then 1 else 0)
    case Gets => if x.place.Blocked? && (|Backlog(x.sys.coproc)| > 0 || |x.sys.up| > 0) then x.(place := Busy) else x
    case Expires => if x.place.Blocked? then x.(place := Top) else x
    case Ends => if x.place.Busy? then x.(place := Top) else x
    case Wakes =>
      if x.enqueuing == 0 then x
      else x.(sys := After(link, x.sys, CoprocQueues(WAKE)), enqueuing := x.enqueuing - 1)
  }

  function Play(link: Link, x: Joint, turns: seq<JointTurn>): Joint
    decreases |turns|
  {
    if |turns| == 0 then x else Play(link, Act(link, x, turns[0]), turns[1..])
  }

  /** The worker is blocked and neither a job nor a wake nor the retry timer will rouse it. Only an
      arriving frame or the heartbeat can. */
  predicate Asleep(x: Joint) {
    x.place.Blocked? && !x.place.retry && |Backlog(x.sys.coproc)| == 0 && x.enqueuing == 0
  }

  ghost predicate Rested(link: Link, x: Joint) {
    Asleep(x) ==> BelowBatch(x.sys.coprocRx, link.initialCredit) && !x.sys.coprocRx.wakeQueued
  }

  /** A flush that asks for no retry leaves nothing withheld. */
  lemma FlushClears(t: Tx, rx: CoprocRx, accepted: InterfaceFlags)
    ensures var (rx', retry, _) := CoprocFlush(t, rx, accepted);
            !rx'.wakeQueued && (!retry ==> forall i :: 0 <= i < 3 ==> rx'.pending[i] == 0)
  {
    hide CoprocPaid;
    var (rx', retry, _) := CoprocFlush(t, rx, accepted);
    forall i | 0 <= i < 3 && !retry
      ensures rx'.pending[i] == 0
    {
      assert !CoprocKeeps(t.session, rx.pending, accepted, i);
    }
  }

  lemma CompletionRests(link: Link, s: Sys, i: nat, units: uint32, failed: bool)
    ensures var s' := Completion(link, s, i, units, failed);
            && s'.coproc == s.coproc
            && (BelowBatch(s.coprocRx, link.initialCredit) && !s.coprocRx.wakeQueued && !s'.coprocRx.wakeQueued ==>
                  BelowBatch(s'.coprocRx, link.initialCredit))
            && (s.coprocRx.wakeQueued ==> s'.coprocRx.wakeQueued)
  {
  }

  /** Outside flushes, completions and jobs nothing is withheld and no job leaves the queue. */
  lemma OtherMovesRest(link: Link, s: Sys, m: Move)
    requires !m.CoprocFlushes? && !m.CoprocTakes? && !m.CoprocWorks? && !m.BackendCompletes?
    ensures var s' := After(link, s, m);
            s'.coprocRx == s.coprocRx && |Backlog(s'.coproc)| >= |Backlog(s.coproc)|
  {
    hide Work, HostReceive, HostFlush, RecordsIn, PlaceOf, WithinLimit;
  }

  lemma StepRested(link: Link, x: Joint, turn: JointTurn)
    requires Rested(link, x) && link.coproc.queueDepth > 0
    ensures Rested(link, Act(link, x, turn))
  {
    hide CoprocFlush, CoprocTake, CoprocWork, Completion;
    match turn
    case Plays(m) =>
      if m.CoprocFlushes? {
        FlushClears(x.sys.coproc, x.sys.coprocRx, m.accepted);
      } else if m.BackendCompletes? {
        CompletionRests(link, x.sys, m.interface, m.units, m.failed);
      } else if !m.CoprocTakes? && !m.CoprocWorks? {
        OtherMovesRest(link, x.sys, m);
      }
    case Wakes => OtherMovesRest(link, x.sys, CoprocQueues(WAKE));
    case _ =>
  }

  // ---------------------------------------------------------------------------------------
  // No stall
  // ---------------------------------------------------------------------------------------

  predicate SmoothTurn(turn: JointTurn) {
    turn.Plays? ==> Smooth(turn.m)
  }

  /** The Coprocessor's limit refuses no frame of the interface. */
  predicate FitsTurn(link: Link, x: Joint, turn: JointTurn, i: nat) {
    turn.Plays? ==> !RefusesUp(link, x.sys, turn.m, i)
  }

  predicate FitsTurns(link: Link, x: Joint, turns: seq<JointTurn>, i: nat)
    decreases |turns|
  {
    |turns| > 0 ==> FitsTurn(link, x, turns[0], i) && FitsTurns(link, Act(link, x, turns[0]), turns[1..], i)
  }

  ghost predicate Running(link: Link, x: Joint, i: nat)
    requires i < 3
  {
    Balanced(link, x.sys) && NoneLost(x.sys.up) && Intact(x.sys.books[i]) && Rested(link, x)
  }

  lemma MoveRuns(link: Link, s: Sys, m: Move, i: nat)
    requires Balanced(link, s) && NoneLost(s.up) && i < 3 && Intact(s.books[i])
    requires Smooth(m) && !RefusesUp(link, s, m, i)
    ensures var s' := After(link, s, m); Balanced(link, s') && NoneLost(s'.up) && Intact(s'.books[i])
  {
    hide Balanced, NoneLost, Intact, After, RefusesUp;
    StepBalanced(link, s, m);
    NoneLostStep(link, s, m);
    IntactStep(link, s, m, i);
  }

  lemma StepRuns(link: Link, x: Joint, turn: JointTurn, i: nat)
    requires i < 3 && Running(link, x, i) && SmoothTurn(turn) && FitsTurn(link, x, turn, i)
    requires link.coproc.queueDepth > 0
    ensures Running(link, Act(link, x, turn), i)
  {
    hide Balanced, NoneLost, Intact, Rested, After, CoprocFlush;
    StepRested(link, x, turn);
    if turn.Plays? {
      MoveRuns(link, x.sys, turn.m, i);
    } else {
      MoveRuns(link, x.sys, CoprocQueues(WAKE), i);
    }
  }

  lemma {:induction false} PlayRuns(link: Link, x: Joint, turns: seq<JointTurn>, i: nat)
    requires i < 3 && Running(link, x, i) && forall k :: 0 <= k < |turns| ==> SmoothTurn(turns[k])
    requires FitsTurns(link, x, turns, i) && link.coproc.queueDepth > 0
    ensures Running(link, Play(link, x, turns), i)
    decreases |turns|
  {
    hide Running, Act, SmoothTurn, FitsTurn;
    if |turns| > 0 {
      StepRuns(link, x, turns[0], i);
      PlayRuns(link, Act(link, x, turns[0]), turns[1..], i);
    }
  }

  /** No stall on batching: in every state of a lossless session that refuses no frame of the
      interface, if the Host is out of credit and the Coprocessor's worker sleeps, then a frame is
      still on its way to rouse it, the backend still holds a record, or a CreditUpdate is on its way
      to the Host. The heartbeat is never needed. */
  lemma OutOfCreditStillMoves(link: Link, x: Joint, turns: seq<JointTurn>, i: nat)
    requires Started(link, x.sys) && x.place.Top? && i < 3
    requires FitsTurns(link, x, turns, i) && link.coproc.queueDepth > 0
    requires forall k :: 0 <= k < |turns| ==> SmoothTurn(turns[k])
    requires link.grants[i] == link.initialCredit > 0
    ensures var r := Play(link, x, turns);
            Asleep(r) && r.sys.host.credit[ChannelAt(i)] == 0 ==>
              || Sum(r.sys.up, Units(ChannelAt(i))) > 0 || r.sys.books[i].held > 0
              || Sum(r.sys.down, Credits(ChannelAt(i))) > 0
  {
    hide Play, JobsOk, Backlog, Sum, SmoothTurn, FitsTurns;
    OpenedBalanced(link, x.sys);
    PlayRuns(link, x, turns, i);
    WholeIfIntact(link, Play(link, x, turns).sys, i);
  }
}
