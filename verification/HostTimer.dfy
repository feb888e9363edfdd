/** The request table as the code keeps it, and the head of the Host's worker loop: expire what is
    overdue, pay the credit that is due, and compute how long to wait for the next job. */
module HostTimer {
  import opened Bytes
  import opened HostRpc
  import LinkState
  import Wire
  import P = CreditProtocol
  import I = CreditInvariant
  import Receiver

  class RpcTable {
    const slots: array<Option<Request>>
    const limit: nat
    var session: uint32
    var ready: bool
    ghost var posted: seq<(nat, Outcome)>
    ghost var called: seq<(nat, Outcome)>

    ghost predicate Valid() {
      slots.Length == MAX_PENDING
    }

    ghost function View(): Table
      requires Valid()
      reads this, slots
    {
      Table(session, ready, slots[..], limit, posted, called)
    }

    constructor (limit: nat)
      ensures Valid() && fresh(slots) && this.limit == limit && session == 0 && !ready
      ensures posted == [] && called == [] && forall k :: 0 <= k < MAX_PENDING ==> slots[k].None?
    {
      this.limit := limit;
      session, ready, posted, called := 0, false, [], [];
      slots := new Option<Request>[MAX_PENDING](_ => None);
    }

    /** `dispatch_completion` */
    method DispatchCompletion(caller: Option<nat>, outcome: Outcome, post: Post)
      requires Valid()
      modifies this`posted, this`called
      ensures View() == Dispatch(old(View()), caller, outcome, post)
    {
      if caller.None? {
        return;
      }
      if !post.alloc {
        called := called + [(caller.value, NoMemory)];
        return;
      }
      posted := posted + [(caller.value, outcome)];
      if !post.accepted {
        posted := old(posted);
        called := called + [(caller.value, ExecutorRefused)];
      }
    }

    method EndSlot(i: nat, outcome: Outcome, post: Post)
      requires Valid() && i < MAX_PENDING
      modifies this`posted, this`called, slots
      ensures View() == End(old(View()), i, outcome, post)
    {
      var request := slots[i];
      if request.None? {
        return;
      }
      slots[i] := None;
      assert slots[..] == old(slots[..])[i := None];
      DispatchCompletion(request.value.caller, outcome, post);
    }

    /** `cancel_pending` */
    method CancelPending(outcome: Outcome, posts: Posts)
      requires Valid()
      modifies this`posted, this`called, slots
      ensures View() == CancelFrom(old(View()), 0, outcome, posts)
    {
      hide End;
      var i := 0;
      while i < MAX_PENDING
        invariant i <= MAX_PENDING && Valid()
        invariant CancelFrom(View(), i, outcome, posts) == CancelFrom(old(View()), 0, outcome, posts)
      {
        EndSlot(i, outcome, posts[i]);
        i := i + 1;
      }
    }

    /** The sweep of `host_process_deadlines`. */
    method ExpireOverdue(now: nat, posts: Posts)
      requires Valid()
      modifies this`posted, this`called, slots
      ensures View() == ExpireFrom(old(View()), 0, now, posts)
    {
      hide End;
      var i := 0;
      while i < MAX_PENDING
        invariant i <= MAX_PENDING && Valid()
        invariant ExpireFrom(View(), i, now, posts) == ExpireFrom(old(View()), 0, now, posts)
      {
        if slots[i].Some? && now >= slots[i].value.deadline {
          EndSlot(i, TimedOut, posts[i]);
        }
        i := i + 1;
      }
    }

    /** `allocate_pending` */
    method AllocatePending() returns (r: nat)
      requires Valid()
      ensures r == FreeFrom(View(), 0)
    {
      var bound := if limit > MAX_PENDING then MAX_PENDING else limit;
      r := 0;
      while r < bound
        invariant r <= bound
        invariant FreeFrom(View(), r) == FreeFrom(View(), 0)
      {
        if slots[r].None? {
          return r;
        }
        r := r + 1;
      }
      r := MAX_PENDING;
    }

    /** `find_pending` */
    method FindPending(id: uint32, service: uint16, kind: uint16) returns (r: nat)
      requires Valid()
      ensures r == FindFrom(View(), 0, id, service, kind)
    {
      r := 0;
      while r < MAX_PENDING
        invariant r <= MAX_PENDING
        invariant FindFrom(View(), r, id, service, kind) == FindFrom(View(), 0, id, service, kind)
      {
        var slot := slots[r];
        if slot.Some? && slot.value.session == session && slot.value.id == id && slot.value.service == service &&
           slot.value.kind == kind {
          return r;
        }
        r := r + 1;
      }
    }

    /** The response branch of `process_frame`. */
    method OnResponse(id: uint32, service: uint16, kind: uint16, reply: Reply, post: Post) returns (found: bool)
      requires Valid()
      modifies this`posted, this`called, slots
      ensures View() == Respond(old(View()), id, service, kind, reply, post)
      ensures found <==> exists k :: 0 <= k < MAX_PENDING && Answers(old(View()), k, id, service, kind)
    {
      hide End;
      var i := FindPending(id, service, kind);
      ghost var before := View();
      forall k | 0 <= k < MAX_PENDING && Answers(before, k, id, service, kind)
        ensures i < MAX_PENDING
      {
        FoundIfThere(before, 0, k, id, service, kind);
      }
      if i == MAX_PENDING {
        EndBeyond(before, Responded(reply.code == STATUS_OK, reply), post);
        return false;
      }
      EndSlot(i, Responded(reply.code == STATUS_OK, reply), post);
      found := true;
    }

    /** `process_rpc_request` with the worker's answer to a refusal: the slot is taken before the
        request is sent and cleared again if that fails. */
    method OnRequest(job: Job, now: nat, defaultTimeout: nat, sent: bool, post: Post)
      requires Valid()
      modifies this`posted, this`called, slots
      ensures View() == Admit(old(View()), job, now, defaultTimeout, sent, post)
    {
      hide FreeFrom, Dispatch;
      if !ready {
        DispatchCompletion(job.caller, NotReady, post);
        return;
      }
      var i := AllocatePending();
      if i == MAX_PENDING {
        DispatchCompletion(job.caller, TableFull, post);
        return;
      }
      var deadline := now + if job.timeout == 0 then defaultTimeout else job.timeout;
      slots[i] := Some(Request(session, job.id, job.service, job.kind, deadline, job.caller));
      if !sent {
        slots[i] := None;
        assert slots[..] == old(slots[..]);
        DispatchCompletion(job.caller, SendFailed, post);
        return;
      }
      assert slots[..] == old(slots[..])[i := slots[i]];
    }
  }

  lemma EndBeyond(t: Table, outcome: Outcome, post: Post)
    ensures End(t, MAX_PENDING, outcome, post) == t
  {
  }

  // ---------------------------------------------------------------------------------------
  // The wait
  // ---------------------------------------------------------------------------------------

  const WAIT_FOREVER: uint32 := UINT32_MAX

  /** The deadlines the worker must meet: of the active requests, of the peer's heartbeat while the
      link is ready, and of the withheld credit. */
  ghost predicate IsDeadline(t: Table, activity: nat, timeout: nat, due: nat, deadline: nat) {
    || (exists k :: 0 <= k < MAX_PENDING && t.slots[k].Some? && t.slots[k].value.deadline == deadline)
    || (t.ready && timeout != 0 && deadline == activity + timeout)
    || (due != 0 && deadline == due)
  }

  function Tables(r: Receiver.HostReceiver): set<object> {
    {r.pending, r.sender.credit, r.sender.sequence, r.sender.queued}
  }

  class HostWorker {
    const table: RpcTable
    const receiver: Receiver.HostReceiver
    const heartbeatTimeout: nat
    var lastActivity: uint64

    ghost predicate Valid()
      reads receiver.sender
    {
      && table.Valid() && receiver.Valid()
      && table.slots !in Tables(receiver)
    }

    constructor (table: RpcTable, receiver: Receiver.HostReceiver, heartbeatTimeout: nat)
      requires table.Valid() && receiver.Valid()
      requires table.slots !in Tables(receiver)
      ensures Valid() && this.table == table && this.receiver == receiver && lastActivity == 0
    {
      this.table, this.receiver, this.heartbeatTimeout, lastActivity := table, receiver, heartbeatTimeout, 0;
    }

    /** `host_next_wait_ms`: never past a deadline, and forever only if there is none. */
    method NextWait(now: nat) returns (wait: uint32)
      requires Valid()
      ensures forall d: nat :: IsDeadline(table.View(), lastActivity, heartbeatTimeout, receiver.due, d) ==>
                          wait <= (if d > now then d - now else 0) && wait != 0xffff_ffff
      ensures wait < 0xffff_fffe ==>
                exists d: nat :: IsDeadline(table.View(), lastActivity, heartbeatTimeout, receiver.due, d) &&
                            wait == if d > now then d - now else 0
    {
      ghost var t := table.View();
      var nearest: Option<nat> := None;
      var i := 0;
      while i < MAX_PENDING
        invariant i <= MAX_PENDING
        invariant forall k :: 0 <= k < i && t.slots[k].Some? ==>
                    nearest.Some? && nearest.value <= t.slots[k].value.deadline
        invariant nearest.Some? ==>
                    exists k :: 0 <= k < i && t.slots[k].Some? && t.slots[k].value.deadline == nearest.value
      {
        assert table.slots[i] == t.slots[i];
        if table.slots[i].Some? && (nearest.None? || table.slots[i].value.deadline < nearest.value) {
          nearest := Some(table.slots[i].value.deadline);
        }
        i := i + 1;
      }
      if table.ready && heartbeatTimeout != 0 {
        var deadline := lastActivity + heartbeatTimeout;
        if nearest.None? || deadline < nearest.value {
          nearest := Some(deadline);
        }
      }
      if receiver.due != 0 && (nearest.None? || receiver.due < nearest.value) {
        nearest := Some(receiver.due);
      }
      assert nearest.Some? ==> IsDeadline(t, lastActivity, heartbeatTimeout, receiver.due, nearest.value);
      wait := if nearest.None? then WAIT_FOREVER
              else if nearest.value <= now then 0
              else if nearest.value - now >= WAIT_FOREVER then WAIT_FOREVER - 1
              else nearest.value - now;
    }

    /** `host_process_deadlines`: the overdue requests time out, and a peer silent for too long
        costs the session every request and the link. */
    method ProcessDeadlines(now: uint64, posts: Posts, lostPosts: Posts) returns (lost: bool)
      requires Valid()
      modifies table, table.slots
      ensures table.View() ==
              Processed(old(table.View()), now, posts, lostPosts, lastActivity, heartbeatTimeout)
      ensures lost == Silent(ExpireFrom(old(table.View()), 0, now, posts), lastActivity, heartbeatTimeout, now)
    {
      hide ExpireFrom, CancelFrom;
      table.ExpireOverdue(now, posts);
      lost := false;
      var silence := (now as int - lastActivity) % 0x1_0000_0000_0000_0000;
      if table.ready && heartbeatTimeout != 0 && silence >= heartbeatTimeout {
        table.CancelPending(TimedOut, lostPosts);
        table.session := 0;
        table.ready := false;
        lost := true;
      }
    }

    /** An accepted frame: the peer was heard from. */
    method Hear(now: uint64)
      modifies this`lastActivity
      ensures lastActivity == now
    {
      lastActivity := now;
    }

    /** Frames and sweeps in any order. */
    method Watch(beats: seq<Beat>)
      requires Valid()
      modifies this`lastActivity, table, table.slots
      ensures (table.View(), lastActivity) == Beats(old(table.View()), old(lastActivity), heartbeatTimeout, beats)
    {
      hide Processed;
      assert beats[0..] == beats;
      var i := 0;
      while i < |beats|
        invariant i <= |beats| && Valid()
        invariant Beats(table.View(), lastActivity, heartbeatTimeout, beats[i..]) ==
                  Beats(old(table.View()), old(lastActivity), heartbeatTimeout, beats)
      {
        assert beats[i..][0] == beats[i] && beats[i..][1..] == beats[i + 1..];
        match beats[i] {
          case Hears(now) => Hear(now);
          case Sweeps(now, posts, lostPosts) => var _ := ProcessDeadlines(now, posts, lostPosts);
        }
        i := i + 1;
      }
      assert beats[|beats|..] == [];
    }

    /** The head of the worker loop at one clock reading. Afterwards no request is overdue, the
        worker will neither sleep past a deadline nor spin on one. */
    method Top(now: uint64, posts: Posts, lostPosts: Posts, accepted: LinkState.InterfaceFlags) returns (wait: uint32)
      requires Valid()
      modifies table, table.slots, receiver`due, receiver.pending, receiver.sender`submitted
      ensures forall k :: 0 <= k < MAX_PENDING ==> !Overdue(table.View(), k, now)
      ensures wait >= 1
      ensures forall d: nat :: IsDeadline(table.View(), lastActivity, heartbeatTimeout, receiver.due, d) ==>
                          d > now && wait <= d - now && wait != 0xffff_ffff
    {
      hide ExpireFrom, CancelFrom, LinkState.HostPaid;
      ghost var before := table.View();
      var lost := ProcessDeadlines(now, posts, lostPosts);
      ghost var t := table.View();
      NothingOverdue(before, now, posts, lostPosts, lastActivity, heartbeatTimeout);
      var retry := receiver.Flush(accepted, now);
      assert table.View() == t;
      AllAhead(t, lastActivity, heartbeatTimeout, receiver.due, now);
      wait := NextWait(now);
    }
  }

  predicate Silent(t: Table, activity: uint64, timeout: nat, now: uint64) {
    t.ready && timeout != 0 && (now as int - activity) % 0x1_0000_0000_0000_0000 >= timeout
  }

  lemma NotSilent(activity: uint64, timeout: nat, now: uint64)
    requires (now as int - activity) % 0x1_0000_0000_0000_0000 < timeout
    ensures activity + timeout > now
  {
    if activity <= now {
      assert (now as int - activity) % 0x1_0000_0000_0000_0000 == now - activity;
    }
  }

  /** `host_process_deadlines` on the table. */
  function Processed(before: Table, now: uint64, posts: Posts, lostPosts: Posts, activity: uint64, timeout: nat)
    : Table
  {
    var swept := ExpireFrom(before, 0, now, posts);
    if Silent(swept, activity, timeout, now)
    then CancelFrom(swept, 0, TimedOut, lostPosts).(session := 0, ready := false)
    else swept
  }

  // ---------------------------------------------------------------------------------------
  // The silent peer
  // ---------------------------------------------------------------------------------------

  /** An accepted frame, or a sweep of the worker. */
  datatype Beat = Hears(now: uint64) | Sweeps(now: uint64, posts: Posts, lostPosts: Posts)

  function Beaten(t: Table, activity: uint64, timeout: nat, b: Beat): (Table, uint64) {
    match b
    case Hears(now) => (t, now)
    case Sweeps(now, posts, lostPosts) => (Processed(t, now, posts, lostPosts, activity, timeout), activity)
  }

  function Beats(t: Table, activity: uint64, timeout: nat, beats: seq<Beat>): (Table, uint64)
    decreases |beats|
  {
    if |beats| == 0 then (t, activity)
    else
      var (t', activity') := Beaten(t, activity, timeout, beats[0]);
      Beats(t', activity', timeout, beats[1..])
  }

  /** The clock never goes back. */
  predicate Ordered(beats: seq<Beat>, from: uint64)
    decreases |beats|
  {
    |beats| > 0 ==> from <= beats[0].now && Ordered(beats[1..], beats[0].now)
  }

  /** Whenever the worker sweeps, the peer was last heard from less than the timeout before. */
  predicate HeardInTime(activity: uint64, timeout: nat, beats: seq<Beat>)
    decreases |beats|
  {
    |beats| > 0 ==>
      match beats[0]
      case Hears(now) => HeardInTime(now, timeout, beats[1..])
      case Sweeps(now, _, _) => now < activity + timeout && HeardInTime(activity, timeout, beats[1..])
  }

  /** One sweep costs the session exactly when the peer has been silent for the timeout; it then
      leaves no request, no session and no ready link, and otherwise only what was overdue goes. */
  lemma SweptExactly(t: Table, now: uint64, posts: Posts, lostPosts: Posts, activity: uint64, timeout: nat)
    requires activity <= now
    ensures var t' := Processed(t, now, posts, lostPosts, activity, timeout);
            if t.ready && timeout > 0 && activity + timeout <= now
            then !t'.ready && t'.session == 0 && forall k :: 0 <= k < MAX_PENDING ==> t'.slots[k].None?
            else && t'.ready == t.ready && t'.session == t.session
                 && forall k :: 0 <= k < MAX_PENDING ==>
                      t'.slots[k] == if t.slots[k].Some? && t.slots[k].value.deadline <= now then None else t.slots[k]
  {
    hide ExpireFrom, CancelFrom;
    var swept := ExpireFrom(t, 0, now, posts);
    assert (now as int - activity) % 0x1_0000_0000_0000_0000 == now - activity;
    ExpiredExactly(t, 0, now, posts, 0);
    forall k | 0 <= k < MAX_PENDING
      ensures Processed(t, now, posts, lostPosts, activity, timeout).slots[k] ==
              if Silent(swept, activity, timeout, now) || Overdue(t, k, now) then None else t.slots[k]
    {
      ExpiredExactly(t, 0, now, posts, k);
      CancelledAll(swept, 0, TimedOut, lostPosts, k);
    }
  }

  lemma NeverReady(t: Table, activity: uint64, timeout: nat, b: Beat)
    requires !t.ready
    ensures !Beaten(t, activity, timeout, b).0.ready
  {
    hide ExpireFrom, CancelFrom;
    if b.Sweeps? {
      ExpiredExactly(t, 0, b.now, b.posts, 0);
    }
  }

  lemma {:induction false} LostForGood(t: Table, activity: uint64, timeout: nat, beats: seq<Beat>)
    requires !t.ready
    ensures !Beats(t, activity, timeout, beats).0.ready
    decreases |beats|
  {
    hide Beaten;
    if |beats| > 0 {
      NeverReady(t, activity, timeout, beats[0]);
      var (t', activity') := Beaten(t, activity, timeout, beats[0]);
      LostForGood(t', activity', timeout, beats[1..]);
    }
  }

  /** Over every run with a monotone clock, the link stays ready in its session if and only if the
      peer was heard from in time at every sweep. */
  lemma {:induction false} KeptWhileHeard(t: Table, activity: uint64, timeout: nat, beats: seq<Beat>, from: uint64)
    requires t.ready && timeout > 0 && activity <= from && Ordered(beats, from)
    ensures Beats(t, activity, timeout, beats).0.ready <==> HeardInTime(activity, timeout, beats)
    ensures HeardInTime(activity, timeout, beats) ==> Beats(t, activity, timeout, beats).0.session == t.session
    decreases |beats|
  {
    hide Processed;
    if |beats| > 0 {
      match beats[0]
      case Hears(now) => KeptWhileHeard(t, now, timeout, beats[1..], now);
      case Sweeps(now, posts, lostPosts) =>
        SweptExactly(t, now, posts, lostPosts, activity, timeout);
        var t' := Processed(t, now, posts, lostPosts, activity, timeout);
        if t'.ready {
          KeptWhileHeard(t', activity, timeout, beats[1..], now);
        } else {
          LostForGood(t', activity, timeout, beats[1..]);
        }
    }
  }

  /** Afterwards every deadline lies ahead. */
  lemma NothingOverdue(before: Table, now: uint64, posts: Posts, lostPosts: Posts, activity: uint64, timeout: nat)
    ensures var t := Processed(before, now, posts, lostPosts, activity, timeout);
            && (forall k :: 0 <= k < MAX_PENDING ==> !Overdue(t, k, now))
            && (t.ready && timeout != 0 ==> activity + timeout > now)
  {
    hide ExpireFrom, CancelFrom;
    var swept := ExpireFrom(before, 0, now, posts);
    var t := Processed(before, now, posts, lostPosts, activity, timeout);
    forall k | 0 <= k < MAX_PENDING
      ensures !Overdue(t, k, now)
    {
      ExpiredExactly(before, 0, now, posts, k);
      CancelledAll(swept, 0, TimedOut, lostPosts, k);
    }
    if t.ready && timeout != 0 {
      NotSilent(activity, timeout, now);
    }
  }

  lemma AllAhead(t: Table, activity: nat, timeout: nat, due: nat, now: nat)
    requires forall k :: 0 <= k < MAX_PENDING ==> !Overdue(t, k, now)
    requires t.ready && timeout != 0 ==> activity + timeout > now
    requires due == 0 || due > now
    ensures forall d: nat :: IsDeadline(t, activity, timeout, due, d) ==> d > now
  {
    forall d: nat | IsDeadline(t, activity, timeout, due, d)
      ensures d > now
    {
      if k :| 0 <= k < MAX_PENDING && t.slots[k].Some? && t.slots[k].value.deadline == d {
        assert !Overdue(t, k, now);
      }
    }
  }

  // ---------------------------------------------------------------------------------------
  // Withheld credit
  // ---------------------------------------------------------------------------------------

  /** Credit withheld since `t` at the latest is due one millisecond after it. */
  ghost predicate DueBy(rx: LinkState.HostRx, t: nat) {
    && rx.due <= t + LinkState.HOST_DELAY_MS
    && ((exists i :: 0 <= i < 3 && rx.pending[i] != 0) ==> rx.due != 0)
  }

  /** Receiving a frame and flushing, at any later clock reading, keep that date. */
  lemma DueByKept(c: LinkState.Config, x: LinkState.Tx, rx: LinkState.HostRx, slot: LinkState.Slot,
                  accepted: LinkState.InterfaceFlags, t: nat, now: nat)
    requires DueBy(rx, t) && t <= now
    ensures DueBy(LinkState.HostReceive(c, x, rx, slot, now).1, now)
    ensures DueBy(LinkState.HostFlush(x, rx, accepted, now).0, now)
  {
    hide LinkState.HostPaid, LinkState.FrameCodec.Decode, LinkState.PayloadUnits;
    var left := LinkState.HostFlush(x, rx, accepted, now).0.pending;
    assert left == [0, 0, 0] ==> forall i :: 0 <= i < 3 ==> left[i] == 0;
  }

  /** The first flush with a later clock reading sends a CreditUpdate for everything withheld. */
  lemma WithheldCreditIsPaid(rx: LinkState.HostRx, t: nat, now: nat, i: nat)
    requires DueBy(rx, t) && t < now && i < 3 && rx.pending[i] != 0
    ensures LinkState.HostPays(rx.pending[i], LinkState.HostDue(rx, now))
  {
  }

  /** The clock readings of a run, from `t` on, never go back. */
  predicate Monotone(moves: seq<P.Move>, t: nat)
    decreases |moves|
  {
    |moves| > 0 ==> t <= Reading(moves[0], t) && Monotone(moves[1..], Reading(moves[0], t))
  }

  /** The clock when a move reads it; the other moves leave the last reading as it was. */
  function Reading(m: P.Move, t: nat): nat {
    match m
    case HostTakes(now) => now
    case HostFlushes(_, now) => now
    case _ => t
  }

  function LastReading(moves: seq<P.Move>, t: nat): nat
    decreases |moves|
  {
    if |moves| == 0 then t else LastReading(moves[1..], Reading(moves[0], t))
  }

  lemma MoveDueBy(link: P.Link, s: P.Sys, m: P.Move, t: nat)
    requires DueBy(s.hostRx, t) && t <= Reading(m, t)
    ensures DueBy(P.After(link, s, m).hostRx, Reading(m, t))
  {
    hide DueBy, LinkState.HostReceive, LinkState.HostFlush, LinkState.CoprocReceive, LinkState.Work, P.CoprocTakesFrame,
      P.PlaceOf, P.RecordsIn, P.WithinLimit, LinkState.AdmitRecord, LinkState.RxComplete;
    match m
    case HostTakes(now) =>
      if |s.down| > 0 {
        DueByKept(link.host, s.host, s.hostRx, s.down[0], [true, true, true], t, now);
      }
      DueByLater(s.hostRx, t, now);
    case HostFlushes(accepted, now) =>
      DueByKept(link.host, s.host, s.hostRx, LinkState.Lost(0), accepted, t, now);
    case _ =>
  }

  lemma DueByLater(rx: LinkState.HostRx, t: nat, now: nat)
    requires DueBy(rx, t) && t <= now
    ensures DueBy(rx, now)
  {
  }

  lemma {:induction false} RunDueBy(link: P.Link, s: P.Sys, moves: seq<P.Move>, t: nat)
    requires DueBy(s.hostRx, t) && Monotone(moves, t)
    ensures DueBy(P.Reached(link, s, moves).hostRx, LastReading(moves, t))
    decreases |moves|
  {
    hide DueBy, P.After, Reading;
    if |moves| > 0 {
      MoveDueBy(link, s, moves[0], t);
      RunDueBy(link, P.After(link, s, moves[0]), moves[1..], Reading(moves[0], t));
    }
  }

  /** Over every run with a monotone clock, the first flush with a later reading offers every
      interface all the credit withheld: what is accepted goes out in full, and only what is refused
      stays. */
  lemma WithheldCreditAttempted(link: P.Link, s: P.Sys, moves: seq<P.Move>, t: nat,
                                accepted: LinkState.InterfaceFlags, now: nat, i: nat)
    requires s.hostRx == LinkState.HostRx([0, 0, 0], 0) && Monotone(moves, t) && LastReading(moves, t) < now && i < 3
    ensures var r := P.Reached(link, s, moves);
            var r' := P.After(link, r, P.HostFlushes(accepted, now));
            var units := r.hostRx.pending[i];
            var credits := Wire.Credits(LinkState.ChannelAt(i));
            && r'.hostRx.pending[i] == (if accepted[i] then 0 else units)
            && Wire.Sum(r'.up, credits) == Wire.Sum(r.up, credits) + (if accepted[i] then units else 0)
  {
    hide P.Reached, Wire.Sum, LinkState.HostPaid;
    RunDueBy(link, s, moves, t);
    var r := P.Reached(link, s, moves);
    var due := LinkState.HostDue(r.hostRx, now);
    if r.hostRx.pending[i] != 0 {
      WithheldCreditIsPaid(r.hostRx, LastReading(moves, t), now, i);
    }
    I.HostPaidFacts(r.host.session, r.hostRx.pending, due, accepted, 3, i);
    Wire.SumConcat(r.up, LinkState.HostPaid(r.host.session, r.hostRx.pending, due, accepted, 3),
                   Wire.Credits(LinkState.ChannelAt(i)));
  }
}
