/** The Host's table of outstanding RPC requests and the ways a request can end
    (host-core/src/host_rpc.c, `dispatch_completion` of host-core/src/host.c). */
module HostRpc {
  import opened Bytes

  const MAX_PENDING: nat := 16

  const STATUS_OK: int16 := 0

  /** What a response carries besides the identity of its request. */
  datatype Reply = Reply(domain: uint16, code: int16, payload: seq<byte>)

  /** What a caller's completion is told. */
  datatype Outcome =
    | Responded(ok: bool, reply: Reply)
    | TimedOut
    | SessionChanged
    | NotReady
    | TableFull
    | SendFailed
    | NoMemory
    | ExecutorRefused

  /** `caller` is the completion; a request may come without one. */
  datatype Request = Request(
    session: uint32,
    id: uint32,
    service: uint16,
    kind: uint16,
    deadline: nat,
    caller: Option<nat>)

  type Slots = s: seq<Option<Request>> | |s| == MAX_PENDING witness seq(MAX_PENDING, _ => None)

  /** Whether a completion task gets its memory and its place in the executor. */
  datatype Post = Post(alloc: bool, accepted: bool)

  type Posts = s: seq<Post> | |s| == MAX_PENDING witness seq(MAX_PENDING, _ => Post(true, true))

  /** `posted` waits in the executor, `called` has been told. */
  datatype Table = Table(
    session: uint32,
    ready: bool,
    slots: Slots,
    limit: nat,
    posted: seq<(nat, Outcome)>,
    called: seq<(nat, Outcome)>)

  /** `dispatch_completion`: through the executor, or at once when that is impossible. */
  function Dispatch(t: Table, caller: Option<nat>, outcome: Outcome, post: Post): Table {
    match caller
    case None => t
    case Some(who) =>
      if !post.alloc then t.(called := t.called + [(who, NoMemory)])
      else if !post.accepted then t.(called := t.called + [(who, ExecutorRefused)])
      else t.(posted := t.posted + [(who, outcome)])
  }

  /** The slot of the request ends with `outcome`. */
  function End(t: Table, i: nat, outcome: Outcome, post: Post): Table {
    if i >= MAX_PENDING || t.slots[i].None? then t
    else Dispatch(t.(slots := t.slots[i := None]), t.slots[i].value.caller, outcome, post)
  }

  /** `cancel_pending`, from slot `i` on. */
  function CancelFrom(t: Table, i: nat, outcome: Outcome, posts: Posts): Table
    decreases MAX_PENDING - i
  {
    if i >= MAX_PENDING then t else CancelFrom(End(t, i, outcome, posts[i]), i + 1, outcome, posts)
  }

  predicate Overdue(t: Table, i: nat, now: nat) {
    i < MAX_PENDING && t.slots[i].Some? && now >= t.slots[i].value.deadline
  }

  /** The deadline sweep of `host_process_deadlines`, from slot `i` on. */
  function ExpireFrom(t: Table, i: nat, now: nat, posts: Posts): Table
    decreases MAX_PENDING - i
  {
    if i >= MAX_PENDING then t
    else ExpireFrom(if Overdue(t, i, now) then End(t, i, TimedOut, posts[i]) else t, i + 1, now, posts)
  }

  /** The first free slot below the configured limit, `MAX_PENDING` if there is none. */
  function FreeFrom(t: Table, i: nat): (r: nat)
    ensures r <= MAX_PENDING && (r < MAX_PENDING ==> t.slots[r].None? && i <= r < t.limit)
    decreases MAX_PENDING - i
  {
    if i >= MAX_PENDING || i >= t.limit then MAX_PENDING
    else if t.slots[i].None? then i
    else FreeFrom(t, i + 1)
  }

  predicate Answers(t: Table, i: nat, id: uint32, service: uint16, kind: uint16) {
    i < MAX_PENDING && t.slots[i].Some? &&
    var r := t.slots[i].value;
    r.session == t.session && r.id == id && r.service == service && r.kind == kind
  }

  function FindFrom(t: Table, i: nat, id: uint32, service: uint16, kind: uint16): (r: nat)
    ensures r <= MAX_PENDING && (r < MAX_PENDING ==> i <= r && Answers(t, r, id, service, kind))
    decreases MAX_PENDING - i
  {
    if i >= MAX_PENDING then MAX_PENDING
    else if Answers(t, i, id, service, kind) then i
    else FindFrom(t, i + 1, id, service, kind)
  }

  datatype Job = Job(id: uint32, service: uint16, kind: uint16, timeout: nat, caller: Option<nat>)

  /** A dequeued request: the worker tells the caller at once whatever goes wrong here. */
  function Admit(t: Table, job: Job, now: nat, defaultTimeout: nat, sent: bool, post: Post): Table {
    if !t.ready then Dispatch(t, job.caller, NotReady, post)
    else
      var i := FreeFrom(t, 0);
      if i == MAX_PENDING then Dispatch(t, job.caller, TableFull, post)
      else if !sent then Dispatch(t, job.caller, SendFailed, post)
      else
        var deadline := now + if job.timeout == 0 then defaultTimeout else job.timeout;
        t.(slots := t.slots[i := Some(Request(t.session, job.id, job.service, job.kind, deadline, job.caller))])
  }

  function Respond(t: Table, id: uint32, service: uint16, kind: uint16, reply: Reply, post: Post): Table {
    End(t, FindFrom(t, 0, id, service, kind), Responded(reply.code == STATUS_OK, reply), post)
  }

  datatype Event =
    | Admits(job: Job, now: nat, timeout: nat, sent: bool, post: Post)
    | Responds(id: uint32, service: uint16, kind: uint16, reply: Reply, post: Post)
    | Expires(now: nat, posts: Posts)
    | Cancels(outcome: Outcome, posts: Posts)
    | Changes(session: uint32, ready: bool)
    | Executes(k: nat)

  function Step(t: Table, e: Event): Table {
    match e
    case Admits(job, now, timeout, sent, post) => Admit(t, job, now, timeout, sent, post)
    case Responds(id, service, kind, reply, post) => Respond(t, id, service, kind, reply, post)
    case Expires(now, posts) => ExpireFrom(t, 0, now, posts)
    case Cancels(outcome, posts) => CancelFrom(t, 0, outcome, posts)
    case Changes(session, ready) => t.(session := session, ready := ready)
    case Executes(k) =>
      if k >= |t.posted| then t
      else t.(posted := t.posted[..k] + t.posted[k + 1..], called := t.called + [t.posted[k]])
  }

  function Run(t: Table, events: seq<Event>): Table
    decreases |events|
  {
    if |events| == 0 then t else Run(Step(t, events[0]), events[1..])
  }

  // ---------------------------------------------------------------------------------------
  // Exactly once
  // ---------------------------------------------------------------------------------------

  function Callers(list: seq<(nat, Outcome)>): multiset<nat>
    decreases |list|
  {
    if |list| == 0 then multiset{} else multiset{list[0].0} + Callers(list[1..])
  }

  function One(caller: Option<nat>): multiset<nat> {
    match caller
    case None => multiset{}
    case Some(who) => multiset{who}
  }

  function Held(slot: Option<Request>): multiset<nat> {
    if slot.Some? then One(slot.value.caller) else multiset{}
  }

  function Waiting(slots: seq<Option<Request>>): multiset<nat>
    decreases |slots|
  {
    if |slots| == 0 then multiset{}
    else Held(slots[0]) + Waiting(slots[1..])
  }

  /** Everyone who is waiting in the table, on the way through the executor, or told. */
  function Accounted(t: Table): multiset<nat> {
    Waiting(t.slots) + Callers(t.posted) + Callers(t.called)
  }

  function Entering(e: Event): multiset<nat> {
    match e
    case Admits(job, _, _, _, _) => One(job.caller)
    case _ => multiset{}
  }

  function AllEntering(events: seq<Event>): multiset<nat>
    decreases |events|
  {
    if |events| == 0 then multiset{} else Entering(events[0]) + AllEntering(events[1..])
  }

  lemma {:induction false} CallersConcat(a: seq<(nat, Outcome)>, b: seq<(nat, Outcome)>)
    ensures Callers(a + b) == Callers(a) + Callers(b)
    decreases |a|
  {
    if |a| == 0 {
      assert a + b == b;
    } else {
      assert (a + b)[1..] == a[1..] + b;
      CallersConcat(a[1..], b);
    }
  }

  /** Multisets add in any order. */
  lemma Carry(head: multiset<nat>, was: multiset<nat>, now: multiset<nat>, out: multiset<nat>, into: multiset<nat>)
    requires now + out == was + into
    ensures head + now + out == head + was + into
  {
    assert head + now + out == head + (now + out);
    assert head + was + into == head + (was + into);
  }

  lemma {:induction false} WaitingUpdate(slots: seq<Option<Request>>, i: nat, slot: Option<Request>)
    requires i < |slots|
    ensures Waiting(slots[i := slot]) + Held(slots[i]) == Waiting(slots) + Held(slot)
    decreases |slots|
  {
    hide Held;
    if i == 0 {
      assert slots[0 := slot][1..] == slots[1..];
    } else {
      assert slots[i := slot][1..] == slots[1..][i - 1 := slot];
      WaitingUpdate(slots[1..], i - 1, slot);
      Carry(Held(slots[0]), Waiting(slots[1..]), Waiting(slots[1..][i - 1 := slot]), Held(slots[i]), Held(slot));
    }
  }

  lemma OneCaller(who: nat, outcome: Outcome)
    ensures Callers([(who, outcome)]) == multiset{who}
  {
    var list := [(who, outcome)];
    assert list[1..] == [];
    assert Callers(list) == multiset{list[0].0} + Callers(list[1..]);
  }

  lemma Shift(w: multiset<nat>, w': multiset<nat>, one: multiset<nat>, p: multiset<nat>, c: multiset<nat>)
    requires w' + one == w
    ensures w' + p + c + one == w + p + c
  {
  }

  lemma DispatchAccounts(t: Table, caller: Option<nat>, outcome: Outcome, post: Post)
    ensures Accounted(Dispatch(t, caller, outcome, post)) == Accounted(t) + One(caller)
  {
    if caller.Some? {
      var who := caller.value;
      OneCaller(who, NoMemory);
      OneCaller(who, ExecutorRefused);
      OneCaller(who, outcome);
      CallersConcat(t.called, [(who, NoMemory)]);
      CallersConcat(t.called, [(who, ExecutorRefused)]);
      CallersConcat(t.posted, [(who, outcome)]);
    } else {
      assert Accounted(t) + multiset{} == Accounted(t);
    }
  }

  lemma EndAccounts(t: Table, i: nat, outcome: Outcome, post: Post)
    ensures Accounted(End(t, i, outcome, post)) == Accounted(t)
  {
    hide Waiting, Callers, Dispatch;
    if i < MAX_PENDING && t.slots[i].Some? {
      WaitingUpdate(t.slots, i, None);
      Shift(Waiting(t.slots), Waiting(t.slots[i := None]), One(t.slots[i].value.caller),
            Callers(t.posted), Callers(t.called));
      DispatchAccounts(t.(slots := t.slots[i := None]), t.slots[i].value.caller, outcome, post);
    }
  }

  lemma {:induction false} CancelAccounts(t: Table, i: nat, outcome: Outcome, posts: Posts)
    ensures Accounted(CancelFrom(t, i, outcome, posts)) == Accounted(t)
    decreases MAX_PENDING - i
  {
    hide Accounted, End;
    if i < MAX_PENDING {
      EndAccounts(t, i, outcome, posts[i]);
      CancelAccounts(End(t, i, outcome, posts[i]), i + 1, outcome, posts);
    }
  }

  lemma {:induction false} ExpireAccounts(t: Table, i: nat, now: nat, posts: Posts)
    ensures Accounted(ExpireFrom(t, i, now, posts)) == Accounted(t)
    decreases MAX_PENDING - i
  {
    hide Accounted, End;
    if i < MAX_PENDING {
      EndAccounts(t, i, TimedOut, posts[i]);
      ExpireAccounts(if Overdue(t, i, now) then End(t, i, TimedOut, posts[i]) else t, i + 1, now, posts);
    }
  }

  lemma AdmitAccounts(t: Table, job: Job, now: nat, timeout: nat, sent: bool, post: Post)
    ensures Accounted(Admit(t, job, now, timeout, sent, post)) == Accounted(t) + One(job.caller)
  {
    hide Waiting, Callers, Dispatch, FreeFrom;
    DispatchAccounts(t, job.caller, NotReady, post);
    DispatchAccounts(t, job.caller, TableFull, post);
    DispatchAccounts(t, job.caller, SendFailed, post);
    var i := FreeFrom(t, 0);
    if i < MAX_PENDING {
      var deadline := now + if job.timeout == 0 then timeout else job.timeout;
      var taken := t.slots[i := Some(Request(t.session, job.id, job.service, job.kind, deadline, job.caller))];
      WaitingUpdate(t.slots, i, taken[i]);
      Shift(Waiting(taken), Waiting(t.slots), One(job.caller), Callers(t.posted), Callers(t.called));
    }
  }

  lemma ExecuteAccounts(t: Table, k: nat)
    ensures Accounted(Step(t, Executes(k))) == Accounted(t)
  {
    hide Waiting, Callers;
    if k < |t.posted| {
      var front, task, rest := t.posted[..k], [t.posted[k]], t.posted[k + 1..];
      assert t.posted == front + (task + rest);
      CallersConcat(front, task + rest);
      CallersConcat(task, rest);
      CallersConcat(front, rest);
      CallersConcat(t.called, task);
    }
  }

  lemma StepAccounts(t: Table, e: Event)
    ensures Accounted(Step(t, e)) == Accounted(t) + Entering(e)
  {
    hide Waiting, Callers, Admit, End, ExpireFrom, CancelFrom, FindFrom;
    assert Accounted(t) + multiset{} == Accounted(t);
    match e
    case Admits(job, now, timeout, sent, post) => AdmitAccounts(t, job, now, timeout, sent, post);
    case Responds(id, service, kind, reply, post) =>
      EndAccounts(t, FindFrom(t, 0, id, service, kind), Responded(reply.code == STATUS_OK, reply), post);
    case Expires(now, posts) => ExpireAccounts(t, 0, now, posts);
    case Cancels(outcome, posts) => CancelAccounts(t, 0, outcome, posts);
    case Changes(_, _) =>
    case Executes(k) => ExecuteAccounts(t, k);
  }

  /** Exactly once: over every run, every request taken from the queue is in the table, on its way
      through the executor, or told, and is there once, however it ends. */
  lemma {:induction false} CompletedExactlyOnce(t: Table, events: seq<Event>)
    ensures Accounted(Run(t, events)) == Accounted(t) + AllEntering(events)
    decreases |events|
  {
    hide Accounted, Step, Entering;
    if |events| > 0 {
      StepAccounts(t, events[0]);
      CompletedExactlyOnce(Step(t, events[0]), events[1..]);
      assert Accounted(t) + AllEntering(events) ==
        Accounted(t) + Entering(events[0]) + AllEntering(events[1..]);
    } else {
      assert Accounted(t) + multiset{} == Accounted(t);
    }
  }

  // ---------------------------------------------------------------------------------------
  // Which requests end
  // ---------------------------------------------------------------------------------------

  lemma {:induction false} ExpiredExactly(t: Table, i: nat, now: nat, posts: Posts, k: nat)
    requires k < MAX_PENDING
    ensures ExpireFrom(t, i, now, posts).slots[k] == if k >= i && Overdue(t, k, now) then None else t.slots[k]
    ensures ExpireFrom(t, i, now, posts).session == t.session && ExpireFrom(t, i, now, posts).ready == t.ready
    decreases MAX_PENDING - i
  {
    hide Dispatch;
    if i < MAX_PENDING {
      DispatchKeeps(t.(slots := t.slots[i := None]), if t.slots[i].Some? then t.slots[i].value.caller else None,
                    TimedOut, posts[i]);
      ExpiredExactly(if Overdue(t, i, now) then End(t, i, TimedOut, posts[i]) else t, i + 1, now, posts, k);
    }
  }

  lemma {:induction false} CancelledAll(t: Table, i: nat, outcome: Outcome, posts: Posts, k: nat)
    requires k < MAX_PENDING
    ensures CancelFrom(t, i, outcome, posts).slots[k] == if k >= i then None else t.slots[k]
    decreases MAX_PENDING - i
  {
    hide Dispatch;
    if i < MAX_PENDING {
      DispatchKeeps(t.(slots := t.slots[i := None]), if t.slots[i].Some? then t.slots[i].value.caller else None,
                    outcome, posts[i]);
      CancelledAll(End(t, i, outcome, posts[i]), i + 1, outcome, posts, k);
    }
  }

  lemma DispatchKeeps(t: Table, caller: Option<nat>, outcome: Outcome, post: Post)
    ensures var t' := Dispatch(t, caller, outcome, post);
            t' == t.(posted := t'.posted, called := t'.called)
  {
  }

  /** Live requests of one session carry different ids. */
  ghost predicate DistinctIds(t: Table) {
    forall i, j :: 0 <= i < j < MAX_PENDING && t.slots[i].Some? && t.slots[j].Some? &&
                   t.slots[i].value.session == t.slots[j].value.session ==>
                     t.slots[i].value.id != t.slots[j].value.id
  }

  lemma {:induction false} FoundIfThere(t: Table, i: nat, k: nat, id: uint32, service: uint16, kind: uint16)
    requires i <= k < MAX_PENDING && Answers(t, k, id, service, kind)
    ensures FindFrom(t, i, id, service, kind) <= k
    decreases MAX_PENDING - i
  {
    if i < k && !Answers(t, i, id, service, kind) {
      FoundIfThere(t, i + 1, k, id, service, kind);
    }
  }

  /** A response of this session ends exactly the request it answers: that slot and no other, and
      none if no request matches. */
  lemma ResponseEndsItsRequest(t: Table, id: uint32, service: uint16, kind: uint16, reply: Reply, post: Post, k: nat)
    requires DistinctIds(t) && k < MAX_PENDING
    ensures Respond(t, id, service, kind, reply, post).slots[k] ==
            if Answers(t, k, id, service, kind) then None else t.slots[k]
  {
    var f := FindFrom(t, 0, id, service, kind);
    if Answers(t, k, id, service, kind) {
      FoundIfThere(t, 0, k, id, service, kind);
      assert Answers(t, f, id, service, kind);
      assert f == k;
    }
  }
}
