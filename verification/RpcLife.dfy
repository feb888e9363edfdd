/** One RPC request from its admission on: how long it may stay, which response ends it, and what
    its caller is told. */
module RpcLife {
  import opened Bytes
  import opened HostRpc

  /** The request is admitted to slot `k`. */
  predicate Enters(t: Table, job: Job, now: nat, configured: nat, sent: bool, post: Post, k: nat) {
    k < MAX_PENDING && t.slots[k].None? && Admit(t, job, now, configured, sent, post).slots[k].Some?
  }

  // ---------------------------------------------------------------------------------------
  // Admission
  // ---------------------------------------------------------------------------------------

  lemma {:induction false} FreeExactly(t: Table, i: nat)
    requires i <= MAX_PENDING
    ensures FreeFrom(t, i) == MAX_PENDING <==>
            forall k :: i <= k < MAX_PENDING && k < t.limit ==> t.slots[k].Some?
    ensures FreeFrom(t, i) < MAX_PENDING ==> forall k :: i <= k < FreeFrom(t, i) ==> t.slots[k].Some?
    decreases MAX_PENDING - i
  {
    if i < MAX_PENDING && i < t.limit && t.slots[i].Some? {
      FreeExactly(t, i + 1);
    }
  }

  /** A request enters exactly when the link is ready, a slot below the limit is free, and it can be
      sent; it takes the first free slot and nobody is told. Otherwise the table stays as it is and its
      caller is told why. */
  lemma EntersExactly(t: Table, job: Job, now: nat, configured: nat, sent: bool, post: Post)
    ensures var t' := Admit(t, job, now, configured, sent, post);
            var room := exists k :: 0 <= k < 16 && k < t.limit && t.slots[k].None?;
            && ((exists k :: Enters(t, job, now, configured, sent, post, k)) <==> t.ready && room && sent)
            && (t.ready && room && sent ==>
                  && t'.posted == t.posted && t'.called == t.called
                  && exists k: nat :: Enters(t, job, now, configured, sent, post, k) && k < t.limit
                                 && t'.slots == t.slots[k := t'.slots[k]]
                                 && forall j :: 0 <= j < k ==> t.slots[j].Some?)
            && (!(t.ready && room && sent) ==>
                  && t'.slots == t.slots
                  && Told(t, t', job.caller,
                          if !t.ready then NotReady else if !room then TableFull else SendFailed, post))
  {
    FreeExactly(t, 0);
    var i := FreeFrom(t, 0);
    if t.ready && sent && i < MAX_PENDING {
      assert Enters(t, job, now, configured, sent, post, i);
    }
  }

  /** The caller is told `outcome` through the executor, or at once that there was no memory or no
      place in the executor. */
  ghost predicate Told(t: Table, t': Table, caller: Option<nat>, outcome: Outcome, post: Post) {
    match caller
    case None => t'.posted == t.posted && t'.called == t.called
    case Some(who) =>
      && t'.posted == t.posted + (if post.alloc && post.accepted then [(who, outcome)] else [])
      && t'.called == t.called + (if !post.alloc then [(who, NoMemory)]
                                  else if !post.accepted then [(who, ExecutorRefused)] else [])
  }

  // ---------------------------------------------------------------------------------------
  // While it lives
  // ---------------------------------------------------------------------------------------

  /** No event of the run ends the request in slot `k`. */
  predicate Lives(t: Table, events: seq<Event>, k: nat)
    requires k < MAX_PENDING
    decreases |events|
  {
    |events| > 0 ==> Step(t, events[0]).slots[k].Some? && Lives(Step(t, events[0]), events[1..], k)
  }

  lemma StepKeeps(t: Table, e: Event, k: nat)
    requires k < MAX_PENDING && t.slots[k].Some? && Step(t, e).slots[k].Some?
    ensures Step(t, e).slots[k] == t.slots[k]
  {
    hide ExpireFrom, CancelFrom, FindFrom;
    match e
    case Expires(now, posts) => ExpiredExactly(t, 0, now, posts, k);
    case Cancels(outcome, posts) => CancelledAll(t, 0, outcome, posts, k);
    case _ =>
  }

  lemma {:induction false} LivesOn(t: Table, events: seq<Event>, k: nat)
    requires k < MAX_PENDING && t.slots[k].Some? && Lives(t, events, k)
    ensures Run(t, events).slots[k] == t.slots[k]
    decreases |events|
  {
    hide Step;
    if |events| > 0 {
      StepKeeps(t, events[0], k);
      LivesOn(Step(t, events[0]), events[1..], k);
    }
  }

  /** A request admitted at `now`, as long as nothing else ends it, is ended by a sweep at `later`
      exactly when that is its own timeout after `now`, or the configured one if it has none. */
  lemma TimesOutExactly(t: Table, job: Job, now: nat, configured: nat, sent: bool, post: Post, k: nat,
                        events: seq<Event>, later: nat, posts: Posts)
    requires Enters(t, job, now, configured, sent, post, k)
    requires Lives(Admit(t, job, now, configured, sent, post), events, k)
    ensures var r := Run(Admit(t, job, now, configured, sent, post), events);
            var swept := Step(r, Expires(later, posts));
            && r.slots[k].Some? && r.slots[k].value.caller == job.caller
            && swept.slots[k] ==
               (if later >= now + (if job.timeout > 0 then job.timeout else configured) then None else r.slots[k])
  {
    hide ExpireFrom, Step;
    var admitted := Admit(t, job, now, configured, sent, post);
    LivesOn(admitted, events, k);
    SweepIsStep(Run(admitted, events), later, posts);
    ExpiredExactly(Run(admitted, events), 0, later, posts, k);
  }

  lemma SweepIsStep(t: Table, now: nat, posts: Posts)
    ensures Step(t, Expires(now, posts)) == ExpireFrom(t, 0, now, posts)
  {
  }

  // ---------------------------------------------------------------------------------------
  // What the caller is told
  // ---------------------------------------------------------------------------------------

  lemma DispatchTells(t: Table, caller: Option<nat>, outcome: Outcome, post: Post)
    ensures Told(t, Dispatch(t, caller, outcome, post), caller, outcome, post)
  {
  }

  /** The sweep tells the caller of every request it ends that it timed out. */
  lemma {:induction false} SweepTells(t: Table, i: nat, now: nat, posts: Posts, k: nat)
    requires i <= k < MAX_PENDING && Overdue(t, k, now) && t.slots[k].value.caller.Some?
    ensures var who, t' := t.slots[k].value.caller.value, ExpireFrom(t, i, now, posts);
            && (posts[k].alloc && posts[k].accepted ==> (who, TimedOut) in t'.posted)
            && (!posts[k].alloc ==> (who, NoMemory) in t'.called)
            && (posts[k].alloc && !posts[k].accepted ==> (who, ExecutorRefused) in t'.called)
    decreases MAX_PENDING - i
  {
    hide ExpireFrom;
    var next := if Overdue(t, i, now) then End(t, i, TimedOut, posts[i]) else t;
    assert ExpireFrom(t, i, now, posts) == ExpireFrom(next, i + 1, now, posts) by { SweepNext(t, i, now, posts); }
    if i < k {
      SweepTells(next, i + 1, now, posts, k);
    } else {
      var t' := ExpireFrom(next, i + 1, now, posts);
      var who := t.slots[k].value.caller.value;
      SweepAdds(next, i + 1, now, posts);
      Stays(next.posted, t'.posted, (who, TimedOut));
      Stays(next.called, t'.called, (who, NoMemory));
      Stays(next.called, t'.called, (who, ExecutorRefused));
      DispatchTells(t.(slots := t.slots[k := None]), Some(who), TimedOut, posts[k]);
    }
  }

  lemma Stays<T>(a: seq<T>, b: seq<T>, x: T)
    requires a <= b
    ensures x in a ==> x in b
  {
    assert b[..|a|] == a;
  }

  lemma SweepNext(t: Table, i: nat, now: nat, posts: Posts)
    requires i < MAX_PENDING
    ensures ExpireFrom(t, i, now, posts) ==
            ExpireFrom(if Overdue(t, i, now) then End(t, i, TimedOut, posts[i]) else t, i + 1, now, posts)
  {
  }

  lemma {:induction false} SweepAdds(t: Table, i: nat, now: nat, posts: Posts)
    ensures var t' := ExpireFrom(t, i, now, posts); t.posted <= t'.posted && t.called <= t'.called
    decreases MAX_PENDING - i
  {
    if i < MAX_PENDING {
      SweepAdds(if Overdue(t, i, now) then End(t, i, TimedOut, posts[i]) else t, i + 1, now, posts);
    }
  }

  /** When the session is lost or changed, every live request's caller is told that. */
  lemma {:induction false} CancelTells(t: Table, i: nat, outcome: Outcome, posts: Posts, k: nat)
    requires i <= k < MAX_PENDING && t.slots[k].Some? && t.slots[k].value.caller.Some?
    ensures var who, t' := t.slots[k].value.caller.value, CancelFrom(t, i, outcome, posts);
            && (posts[k].alloc && posts[k].accepted ==> (who, outcome) in t'.posted)
            && (!posts[k].alloc ==> (who, NoMemory) in t'.called)
            && (posts[k].alloc && !posts[k].accepted ==> (who, ExecutorRefused) in t'.called)
    decreases MAX_PENDING - i
  {
    hide CancelFrom;
    var next := End(t, i, outcome, posts[i]);
    assert CancelFrom(t, i, outcome, posts) == CancelFrom(next, i + 1, outcome, posts) by {
      CancelNext(t, i, outcome, posts);
    }
    if i < k {
      CancelTells(next, i + 1, outcome, posts, k);
    } else {
      var t' := CancelFrom(next, i + 1, outcome, posts);
      var who := t.slots[k].value.caller.value;
      CancelAdds(next, i + 1, outcome, posts);
      Stays(next.posted, t'.posted, (who, outcome));
      Stays(next.called, t'.called, (who, NoMemory));
      Stays(next.called, t'.called, (who, ExecutorRefused));
      DispatchTells(t.(slots := t.slots[k := None]), Some(who), outcome, posts[k]);
    }
  }

  lemma CancelNext(t: Table, i: nat, outcome: Outcome, posts: Posts)
    requires i < MAX_PENDING
    ensures CancelFrom(t, i, outcome, posts) == CancelFrom(End(t, i, outcome, posts[i]), i + 1, outcome, posts)
  {
  }

  lemma {:induction false} CancelAdds(t: Table, i: nat, outcome: Outcome, posts: Posts)
    ensures var t' := CancelFrom(t, i, outcome, posts); t.posted <= t'.posted && t.called <= t'.called
    decreases MAX_PENDING - i
  {
    if i < MAX_PENDING {
      CancelAdds(End(t, i, outcome, posts[i]), i + 1, outcome, posts);
    }
  }

  /** No other live request carries the id. */
  ghost predicate Alone(t: Table, k: nat, id: uint32) {
    forall j :: 0 <= j < MAX_PENDING && j != k && t.slots[j].Some? ==> t.slots[j].value.id != id
  }

  ghost predicate NoneAdmits(events: seq<Event>, id: uint32) {
    forall n :: 0 <= n < |events| && events[n].Admits? ==> events[n].job.id != id
  }

  lemma StepAlone(t: Table, e: Event, k: nat, id: uint32)
    requires k < MAX_PENDING && Alone(t, k, id) && (e.Admits? ==> e.job.id != id)
    ensures Alone(Step(t, e), k, id)
  {
    hide ExpireFrom, CancelFrom, FindFrom;
    forall j | 0 <= j < MAX_PENDING && j != k && Step(t, e).slots[j].Some?
      ensures Step(t, e).slots[j].value.id != id
    {
      match e
      case Expires(now, posts) => ExpiredExactly(t, 0, now, posts, j);
      case Cancels(outcome, posts) => CancelledAll(t, 0, outcome, posts, j);
      case _ =>
    }
  }

  lemma {:induction false} StaysAlone(t: Table, events: seq<Event>, k: nat, id: uint32)
    requires k < MAX_PENDING && Alone(t, k, id) && NoneAdmits(events, id)
    ensures Alone(Run(t, events), k, id)
    decreases |events|
  {
    hide Step, Alone;
    if |events| > 0 {
      StepAlone(t, events[0], k, id);
      StaysAlone(Step(t, events[0]), events[1..], k, id);
    }
  }

  /** A response of the session with the request's own id, service and method ends it and nothing
      else, and its caller is told exactly that response: its domain, its code, its payload, and
      success if and only if the code is zero. */
  lemma ToldItsResponse(t: Table, job: Job, now: nat, configured: nat, sent: bool, post: Post, k: nat,
                        events: seq<Event>, reply: Reply, last: Post)
    requires Enters(t, job, now, configured, sent, post, k)
    requires Lives(Admit(t, job, now, configured, sent, post), events, k)
    requires Alone(t, k, job.id) && NoneAdmits(events, job.id)
    requires Run(Admit(t, job, now, configured, sent, post), events).session == t.session
    ensures var r := Run(Admit(t, job, now, configured, sent, post), events);
            var r' := Step(r, Responds(job.id, job.service, job.kind, reply, last));
            && r'.slots == r.slots[k := None]
            && Told(r, r', job.caller, Responded(reply.code == 0, reply), last)
  {
    var admitted := Admit(t, job, now, configured, sent, post);
    LivesOn(admitted, events, k);
    assert Alone(admitted, k, job.id);
    StaysAlone(admitted, events, k, job.id);
    var r := Run(admitted, events);
    hide Run, Lives, Admit;
    assert Answers(r, k, job.id, job.service, job.kind);
    FoundIfThere(r, 0, k, job.id, job.service, job.kind);
    var f := FindFrom(r, 0, job.id, job.service, job.kind);
    assert Answers(r, f, job.id, job.service, job.kind);
    hide FindFrom;
    DispatchTells(r.(slots := r.slots[k := None]), job.caller, Responded(reply.code == 0, reply), last);
  }

  /** A response of another session, or with another id, service or method, leaves it alone. */
  lemma OthersLeaveIt(t: Table, k: nat, id: uint32, service: uint16, kind: uint16, reply: Reply, post: Post)
    requires k < MAX_PENDING && t.slots[k].Some?
    requires var q := t.slots[k].value;
             q.session != t.session || q.id != id || q.service != service || q.kind != kind
    ensures Step(t, Responds(id, service, kind, reply, post)).slots[k] == t.slots[k]
  {
  }

  /** The executor passes on what was posted, to the same caller, once. */
  lemma ExecutorPasses(t: Table, k: nat)
    ensures var t' := Step(t, Executes(k));
            && multiset(t'.posted) + multiset(t'.called) == multiset(t.posted) + multiset(t.called)
            && t'.slots == t.slots && (k < |t.posted| ==> t.posted[k] in t'.called && |t'.posted| == |t.posted| - 1)
  {
    if k < |t.posted| {
      assert t.posted == t.posted[..k] + [t.posted[k]] + t.posted[k + 1..];
      assert t.posted[k] == (t.called + [t.posted[k]])[|t.called|];
    }
  }
}
