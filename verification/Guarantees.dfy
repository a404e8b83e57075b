/** What every run of one RPC connection guarantees its client, on top of the invariant of
    `Lifecycle` (crates/arti-rpcserver/src/connection.rs, connection/methods.rs, msgs.rs). */
module Guarantees {
  import opened Wrappers
  import opened Messages
  import opened RunLoop
  import opened Lifecycle
  import I = Inflight
  import C = Cancel

  /** The written responses of one invocation: any number of updates, only if it asked for them,
      then at most one final response, which is its outcome; all under its own id. */
  lemma ResponsesOfAnInvocation(ss: seq<State>, es: seq<Event>, k: nat, i: nat)
    requires Run(ss, es) && k <= |es| && i < |ss[k].invs|
    ensures var out, v := Of(ss[k].loop.written, i), ss[k].invs[i];
            && (forall j | 0 <= j < |out| :: out[j].id == Some(v.request.id))
            && (forall j | 0 <= j < |out| :: out[j].body.Update? ==> v.request.updates)
            && (forall j | 0 <= j < |out| - 1 :: !IsFinal(out[j].body))
            && (forall j | 0 <= j < |out| && IsFinal(out[j].body) :: v.outcome == Some(out[j].body))
  {
    RunKeepsInv(ss, es, k);
    var v := ss[k].invs[i];
    assert SentFits(v) && StreamFits(ss[k], i);
    var out := Of(ss[k].loop.written, i);
    forall j | 0 <= j < |out| ensures out[j] == v.sent[j] {
    }
  }

  /** An invocation that is done has its outcome on the wire, or in the channel while the loop still
      runs: no final response is lost. */
  lemma FinalIsNotLost(ss: seq<State>, es: seq<Event>, k: nat, i: nat)
    requires Run(ss, es) && k <= |es| && i < |ss[k].invs|
    requires ss[k].invs[i].phase.Unregistered? && ss[k].loop.end.None?
    ensures var all := Of(ss[k].loop.written, i) + Of(ss[k].channel, i);
            all != [] && ss[k].invs[i].outcome == Some(all[|all| - 1].body)
  {
    RunKeepsInv(ss, es, k);
    assert SentFits(ss[k].invs[i]) && StreamFits(ss[k], i) && PhaseFits(ss[k].invs[i]);
  }

  /** A response without an id is the last thing ever written. */
  lemma IdlessIsLast(ss: seq<State>, es: seq<Event>, k: nat, j: nat)
    requires Run(ss, es) && k <= |es| && j < |ss[k].loop.written|
    requires ss[k].loop.written[j].response.id.None?
    ensures j == |ss[k].loop.written| - 1 && k == |es|
  {
    assert k < |es| ==> ss[k].loop.end.None?;
    RunKeepsInv(ss, es, k);
  }

  /** The arms the loop has taken in the first `k` steps. */
  ghost function Arms(ss: seq<State>, es: seq<Event>, k: nat): seq<Arm>
    requires Run(ss, es) && k <= |es|
  {
    if k == 0 then []
    else
      var before := Arms(ss, es, k - 1);
      match es[k - 1]
      case Input(arm) => before + [arm]
      case WriteHead(io) =>
        assert Enabled(ss[k - 1], es[k - 1]);
        before + [Deliver(ss[k - 1].channel[0], io)]
      case _ => before
  }

  /** What the client sees in a run is what the loop of `run_loop` writes for the arms of that run. */
  lemma {:induction false} LoopIsRunLoop(ss: seq<State>, es: seq<Event>, k: nat)
    requires Run(ss, es) && k <= |es|
    ensures ss[k].loop == Turns(Arms(ss, es, k))
  {
    if k > 0 {
      LoopIsRunLoop(ss, es, k - 1);
      assert Enabled(ss[k - 1], es[k - 1]);
      var before := Arms(ss, es, k - 1);
      var arms := Arms(ss, es, k);
      if arms != before {
        assert arms[..|arms| - 1] == before;
      }
    }
  }

  // ---------------------------------------------------------------------------------------------
  // Cancellation
  // ---------------------------------------------------------------------------------------------

  /** A handle is used successfully at most once, and the outcome of a request, once it has one, is
      RequestCancelled exactly when its handle was used successfully. */
  lemma CancelledIffHandleSucceeded(ss: seq<State>, es: seq<Event>, k: nat, t: nat)
    requires Run(ss, es) && k <= |es| && t < |ss[k].invs|
    ensures forall i, j | 0 <= i < j < |ss[k].attempts| :: !(Killed(ss[k], i, t) && Killed(ss[k], j, t))
    ensures ss[k].invs[t].outcome.Some? ==>
              (ss[k].invs[t].outcome.value == Error(RequestCancelled) <==> exists j: nat :: Killed(ss[k], j, t))
  {
    RunKeepsInv(ss, es, k);
    var s := ss[k];
    assert OutcomeFits(s.invs[t]);
    if j: nat :| Killed(s, j, t) {
      assert AttemptFits(s, j);
    }
    forall i, j | 0 <= i < j < |s.attempts| && Killed(s, i, t) && Killed(s, j, t) ensures false {
      KilledOnce(ss, es, k, i, j);
    }
  }

  /** Only a request whose method can be cancelled is ever cancelled. */
  lemma OnlyCancellableIsCancelled(ss: seq<State>, es: seq<Event>, k: nat, t: nat)
    requires Run(ss, es) && k <= |es| && t < |ss[k].invs|
    requires IsDead(ss[k].invs[t]) || ss[k].invs[t].outcome == Some(Error(RequestCancelled))
    ensures ss[k].invs[t].request.call == Plain(true)
  {
    RunKeepsInv(ss, es, k);
    assert PhaseFits(ss[k].invs[t]) && OutcomeFits(ss[k].invs[t]);
  }

  /** Two successful attempts have different targets. */
  lemma {:induction false} KilledOnce(ss: seq<State>, es: seq<Event>, k: nat, i: nat, j: nat)
    requires Run(ss, es) && k <= |es| && i < j < |ss[k].attempts|
    requires ss[k].attempts[i].result.Ok? && ss[k].attempts[j].result.Ok?
    ensures ss[k].attempts[i].target != ss[k].attempts[j].target
  {
    assert Enabled(ss[k - 1], es[k - 1]);
    if j < |ss[k - 1].attempts| {
      KilledOnce(ss, es, k - 1, i, j);
    } else {
      RunKeepsInv(ss, es, k - 1);
      assert AttemptFits(ss[k - 1], i);
      assert HeldFits(ss[k - 1], es[k - 1].i);
    }
  }

  /** No cancel handle is ever used on a request that is already cancelled, so the error that says
      "this error should be impossible" is never produced or written. */
  lemma NeverCancelledTwice(ss: seq<State>, es: seq<Event>, k: nat)
    requires Run(ss, es) && k <= |es|
    ensures forall j | 0 <= j < |ss[k].attempts| :: ss[k].attempts[j].result != Err(C.AlreadyCancelled)
    ensures forall c | 0 <= c < |ss[k].invs| :: ss[k].invs[c].outcome != Some(Error(CancelFailed(CancelledTwice)))
  {
    RunKeepsInv(ss, es, k);
    forall j | 0 <= j < |ss[k].attempts| ensures ss[k].attempts[j].result != Err(C.AlreadyCancelled) {
      assert AttemptFits(ss[k], j);
    }
    forall c | 0 <= c < |ss[k].invs| ensures ss[k].invs[c].outcome != Some(Error(CancelFailed(CancelledTwice))) {
      assert OutcomeFits(ss[k].invs[c]);
    }
  }

  /** The promise of `rpc:cancel`, as the client sees it: if the request was answered with success,
      then a request with the named id was cancelled, and any final response written for that
      request says so. */
  lemma SuccessfulCancelCancels(ss: seq<State>, es: seq<Event>, k: nat, c: nat, j: nat) returns (t: nat)
    requires Run(ss, es) && k <= |es| && c < |ss[k].invs|
    requires ss[k].invs[c].request.call.RpcCancel?
    requires j < |Of(ss[k].loop.written, c)| && Of(ss[k].loop.written, c)[j].body.Success?
    ensures t < |ss[k].invs| && ss[k].invs[t].request.id == ss[k].invs[c].request.call.target
    ensures IsDead(ss[k].invs[t])
    ensures forall r | r in Of(ss[k].loop.written, t) && IsFinal(r.body) :: r.body == Error(RequestCancelled)
  {
    RunKeepsInv(ss, es, k);
    ResponsesOfAnInvocation(ss, es, k, c);
    var s := ss[k];
    assert OutcomeFits(s.invs[c]);
    var a: nat :| Killer(s, a, c);
    assert AttemptFits(s, a);
    t := s.attempts[a].target;
    ResponsesOfAnInvocation(ss, es, k, t);
    assert OutcomeFits(s.invs[t]);
  }

  /** The converse: a request is reported cancelled only because some `rpc:cancel` request named its
      id, and any final response written for that request reports success. */
  lemma CancelledByRequest(ss: seq<State>, es: seq<Event>, k: nat, t: nat, j: nat) returns (c: nat)
    requires Run(ss, es) && k <= |es| && t < |ss[k].invs|
    requires j < |Of(ss[k].loop.written, t)| && Of(ss[k].loop.written, t)[j].body == Error(RequestCancelled)
    ensures c < |ss[k].invs| && ss[k].invs[c].request.call == RpcCancel(ss[k].invs[t].request.id)
    ensures forall r | r in Of(ss[k].loop.written, c) && IsFinal(r.body) :: r.body.Success?
  {
    RunKeepsInv(ss, es, k);
    ResponsesOfAnInvocation(ss, es, k, t);
    var s := ss[k];
    assert OutcomeFits(s.invs[t]);
    var a: nat :| Killed(s, a, t);
    assert AttemptFits(s, a);
    c := s.attempts[a].caller;
    ResponsesOfAnInvocation(ss, es, k, c);
    assert OutcomeFits(s.invs[c]) && PhaseFits(s.invs[c]);
  }

  /** `o` was told that it cancelled, and it was `t` that it cancelled. */
  ghost predicate CancelledBy(s: State, o: nat, t: nat) {
    && o < |s.invs| && t < |s.invs|
    && s.invs[o].request.call == RpcCancel(s.invs[t].request.id)
    && s.invs[o].task.Answered? && s.invs[o].task.result.Ok?
    && exists a: nat :: Killed(s, a, t) && s.attempts[a].caller == o
  }

  /** The other half of what `rpc:cancel` promises, as far as it goes: a cancel request that was answered
      with an error did not cancel a request with the named id, and that request is cancelled exactly
      when another cancel request for it was told so. */
  lemma FailedCancelDidNotCancel(ss: seq<State>, es: seq<Event>, k: nat, c: nat, j: nat, t: nat)
    requires Run(ss, es) && k <= |es| && c < |ss[k].invs| && t < |ss[k].invs|
    requires ss[k].invs[c].request.call == RpcCancel(ss[k].invs[t].request.id)
    requires j < |Of(ss[k].loop.written, c)| && Of(ss[k].loop.written, c)[j].body.Error?
    ensures !CancelledBy(ss[k], c, t)
    ensures IsDead(ss[k].invs[t]) <==> exists o: nat :: o != c && CancelledBy(ss[k], o, t)
  {
    RunKeepsInv(ss, es, k);
    ResponsesOfAnInvocation(ss, es, k, c);
    var s := ss[k];
    assert OutcomeFits(s.invs[c]);
    if IsDead(s.invs[t]) {
      var a: nat :| Killed(s, a, t);
      assert AttemptFits(s, a);
      assert CancelledBy(s, s.attempts[a].caller, t);
    }
    if o: nat :| o != c && CancelledBy(s, o, t) {
      var a: nat :| Killed(s, a, t) && s.attempts[a].caller == o;
      assert AttemptFits(s, a);
    }
  }

  /** A run that ends in `s`. */
  ghost predicate EndsIn(ss: seq<State>, es: seq<Event>, s: State) {
    Run(ss, es) && ss[|es|] == s
  }

  lemma Extend(ss: seq<State>, es: seq<Event>, s: State, e: Event, s': State)
    returns (ss': seq<State>, es': seq<Event>)
    requires EndsIn(ss, es, s) && Enabled(s, e) && s' == Next(s, e)
    ensures EndsIn(ss', es', s')
  {
    ss', es' := ss + [s'], es + [e];
  }

  /** A cancellable request and two requests to cancel it, all of them running. */
  lemma ThreeStart(q: Request, c: Request, d: Request) returns (ss: seq<State>, es: seq<Event>)
    requires q.call == Plain(true) && c.call == RpcCancel(q.id) && d.call == RpcCancel(q.id)
    requires q.id != c.id && q.id != d.id && c.id != d.id
    ensures EndsIn(ss, es, State([Runs(q), Runs(c), Runs(d)], map[q.id := Some(0), c.id := None, d.id := None],
                                 map[q.id := 0, c.id := 1, d.id := 2], [], Loop([], [q, c, d], None), []))
  {
    var l0, l1, l2, l3 := Fresh, Loop([], [q], None), Loop([], [q, c], None), Loop([], [q, c, d], None);
    var n := [New(q), New(c), New(d)];
    ss, es := [Begin()], [];
    ss, es := Extend(ss, es, Begin(), Input(Valid(q)), State([New(q)], map[], map[], [], l1, []));
    ss, es := Extend(ss, es, State([New(q)], map[], map[], [], l1, []), Input(Valid(c)),
                     State([New(q), New(c)], map[], map[], [], l2, []));
    ss, es := Extend(ss, es, State([New(q), New(c)], map[], map[], [], l2, []), Input(Valid(d)),
                     State(n, map[], map[], [], l3, []));
    ss, es := StartAll(q, c, d, l3, ss, es);
  }

  ghost function Runs(q: Request): Invocation {
    Invocation(q, Running, None, if IsCancellable(q.call) then Some(C.NewCell) else None, Idle, None, [])
  }

  lemma StartAll(q: Request, c: Request, d: Request, l: Loop, ss: seq<State>, es: seq<Event>)
    returns (ss': seq<State>, es': seq<Event>)
    requires q.call == Plain(true) && c.call == RpcCancel(q.id) && d.call == RpcCancel(q.id) && l.end.None?
    requires EndsIn(ss, es, State([New(q), New(c), New(d)], map[], map[], [], l, []))
    ensures EndsIn(ss', es', State([Runs(q), Runs(c), Runs(d)], map[q.id := Some(0), c.id := None, d.id := None],
                                   map[q.id := 0, c.id := 1, d.id := 2], [], l, []))
  {
    var s1 := State([Runs(q), New(c), New(d)], map[q.id := Some(0)], map[q.id := 0], [], l, []);
    var s2 := State([Runs(q), Runs(c), New(d)], map[q.id := Some(0), c.id := None], map[q.id := 0, c.id := 1], [], l, []);
    var s3 := State([Runs(q), Runs(c), Runs(d)], map[q.id := Some(0), c.id := None, d.id := None],
                    map[q.id := 0, c.id := 1, d.id := 2], [], l, []);
    ss', es' := Extend(ss, es, State([New(q), New(c), New(d)], map[], map[], [], l, []), Start(0), s1);
    ss', es' := Extend(ss', es', s1, Start(1), s2);
    ss', es' := Extend(ss', es', s2, Start(2), s3);
  }

  /** The first takes the handle and uses it. */
  lemma FirstCancels(q: Request, c: Request, d: Request, l: Loop, w: C.Waker, ss: seq<State>, es: seq<Event>)
    returns (ss': seq<State>, es': seq<Event>, v: Invocation, u: Invocation, uses: seq<Attempt>)
    requires q.call == Plain(true) && c.call == RpcCancel(q.id) && d.call == RpcCancel(q.id) && l.end.None?
    requires q.id != c.id && q.id != d.id && c.id != d.id
    requires EndsIn(ss, es, State([Runs(q), Runs(c), Runs(d)], map[q.id := Some(0), c.id := None, d.id := None],
                                  map[q.id := 0, c.id := 1, d.id := 2], [], l, []))
    ensures v.request == q && IsDead(v) && u.request == c
    ensures EndsIn(ss', es', State([v, u, Runs(d)], map[c.id := None, d.id := None], map[c.id := 1, d.id := 2], [], l, uses))
  {
    var table, owner := map[q.id := Some(0), c.id := None, d.id := None], map[q.id := 0, c.id := 1, d.id := 2];
    var table', owner' := map[c.id := None, d.id := None], map[c.id := 1, d.id := 2];
    assert table - {q.id} == table' && owner - {q.id} == owner';
    var o := C.CancelCell(C.NewCell);
    var polled := Runs(c).(poller := Some(w));
    v, u, uses := Runs(q).(cell := Some(o.cell)), polled.(task := Answered(I.Answer(o.result))), [Attempt(1, 0, o.result)];
    ss', es' := Extend(ss, es, State([Runs(q), Runs(c), Runs(d)], table, owner, [], l, []), BeginPoll(1, w),
                       State([Runs(q), polled, Runs(d)], table, owner, [], l, []));
    ss', es' := Extend(ss', es', State([Runs(q), polled, Runs(d)], table, owner, [], l, []), LookUpTarget(1),
                       State([Runs(q), polled.(task := Holding(0)), Runs(d)], table', owner', [], l, []));
    ss', es' := Extend(ss', es', State([Runs(q), polled.(task := Holding(0)), Runs(d)], table', owner', [], l, []),
                       CancelTarget(1), State([v, u, Runs(d)], table', owner', [], l, uses));
  }

  /** The second finds nothing, and says so. */
  lemma SecondFails(s: State, d: Request, w: C.Waker, ss: seq<State>, es: seq<Event>)
    returns (ss': seq<State>, es': seq<Event>, s': State)
    requires EndsIn(ss, es, s) && |s.invs| == 3 && s.invs[2] == Runs(d) && s.loop.end.None? && s.channel == []
    requires d.call.RpcCancel? && d.call.target !in s.inflight
    ensures EndsIn(ss', es', s') && |s'.invs| == 3 && s'.invs[0] == s.invs[0] && s'.invs[2].request == d
    ensures s'.loop.written
         == s.loop.written + [Tagged(Some(2), Response(Some(d.id), Error(CancelFailed(RequestNotFound))))]
  {
    var error := CancelFailed(RequestNotFound);
    var response := Response(Some(d.id), Error(error));
    var v1 := Runs(d).(poller := Some(w));
    var v2 := v1.(task := Answered(Err(RequestNotFound)));
    var v3 := v2.(poller := None, phase := HasOutcome, outcome := Some(Error(error)));
    var v4 := v3.(sent := [response], phase := Sent);
    ss', es' := Extend(ss, es, s, BeginPoll(2, w), Put(s, 2, v1));
    ss', es' := Extend(ss', es', Put(s, 2, v1), LookUpTarget(2), Put(s, 2, v2));
    ss', es' := Extend(ss', es', Put(s, 2, v2), Complete(2, Err(error)), Put(s, 2, v3));
    var sent := Put(s, 2, v4).(channel := [Tagged(Some(2), response)]);
    assert [] + [response] == [response];
    ss', es' := Extend(ss', es', Put(s, 2, v3), SendFinal(2), sent);
    s' := sent.(channel := [], loop := s.loop.(written := s.loop.written + [Tagged(Some(2), response)]));
    ss', es' := Extend(ss', es', sent, WriteHead(Ok(Unit)), s');
  }

  /** So a cancel request can fail although the request is cancelled: of two for one request, the second
      is told that it was not found. */
  lemma FailedCancelOfCancelled(w: C.Waker) returns (ss: seq<State>, es: seq<Event>)
    ensures Run(ss, es)
    ensures var s := ss[|es|];
            && |s.invs| == 3 && IsDead(s.invs[0]) && s.invs[2].request.call == RpcCancel(s.invs[0].request.id)
            && Of(s.loop.written, 2) == [Response(Some(s.invs[2].request.id), Error(CancelFailed(RequestNotFound)))]
  {
    var q, c, d := Request(Int(7), false, Plain(true)), Request(Int(8), false, RpcCancel(Int(7))),
                   Request(Int(9), false, RpcCancel(Int(7)));
    var l := Loop([], [q, c, d], None);
    var v, u, uses, s';
    ss, es := ThreeStart(q, c, d);
    ss, es, v, u, uses := FirstCancels(q, c, d, l, w, ss, es);
    var s := State([v, u, Runs(d)], map[c.id := None, d.id := None], map[c.id := 1, d.id := 2], [], l, uses);
    ss, es, s' := SecondFails(s, d, w, ss, es);
    var t := Tagged(Some(2), Response(Some(d.id), Error(CancelFailed(RequestNotFound))));
    assert s'.loop.written == [] + [t];
    OfAppend([], t, 2);
  }

  // ---------------------------------------------------------------------------------------------
  // The inflight table
  // ---------------------------------------------------------------------------------------------

  /** No entry leaks: each belongs to an invocation with that id which is registered and not yet
      unregistered, so when every request is done the table is empty. */
  lemma NoLeak(ss: seq<State>, es: seq<Event>, k: nat)
    requires Run(ss, es) && k <= |es|
    ensures forall id | id in ss[k].inflight :: exists i ::
              0 <= i < |ss[k].invs| && ss[k].invs[i].request.id == id && IsRegistered(ss[k].invs[i])
    ensures (forall i | 0 <= i < |ss[k].invs| :: !IsRegistered(ss[k].invs[i])) ==> ss[k].inflight == map[]
  {
    RunKeepsInv(ss, es, k);
    forall id | id in ss[k].inflight
      ensures exists i :: 0 <= i < |ss[k].invs| && ss[k].invs[i].request.id == id && IsRegistered(ss[k].invs[i])
    {
      assert EntryFits(ss[k], id);
    }
  }

  /** The handle of the request has been taken out of the table to cancel it. */
  ghost predicate TakenOut(s: State, t: nat) {
    || (exists c :: 0 <= c < |s.invs| && s.invs[c].task == Holding(t))
    || (exists a :: 0 <= a < |s.attempts| && s.attempts[a].target == t)
  }

  /** The request can still be cancelled by its id, or its handle has been taken for that. */
  ghost predicate Reachable(s: State, t: nat) {
    t < |s.invs| && (InTable(s, t) || TakenOut(s, t))
  }

  ghost predicate StillRegistered(s: State, t: nat) {
    t < |s.invs| && IsRegistered(s.invs[t])
  }

  /** `e` registers or unregisters another request with the id of `t`. */
  ghost predicate Collides(s: State, e: Event, t: nat) {
    && (e.Start? || e.Unregister?)
    && t < |s.invs| && e.i < |s.invs| && e.i != t
    && s.invs[e.i].request.id == s.invs[t].request.id
  }

  lemma CollisionMakesUnreachable(s: State, e: Event, s': State, t: nat)
    requires Handles(s) && Attempts(s) && Enabled(s, e) && s' == Next(s, e)
    requires t < |s.invs| && InTable(s, t) && Collides(s, e, t)
    ensures !Reachable(s', t)
  {
    NobodyHolds(s, t);
  }

  lemma QuietEventsKeepReachable(s: State, e: Event, s': State, t: nat)
    requires Phases(s) && Enabled(s, e) && s' == Next(s, e) && !TouchesTable(e) && t < |s.invs| && InTable(s, t)
    ensures Reachable(s', t)
  {
    OtherEventsKeepTable(s, e);
    assert SameStanding(s.invs[t], s'.invs[t]);
  }

  lemma OnlyCollisionMakesUnreachable(s: State, e: Event, s': State, t: nat)
    requires Phases(s) && Owned(s) && Enabled(s, e) && s' == Next(s, e)
    requires t < |s.invs| && InTable(s, t) && StillRegistered(s', t) && !Collides(s, e, t)
    ensures Reachable(s', t)
  {
    if !TouchesTable(e) {
      QuietEventsKeepReachable(s, e, s', t);
    } else if e.LookUpTarget? && !InTable(s', t) {
      assert s'.invs[e.i].task == Holding(t);
    }
  }

  /** Exactly when a registered request stops being cancellable by its id although nobody tried to
      cancel it: another request with the same id is registered or unregistered. */
  lemma UnreachableIffCollision(s: State, e: Event, s': State, t: nat)
    requires Inv(s) && Enabled(s, e) && s' == Next(s, e)
    requires t < |s.invs| && InTable(s, t) && StillRegistered(s', t)
    ensures !Reachable(s', t) <==> Collides(s, e, t)
  {
    if Collides(s, e, t) {
      CollisionMakesUnreachable(s, e, s', t);
    } else {
      OnlyCollisionMakesUnreachable(s, e, s', t);
    }
  }

  lemma HolderHoldsOn(s: State, e: Event, s': State, c: nat, t: nat)
    requires Enabled(s, e) && s' == Next(s, e) && c < |s.invs| && s.invs[c].task == Holding(t) && e != CancelTarget(c)
    ensures c < |s'.invs| && s'.invs[c].task == Holding(t)
  {
  }

  lemma TakenOutStays(s: State, e: Event, s': State, t: nat)
    requires Enabled(s, e) && s' == Next(s, e) && TakenOut(s, t)
    ensures TakenOut(s', t)
  {
    if c: nat :| c < |s.invs| && s.invs[c].task == Holding(t) {
      if e == CancelTarget(c) {
        assert s'.attempts[|s.attempts|].target == t;
      } else {
        HolderHoldsOn(s, e, s', c, t);
      }
    } else {
      var a :| 0 <= a < |s.attempts| && s.attempts[a].target == t;
      assert s'.attempts[a].target == t;
    }
  }

  /** A request that has started is not put into the table again. */
  lemma OutOfTableStays(s: State, e: Event, s': State, t: nat)
    requires Phases(s) && Enabled(s, e) && s' == Next(s, e) && t < |s.invs| && !s.invs[t].phase.Launched?
    requires !InTable(s, t)
    ensures !InTable(s', t)
  {
    if !TouchesTable(e) {
      OtherEventsKeepTable(s, e);
      assert SameStanding(s.invs[t], s'.invs[t]);
    }
  }

  /** Who holds a handle held it before or found it in the table. */
  lemma HolderHadIt(s: State, e: Event, s': State, c: nat, t: nat)
    requires Owned(s) && Enabled(s, e) && s' == Next(s, e) && t < |s.invs|
    requires c < |s'.invs| && s'.invs[c].task == Holding(t)
    ensures InTable(s, t) || TakenOut(s, t)
  {
    if c < |s.invs| && s.invs[c].task != Holding(t) {
      assert e == LookUpTarget(c);
      assert EntryFits(s, s.invs[c].request.call.target);
    }
  }

  lemma NotTakenStays(s: State, e: Event, s': State, t: nat)
    requires Owned(s) && Enabled(s, e) && s' == Next(s, e) && t < |s.invs| && !InTable(s, t) && !TakenOut(s, t)
    ensures !TakenOut(s', t)
  {
    forall c: nat | c < |s'.invs| ensures s'.invs[c].task != Holding(t) {
      if s'.invs[c].task == Holding(t) {
        HolderHadIt(s, e, s', c, t);
      }
    }
  }

  lemma StartedStep(s: State, e: Event, s': State, t: nat)
    requires Phases(s) && Enabled(s, e) && s' == Next(s, e) && t < |s.invs| && !s.invs[t].phase.Launched?
    ensures t < |s'.invs| && !s'.invs[t].phase.Launched?
    ensures IsRegistered(s'.invs[t]) ==> IsRegistered(s.invs[t])
  {
    assert PhaseFits(s.invs[t]);
  }

  lemma {:induction false} StartedStays(ss: seq<State>, es: seq<Event>, j: nat, k: nat, t: nat)
    requires Run(ss, es) && j < k <= |es| && es[j] == Start(t)
    ensures t < |ss[k].invs| && !ss[k].invs[t].phase.Launched?
    decreases k
  {
    assert Enabled(ss[k - 1], es[k - 1]) && ss[k] == Next(ss[k - 1], es[k - 1]);
    if j + 1 < k {
      StartedStays(ss, es, j, k - 1, t);
      RunKeepsInv(ss, es, k - 1);
      StartedStep(ss[k - 1], es[k - 1], ss[k], t);
    }
  }

  /** Between steps `j` and `k` another request with the id of `t` was registered or unregistered while
      the handle of `t` was in the table. */
  ghost predicate CollidedIn(ss: seq<State>, es: seq<Event>, j: nat, k: nat, t: nat)
    requires k <= |es| < |ss|
  {
    exists m: nat :: j < m < k && t < |ss[m].invs| && InTable(ss[m], t) && Collides(ss[m], es[m], t)
  }

  lemma CollidedStep(ss: seq<State>, es: seq<Event>, j: nat, k: nat, t: nat)
    requires j < k < |es| < |ss| && t < |ss[k].invs|
    ensures CollidedIn(ss, es, j, k + 1, t) <==>
            CollidedIn(ss, es, j, k, t) || (InTable(ss[k], t) && Collides(ss[k], es[k], t))
  {
  }

  /** What one step does to whether a started request can be reached. */
  lemma ReachableStep(s: State, e: Event, s': State, t: nat)
    requires Inv(s) && Enabled(s, e) && s' == Next(s, e) && t < |s.invs| && !s.invs[t].phase.Launched?
    requires StillRegistered(s', t)
    ensures !Reachable(s', t) <==> !Reachable(s, t) || (InTable(s, t) && Collides(s, e, t))
  {
    StartedStep(s, e, s', t);
    if InTable(s, t) {
      UnreachableIffCollision(s, e, s', t);
    } else if TakenOut(s, t) {
      TakenOutStays(s, e, s', t);
    } else {
      OutOfTableStays(s, e, s', t);
      NotTakenStays(s, e, s', t);
    }
  }

  lemma StartIsReachable(s: State, t: nat, s': State)
    requires Enabled(s, Start(t)) && s' == Next(s, Start(t)) && IsCancellable(s.invs[t].request.call)
    ensures Reachable(s', t)
  {
  }

  lemma ReachableInRun(ss: seq<State>, es: seq<Event>, j: nat, k: nat, t: nat)
    requires Run(ss, es) && j < k < |es| && es[j] == Start(t) && StillRegistered(ss[k + 1], t)
    ensures StillRegistered(ss[k], t)
    ensures !Reachable(ss[k + 1], t) <==> !Reachable(ss[k], t) || (InTable(ss[k], t) && Collides(ss[k], es[k], t))
  {
    RunKeepsInv(ss, es, k);
    StartedStays(ss, es, j, k, t);
    assert Enabled(ss[k], es[k]) && ss[k + 1] == Next(ss[k], es[k]);
    StartedStep(ss[k], es[k], ss[k + 1], t);
    ReachableStep(ss[k], es[k], ss[k + 1], t);
  }

  lemma StartedInRun(ss: seq<State>, es: seq<Event>, j: nat, t: nat)
    requires Run(ss, es) && j < |es| && es[j] == Start(t)
    requires t < |ss[j].invs| && IsCancellable(ss[j].invs[t].request.call)
    ensures Reachable(ss[j + 1], t) && !CollidedIn(ss, es, j, j + 1, t)
  {
    assert Enabled(ss[j], es[j]) && ss[j + 1] == Next(ss[j], es[j]);
    StartIsReachable(ss[j], t, ss[j + 1]);
  }

  /** Over whole runs: a cancellable request, from its registration on and as long as it is registered,
      is out of reach of its id exactly when another request with that id was registered or unregistered
      since, while the handle was in the table. */
  lemma {:induction false} UnreachableIffCollided(ss: seq<State>, es: seq<Event>, j: nat, k: nat, t: nat)
    requires Run(ss, es) && j < k <= |es| && es[j] == Start(t)
    requires t < |ss[j].invs| && IsCancellable(ss[j].invs[t].request.call) && StillRegistered(ss[k], t)
    ensures !Reachable(ss[k], t) <==> CollidedIn(ss, es, j, k, t)
    decreases k
  {
    if j + 1 == k {
      StartedInRun(ss, es, j, t);
    } else {
      var m: nat := k - 1;
      ReachableInRun(ss, es, j, m, t);
      UnreachableIffCollided(ss, es, j, m, t);
      CollidedStep(ss, es, j, m, t);
    }
  }

  /** A handle that is in the table is nowhere else. */
  lemma NobodyHolds(s: State, t: nat)
    requires Handles(s) && Attempts(s) && t < |s.invs| && InTable(s, t)
    ensures forall c | 0 <= c < |s.invs| :: s.invs[c].task != Holding(t)
    ensures forall a | 0 <= a < |s.attempts| :: s.attempts[a].target != t
  {
    forall c | 0 <= c < |s.invs| && s.invs[c].task.Holding? ensures s.invs[c].task.target != t {
      assert HeldFits(s, c);
    }
    forall a | 0 <= a < |s.attempts| ensures s.attempts[a].target != t {
      assert AttemptFits(s, a);
    }
  }

  /** The collision the source warns about, as a run: two requests share an id, and the first,
      running and cancellable, can no longer be cancelled by it. */
  lemma CollisionHappens() returns (ss: seq<State>, es: seq<Event>)
    ensures Run(ss, es)
    ensures var s := ss[|es|];
            |s.invs| == 2 && StillRegistered(s, 0) && IsCancellable(s.invs[0].request.call) && !Reachable(s, 0)
  {
    var id := Int(7);
    var q := Request(id, false, Plain(true));
    var both := Loop([], [q, q], None);
    var v := Invocation(q, Running, None, Some(C.NewCell), Idle, None, []);
    es := [Input(Valid(q)), Input(Valid(q)), Start(0), Start(1)];
    ss := [Begin(),
           State([New(q)], map[], map[], [], Loop([], [q], None), []),
           State([New(q), New(q)], map[], map[], [], both, []),
           State([v, New(q)], map[id := Some(0)], map[id := 0], [], both, []),
           State([v, v], map[id := Some(1)], map[id := 1], [], both, [])];
    assert Next(ss[0], es[0]) == ss[1];
    assert Next(ss[1], es[1]) == ss[2];
    assert Next(ss[2], es[2]) == ss[3];
    assert Next(ss[3], es[3]) == ss[4];
  }
}
