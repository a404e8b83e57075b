/** The life of every request on one RPC connection, under every interleaving
    (crates/arti-rpcserver/src/connection.rs, connection/methods.rs and cancel.rs).

    A request is read by the loop, registered when its future is first polled, driven by polls
    during which it may send updates, answered by one final response on the channel it shares with
    its updates, and unregistered.  A `rpc:cancel` request may meanwhile take another request's
    handle out of the `inflight` table and, in a later step, cancel through it. */
module Lifecycle {
  import opened Wrappers
  import opened Messages
  import opened RunLoop
  import I = Inflight
  import C = Cancel

  datatype Phase = Launched | Running | HasOutcome | Sent | Unregistered

  /** Where the body of a `rpc:cancel` request stands in `cancel_request`. */
  datatype CancelTask =
    | Idle
    | Holding(target: nat)                          // the handle is out of the table, not used yet
    | Answered(result: Result<Unit, CancelError>)

  /** One request that was launched.  `poller` is the poll in progress, which for a cancellable
      request holds the mutex of `cell`; `sent` is all it has put on the response channel. */
  datatype Invocation = Invocation(
    request: Request,
    phase: Phase,
    poller: Option<C.Waker>,
    cell: Option<C.Cell>,
    task: CancelTask,
    outcome: Option<Body>,
    sent: seq<Response>)

  /** A use of a cancel handle. */
  datatype Attempt = Attempt(caller: nat, target: nat, result: Result<Unit, C.CannotCancel>)

  /** `inflight` is the real table, with an invocation's number for its handle; `owner` remembers
      which invocation made each entry, which the table itself does not say of uncancellable ones. */
  datatype State = State(
    invs: seq<Invocation>,
    inflight: I.Table<nat>,
    owner: map<RequestId, nat>,
    channel: seq<Tagged>,
    loop: Loop,
    attempts: seq<Attempt>)

  datatype Event =
    | Input(arm: Arm)                                // the loop takes anything but a response
    | WriteHead(io: Result<Unit, bool>)              // the loop takes the oldest response
    | Start(i: nat)                                  // first poll: register the request
    | BeginPoll(i: nat, waker: C.Waker)
    | EmitUpdate(i: nat, update: Value)
    | LookUpTarget(i: nat)                           // cancel_request, under the connection's lock
    | CancelTarget(i: nat)                           // cancel_request, after releasing it
    | StayPending(i: nat)                            // the poll ends, the method goes on
    | Complete(i: nat, result: Result<Value, RpcError>)
    | SendFinal(i: nat)
    | Unregister(i: nat)

  ghost function New(q: Request): Invocation {
    Invocation(q, Launched, None, None, Idle, None, [])
  }

  ghost function Begin(): State {
    State([], map[], map[], [], Fresh, [])
  }

  /** What a method may answer.  `rpc:cancel` reports what cancel_request told it, unless it failed
      before it got there. */
  ghost predicate MayAnswer(v: Invocation, r: Result<Value, RpcError>) {
    if v.request.call.Plain? then r.Ok? || r.error.MethodError?
    else match v.task
      case Idle => r.Err? && r.error.MethodError?
      case Holding(_) => false
      case Answered(Ok(_)) => r.Ok?
      case Answered(Err(e)) => r == Err(CancelFailed(e))
  }

  ghost predicate Enabled(s: State, e: Event) {
    && s.loop.end.None?
    && match e
       case Input(arm) => !arm.Deliver?
       case WriteHead(_) => s.channel != []
       case Start(i) => i < |s.invs| && s.invs[i].phase.Launched?
       case BeginPoll(i, _) => i < |s.invs| && s.invs[i].phase.Running? && s.invs[i].poller.None?
       case EmitUpdate(i, _) => i < |s.invs| && s.invs[i].poller.Some? && s.invs[i].request.call.Plain?
       case LookUpTarget(i) =>
         i < |s.invs| && s.invs[i].poller.Some? && s.invs[i].request.call.RpcCancel? && s.invs[i].task.Idle?
       case CancelTarget(i) =>
         && i < |s.invs| && s.invs[i].task.Holding?
         && s.invs[i].task.target < |s.invs|
         && var t := s.invs[s.invs[i].task.target];
            t.cell.Some? && t.poller.None?  // the handle's mutex is free
       case StayPending(i) => i < |s.invs| && s.invs[i].poller.Some? && !s.invs[i].task.Holding?
       case Complete(i, r) => i < |s.invs| && s.invs[i].poller.Some? && MayAnswer(s.invs[i], r)
       case SendFinal(i) => i < |s.invs| && s.invs[i].phase.HasOutcome? && s.invs[i].outcome.Some?
       case Unregister(i) => i < |s.invs| && s.invs[i].phase.Sent?
  }

  ghost function Put(s: State, i: nat, v: Invocation): State
    requires i < |s.invs|
  {
    s.(invs := s.invs[i := v])
  }

  ghost function Push(s: State, i: nat, b: Body): State
    requires i < |s.invs|
  {
    var v := s.invs[i];
    var r := Response(Some(v.request.id), b);
    Put(s, i, v.(sent := v.sent + [r])).(channel := s.channel + [Tagged(Some(i), r)])
  }

  ghost function BodyOf(r: Result<Value, RpcError>): Body {
    match r
    case Ok(v) => Success(v)
    case Err(e) => Error(e)
  }

  ghost function Next(s: State, e: Event): State
    requires Enabled(s, e)
  {
    match e
    case Input(arm) =>
      var s' := s.(loop := Turn(s.loop, arm));
      if arm.Valid? then s'.(invs := s.invs + [New(arm.request)]) else s'
    case WriteHead(io) =>
      s.(loop := Turn(s.loop, Deliver(s.channel[0], io)), channel := s.channel[1..])
    case Start(i) =>
      var v := s.invs[i];
      var cancellable := IsCancellable(v.request.call);
      Put(s, i, v.(phase := Running, cell := if cancellable then Some(C.NewCell) else None))
        .(inflight := I.Register(s.inflight, v.request.id, if cancellable then Some(i) else None),
          owner := s.owner[v.request.id := i])
    case BeginPoll(i, w) =>
      var v := s.invs[i];
      if v.cell.Some? && v.cell.value.status.Cancelled?
      then Put(s, i, v.(phase := HasOutcome, outcome := Some(Error(RequestCancelled))))
      else Put(s, i, v.(poller := Some(w)))
    case EmitUpdate(i, u) =>
      if s.invs[i].request.updates then Push(s, i, Update(u)) else s
    case LookUpTarget(i) =>
      var v := s.invs[i];
      var id := v.request.call.target;
      var s' := s.(inflight := I.Taken(s.inflight, id));
      (match I.Find(s.inflight, id)
       case Handle(t) => Put(s', i, v.(task := Holding(t))).(owner := s.owner - {id})
       case Uncancellable => Put(s', i, v.(task := Answered(Err(CannotCancelRequest))))
       case Absent => Put(s', i, v.(task := Answered(Err(RequestNotFound)))))
    case CancelTarget(i) =>
      var v := s.invs[i];
      var t := v.task.target;
      var o := C.CancelCell(s.invs[t].cell.value);
      var s' := Put(s, i, v.(task := Answered(I.Answer(o.result))));
      Put(s', t, s'.invs[t].(cell := Some(o.cell)))
        .(attempts := s.attempts + [Attempt(i, t, o.result)])
    case StayPending(i) =>
      var v := s.invs[i];
      Put(s, i, v.(poller := None,
                   cell := if v.cell.None? then None
                           else Some(C.PollCell(v.cell.value, v.poller.value, C.InnerPoll<Value>.StillPending).0)))
    case Complete(i, r) =>
      var v := s.invs[i];
      Put(s, i, v.(poller := None, phase := HasOutcome, outcome := Some(BodyOf(r)),
                   cell := if v.cell.None? then None
                           else Some(C.PollCell(v.cell.value, v.poller.value, C.Ready(r)).0)))
    case SendFinal(i) =>
      var s' := Push(s, i, s.invs[i].outcome.value);
      Put(s', i, s'.invs[i].(phase := Sent))
    case Unregister(i) =>
      var v := s.invs[i];
      Put(s, i, v.(phase := Phase.Unregistered))
        .(inflight := I.Unregister(s.inflight, v.request.id), owner := s.owner - {v.request.id})
  }

  ghost predicate Run(ss: seq<State>, es: seq<Event>) {
    && |ss| == |es| + 1 && ss[0] == Begin()
    && (forall k | 0 <= k < |es| :: Enabled(ss[k], es[k]) && ss[k + 1] == Next(ss[k], es[k]))
  }

  // ---------------------------------------------------------------------------------------------
  // What each invocation keeps by itself
  // ---------------------------------------------------------------------------------------------

  ghost predicate IsDead(v: Invocation) {
    v.cell.Some? && v.cell.value.status.Cancelled?
  }

  ghost predicate OutcomeFits(v: Invocation) {
    match v.outcome
    case None => v.cell.Some? ==> !v.cell.value.status.Finished?
    case Some(b) =>
      && IsFinal(b)
      && (b == Error(RequestCancelled) <==> IsDead(v))
      && (v.cell.Some? ==> !v.cell.value.status.Pending?)
      && (v.request.call.RpcCancel? ==> (b.Success? <==> v.task.Answered? && v.task.result.Ok?))
      && (b.Error? && b.error.CancelFailed? ==> v.task == Answered(Err(b.error.why)))
      && (v.task.Answered? && v.task.result.Err? ==> b == Error(CancelFailed(v.task.result.error)))
  }

  /** What an invocation has sent: updates, if it asked for them, then its outcome, all under its
      own id. */
  ghost predicate SentFits(v: Invocation) {
    && (forall k | 0 <= k < |v.sent| :: v.sent[k].id == Some(v.request.id))
    && (forall k | 0 <= k < |v.sent| :: v.sent[k].body.Update? ==> v.request.updates)
    && (forall k | 0 <= k < |v.sent| - 1 :: v.sent[k].body.Update?)
    && (if v.phase.Sent? || v.phase.Unregistered?
        then v.outcome.Some? && v.sent != [] && v.sent[|v.sent| - 1].body == v.outcome.value
        else v.sent != [] ==> v.sent[|v.sent| - 1].body.Update?)
  }

  ghost predicate PhaseFits(v: Invocation) {
    && (if v.phase.Launched? then v.cell.None? && v.sent == []
        else v.cell.Some? <==> IsCancellable(v.request.call))
    && (v.outcome.Some? <==> v.phase.HasOutcome? || v.phase.Sent? || v.phase.Unregistered?)
    && (v.poller.Some? ==> v.phase.Running? && !IsDead(v))
    && (!v.task.Idle? ==> v.request.call.RpcCancel? && !v.phase.Launched?)
    && (v.task.Holding? ==> v.poller.Some?)
  }

  ghost predicate Phases(s: State) {
    forall i | 0 <= i < |s.invs| :: PhaseFits(s.invs[i])
  }

  ghost predicate Outcomes(s: State) {
    forall i | 0 <= i < |s.invs| :: OutcomeFits(s.invs[i])
  }

  ghost predicate Sents(s: State) {
    forall i | 0 <= i < |s.invs| :: SentFits(s.invs[i])
  }

  /** The events that begin and end a poll. */
  predicate EndsPoll(e: Event) {
    e.BeginPoll? || e.StayPending? || e.Complete?
  }

  lemma PollKeepsPhase(s: State, e: Event, i: nat)
    requires Phases(s) && Enabled(s, e) && EndsPoll(e) && i < |s.invs|
    ensures PhaseFits(Next(s, e).invs[i])
  {
    assert PhaseFits(s.invs[i]);
  }

  lemma OtherEventsKeepPhase(s: State, e: Event, i: nat)
    requires Phases(s) && Enabled(s, e) && !EndsPoll(e) && i < |Next(s, e).invs|
    ensures PhaseFits(Next(s, e).invs[i])
  {
    assert i < |s.invs| ==> PhaseFits(s.invs[i]);
  }

  lemma NextKeepsPhases(s: State, e: Event)
    requires Phases(s) && Enabled(s, e)
    ensures Phases(Next(s, e))
  {
    forall i: nat | i < |Next(s, e).invs| ensures PhaseFits(Next(s, e).invs[i]) {
      if EndsPoll(e) {
        PollKeepsPhase(s, e, i);
      } else {
        OtherEventsKeepPhase(s, e, i);
      }
    }
  }

  lemma NextKeepsOutcomes(s: State, e: Event)
    requires Phases(s) && Outcomes(s) && Enabled(s, e)
    ensures Outcomes(Next(s, e))
  {
    var s' := Next(s, e);
    forall i | 0 <= i < |s'.invs| ensures OutcomeFits(s'.invs[i]) {
      assert i < |s.invs| ==> PhaseFits(s.invs[i]) && OutcomeFits(s.invs[i]);
    }
  }

  /** Only these two events change what an invocation has sent or whether it has sent its outcome. */
  lemma OtherEventsKeepSent(s: State, e: Event, i: nat)
    requires Phases(s) && Enabled(s, e) && !e.EmitUpdate? && !e.SendFinal? && i < |s.invs|
    ensures var v, v' := s.invs[i], Next(s, e).invs[i];
            && v'.request == v.request && v'.sent == v.sent
            && (v'.phase.Sent? || v'.phase.Unregistered? <==> v.phase.Sent? || v.phase.Unregistered?)
            && (v.outcome.Some? ==> v'.outcome == v.outcome)
  {
    assert PhaseFits(s.invs[i]);
  }

  lemma NextKeepsSents(s: State, e: Event)
    requires Phases(s) && Outcomes(s) && Sents(s) && Enabled(s, e)
    ensures Sents(Next(s, e))
  {
    var s' := Next(s, e);
    forall i | 0 <= i < |s'.invs| ensures SentFits(s'.invs[i]) {
      if i < |s.invs| {
        assert SentFits(s.invs[i]);
        if e.EmitUpdate? || e.SendFinal? {
          assert PhaseFits(s.invs[i]) && OutcomeFits(s.invs[i]);
        } else {
          OtherEventsKeepSent(s, e, i);
        }
      }
    }
  }

  // ---------------------------------------------------------------------------------------------
  // The table of cancellable requests
  // ---------------------------------------------------------------------------------------------

  ghost predicate IsRegistered(v: Invocation) {
    v.phase.Running? || v.phase.HasOutcome? || v.phase.Sent?
  }

  /** The entry for `id` was made by a registered, not yet unregistered invocation with that id. */
  ghost predicate EntryFits(s: State, id: RequestId) {
    && id in s.owner && id in s.inflight
    && s.owner[id] < |s.invs|
    && var v := s.invs[s.owner[id]];
       && v.request.id == id
       && IsRegistered(v)
       && s.inflight[id] == if IsCancellable(v.request.call) then Some(s.owner[id]) else None
  }

  ghost predicate Owned(s: State) {
    && s.owner.Keys == s.inflight.Keys
    && (forall id | id in s.inflight :: EntryFits(s, id))
  }

  ghost predicate InTable(s: State, t: nat)
    requires t < |s.invs|
  {
    I.Find(s.inflight, s.invs[t].request.id) == I.Handle(t)
  }

  ghost predicate HeldFits(s: State, c: nat)
    requires c < |s.invs| && s.invs[c].task.Holding?
  {
    var t := s.invs[c].task.target;
    && t < |s.invs|
    && s.invs[c].request.call == RpcCancel(s.invs[t].request.id)
    && s.invs[t].cell.Some? && !IsDead(s.invs[t])
    && !InTable(s, t)
  }

  /** While a handle is in the table or held by a `rpc:cancel` request, it has not cancelled
      anything; and it is never in both places. */
  ghost predicate Handles(s: State) {
    && (forall t | 0 <= t < |s.invs| :: InTable(s, t) ==> !IsDead(s.invs[t]))
    && (forall c | 0 <= c < |s.invs| && s.invs[c].task.Holding? :: HeldFits(s, c))
  }

  /** No handle is held by two requests. */
  ghost predicate HeldOnce(s: State) {
    forall c, d | 0 <= c < d < |s.invs| && s.invs[c].task.Holding? && s.invs[d].task.Holding? ::
      s.invs[c].task.target != s.invs[d].task.target
  }

  /** Who asked for what, who holds which handle, and who was cancelled. */
  ghost predicate SameStanding(v: Invocation, v': Invocation) {
    && v'.request == v.request && v'.task == v.task
    && (v'.cell.Some? <==> v.cell.Some?) && (IsDead(v') <==> IsDead(v))
    && (IsRegistered(v) ==> IsRegistered(v'))
  }

  /** Nothing changed that the table and the handles depend on, except that a request may have been
      launched. */
  ghost predicate SameTable(s: State, s': State) {
    && s'.inflight == s.inflight && s'.owner == s.owner && s'.attempts == s.attempts
    && |s.invs| <= |s'.invs|
    && (forall i | 0 <= i < |s.invs| :: SameStanding(s.invs[i], s'.invs[i]))
    && (forall i | |s.invs| <= i < |s'.invs| :: s'.invs[i] == New(s'.invs[i].request))
  }

  ghost predicate TouchesTable(e: Event) {
    e.Start? || e.LookUpTarget? || e.CancelTarget? || e.Unregister?
  }

  lemma OtherEventsKeepTable(s: State, e: Event)
    requires Phases(s) && Enabled(s, e) && !TouchesTable(e)
    ensures SameTable(s, Next(s, e))
  {
    var s' := Next(s, e);
    forall i | 0 <= i < |s.invs| ensures SameStanding(s.invs[i], s'.invs[i]) {
      assert PhaseFits(s.invs[i]);
    }
  }

  lemma SameTableKeepsOwned(s: State, s': State)
    requires Owned(s) && SameTable(s, s')
    ensures Owned(s')
  {
    forall id | id in s'.inflight ensures EntryFits(s', id) {
      assert EntryFits(s, id);
      assert SameStanding(s.invs[s.owner[id]], s'.invs[s.owner[id]]);
    }
  }

  lemma SameTableKeepsHandles(s: State, s': State)
    requires Handles(s) && HeldOnce(s) && SameTable(s, s')
    ensures Handles(s') && HeldOnce(s')
  {
    forall t | 0 <= t < |s'.invs| && InTable(s', t) ensures !IsDead(s'.invs[t]) {
      if t < |s.invs| {
        assert SameStanding(s.invs[t], s'.invs[t]);
        assert InTable(s, t);
      }
    }
    forall c | 0 <= c < |s'.invs| && s'.invs[c].task.Holding? ensures HeldFits(s', c) {
      assert SameStanding(s.invs[c], s'.invs[c]);
      assert HeldFits(s, c);
      assert SameStanding(s.invs[s.invs[c].task.target], s'.invs[s.invs[c].task.target]);
    }
    forall c, d | 0 <= c < d < |s'.invs| && s'.invs[c].task.Holding? && s'.invs[d].task.Holding?
      ensures s'.invs[c].task.target != s'.invs[d].task.target
    {
      assert SameStanding(s.invs[c], s'.invs[c]) && SameStanding(s.invs[d], s'.invs[d]);
    }
  }

  lemma RegisteringKeepsOwned(s: State, e: Event)
    requires Phases(s) && Owned(s) && Enabled(s, e) && (e.Start? || e.Unregister?)
    ensures Owned(Next(s, e))
  {
    var s' := Next(s, e);
    forall id | id in s'.inflight ensures EntryFits(s', id) {
      assert id in s.inflight ==> EntryFits(s, id);
    }
  }

  lemma CancellingKeepsOwned(s: State, e: Event)
    requires Owned(s) && Enabled(s, e) && (e.LookUpTarget? || e.CancelTarget?)
    ensures Owned(Next(s, e))
  {
    var s' := Next(s, e);
    forall id | id in s'.inflight ensures EntryFits(s', id) {
      assert EntryFits(s, id);
    }
  }

  lemma NextKeepsOwned(s: State, e: Event)
    requires Phases(s) && Owned(s) && Enabled(s, e)
    ensures Owned(Next(s, e))
  {
    if e.Start? || e.Unregister? {
      RegisteringKeepsOwned(s, e);
    } else if e.LookUpTarget? || e.CancelTarget? {
      CancellingKeepsOwned(s, e);
    } else {
      OtherEventsKeepTable(s, e);
      SameTableKeepsOwned(s, Next(s, e));
    }
  }

  lemma StartKeepsHandles(s: State, e: Event)
    requires Phases(s) && Handles(s) && Enabled(s, e) && e.Start?
    ensures Handles(Next(s, e))
  {
    var s' := Next(s, e);
    assert PhaseFits(s.invs[e.i]);
    forall t | 0 <= t < |s'.invs| && InTable(s', t) ensures !IsDead(s'.invs[t]) {
      assert InTable(s, t) ==> !IsDead(s.invs[t]);
    }
    forall c | 0 <= c < |s'.invs| && s'.invs[c].task.Holding? ensures HeldFits(s', c) {
      assert HeldFits(s, c);
    }
  }

  /** Taking invocation `t`'s handle out of the table for `i` to use. */
  lemma TakeKeepsHandles(s: State, i: nat, t: nat, s': State)
    requires Handles(s) && i < |s.invs| && t < |s.invs|
    requires s.invs[i].task.Idle? && s.invs[i].request.call == RpcCancel(s.invs[t].request.id)
    requires InTable(s, t) && s.invs[t].cell.Some?
    requires s'.invs == s.invs[i := s.invs[i].(task := Holding(t))]
    requires s'.inflight == s.inflight - {s.invs[t].request.id}
    ensures Handles(s')
  {
    forall u | 0 <= u < |s'.invs| && InTable(s', u) ensures !IsDead(s'.invs[u]) {
      assert InTable(s, u);
    }
    forall c | 0 <= c < |s'.invs| && s'.invs[c].task.Holding? ensures HeldFits(s', c) {
      assert c != i ==> HeldFits(s, c);
    }
  }

  lemma TakeKeepsHeldOnce(s: State, i: nat, t: nat, s': State)
    requires Handles(s) && HeldOnce(s) && i < |s.invs| && t < |s.invs|
    requires InTable(s, t)
    requires s'.invs == s.invs[i := s.invs[i].(task := Holding(t))]
    ensures HeldOnce(s')
  {
    forall c | 0 <= c < |s.invs| && c != i && s.invs[c].task.Holding? ensures s.invs[c].task.target != t {
      assert HeldFits(s, c);
    }
  }

  lemma MissKeepsHandles(s: State, i: nat, v: Invocation)
    requires Handles(s) && HeldOnce(s) && i < |s.invs|
    requires v.task.Answered? && v == s.invs[i].(task := v.task)
    ensures Handles(Put(s, i, v)) && HeldOnce(Put(s, i, v))
  {
    var s' := Put(s, i, v);
    forall t | 0 <= t < |s'.invs| && InTable(s', t) ensures !IsDead(s'.invs[t]) {
      assert InTable(s, t);
    }
    forall c | 0 <= c < |s'.invs| && s'.invs[c].task.Holding? ensures HeldFits(s', c) {
      assert HeldFits(s, c);
    }
  }

  lemma LookUpKeepsHandles(s: State, e: Event)
    requires Phases(s) && Owned(s) && Handles(s) && HeldOnce(s) && Enabled(s, e) && e.LookUpTarget?
    ensures Handles(Next(s, e)) && HeldOnce(Next(s, e))
  {
    var v := s.invs[e.i];
    var id := v.request.call.target;
    match I.Find(s.inflight, id)
    case Handle(t) =>
      assert EntryFits(s, id);
      assert PhaseFits(s.invs[t]);
      TakeKeepsHandles(s, e.i, t, Next(s, e));
      TakeKeepsHeldOnce(s, e.i, t, Next(s, e));
    case Uncancellable => MissKeepsHandles(s, e.i, v.(task := Answered(Err(CannotCancelRequest))));
    case Absent => MissKeepsHandles(s, e.i, v.(task := Answered(Err(RequestNotFound))));
  }

  lemma CancelKeepsHandles(s: State, e: Event)
    requires Phases(s) && Handles(s) && HeldOnce(s) && Enabled(s, e) && e.CancelTarget?
    ensures Handles(Next(s, e))
  {
    var s' := Next(s, e);
    assert HeldFits(s, e.i);
    forall t | 0 <= t < |s'.invs| && InTable(s', t) ensures !IsDead(s'.invs[t]) {
      assert InTable(s, t);
    }
    forall c | 0 <= c < |s'.invs| && s'.invs[c].task.Holding? ensures HeldFits(s', c) {
      assert HeldFits(s, c);
    }
  }

  lemma UnregisterKeepsHandles(s: State, e: Event)
    requires Phases(s) && Handles(s) && Enabled(s, e) && e.Unregister?
    ensures Handles(Next(s, e))
  {
    var s' := Next(s, e);
    forall t | 0 <= t < |s'.invs| && InTable(s', t) ensures !IsDead(s'.invs[t]) {
      assert InTable(s, t);
    }
    forall c | 0 <= c < |s'.invs| && s'.invs[c].task.Holding? ensures HeldFits(s', c) {
      assert HeldFits(s, c);
    }
  }

  lemma NextKeepsHandles(s: State, e: Event)
    requires Phases(s) && Owned(s) && Handles(s) && HeldOnce(s) && Enabled(s, e)
    ensures Handles(Next(s, e)) && HeldOnce(Next(s, e))
  {
    if e.Start? {
      StartKeepsHandles(s, e);
    } else if e.LookUpTarget? {
      LookUpKeepsHandles(s, e);
    } else if e.CancelTarget? {
      CancelKeepsHandles(s, e);
    } else if e.Unregister? {
      UnregisterKeepsHandles(s, e);
    } else {
      OtherEventsKeepTable(s, e);
      SameTableKeepsHandles(s, Next(s, e));
    }
  }

  // ---------------------------------------------------------------------------------------------
  // Uses of handles
  // ---------------------------------------------------------------------------------------------

  ghost predicate AttemptFits(s: State, k: nat)
    requires k < |s.attempts|
  {
    var a := s.attempts[k];
    && a.caller < |s.invs| && a.target < |s.invs|
    && s.invs[a.target].cell.Some? && !InTable(s, a.target)
    && s.invs[a.caller].request.call == RpcCancel(s.invs[a.target].request.id)
    && s.invs[a.caller].task == Answered(I.Answer(a.result))
    && a.result != Err(C.AlreadyCancelled)
    && (a.result.Ok? ==> IsDead(s.invs[a.target]))
  }

  ghost predicate Attempts(s: State) {
    && (forall k | 0 <= k < |s.attempts| :: AttemptFits(s, k))
    && (forall j, k | 0 <= j < k < |s.attempts| :: s.attempts[j].caller != s.attempts[k].caller)
  }

  ghost predicate Killed(s: State, k: nat, t: nat) {
    k < |s.attempts| && s.attempts[k].target == t && s.attempts[k].result.Ok?
  }

  ghost predicate Killer(s: State, k: nat, c: nat) {
    k < |s.attempts| && s.attempts[k].caller == c && s.attempts[k].result.Ok?
  }

  /** Every cancelled request was cancelled through its handle, and every `rpc:cancel` request that
      was told so did it. */
  ghost predicate Accounted(s: State) {
    && (forall t | 0 <= t < |s.invs| && IsDead(s.invs[t]) :: exists k: nat :: Killed(s, k, t))
    && (forall c | 0 <= c < |s.invs| && s.invs[c].task.Answered? && s.invs[c].task.result.Ok? ::
          exists k: nat :: Killer(s, k, c))
  }

  ghost predicate NeverTwice(s: State) {
    forall i | 0 <= i < |s.invs| :: s.invs[i].task != Answered(Err(CancelledTwice))
  }

  lemma NextKeepsNeverTwice(s: State, e: Event)
    requires Handles(s) && NeverTwice(s) && Enabled(s, e)
    ensures NeverTwice(Next(s, e))
  {
    if e.CancelTarget? {
      assert HeldFits(s, e.i);
    }
  }

  lemma QuietKeepsAttempts(s: State, s': State)
    requires Attempts(s) && Accounted(s)
    requires s'.attempts == s.attempts && |s.invs| <= |s'.invs|
    requires forall i | 0 <= i < |s.invs| ::
               && s'.invs[i].request == s.invs[i].request && (IsDead(s'.invs[i]) <==> IsDead(s.invs[i]))
               && (s.invs[i].cell.Some? ==> s'.invs[i].cell.Some? && (InTable(s', i) ==> InTable(s, i)))
               && (s.invs[i].task.Answered? ==> s'.invs[i].task == s.invs[i].task)
               && (s'.invs[i].task.Answered? && s'.invs[i].task.result.Ok? ==> s.invs[i].task.Answered?)
    requires forall i | |s.invs| <= i < |s'.invs| :: s'.invs[i] == New(s'.invs[i].request)
    ensures Attempts(s') && Accounted(s')
  {
    forall k | 0 <= k < |s'.attempts| ensures AttemptFits(s', k) {
      assert AttemptFits(s, k);
    }
    forall t | 0 <= t < |s'.invs| && IsDead(s'.invs[t]) ensures exists k: nat :: Killed(s', k, t) {
      var k: nat :| Killed(s, k, t);
      assert Killed(s', k, t);
    }
    forall c | 0 <= c < |s'.invs| && s'.invs[c].task.Answered? && s'.invs[c].task.result.Ok?
      ensures exists k: nat :: Killer(s', k, c)
    {
      var k: nat :| Killer(s, k, c);
      assert Killer(s', k, c);
    }
  }

  lemma CancelKeepsAttempts(s: State, e: Event)
    requires Phases(s) && Handles(s) && Attempts(s) && Accounted(s) && Enabled(s, e) && e.CancelTarget?
    ensures Attempts(Next(s, e)) && Accounted(Next(s, e))
  {
    var s' := Next(s, e);
    var n := |s.attempts|;
    assert HeldFits(s, e.i);
    forall k | 0 <= k < |s'.attempts| ensures AttemptFits(s', k) {
      assert k < n ==> AttemptFits(s, k);
    }
    forall k | 0 <= k < n ensures s.attempts[k].caller != e.i {
      assert AttemptFits(s, k);
    }
    forall t | 0 <= t < |s'.invs| && IsDead(s'.invs[t]) ensures exists k: nat :: Killed(s', k, t) {
      if IsDead(s.invs[t]) {
        var k: nat :| Killed(s, k, t);
        assert Killed(s', k, t);
      } else {
        assert Killed(s', n, t);
      }
    }
    forall c | 0 <= c < |s'.invs| && s'.invs[c].task.Answered? && s'.invs[c].task.result.Ok?
      ensures exists k: nat :: Killer(s', k, c)
    {
      if c == e.i {
        assert Killer(s', n, c);
      } else {
        var k: nat :| Killer(s, k, c);
        assert Killer(s', k, c);
      }
    }
  }

  lemma NextKeepsAttempts(s: State, e: Event)
    requires Phases(s) && Handles(s) && Attempts(s) && Accounted(s) && Enabled(s, e)
    ensures Attempts(Next(s, e)) && Accounted(Next(s, e))
  {
    if e.CancelTarget? {
      CancelKeepsAttempts(s, e);
    } else if TouchesTable(e) {
      assert PhaseFits(s.invs[e.i]);
      QuietKeepsAttempts(s, Next(s, e));
    } else {
      OtherEventsKeepTable(s, e);
      forall i | 0 <= i < |s.invs| ensures SameStanding(s.invs[i], Next(s, e).invs[i]) {
      }
      QuietKeepsAttempts(s, Next(s, e));
    }
  }

  // ---------------------------------------------------------------------------------------------
  // The response channel
  // ---------------------------------------------------------------------------------------------

  /** The responses in `h` that invocation `i` sent, in order. */
  ghost function Of(h: seq<Tagged>, i: nat): seq<Response> {
    if h == [] then []
    else
      var last := h[|h| - 1];
      var before := Of(h[..|h| - 1], i);
      if last.from == Some(i) then before + [last.response] else before
  }

  lemma OfAppend(h: seq<Tagged>, t: Tagged, i: nat)
    ensures Of(h + [t], i) == if t.from == Some(i) then Of(h, i) + [t.response] else Of(h, i)
  {
    assert (h + [t])[..|h|] == h;
  }

  lemma {:induction false} OfUncons(h: seq<Tagged>, i: nat)
    requires h != []
    ensures Of(h, i) == if h[0].from == Some(i) then [h[0].response] + Of(h[1..], i) else Of(h[1..], i)
  {
    var n := |h| - 1;
    if n > 0 {
      OfUncons(h[..n], i);
      assert h[..n][1..] == h[1..n] && h[1..] == h[1..n] + [h[n]];
      OfAppend(h[1..n], h[n], i);
    }
  }

  lemma {:induction false} OfStranger(h: seq<Tagged>, i: nat)
    requires forall k | 0 <= k < |h| :: h[k].from != Some(i)
    ensures Of(h, i) == []
  {
    if h != [] {
      OfStranger(h[..|h| - 1], i);
    }
  }

  ghost predicate Tags(s: State) {
    && (forall k | 0 <= k < |s.loop.written| && s.loop.written[k].from.Some? ::
          s.loop.written[k].from.value < |s.invs|)
    && (forall k | 0 <= k < |s.channel| ::
          s.channel[k].from.Some? && s.channel[k].from.value < |s.invs| && s.channel[k].response.id.Some?)
  }

  /** What was written of `i`, then what is still in the channel, is in order what `i` sent. */
  ghost predicate StreamFits(s: State, i: nat)
    requires i < |s.invs|
  {
    && Of(s.loop.written, i) <= s.invs[i].sent
    && (s.loop.end.None? ==> Of(s.loop.written, i) + Of(s.channel, i) == s.invs[i].sent)
  }

  ghost predicate Streams(s: State) {
    forall i | 0 <= i < |s.invs| :: StreamFits(s, i)
  }

  lemma NextKeepsTags(s: State, e: Event)
    requires Tags(s) && Enabled(s, e)
    ensures Tags(Next(s, e))
  {
  }

  lemma MoveOne(a: seq<Response>, r: Response, b: seq<Response>)
    ensures (a + [r]) + b == a + ([r] + b)
  {
  }

  lemma WriteKeepsStream(s: State, e: Event, i: nat)
    requires i < |s.invs| && StreamFits(s, i) && Enabled(s, e) && e.WriteHead?
    ensures StreamFits(Next(s, e), i)
  {
    var head := s.channel[0];
    OfUncons(s.channel, i);
    OfAppend(s.loop.written, head, i);
    MoveOne(Of(s.loop.written, i), head.response, Of(s.channel[1..], i));
  }

  lemma InputKeepsStream(s: State, e: Event, i: nat)
    requires i < |s.invs| && StreamFits(s, i) && Enabled(s, e) && e.Input?
    ensures StreamFits(Next(s, e), i)
  {
    if e.arm.Invalid? {
      OfAppend(s.loop.written, Complaint(e.arm.id, e.arm.problem), i);
    }
  }

  lemma NewcomerHasNoStream(s: State, i: nat)
    requires Tags(s) && i == |s.invs|
    ensures Of(s.loop.written, i) == [] && Of(s.channel, i) == []
  {
    OfStranger(s.loop.written, i);
    OfStranger(s.channel, i);
  }

  lemma PushKeepsStream(s: State, i: nat, b: Body, j: nat)
    requires i < |s.invs| && j < |s.invs| && StreamFits(s, j) && s.loop.end.None?
    ensures StreamFits(Push(s, i, b), j)
  {
    OfAppend(s.channel, Push(s, i, b).channel[|s.channel|], j);
  }

  lemma NextKeepsStreams(s: State, e: Event)
    requires Phases(s) && Tags(s) && Streams(s) && Enabled(s, e)
    ensures Streams(Next(s, e))
  {
    var s' := Next(s, e);
    forall j | 0 <= j < |s'.invs| ensures StreamFits(s', j) {
      if j == |s.invs| {
        NewcomerHasNoStream(s, j);
      } else if e.Input? {
        InputKeepsStream(s, e, j);
      } else if e.WriteHead? {
        WriteKeepsStream(s, e, j);
      } else if e.EmitUpdate? {
        PushKeepsStream(s, e.i, Update(e.update), j);
      } else if e.SendFinal? {
        PushKeepsStream(s, e.i, s.invs[e.i].outcome.value, j);
      } else {
        assert StreamFits(s, j);
        OtherEventsKeepSent(s, e, j);
      }
    }
  }

  /** A response without an id is the last one written, and the loop has stopped. */
  ghost predicate IdlessLast(s: State) {
    forall k | 0 <= k < |s.loop.written| && s.loop.written[k].response.id.None? ::
      k == |s.loop.written| - 1 && s.loop.end.Some?
  }

  lemma NextKeepsIdlessLast(s: State, e: Event)
    requires Tags(s) && IdlessLast(s) && Enabled(s, e)
    ensures IdlessLast(Next(s, e))
  {
  }

  // ---------------------------------------------------------------------------------------------
  // Every run
  // ---------------------------------------------------------------------------------------------

  ghost predicate Inv(s: State) {
    && Phases(s) && Outcomes(s) && Sents(s)
    && Owned(s) && Handles(s) && HeldOnce(s)
    && Attempts(s) && Accounted(s) && NeverTwice(s)
    && Tags(s) && Streams(s) && IdlessLast(s)
  }

  lemma NextKeepsInv(s: State, e: Event)
    requires Inv(s) && Enabled(s, e)
    ensures Inv(Next(s, e))
  {
    NextKeepsPhases(s, e);
    NextKeepsOutcomes(s, e);
    NextKeepsSents(s, e);
    NextKeepsOwned(s, e);
    NextKeepsHandles(s, e);
    NextKeepsAttempts(s, e);
    NextKeepsNeverTwice(s, e);
    NextKeepsTags(s, e);
    NextKeepsStreams(s, e);
    NextKeepsIdlessLast(s, e);
  }

  /** The invariant holds in every state of every run. */
  lemma {:induction false} RunKeepsInv(ss: seq<State>, es: seq<Event>, k: nat)
    requires Run(ss, es) && k <= |es|
    ensures Inv(ss[k])
  {
    if k > 0 {
      RunKeepsInv(ss, es, k - 1);
      NextKeepsInv(ss[k - 1], es[k - 1]);
    }
  }
}
