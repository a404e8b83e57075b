/** What a client is sent for a request, told from what happened to the request alone: which updates
    its method emitted and what it returned (crates/arti-rpcserver/src/connection.rs). */
module Responses {
  import opened Wrappers
  import opened Messages
  import opened RunLoop
  import opened Lifecycle

  /** What the method of invocation `i` returned in the first `k` steps. */
  ghost function ResultIn(es: seq<Event>, k: nat, i: nat): Option<Result<Value, RpcError>>
    requires k <= |es|
  {
    if k == 0 then None
    else if es[k - 1].Complete? && es[k - 1].i == i then Some(es[k - 1].result)
    else ResultIn(es, k - 1, i)
  }

  /** The final response for what a method returned, or for a request that was cancelled first. */
  ghost function FinalBody(result: Option<Result<Value, RpcError>>): Body {
    match result
    case Some(Ok(v)) => Success(v)
    case Some(Err(e)) => Error(e)
    case None => Error(RequestCancelled)
  }

  /** What is to be sent for invocation `i` of request `q` in the first `k` steps. */
  ghost function Sends(es: seq<Event>, k: nat, i: nat, q: Request): seq<Response>
    requires k <= |es|
  {
    if k == 0 then []
    else
      var before := Sends(es, k - 1, i, q);
      match es[k - 1]
      case EmitUpdate(x, u) => if x == i && q.updates then before + [Response(Some(q.id), Update(u))] else before
      case SendFinal(x) => if x == i then before + [Response(Some(q.id), FinalBody(ResultIn(es, k - 1, i)))] else before
      case _ => before
  }

  // ---------------------------------------------------------------------------------------------
  // One step
  // ---------------------------------------------------------------------------------------------

  lemma StepKeepsRequest(s: State, e: Event, s': State, i: nat)
    requires Enabled(s, e) && s' == Next(s, e) && i < |s.invs|
    ensures i < |s'.invs| && s'.invs[i].request == s.invs[i].request
  {
  }

  /** An outcome appears when the method returns, or when a cancelled request is polled, and stays. */
  lemma StepOnOutcome(s: State, e: Event, s': State, i: nat)
    requires Phases(s) && Enabled(s, e) && s' == Next(s, e) && i < |s.invs|
    ensures i < |s'.invs|
    ensures s'.invs[i].outcome
         == if e.Complete? && e.i == i then Some(FinalBody(Some(e.result)))
            else if s.invs[i].outcome.None? && e.BeginPoll? && e.i == i && IsDead(s.invs[i])
              then Some(Error(RequestCancelled))
            else s.invs[i].outcome
    ensures e.Complete? && e.i == i ==> s.invs[i].outcome.None?
  {
    assert PhaseFits(s.invs[i]);
  }

  lemma StepOnSent(s: State, e: Event, s': State, i: nat)
    requires Phases(s) && Enabled(s, e) && s' == Next(s, e) && i < |s.invs|
    ensures i < |s'.invs|
    ensures s'.invs[i].sent
         == if e.EmitUpdate? && e.i == i && s.invs[i].request.updates
              then s.invs[i].sent + [Response(Some(s.invs[i].request.id), Update(e.update))]
            else if e.SendFinal? && e.i == i && s.invs[i].outcome.Some?
              then s.invs[i].sent + [Response(Some(s.invs[i].request.id), s.invs[i].outcome.value)]
            else s.invs[i].sent
  {
    if !e.EmitUpdate? && !e.SendFinal? {
      OtherEventsKeepSent(s, e, i);
    }
  }

  lemma NewcomerIsNew(s: State, e: Event, s': State, i: nat)
    requires Enabled(s, e) && s' == Next(s, e) && |s.invs| <= i < |s'.invs|
    ensures s'.invs[i] == New(s'.invs[i].request)
    ensures !e.Complete? && !e.EmitUpdate? && !e.SendFinal?
  {
  }

  // ---------------------------------------------------------------------------------------------
  // Whole runs
  // ---------------------------------------------------------------------------------------------

  /** Nothing happens to an invocation before it is launched. */
  lemma {:induction false} NothingBefore(ss: seq<State>, es: seq<Event>, k: nat, i: nat, q: Request)
    requires Run(ss, es) && k <= |es| && |ss[k].invs| <= i
    ensures ResultIn(es, k, i).None? && Sends(es, k, i, q) == []
  {
    if k > 0 {
      assert Enabled(ss[k - 1], es[k - 1]) && ss[k] == Next(ss[k - 1], es[k - 1]);
      NothingBefore(ss, es, k - 1, i, q);
    }
  }

  ghost predicate OutcomeIs(s: State, result: Option<Result<Value, RpcError>>, i: nat)
    requires i < |s.invs|
  {
    match s.invs[i].outcome
    case None => result.None?
    case Some(b) => b == FinalBody(result)
  }

  /** The outcome of an invocation is what its method returned, or that it was cancelled if that came
      first; there is none as long as neither happened. */
  lemma {:induction false} OutcomeIsResult(ss: seq<State>, es: seq<Event>, k: nat, i: nat)
    requires Run(ss, es) && k <= |es| && i < |ss[k].invs|
    ensures OutcomeIs(ss[k], ResultIn(es, k, i), i)
  {
    if k > 0 {
      var s, e := ss[k - 1], es[k - 1];
      assert Enabled(s, e) && ss[k] == Next(s, e);
      if i < |s.invs| {
        OutcomeIsResult(ss, es, k - 1, i);
        RunKeepsInv(ss, es, k - 1);
        StepOnOutcome(s, e, ss[k], i);
      } else {
        NewcomerIsNew(s, e, ss[k], i);
        NothingBefore(ss, es, k - 1, i, ss[k].invs[i].request);
      }
    }
  }

  /** What an invocation has sent is what it was to send. */
  lemma {:induction false} SentIsSends(ss: seq<State>, es: seq<Event>, k: nat, i: nat)
    requires Run(ss, es) && k <= |es| && i < |ss[k].invs|
    ensures ss[k].invs[i].sent == Sends(es, k, i, ss[k].invs[i].request)
  {
    if k > 0 {
      var s, e := ss[k - 1], es[k - 1];
      assert Enabled(s, e) && ss[k] == Next(s, e);
      if i < |s.invs| {
        SentIsSends(ss, es, k - 1, i);
        OutcomeIsResult(ss, es, k - 1, i);
        RunKeepsInv(ss, es, k - 1);
        StepKeepsRequest(s, e, ss[k], i);
        StepOnSent(s, e, ss[k], i);
      } else {
        NewcomerIsNew(s, e, ss[k], i);
        NothingBefore(ss, es, k - 1, i, ss[k].invs[i].request);
      }
    }
  }

  /** The client is sent, in order, every update that was emitted for a request that asked for updates,
      and then what the method returned, or that the request was cancelled; at the end of the loop
      some of that may not have been written. */
  lemma WrittenIsSends(ss: seq<State>, es: seq<Event>, k: nat, i: nat)
    requires Run(ss, es) && k <= |es| && i < |ss[k].invs|
    ensures Of(ss[k].loop.written, i) <= Sends(es, k, i, ss[k].invs[i].request)
    ensures ss[k].loop.end.None? ==>
              Of(ss[k].loop.written, i) + Of(ss[k].channel, i) == Sends(es, k, i, ss[k].invs[i].request)
  {
    RunKeepsInv(ss, es, k);
    SentIsSends(ss, es, k, i);
    assert StreamFits(ss[k], i);
  }

  ghost predicate HasOutcome(s: State, i: nat, b: Body) {
    i < |s.invs| && s.invs[i].outcome == Some(b)
  }

  lemma CompletesInRun(ss: seq<State>, es: seq<Event>, k: nat, i: nat, r: Result<Value, RpcError>)
    requires Run(ss, es) && k < |es| && es[k] == Complete(i, r)
    ensures HasOutcome(ss[k + 1], i, if r.Ok? then Success(r.value) else Error(r.error))
  {
    RunKeepsInv(ss, es, k);
    assert Enabled(ss[k], es[k]) && ss[k + 1] == Next(ss[k], es[k]);
    StepOnOutcome(ss[k], es[k], ss[k + 1], i);
  }

  lemma OutcomeStaysInRun(ss: seq<State>, es: seq<Event>, k: nat, i: nat, b: Body)
    requires Run(ss, es) && k < |es| && HasOutcome(ss[k], i, b)
    ensures HasOutcome(ss[k + 1], i, b)
  {
    RunKeepsInv(ss, es, k);
    assert Enabled(ss[k], es[k]) && ss[k + 1] == Next(ss[k], es[k]);
    StepOnOutcome(ss[k], es[k], ss[k + 1], i);
  }

  lemma {:induction false} OutcomeStays(ss: seq<State>, es: seq<Event>, j: nat, k: nat, i: nat, b: Body)
    requires Run(ss, es) && j <= k <= |es| && HasOutcome(ss[j], i, b)
    ensures HasOutcome(ss[k], i, b)
    decreases k
  {
    if j < k {
      OutcomeStays(ss, es, j, k - 1, i, b);
      OutcomeStaysInRun(ss, es, k - 1, i, b);
    }
  }

  /** The final response for a request whose method returned is what it returned. */
  lemma FinalIsResult(ss: seq<State>, es: seq<Event>, j: nat, k: nat, i: nat, r: Result<Value, RpcError>)
    requires Run(ss, es) && j < k <= |es| && es[j] == Complete(i, r)
    ensures HasOutcome(ss[k], i, if r.Ok? then Success(r.value) else Error(r.error))
    ensures forall x | x in Of(ss[k].loop.written, i) && IsFinal(x.body) ::
              x.body == if r.Ok? then Success(r.value) else Error(r.error)
  {
    var b := if r.Ok? then Success(r.value) else Error(r.error);
    CompletesInRun(ss, es, j, i, r);
    OutcomeStays(ss, es, j + 1, k, i, b);
    RunKeepsInv(ss, es, k);
    var v := ss[k].invs[i];
    assert SentFits(v) && StreamFits(ss[k], i);
    forall x | x in Of(ss[k].loop.written, i) && IsFinal(x.body) ensures v.outcome == Some(x.body) {
      var n :| 0 <= n < |Of(ss[k].loop.written, i)| && Of(ss[k].loop.written, i)[n] == x;
      assert v.sent[n] == x;
    }
  }

  /** The invocations are those of the requests that the loop has launched, in order. */
  lemma {:induction false} InvocationsAreLaunched(ss: seq<State>, es: seq<Event>, k: nat)
    requires Run(ss, es) && k <= |es|
    ensures |ss[k].invs| == |ss[k].loop.launched|
    ensures forall i | 0 <= i < |ss[k].invs| :: ss[k].invs[i].request == ss[k].loop.launched[i]
  {
    if k > 0 {
      InvocationsAreLaunched(ss, es, k - 1);
      var s, e := ss[k - 1], es[k - 1];
      assert Enabled(s, e) && ss[k] == Next(s, e);
      StepLaunches(s, e, ss[k]);
    }
  }

  lemma StepLaunches(s: State, e: Event, s': State)
    requires Enabled(s, e) && s' == Next(s, e)
    requires |s.invs| == |s.loop.launched| && forall i | 0 <= i < |s.invs| :: s.invs[i].request == s.loop.launched[i]
    ensures |s'.invs| == |s'.loop.launched|
    ensures forall i | 0 <= i < |s'.invs| :: s'.invs[i].request == s'.loop.launched[i]
  {
    forall i | 0 <= i < |s.invs| ensures s'.invs[i].request == s.invs[i].request {
      StepKeepsRequest(s, e, s', i);
    }
  }
}
