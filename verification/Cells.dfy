/** The cancellable futures of a connection are the futures of `Cancel`, and the answers of `rpc:cancel`
    requests say what they found (crates/arti-rpcserver/src/connection.rs and cancel.rs). */
module Cells {
  import opened Wrappers
  import opened Messages
  import opened Lifecycle
  import I = Inflight
  import C = Cancel

  type Output = Result<Value, RpcError>

  type World = C.World<Output>

  /** `w` is where the future of invocation `i` is. */
  ghost predicate IsCellOf(w: World, s: State, i: nat) {
    i < |s.invs| && s.invs[i].cell == Some(w.cell) && s.invs[i].poller == w.poller
  }

  /** What an event of the connection is to the future of invocation `i`. */
  ghost function CellEvent(s: State, e: Event, i: nat): Option<C.Event<Output>> {
    match e
    case BeginPoll(x, w) => if x == i then Some(C.BeginPoll(w)) else None
    case StayPending(x) => if x == i then Some(C.EndPoll(C.StillPending)) else None
    case Complete(x, r) => if x == i then Some(C.EndPoll(C.Ready(r))) else None
    case CancelTarget(x) => if x < |s.invs| && s.invs[x].task == Holding(i) then Some(C.LockAndCancel) else None
    case _ => None
  }

  lemma CellStep(s: State, e: Event, s': State, i: nat, w: World)
    requires Phases(s) && Handles(s) && Enabled(s, e) && s' == Next(s, e) && IsCellOf(w, s, i)
    ensures match CellEvent(s, e, i)
            case None => IsCellOf(w, s', i)
            case Some(ce) => C.Enabled(w, ce) && IsCellOf(C.Next(w, ce), s', i)
  {
    assert PhaseFits(s.invs[i]);
    if e.CancelTarget? {
      assert HeldFits(s, e.i);
    }
  }

  lemma CellStarts(s: State, e: Event, s': State, i: nat)
    requires Phases(s) && Enabled(s, e) && s' == Next(s, e) && i < |s'.invs| && s'.invs[i].cell.Some?
    requires i < |s.invs| ==> s.invs[i].cell.None?
    ensures IsCellOf(C.Start(), s', i)
  {
    if i < |s.invs| {
      assert PhaseFits(s.invs[i]);
    }
  }

  lemma CellInRun(ss: seq<State>, es: seq<Event>, k: nat, i: nat, w: World)
    requires Run(ss, es) && k < |es| && IsCellOf(w, ss[k], i)
    ensures match CellEvent(ss[k], es[k], i)
            case None => IsCellOf(w, ss[k + 1], i)
            case Some(ce) => C.Enabled(w, ce) && IsCellOf(C.Next(w, ce), ss[k + 1], i)
  {
    RunKeepsInv(ss, es, k);
    assert Enabled(ss[k], es[k]) && ss[k + 1] == Next(ss[k], es[k]);
    CellStep(ss[k], es[k], ss[k + 1], i, w);
  }

  lemma StartsInRun(ss: seq<State>, es: seq<Event>, k: nat, i: nat)
    requires Run(ss, es) && k <= |es| && i < |ss[k].invs| && ss[k].invs[i].cell.Some?
    requires k > 0 && i < |ss[k - 1].invs| ==> ss[k - 1].invs[i].cell.None?
    ensures IsCellOf(C.Start(), ss[k], i)
  {
    assert ss[0].invs == [];
    RunKeepsInv(ss, es, k - 1);
    assert Enabled(ss[k - 1], es[k - 1]) && ss[k] == Next(ss[k - 1], es[k - 1]);
    CellStarts(ss[k - 1], es[k - 1], ss[k], i);
  }

  /** A run of one future that ends in `w`. */
  ghost predicate EndsIn(ws: seq<World>, ces: seq<C.Event<Output>>, w: World) {
    C.Run(ws, ces) && ws[0] == C.Start<Output>() && ws[|ces|] == w
  }

  lemma Extend(ws: seq<World>, ces: seq<C.Event<Output>>, w: World, ce: C.Event<Output>)
    returns (ws': seq<World>, ces': seq<C.Event<Output>>)
    requires EndsIn(ws, ces, w) && C.Enabled(w, ce)
    ensures EndsIn(ws', ces', C.Next(w, ce))
  {
    ws', ces' := ws + [C.Next(w, ce)], ces + [ce];
  }

  /** In every run of a connection, each cancellable request goes through a run of one cancellable
      future, so that all that is proved of those holds of it: that no wake-up is lost, that it is
      cancelled or completes, and that it makes no progress once it is cancelled. */
  lemma {:induction false} RequestsAreFutures(ss: seq<State>, es: seq<Event>, k: nat, i: nat)
    returns (ws: seq<World>, ces: seq<C.Event<Output>>, w: World)
    requires Run(ss, es) && k <= |es| && i < |ss[k].invs| && ss[k].invs[i].cell.Some?
    ensures EndsIn(ws, ces, w) && IsCellOf(w, ss[k], i)
  {
    if k > 0 && i < |ss[k - 1].invs| && ss[k - 1].invs[i].cell.Some? {
      ws, ces, w := RequestsAreFutures(ss, es, k - 1, i);
      CellInRun(ss, es, k - 1, i, w);
      match CellEvent(ss[k - 1], es[k - 1], i)
      case None =>
      case Some(ce) =>
        ws, ces := Extend(ws, ces, w, ce);
        w := C.Next(w, ce);
    } else {
      StartsInRun(ss, es, k, i);
      w := C.Start();
      ws, ces := [w], [];
    }
  }

  // ---------------------------------------------------------------------------------------------
  // What a cancel request is told
  // ---------------------------------------------------------------------------------------------

  /** A request with that id is or was there that cannot be cancelled. */
  ghost predicate IsUncancellable(s: State, id: RequestId, t: nat) {
    t < |s.invs| && s.invs[t].request.id == id && !IsCancellable(s.invs[t].request.call)
  }

  /** Cancel request `c` looked when nothing was registered under the id. */
  ghost predicate LookedInVain(ss: seq<State>, es: seq<Event>, k: nat, c: nat, id: RequestId)
    requires k <= |es| < |ss|
  {
    exists j :: 0 <= j < k && es[j] == LookUpTarget(c) && id !in ss[j].inflight
  }

  /** Cancel request `c` used the handle of a request that had finished. */
  ghost predicate CameTooLate(s: State, c: nat, id: RequestId, t: nat) {
    && t < |s.invs| && s.invs[t].request.id == id
    && s.invs[t].cell.Some? && s.invs[t].cell.value.status == C.Finished
  }

  ghost predicate AnswerFits(ss: seq<State>, es: seq<Event>, k: nat, c: nat)
    requires k <= |es| < |ss| && c < |ss[k].invs|
  {
    var v := ss[k].invs[c];
    v.request.call.RpcCancel? && v.task.Answered? && v.task.result.Err? ==>
      var id := v.request.call.target;
      match v.task.result.error
      case CannotCancelRequest => exists t: nat :: IsUncancellable(ss[k], id, t)
      case RequestNotFound => LookedInVain(ss, es, k, c, id) || exists t: nat :: CameTooLate(ss[k], c, id, t)
      case CancelledTwice => false
  }

  lemma StepKeepsRequest(s: State, e: Event, s': State, t: nat)
    requires Enabled(s, e) && s' == Next(s, e) && t < |s.invs|
    ensures t < |s'.invs| && s'.invs[t].request == s.invs[t].request
  {
  }

  lemma FinishedStays(s: State, e: Event, s': State, t: nat)
    requires Phases(s) && Enabled(s, e) && s' == Next(s, e) && t < |s.invs|
    requires s.invs[t].cell.Some? && s.invs[t].cell.value.status == C.Finished
    ensures t < |s'.invs| && s'.invs[t].cell.Some? && s'.invs[t].cell.value.status == C.Finished
  {
    assert PhaseFits(s.invs[t]);
  }

  /** An answer that was there stays good. */
  lemma OldAnswerFits(ss: seq<State>, es: seq<Event>, k: nat, c: nat)
    requires Run(ss, es) && k < |es| && c < |ss[k].invs| && AnswerFits(ss, es, k, c) && Phases(ss[k])
    requires c < |ss[k + 1].invs| && ss[k + 1].invs[c].request == ss[k].invs[c].request
    requires ss[k + 1].invs[c].task == ss[k].invs[c].task
    ensures AnswerFits(ss, es, k + 1, c)
  {
    var s, s', id := ss[k], ss[k + 1], ss[k].invs[c].request.call;
    assert Enabled(s, es[k]) && s' == Next(s, es[k]);
    if id.RpcCancel? {
      forall t: nat | IsUncancellable(s, id.target, t) ensures IsUncancellable(s', id.target, t) {
        StepKeepsRequest(s, es[k], s', t);
      }
      forall t: nat | CameTooLate(s, c, id.target, t) ensures CameTooLate(s', c, id.target, t) {
        StepKeepsRequest(s, es[k], s', t);
        FinishedStays(s, es[k], s', t);
      }
    }
  }

  lemma TaskStays(s: State, e: Event, s': State, c: nat)
    requires Enabled(s, e) && s' == Next(s, e) && c < |s.invs| && e != LookUpTarget(c) && e != CancelTarget(c)
    ensures c < |s'.invs| && s'.invs[c].task == s.invs[c].task && s'.invs[c].request == s.invs[c].request
  {
  }

  lemma LookUpAnswers(ss: seq<State>, es: seq<Event>, k: nat, c: nat)
    requires Run(ss, es) && k < |es| && es[k] == LookUpTarget(c) && Inv(ss[k])
    ensures c < |ss[k + 1].invs| && AnswerFits(ss, es, k + 1, c)
  {
    var s, s' := ss[k], ss[k + 1];
    assert Enabled(s, es[k]) && s' == Next(s, es[k]);
    var id := s.invs[c].request.call.target;
    if id in s.inflight {
      assert EntryFits(s, id);
      assert s.inflight[id].None? ==> IsUncancellable(s', id, s.owner[id]);
    } else {
      assert es[k] == LookUpTarget(c);
      assert LookedInVain(ss, es, k + 1, c, id);
    }
  }

  lemma CancelAnswers(ss: seq<State>, es: seq<Event>, k: nat, c: nat)
    requires Run(ss, es) && k < |es| && es[k] == CancelTarget(c) && Inv(ss[k])
    ensures c < |ss[k + 1].invs| && AnswerFits(ss, es, k + 1, c)
  {
    var s, s' := ss[k], ss[k + 1];
    assert Enabled(s, es[k]) && s' == Next(s, es[k]);
    assert HeldFits(s, c) && PhaseFits(s.invs[c]);
    var t, id := s.invs[c].task.target, s.invs[c].request.call.target;
    assert s.invs[t].cell.value.status == C.Finished ==> CameTooLate(s', c, id, t);
  }

  lemma AnswerInRun(ss: seq<State>, es: seq<Event>, k: nat, c: nat)
    requires Run(ss, es) && k < |es| && c < |ss[k].invs| && c < |ss[k + 1].invs| && AnswerFits(ss, es, k, c)
    ensures AnswerFits(ss, es, k + 1, c)
  {
    RunKeepsInv(ss, es, k);
    if es[k] == LookUpTarget(c) {
      LookUpAnswers(ss, es, k, c);
    } else if es[k] == CancelTarget(c) {
      CancelAnswers(ss, es, k, c);
    } else {
      assert Enabled(ss[k], es[k]) && ss[k + 1] == Next(ss[k], es[k]);
      TaskStays(ss[k], es[k], ss[k + 1], c);
      OldAnswerFits(ss, es, k, c);
    }
  }

  lemma NewcomerHasNoAnswer(ss: seq<State>, es: seq<Event>, k: nat, c: nat)
    requires Run(ss, es) && k < |es| && |ss[k].invs| <= c < |ss[k + 1].invs|
    ensures ss[k + 1].invs[c].task == Idle
  {
    assert Enabled(ss[k], es[k]) && ss[k + 1] == Next(ss[k], es[k]);
  }

  /** A cancel request that fails says why: the request cannot be cancelled, or nothing was registered
      under the id, or the request had already finished. */
  lemma {:induction false} CancelErrorSaysWhy(ss: seq<State>, es: seq<Event>, k: nat, c: nat)
    requires Run(ss, es) && k <= |es| && c < |ss[k].invs|
    ensures AnswerFits(ss, es, k, c)
  {
    if k > 0 {
      if c < |ss[k - 1].invs| {
        CancelErrorSaysWhy(ss, es, k - 1, c);
        AnswerInRun(ss, es, k - 1, c);
      } else {
        NewcomerHasNoAnswer(ss, es, k - 1, c);
      }
    }
  }
}
