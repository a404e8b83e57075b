/** Cancellable futures (crates/arti-rpcserver/src/cancel.rs).

    A `Cancel` future and its `CancelHandle` share a mutex-protected cell with a status and a
    waker.  `PollCell` and `CancelCell` say what one critical section does to that cell; the class
    `CancelInner` is the cell as the code updates it; the rest of the module interleaves any number
    of polls, `cancel()` calls and wake-ups and proves what every run keeps. */
module Cancel {
  import opened Wrappers

  datatype Status = Pending | Finished | Cancelled

  datatype CannotCancel = AlreadyFinished | AlreadyCancelled

  /** The task a waker wakes; two wakers are equal exactly when each "will wake" the other's task. */
  type Waker = nat

  datatype Cell = Cell(status: Status, waker: Option<Waker>)

  /** What the wrapped future returns when it is polled. */
  datatype InnerPoll<V> = StillPending | Ready(value: V)

  /** What `Cancel::poll` returns. */
  datatype PollOutcome<V> = NotReady | Completed(value: V) | WasCancelled

  datatype CancelOutcome = CancelOutcome(cell: Cell, result: Result<Unit, CannotCancel>, wake: Option<Waker>)

  const NewCell := Cell(Pending, None)

  /** One poll, with `inner` what the wrapped future answers if it is polled at all. */
  function PollCell<V>(c: Cell, waker: Waker, inner: InnerPoll<V>): (Cell, PollOutcome<V>) {
    if c.status.Cancelled? then (c, WasCancelled)
    else match inner
      case Ready(v) => (c.(status := Finished), Completed(v))
      case StillPending => (c.(waker := Some(waker)), NotReady)
  }

  /** One `cancel()`, up to the point where it has released the mutex; `wake` is still to be woken. */
  function CancelCell(c: Cell): CancelOutcome {
    match c.status
    case Pending => CancelOutcome(Cell(Cancelled, None), Ok(Unit), c.waker)
    case Finished => CancelOutcome(c, Err(AlreadyFinished), None)
    case Cancelled => CancelOutcome(c, Err(AlreadyCancelled), None)
  }

  /** The shared cell, updated in place. */
  class CancelInner {
    var status: Status
    var waker: Option<Waker>

    ghost function Contents(): Cell
      reads this
    {
      Cell(status, waker)
    }

    constructor ()
      ensures Contents() == NewCell
    {
      status := Pending;
      waker := None;
    }

    /** `polled` says whether the wrapped future was polled, which is when `inner` is used. */
    method Poll<V>(cx: Waker, inner: InnerPoll<V>) returns (r: PollOutcome<V>, polled: bool)
      modifies this
      ensures (Contents(), r) == PollCell(old(Contents()), cx, inner)
      ensures polled <==> !old(status).Cancelled?
    {
      if status == Cancelled {
        return WasCancelled, false;
      }
      match inner {
        case Ready(v) =>
          status := Finished;
          r := Completed(v);
        case StillPending =>
          waker := Some(cx);
          r := NotReady;
      }
      polled := true;
    }

    method Cancel() returns (r: Result<Unit, CannotCancel>, wake: Option<Waker>)
      modifies this
      ensures CancelOutcome(Contents(), r, wake) == CancelCell(old(Contents()))
    {
      match status {
        case Pending => status := Cancelled;
        case Finished => return Err(AlreadyFinished), None;
        case Cancelled => return Err(AlreadyCancelled), None;
      }
      wake := waker;
      waker := None;
      r := Ok(Unit);
    }
  }

  // ---------------------------------------------------------------------------------------------
  // Interleavings
  // ---------------------------------------------------------------------------------------------

  /** A `cancel()` call that has left its critical section: its answer, and the waker it took out
      of the cell but has not woken yet. */
  datatype Call = Call(result: Result<Unit, CannotCancel>, owedWake: Option<Waker>)

  /** One cancellable future together with everything that has happened to it.  `poller` is the poll
      that holds the mutex; `progress` counts what the wrapped future did; `lastPending` is the
      waker of the last poll that returned NotReady. */
  datatype World<V> = World(
    cell: Cell,
    poller: Option<Waker>,
    progress: nat,
    lastPending: Option<Waker>,
    outcomes: seq<PollOutcome<V>>,
    calls: seq<Call>,
    woken: seq<Waker>)

  datatype Event<V> =
    | BeginPoll(waker: Waker)      // take the mutex; answer at once if already cancelled
    | DriveInner                   // the wrapped future does something while it is polled
    | EndPoll(inner: InnerPoll<V>) // record the wrapped future's answer, release the mutex
    | LockAndCancel                // a new `cancel()` call goes through its critical section
    | Wake(call: nat)              // that call wakes the waker it took

  ghost predicate Enabled<V>(w: World<V>, e: Event<V>) {
    match e
    case BeginPoll(_) => w.poller.None?
    case DriveInner => w.poller.Some?
    case EndPoll(_) => w.poller.Some?
    case LockAndCancel => w.poller.None?
    case Wake(k) => k < |w.calls| && w.calls[k].owedWake.Some?
  }

  ghost function Next<V>(w: World<V>, e: Event<V>): World<V>
    requires Enabled(w, e)
  {
    match e
    case BeginPoll(waker) =>
      if w.cell.status.Cancelled? then w.(outcomes := w.outcomes + [WasCancelled])
      else w.(poller := Some(waker))
    case DriveInner => w.(progress := w.progress + 1)
    case EndPoll(inner) =>
      var (cell, outcome) := PollCell(w.cell, w.poller.value, inner);
      w.(cell := cell, poller := None, outcomes := w.outcomes + [outcome],
         lastPending := if inner.StillPending? then w.poller else w.lastPending)
    case LockAndCancel =>
      var o := CancelCell(w.cell);
      w.(cell := o.cell, calls := w.calls + [Call(o.result, o.wake)])
    case Wake(k) =>
      w.(woken := w.woken + [w.calls[k].owedWake.value],
         calls := w.calls[k := w.calls[k].(owedWake := None)])
  }

  ghost function Start<V>(): World<V> {
    World(NewCell, None, 0, None, [], [], [])
  }

  ghost predicate Run<V>(ws: seq<World<V>>, es: seq<Event<V>>) {
    && |ws| == |es| + 1
    && (forall k | 0 <= k < |es| :: Enabled(ws[k], es[k]) && ws[k + 1] == Next(ws[k], es[k]))
  }

  /** No `cancel()` call still owes a wake-up. */
  ghost predicate NothingOwed<V>(w: World<V>) {
    forall j | 0 <= j < |w.calls| :: w.calls[j].owedWake.None?
  }

  /** `k` is the one call that succeeded. */
  ghost predicate OnlyWinner<V>(w: World<V>, k: nat) {
    && k < |w.calls|
    && (forall j | 0 <= j < |w.calls| :: w.calls[j].result.Ok? <==> j == k)
  }

  /** How wake-ups stand after a successful cancel: the waker of the last pending poll, if there was
      one, has been woken exactly once or is owed by the successful call, and nobody else is woken. */
  ghost predicate WakeAccount<V>(w: World<V>) {
    match w.lastPending
    case None => w.woken == [] && NothingOwed(w)
    case Some(waker) =>
      || (w.woken == [waker] && NothingOwed(w))
      || (w.woken == [] && forall j | 0 <= j < |w.calls| ::
            w.calls[j].owedWake == if w.calls[j].result.Ok? then Some(waker) else None)
  }

  ghost predicate Inv<V>(w: World<V>) {
    match w.cell.status
    case Pending =>
      && w.cell.waker == w.lastPending
      && w.woken == [] && NothingOwed(w)
      && (forall j | 0 <= j < |w.calls| :: w.calls[j].result.Err?)
      && (forall k | 0 <= k < |w.outcomes| :: w.outcomes[k].NotReady?)
    case Finished =>
      && w.woken == [] && NothingOwed(w)
      && (forall j | 0 <= j < |w.calls| :: w.calls[j].result.Err?)
      && (exists k :: 0 <= k < |w.outcomes| && w.outcomes[k].Completed?)
      && (forall k | 0 <= k < |w.outcomes| :: !w.outcomes[k].WasCancelled?)
    case Cancelled =>
      && w.poller.None? && w.cell.waker.None?
      && WakeAccount(w)
      && (exists k: nat :: OnlyWinner(w, k))
      && (forall k | 0 <= k < |w.outcomes| :: !w.outcomes[k].Completed?)
  }

  lemma NextKeepsInv<V>(w: World<V>, e: Event<V>)
    requires Inv(w) && Enabled(w, e)
    ensures Inv(Next(w, e))
  {
    var w' := Next(w, e);
    match e
    case BeginPoll(_) =>
      if w.cell.status.Cancelled? {
        var k: nat :| OnlyWinner(w, k);
        assert OnlyWinner(w', k);
      }
    case DriveInner =>
    case EndPoll(inner) =>
      if inner.Ready? {
        assert w'.outcomes[|w.outcomes|].Completed?;
      } else if w.cell.status.Finished? {
        var k :| 0 <= k < |w.outcomes| && w.outcomes[k].Completed?;
        assert w'.outcomes[k].Completed?;
      }
    case LockAndCancel =>
      if w.cell.status.Pending? {
        assert OnlyWinner(w', |w.calls|);
      } else if w.cell.status.Cancelled? {
        var k: nat :| OnlyWinner(w, k);
        assert OnlyWinner(w', k);
      }
    case Wake(c) =>
      if w.cell.status.Cancelled? {
        var k: nat :| OnlyWinner(w, k);
        assert OnlyWinner(w', k);
      }
  }

  /** Every reachable world satisfies the invariant. */
  lemma {:induction false} RunKeepsInv<V>(ws: seq<World<V>>, es: seq<Event<V>>, k: nat)
    requires Run(ws, es) && ws[0] == Start<V>() && k <= |es|
    ensures Inv(ws[k])
  {
    if k > 0 {
      RunKeepsInv(ws, es, k - 1);
      NextKeepsInv(ws[k - 1], es[k - 1]);
    }
  }

  /** In every run, `cancel()` succeeded at most once, and it succeeded exactly when the future ends
      as cancelled: a run never has both a successful cancel and a completed result, and polls
      report the cancellation only if some call succeeded. */
  lemma CancelOrComplete<V>(ws: seq<World<V>>, es: seq<Event<V>>, k: nat)
    requires Run(ws, es) && ws[0] == Start<V>() && k <= |es|
    ensures forall i, j | 0 <= i < j < |ws[k].calls| :: ws[k].calls[i].result.Err? || ws[k].calls[j].result.Err?
    ensures forall i, o | 0 <= i < |ws[k].calls| && 0 <= o < |ws[k].outcomes| ::
              ws[k].calls[i].result.Ok? ==> !ws[k].outcomes[o].Completed?
    ensures forall o | 0 <= o < |ws[k].outcomes| :: ws[k].outcomes[o].WasCancelled? ==>
              exists i :: 0 <= i < |ws[k].calls| && ws[k].calls[i].result.Ok?
  {
    RunKeepsInv(ws, es, k);
    if ws[k].cell.status.Cancelled? {
      var i: nat :| OnlyWinner(ws[k], i);
      assert ws[k].calls[i].result.Ok?;
    }
  }

  /** No lost wake-up.  While the future is pending, the stored waker is the one of its last pending
      poll; once it is cancelled, that waker has been woken exactly once or the successful call is
      about to wake it, and no other waker is ever woken. */
  lemma NoLostWakeup<V>(ws: seq<World<V>>, es: seq<Event<V>>, k: nat)
    requires Run(ws, es) && ws[0] == Start<V>() && k <= |es|
    ensures ws[k].cell.status.Pending? ==> ws[k].cell.waker == ws[k].lastPending && ws[k].woken == []
    ensures ws[k].cell.status.Cancelled? ==> WakeAccount(ws[k])
    ensures |ws[k].woken| <= 1
    ensures ws[k].cell.status.Cancelled? && ws[k].lastPending.Some? && NothingOwed(ws[k]) ==>
              ws[k].woken == [ws[k].lastPending.value]
  {
    RunKeepsInv(ws, es, k);
    var w := ws[k];
    if w.cell.status.Cancelled? && w.lastPending.Some? && NothingOwed(w) {
      var i: nat :| OnlyWinner(w, i);
      assert w.calls[i].owedWake.None?;
    }
  }

  /** After a successful cancel nothing happens to the wrapped future any more, and every poll from
      then on answers WasCancelled. */
  lemma {:induction false} NoProgressAfterCancel<V>(ws: seq<World<V>>, es: seq<Event<V>>, from: nat, k: nat)
    requires Run(ws, es) && ws[0] == Start<V>() && from <= k <= |es|
    requires ws[from].cell.status.Cancelled?
    ensures ws[k].cell.status.Cancelled? && ws[k].progress == ws[from].progress
    ensures |ws[from].outcomes| <= |ws[k].outcomes|
    ensures ws[k].outcomes[..|ws[from].outcomes|] == ws[from].outcomes
    ensures forall o | |ws[from].outcomes| <= o < |ws[k].outcomes| :: ws[k].outcomes[o].WasCancelled?
  {
    if from < k {
      NoProgressAfterCancel(ws, es, from, k - 1);
      RunKeepsInv(ws, es, k - 1);
      assert Enabled(ws[k - 1], es[k - 1]);
    }
  }

  /** What the answers of `cancel()` say about the future. */
  ghost predicate AnswersFit<V>(w: World<V>) {
    forall j | 0 <= j < |w.calls| ::
      match w.calls[j].result
      case Ok(_) => w.cell.status == Cancelled
      case Err(AlreadyFinished) => w.cell.status == Finished
      case Err(AlreadyCancelled) => w.cell.status == Cancelled
  }

  /** A `cancel()` that fails says why: the future has finished, or it was cancelled before. */
  lemma {:induction false} RefusalSaysWhy<V>(ws: seq<World<V>>, es: seq<Event<V>>, k: nat)
    requires Run(ws, es) && ws[0] == Start<V>() && k <= |es|
    ensures AnswersFit(ws[k])
  {
    if k > 0 {
      RefusalSaysWhy(ws, es, k - 1);
      RunKeepsInv(ws, es, k - 1);
      assert Enabled(ws[k - 1], es[k - 1]) && ws[k] == Next(ws[k - 1], es[k - 1]);
    }
  }
}
