/** A client that can be used for one SOCKS request: its state, the calls that race for it, and what
    every interleaving of them keeps.

    The object that does the connecting and the streams that come of it are named by numbers. */
module Oneshot {
  import opened Wrappers

  datatype Inner = Unused(connector: nat) | Launching | Stream(ctrl: nat) | UsedToResolve | StreamFailed

  datatype TakeError = AlreadyUsed

  /** Taking the connector: the new state, and the connector or an error. */
  function Take(s: Inner, next: Inner): (Inner, Result<nat, TakeError>) {
    if s.Unused? then (next, Ok(s.connector)) else (s, Err(AlreadyUsed))
  }

  /** The state that a connecting call puts in place: the stream that the connector gave, or none. */
  function Installed(stream: Option<nat>): Inner {
    match stream case Some(ctrl) => Stream(ctrl) case None => StreamFailed
  }

  class OneshotClient {
    var inner: Inner

    constructor (connector: nat)
      ensures inner == Unused(connector)
    {
      inner := Unused(connector);
    }

    /** The source first puts the new state in place, and puts the old one back if it held no
        connector; the lock that it holds meanwhile hides the state between. */
    method TakeConnector(next: Inner) returns (r: Result<nat, TakeError>)
      modifies this
      ensures (inner, r) == Take(old(inner), next)
    {
      var val := inner;
      inner := next;
      match val {
        case Unused(c) => r := Ok(c);
        case _ =>
          inner := val;
          r := Err(AlreadyUsed);
      }
    }

    /** What a connecting call does once the connector has answered. */
    method Install(stream: Option<nat>)
      modifies this
      ensures inner == Installed(stream)
    {
      var next := StreamFailed;
      if stream.Some? {
        next := Stream(stream.value);
      }
      inner := next;
    }
  }

  // ---------------------------------------------------------------------------------------------
  // Calls
  // ---------------------------------------------------------------------------------------------

  datatype Kind = Connect(optimistic: bool) | Resolve | ResolvePtr

  /** How a call ends. */
  datatype Return = Refused | DelegationFailed | ConnectorError | WaitFailed | OkStream(ctrl: nat) | Answered

  /** Where a call is: waiting for the connector to do its work, waiting for its stream to connect,
      or over.  `Dropped` is a call that was given up while it waited. */
  datatype Phase = Delegating | AwaitingConnection(ctrl: nat) | Over(ret: Return) | Dropped(launched: Option<nat>)

  datatype Call = Call(kind: Kind, phase: Phase)

  datatype State = State(inner: Inner, calls: seq<Call>)

  /** What the connector comes to: it could not be called, or it gave a stream, an error or an answer. */
  datatype Delegated = NotDelegated | GaveStream(ctrl: nat) | GaveError | GaveAnswer

  datatype Event = Begin(kind: Kind) | Finish(c: nat, result: Delegated) | Wait(c: nat, ok: bool) | Drop(c: nat)

  /** The state that taking the connector leads to. */
  function Claim(kind: Kind): Inner {
    if kind.Connect? then Launching else UsedToResolve
  }

  ghost predicate Enabled(s: State, e: Event) {
    match e
    case Begin(_) => true
    case Finish(c, result) =>
      && c < |s.calls| && s.calls[c].phase == Delegating
      && (result.GaveStream? ==> s.calls[c].kind.Connect?)
      && (result.GaveAnswer? ==> !s.calls[c].kind.Connect?)
    case Wait(c, _) => c < |s.calls| && s.calls[c].phase.AwaitingConnection?
    case Drop(c) => c < |s.calls| && (s.calls[c].phase == Delegating || s.calls[c].phase.AwaitingConnection?)
  }

  function SetPhase(calls: seq<Call>, c: nat, phase: Phase): seq<Call>
    requires c < |calls|
  {
    calls[c := calls[c].(phase := phase)]
  }

  /** What a connecting call does with what the connector gave it. */
  function FinishConnect(s: State, c: nat, result: Delegated): State
    requires c < |s.calls| && s.calls[c].kind.Connect? && !result.GaveAnswer?
  {
    match result
    case NotDelegated => s.(calls := SetPhase(s.calls, c, Over(DelegationFailed)))
    case GaveError => State(Installed(None), SetPhase(s.calls, c, Over(ConnectorError)))
    case GaveStream(ctrl) =>
      State(Installed(Some(ctrl)), SetPhase(s.calls, c,
        if s.calls[c].kind.optimistic then Over(OkStream(ctrl)) else AwaitingConnection(ctrl)))
  }

  function FinishResolve(s: State, c: nat, result: Delegated): State
    requires c < |s.calls| && !result.GaveStream?
  {
    s.(calls := SetPhase(s.calls, c, Over(if result.NotDelegated? then DelegationFailed
                                          else if result.GaveError? then ConnectorError else Answered)))
  }

  function Next(s: State, e: Event): State
    requires Enabled(s, e)
  {
    match e
    case Begin(kind) =>
      var (inner, r) := Take(s.inner, Claim(kind));
      State(inner, s.calls + [Call(kind, if r.Ok? then Delegating else Over(Refused))])
    case Finish(c, result) =>
      if s.calls[c].kind.Connect? then FinishConnect(s, c, result) else FinishResolve(s, c, result)
    case Wait(c, ok) =>
      var ctrl := s.calls[c].phase.ctrl;
      s.(calls := SetPhase(s.calls, c, Over(if ok then OkStream(ctrl) else WaitFailed)))
    case Drop(c) =>
      var launched := match s.calls[c].phase case AwaitingConnection(ctrl) => Some(ctrl) case _ => None;
      s.(calls := SetPhase(s.calls, c, Dropped(launched)))
  }

  ghost predicate StepAt(ss: seq<State>, es: seq<Event>, k: nat)
    requires |ss| == |es| + 1 && k < |es|
  {
    Enabled(ss[k], es[k]) && ss[k + 1] == Next(ss[k], es[k])
  }

  ghost predicate Run(ss: seq<State>, es: seq<Event>, connector: nat) {
    && |ss| == |es| + 1 && ss[0] == State(Unused(connector), [])
    && forall k: nat | k < |es| :: StepAt(ss, es, k)
  }

  // ---------------------------------------------------------------------------------------------
  // The invariant
  // ---------------------------------------------------------------------------------------------

  /** The call was handed the connector. */
  predicate Holds(c: Call) {
    c.phase != Over(Refused)
  }

  ghost predicate OneHolder(s: State) {
    forall i, j | 0 <= i < j < |s.calls| :: !(Holds(s.calls[i]) && Holds(s.calls[j]))
  }

  ghost predicate UnusedIffNoHolder(s: State) {
    s.inner.Unused? <==> forall i | 0 <= i < |s.calls| :: !Holds(s.calls[i])
  }

  /** What the state is while the call that holds the connector is where it is. */
  ghost predicate Fits(c: Call, inner: Inner) {
    if !c.kind.Connect? then inner == UsedToResolve && !c.phase.AwaitingConnection? && !(c.phase.Over? && c.phase.ret.OkStream?)
    else
      match c.phase
      case Delegating => inner == Launching
      case AwaitingConnection(ctrl) => inner == Stream(ctrl)
      case Dropped(None) => inner == Launching
      case Dropped(Some(ctrl)) => inner == Stream(ctrl)
      case Over(DelegationFailed) => inner == Launching
      case Over(ConnectorError) => inner == StreamFailed
      case Over(WaitFailed) => inner.Stream?
      case Over(OkStream(ctrl)) => inner == Stream(ctrl)
      case Over(_) => false
  }

  ghost predicate HoldersFit(s: State) {
    forall i | 0 <= i < |s.calls| && Holds(s.calls[i]) :: Fits(s.calls[i], s.inner)
  }

  ghost predicate Inv(s: State) {
    OneHolder(s) && UnusedIffNoHolder(s) && HoldersFit(s)
  }

  /** A call that is neither over nor refused is the one that holds the connector. */
  lemma ChangeKeepsInv(s: State, s': State, c: nat)
    requires Inv(s) && c < |s.calls| && Holds(s.calls[c])
    requires |s'.calls| == |s.calls| && forall i | 0 <= i < |s.calls| && i != c :: s'.calls[i] == s.calls[i]
    requires Holds(s'.calls[c]) && Fits(s'.calls[c], s'.inner) && !s'.inner.Unused?
    ensures Inv(s')
  {
    forall i | 0 <= i < |s.calls| && i != c
      ensures !Holds(s.calls[i])
    {
      assert i < c || c < i;
    }
  }

  lemma BeginKeepsInv(s: State, kind: Kind)
    requires Inv(s)
    ensures Inv(Next(s, Begin(kind)))
  {
    var s' := Next(s, Begin(kind));
    var n := |s.calls|;
    assert forall i | 0 <= i < n :: s'.calls[i] == s.calls[i];
    assert Holds(s'.calls[n]) == s.inner.Unused?;
  }

  lemma NextKeepsInv(s: State, e: Event)
    requires Inv(s) && Enabled(s, e)
    ensures Inv(Next(s, e))
  {
    match e
    case Begin(kind) => BeginKeepsInv(s, kind);
    case _ =>
      assert Fits(s.calls[e.c], s.inner);
      ChangeKeepsInv(s, Next(s, e), e.c);
  }

  lemma {:induction false} RunKeepsInv(ss: seq<State>, es: seq<Event>, connector: nat, k: nat)
    requires Run(ss, es, connector) && k <= |es|
    ensures Inv(ss[k])
  {
    if k > 0 {
      RunKeepsInv(ss, es, connector, k - 1);
      assert StepAt(ss, es, k - 1);
      NextKeepsInv(ss[k - 1], es[k - 1]);
    }
  }

  // ---------------------------------------------------------------------------------------------
  // What every run keeps
  // ---------------------------------------------------------------------------------------------

  /** In every interleaving the connector is handed out at most once. */
  lemma HandedOutOnce(ss: seq<State>, es: seq<Event>, connector: nat, k: nat, i: nat, j: nat)
    requires Run(ss, es, connector) && k <= |es| && i < |ss[k].calls| && j < |ss[k].calls|
    requires Holds(ss[k].calls[i]) && Holds(ss[k].calls[j])
    ensures i == j
  {
    RunKeepsInv(ss, es, connector, k);
  }

  /** The first call gets it, and every later one is refused and leaves the state as it is. */
  lemma FirstCallWins(ss: seq<State>, es: seq<Event>, connector: nat, k: nat)
    requires Run(ss, es, connector) && k < |es| && es[k].Begin?
    ensures |ss[k + 1].calls| == |ss[k].calls| + 1
    ensures |ss[k].calls| == 0 ==> ss[k].inner == Unused(connector) && Holds(ss[k + 1].calls[0])
    ensures |ss[k].calls| == 0 ==> Take(ss[k].inner, Claim(es[k].kind)).1 == Ok(connector)
    ensures |ss[k].calls| > 0 ==> ss[k + 1].inner == ss[k].inner && ss[k + 1].calls[|ss[k].calls|].phase == Over(Refused)
  {
    assert StepAt(ss, es, k);
    FirstHolds(ss, es, connector, k);
  }

  lemma {:induction false} FirstHolds(ss: seq<State>, es: seq<Event>, connector: nat, k: nat)
    requires Run(ss, es, connector) && k <= |es|
    ensures |ss[k].calls| == 0 ==> ss[k].inner == Unused(connector)
    ensures |ss[k].calls| > 0 ==> Holds(ss[k].calls[0]) && !ss[k].inner.Unused?
  {
    if k > 0 {
      FirstHolds(ss, es, connector, k - 1);
      RunKeepsInv(ss, es, connector, k);
      assert StepAt(ss, es, k - 1);
    }
  }

  /** Only the call that is waiting for the connector can end `Launching`. */
  lemma LaunchingEndsByItsCall(ss: seq<State>, es: seq<Event>, connector: nat, k: nat)
    requires Run(ss, es, connector) && k < |es| && ss[k].inner == Launching && ss[k + 1].inner != Launching
    ensures es[k].Finish? && es[k].c < |ss[k].calls|
    ensures ss[k].calls[es[k].c].kind.Connect? && ss[k].calls[es[k].c].phase == Delegating
    ensures ss[k + 1].inner.Stream? || ss[k + 1].inner == StreamFailed
  {
    assert StepAt(ss, es, k);
  }

  predicate IsTerminal(inner: Inner) {
    inner.Stream? || inner == UsedToResolve || inner == StreamFailed
  }

  lemma NextKeepsTerminal(s: State, e: Event)
    requires Inv(s) && Enabled(s, e) && IsTerminal(s.inner)
    ensures Next(s, e).inner == s.inner
  {
    if e.Finish? {
      assert Fits(s.calls[e.c], s.inner);
    }
  }

  /** The three last states are never left. */
  lemma {:induction false} TerminalForever(ss: seq<State>, es: seq<Event>, connector: nat, i: nat, j: nat)
    requires Run(ss, es, connector) && i <= j <= |es| && IsTerminal(ss[i].inner)
    ensures ss[j].inner == ss[i].inner
    decreases j
  {
    if i < j {
      TerminalForever(ss, es, connector, i, j - 1);
      RunKeepsInv(ss, es, connector, j - 1);
      assert StepAt(ss, es, j - 1);
      NextKeepsTerminal(ss[j - 1], es[j - 1]);
    }
  }

  /** A call that gives a stream to its caller left the client in state `Stream`, with that stream, and
      there it stays. */
  lemma ConnectedMeansStream(ss: seq<State>, es: seq<Event>, connector: nat, i: nat, j: nat, c: nat, ctrl: nat)
    requires Run(ss, es, connector) && i <= j <= |es| && c < |ss[i].calls|
    requires ss[i].calls[c].phase == Over(OkStream(ctrl))
    ensures ss[i].calls[c].kind.Connect? && ss[j].inner == Stream(ctrl)
  {
    RunKeepsInv(ss, es, connector, i);
    assert Holds(ss[i].calls[c]);
    assert Fits(ss[i].calls[c], ss[i].inner);
    TerminalForever(ss, es, connector, i, j);
  }

  /** The connecting call ended before it could put the new state in place. */
  ghost predicate GaveUp(c: Call) {
    c.kind.Connect? && (c.phase == Over(DelegationFailed) || c.phase == Dropped(None))
  }

  lemma NextKeepsGaveUp(s: State, e: Event, c: nat)
    requires Inv(s) && Enabled(s, e) && c < |s.calls| && GaveUp(s.calls[c])
    ensures Next(s, e).inner == Launching && c < |Next(s, e).calls| && Next(s, e).calls[c] == s.calls[c]
  {
    assert Holds(s.calls[c]) && Fits(s.calls[c], s.inner);
    if !e.Begin? {
      assert Holds(s.calls[e.c]);
    }
  }

  /** Then the client stays in `Launching` for good; and while it is there and that did not happen, a
      call is at work that can end it. */
  lemma {:induction false} LaunchingForever(ss: seq<State>, es: seq<Event>, connector: nat, i: nat, j: nat, c: nat)
    requires Run(ss, es, connector) && i <= j <= |es| && c < |ss[i].calls| && GaveUp(ss[i].calls[c])
    ensures ss[j].inner == Launching && c < |ss[j].calls| && ss[j].calls[c] == ss[i].calls[c]
    decreases j
  {
    RunKeepsInv(ss, es, connector, i);
    assert Holds(ss[i].calls[c]) && Fits(ss[i].calls[c], ss[i].inner);
    if i < j {
      LaunchingForever(ss, es, connector, i, j - 1, c);
      RunKeepsInv(ss, es, connector, j - 1);
      assert StepAt(ss, es, j - 1);
      NextKeepsGaveUp(ss[j - 1], es[j - 1], c);
    }
  }

  lemma LaunchingHasCall(ss: seq<State>, es: seq<Event>, connector: nat, k: nat) returns (c: nat)
    requires Run(ss, es, connector) && k <= |es| && ss[k].inner == Launching
    ensures c < |ss[k].calls| && (GaveUp(ss[k].calls[c]) || ss[k].calls[c].phase == Delegating)
    ensures ss[k].calls[c].kind.Connect?
  {
    RunKeepsInv(ss, es, connector, k);
    c :| 0 <= c < |ss[k].calls| && Holds(ss[k].calls[c]);
    assert Fits(ss[k].calls[c], ss[k].inner);
  }

  /** Some event can end `Launching`. */
  ghost predicate CanEndLaunching(s: State) {
    exists e :: Enabled(s, e) && Next(s, e).inner != Launching
  }

  ghost predicate AtWork(s: State, c: nat) {
    c < |s.calls| && s.calls[c].kind.Connect? && s.calls[c].phase == Delegating
  }

  ghost predicate HasGivenUp(s: State, c: nat) {
    c < |s.calls| && GaveUp(s.calls[c])
  }

  /** In every run, `Launching` can still be ended exactly while a connecting call waits for the
      connector, which is exactly when no connecting call gave up. */
  lemma CanEndIffAtWork(ss: seq<State>, es: seq<Event>, connector: nat, k: nat)
    requires Run(ss, es, connector) && k <= |es| && ss[k].inner == Launching
    ensures CanEndLaunching(ss[k]) <==> exists c: nat :: AtWork(ss[k], c)
    ensures CanEndLaunching(ss[k]) <==> !exists c: nat :: HasGivenUp(ss[k], c)
  {
    var s := ss[k];
    RunKeepsInv(ss, es, connector, k);
    var h := LaunchingHasCall(ss, es, connector, k);
    if AtWork(s, h) {
      var e := Finish(h, GaveError);
      assert Enabled(s, e) && Next(s, e).inner != Launching;
    }
    forall c: nat | AtWork(s, c) || HasGivenUp(s, c) ensures c == h {
      assert Holds(s.calls[c]) && Holds(s.calls[h]);
    }
    if e :| Enabled(s, e) && Next(s, e).inner != Launching {
      assert AtWork(s, e.c);
    }
    assert AtWork(s, h) || HasGivenUp(s, h);
  }

  /** It does happen: the connector of the first call cannot be called. */
  lemma GiveUpHappens(connector: nat) returns (ss: seq<State>, es: seq<Event>)
    ensures es == [Begin(Connect(true)), Finish(0, NotDelegated)]
    ensures Run(ss, es, connector) && ss[|es|].inner == Launching && HasGivenUp(ss[|es|], 0)
  {
    var kind := Connect(true);
    es := [Begin(kind), Finish(0, NotDelegated)];
    ss := [State(Unused(connector), []),
           State(Launching, [Call(kind, Delegating)]),
           State(Launching, [Call(kind, Over(DelegationFailed))])];
    assert StepAt(ss, es, 0);
    assert StepAt(ss, es, 1);
  }

  // ---------------------------------------------------------------------------------------------
  // Why a call is where it is
  // ---------------------------------------------------------------------------------------------

  ghost predicate Happened(es: seq<Event>, k: nat, e: Event)
    requires k <= |es|
  {
    exists j :: 0 <= j < k && es[j] == e
  }

  /** The event is one of call `c` after it began. */
  predicate IsOf(e: Event, c: nat) {
    !e.Begin? && e.c == c
  }

  /** What must have happened, and what cannot have, for call `c` to be in its phase. */
  ghost predicate Explained(es: seq<Event>, k: nat, c: nat, call: Call)
    requires k <= |es|
  {
    match call.phase
    case Delegating => forall j | 0 <= j < k :: !IsOf(es[j], c)
    case AwaitingConnection(ctrl) =>
      && call.kind == Connect(false) && Happened(es, k, Finish(c, GaveStream(ctrl)))
      && forall j | 0 <= j < k && IsOf(es[j], c) :: es[j].Finish?
    case Dropped(_) => Happened(es, k, Drop(c))
    case Over(Refused) => forall j | 0 <= j < k :: !IsOf(es[j], c)
    case Over(DelegationFailed) => Happened(es, k, Finish(c, NotDelegated))
    case Over(ConnectorError) => Happened(es, k, Finish(c, GaveError))
    case Over(Answered) => !call.kind.Connect? && Happened(es, k, Finish(c, GaveAnswer))
    case Over(WaitFailed) => call.kind == Connect(false) && Happened(es, k, Wait(c, false))
    case Over(OkStream(ctrl)) =>
      && call.kind.Connect? && Happened(es, k, Finish(c, GaveStream(ctrl)))
      && (!call.kind.optimistic ==> Happened(es, k, Wait(c, true)))
  }

  lemma HappenedStays(es: seq<Event>, k: nat, e: Event)
    requires k < |es| && Happened(es, k, e)
    ensures Happened(es, k + 1, e)
  {
    var j :| 0 <= j < k && es[j] == e;
    assert es[j] == e;
  }

  lemma HappensNow(es: seq<Event>, k: nat)
    requires k < |es|
    ensures Happened(es, k + 1, es[k])
  {
    assert es[k] == es[k];
  }

  lemma ExplainedStays(es: seq<Event>, k: nat, c: nat, call: Call)
    requires k < |es| && Explained(es, k, c, call) && !IsOf(es[k], c)
    ensures Explained(es, k + 1, c, call)
  {
    forall e | Happened(es, k, e) ensures Happened(es, k + 1, e) {
      HappenedStays(es, k, e);
    }
  }

  lemma OwnEventExplains(s: State, es: seq<Event>, k: nat, c: nat)
    requires k < |es| && Enabled(s, es[k]) && c < |s.calls| && Explained(es, k, c, s.calls[c]) && IsOf(es[k], c)
    ensures c < |Next(s, es[k]).calls| && Explained(es, k + 1, c, Next(s, es[k]).calls[c])
  {
    HappensNow(es, k);
    forall e | Happened(es, k, e) ensures Happened(es, k + 1, e) {
      HappenedStays(es, k, e);
    }
  }

  lemma {:induction false} NoEventBefore(ss: seq<State>, es: seq<Event>, connector: nat, k: nat, c: nat)
    requires Run(ss, es, connector) && k <= |es| && |ss[k].calls| <= c
    ensures forall j | 0 <= j < k :: !IsOf(es[j], c)
  {
    if k > 0 {
      assert StepAt(ss, es, k - 1);
      NoEventBefore(ss, es, connector, k - 1, c);
    }
  }

  /** Every call is where the events brought it: a call that was not optimistic returns a stream only
      after it waited for the connection, an optimistic one never waits, each way of ending has its own
      cause, and every event of a call moves it on. */
  lemma {:induction false} CallsAreExplained(ss: seq<State>, es: seq<Event>, connector: nat, k: nat, c: nat)
    requires Run(ss, es, connector) && k <= |es| && c < |ss[k].calls|
    ensures Explained(es, k, c, ss[k].calls[c])
  {
    if k > 0 {
      assert StepAt(ss, es, k - 1);
      if c < |ss[k - 1].calls| {
        CallsAreExplained(ss, es, connector, k - 1, c);
        if IsOf(es[k - 1], c) {
          OwnEventExplains(ss[k - 1], es, k - 1, c);
        } else {
          assert ss[k].calls[c] == ss[k - 1].calls[c];
          ExplainedStays(es, k - 1, c, ss[k].calls[c]);
        }
      } else {
        NoEventBefore(ss, es, connector, k - 1, c);
      }
    }
  }

  /** The stream of a call that is not optimistic is returned only once it is connected. */
  lemma StreamIsConnected(ss: seq<State>, es: seq<Event>, connector: nat, k: nat, c: nat) returns (j: nat)
    requires Run(ss, es, connector) && k <= |es| && c < |ss[k].calls|
    requires ss[k].calls[c].kind == Connect(false) && ss[k].calls[c].phase.Over? && ss[k].calls[c].phase.ret.OkStream?
    ensures j < k && es[j] == Wait(c, true)
  {
    CallsAreExplained(ss, es, connector, k, c);
    j :| j < k && es[j] == Wait(c, true);
  }
}
