/** Deadlock freedom of the RPC server's locks: the hierarchy documented in
    crates/arti-rpcserver/src/mgr.rs, with the lock of each cancellable future outside it
    (crates/arti-rpcserver/src/cancel.rs), for any number of threads.

    A thread is the sequence of lock operations it still has to perform.  The scripts below are those
    of the server's operations. */
module Locks {
  import opened Wrappers

  datatype Lock =
    | CancelLock(cell: nat)     // `Inner` of one cancellable future
    | ConnLock(conn: nat)       // `Inner` of one connection
    | MgrLock                   // `Inner` of the manager
    | DispatchLock              // the readers-writer lock on the dispatch table

  datatype Mode = Exclusive | Shared

  datatype Action = Acquire(lock: Lock, mode: Mode) | Release(lock: Lock)

  /** Locks of higher rank are taken later. */
  function Rank(l: Lock): nat {
    match l
    case CancelLock(_) => 0
    case ConnLock(_) => 1
    case MgrLock => 2
    case DispatchLock => 3
  }

  // ---------------------------------------------------------------------------------------------
  // What the server does
  // ---------------------------------------------------------------------------------------------

  datatype Op =
    | OnConnection(conn: nat)                        // register or remove a request; register, release or look up an object
    | CancelRequest(conn: nat, found: Option<nat>)   // found: the cell of the handle taken out of the table
    | MgrLookup(owner: Option<nat>)                  // owner: the connection that the id belongs to, if it is alive
    | NewConnection
    | ReadDispatch
    | WriteDispatch

  /** One turn of a thread: a poll of a cancellable future, during which its method performs some
      operations, or operations outside such a poll. */
  datatype Work = PollCancellable(cell: nat, body: seq<Op>) | Outside(body: seq<Op>)

  function Guarded(l: Lock, m: Mode): seq<Action> {
    [Acquire(l, m), Release(l)]
  }

  /** Every operation releases a lock before it takes the next one. */
  function OpScript(op: Op): seq<Action> {
    match op
    case OnConnection(c) => Guarded(ConnLock(c), Exclusive)
    case CancelRequest(c, None) => Guarded(ConnLock(c), Exclusive)
    case CancelRequest(c, Some(cell)) => Guarded(ConnLock(c), Exclusive) + Guarded(CancelLock(cell), Exclusive)
    case MgrLookup(None) => Guarded(MgrLock, Exclusive)
    case MgrLookup(Some(c)) => Guarded(MgrLock, Exclusive) + Guarded(ConnLock(c), Exclusive)
    case NewConnection => Guarded(MgrLock, Exclusive)
    case ReadDispatch => Guarded(DispatchLock, Shared)
    case WriteDispatch => Guarded(DispatchLock, Exclusive)
  }

  function BodyScript(ops: seq<Op>): seq<Action> {
    if ops == [] then [] else OpScript(ops[0]) + BodyScript(ops[1..])
  }

  /** A poll holds the future's lock while the method runs. */
  function WorkScript(w: Work): seq<Action> {
    match w
    case Outside(body) => BodyScript(body)
    case PollCancellable(cell, body) =>
      [Acquire(CancelLock(cell), Exclusive)] + BodyScript(body) + [Release(CancelLock(cell))]
  }

  function Script(ws: seq<Work>): seq<Action> {
    if ws == [] then [] else WorkScript(ws[0]) + Script(ws[1..])
  }

  predicate UsesHandle(op: Op) {
    op.CancelRequest? && op.found.Some?
  }

  /** The rule the server keeps by declaring `rpc:cancel` uncancellable: no handle is used from inside
      a cancellable future. */
  predicate ObeysRule(w: Work) {
    w.PollCancellable? ==> forall i | 0 <= i < |w.body| :: !UsesHandle(w.body[i])
  }

  // ---------------------------------------------------------------------------------------------
  // Lock order
  // ---------------------------------------------------------------------------------------------

  predicate MayAcquire(held: set<Lock>, l: Lock) {
    forall h | h in held :: Rank(h) < Rank(l)
  }

  /** What is held after a script, or None if it takes a lock out of order or releases one it does not
      hold. */
  function HeldAfter(held: set<Lock>, script: seq<Action>): Option<set<Lock>>
    decreases |script|
  {
    if script == [] then Some(held)
    else match script[0]
      case Acquire(l, _) => if MayAcquire(held, l) then HeldAfter(held + {l}, script[1..]) else None
      case Release(l) => if l in held then HeldAfter(held - {l}, script[1..]) else None
  }

  /** A script that takes locks in order and gives all of them back. */
  predicate IsOrdered(held: set<Lock>, script: seq<Action>) {
    HeldAfter(held, script) == Some({})
  }

  lemma {:induction false} HeldAfterConcat(held: set<Lock>, a: seq<Action>, b: seq<Action>)
    ensures HeldAfter(held, a + b) ==
            match HeldAfter(held, a) case None => None case Some(h) => HeldAfter(h, b)
    decreases |a|
  {
    if a == [] {
      assert a + b == b;
    } else {
      assert (a + b)[1..] == a[1..] + b;
      match a[0] {
        case Acquire(l, _) => HeldAfterConcat(held + {l}, a[1..], b);
        case Release(l) => HeldAfterConcat(held - {l}, a[1..], b);
      }
    }
  }

  lemma GuardedIsNeutral(held: set<Lock>, l: Lock, m: Mode)
    ensures HeldAfter(held, Guarded(l, m)) == if MayAcquire(held, l) then Some(held) else None
  {
    var g := Guarded(l, m);
    assert g[1..] == [Release(l)] && g[1..][1..] == [];
    if MayAcquire(held, l) {
      assert l !in held;
      assert held + {l} - {l} == held;
      assert HeldAfter(held + {l}, [Release(l)]) == HeldAfter(held, []);
    }
  }

  /** Inside a poll, an operation is in order unless it uses a handle; outside, it always is. */
  lemma OpIsOrderedIff(held: set<Lock>, op: Op)
    requires held == {} || exists cell :: held == {CancelLock(cell)}
    ensures HeldAfter(held, OpScript(op)) == if held == {} || !UsesHandle(op) then Some(held) else None
  {
    match op
    case OnConnection(c) => GuardedIsNeutral(held, ConnLock(c), Exclusive);
    case CancelRequest(c, None) => GuardedIsNeutral(held, ConnLock(c), Exclusive);
    case CancelRequest(c, Some(cell)) =>
      GuardedIsNeutral(held, ConnLock(c), Exclusive);
      GuardedIsNeutral(held, CancelLock(cell), Exclusive);
      HeldAfterConcat(held, Guarded(ConnLock(c), Exclusive), Guarded(CancelLock(cell), Exclusive));
    case MgrLookup(None) => GuardedIsNeutral(held, MgrLock, Exclusive);
    case MgrLookup(Some(c)) =>
      GuardedIsNeutral(held, MgrLock, Exclusive);
      GuardedIsNeutral(held, ConnLock(c), Exclusive);
      HeldAfterConcat(held, Guarded(MgrLock, Exclusive), Guarded(ConnLock(c), Exclusive));
    case NewConnection => GuardedIsNeutral(held, MgrLock, Exclusive);
    case ReadDispatch => GuardedIsNeutral(held, DispatchLock, Shared);
    case WriteDispatch => GuardedIsNeutral(held, DispatchLock, Exclusive);
  }

  lemma {:induction false} BodyIsOrderedIff(held: set<Lock>, ops: seq<Op>)
    requires held == {} || exists cell :: held == {CancelLock(cell)}
    ensures HeldAfter(held, BodyScript(ops)) ==
            if held == {} || forall i | 0 <= i < |ops| :: !UsesHandle(ops[i]) then Some(held) else None
    decreases |ops|
  {
    if ops != [] {
      OpIsOrderedIff(held, ops[0]);
      BodyIsOrderedIff(held, ops[1..]);
      HeldAfterConcat(held, OpScript(ops[0]), BodyScript(ops[1..]));
      assert (forall i | 0 <= i < |ops| :: !UsesHandle(ops[i]))
        <==> !UsesHandle(ops[0]) && forall i | 0 <= i < |ops[1..]| :: !UsesHandle(ops[1..][i]);
    }
  }

  /** A turn of a thread takes locks in order exactly when it obeys the rule. */
  lemma OrderedIffRule(w: Work)
    ensures IsOrdered({}, WorkScript(w)) <==> ObeysRule(w)
  {
    match w
    case Outside(body) => BodyIsOrderedIff({}, body);
    case PollCancellable(cell, body) =>
      var l := CancelLock(cell);
      var head, tail := [Acquire(l, Exclusive)], [Release(l)];
      BodyIsOrderedIff({l}, body);
      HeldAfterConcat({}, head + BodyScript(body), tail);
      HeldAfterConcat({}, head, BodyScript(body));
      assert {} + {l} == {l} && {l} - {l} == {};
      assert head[1..] == [] && tail[1..] == [];
  }

  lemma {:induction false} ScriptIsOrdered(ws: seq<Work>)
    requires forall i | 0 <= i < |ws| :: ObeysRule(ws[i])
    ensures IsOrdered({}, Script(ws))
  {
    if ws != [] {
      OrderedIffRule(ws[0]);
      ScriptIsOrdered(ws[1..]);
      HeldAfterConcat({}, WorkScript(ws[0]), Script(ws[1..]));
    }
  }

  // ---------------------------------------------------------------------------------------------
  // Threads
  // ---------------------------------------------------------------------------------------------

  datatype Thread = Thread(held: map<Lock, Mode>, rest: seq<Action>)

  type Threads = seq<Thread>

  ghost predicate Wants(t: Thread, l: Lock, m: Mode) {
    t.rest != [] && t.rest[0] == Acquire(l, m)
  }

  /** Whether thread `t` can go on.  A lock is not re-entrant, and a reader waits for a writer that is
      itself waiting. */
  ghost predicate CanStep(ts: Threads, t: nat) {
    && t < |ts| && ts[t].rest != []
    && match ts[t].rest[0]
       case Release(_) => true
       case Acquire(l, Exclusive) => forall u | 0 <= u < |ts| :: l !in ts[u].held
       case Acquire(l, Shared) =>
         && (forall u | 0 <= u < |ts| && l in ts[u].held :: ts[u].held[l].Shared?)
         && (forall u | 0 <= u < |ts| :: !Wants(ts[u], l, Exclusive))
  }

  ghost function Step(ts: Threads, t: nat): Threads
    requires CanStep(ts, t)
  {
    var h := ts[t].held;
    ts[t := Thread(match ts[t].rest[0] case Acquire(l, m) => h[l := m] case Release(l) => h - {l}, ts[t].rest[1..])]
  }

  ghost predicate Begins(ts: Threads, ws: seq<seq<Work>>) {
    |ts| == |ws| && forall t | 0 <= t < |ts| :: ts[t] == Thread(map[], Script(ws[t]))
  }

  ghost predicate Run(tss: seq<Threads>, steps: seq<nat>) {
    && |tss| == |steps| + 1
    && (forall k | 0 <= k < |steps| :: CanStep(tss[k], steps[k]) && tss[k + 1] == Step(tss[k], steps[k]))
  }

  ghost predicate AllOrdered(ts: Threads) {
    forall t | 0 <= t < |ts| :: IsOrdered(ts[t].held.Keys, ts[t].rest)
  }

  lemma StepKeepsOrder(ts: Threads, t: nat)
    requires AllOrdered(ts) && CanStep(ts, t)
    ensures AllOrdered(Step(ts, t))
  {
    var h := ts[t].held;
    match ts[t].rest[0]
    case Acquire(l, m) => assert h[l := m].Keys == h.Keys + {l};
    case Release(l) => assert (h - {l}).Keys == h.Keys - {l};
  }

  /** A thread that cannot step waits for a lock somebody holds, or for a writer's turn. */
  lemma {:induction false} SomebodyCanStep(ts: Threads, t: nat) returns (u: nat)
    requires AllOrdered(ts) && t < |ts| && ts[t].rest != []
    ensures CanStep(ts, u)
    ensures u == t || ts[u].held != map[] || exists l :: Wants(ts[u], l, Exclusive)
    decreases if ts[t].rest[0].Acquire? then 4 - Rank(ts[t].rest[0].lock) else 0
  {
    if CanStep(ts, t) {
      return t;
    }
    var l := ts[t].rest[0].lock;
    if v :| 0 <= v < |ts| && l in ts[v].held {
      assert IsOrdered(ts[v].held.Keys, ts[v].rest);
      u := SomebodyCanStep(ts, v);
    } else {
      u :| 0 <= u < |ts| && Wants(ts[u], l, Exclusive);
    }
  }

  lemma {:induction false} RunKeepsOrder(tss: seq<Threads>, steps: seq<nat>, ws: seq<seq<Work>>, k: nat)
    requires Run(tss, steps) && Begins(tss[0], ws) && k <= |steps|
    requires forall t, i | 0 <= t < |ws| && 0 <= i < |ws[t]| :: ObeysRule(ws[t][i])
    ensures AllOrdered(tss[k]) && |tss[k]| == |ws|
  {
    if k == 0 {
      forall t | 0 <= t < |ws| ensures IsOrdered(tss[0][t].held.Keys, tss[0][t].rest) {
        ScriptIsOrdered(ws[t]);
        assert tss[0][t] == Thread(map[], Script(ws[t]));
        assert tss[0][t].held.Keys == {};
      }
    } else {
      RunKeepsOrder(tss, steps, ws, k - 1);
      StepKeepsOrder(tss[k - 1], steps[k - 1]);
    }
  }

  /** Deadlock freedom.  If no handle is used from inside a cancellable future, then in every state of
      every run of any number of threads, some thread can go on unless all are finished. */
  lemma NoDeadlock(tss: seq<Threads>, steps: seq<nat>, ws: seq<seq<Work>>, k: nat)
    requires Run(tss, steps) && Begins(tss[0], ws) && k <= |steps|
    requires forall t, i | 0 <= t < |ws| && 0 <= i < |ws[t]| :: ObeysRule(ws[t][i])
    ensures (forall t | 0 <= t < |tss[k]| :: tss[k][t].rest == []) || exists u: nat :: CanStep(tss[k], u)
  {
    RunKeepsOrder(tss, steps, ws, k);
    if t :| 0 <= t < |tss[k]| && tss[k][t].rest != [] {
      var u := SomebodyCanStep(tss[k], t);
    }
  }

  ghost function Remaining(ts: Threads): nat {
    if ts == [] then 0 else Remaining(ts[..|ts| - 1]) + |ts[|ts| - 1].rest|
  }

  lemma {:induction false} RemainingAfterUpdate(ts: Threads, t: nat, v: Thread)
    requires t < |ts|
    ensures Remaining(ts[t := v]) + |ts[t].rest| == Remaining(ts) + |v.rest|
  {
    var n := |ts| - 1;
    if t < n {
      RemainingAfterUpdate(ts[..n], t, v);
      assert ts[t := v][..n] == ts[..n][t := v];
    } else {
      assert ts[t := v][..n] == ts[..n];
    }
  }

  /** Every step uses up one lock operation, so no run goes on for ever. */
  lemma {:induction false} RunsAreFinite(tss: seq<Threads>, steps: seq<nat>, k: nat)
    requires Run(tss, steps) && k <= |steps|
    ensures Remaining(tss[k]) + k == Remaining(tss[0])
  {
    if k > 0 {
      RunsAreFinite(tss, steps, k - 1);
      var t := steps[k - 1];
      assert CanStep(tss[k - 1], t);
      RemainingAfterUpdate(tss[k - 1], t, tss[k][t]);
    }
  }

  lemma {:induction false} NothingRemains(ts: Threads)
    requires forall t | 0 <= t < |ts| :: ts[t].rest == []
    ensures Remaining(ts) == 0
  {
    if ts != [] {
      NothingRemains(ts[..|ts| - 1]);
    }
  }

  /** A run that cannot be extended has finished all its threads, in as many steps as they had lock
      operations. */
  lemma MaximalRunFinishes(tss: seq<Threads>, steps: seq<nat>, ws: seq<seq<Work>>)
    requires Run(tss, steps) && Begins(tss[0], ws)
    requires forall t, i | 0 <= t < |ws| && 0 <= i < |ws[t]| :: ObeysRule(ws[t][i])
    requires forall u: nat :: !CanStep(tss[|steps|], u)
    ensures forall t | 0 <= t < |tss[|steps|]| :: tss[|steps|][t].rest == []
    ensures |steps| == Remaining(tss[0])
  {
    NoDeadlock(tss, steps, ws, |steps|);
    RunsAreFinite(tss, steps, |steps|);
    NothingRemains(tss[|steps|]);
  }

  /** The rule is needed: a cancellable future that cancels itself stops its thread for good. */
  lemma SelfCancelDeadlocks(conn: nat, cell: nat) returns (tss: seq<Threads>, steps: seq<nat>)
    ensures Run(tss, steps) && Begins(tss[0], [[PollCancellable(cell, [CancelRequest(conn, Some(cell))])]])
    ensures |tss[|steps|]| == 1 && tss[|steps|][0].rest != [] && forall u: nat :: !CanStep(tss[|steps|], u)
  {
    var c, x := ConnLock(conn), CancelLock(cell);
    var script := [Acquire(x, Exclusive), Acquire(c, Exclusive), Release(c), Acquire(x, Exclusive), Release(x), Release(x)];
    var w := PollCancellable(cell, [CancelRequest(conn, Some(cell))]);
    assert OpScript(w.body[0]) == [Acquire(c, Exclusive), Release(c), Acquire(x, Exclusive), Release(x)];
    assert BodyScript(w.body[1..]) == [];
    assert WorkScript(w) == script;
    assert Script([w]) == script + Script([w][1..]) == script;
    steps := [0, 0, 0];
    tss := [[Thread(map[], script)],
            [Thread(map[x := Exclusive], script[1..])],
            [Thread(map[x := Exclusive][c := Exclusive], script[2..])],
            [Thread(map[x := Exclusive], script[3..])]];
    assert Step(tss[0], 0) == tss[1];
    assert Step(tss[1], 0) == tss[2];
    assert Step(tss[2], 0) == tss[3] by {
      assert map[x := Exclusive][c := Exclusive] - {c} == map[x := Exclusive];
    }
  }

  // ---------------------------------------------------------------------------------------------
  // Exclusion, and which locks are taken
  // ---------------------------------------------------------------------------------------------

  /** A lock that two threads hold is held by both to read. */
  ghost predicate Excluded(ts: Threads) {
    forall t, u, l | 0 <= t < |ts| && 0 <= u < |ts| && t != u && l in ts[t].held && l in ts[u].held ::
      ts[t].held[l] == Shared && ts[u].held[l] == Shared
  }

  lemma StepKeepsExcluded(ts: Threads, t: nat)
    requires Excluded(ts) && CanStep(ts, t)
    ensures Excluded(Step(ts, t))
  {
  }

  /** Locks exclude: in every state of every run, whatever the threads do, a mutex has one holder, and
      who writes the dispatch table is alone with it. */
  lemma {:induction false} LocksExclude(tss: seq<Threads>, steps: seq<nat>, ws: seq<seq<Work>>, k: nat)
    requires Run(tss, steps) && Begins(tss[0], ws) && k <= |steps|
    ensures Excluded(tss[k])
  {
    if k > 0 {
      LocksExclude(tss, steps, ws, k - 1);
      StepKeepsExcluded(tss[k - 1], steps[k - 1]);
    }
  }

  ghost predicate Takes(script: seq<Action>, l: Lock, m: Mode) {
    exists i :: 0 <= i < |script| && script[i] == Acquire(l, m)
  }

  /** Which locks an operation takes, and how. */
  ghost predicate Needs(op: Op, l: Lock, m: Mode) {
    match l
    case CancelLock(cell) => m == Exclusive && op.CancelRequest? && op.found == Some(cell)
    case ConnLock(c) =>
      m == Exclusive && (op == OnConnection(c) || (op.CancelRequest? && op.conn == c) || op == MgrLookup(Some(c)))
    case MgrLock => m == Exclusive && (op.MgrLookup? || op == NewConnection)
    case DispatchLock => (op == ReadDispatch && m == Shared) || (op == WriteDispatch && m == Exclusive)
  }

  lemma OpTakesWhatItNeeds(op: Op, l: Lock, m: Mode)
    ensures Takes(OpScript(op), l, m) <==> Needs(op, l, m)
  {
    var script := OpScript(op);
    if Needs(op, l, m) {
      assert script[0] == Acquire(l, m) || (|script| == 4 && script[2] == Acquire(l, m));
    }
  }

  /** The documented order: future, connection, manager, dispatch table. */
  lemma OrderIsDocumented(cell: nat, conn: nat)
    ensures var order := [CancelLock(cell), ConnLock(conn), MgrLock, DispatchLock];
            forall i, j | 0 <= i < 4 && 0 <= j < 4 :: MayAcquire({order[i]}, order[j]) <==> i < j
  {
  }
}
