/** The DNS proxy's coalescing of identical queries: `handle_dns_req` of crates/arti/src/dns.rs.

    One handler task runs per datagram.  Handlers share a map from a cache key to the targets waiting
    for its answer; the first handler for a key leads: it runs the query, then takes the whole list
    out of the map and answers everyone on it. */
module Dns {
  import opened Wrappers
  import opened DnsQuery

  datatype SocketAddr = SocketAddr(ip: Ip, port: nat)

  /** Which listener took the datagram, and the client's address without its port. */
  datatype IsolationKey = IsolationKey(listener: nat, ip: Ip)

  datatype CacheKey = CacheKey(isolation: IsolationKey, queries: seq<Query>)

  /** A datagram that parsed as a DNS message, and where it came from.  `asked` is its questions as they
      are written, `queries` stands for all questions that the DNS library takes for equal to those. */
  datatype Datagram = Datagram(id: nat, addr: SocketAddr, listener: nat, asked: seq<Query>, queries: seq<Query>)

  datatype Target = Target(id: nat, addr: SocketAddr, listener: nat)

  /** An answer, with the key under which it was computed and the questions as its message has them. */
  datatype Answer = Answer(key: CacheKey, asked: seq<Query>, result: Result<seq<Record>, ResponseCode>)

  datatype Reply = Reply(id: nat, addr: SocketAddr, listener: nat, answer: Answer)

  function KeyOf(d: Datagram): CacheKey {
    CacheKey(IsolationKey(d.listener, d.addr.ip), d.queries)
  }

  function TargetOf(d: Datagram): Target {
    Target(d.id, d.addr, d.listener)
  }

  function ReplyTo(t: Target, a: Answer): Reply {
    Reply(t.id, t.addr, t.listener, a)
  }

  // ---------------------------------------------------------------------------------------------
  // The map, and what a handler does with it
  // ---------------------------------------------------------------------------------------------

  type Pending<T> = map<CacheKey, seq<T>>

  function Waiting<T>(p: Pending<T>, k: CacheKey): seq<T> {
    if k in p then p[k] else []
  }

  function Joined<T>(p: Pending<T>, k: CacheKey, t: T): Pending<T> {
    p[k := Waiting(p, k) + [t]]
  }

  /** The map all handlers share. */
  class CurrentRequests {
    var pending: Pending<Target>

    constructor ()
      ensures pending == map[]
    {
      pending := map[];
    }

    /** The first critical section; the caller leads if it is alone on the list. */
    method Join(k: CacheKey, t: Target) returns (leads: bool)
      modifies this
      ensures pending == Joined(old(pending), k, t)
      ensures leads <==> Waiting(old(pending), k) == []
    {
      if k !in pending {
        pending := pending[k := []];
      }
      var req := pending[k] + [t];
      pending := pending[k := req];
      leads := |req| == 1;
    }

    /** The second critical section. */
    method TakeTargets(k: CacheKey) returns (targets: seq<Target>)
      modifies this
      ensures targets == Waiting(old(pending), k)
      ensures pending == old(pending) - {k}
    {
      targets := if k in pending then pending[k] else [];
      pending := pending - {k};
    }
  }

  /** The replies to `targets`, in order, leaving out those whose message does not serialize. */
  ghost function Replies(targets: seq<Target>, a: Answer, fits: nat -> bool): seq<Reply> {
    if targets == [] then []
    else
      var n := |targets| - 1;
      var before := Replies(targets[..n], a, fits);
      if fits(n) then before + [ReplyTo(targets[n], a)] else before
  }

  /** If every message serializes, everyone on the list gets exactly one reply, its own. */
  lemma {:induction false} EveryoneIsAnswered(targets: seq<Target>, a: Answer, fits: nat -> bool)
    requires forall n :: fits(n)
    ensures |Replies(targets, a, fits)| == |targets|
    ensures forall n | 0 <= n < |targets| :: Replies(targets, a, fits)[n] == ReplyTo(targets[n], a)
  {
    if targets != [] {
      EveryoneIsAnswered(targets[..|targets| - 1], a, fits);
    }
  }

  /** The reply loop.  One message is reused for all targets, with each one's transaction id set in
      turn; `fits(n)` says whether it serializes for the n-th target.  A failure is skipped. */
  method ReplyToAll(targets: seq<Target>, a: Answer, fits: nat -> bool) returns (sent: seq<Reply>)
    ensures sent == Replies(targets, a, fits)
  {
    sent := [];
    var responseId := 0;
    for n := 0 to |targets|
      invariant sent == Replies(targets[..n], a, fits)
    {
      assert targets[..n + 1][..n] == targets[..n];
      responseId := targets[n].id;
      if fits(n) {
        sent := sent + [Reply(responseId, targets[n].addr, targets[n].listener, a)];
      }
    }
    assert targets[..|targets|] == targets;
  }

  // ---------------------------------------------------------------------------------------------
  // All handlers together
  // ---------------------------------------------------------------------------------------------

  datatype Phase = Arrived | Returned | Querying | Resolved | Replying

  /** Where a datagram is; it is a record of the events, which the invariant ties to the lists. */
  datatype Place = Nowhere | InMap | HeldBy(handler: nat) | Handled(position: nat)

  /** A handler and its datagram.  `answer` is set once its query is done, `held` is what it took out
      of the map and has not answered yet.  Datagrams are named by the number of their handler. */
  datatype Handler = Handler(
    datagram: Datagram, phase: Phase, answer: Option<Answer>, held: seq<nat>, place: Place)

  /** What became of a datagram: which handler dealt with it, and the reply if one was sent. */
  datatype Outcome = Outcome(target: nat, leader: nat, reply: Option<Reply>)

  datatype State = State(handlers: seq<Handler>, pending: Pending<nat>, handled: seq<Outcome>)

  datatype Event =
    | Arrive(datagram: Datagram)
    | JoinMap(n: nat)
    | QueryDone(n: nat, result: Result<seq<Record>, ResponseCode>)
    | LeaveMap(n: nat)
    | ReplyNext(n: nat, fits: bool)

  ghost predicate Enabled(s: State, e: Event) {
    match e
    case Arrive(_) => true
    case JoinMap(n) => n < |s.handlers| && s.handlers[n].phase.Arrived?
    case QueryDone(n, _) => n < |s.handlers| && s.handlers[n].phase.Querying?
    case LeaveMap(n) => n < |s.handlers| && s.handlers[n].phase.Resolved?
    case ReplyNext(n, _) =>
      && n < |s.handlers| && s.handlers[n].held != []
      && s.handlers[n].held[0] < |s.handlers| && s.handlers[n].answer.Some?
  }

  ghost function Put(s: State, n: nat, h: Handler): State
    requires n < |s.handlers|
  {
    s.(handlers := s.handlers[n := h])
  }

  /** All datagrams on `ts` are now held by `n`. */
  ghost function Hand(hs: seq<Handler>, ts: seq<nat>, n: nat): (r: seq<Handler>)
    ensures |r| == |hs|
    ensures forall i | 0 <= i < |hs| :: r[i] == if i in ts then hs[i].(place := HeldBy(n)) else hs[i]
  {
    seq(|hs|, i requires 0 <= i < |hs| => if i in ts then hs[i].(place := HeldBy(n)) else hs[i])
  }

  ghost function Next(s: State, e: Event): State
    requires Enabled(s, e)
  {
    match e
    case Arrive(d) => s.(handlers := s.handlers + [Handler(d, Arrived, None, [], Nowhere)])
    case JoinMap(n) =>
      var h := s.handlers[n];
      var k := KeyOf(h.datagram);
      Put(s, n, h.(phase := if Waiting(s.pending, k) == [] then Querying else Returned, place := InMap))
        .(pending := Joined(s.pending, k, n))
    case QueryDone(n, result) =>
      var h := s.handlers[n];
      Put(s, n, h.(phase := Resolved, answer := Some(Answer(KeyOf(h.datagram), h.datagram.asked, result))))
    case LeaveMap(n) =>
      var h := s.handlers[n];
      var k := KeyOf(h.datagram);
      var ts := Waiting(s.pending, k);
      var s' := Put(s, n, h.(phase := Replying, held := ts));
      s'.(handlers := Hand(s'.handlers, ts, n), pending := s.pending - {k})
    case ReplyNext(n, fits) =>
      var h := s.handlers[n];
      var t := h.held[0];
      var reply := if fits then Some(ReplyTo(TargetOf(s.handlers[t].datagram), h.answer.value)) else None;
      var s' := Put(s, n, h.(held := h.held[1..]));
      Put(s', t, s'.handlers[t].(place := Handled(|s.handled|))).(handled := s.handled + [Outcome(t, n, reply)])
  }

  ghost predicate Run(ss: seq<State>, es: seq<Event>) {
    && |ss| == |es| + 1 && ss[0] == State([], map[], [])
    && (forall k | 0 <= k < |es| :: Enabled(ss[k], es[k]) && ss[k + 1] == Next(ss[k], es[k]))
  }

  ghost predicate NoDuplicates(s: seq<nat>) {
    forall i, j | 0 <= i < j < |s| :: s[i] != s[j]
  }

  ghost predicate Leads(h: Handler) {
    h.phase.Querying? || h.phase.Resolved?
  }

  /** A list in the map: not empty, led by its first element, and all of datagrams with that key. */
  ghost predicate ListFits(s: State, k: CacheKey) {
    && k in s.pending && s.pending[k] != [] && NoDuplicates(s.pending[k])
    && (forall n | n in s.pending[k] ::
          n < |s.handlers| && s.handlers[n].place == InMap && KeyOf(s.handlers[n].datagram) == k)
    && s.pending[k][0] < |s.handlers| && Leads(s.handlers[s.pending[k][0]])
  }

  /** A handler that leads is the first on the list of its key. */
  ghost predicate PhaseFits(s: State, n: nat)
    requires n < |s.handlers|
  {
    var h := s.handlers[n];
    var k := KeyOf(h.datagram);
    && (h.phase.Arrived? <==> h.place.Nowhere?)
    && (Leads(h) ==> h.place.InMap? && k in s.pending && s.pending[k] != [] && s.pending[k][0] == n)
    && (h.phase.Resolved? || h.phase.Replying? ==> h.answer.Some? && h.answer.value.key == k && h.answer.value.asked == h.datagram.asked)
    && (h.held != [] ==> h.phase.Replying?)
  }

  /** A handler holds datagrams with its own key, each once. */
  ghost predicate HeldFits(s: State, n: nat)
    requires n < |s.handlers|
  {
    var h := s.handlers[n];
    && NoDuplicates(h.held)
    && (forall t | t in h.held ::
          && t < |s.handlers| && s.handlers[t].place == HeldBy(n)
          && KeyOf(s.handlers[t].datagram) == KeyOf(h.datagram))
  }

  /** A datagram is where its place says. */
  ghost predicate PlaceFits(s: State, n: nat)
    requires n < |s.handlers|
  {
    var k := KeyOf(s.handlers[n].datagram);
    match s.handlers[n].place
    case Nowhere => true
    case InMap => k in s.pending && n in s.pending[k]
    case HeldBy(h) => h < |s.handlers| && n in s.handlers[h].held
    case Handled(i) => i < |s.handled| && s.handled[i].target == n
  }

  /** What was done for a datagram: its own transaction id, address and socket, and an answer computed
      under its own key. */
  ghost predicate OutcomeFits(s: State, i: nat)
    requires i < |s.handled|
  {
    var o := s.handled[i];
    && o.target < |s.handlers| && o.leader < |s.handlers|
    && s.handlers[o.target].place == Handled(i)
    && s.handlers[o.leader].phase.Replying?
    && KeyOf(s.handlers[o.leader].datagram) == KeyOf(s.handlers[o.target].datagram)
    && (o.reply.Some? ==>
          && o.reply.value == ReplyTo(TargetOf(s.handlers[o.target].datagram), o.reply.value.answer)
          && s.handlers[o.leader].answer == Some(o.reply.value.answer)
          && o.reply.value.answer.key == KeyOf(s.handlers[o.target].datagram)
          && o.reply.value.answer.asked == s.handlers[o.leader].datagram.asked)
  }

  ghost predicate Lists(s: State) {
    forall k | k in s.pending :: ListFits(s, k)
  }

  ghost predicate Phases(s: State) {
    forall n: nat | n < |s.handlers| :: PhaseFits(s, n)
  }

  ghost predicate Helds(s: State) {
    forall n: nat | n < |s.handlers| :: HeldFits(s, n)
  }

  ghost predicate Places(s: State) {
    forall n: nat | n < |s.handlers| :: PlaceFits(s, n)
  }

  ghost predicate Outcomes(s: State) {
    forall i: nat | i < |s.handled| :: OutcomeFits(s, i)
  }

  ghost predicate Inv(s: State) {
    Lists(s) && Phases(s) && Helds(s) && Places(s) && Outcomes(s)
  }

  lemma JoinKeepsLists(s: State, e: Event)
    requires Lists(s) && Phases(s) && Enabled(s, e) && e.JoinMap?
    ensures Lists(Next(s, e))
  {
    var s' := Next(s, e);
    assert PhaseFits(s, e.n);
    forall k | k in s'.pending ensures ListFits(s', k) {
      if k in s.pending {
        assert ListFits(s, k);
        assert e.n !in s.pending[k];
        assert s'.pending[k][0] == s.pending[k][0];
      }
    }
  }

  lemma LeaveKeepsLists(s: State, e: Event)
    requires Lists(s) && Phases(s) && Enabled(s, e) && e.LeaveMap?
    ensures Lists(Next(s, e))
  {
    var s' := Next(s, e);
    var key := KeyOf(s.handlers[e.n].datagram);
    assert PhaseFits(s, e.n) && ListFits(s, key);
    forall k | k in s'.pending ensures ListFits(s', k) {
      assert ListFits(s, k);
      forall n | n in s.pending[k] ensures n !in s.pending[key] {
      }
    }
  }

  lemma NextKeepsLists(s: State, e: Event)
    requires Lists(s) && Phases(s) && Helds(s) && Enabled(s, e)
    ensures Lists(Next(s, e))
  {
    if e.JoinMap? {
      JoinKeepsLists(s, e);
    } else if e.LeaveMap? {
      LeaveKeepsLists(s, e);
    } else {
      if !e.Arrive? {
        assert PhaseFits(s, e.n) && HeldFits(s, e.n);
      }
      forall k | k in s.pending ensures ListFits(Next(s, e), k) {
        assert ListFits(s, k);
      }
    }
  }

  lemma LeaveKeepsPhase(s: State, e: Event, n: nat)
    requires Lists(s) && Phases(s) && Enabled(s, e) && e.LeaveMap? && n < |s.handlers|
    ensures PhaseFits(Next(s, e), n)
  {
    assert PhaseFits(s, e.n) && PhaseFits(s, n);
    assert ListFits(s, KeyOf(s.handlers[e.n].datagram));
  }

  lemma ReplyKeepsPhase(s: State, e: Event, n: nat)
    requires Phases(s) && Helds(s) && Enabled(s, e) && e.ReplyNext? && n < |s.handlers|
    ensures PhaseFits(Next(s, e), n)
  {
    assert PhaseFits(s, e.n) && HeldFits(s, e.n) && PhaseFits(s, n);
    assert PhaseFits(s, s.handlers[e.n].held[0]);
  }

  lemma QueryKeepsPhase(s: State, e: Event, n: nat)
    requires Phases(s) && Enabled(s, e) && (e.Arrive? || e.JoinMap? || e.QueryDone?) && n < |Next(s, e).handlers|
    ensures PhaseFits(Next(s, e), n)
  {
    if !e.Arrive? {
      assert PhaseFits(s, e.n);
    }
    assert n < |s.handlers| ==> PhaseFits(s, n);
  }

  lemma NextKeepsPhases(s: State, e: Event)
    requires Lists(s) && Phases(s) && Helds(s) && Enabled(s, e)
    ensures Phases(Next(s, e))
  {
    forall n: nat | n < |Next(s, e).handlers| ensures PhaseFits(Next(s, e), n) {
      match e
      case LeaveMap(_) => LeaveKeepsPhase(s, e, n);
      case ReplyNext(_, _) => ReplyKeepsPhase(s, e, n);
      case _ => QueryKeepsPhase(s, e, n);
    }
  }

  lemma LeaveKeepsHeld(s: State, e: Event, n: nat)
    requires Lists(s) && Phases(s) && Helds(s) && Enabled(s, e) && e.LeaveMap? && n < |s.handlers|
    ensures HeldFits(Next(s, e), n)
  {
    var key := KeyOf(s.handlers[e.n].datagram);
    assert PhaseFits(s, e.n) && HeldFits(s, n) && ListFits(s, key);
    if n != e.n {
      forall t | t in s.handlers[n].held ensures t !in s.pending[key] {
        assert t < |s.handlers| && s.handlers[t].place == HeldBy(n);
      }
    }
  }

  lemma ReplyKeepsHeld(s: State, e: Event, n: nat)
    requires Helds(s) && Enabled(s, e) && e.ReplyNext? && n < |s.handlers|
    ensures HeldFits(Next(s, e), n)
  {
    var held := s.handlers[e.n].held;
    assert HeldFits(s, e.n) && HeldFits(s, n);
    assert held[0] in held;
    forall t | t in Next(s, e).handlers[n].held ensures t in s.handlers[n].held && t != held[0] {
      if n == e.n {
        var i :| 0 <= i < |held[1..]| && held[1..][i] == t;
        assert held[i + 1] == t;
      }
    }
  }

  lemma OtherEventsKeepHeld(s: State, e: Event, n: nat)
    requires Phases(s) && Helds(s) && Enabled(s, e) && !e.LeaveMap? && !e.ReplyNext? && n < |Next(s, e).handlers|
    ensures HeldFits(Next(s, e), n)
  {
    if n < |s.handlers| {
      assert HeldFits(s, n);
      if !e.Arrive? {
        assert PhaseFits(s, e.n);
      }
    }
  }

  lemma NextKeepsHelds(s: State, e: Event)
    requires Lists(s) && Phases(s) && Helds(s) && Enabled(s, e)
    ensures Helds(Next(s, e))
  {
    forall n: nat | n < |Next(s, e).handlers| ensures HeldFits(Next(s, e), n) {
      if e.LeaveMap? {
        LeaveKeepsHeld(s, e, n);
      } else if e.ReplyNext? {
        ReplyKeepsHeld(s, e, n);
      } else {
        OtherEventsKeepHeld(s, e, n);
      }
    }
  }

  lemma NextKeepsPlaces(s: State, e: Event)
    requires Phases(s) && Helds(s) && Places(s) && Enabled(s, e)
    ensures Places(Next(s, e))
  {
    var s' := Next(s, e);
    if !e.Arrive? {
      assert PhaseFits(s, e.n) && HeldFits(s, e.n);
    }
    forall n: nat | n < |s'.handlers| ensures PlaceFits(s', n) {
      assert n < |s.handlers| ==> PlaceFits(s, n);
    }
  }

  lemma LeaveKeepsOutcome(s: State, e: Event, i: nat)
    requires Lists(s) && Phases(s) && Outcomes(s) && Enabled(s, e) && e.LeaveMap? && i < |s.handled|
    ensures OutcomeFits(Next(s, e), i)
  {
    assert PhaseFits(s, e.n) && OutcomeFits(s, i);
    assert ListFits(s, KeyOf(s.handlers[e.n].datagram));
  }

  lemma OtherEventsKeepOutcome(s: State, e: Event, i: nat)
    requires Phases(s) && Helds(s) && Outcomes(s) && Enabled(s, e) && !e.LeaveMap? && i < |Next(s, e).handled|
    ensures OutcomeFits(Next(s, e), i)
  {
    if !e.Arrive? {
      assert PhaseFits(s, e.n) && HeldFits(s, e.n);
    }
    assert i < |s.handled| ==> OutcomeFits(s, i);
  }

  lemma NextKeepsOutcomes(s: State, e: Event)
    requires Lists(s) && Phases(s) && Helds(s) && Outcomes(s) && Enabled(s, e)
    ensures Outcomes(Next(s, e))
  {
    forall i: nat | i < |Next(s, e).handled| ensures OutcomeFits(Next(s, e), i) {
      if e.LeaveMap? {
        LeaveKeepsOutcome(s, e, i);
      } else {
        OtherEventsKeepOutcome(s, e, i);
      }
    }
  }

  /** The invariant holds in every state of every interleaving. */
  lemma {:induction false} RunKeepsInv(ss: seq<State>, es: seq<Event>, k: nat)
    requires Run(ss, es) && k <= |es|
    ensures Inv(ss[k])
  {
    if k > 0 {
      RunKeepsInv(ss, es, k - 1);
      NextKeepsLists(ss[k - 1], es[k - 1]);
      NextKeepsPhases(ss[k - 1], es[k - 1]);
      NextKeepsHelds(ss[k - 1], es[k - 1]);
      NextKeepsPlaces(ss[k - 1], es[k - 1]);
      NextKeepsOutcomes(ss[k - 1], es[k - 1]);
    }
  }

  // ---------------------------------------------------------------------------------------------
  // What every interleaving guarantees
  // ---------------------------------------------------------------------------------------------

  ghost predicate IsListed(s: State, n: nat, k: CacheKey, i: nat) {
    k in s.pending && i < |s.pending[k]| && s.pending[k][i] == n
  }

  ghost predicate IsHeld(s: State, n: nat, h: nat, i: nat) {
    h < |s.handlers| && i < |s.handlers[h].held| && s.handlers[h].held[i] == n
  }

  ghost predicate IsHandled(s: State, n: nat, i: nat) {
    i < |s.handled| && s.handled[i].target == n
  }

  ghost predicate IsHandledSomewhere(s: State, n: nat) {
    exists i: nat :: IsHandled(s, n, i)
  }

  /** Being found on a list, with a handler, or among the outcomes determines a datagram's place. */
  lemma FoundMeansPlaced(s: State, n: nat)
    requires Inv(s)
    ensures forall k, i: nat | IsListed(s, n, k, i) ::
              && n < |s.handlers| && s.handlers[n].place == InMap && KeyOf(s.handlers[n].datagram) == k
              && NoDuplicates(s.pending[k])
    ensures forall h: nat, i: nat | IsHeld(s, n, h, i) ::
              n < |s.handlers| && s.handlers[n].place == HeldBy(h) && NoDuplicates(s.handlers[h].held)
    ensures forall i: nat | IsHandled(s, n, i) :: n < |s.handlers| && s.handlers[n].place == Handled(i)
  {
    forall k, i: nat | IsListed(s, n, k, i)
      ensures n < |s.handlers| && s.handlers[n].place == InMap && KeyOf(s.handlers[n].datagram) == k
      ensures NoDuplicates(s.pending[k])
    {
      assert ListFits(s, k) && n in s.pending[k];
    }
    forall h: nat, i: nat | IsHeld(s, n, h, i)
      ensures n < |s.handlers| && s.handlers[n].place == HeldBy(h) && NoDuplicates(s.handlers[h].held)
    {
      assert HeldFits(s, h) && n in s.handlers[h].held;
    }
    forall i: nat | IsHandled(s, n, i) ensures n < |s.handlers| && s.handlers[n].place == Handled(i) {
      assert OutcomeFits(s, i);
    }
  }

  /** A datagram whose handler has reached the map is at every moment in at least one place: waiting
      in the map, held by a handler that is answering, or handled.  Before that it is in none. */
  lemma InSomePlace(ss: seq<State>, es: seq<Event>, k: nat, n: nat)
    requires Run(ss, es) && k <= |es| && n < |ss[k].handlers|
    ensures !ss[k].handlers[n].phase.Arrived? <==>
              || (exists key, i: nat :: IsListed(ss[k], n, key, i))
              || (exists h: nat, i: nat :: IsHeld(ss[k], n, h, i))
              || IsHandledSomewhere(ss[k], n)
  {
    RunKeepsInv(ss, es, k);
    var s := ss[k];
    FoundMeansPlaced(s, n);
    assert PhaseFits(s, n) && PlaceFits(s, n);
    match s.handlers[n].place
    case Nowhere =>
    case InMap =>
      var key := KeyOf(s.handlers[n].datagram);
      var i :| 0 <= i < |s.pending[key]| && s.pending[key][i] == n;
      assert IsListed(s, n, key, i);
    case HeldBy(h) =>
      var i :| 0 <= i < |s.handlers[h].held| && s.handlers[h].held[i] == n;
      assert IsHeld(s, n, h, i);
    case Handled(i) =>
      assert IsHandled(s, n, i);
  }

  /** It is in no two places: not on two lists or twice on one, not held by two handlers or twice by
      one, not handled twice, and never two of waiting, held and handled. */
  lemma InOnePlace(ss: seq<State>, es: seq<Event>, k: nat, n: nat)
    requires Run(ss, es) && k <= |es|
    ensures forall key, i: nat, key', i': nat | IsListed(ss[k], n, key, i) && IsListed(ss[k], n, key', i') ::
              key == key' && i == i'
    ensures forall h: nat, i: nat, h': nat, i': nat | IsHeld(ss[k], n, h, i) && IsHeld(ss[k], n, h', i') ::
              h == h' && i == i'
    ensures forall i: nat, i': nat | IsHandled(ss[k], n, i) && IsHandled(ss[k], n, i') :: i == i'
    ensures forall key, i: nat, h: nat, j: nat :: !(IsListed(ss[k], n, key, i) && IsHeld(ss[k], n, h, j))
    ensures forall key, i: nat, j: nat :: !(IsListed(ss[k], n, key, i) && IsHandled(ss[k], n, j))
    ensures forall h: nat, i: nat, j: nat :: !(IsHeld(ss[k], n, h, i) && IsHandled(ss[k], n, j))
  {
    RunKeepsInv(ss, es, k);
    FoundMeansPlaced(ss[k], n);
  }

  /** A key is in the map exactly while some handler is between joining and leaving it under that key,
      and that handler is unique, so two identical queries are never in flight at once. */
  lemma KeyIffLeader(ss: seq<State>, es: seq<Event>, k: nat, key: CacheKey)
    requires Run(ss, es) && k <= |es|
    ensures key in ss[k].pending <==>
              exists n: nat :: n < |ss[k].handlers| && Leads(ss[k].handlers[n]) && KeyOf(ss[k].handlers[n].datagram) == key
    ensures forall n: nat, m: nat | n < |ss[k].handlers| && m < |ss[k].handlers|
              && Leads(ss[k].handlers[n]) && Leads(ss[k].handlers[m])
              && KeyOf(ss[k].handlers[n].datagram) == KeyOf(ss[k].handlers[m].datagram) :: n == m
  {
    RunKeepsInv(ss, es, k);
    var s := ss[k];
    if key in s.pending {
      assert ListFits(s, key);
      assert s.pending[key][0] in s.pending[key];
    }
    forall n: nat | n < |s.handlers| && Leads(s.handlers[n])
      ensures KeyOf(s.handlers[n].datagram) in s.pending
      ensures s.pending[KeyOf(s.handlers[n].datagram)] != [] && s.pending[KeyOf(s.handlers[n].datagram)][0] == n
    {
      assert PhaseFits(s, n);
    }
  }

  /** Removing the list never comes up empty: a handler that leaves the map finds at least its own
      datagram on it. */
  lemma RemoveFindsTargets(ss: seq<State>, es: seq<Event>, k: nat)
    requires Run(ss, es) && k < |es| && es[k].LeaveMap?
    ensures es[k].n < |ss[k].handlers|
    ensures var key := KeyOf(ss[k].handlers[es[k].n].datagram);
            key in ss[k].pending && es[k].n in ss[k].pending[key]
  {
    RunKeepsInv(ss, es, k);
    assert Enabled(ss[k], es[k]) && PhaseFits(ss[k], es[k].n);
  }

  /** Questions are taken for equal when `canon` makes the same of them. */
  type Canon = seq<Query> -> seq<Query>

  ghost predicate ArrivesUnder(e: Event, canon: Canon) {
    e.Arrive? ==> e.datagram.queries == canon(e.datagram.asked)
  }

  ghost predicate Canonical(s: State, canon: Canon) {
    forall n | 0 <= n < |s.handlers| :: s.handlers[n].datagram.queries == canon(s.handlers[n].datagram.asked)
  }

  lemma {:induction false} RunKeepsCanonical(ss: seq<State>, es: seq<Event>, k: nat, canon: Canon)
    requires Run(ss, es) && k <= |es| && forall j | 0 <= j < |es| :: ArrivesUnder(es[j], canon)
    ensures Canonical(ss[k], canon)
  {
    if k > 0 {
      RunKeepsCanonical(ss, es, k - 1, canon);
      assert ArrivesUnder(es[k - 1], canon) && Enabled(ss[k - 1], es[k - 1]);
      assert ss[k] == Next(ss[k - 1], es[k - 1]);
    }
  }

  /** Every reply goes to the address and through the socket of the datagram it answers, carries that
      datagram's transaction id, and has an answer computed for that datagram's isolation key and for
      questions that are taken for equal to its own, as the leader wrote them. */
  lemma RepliesAreForTheirDatagrams(ss: seq<State>, es: seq<Event>, k: nat, i: nat, canon: Canon)
    requires Run(ss, es) && k <= |es| && i < |ss[k].handled| && ss[k].handled[i].reply.Some?
    requires forall j | 0 <= j < |es| :: ArrivesUnder(es[j], canon)
    ensures ss[k].handled[i].target < |ss[k].handlers| && ss[k].handled[i].leader < |ss[k].handlers|
    ensures var d, r := ss[k].handlers[ss[k].handled[i].target].datagram, ss[k].handled[i].reply.value;
            && r.id == d.id && r.addr == d.addr && r.listener == d.listener
            && r.answer.key.isolation == IsolationKey(d.listener, d.addr.ip)
            && canon(r.answer.asked) == canon(d.asked)
            && r.answer.asked == ss[k].handlers[ss[k].handled[i].leader].datagram.asked
  {
    RunKeepsInv(ss, es, k);
    RunKeepsCanonical(ss, es, k, canon);
    assert OutcomeFits(ss[k], i);
  }

  ghost predicate WasResult(es: seq<Event>, k: nat, n: nat, result: Result<seq<Record>, ResponseCode>)
    requires k <= |es|
  {
    exists j :: 0 <= j < k && es[j] == QueryDone(n, result)
  }

  lemma AnswerStep(s: State, e: Event, s': State, n: nat)
    requires Enabled(s, e) && s' == Next(s, e) && n < |s'.handlers| && s'.handlers[n].answer.Some?
    ensures n < |s.handlers|
    ensures s'.handlers[n].answer == s.handlers[n].answer || e == QueryDone(n, s'.handlers[n].answer.value.result)
  {
  }

  /** The answer of a handler is what its query came to. */
  lemma {:induction false} AnswerIsResult(ss: seq<State>, es: seq<Event>, k: nat, n: nat)
    requires Run(ss, es) && k <= |es| && n < |ss[k].handlers| && ss[k].handlers[n].answer.Some?
    ensures WasResult(es, k, n, ss[k].handlers[n].answer.value.result)
  {
    assert k > 0;
    assert Enabled(ss[k - 1], es[k - 1]) && ss[k] == Next(ss[k - 1], es[k - 1]);
    AnswerStep(ss[k - 1], es[k - 1], ss[k], n);
    if ss[k].handlers[n].answer == ss[k - 1].handlers[n].answer {
      AnswerIsResult(ss, es, k - 1, n);
    }
  }

  /** The result in a reply is what the query of the leader came to. */
  lemma RepliesHaveResults(ss: seq<State>, es: seq<Event>, k: nat, i: nat)
    requires Run(ss, es) && k <= |es| && i < |ss[k].handled| && ss[k].handled[i].reply.Some?
    ensures WasResult(es, k, ss[k].handled[i].leader, ss[k].handled[i].reply.value.answer.result)
  {
    RunKeepsInv(ss, es, k);
    assert OutcomeFits(ss[k], i);
    AnswerIsResult(ss, es, k, ss[k].handled[i].leader);
  }

  /** The turns of reply loops in the first `k` steps: whose loop, and whether the message serialized. */
  ghost function Turns(es: seq<Event>, k: nat): seq<(nat, bool)>
    requires k <= |es|
  {
    if k == 0 then []
    else if es[k - 1].ReplyNext? then Turns(es, k - 1) + [(es[k - 1].n, es[k - 1].fits)]
    else Turns(es, k - 1)
  }

  lemma TurnStep(s: State, e: Event, s': State)
    requires Enabled(s, e) && s' == Next(s, e)
    ensures !e.ReplyNext? ==> s'.handled == s.handled
    ensures e.ReplyNext? ==>
              && |s'.handled| == |s.handled| + 1 && s'.handled[..|s.handled|] == s.handled
              && s'.handled[|s.handled|].leader == e.n
              && (s'.handled[|s.handled|].reply.Some? <==> e.fits)
  {
  }

  /** Every turn of a reply loop handles one datagram, and replies to it exactly if the message serialized. */
  lemma {:induction false} TurnsAreHandled(ss: seq<State>, es: seq<Event>, k: nat)
    requires Run(ss, es) && k <= |es|
    ensures |ss[k].handled| == |Turns(es, k)|
    ensures forall i | 0 <= i < |ss[k].handled| ::
              ss[k].handled[i].leader == Turns(es, k)[i].0 && (ss[k].handled[i].reply.Some? <==> Turns(es, k)[i].1)
  {
    if k > 0 {
      TurnsAreHandled(ss, es, k - 1);
      assert Enabled(ss[k - 1], es[k - 1]) && ss[k] == Next(ss[k - 1], es[k - 1]);
      TurnStep(ss[k - 1], es[k - 1], ss[k]);
      forall i | 0 <= i < |ss[k - 1].handled| ensures ss[k].handled[i] == ss[k - 1].handled[i] {
        assert ss[k].handled[..|ss[k - 1].handled|][i] == ss[k].handled[i];
      }
    }
  }

  /** A run under `canon` that ends in `s`. */
  ghost predicate EndsIn(ss: seq<State>, es: seq<Event>, canon: Canon, s: State) {
    Run(ss, es) && ss[|es|] == s && forall j | 0 <= j < |es| :: ArrivesUnder(es[j], canon)
  }

  lemma Extend(ss: seq<State>, es: seq<Event>, canon: Canon, s: State, e: Event, s': State)
    returns (ss': seq<State>, es': seq<Event>)
    requires EndsIn(ss, es, canon, s) && Enabled(s, e) && ArrivesUnder(e, canon) && s' == Next(s, e)
    ensures EndsIn(ss', es', canon, s')
  {
    ss', es' := ss + [s'], es + [e];
  }

  /** Two datagrams with one key, the first of which leads and has its answer. */
  lemma TwoAsk(canon: Canon, d0: Datagram, d1: Datagram, a: Answer) returns (ss: seq<State>, es: seq<Event>)
    requires KeyOf(d0) == KeyOf(d1) && d0.queries == canon(d0.asked) && d1.queries == canon(d1.asked)
    requires a == Answer(KeyOf(d0), d0.asked, a.result)
    ensures EndsIn(ss, es, canon, State([Handler(d0, Resolved, Some(a), [], InMap), Handler(d1, Returned, None, [], InMap)],
                                        map[KeyOf(d0) := [0, 1]], []))
  {
    var key := KeyOf(d0);
    var h0, h1 := Handler(d0, Arrived, None, [], Nowhere), Handler(d1, Arrived, None, [], Nowhere);
    var l0, l1 := h0.(phase := Querying, place := InMap), h1.(phase := Returned, place := InMap);
    var none: Pending<nat> := map[];
    var one: Pending<nat> := map[key := [0]];
    assert Waiting(none, key) + [0] == [0];
    assert Waiting(one, key) + [1] == [0, 1];
    ss, es := [State([], none, [])], [];
    ss, es := Extend(ss, es, canon, State([], none, []), Arrive(d0), State([h0], none, []));
    ss, es := Extend(ss, es, canon, State([h0], none, []), Arrive(d1), State([h0, h1], none, []));
    ss, es := Extend(ss, es, canon, State([h0, h1], none, []), JoinMap(0), State([l0, h1], one, []));
    ss, es := Extend(ss, es, canon, State([l0, h1], one, []), JoinMap(1), State([l0, l1], map[key := [0, 1]], []));
    ss, es := Extend(ss, es, canon, State([l0, l1], map[key := [0, 1]], []), QueryDone(0, a.result),
                     State([l0.(phase := Resolved, answer := Some(a)), l1], map[key := [0, 1]], []));
  }

  /** The reply need not have the questions as the datagram wrote them: of two texts that are taken for
      equal, the one that came second is answered with the first. */
  lemma LeadersTextIsSent(canon: Canon, a: seq<Query>, b: seq<Query>, from: SocketAddr)
    returns (ss: seq<State>, es: seq<Event>)
    requires canon(a) == canon(b)
    ensures Run(ss, es) && forall j | 0 <= j < |es| :: ArrivesUnder(es[j], canon)
    ensures var s := ss[|es|];
            && |s.handlers| == 2 && s.handlers[1].datagram.asked == b
            && |s.handled| == 2 && s.handled[1].target == 1
            && s.handled[1].reply.Some? && s.handled[1].reply.value.answer.asked == a
  {
    var d0, d1 := Datagram(1, from, 0, a, canon(a)), Datagram(2, from, 0, b, canon(b));
    var answer := Answer(KeyOf(d0), a, Ok([]));
    ss, es := TwoAsk(canon, d0, d1, answer);
    ss, es := ReplyToBoth(canon, d0, d1, answer, ss, es);
  }

  lemma ReplyToBoth(canon: Canon, d0: Datagram, d1: Datagram, a: Answer, ss: seq<State>, es: seq<Event>)
    returns (ss': seq<State>, es': seq<Event>)
    requires KeyOf(d0) == KeyOf(d1)
    requires EndsIn(ss, es, canon, State([Handler(d0, Resolved, Some(a), [], InMap), Handler(d1, Returned, None, [], InMap)],
                                         map[KeyOf(d0) := [0, 1]], []))
    ensures EndsIn(ss', es', canon, State([Handler(d0, Replying, Some(a), [], Handled(0)), Handler(d1, Returned, None, [], Handled(1))],
                                          map[], [Outcome(0, 0, Some(ReplyTo(TargetOf(d0), a))), Outcome(1, 0, Some(ReplyTo(TargetOf(d1), a)))]))
  {
    var key := KeyOf(d0);
    var l0, l1 := Handler(d0, Resolved, Some(a), [], InMap), Handler(d1, Returned, None, [], InMap);
    var m0, m1 := Handler(d0, Replying, Some(a), [0, 1], HeldBy(0)), l1.(place := HeldBy(0));
    var o0, o1 := Outcome(0, 0, Some(ReplyTo(TargetOf(d0), a))), Outcome(1, 0, Some(ReplyTo(TargetOf(d1), a)));
    var none: Pending<nat> := map[];
    assert map[key := [0, 1]] - {key} == none;
    ss', es' := Extend(ss, es, canon, State([l0, l1], map[key := [0, 1]], []), LeaveMap(0), State([m0, m1], none, []));
    var m0' := m0.(held := [1], place := Handled(0));
    assert [0, 1][1..] == [1] && [1][1..] == [] && [o0] + [o1] == [o0, o1];
    ss', es' := Extend(ss', es', canon, State([m0, m1], none, []), ReplyNext(0, true), State([m0', m1], none, [o0]));
    ss', es' := Extend(ss', es', canon, State([m0', m1], none, [o0]), ReplyNext(0, true),
                       State([m0'.(held := []), m1.(place := Handled(1))], none, [o0, o1]));
  }

  ghost predicate IsDone(h: Handler) {
    h.phase.Returned? || (h.phase.Replying? && h.held == [])
  }

  /** Once all handlers have returned, the map is empty and every datagram has been handled. */
  lemma NobodyIsForgotten(ss: seq<State>, es: seq<Event>, k: nat)
    requires Run(ss, es) && k <= |es|
    requires forall n: nat | n < |ss[k].handlers| :: IsDone(ss[k].handlers[n])
    ensures ss[k].pending == map[]
    ensures forall n: nat | n < |ss[k].handlers| :: IsHandledSomewhere(ss[k], n)
  {
    RunKeepsInv(ss, es, k);
    var s := ss[k];
    assert s.pending == map[] by {
      if key :| key in s.pending {
        KeyIffLeader(ss, es, k, key);
      }
    }
    forall h: nat | h < |s.handlers| ensures s.handlers[h].held == [] && !s.handlers[h].place.Nowhere? {
      assert PhaseFits(s, h) && IsDone(s.handlers[h]);
    }
    forall n: nat | n < |s.handlers| ensures IsHandledSomewhere(s, n) {
      assert PlaceFits(s, n);
      assert IsHandled(s, n, s.handlers[n].place.position);
    }
  }
}
