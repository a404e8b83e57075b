/** The event loop of a connection: `Connection::run_loop`
    (crates/arti-rpcserver/src/connection.rs).

    Each turn of the loop takes one arm of a three-way `select!`.  The loop is run against an
    arbitrary sequence of arms; `Turn` says what one of them does. */
module RunLoop {
  import opened Wrappers
  import opened Messages

  /** A response together with the number of the invocation that sent it.  The number is not on the
      wire; it tells invocations apart when a client reuses an id. */
  datatype Tagged = Tagged(from: Option<nat>, response: Response)

  datatype Arm =
    | TaskDone                                         // some request's future finished
    | Deliver(item: Tagged, io: Result<Unit, bool>)    // the response channel yielded `item`
    | Valid(request: Request)
    | Invalid(id: Option<RequestId>, problem: Value, io: Result<Unit, bool>)
    | InputEnd
    | InputError(peerClosed: bool)                     // unrecoverable read or decode error

  /** Why the loop stopped.  A write or read error carries whether it only means that the peer went away. */
  datatype End = InputClosed | ReadFailed(peerClosed: bool) | WriteFailed(peerClosed: bool) | ParseFailed

  datatype Loop = Loop(written: seq<Tagged>, launched: seq<Request>, end: Option<End>)

  const Fresh := Loop([], [], None)

  function Write(l: Loop, t: Tagged, io: Result<Unit, bool>): Loop {
    match io
    case Ok(_) => l.(written := l.written + [t])
    case Err(peerClosed) => l.(end := Some(WriteFailed(peerClosed)))
  }

  function Complaint(id: Option<RequestId>, problem: Value): Tagged {
    Tagged(None, Response(id, Error(BadRequest(problem))))
  }

  /** One turn of a loop that is still going. */
  function Turn(l: Loop, a: Arm): Loop {
    match a
    case TaskDone => l
    case Deliver(item, io) => Write(l, item, io)
    case Valid(request) => l.(launched := l.launched + [request])
    case Invalid(id, problem, io) =>
      var l' := Write(l, Complaint(id, problem), io);
      if l'.end.None? && id.None? then l'.(end := Some(ParseFailed)) else l'
    case InputEnd => l.(end := Some(InputClosed))
    case InputError(peerClosed) => l.(end := Some(ReadFailed(peerClosed)))
  }

  /** The loop after the arms `arms`; it ignores everything after it has stopped. */
  function Turns(arms: seq<Arm>): Loop {
    if arms == [] then Fresh
    else
      var l := Turns(arms[..|arms| - 1]);
      if l.end.Some? then l else Turn(l, arms[|arms| - 1])
  }

  /** Whether `run_loop` returns Ok for this way of stopping. */
  predicate IsCleanExit(e: End) {
    match e
    case InputClosed => true
    case ReadFailed(peerClosed) => peerClosed
    case WriteFailed(peerClosed) => peerClosed
    case ParseFailed => false
  }

  // ---------------------------------------------------------------------------------------------
  // What the loop does, told from the arms alone
  // ---------------------------------------------------------------------------------------------

  /** A write that failed, the end of the input and a request without an id stop the loop. */
  predicate Stops(a: Arm) {
    match a
    case TaskDone => false
    case Valid(_) => false
    case Deliver(_, io) => io.Err?
    case Invalid(id, _, io) => io.Err? || id.None?
    case InputEnd => true
    case InputError(_) => true
  }

  /** Only the end of the input, and an error that means that the peer went away, are no failure. */
  predicate StopsCleanly(a: Arm)
    requires Stops(a)
  {
    a.InputEnd? || a == InputError(true) || ((a.Deliver? || a.Invalid?) && a.io == Err(true))
  }

  /** The arms up to and with the first that stops the loop. */
  function Taken(arms: seq<Arm>): (r: seq<Arm>)
    ensures r <= arms
  {
    if arms == [] then []
    else if Stops(arms[0]) then [arms[0]]
    else [arms[0]] + Taken(arms[1..])
  }

  /** What is written for an arm: the response that the channel gave, or an error response for a
      request that did not parse, under its id if it has one. */
  function OutputOf(a: Arm): seq<Tagged> {
    match a
    case Deliver(item, Ok(_)) => [item]
    case Invalid(id, problem, Ok(_)) => [Tagged(None, Response(id, Error(BadRequest(problem))))]
    case _ => []
  }

  function Output(arms: seq<Arm>): seq<Tagged> {
    if arms == [] then [] else Output(arms[..|arms| - 1]) + OutputOf(arms[|arms| - 1])
  }

  function Requests(arms: seq<Arm>): seq<Request> {
    if arms == [] then []
    else
      var before, last := Requests(arms[..|arms| - 1]), arms[|arms| - 1];
      if last.Valid? then before + [last.request] else before
  }

  lemma {:induction false} TakenSnoc(arms: seq<Arm>, a: Arm)
    ensures Taken(arms + [a]) == if HasStopped(arms) then Taken(arms) else arms + [a]
    ensures !HasStopped(arms) ==> Taken(arms) == arms
  {
    if arms == [] {
      assert arms + [a] == [a] && [a][1..] == [];
    } else {
      assert (arms + [a])[1..] == arms[1..] + [a];
      TakenSnoc(arms[1..], a);
      HasStoppedCons(arms);
      assert arms == [arms[0]] + arms[1..];
    }
  }

  ghost predicate HasStopped(arms: seq<Arm>) {
    exists n :: 0 <= n < |arms| && Stops(arms[n])
  }

  lemma HasStoppedCons(arms: seq<Arm>)
    requires arms != []
    ensures HasStopped(arms) <==> Stops(arms[0]) || HasStopped(arms[1..])
  {
    if n :| 0 <= n < |arms| && Stops(arms[n]) {
      assert n > 0 ==> Stops(arms[1..][n - 1]);
    }
    if n :| 0 <= n < |arms[1..]| && Stops(arms[1..][n]) {
      assert Stops(arms[n + 1]);
    }
  }

  lemma HasStoppedSnoc(arms: seq<Arm>, a: Arm)
    ensures HasStopped(arms + [a]) <==> HasStopped(arms) || Stops(a)
  {
    if n :| 0 <= n < |arms| && Stops(arms[n]) {
      assert Stops((arms + [a])[n]);
    }
    if Stops(a) {
      assert Stops((arms + [a])[|arms|]);
    }
  }

  /** One more arm. */
  lemma TurnIs(l: Loop, a: Arm)
    requires l.end.None?
    ensures Turn(l, a).written == l.written + OutputOf(a)
    ensures Turn(l, a).launched == if a.Valid? then l.launched + [a.request] else l.launched
    ensures Turn(l, a).end.Some? <==> Stops(a)
    ensures Stops(a) ==> (IsCleanExit(Turn(l, a).end.value) <==> StopsCleanly(a))
  {
  }

  /** The loop writes and launches what the arms up to the first that stops it call for, in order; it
      ends exactly if there is such an arm, and cleanly exactly if that arm stops it cleanly. */
  lemma {:induction false} LoopIsOutput(arms: seq<Arm>)
    ensures Turns(arms).written == Output(Taken(arms))
    ensures Turns(arms).launched == Requests(Taken(arms))
    ensures Turns(arms).end.Some? <==> HasStopped(arms)
    ensures Turns(arms).end.Some? ==>
              && Taken(arms) != [] && Stops(Taken(arms)[|Taken(arms)| - 1])
              && (IsCleanExit(Turns(arms).end.value) <==> StopsCleanly(Taken(arms)[|Taken(arms)| - 1]))
  {
    if arms != [] {
      var n := |arms| - 1;
      var before, a := arms[..n], arms[n];
      assert arms == before + [a];
      LoopIsOutput(before);
      TakenSnoc(before, a);
      HasStoppedSnoc(before, a);
      if !HasStopped(before) {
        TurnIs(Turns(before), a);
      }
    }
  }

  /** A request that does not parse is answered with an error under its id, if the loop still runs. */
  lemma InvalidIsAnswered(arms: seq<Arm>, id: Option<RequestId>, problem: Value)
    requires Turns(arms).end.None?
    ensures var l := Turns(arms + [Invalid(id, problem, Ok(Unit))]);
            && l.written == Turns(arms).written + [Tagged(None, Response(id, Error(BadRequest(problem))))]
            && (l.end.Some? <==> id.None?)
  {
    var a := Invalid(id, problem, Ok(Unit));
    assert (arms + [a])[..|arms|] == arms;
    TurnIs(Turns(arms), a);
  }

  /** The loop as the code runs it.  If the arms run out first, `end` is None: it is still waiting. */
  method SelectLoop(arms: seq<Arm>) returns (written: seq<Tagged>, launched: seq<Request>, end: Option<End>)
    ensures Turns(arms) == Loop(written, launched, end)
  {
    written, launched := [], [];
    var i := 0;
    while i < |arms|
      invariant i <= |arms|
      invariant Turns(arms[..i]) == Loop(written, launched, None)
    {
      assert arms[..i + 1][..i] == arms[..i];
      ghost var before := Loop(written, launched, None);
      assert Turns(arms[..i + 1]) == Turn(before, arms[i]);
      end := None;
      match arms[i] {
        case TaskDone =>
        case Deliver(item, io) =>
          if io.Err? {
            end := Some(WriteFailed(io.error));
          } else {
            written := written + [item];
          }
        case Valid(request) =>
          launched := launched + [request];
        case Invalid(id, problem, io) =>
          if io.Err? {
            end := Some(WriteFailed(io.error));
          } else {
            written := written + [Complaint(id, problem)];
            if id.None? {
              end := Some(ParseFailed);
            }
          }
        case InputEnd =>
          end := Some(InputClosed);
        case InputError(peerClosed) =>
          end := Some(ReadFailed(peerClosed));
      }
      i := i + 1;
      if end.Some? {
        StoppedStays(arms, i);
        return;
      }
    }
    assert arms[..i] == arms;
    end := None;
  }

  /** The loop, and then whether how it ended is a failure. */
  method Execute(arms: seq<Arm>) returns (written: seq<Tagged>, launched: seq<Request>, ok: Option<bool>)
    ensures written == Output(Taken(arms)) == Turns(arms).written
    ensures launched == Requests(Taken(arms)) == Turns(arms).launched
    ensures ok.Some? <==> HasStopped(arms)
    ensures ok.Some? ==> var last := Taken(arms)[|Taken(arms)| - 1]; Stops(last) && ok.value == StopsCleanly(last)
  {
    var end;
    written, launched, end := SelectLoop(arms);
    LoopIsOutput(arms);
    match end {
      case None => ok := None;
      case Some(e) => ok := Some(IsCleanExit(e));
    }
  }

  lemma {:induction false} StoppedStays(arms: seq<Arm>, n: nat)
    requires n <= |arms| && Turns(arms[..n]).end.Some?
    ensures Turns(arms) == Turns(arms[..n])
    decreases |arms| - n
  {
    if n == |arms| {
      assert arms[..n] == arms;
    } else {
      assert arms[..n + 1][..n] == arms[..n];
      StoppedStays(arms, n + 1);
    }
  }
}
