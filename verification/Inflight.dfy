/** The `inflight` table of a connection: which requests can be cancelled, and through what handle
    (crates/arti-rpcserver/src/connection.rs). */
module Inflight {
  import opened Wrappers
  import opened Messages
  import C = Cancel

  type Table<H> = map<RequestId, Option<H>>

  /** What the first half of `cancel_request` finds under an id. */
  datatype Found<H> = Handle(handle: H) | Uncancellable | Absent

  function Register<H>(t: Table<H>, id: RequestId, handle: Option<H>): Table<H> {
    t[id := handle]
  }

  function Unregister<H>(t: Table<H>, id: RequestId): Table<H> {
    t - {id}
  }

  function Find<H>(t: Table<H>, id: RequestId): Found<H> {
    if id !in t then Absent else if t[id].None? then Uncancellable else Handle(t[id].value)
  }

  /** The table after that first half: a handle is taken out, anything else stays. */
  function Taken<H>(t: Table<H>, id: RequestId): Table<H> {
    if Find(t, id).Handle? then t - {id} else t
  }

  function FromCannotCancel(e: C.CannotCancel): CancelError {
    match e
    case AlreadyCancelled => CancelledTwice
    case AlreadyFinished => RequestNotFound
  }

  /** The answer of `cancel_request` once the handle's own `cancel()` has answered. */
  function Answer(r: Result<Unit, C.CannotCancel>): Result<Unit, CancelError> {
    match r
    case Ok(u) => Ok(u)
    case Err(e) => Err(FromCannotCancel(e))
  }

  /** The table with real handles: references to the cells that futures share with it. */
  class Requests {
    var inflight: Table<C.CancelInner>

    constructor ()
      ensures inflight == map[]
    {
      inflight := map[];
    }

    method RegisterRequest(id: RequestId, handle: Option<C.CancelInner>)
      modifies this
      ensures inflight == Register(old(inflight), id, handle)
    {
      inflight := inflight[id := handle];
    }

    method RemoveRequest(id: RequestId)
      modifies this
      ensures inflight == Unregister(old(inflight), id)
    {
      inflight := inflight - {id};
    }

    /** Only the cell behind the entry for `id` can change, and it changes as one `cancel()`. */
    method CancelRequest(id: RequestId) returns (r: Result<Unit, CancelError>, wake: Option<C.Waker>)
      modifies this, if id in inflight && inflight[id].Some? then {inflight[id].value} else {}
      ensures inflight == Taken(old(inflight), id)
      ensures match Find(old(inflight), id)
              case Absent => r == Err(RequestNotFound) && wake == None
              case Uncancellable => r == Err(CannotCancelRequest) && wake == None
              case Handle(h) =>
                var o := C.CancelCell(old(h.Contents()));
                h.Contents() == o.cell && r == Answer(o.result) && wake == o.wake
    {
      wake := None;
      if id !in inflight {
        return Err(RequestNotFound), None;
      }
      var removed := inflight[id];
      inflight := inflight - {id};
      match removed {
        case Some(handle) =>
          // The lock on the connection is released here.
          var c, w := handle.Cancel();
          r := Answer(c);
          wake := w;
        case None =>
          inflight := inflight[id := None];
          assert inflight == old(inflight);
          r := Err(CannotCancelRequest);
      }
    }
  }
}
