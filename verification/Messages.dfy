/** Requests and responses of one RPC connection (crates/arti-rpcserver/src/msgs.rs and the error
    types of connection.rs). */
module Messages {
  import opened Wrappers

  /** A client-chosen identifier.  Nothing stops a client from using one twice. */
  datatype RequestId = Str(text: string) | Int(number: int)

  /** Payloads are opaque to the connection. */
  type Value = int

  datatype CancelError = RequestNotFound | CannotCancelRequest | CancelledTwice

  datatype RpcError =
    | RequestCancelled               // produced only when the Cancel future answers "cancelled"
    | CancelFailed(why: CancelError) // `rpc:cancel` did not cancel anything
    | MethodError(code: Value)       // any other failure of a method, or of finding it
    | BadRequest(problem: Value)     // the request did not parse

  datatype Body = Update(update: Value) | Success(value: Value) | Error(error: RpcError)

  predicate IsFinal(b: Body) {
    !b.Update?
  }

  datatype Response = Response(id: Option<RequestId>, body: Body)

  /** `rpc:cancel` is the one method declared uncancellable that calls `cancel_request`. */
  datatype Method = RpcCancel(target: RequestId) | Plain(cancellable: bool)

  predicate IsCancellable(m: Method) {
    m.Plain? && m.cancellable
  }

  datatype Request = Request(id: RequestId, updates: bool, call: Method)
}
