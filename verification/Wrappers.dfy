/** Result and option types shared by the model, and the server's typed errors. */
module Wrappers {

  datatype Option<+T> = None | Some(value: T) {
    predicate IsFailure() {
      None?
    }

    function PropagateFailure<U>(): Option<U>
      requires None?
    {
      None
    }

    function Extract(): T
      requires Some?
    {
      value
    }
  }

  datatype Result<+T, +E> = Ok(value: T) | Err(error: E)

  datatype SessionState = Opening | Ready | Closing | Closed

  /** `SerialError`, without the message texts. */
  datatype SerialError =
    | PortNotAllowed
    | PortBusy
    | DeviceNotFound
    | SessionNotFound
    | InvalidState(state: SessionState)
    | Timeout
    | Io
    | MaxSessionsReached
    | InvalidParam(name: string)
    | Cancelled
    | WriteForbidden
    | ConfirmationRequired
    | CommandBlocked(rule: string)
    | RawWriteForbidden
    | ConfirmationDeclined(action: string)

  function Min(a: int, b: int): int {
    if a <= b then a else b
  }

  function Max(a: int, b: int): int {
    if a <= b then b else a
  }

  /** The first element with a property. */
  function First<T>(s: seq<T>, p: T -> bool): (r: Option<nat>)
    ensures r.Some? ==> r.value < |s| && p(s[r.value])
    ensures r.Some? ==> forall k :: 0 <= k < r.value ==> !p(s[k])
    ensures r.None? ==> forall k :: 0 <= k < |s| ==> !p(s[k])
  {
    if s == [] then None
    else if p(s[0]) then Some(0)
    else match First(s[1..], p) case None => None case Some(k) => Some(k + 1)
  }

  lemma Associative<T>(a: seq<T>, b: seq<T>, c: seq<T>)
    ensures a + b + c == a + (b + c)
  {
  }
}
