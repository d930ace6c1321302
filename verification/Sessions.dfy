/** One serial session: the lifecycle state and the port handle it owns. */
module Sessions {
  import opened Wrappers

  /** The 128-bit number whose hexadecimal form is the session id. */
  type SessionId = nat
  type Path = string

  /** The identity of one `Arc<Mutex<Port>>`; two handles are equal when `Arc::ptr_eq` is. */
  type Handle = nat

  /** The value of a session as the manager's critical sections see it. */
  datatype Entry = Entry(id: SessionId, path: Path, state: SessionState, port: Option<Handle>)

  type Table = map<SessionId, Entry>

  class Session {
    const id: SessionId
    const path: Path
    var state: SessionState
    var port: Option<Handle>

    ghost function View(): Entry
      reads this
    {
      Entry(id, path, state, port)
    }

    /** A placeholder that reserves the slot while the backend opens the port. */
    constructor Opening(id: SessionId, path: Path)
      ensures View() == Entry(id, path, SessionState.Opening, None)
    {
      this.id, this.path := id, path;
      state, port := SessionState.Opening, None;
    }

    method TransitionToReady(handle: Handle)
      modifies this
      ensures View() == old(View()).(state := Ready, port := Some(handle))
    {
      state, port := Ready, Some(handle);
    }

    method BeginClose() returns (began: bool)
      modifies this
      ensures began <==> old(state).Ready? || old(state).Opening?
      ensures View() == if began then old(View()).(state := Closing, port := None) else old(View())
    {
      match state {
        case Ready | Opening =>
          state, port := Closing, None;
          began := true;
        case Closing | Closed =>
          began := false;
      }
    }

    method FinishClose()
      modifies this
      ensures View() == old(View()).(state := Closed)
    {
      state := Closed;
    }

    method RestoreReady(handle: Handle)
      modifies this
      ensures View() == old(View()).(state := Ready, port := Some(handle))
    {
      state, port := Ready, Some(handle);
    }
  }
}
