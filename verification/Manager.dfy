/**
 The session table and the critical sections that read or change it. Every critical section of the
 manager mutex is a function on the table value here; `SessionManager` performs the same sections
 in place on the session objects.
 */
module Manager {
  import opened Wrappers
  import opened Sessions

  const MAX_SESSIONS := 4

  ghost predicate PathTaken(t: Table, path: Path) {
    exists id :: id in t && t[id].path == path
  }

  /** Why a new session cannot be reserved. */
  ghost function ReserveError(t: Table, path: Path, allowed: bool): Option<SerialError> {
    if !allowed then Some(PortNotAllowed)
    else if PathTaken(t, path) then Some(PortBusy)
    else if |t| >= MAX_SESSIONS then Some(MaxSessionsReached)
    else None
  }

  function Reserved(t: Table, path: Path, id: SessionId): Table {
    t[id := Entry(id, path, Opening, None)]
  }

  /** The section after a successful backend open; a removed placeholder stays removed. */
  function Installed(t: Table, id: SessionId, h: Handle): Table {
    if id in t then t[id := t[id].(state := Ready, port := Some(h))] else t
  }

  function Removed(t: Table, id: SessionId): Table {
    map k | k in t && k != id :: t[k]
  }

  function CloseError(t: Table, id: SessionId): Option<SerialError> {
    if id !in t then Some(SessionNotFound)
    else match t[id].state
      case Ready | Opening => None
      case s => Some(InvalidState(s))
  }

  function CloseBegun(t: Table, id: SessionId): Table
    requires id in t
  {
    t[id := t[id].(state := Closing, port := None)]
  }

  function Checkout(t: Table, id: SessionId): Result<Handle, SerialError> {
    if id !in t then Err(SessionNotFound)
    else match t[id].port
      case Some(h) => Ok(h)
      case None => Err(InvalidState(t[id].state))
  }

  function RecheckError(t: Table, id: SessionId, h: Handle): Option<SerialError> {
    if id !in t then Some(SessionNotFound)
    else if t[id].port == Some(h) && t[id].state.Ready? then None
    else Some(InvalidState(t[id].state))
  }

  /** What the table promises between critical sections. */
  ghost predicate TableOk(t: Table) {
    && |t| <= MAX_SESSIONS
    && (forall id :: id in t ==> t[id].id == id)
    && (forall id :: id in t ==> (t[id].port.Some? <==> t[id].state.Ready?))
    && (forall a, b :: a in t && b in t && t[a].path == t[b].path ==> a == b)
  }

  lemma ReservedKeepsTable(t: Table, path: Path, id: SessionId)
    requires TableOk(t) && id !in t && ReserveError(t, path, true) == None
    ensures TableOk(Reserved(t, path, id))
  {
    var u := Reserved(t, path, id);
    assert u.Keys == t.Keys + {id};
    assert forall k :: k in t ==> t[k].path != path;
  }

  lemma UpdatedKeepsTable(t: Table, id: SessionId, state: SessionState, port: Option<Handle>)
    requires TableOk(t) && id in t && (port.Some? <==> state.Ready?)
    ensures TableOk(t[id := t[id].(state := state, port := port)])
  {
    var u := t[id := t[id].(state := state, port := port)];
    assert u.Keys == t.Keys;
    assert |u| == |t.Keys|;
  }

  lemma RemovedKeepsTable(t: Table, id: SessionId)
    requires TableOk(t)
    ensures TableOk(Removed(t, id))
    ensures id !in Removed(t, id)
  {
    var u := Removed(t, id);
    assert u.Keys == t.Keys - {id};
    assert |u| == |u.Keys| && |t| == |t.Keys|;
  }

  /** Why an open is refused: the allowlist comes first, then a port in use, then the four sessions. */
  lemma RefusalOrder(t: Table, path: Path, allowed: bool)
    ensures ReserveError(t, path, allowed) == Some(PortNotAllowed) <==> !allowed
    ensures ReserveError(t, path, allowed) == Some(PortBusy) <==>
      allowed && exists id :: id in t && t[id].path == path
    ensures ReserveError(t, path, allowed) == Some(MaxSessionsReached) <==>
      allowed && |t| >= 4 && forall id :: id in t ==> t[id].path != path
    ensures ReserveError(t, path, allowed) == None <==>
      allowed && |t| < 4 && forall id :: id in t ==> t[id].path != path
  {
  }

  /** An unknown session is reported as such, and any other obstacle as the state the session is in. */
  lemma LookupErrors(t: Table, id: SessionId, h: Handle)
    requires TableOk(t)
    ensures id !in t ==>
      && CloseError(t, id) == Some(SessionNotFound) && Checkout(t, id) == Err(SessionNotFound)
      && RecheckError(t, id, h) == Some(SessionNotFound)
    ensures id in t ==>
      && (CloseError(t, id) == None <==> t[id].state.Ready? || t[id].state.Opening?)
      && (CloseError(t, id).Some? ==> CloseError(t, id).value == InvalidState(t[id].state))
      && (Checkout(t, id).Ok? <==> t[id].state.Ready?)
      && (Checkout(t, id).Err? ==> Checkout(t, id).error == InvalidState(t[id].state))
      && (RecheckError(t, id, h) == None <==> Checkout(t, id) == Ok(h))
      && (RecheckError(t, id, h).Some? ==> RecheckError(t, id, h).value == InvalidState(t[id].state))
  {
  }

  class SessionManager {
    var sessions: map<SessionId, Session>

    /** Different ids own different session objects. */
    ghost predicate Valid()
      reads this
    {
      forall a, b :: a in sessions && b in sessions && sessions[a] == sessions[b] ==> a == b
    }

    ghost function Table(): (t: Table)
      reads this, sessions.Values
    {
      map id | id in sessions :: sessions[id].View()
    }

    constructor ()
      ensures Valid() && Table() == map[]
    {
      sessions := map[];
    }

    /**
     Random ids are drawn until one is not in the table. Running out of `draws` stands for the
     entropy source failing.
     */
    method NextSessionId(draws: seq<SessionId>) returns (id: Option<SessionId>)
      ensures id.Some? ==> id.value in draws && id.value !in sessions
      ensures id.None? ==> forall d :: d in draws ==> d in sessions
    {
      for i := 0 to |draws|
        invariant forall k :: 0 <= k < i ==> draws[k] in sessions
      {
        if draws[i] !in sessions {
          return Some(draws[i]);
        }
      }
      return None;
    }

    method PathInUse(path: Path) returns (used: bool)
      ensures used <==> PathTaken(Table(), path)
    {
      var ids := sessions.Keys;
      used := false;
      while ids != {}
        invariant ids <= sessions.Keys
        invariant !used
        invariant forall id :: id in sessions.Keys - ids ==> sessions[id].path != path
        decreases ids
      {
        var id :| id in ids;
        if sessions[id].path == path {
          assert Table()[id].path == path;
          return true;
        }
        ids := ids - {id};
      }
      forall id | id in Table()
        ensures Table()[id].path != path
      {
        assert id in sessions.Keys - ids;
      }
    }

    lemma TableSize()
      ensures |Table()| == |sessions|
    {
      assert Table().Keys == sessions.Keys;
      assert |Table()| == |Table().Keys| && |sessions| == |sessions.Keys|;
    }

    method Reserve(path: Path, allowed: bool, draws: seq<SessionId>) returns (r: Result<SessionId, SerialError>)
      requires Valid()
      modifies this
      ensures Valid()
      ensures ReserveError(old(Table()), path, allowed).Some? ==>
        r == Err(ReserveError(old(Table()), path, allowed).value)
      ensures ReserveError(old(Table()), path, allowed).None? ==>
        r.Ok? || (r == Err(Io) && forall d :: d in draws ==> d in old(Table()))
      ensures r.Err? ==> Table() == old(Table())
      ensures r.Ok? ==> r.value !in old(Table()) && Table() == Reserved(old(Table()), path, r.value)
    {
      if !allowed {
        return Err(PortNotAllowed);
      }
      var used := PathInUse(path);
      if used {
        return Err(PortBusy);
      }
      TableSize();
      if |sessions| >= MAX_SESSIONS {
        return Err(MaxSessionsReached);
      }
      var draw := NextSessionId(draws);
      if draw.None? {
        return Err(Io);
      }
      Insert(draw.value, path);
      r := Ok(draw.value);
    }

    method Insert(id: SessionId, path: Path)
      requires Valid() && id !in sessions
      modifies this
      ensures Valid() && Table() == Reserved(old(Table()), path, id)
    {
      var session := new Session.Opening(id, path);
      sessions := sessions[id := session];
    }

    /** The section after a successful backend open. */
    method Install(id: SessionId, handle: Handle) returns (r: Result<SessionId, SerialError>)
      requires Valid()
      modifies sessions.Values
      ensures Valid()
      ensures Table() == Installed(old(Table()), id, handle)
      ensures r == if id in old(Table()) then Ok(id) else Err(SessionNotFound)
    {
      if id in sessions {
        sessions[id].TransitionToReady(handle);
        r := Ok(id);
      } else {
        r := Err(SessionNotFound);
      }
    }

    /** The section after a failed backend open. */
    method Abandon(id: SessionId)
      requires Valid()
      modifies this
      ensures Valid() && Table() == Removed(old(Table()), id)
    {
      sessions := map k | k in sessions && k != id :: sessions[k];
    }

    /** The first section of a close: hands over the port the session held, if any. */
    method BeginClose(id: SessionId) returns (r: Result<Option<Handle>, SerialError>)
      requires Valid()
      modifies sessions.Values
      ensures Valid()
      ensures CloseError(old(Table()), id).Some? ==>
        r == Err(CloseError(old(Table()), id).value) && Table() == old(Table())
      ensures CloseError(old(Table()), id).None? ==>
        r == Ok(old(Table())[id].port) && Table() == CloseBegun(old(Table()), id)
    {
      if id !in sessions {
        return Err(SessionNotFound);
      }
      var port := sessions[id].port;
      var began := sessions[id].BeginClose();
      if !began {
        return Err(InvalidState(sessions[id].state));
      }
      r := Ok(port);
    }

    /** The rollback of a close that could not get the port lock. */
    method RollBackClose(id: SessionId, handle: Handle)
      requires Valid()
      modifies sessions.Values
      ensures Valid() && Table() == Installed(old(Table()), id, handle)
    {
      if id in sessions {
        sessions[id].RestoreReady(handle);
      }
    }

    /** The last section of a close. */
    method FinishClose(id: SessionId)
      requires Valid()
      modifies this, sessions.Values
      ensures Valid() && Table() == Removed(old(Table()), id)
    {
      if id in sessions {
        sessions[id].FinishClose();
      }
      sessions := map k | k in sessions && k != id :: sessions[k];
    }

    method CheckoutPort(id: SessionId) returns (r: Result<Handle, SerialError>)
      ensures r == Checkout(Table(), id)
    {
      if id !in sessions {
        return Err(SessionNotFound);
      }
      match sessions[id].port {
        case Some(h) => r := Ok(h);
        case None => r := Err(InvalidState(sessions[id].state));
      }
    }

    method EnsurePortStillReady(id: SessionId, handle: Handle) returns (e: Option<SerialError>)
      ensures e == RecheckError(Table(), id, handle)
    {
      if id !in sessions {
        return Some(SessionNotFound);
      }
      if sessions[id].port == Some(handle) && sessions[id].state.Ready? {
        return None;
      }
      return Some(InvalidState(sessions[id].state));
    }
  }
}
