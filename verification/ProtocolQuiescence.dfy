/**
 Exactly which closes are quiescent. On top of the safety invariant this one knows for which session
 every port handle was opened, that a removed session never returns, and that only a session whose
 opening has not failed ever has a port.
 */
module ProtocolQuiescence {
  import opened Wrappers
  import opened Sessions
  import opened Protocol
  import opened ProtocolSafety

  /** The session every handle was opened for. */
  type Owners = map<Handle, SessionId>

  predicate Owns(o: Owners, h: Handle, id: SessionId) {
    h in o && o[h] == id
  }

  predicate Unowned(o: Owners, id: SessionId) {
    forall h :: h in o ==> o[h] != id
  }

  /** The id was used and has left the table. */
  ghost predicate Gone(s: State, id: SessionId) {
    id in s.usedIds && id !in s.table
  }

  /** The handle is no longer with the open that made it. */
  ghost predicate Settled(x: Aux, h: Handle) {
    h in x.home && !x.home[h].WithOpen?
  }

  /** A close that began on the session while it was Opening has returned Ok. */
  ghost predicate ClosedEarly(s: State, id: SessionId) {
    exists t :: t in s.tasks && s.tasks[t] == CloseDone(id, None, true)
  }

  predicate Opens(pc: Pc, id: SessionId) {
    (pc.OpenAwait? || pc.OpenInstall? || pc.OpenAbandon?) && pc.id == id
  }

  ghost predicate HasOpener(s: State, id: SessionId) {
    exists t :: t in s.tasks && Opens(s.tasks[t], id)
  }

  ghost predicate SharedOk(s: State, x: Aux, o: Owners) {
    && (forall h :: h in o <==> h in s.usedHandles)
    && (forall h :: h in o ==> o[h] in s.usedIds)
    && (forall g, h :: g in o && h in o && o[g] == o[h] ==> g == h)
    && (forall id :: id in s.table && s.table[id].port.Some? ==> Owns(o, s.table[id].port.value, id))
    && (forall h :: h in s.locks ==> Settled(x, h))
    && (forall id :: id in s.table && s.table[id].state.Opening? ==> HasOpener(s, id))
  }

  ghost predicate OwnOk(s: State, x: Aux, o: Owners, pc: Pc) {
    match pc
    case OpenAwait(id) => Unowned(o, id)
    case OpenAbandon(id) => Unowned(o, id)
    case OpenInstall(id, h) => Owns(o, h, id)
    case CloseWait(id, h) => Owns(o, h, id)
    case CloseHold(id, h) => Owns(o, h, id)
    case CloseRollback(id, h) => Owns(o, h, id)
    case CloseFinish(id, from) => id in s.usedIds && (from.Some? ==> Owns(o, from.value, id))
    case CloseDone(id, from, ok) => ok ==> Gone(s, id) && (from.Some? ==> Owns(o, from.value, id))
    case OpWait(_, id, h) => Owns(o, h, id) && Settled(x, h)
    case OpRecheck(_, id, h) => Owns(o, h, id) && Settled(x, h)
    case OpRelease(_, id, h) => Owns(o, h, id) && Settled(x, h)
    case OpIo(_, id, h, _) => Owns(o, h, id) && Settled(x, h) && (id in s.table || ClosedEarly(s, id))
    case _ => true
  }

  ghost predicate Known(s: State, x: Aux, o: Owners) {
    && Inv(s, x) && SharedOk(s, x, o)
    && (forall t :: t in s.tasks ==> OwnOk(s, x, o, s.tasks[t]))
  }

  function FollowOwners(s: State, a: Action, o: Owners): Owners {
    if a.BackendOpened? && a.t in s.tasks && s.tasks[a.t].OpenAwait? then o[a.handle := s.tasks[a.t].id] else o
  }

  /** Session `id` leaves the table only by the failure of its open or the end of a close. */
  ghost predicate Leaves(s: State, t: TaskId, s': State, id: SessionId) {
    && t in s.tasks && t in s'.tasks
    && (|| s.tasks[t] == OpenAbandon(id)
        || (s.tasks[t].CloseFinish? && s.tasks[t].id == id && s'.tasks[t] == CloseDone(id, s.tasks[t].from, true)))
  }

  /** What a step of task `t` may change under the other tasks. */
  ghost predicate OwnFrame(s: State, x: Aux, o: Owners, t: TaskId, s': State, x': Aux, o': Owners) {
    && (forall h :: h in o ==> h in o' && o'[h] == o[h])
    && (forall h :: h in o' && h !in o ==> t in s.tasks && s.tasks[t] == OpenAwait(o'[h]))
    && s.usedIds <= s'.usedIds
    && (forall id :: id in s'.table && id !in s.table ==> id !in s.usedIds)
    && (forall id :: id in s.table && id !in s'.table ==> Leaves(s, t, s', id))
    && (forall h :: Settled(x, h) ==> Settled(x', h))
    && (forall u :: u in s'.tasks && u != t ==> u in s.tasks && s'.tasks[u] == s.tasks[u])
    && (forall u :: u in s.tasks && u != t ==> u in s'.tasks)
    && (t in s.tasks ==> !s.tasks[t].CloseDone?)
  }

  lemma ClosedEarlyStays(s: State, x: Aux, o: Owners, t: TaskId, s': State, x': Aux, o': Owners, id: SessionId)
    requires OwnFrame(s, x, o, t, s', x', o') && ClosedEarly(s, id)
    ensures ClosedEarly(s', id)
  {
    var u :| u in s.tasks && s.tasks[u] == CloseDone(id, None, true);
    assert s'.tasks[u] == CloseDone(id, None, true);
  }

  /** An operation in I/O loses its session only to a close that began while it was Opening. */
  lemma IoKeepsSession(s: State, x: Aux, o: Owners, t: TaskId, s': State, x': Aux, o': Owners, u: TaskId)
    requires Known(s, x, o) && OwnFrame(s, x, o, t, s', x', o')
    requires u in s.tasks && u != t && s.tasks[u].OpIo?
    ensures s.tasks[u].id in s'.table || ClosedEarly(s', s.tasks[u].id)
  {
    var id := s.tasks[u].id;
    assert OwnOk(s, x, o, s.tasks[u]) && TaskOk(s, x, u, s.tasks[u]);
    if id !in s.table {
      ClosedEarlyStays(s, x, o, t, s', x', o', id);
    } else if id !in s'.table {
      assert Leaves(s, t, s', id);
      assert OwnOk(s, x, o, s.tasks[t]) && TaskOk(s, x, t, s.tasks[t]);
    }
  }

  lemma FrameKeepsOwn(s: State, x: Aux, o: Owners, t: TaskId, s': State, x': Aux, o': Owners, u: TaskId)
    requires Known(s, x, o) && OwnFrame(s, x, o, t, s', x', o') && u in s'.tasks && u != t
    ensures OwnOk(s', x', o', s'.tasks[u])
  {
    var pc := s.tasks[u];
    assert OwnOk(s, x, o, pc) && TaskOk(s, x, u, pc);
    if pc.OpIo? {
      IoKeepsSession(s, x, o, t, s', x', o', u);
    } else if t in s.tasks {
      assert TaskOk(s, x, t, s.tasks[t]);
    }
  }

  lemma FrameKeepsOpeners(s: State, x: Aux, o: Owners, t: TaskId, s': State, x': Aux, o': Owners)
    requires SharedOk(s, x, o) && OwnFrame(s, x, o, t, s', x', o') && t in s'.tasks
    requires forall id :: id in s'.table && s'.table[id].state.Opening? && !Opens(s'.tasks[t], id) ==>
      id in s.table && s.table[id].state.Opening? && (t in s.tasks ==> !Opens(s.tasks[t], id))
    ensures forall id :: id in s'.table && s'.table[id].state.Opening? ==> HasOpener(s', id)
  {
    forall id | id in s'.table && s'.table[id].state.Opening?
      ensures HasOpener(s', id)
    {
      if !Opens(s'.tasks[t], id) {
        assert HasOpener(s, id);
        var u :| u in s.tasks && Opens(s.tasks[u], id);
        assert s'.tasks[u] == s.tasks[u];
      }
    }
  }

  lemma FrameKeepsKnown(s: State, x: Aux, o: Owners, t: TaskId, s': State, x': Aux, o': Owners)
    requires Known(s, x, o) && OwnFrame(s, x, o, t, s', x', o') && Inv(s', x') && SharedOk(s', x', o')
    requires t in s'.tasks ==> OwnOk(s', x', o', s'.tasks[t])
    ensures Known(s', x', o')
  {
    forall u | u in s'.tasks
      ensures OwnOk(s', x', o', s'.tasks[u])
    {
      if u != t {
        FrameKeepsOwn(s, x, o, t, s', x', o', u);
      }
    }
  }

  /** What is known about the task that makes the step. */
  ghost predicate TaskKnown(s: State, x: Aux, o: Owners, t: TaskId) {
    t in s.tasks ==> OwnOk(s, x, o, s.tasks[t]) && TaskOk(s, x, t, s.tasks[t])
  }

  /** The frame and the shared facts are all a step has to establish besides its own task. */
  lemma StepFromFrame(s: State, x: Aux, o: Owners, a: Action, s': State, o': Owners)
    requires Known(s, x, o) && Step(s, a, s') && OwnFrame(s, x, o, a.t, s', Follow(s, a, x), o')
    requires SharedOk(s', Follow(s, a, x), o')
    requires a.t in s'.tasks && OwnOk(s', Follow(s, a, x), o', s'.tasks[a.t])
    ensures Known(s', Follow(s, a, x), o')
  {
    StepKeepsInv(s, a, s', x);
    FrameKeepsKnown(s, x, o, a.t, s', Follow(s, a, x), o');
  }

  lemma OneTaskMoves(s: State, a: Action, s': State)
    requires Step(s, a, s')
    ensures a.t in s'.tasks && s'.tasks == s.tasks[a.t := s'.tasks[a.t]]
  {
  }

  /** A step moves one task. */
  lemma StepMoves(s: State, a: Action, s': State)
    requires Step(s, a, s')
    ensures a.t in s'.tasks
    ensures forall u :: u != a.t ==> (u in s'.tasks <==> u in s.tasks)
    ensures forall u :: u != a.t && u in s.tasks ==> s'.tasks[u] == s.tasks[u]
  {
    OneTaskMoves(s, a, s');
  }

  lemma OperationFrame(s: State, x: Aux, o: Owners, a: Action, s': State)
    requires Step(s, a, s') && UsesPort(a)
    ensures OwnFrame(s, x, o, a.t, s', x, o) && Follow(s, a, x) == x
    ensures s'.table == s.table && s'.usedIds == s.usedIds && s'.usedHandles == s.usedHandles
    ensures forall h :: h in s'.locks ==> h in s.locks || (s.tasks[a.t].OpWait? && s.tasks[a.t].handle == h)
    ensures forall id :: !Opens(s.tasks[a.t], id)
  {
  }

  lemma OperationOwn(s: State, x: Aux, o: Owners, a: Action, s': State)
    requires Step(s, a, s') && UsesPort(a) && a.t in s'.tasks && OwnOk(s, x, o, s.tasks[a.t])
    ensures OwnOk(s', x, o, s'.tasks[a.t])
  {
    OperationFrame(s, x, o, a, s');
    var pc := s.tasks[a.t];
    if pc.OpIo? && pc.id !in s.table {
      ClosedEarlyStays(s, x, o, a.t, s', x, o, pc.id);
    }
  }

  lemma OperationShared(s: State, x: Aux, o: Owners, a: Action, s': State)
    requires Step(s, a, s') && UsesPort(a) && OwnOk(s, x, o, s.tasks[a.t]) && SharedOk(s, x, o)
    ensures OwnFrame(s, x, o, a.t, s', x, o) && Follow(s, a, x) == x && SharedOk(s', x, o)
  {
    StepMoves(s, a, s');
    OperationFrame(s, x, o, a, s');
    hide Step;
    FrameKeepsOpeners(s, x, o, a.t, s', x, o);
  }

  lemma OperationKeepsKnown(s: State, x: Aux, o: Owners, a: Action, s': State)
    requires Known(s, x, o) && Step(s, a, s') && UsesPort(a)
    ensures Known(s', Follow(s, a, x), o)
  {
    assert TaskKnown(s, x, o, a.t);
    StepMoves(s, a, s');
    OperationShared(s, x, o, a, s');
    OperationOwn(s, x, o, a, s');
    StepFromFrame(s, x, o, a, s', o);
  }

  /** A step that begins or ends a call, or moves a close on, without touching table or used names. */
  predicate InCall(a: Action) {
    || a.Spawn? || a.Refuse? || a.BackendFailed? || a.CheckOut? || a.CloseTimesOut?
    || a.CloseGetsLock? || a.CloseDropsLock?
  }

  lemma CallFrame(s: State, x: Aux, o: Owners, a: Action, s': State)
    requires Step(s, a, s') && InCall(a)
    ensures OwnFrame(s, x, o, a.t, s', Follow(s, a, x), o)
  {
  }

  lemma CallLeaves(s: State, x: Aux, a: Action, s': State)
    requires Step(s, a, s') && InCall(a) && a.t in s'.tasks
    ensures s'.table == s.table && s'.usedIds == s.usedIds && s'.usedHandles == s.usedHandles
    ensures forall h :: h in s'.locks ==> h in s.locks || Settled(Follow(s, a, x), h)
    ensures a.t in s.tasks ==> forall id :: Opens(s.tasks[a.t], id) ==> Opens(s'.tasks[a.t], id)
  {
  }

  lemma CallShared(s: State, x: Aux, o: Owners, a: Action, s': State)
    requires Step(s, a, s') && InCall(a) && SharedOk(s, x, o)
    ensures OwnFrame(s, x, o, a.t, s', Follow(s, a, x), o) && SharedOk(s', Follow(s, a, x), o)
  {
    StepMoves(s, a, s');
    CallFrame(s, x, o, a, s');
    CallLeaves(s, x, a, s');
    hide Step, Follow;
    FrameKeepsOpeners(s, x, o, a.t, s', Follow(s, a, x), o);
  }

  lemma CheckOutOwn(s: State, x: Aux, o: Owners, a: Action, s': State)
    requires Step(s, a, s') && a.CheckOut? && a.t in s'.tasks && LinksOk(s, x) && SharedOk(s, x, o)
    ensures OwnOk(s', Follow(s, a, x), o, s'.tasks[a.t])
  {
    if s.tasks[a.t].id in s.table {
      assert IsStage(x, s.tasks[a.t].id, Live) || s.table[s.tasks[a.t].id].port.None?;
    }
  }

  lemma CloseOwn(s: State, x: Aux, o: Owners, a: Action, s': State)
    requires Step(s, a, s') && (a.CloseTimesOut? || a.CloseGetsLock? || a.CloseDropsLock?)
    requires a.t in s'.tasks && TaskKnown(s, x, o, a.t) && LinksOk(s, x)
    ensures OwnOk(s', Follow(s, a, x), o, s'.tasks[a.t])
  {
  }

  lemma CallOwn(s: State, x: Aux, o: Owners, a: Action, s': State)
    requires Step(s, a, s') && (a.Spawn? || a.Refuse? || a.BackendFailed?) && a.t in s'.tasks && TaskKnown(s, x, o, a.t)
    ensures OwnOk(s', Follow(s, a, x), o, s'.tasks[a.t])
  {
  }

  lemma CallKeepsKnown(s: State, x: Aux, o: Owners, a: Action, s': State)
    requires Known(s, x, o) && Step(s, a, s') && InCall(a)
    ensures Known(s', Follow(s, a, x), o)
  {
    assert TaskKnown(s, x, o, a.t);
    StepMoves(s, a, s');
    CallShared(s, x, o, a, s');
    if a.CheckOut? {
      CheckOutOwn(s, x, o, a, s');
    } else if a.CloseTimesOut? || a.CloseGetsLock? || a.CloseDropsLock? {
      CloseOwn(s, x, o, a, s');
    } else {
      CallOwn(s, x, o, a, s');
    }
    StepFromFrame(s, x, o, a, s', o);
  }

  lemma ReserveFrames(s: State, x: Aux, o: Owners, a: Action, s': State)
    requires Step(s, a, s') && a.ReserveSlot?
    ensures OwnFrame(s, x, o, a.t, s', Follow(s, a, x), o)
  {
  }

  lemma ReserveShared(s: State, x: Aux, o: Owners, a: Action, s': State)
    requires Step(s, a, s') && a.ReserveSlot? && SharedOk(s, x, o)
    ensures SharedOk(s', Follow(s, a, x), o) && OwnOk(s', Follow(s, a, x), o, s'.tasks[a.t])
  {
    ReserveFrames(s, x, o, a, s');
    FrameKeepsOpeners(s, x, o, a.t, s', Follow(s, a, x), o);
  }

  lemma OpenedFrame(s: State, x: Aux, o: Owners, a: Action, s': State)
    requires Step(s, a, s') && a.BackendOpened? && TaskKnown(s, x, o, a.t) && LinksOk(s, x) && SharedOk(s, x, o)
    ensures OwnFrame(s, x, o, a.t, s', Follow(s, a, x), FollowOwners(s, a, o))
  {
  }

  lemma OpenedShared(s: State, x: Aux, o: Owners, a: Action, s': State)
    requires Step(s, a, s') && a.BackendOpened? && TaskKnown(s, x, o, a.t) && LinksOk(s, x) && SharedOk(s, x, o)
    ensures SharedOk(s', Follow(s, a, x), FollowOwners(s, a, o))
    ensures OwnOk(s', Follow(s, a, x), FollowOwners(s, a, o), s'.tasks[a.t])
  {
    OpenedFrame(s, x, o, a, s');
    FrameKeepsOpeners(s, x, o, a.t, s', Follow(s, a, x), FollowOwners(s, a, o));
  }

  lemma PutOwnFrame(s: State, x: Aux, o: Owners, a: Action, s': State)
    requires Step(s, a, s') && (a.InstallPort? || a.RollBack?)
    ensures OwnFrame(s, x, o, a.t, s', Follow(s, a, x), o)
  {
  }

  lemma PutOwn(s: State, x: Aux, o: Owners, a: Action, s': State)
    requires Step(s, a, s') && (a.InstallPort? || a.RollBack?) && a.t in s'.tasks
    ensures OwnOk(s', Follow(s, a, x), o, s'.tasks[a.t])
  {
  }

  lemma PutShared(s: State, x: Aux, o: Owners, a: Action, s': State)
    requires Step(s, a, s') && (a.InstallPort? || a.RollBack?) && a.t in s'.tasks && TaskKnown(s, x, o, a.t)
    requires SharedOk(s, x, o)
    ensures SharedOk(s', Follow(s, a, x), o)
  {
    PutOwnFrame(s, x, o, a, s');
    FrameKeepsOpeners(s, x, o, a.t, s', Follow(s, a, x), o);
  }

  lemma DropOwnFrame(s: State, x: Aux, o: Owners, a: Action, s': State)
    requires Step(s, a, s') && (a.AbandonOpen? || a.EndClose?)
    ensures OwnFrame(s, x, o, a.t, s', Follow(s, a, x), o)
  {
  }

  lemma DropShared(s: State, x: Aux, o: Owners, a: Action, s': State)
    requires Step(s, a, s') && (a.AbandonOpen? || a.EndClose?)
    requires TaskKnown(s, x, o, a.t) && LinksOk(s, x) && SharedOk(s, x, o)
    ensures SharedOk(s', Follow(s, a, x), o) && OwnOk(s', Follow(s, a, x), o, s'.tasks[a.t])
  {
    DropOwnFrame(s, x, o, a, s');
    FrameKeepsOpeners(s, x, o, a.t, s', Follow(s, a, x), o);
  }

  lemma BeginOwnFrame(s: State, x: Aux, o: Owners, a: Action, s': State)
    requires Step(s, a, s') && a.StartClose?
    ensures OwnFrame(s, x, o, a.t, s', Follow(s, a, x), o)
  {
  }

  lemma BeginShared(s: State, x: Aux, o: Owners, a: Action, s': State)
    requires Step(s, a, s') && a.StartClose? && LinksOk(s, x) && SharedOk(s, x, o)
    ensures SharedOk(s', Follow(s, a, x), o) && OwnOk(s', Follow(s, a, x), o, s'.tasks[a.t])
  {
    BeginOwnFrame(s, x, o, a, s');
    FrameKeepsOpeners(s, x, o, a.t, s', Follow(s, a, x), o);
  }

  lemma TableKeepsKnown(s: State, x: Aux, o: Owners, a: Action, s': State)
    requires Known(s, x, o) && Step(s, a, s') && !UsesPort(a) && !InCall(a)
    ensures Known(s', Follow(s, a, x), FollowOwners(s, a, o))
  {
    assert TaskKnown(s, x, o, a.t);
    StepMoves(s, a, s');
    assert LinksOk(s, x) && SharedOk(s, x, o);
    hide Step, Known, LinksOk, SharedOk, OwnOk, TaskOk, OwnFrame, TaskKnown, Follow;
    if a.ReserveSlot? {
      ReserveFrames(s, x, o, a, s');
      ReserveShared(s, x, o, a, s');
    } else if a.BackendOpened? {
      OpenedFrame(s, x, o, a, s');
      OpenedShared(s, x, o, a, s');
    } else if a.InstallPort? || a.RollBack? {
      PutOwnFrame(s, x, o, a, s');
      PutShared(s, x, o, a, s');
      PutOwn(s, x, o, a, s');
    } else if a.AbandonOpen? || a.EndClose? {
      DropOwnFrame(s, x, o, a, s');
      DropShared(s, x, o, a, s');
    } else {
      BeginOwnFrame(s, x, o, a, s');
      BeginShared(s, x, o, a, s');
    }
    StepFromFrame(s, x, o, a, s', FollowOwners(s, a, o));
  }

  lemma StepKeepsKnown(s: State, x: Aux, o: Owners, a: Action, s': State)
    requires Known(s, x, o) && Step(s, a, s')
    ensures Known(s', Follow(s, a, x), FollowOwners(s, a, o))
  {
    hide Step, Known;
    if UsesPort(a) {
      OperationKeepsKnown(s, x, o, a, s');
    } else if InCall(a) {
      CallKeepsKnown(s, x, o, a, s');
    } else {
      TableKeepsKnown(s, x, o, a, s');
    }
  }
}
