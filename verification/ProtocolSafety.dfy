/** The inductive invariant of the session protocol, and quiescence after a close. */
module ProtocolSafety {
  import opened Wrappers
  import opened Sessions
  import opened Manager
  import opened Protocol

  /** Where the only path to a port handle runs through. */
  datatype Home = WithOpen(t: TaskId) | InTable(id: SessionId) | WithClose(t: TaskId) | Retired | Dropped

  /** How far a session id has come; an id never returns to an earlier opening. */
  datatype Stage = Pending(t: TaskId) | Live | Waiting(t: TaskId) | Ended

  /** The bookkeeping that the invariant needs; the protocol itself never reads it. */
  datatype Aux = Aux(home: map<Handle, Home>, stage: map<SessionId, Stage>)

  const INIT_AUX := Aux(map[], map[])

  /** The bookkeeping knows every id and handle in use, and where the table's handles are. */
  ghost predicate LinksOk(s: State, x: Aux) {
    && (forall h :: h in x.home <==> h in s.usedHandles)
    && (forall id :: id in x.stage <==> id in s.usedIds)
    && (forall id :: id in s.table ==> id in x.stage)
    && (forall id :: id in s.table && s.table[id].port.Some? ==>
          IsHome(x, s.table[id].port.value, InTable(id)) && IsStage(x, id, Live))
  }

  ghost predicate IsHome(x: Aux, h: Handle, home: Home) {
    h in x.home && x.home[h] == home
  }

  ghost predicate IsStage(x: Aux, id: SessionId, stage: Stage) {
    id in x.stage && x.stage[id] == stage
  }

  ghost predicate Holds(s: State, h: Handle, t: TaskId) {
    h in s.locks && s.locks[h] == t
  }

  ghost predicate TaskOk(s: State, x: Aux, t: TaskId, pc: Pc) {
    match pc
    case OpenAwait(id) => IsStage(x, id, Pending(t))
    case OpenAbandon(id) => IsStage(x, id, Pending(t))
    case OpenInstall(id, h) => IsStage(x, id, Pending(t)) && IsHome(x, h, WithOpen(t))
    case CloseWait(id, h) => Parted(s, x, t, id, h)
    case CloseRollback(id, h) => Parted(s, x, t, id, h)
    case CloseHold(id, h) => IsHome(x, h, Retired) && Holds(s, h, t) && NotReopened(s, x, id)
    case CloseFinish(id, from) => from.Some? ==> IsHome(x, from.value, Retired) && NotReopened(s, x, id)
    case CloseDone(id, from, ok) => ok && from.Some? ==> IsHome(x, from.value, Retired)
    case OpWait(_, _, h) => h in x.home
    case OpRecheck(_, _, h) => h in x.home && Holds(s, h, t)
    case OpIo(_, _, h, _) => h in x.home && x.home[h] != Retired && Holds(s, h, t)
    case OpRelease(_, _, h) => h in x.home && Holds(s, h, t)
    case _ => true
  }

  /** A waiting close has taken the handle out of its session, which stays Closing until it is put back. */
  ghost predicate Parted(s: State, x: Aux, t: TaskId, id: SessionId, h: Handle) {
    && IsHome(x, h, WithClose(t))
    && IsStage(x, id, Waiting(t))
    && (id in s.table ==> s.table[id].state == Closing)
  }

  /** After the lock was obtained the session is Closing until it leaves the table. */
  ghost predicate NotReopened(s: State, x: Aux, id: SessionId) {
    && IsStage(x, id, Ended)
    && (id in s.table ==> s.table[id].state == Closing)
  }

  ghost predicate Inv(s: State, x: Aux) {
    && LinksOk(s, x)
    && (forall t :: t in s.tasks ==> TaskOk(s, x, t, s.tasks[t]))
  }

  /**
   What a step of task `t` may change under the other tasks: only what `t` itself is responsible for,
   and what no task is; a handle is retired only while its lock is free.
   */
  ghost predicate Frame(s: State, x: Aux, t: TaskId, s': State, x': Aux) {
    && (forall h :: h in x.home ==> h in x'.home)
    && (forall h :: h in x.home && x'.home[h] != x.home[h] ==>
          && (x.home[h] == WithOpen(t) || x.home[h] == WithClose(t) || x.home[h].InTable?)
          && (x'.home[h] == Retired ==> h !in s.locks))
    && (forall id :: id in x.stage ==> id in x'.stage)
    && (forall id :: id in x.stage && x'.stage[id] != x.stage[id] ==> Movable(x.stage[id], t))
    && (forall id :: id in x.stage && !Movable(x.stage[id], t) && id in s'.table && s'.table[id].state != Closing ==>
          id in s.table && s.table[id].state != Closing)
    && (forall h :: h in s.locks && s.locks[h] != t ==> Holds(s', h, s.locks[h]))
    && (forall u :: u in s'.tasks && u != t ==> u in s.tasks && s'.tasks[u] == s.tasks[u])
  }

  predicate Movable(stage: Stage, t: TaskId) {
    stage == Pending(t) || stage == Waiting(t) || stage == Live
  }

  lemma FrameKeepsOther(s: State, x: Aux, t: TaskId, s': State, x': Aux, u: TaskId)
    requires Inv(s, x) && Frame(s, x, t, s', x') && u in s'.tasks && u != t
    ensures TaskOk(s', x', u, s'.tasks[u])
  {
    assert TaskOk(s, x, u, s.tasks[u]);
  }

  lemma FrameKeepsInv(s: State, x: Aux, t: TaskId, s': State, x': Aux)
    requires Inv(s, x) && Frame(s, x, t, s', x') && LinksOk(s', x')
    requires t in s'.tasks ==> TaskOk(s', x', t, s'.tasks[t])
    ensures Inv(s', x')
  {
    forall u | u in s'.tasks
      ensures TaskOk(s', x', u, s'.tasks[u])
    {
      if u != t {
        FrameKeepsOther(s, x, t, s', x', u);
      }
    }
  }

  /** The session has left the table; a handle it still held has no path left. */
  function HandleDropped(s: State, x: Aux, id: SessionId): Aux {
    if id in s.table && s.table[id].port.Some?
    then x.(home := x.home[s.table[id].port.value := Dropped]) else x
  }

  /** The bookkeeping once `h` is put into session `id`, which may have been removed meanwhile. */
  function HandlePut(s: State, x: Aux, id: SessionId, h: Handle): Aux {
    if id in s.table then Aux(x.home[h := InTable(id)], x.stage[id := Live])
    else Aux(x.home[h := Dropped], x.stage[id := Ended])
  }

  /** The bookkeeping once a close has begun: it takes the handle out of the session. */
  function HandleTaken(s: State, x: Aux, t: TaskId, id: SessionId): Aux {
    if id in s.table && s.table[id].port.Some?
    then Aux(x.home[s.table[id].port.value := WithClose(t)], x.stage[id := Waiting(t)]) else x
  }

  /** The bookkeeping after step `a` of state `s`. */
  function Follow(s: State, a: Action, x: Aux): Aux {
    if a.Spawn? || a.t !in s.tasks then x
    else match (a, s.tasks[a.t])
      case (ReserveSlot(t, id), _) => x.(stage := x.stage[id := Pending(t)])
      case (BackendOpened(t, h), _) => x.(home := x.home[h := WithOpen(t)])
      case (InstallPort(t), OpenInstall(id, h)) => HandlePut(s, x, id, h)
      case (AbandonOpen(t), OpenAbandon(id)) => HandleDropped(s, x, id)
      case (StartClose(t), CloseStart(id)) => HandleTaken(s, x, t, id)
      case (CloseGetsLock(t), CloseWait(id, h)) => Aux(x.home[h := Retired], x.stage[id := Ended])
      case (RollBack(t), CloseRollback(id, h)) => HandlePut(s, x, id, h)
      case (EndClose(t), CloseFinish(id, _)) => HandleDropped(s, x, id)
      case _ => x
  }

  /** A step of a task that leaves the table, the port locks and the used names alone. */
  lemma MoveKeepsInv(s: State, x: Aux, t: TaskId, pc: Pc, s': State)
    requires Inv(s, x) && s' == Moved(s, t, pc).(logs := s'.logs) && TaskOk(s, x, t, pc)
    ensures Inv(s', x)
  {
    FrameKeepsInv(s, x, t, s', x);
  }

  lemma SpawnKeepsInv(s: State, a: Action, s': State, x: Aux)
    requires Inv(s, x) && Step(s, a, s') && a.Spawn?
    ensures Inv(s', Follow(s, a, x))
  {
    MoveKeepsInv(s, x, a.t, a.pc, s');
  }

  lemma RefusalKeepsInv(s: State, a: Action, s': State, x: Aux)
    requires Inv(s, x) && Step(s, a, s') && (a.Refuse? || a.BackendFailed? || a.CloseTimesOut?)
    ensures Inv(s', Follow(s, a, x))
  {
    assert TaskOk(s, x, a.t, s.tasks[a.t]);
    MoveKeepsInv(s, x, a.t, s'.tasks[a.t], s');
  }

  lemma LookupKeepsInv(s: State, a: Action, s': State, x: Aux)
    requires Inv(s, x) && Step(s, a, s') && (a.CheckOut? || a.GiveUpWaiting? || a.Recheck?)
    ensures Inv(s', Follow(s, a, x))
  {
    assert TaskOk(s, x, a.t, s.tasks[a.t]);
    MoveKeepsInv(s, x, a.t, s'.tasks[a.t], s');
  }

  lemma IoKeepsInv(s: State, a: Action, s': State, x: Aux)
    requires Inv(s, x) && Step(s, a, s') && (a.Perform? || a.PerformFlush? || a.NextPhase? || a.StopIo?)
    ensures Inv(s', Follow(s, a, x))
  {
    assert TaskOk(s, x, a.t, s.tasks[a.t]);
    assert s'.tasks == s.tasks[a.t := s'.tasks[a.t]];
    MoveKeepsInv(s, x, a.t, s'.tasks[a.t], s');
  }

  lemma UnlockFrame(s: State, x: Aux, t: TaskId, h: Handle, pc: Pc, s': State)
    requires LinksOk(s, x) && Holds(s, h, t)
    requires s' == Moved(s, t, pc).(locks := s.locks - {h})
    ensures Frame(s, x, t, s', x) && LinksOk(s', x)
  {
  }

  lemma UnlockKeepsInv(s: State, a: Action, s': State, x: Aux)
    requires Inv(s, x) && Step(s, a, s') && (a.CloseDropsLock? || a.ReleaseLock?)
    ensures Inv(s', Follow(s, a, x))
  {
    var pc := s.tasks[a.t];
    assert TaskOk(s, x, a.t, pc);
    UnlockFrame(s, x, a.t, pc.handle, s'.tasks[a.t], s');
    FrameKeepsInv(s, x, a.t, s', x);
  }

  lemma LockKeepsInv(s: State, a: Action, s': State, x: Aux)
    requires Inv(s, x) && Step(s, a, s') && a.GetLock?
    ensures Inv(s', Follow(s, a, x))
  {
    assert TaskOk(s, x, a.t, s.tasks[a.t]);
    FrameKeepsInv(s, x, a.t, s', x);
  }

  lemma CloseLockFrame(s: State, x: Aux, t: TaskId, id: SessionId, h: Handle, s': State)
    requires LinksOk(s, x) && IsHome(x, h, WithClose(t)) && IsStage(x, id, Waiting(t)) && h !in s.locks
    requires s' == Moved(s, t, CloseHold(id, h)).(locks := s.locks[h := t])
    ensures Frame(s, x, t, s', Aux(x.home[h := Retired], x.stage[id := Ended]))
  {
  }

  lemma CloseLockKeepsInv(s: State, a: Action, s': State, x: Aux)
    requires Inv(s, x) && Step(s, a, s') && a.CloseGetsLock?
    ensures Inv(s', Follow(s, a, x))
  {
    var pc := s.tasks[a.t];
    assert TaskOk(s, x, a.t, pc);
    CloseLockFrame(s, x, a.t, pc.id, pc.handle, s');
    FrameKeepsInv(s, x, a.t, s', Aux(x.home[pc.handle := Retired], x.stage[pc.id := Ended]));
  }

  lemma ReserveFrame(s: State, x: Aux, t: TaskId, id: SessionId, s': State)
    requires LinksOk(s, x) && t in s.tasks && ReserveStep(s, t, s.tasks[t], id, s')
    ensures Frame(s, x, t, s', x.(stage := x.stage[id := Pending(t)]))
  {
  }

  lemma ReserveKeepsInv(s: State, a: Action, s': State, x: Aux)
    requires Inv(s, x) && Step(s, a, s') && a.ReserveSlot?
    ensures Inv(s', Follow(s, a, x))
  {
    ReserveFrame(s, x, a.t, a.id, s');
    FrameKeepsInv(s, x, a.t, s', x.(stage := x.stage[a.id := Pending(a.t)]));
  }

  lemma OpenedKeepsInv(s: State, a: Action, s': State, x: Aux)
    requires Inv(s, x) && Step(s, a, s') && a.BackendOpened?
    ensures Inv(s', Follow(s, a, x))
  {
    assert TaskOk(s, x, a.t, s.tasks[a.t]);
    FrameKeepsInv(s, x, a.t, s', x.(home := x.home[a.handle := WithOpen(a.t)]));
  }

  lemma PutFrame(s: State, x: Aux, t: TaskId, id: SessionId, h: Handle, pc: Pc, s': State)
    requires LinksOk(s, x)
    requires IsHome(x, h, WithOpen(t)) || IsHome(x, h, WithClose(t))
    requires IsStage(x, id, Pending(t)) || IsStage(x, id, Waiting(t))
    requires s' == Moved(s, t, pc).(table := Installed(s.table, id, h))
    ensures Frame(s, x, t, s', HandlePut(s, x, id, h))
  {
  }

  lemma PutLinks(s: State, x: Aux, t: TaskId, id: SessionId, h: Handle, pc: Pc, s': State)
    requires LinksOk(s, x)
    requires IsHome(x, h, WithOpen(t)) || IsHome(x, h, WithClose(t))
    requires IsStage(x, id, Pending(t)) || IsStage(x, id, Waiting(t))
    requires s' == Moved(s, t, pc).(table := Installed(s.table, id, h))
    ensures LinksOk(s', HandlePut(s, x, id, h))
  {
  }

  lemma PutKeepsInv(s: State, a: Action, s': State, x: Aux)
    requires Inv(s, x) && Step(s, a, s') && (a.InstallPort? || a.RollBack?)
    ensures Inv(s', Follow(s, a, x))
  {
    var pc := s.tasks[a.t];
    assert TaskOk(s, x, a.t, pc);
    PutFrame(s, x, a.t, pc.id, pc.handle, s'.tasks[a.t], s');
    PutLinks(s, x, a.t, pc.id, pc.handle, s'.tasks[a.t], s');
    FrameKeepsInv(s, x, a.t, s', HandlePut(s, x, pc.id, pc.handle));
  }

  lemma DropFrame(s: State, x: Aux, t: TaskId, id: SessionId, pc: Pc, s': State)
    requires LinksOk(s, x)
    requires s' == Moved(s, t, pc).(table := Removed(s.table, id))
    ensures Frame(s, x, t, s', HandleDropped(s, x, id)) && LinksOk(s', HandleDropped(s, x, id))
  {
  }

  lemma DropKeepsInv(s: State, a: Action, s': State, x: Aux)
    requires Inv(s, x) && Step(s, a, s') && (a.AbandonOpen? || a.EndClose?)
    ensures Inv(s', Follow(s, a, x))
  {
    var pc := s.tasks[a.t];
    assert TaskOk(s, x, a.t, pc);
    DropFrame(s, x, a.t, pc.id, s'.tasks[a.t], s');
    FrameKeepsInv(s, x, a.t, s', HandleDropped(s, x, pc.id));
  }

  lemma StartCloseFrame(s: State, x: Aux, t: TaskId, s': State)
    requires LinksOk(s, x) && t in s.tasks && StartCloseStep(s, t, s.tasks[t], s')
    ensures Frame(s, x, t, s', HandleTaken(s, x, t, s.tasks[t].id))
    ensures LinksOk(s', HandleTaken(s, x, t, s.tasks[t].id))
  {
  }

  lemma StartCloseKeepsInv(s: State, a: Action, s': State, x: Aux)
    requires Inv(s, x) && Step(s, a, s') && a.StartClose?
    ensures Inv(s', Follow(s, a, x))
  {
    StartCloseFrame(s, x, a.t, s');
    FrameKeepsInv(s, x, a.t, s', HandleTaken(s, x, a.t, s.tasks[a.t].id));
  }

  lemma OperationKeepsInv(s: State, a: Action, s': State, x: Aux)
    requires Inv(s, x) && Step(s, a, s')
    requires a.CheckOut? || a.GetLock? || a.GiveUpWaiting? || a.Recheck? || a.Perform? || a.PerformFlush?
          || a.NextPhase? || a.StopIo? || a.ReleaseLock?
    ensures Inv(s', Follow(s, a, x))
  {
    if a.GetLock? {
      LockKeepsInv(s, a, s', x);
    } else if a.ReleaseLock? {
      UnlockKeepsInv(s, a, s', x);
    } else if a.CheckOut? || a.GiveUpWaiting? || a.Recheck? {
      LookupKeepsInv(s, a, s', x);
    } else {
      IoKeepsInv(s, a, s', x);
    }
  }

  lemma StepKeepsInv(s: State, a: Action, s': State, x: Aux)
    requires Inv(s, x) && Step(s, a, s')
    ensures Inv(s', Follow(s, a, x))
  {
    if a.Spawn? {
      SpawnKeepsInv(s, a, s', x);
    } else if a.Refuse? || a.BackendFailed? || a.CloseTimesOut? {
      RefusalKeepsInv(s, a, s', x);
    } else if a.ReserveSlot? {
      ReserveKeepsInv(s, a, s', x);
    } else if a.BackendOpened? {
      OpenedKeepsInv(s, a, s', x);
    } else if a.InstallPort? || a.RollBack? {
      PutKeepsInv(s, a, s', x);
    } else if a.AbandonOpen? || a.EndClose? {
      DropKeepsInv(s, a, s', x);
    } else if a.StartClose? {
      StartCloseKeepsInv(s, a, s', x);
    } else if a.CloseGetsLock? {
      CloseLockKeepsInv(s, a, s', x);
    } else if a.CloseDropsLock? {
      UnlockKeepsInv(s, a, s', x);
    } else {
      OperationKeepsInv(s, a, s', x);
    }
  }
}
