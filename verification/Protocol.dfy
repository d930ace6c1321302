/**
 The concurrent session protocol as a labelled step system. A task is one call of the manager
 (open, close, or an I/O operation); every critical section of the manager mutex, every acquire and
 release of a port lock and every device event is a step of its own, and any wait may instead end in
 a timeout or a cancellation.
 */
module Protocol {
  import opened Wrappers
  import opened Sessions
  import opened Manager

  type TaskId = nat

  datatype Op = WriteOp | ReadOp | ReadUntilOp | DrainOp | ExecOp(clear: bool)

  datatype Phase = Clearing | Writing | Flushing | Reading

  datatype Act = ClearRead | Wrote | Flushed | DidRead

  /** One device event, labelled with the task whose operation caused it. */
  datatype Event = Event(task: TaskId, act: Act)

  datatype Pc =
    | OpenStart(path: Path)
    | OpenAwait(id: SessionId)
    | OpenInstall(id: SessionId, handle: Handle)
    | OpenAbandon(id: SessionId)
    | OpenDone(installed: bool)
    | CloseStart(id: SessionId)
    | CloseWait(id: SessionId, handle: Handle)
    | CloseHold(id: SessionId, handle: Handle)
    | CloseFinish(id: SessionId, from: Option<Handle>)
    | CloseRollback(id: SessionId, handle: Handle)
    | CloseDone(id: SessionId, from: Option<Handle>, ok: bool)
    | OpStart(op: Op, id: SessionId)
    | OpWait(op: Op, id: SessionId, handle: Handle)
    | OpRecheck(op: Op, id: SessionId, handle: Handle)
    | OpIo(op: Op, id: SessionId, handle: Handle, phase: Phase)
    | OpRelease(op: Op, id: SessionId, handle: Handle)
    | OpDone(op: Op, id: SessionId, used: Option<Handle>)

  datatype State = State(
    table: Table,
    locks: map<Handle, TaskId>,
    tasks: map<TaskId, Pc>,
    logs: map<Handle, seq<Event>>,
    usedIds: set<SessionId>,
    usedHandles: set<Handle>)

  datatype Action =
    | Spawn(t: TaskId, pc: Pc)
    | Refuse(t: TaskId)                       // the call ends in an error before it holds anything
    | ReserveSlot(t: TaskId, id: SessionId)
    | BackendOpened(t: TaskId, handle: Handle)
    | BackendFailed(t: TaskId)
    | InstallPort(t: TaskId)
    | AbandonOpen(t: TaskId)
    | StartClose(t: TaskId)
    | CloseGetsLock(t: TaskId)
    | CloseTimesOut(t: TaskId)
    | CloseDropsLock(t: TaskId)
    | RollBack(t: TaskId)
    | EndClose(t: TaskId)
    | CheckOut(t: TaskId)
    | GetLock(t: TaskId)
    | GiveUpWaiting(t: TaskId)
    | Recheck(t: TaskId)
    | Perform(t: TaskId)                      // one device event; the phase goes on
    | PerformFlush(t: TaskId)
    | NextPhase(t: TaskId)
    | StopIo(t: TaskId)                       // finished, failed, timed out or cancelled
    | ReleaseLock(t: TaskId)

  /** A step of an operation that holds or awaits a port lock, after it has looked up its port. */
  predicate UsesPort(a: Action) {
    || a.GetLock? || a.GiveUpWaiting? || a.Recheck? || a.Perform? || a.PerformFlush? || a.NextPhase?
    || a.StopIo? || a.ReleaseLock?
  }

  const INIT := State(map[], map[], map[], map[], {}, {})

  function Log(s: State, h: Handle): seq<Event> {
    if h in s.logs then s.logs[h] else []
  }

  predicate StartPc(pc: Pc) {
    pc.OpenStart? || pc.CloseStart? || pc.OpStart?
  }

  function FirstPhase(op: Op): Phase {
    match op
    case WriteOp => Writing
    case ExecOp(clear) => if clear then Clearing else Writing
    case _ => Reading
  }

  function PhaseAct(phase: Phase): Act {
    match phase
    case Clearing => ClearRead
    case Writing => Wrote
    case Flushing => Flushed
    case Reading => DidRead
  }

  /** `s` with task `t` moved on to `pc`. */
  function Moved(s: State, t: TaskId, pc: Pc): State {
    s.(tasks := s.tasks[t := pc])
  }

  /** `s` with the event of the task's current phase appended to the port's log. */
  function Logged(s: State, t: TaskId, pc: Pc): State
    requires pc.OpIo?
  {
    s.(logs := s.logs[pc.handle := Log(s, pc.handle) + [Event(t, PhaseAct(pc.phase))]])
  }

  ghost predicate Step(s: State, a: Action, s': State) {
    if a.Spawn? then
      a.t !in s.tasks && StartPc(a.pc) && s' == Moved(s, a.t, a.pc)
    else
      a.t in s.tasks && TaskStep(s, a, s.tasks[a.t], s')
  }

  ghost predicate TaskStep(s: State, a: Action, pc: Pc, s': State)
    requires !a.Spawn?
  {
    match a
    case Refuse(t) => RefuseStep(s, t, pc, s')
    case ReserveSlot(t, id) => ReserveStep(s, t, pc, id, s')
    case BackendOpened(t, h) =>
      && pc.OpenAwait? && h !in s.usedHandles
      && s' == Moved(s, t, OpenInstall(pc.id, h)).(usedHandles := s.usedHandles + {h})
    case BackendFailed(t) => pc.OpenAwait? && s' == Moved(s, t, OpenAbandon(pc.id))
    case InstallPort(t) =>
      && pc.OpenInstall?
      && s' == Moved(s, t, OpenDone(pc.id in s.table)).(table := Installed(s.table, pc.id, pc.handle))
    case AbandonOpen(t) =>
      pc.OpenAbandon? && s' == Moved(s, t, OpenDone(false)).(table := Removed(s.table, pc.id))
    case StartClose(t) => StartCloseStep(s, t, pc, s')
    case CloseGetsLock(t) =>
      && pc.CloseWait? && pc.handle !in s.locks
      && s' == Moved(s, t, CloseHold(pc.id, pc.handle)).(locks := s.locks[pc.handle := t])
    case CloseTimesOut(t) => pc.CloseWait? && s' == Moved(s, t, CloseRollback(pc.id, pc.handle))
    case CloseDropsLock(t) =>
      && pc.CloseHold?
      && s' == Moved(s, t, CloseFinish(pc.id, Some(pc.handle))).(locks := s.locks - {pc.handle})
    case RollBack(t) =>
      && pc.CloseRollback?
      && s' == Moved(s, t, CloseDone(pc.id, Some(pc.handle), false))
               .(table := Installed(s.table, pc.id, pc.handle))
    case EndClose(t) =>
      && pc.CloseFinish?
      && s' == Moved(s, t, CloseDone(pc.id, pc.from, true)).(table := Removed(s.table, pc.id))
    case CheckOut(t) =>
      && pc.OpStart?
      && s' == Moved(s, t, match Checkout(s.table, pc.id)
                           case Ok(h) => OpWait(pc.op, pc.id, h)
                           case Err(_) => OpDone(pc.op, pc.id, None))
    case GetLock(t) =>
      && pc.OpWait? && pc.handle !in s.locks
      && s' == Moved(s, t, OpRecheck(pc.op, pc.id, pc.handle)).(locks := s.locks[pc.handle := t])
    case GiveUpWaiting(t) => pc.OpWait? && s' == Moved(s, t, OpDone(pc.op, pc.id, Some(pc.handle)))
    case Recheck(t) =>
      && pc.OpRecheck?
      && s' == Moved(s, t, if RecheckError(s.table, pc.id, pc.handle).None?
                           then OpIo(pc.op, pc.id, pc.handle, FirstPhase(pc.op))
                           else OpRelease(pc.op, pc.id, pc.handle))
    case Perform(t) => pc.OpIo? && !pc.phase.Flushing? && s' == Logged(s, t, pc)
    case PerformFlush(t) =>
      && pc.OpIo? && pc.phase.Flushing?
      && s' == Moved(Logged(s, t, pc), t, if pc.op.ExecOp? then pc.(phase := Reading)
                                          else OpRelease(pc.op, pc.id, pc.handle))
    case NextPhase(t) =>
      && pc.OpIo? && (pc.phase.Clearing? || pc.phase.Writing?)
      && s' == Moved(s, t, pc.(phase := if pc.phase.Clearing? then Writing else Flushing))
    case StopIo(t) => pc.OpIo? && s' == Moved(s, t, OpRelease(pc.op, pc.id, pc.handle))
    case ReleaseLock(t) =>
      && pc.OpRelease?
      && s' == Moved(s, t, OpDone(pc.op, pc.id, Some(pc.handle))).(locks := s.locks - {pc.handle})
  }

  ghost predicate RefuseStep(s: State, t: TaskId, pc: Pc, s': State) {
    match pc
    case OpenStart(_) => s' == Moved(s, t, OpenDone(false))
    case CloseStart(id) => CloseError(s.table, id).Some? && s' == Moved(s, t, CloseDone(id, None, false))
    case OpStart(op, id) => s' == Moved(s, t, OpDone(op, id, None))
    case _ => false
  }

  ghost predicate ReserveStep(s: State, t: TaskId, pc: Pc, id: SessionId, s': State) {
    && pc.OpenStart? && ReserveError(s.table, pc.path, true).None? && id !in s.usedIds && id !in s.table
    && s' == Moved(s, t, OpenAwait(id))
             .(table := Reserved(s.table, pc.path, id), usedIds := s.usedIds + {id})
  }

  ghost predicate StartCloseStep(s: State, t: TaskId, pc: Pc, s': State) {
    && pc.CloseStart? && CloseError(s.table, pc.id).None?
    && s' == Moved(s, t, match s.table[pc.id].port
                         case Some(h) => CloseWait(pc.id, h)
                         case None => CloseFinish(pc.id, None))
             .(table := CloseBegun(s.table, pc.id))
  }

  /** A run of any length: every adjacent pair of states is a step of some task. */
  ghost predicate IsRun(run: seq<State>) {
    && |run| > 0
    && run[0] == INIT
    && (forall i: nat :: Linked(run, i))
  }

  ghost predicate Linked(run: seq<State>, i: nat) {
    i + 1 < |run| ==> CanStep(run[i], run[i + 1])
  }

  ghost predicate CanStep(s: State, s': State) {
    exists a :: Step(s, a, s')
  }
}
