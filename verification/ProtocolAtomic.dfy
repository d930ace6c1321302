/** Operations are atomic: a port's log is a sequence of whole, uninterrupted operations. */
module ProtocolAtomic {
  import opened Wrappers
  import opened Sessions
  import opened Protocol
  import opened ProtocolSafety
  import opened ProtocolRuns

  /** What task `t` did, in order. */
  function Acts(log: seq<Event>, t: TaskId): seq<Act> {
    if log == [] then []
    else
      var last := log[|log| - 1];
      Acts(log[..|log| - 1], t) + (if last.task == t then [last.act] else [])
  }

  predicate Contiguous(log: seq<Event>) {
    forall i, j, k :: 0 <= i <= j <= k < |log| && log[i].task == log[k].task ==> log[j].task == log[i].task
  }

  /** From its first event on, the log belongs to `t`. */
  predicate Tail(log: seq<Event>, t: TaskId) {
    forall i, j :: 0 <= i <= j < |log| && log[i].task == t ==> log[j].task == t
  }

  function Rank(a: Act): nat {
    match a
    case ClearRead => 0
    case Wrote => 1
    case Flushed => 2
    case DidRead => 3
  }

  predicate Allowed(op: Op, a: Act) {
    match op
    case WriteOp => a.Wrote? || a.Flushed?
    case ExecOp(clear) => a.ClearRead? ==> clear
    case _ => a.DidRead?
  }

  /**
   The order inside one operation: clear reads, then writes, at most one flush, then reads; an exec
   reads only after its flush.
   */
  predicate InOrder(op: Op, acts: seq<Act>) {
    && (forall i :: 0 <= i < |acts| ==> Allowed(op, acts[i]))
    && (forall i, j :: 0 <= i < j < |acts| ==> Rank(acts[i]) <= Rank(acts[j]))
    && (forall i, j :: 0 <= i < j < |acts| ==> !(acts[i].Flushed? && acts[j].Flushed?))
    && (op.ExecOp? && DidRead in acts ==> Flushed in acts)
  }

  /** The acts so far of an operation in phase `phase`. */
  predicate Fits(op: Op, phase: Phase, acts: seq<Act>) {
    && InOrder(op, acts)
    && Allowed(op, PhaseAct(phase))
    && (forall i :: 0 <= i < |acts| ==> Rank(acts[i]) <= Rank(PhaseAct(phase)))
    && (phase.Flushing? ==> Flushed !in acts)
    && (phase.Reading? && op.ExecOp? ==> Flushed in acts)
  }

  /** The port a task has been given to use. */
  function PortOf(pc: Pc): Option<Handle> {
    match pc
    case OpIo(_, _, h, _) => Some(h)
    case OpRelease(_, _, h) => Some(h)
    case OpDone(_, _, used) => used
    case _ => None
  }

  ghost predicate Owned(s: State, h: Handle, t: TaskId) {
    t in s.tasks && PortOf(s.tasks[t]) == Some(h)
  }

  ghost predicate TaskLogOk(s: State, t: TaskId, pc: Pc) {
    PortOf(pc).Some? ==>
      var log := Log(s, PortOf(pc).value);
      && InOrder(pc.op, Acts(log, t))
      && (!pc.OpDone? ==> Tail(log, t))
      && (pc.OpIo? ==> Fits(pc.op, pc.phase, Acts(log, t)))
  }

  ghost predicate LogsOk(s: State) {
    && (forall h, i :: 0 <= i < |Log(s, h)| ==> Owned(s, h, Log(s, h)[i].task))
    && (forall h :: Contiguous(Log(s, h)))
    && (forall t :: t in s.tasks ==> TaskLogOk(s, t, s.tasks[t]))
  }

  lemma {:induction false} NoActs(log: seq<Event>, t: TaskId)
    requires forall i :: 0 <= i < |log| ==> log[i].task != t
    ensures Acts(log, t) == []
  {
    if log != [] {
      NoActs(log[..|log| - 1], t);
    }
  }

  lemma ActsOfAppend(log: seq<Event>, e: Event, t: TaskId)
    ensures Acts(log + [e], t) == Acts(log, t) + (if e.task == t then [e.act] else [])
  {
    assert (log + [e])[..|log|] == log;
  }

  /** A task that has no event yet may be given a port; its operation starts in the first phase. */
  lemma FreshTaskLog(s: State, t: TaskId, pc: Pc)
    requires LogsOk(s) && (t in s.tasks ==> PortOf(s.tasks[t]).None?)
    requires pc.OpIo? ==> pc.phase == FirstPhase(pc.op)
    ensures TaskLogOk(s, t, pc)
  {
    if PortOf(pc).Some? {
      var log := Log(s, PortOf(pc).value);
      forall i | 0 <= i < |log|
        ensures log[i].task != t
      {
        assert Owned(s, PortOf(pc).value, log[i].task);
      }
      NoActs(log, t);
    }
  }

  lemma MoveKeepsLogs(s: State, t: TaskId, pc: Pc, s': State)
    requires LogsOk(s) && s'.logs == s.logs && s'.tasks == s.tasks[t := pc] && TaskLogOk(s, t, pc)
    requires t in s.tasks && PortOf(s.tasks[t]).Some? ==> PortOf(pc) == PortOf(s.tasks[t])
    ensures LogsOk(s')
  {
    forall h
      ensures Log(s', h) == Log(s, h)
    {
    }
    forall u | u in s'.tasks
      ensures TaskLogOk(s', u, s'.tasks[u])
    {
      assert u != t ==> TaskLogOk(s, u, s.tasks[u]);
    }
    forall h, i | 0 <= i < |Log(s', h)|
      ensures Owned(s', h, Log(s', h)[i].task)
    {
      assert Owned(s, h, Log(s, h)[i].task);
    }
  }

  lemma LookupKeepsLogs(s: State, a: Action, s': State)
    requires LogsOk(s) && Step(s, a, s')
    requires !a.Perform? && !a.PerformFlush? && !a.NextPhase? && !a.StopIo? && !a.ReleaseLock?
    ensures LogsOk(s')
  {
    FreshTaskLog(s, a.t, s'.tasks[a.t]);
    MoveKeepsLogs(s, a.t, s'.tasks[a.t], s');
  }

  lemma PhaseKeepsLogs(s: State, t: TaskId, s': State)
    requires LogsOk(s) && Step(s, NextPhase(t), s')
    ensures LogsOk(s')
  {
    assert TaskLogOk(s, t, s.tasks[t]);
    MoveKeepsLogs(s, t, s'.tasks[t], s');
  }

  lemma StopKeepsLogs(s: State, t: TaskId, s': State)
    requires LogsOk(s) && Step(s, StopIo(t), s')
    ensures LogsOk(s')
  {
    assert TaskLogOk(s, t, s.tasks[t]);
    MoveKeepsLogs(s, t, s'.tasks[t], s');
  }

  lemma ReleaseKeepsLogs(s: State, t: TaskId, s': State)
    requires LogsOk(s) && Step(s, ReleaseLock(t), s')
    ensures LogsOk(s')
  {
    assert TaskLogOk(s, t, s.tasks[t]);
    MoveKeepsLogs(s, t, s'.tasks[t], s');
  }

  lemma FitsGrows(op: Op, phase: Phase, acts: seq<Act>)
    requires Fits(op, phase, acts)
    ensures InOrder(op, acts + [PhaseAct(phase)])
    ensures !phase.Flushing? ==> Fits(op, phase, acts + [PhaseAct(phase)])
    ensures phase.Flushing? && op.ExecOp? ==> Fits(op, Reading, acts + [PhaseAct(phase)])
  {
  }

  lemma TailGrows(log: seq<Event>, e: Event)
    requires Contiguous(log) && Tail(log, e.task)
    ensures Contiguous(log + [e]) && Tail(log + [e], e.task)
  {
  }

  /** What one device event does to the logs. */
  ghost predicate Appended(s: State, t: TaskId, h: Handle, act: Act, pc: Pc, s': State) {
    && s'.tasks == s.tasks[t := pc]
    && s'.logs == s.logs[h := Log(s, h) + [Event(t, act)]]
  }

  lemma AppendKeepsOther(s: State, x: Aux, t: TaskId, h: Handle, act: Act, pc: Pc, s': State, u: TaskId)
    requires Inv(s, x) && LogsOk(s) && Appended(s, t, h, act, pc, s') && Holds(s, h, t)
    requires u in s.tasks && u != t
    ensures TaskLogOk(s', u, s.tasks[u])
  {
    ActsOfAppend(Log(s, h), Event(t, act), u);
    assert TaskOk(s, x, u, s.tasks[u]) && TaskLogOk(s, u, s.tasks[u]);
  }

  lemma AppendKeepsOwners(s: State, t: TaskId, h: Handle, act: Act, pc: Pc, s': State, k: Handle, i: nat)
    requires LogsOk(s) && Appended(s, t, h, act, pc, s') && Owned(s, h, t) && PortOf(pc) == Some(h)
    requires i < |Log(s', k)|
    ensures Owned(s', k, Log(s', k)[i].task)
  {
    if k != h || i < |Log(s, h)| {
      assert Owned(s, k, Log(s, k)[i].task);
    }
  }

  lemma AppendKeepsLogs(s: State, x: Aux, t: TaskId, h: Handle, act: Act, pc: Pc, s': State)
    requires Inv(s, x) && LogsOk(s) && Appended(s, t, h, act, pc, s') && Holds(s, h, t)
    requires Owned(s, h, t) && Tail(Log(s, h), t) && PortOf(pc) == Some(h) && TaskLogOk(s', t, pc)
    ensures LogsOk(s')
  {
    TailGrows(Log(s, h), Event(t, act));
    forall k
      ensures Contiguous(Log(s', k))
    {
      assert k != h ==> Log(s', k) == Log(s, k);
    }
    forall u | u in s'.tasks
      ensures TaskLogOk(s', u, s'.tasks[u])
    {
      if u != t {
        AppendKeepsOther(s, x, t, h, act, pc, s', u);
      }
    }
    forall k, i | 0 <= i < |Log(s', k)|
      ensures Owned(s', k, Log(s', k)[i].task)
    {
      AppendKeepsOwners(s, t, h, act, pc, s', k, i);
    }
  }

  /** The log of the task that performs an event still fits its phase. */
  lemma OwnLogGrows(log: seq<Event>, t: TaskId, op: Op, phase: Phase)
    requires Contiguous(log) && Tail(log, t) && Fits(op, phase, Acts(log, t))
    ensures var grown := log + [Event(t, PhaseAct(phase))];
      && Tail(grown, t) && InOrder(op, Acts(grown, t))
      && (!phase.Flushing? ==> Fits(op, phase, Acts(grown, t)))
      && (phase.Flushing? && op.ExecOp? ==> Fits(op, Reading, Acts(grown, t)))
  {
    var e := Event(t, PhaseAct(phase));
    ActsOfAppend(log, e, t);
    FitsGrows(op, phase, Acts(log, t));
    TailGrows(log, e);
  }

  lemma EventIsAppended(s: State, a: Action, s': State)
    requires Step(s, a, s') && (a.Perform? || a.PerformFlush?)
    ensures a.t in s.tasks && s.tasks[a.t].OpIo? && a.t in s'.tasks
    ensures var pc, pc' := s.tasks[a.t], s'.tasks[a.t];
      && Appended(s, a.t, pc.handle, PhaseAct(pc.phase), pc', s')
      && PortOf(pc') == Some(pc.handle) && !pc'.OpDone? && pc'.op == pc.op
      && (pc'.OpIo? ==> pc'.phase == (if pc.phase.Flushing? then Reading else pc.phase))
      && (pc'.OpIo? && pc.phase.Flushing? ==> pc.op.ExecOp?)
  {
    assert s'.tasks == s.tasks[a.t := s'.tasks[a.t]];
  }

  lemma EventFits(s: State, t: TaskId, pc: Pc, pc': Pc, s': State)
    requires pc.OpIo? && Appended(s, t, pc.handle, PhaseAct(pc.phase), pc', s')
    requires PortOf(pc') == Some(pc.handle) && !pc'.OpDone? && pc'.op == pc.op
    requires pc'.OpIo? ==> pc'.phase == (if pc.phase.Flushing? then Reading else pc.phase)
    requires pc'.OpIo? && pc.phase.Flushing? ==> pc.op.ExecOp?
    requires Contiguous(Log(s, pc.handle)) && TaskLogOk(s, t, pc)
    ensures TaskLogOk(s', t, pc')
  {
    var log := Log(s, pc.handle);
    assert Log(s', pc.handle) == log + [Event(t, PhaseAct(pc.phase))];
    hide Fits, InOrder, Tail;
    OwnLogGrows(log, t, pc.op, pc.phase);
  }

  lemma EventKeepsLogs(s: State, a: Action, s': State, x: Aux)
    requires Inv(s, x) && LogsOk(s) && Step(s, a, s') && (a.Perform? || a.PerformFlush?)
    ensures LogsOk(s')
  {
    EventIsAppended(s, a, s');
    var t, pc := a.t, s.tasks[a.t];
    assert TaskOk(s, x, t, pc) && TaskLogOk(s, t, pc) && Contiguous(Log(s, pc.handle));
    assert Holds(s, pc.handle, t) && Owned(s, pc.handle, t) && Tail(Log(s, pc.handle), t);
    hide Step, Inv, LogsOk, TaskLogOk, TaskOk, Tail, Contiguous, Appended, Owned, Holds;
    EventFits(s, t, pc, s'.tasks[t], s');
    AppendKeepsLogs(s, x, t, pc.handle, PhaseAct(pc.phase), s'.tasks[t], s');
  }

  lemma StepKeepsLogs(s: State, a: Action, s': State, x: Aux)
    requires Inv(s, x) && LogsOk(s) && Step(s, a, s')
    ensures LogsOk(s')
  {
    if a.Perform? || a.PerformFlush? {
      EventKeepsLogs(s, a, s', x);
    } else if a.NextPhase? {
      PhaseKeepsLogs(s, a.t, s');
    } else if a.StopIo? {
      StopKeepsLogs(s, a.t, s');
    } else if a.ReleaseLock? {
      ReleaseKeepsLogs(s, a.t, s');
    } else {
      LookupKeepsLogs(s, a, s');
    }
  }

  lemma {:induction false} ReachableLogs(run: seq<State>, i: nat)
    requires IsRun(run) && i < |run|
    ensures LogsOk(run[i])
  {
    if i > 0 {
      ReachableLogs(run, i - 1);
      var x := ReachableInv(run, i - 1);
      assert Linked(run, i - 1);
      var a :| Step(run[i - 1], a, run[i]);
      StepKeepsLogs(run[i - 1], a, run[i], x);
    }
  }

  /** One operation's share of a log. */
  datatype Segment = Segment(task: TaskId, acts: seq<Act>)

  /** A log cut wherever the task changes. */
  function Segments(log: seq<Event>): seq<Segment> {
    if log == [] then [] else Extended(Segments(log[..|log| - 1]), log[|log| - 1])
  }

  function Extended(cut: seq<Segment>, e: Event): seq<Segment> {
    if cut != [] && cut[|cut| - 1].task == e.task
    then cut[..|cut| - 1] + [Segment(e.task, cut[|cut| - 1].acts + [e.act])]
    else cut + [Segment(e.task, [e.act])]
  }

  predicate Occurs(log: seq<Event>, t: TaskId) {
    exists i :: 0 <= i < |log| && log[i].task == t
  }

  predicate IsWhole(log: seq<Event>, segment: Segment) {
    segment.acts == Acts(log, segment.task) && Occurs(log, segment.task)
  }

  /** Every task has one segment only, it holds all the task did in the log, and the last event ends the last one. */
  predicate AllWhole(log: seq<Event>, cut: seq<Segment>) {
    && (forall k :: 0 <= k < |cut| ==> IsWhole(log, cut[k]))
    && (forall k, l :: 0 <= k < l < |cut| ==> cut[k].task != cut[l].task)
    && (log != [] ==> cut != [] && cut[|cut| - 1].task == log[|log| - 1].task)
  }

  lemma WholeGrows(log: seq<Event>, segment: Segment, e: Event)
    requires IsWhole(log, segment)
    ensures segment.task != e.task ==> IsWhole(log + [e], segment)
    ensures segment.task == e.task ==> IsWhole(log + [e], Segment(e.task, segment.acts + [e.act]))
  {
    ActsOfAppend(log, e, segment.task);
    var i :| 0 <= i < |log| && log[i].task == segment.task;
    assert (log + [e])[i].task == segment.task;
  }

  lemma NewIsWhole(log: seq<Event>, e: Event)
    requires !Occurs(log, e.task)
    ensures IsWhole(log + [e], Segment(e.task, [e.act]))
  {
    forall i | 0 <= i < |log|
      ensures log[i].task != e.task
    {
    }
    NoActs(log, e.task);
    ActsOfAppend(log, e, e.task);
    assert (log + [e])[|log|].task == e.task;
  }

  lemma ContinuedIsWhole(log: seq<Event>, cut: seq<Segment>, e: Event)
    requires AllWhole(log, cut) && log != [] && log[|log| - 1].task == e.task
    ensures AllWhole(log + [e], Extended(cut, e))
  {
    var grown, n := Extended(cut, e), |cut| - 1;
    hide IsWhole;
    forall k | 0 <= k < |grown|
      ensures IsWhole(log + [e], grown[k])
    {
      WholeGrows(log, cut[k], e);
      assert k < n ==> grown[k] == cut[k];
    }
  }

  lemma StartedIsWhole(log: seq<Event>, cut: seq<Segment>, e: Event)
    requires AllWhole(log, cut) && !Occurs(log, e.task)
    ensures AllWhole(log + [e], cut + [Segment(e.task, [e.act])])
  {
    NewIsWhole(log, e);
    forall k | 0 <= k < |cut|
      ensures IsWhole(log + [e], cut[k]) && cut[k].task != e.task
    {
      assert Occurs(log, cut[k].task);
      WholeGrows(log, cut[k], e);
    }
  }

  /** A task that comes back after another one would break the log's contiguity. */
  lemma NewTaskIsNew(log: seq<Event>, e: Event)
    requires Contiguous(log + [e]) && (log == [] || log[|log| - 1].task != e.task)
    ensures !Occurs(log, e.task)
  {
    var grown := log + [e];
    forall i | 0 <= i < |log|
      ensures log[i].task != e.task
    {
      assert grown[i] == log[i] && grown[|log| - 1] == log[|log| - 1] && grown[|log|] == e;
    }
  }

  lemma ExtendedIsWhole(log: seq<Event>, cut: seq<Segment>, e: Event)
    requires AllWhole(log, cut) && Contiguous(log + [e])
    ensures AllWhole(log + [e], Extended(cut, e))
  {
    if log != [] && log[|log| - 1].task == e.task {
      ContinuedIsWhole(log, cut, e);
    } else {
      NewTaskIsNew(log, e);
      StartedIsWhole(log, cut, e);
      assert cut != [] ==> IsWhole(log, cut[|cut| - 1]);
    }
  }

  lemma {:induction false} SegmentsAreWhole(log: seq<Event>)
    requires Contiguous(log)
    ensures AllWhole(log, Segments(log))
  {
    if log != [] {
      var init := log[..|log| - 1];
      SegmentsAreWhole(init);
      assert log == init + [log[|log| - 1]];
      ExtendedIsWhole(init, Segments(init), log[|log| - 1]);
    }
  }

  lemma PhaseLimits(s: State, t: TaskId, pc: Pc)
    requires TaskLogOk(s, t, pc) && PortOf(pc).Some?
    ensures var acts := Acts(Log(s, PortOf(pc).value), t);
      && (pc.OpIo? && pc.phase.Clearing? ==> forall a :: a in acts ==> a == ClearRead)
      && (pc.OpIo? && pc.phase.Writing? ==> Flushed !in acts && DidRead !in acts)
  {
  }

  /**
   Atomic operations: in every reachable state a port's log, cut where the task changes, has one
   segment per operation; the segment is everything that operation did on any port, in the order
   clear reads, writes, flush, reads. While it clears it has done nothing else, and while it writes it has
   neither flushed nor read for its answer.
   */
  lemma AtomicOperations(run: seq<State>, i: nat, h: Handle, k: nat)
    requires IsRun(run) && i < |run| && k < |Segments(Log(run[i], h))|
    ensures var log := Log(run[i], h);
      var segment := Segments(log)[k];
      && segment.task in run[i].tasks
      && PortOf(run[i].tasks[segment.task]) == Some(h)
      && segment.acts == Acts(log, segment.task)
      && InOrder(run[i].tasks[segment.task].op, segment.acts)
      && (forall l :: 0 <= l < |Segments(log)| && l != k ==> Segments(log)[l].task != segment.task)
      && (forall g :: g != h ==> Acts(Log(run[i], g), segment.task) == [])
      && var pc := run[i].tasks[segment.task];
      && (pc.OpIo? && pc.phase.Clearing? ==> forall a :: a in segment.acts ==> a == ClearRead)
      && (pc.OpIo? && pc.phase.Writing? ==> Flushed !in segment.acts && DidRead !in segment.acts)
  {
    ReachableLogs(run, i);
    var s, log := run[i], Log(run[i], h);
    SegmentsAreWhole(log);
    var t := Segments(log)[k].task;
    assert IsWhole(log, Segments(log)[k]);
    var e :| 0 <= e < |log| && log[e].task == t;
    assert Owned(s, h, log[e].task) && TaskLogOk(s, t, s.tasks[t]);
    PhaseLimits(s, t, s.tasks[t]);
    forall g | g != h
      ensures Acts(Log(s, g), t) == []
    {
      forall j | 0 <= j < |Log(s, g)|
        ensures Log(s, g)[j].task != t
      {
        assert Owned(s, g, Log(s, g)[j].task);
      }
      NoActs(Log(s, g), t);
    }
  }

  /** The port a step uses. */
  function PortUsed(pc: Pc): Option<Handle> {
    match pc
    case OpWait(_, _, h) => Some(h)
    case OpRecheck(_, _, h) => Some(h)
    case OpIo(_, _, h, _) => Some(h)
    case OpRelease(_, _, h) => Some(h)
    case _ => None
  }

  /** What one step of an operation does, as a change of its own port and its own task. */
  datatype Effect = Effect(pc: Pc, lock: Option<TaskId>, log: Option<seq<Event>>)

  function Applied(s: State, t: TaskId, h: Handle, e: Effect): State {
    s.(tasks := s.tasks[t := e.pc],
       locks := if e.lock.Some? then s.locks[h := e.lock.value] else s.locks - {h},
       logs := if e.log.Some? then s.logs[h := e.log.value] else s.logs)
  }

  /** All a step of an operation reads: its task, the table, and the lock and log of its own port. */
  lemma StepIsLocal(s: State, a: Action, s': State) returns (h: Handle, e: Effect)
    requires UsesPort(a) && Step(s, a, s')
    ensures a.t in s.tasks && PortUsed(s.tasks[a.t]) == Some(h) && s' == Applied(s, a.t, h, e)
    ensures e.log == if a.Perform? || a.PerformFlush? then Some(Log(s', h)) else None
  {
    h := PortUsed(s.tasks[a.t]).value;
    var lock := if h in s'.locks then Some(s'.locks[h]) else None;
    var log := if a.Perform? || a.PerformFlush? then Some(Log(s', h)) else None;
    e := Effect(s'.tasks[a.t], lock, log);
    assert s'.locks == Applied(s, a.t, h, e).locks;
    assert s'.logs == Applied(s, a.t, h, e).logs;
  }

  /** The two states agree on all that a step of task `t` on port `h` reads. */
  ghost predicate Agrees(s: State, r: State, t: TaskId, h: Handle) {
    && r.table == s.table && t in s.tasks && t in r.tasks && r.tasks[t] == s.tasks[t]
    && (h in r.locks <==> h in s.locks) && (h in s.locks ==> r.locks[h] == s.locks[h])
    && Log(r, h) == Log(s, h)
  }

  lemma LockStepElsewhere(s: State, a: Action, s': State, h: Handle, e: Effect, r: State)
    requires (a.GetLock? || a.GiveUpWaiting? || a.Recheck? || a.ReleaseLock?) && Step(s, a, s') && Agrees(s, r, a.t, h)
    requires PortUsed(s.tasks[a.t]) == Some(h) && s' == Applied(s, a.t, h, e) && e.log.None?
    ensures Step(r, a, Applied(r, a.t, h, e))
  {
    assert s'.tasks[a.t] == e.pc;
    assert e.lock == if h in s'.locks then Some(s'.locks[h]) else None;
    assert Applied(r, a.t, h, e).locks ==
      if a.GetLock? then r.locks[h := a.t] else if a.ReleaseLock? then r.locks - {h} else r.locks;
  }

  lemma IoStepElsewhere(s: State, a: Action, s': State, h: Handle, e: Effect, r: State)
    requires (a.Perform? || a.PerformFlush? || a.NextPhase? || a.StopIo?) && Step(s, a, s') && Agrees(s, r, a.t, h)
    requires PortUsed(s.tasks[a.t]) == Some(h) && s' == Applied(s, a.t, h, e)
    requires e.log == if a.Perform? || a.PerformFlush? then Some(Log(s', h)) else None
    ensures Step(r, a, Applied(r, a.t, h, e))
  {
    assert s'.tasks[a.t] == e.pc;
    assert e.lock == if h in s'.locks then Some(s'.locks[h]) else None;
    assert Applied(r, a.t, h, e).locks == r.locks;
  }

  lemma StepIsUnique(s: State, a: Action, s': State, s'': State)
    requires UsesPort(a) && Step(s, a, s') && Step(s, a, s'')
    ensures s' == s''
  {
  }

  lemma UpdatesCommute<V>(m: map<nat, V>, g: nat, x: Option<V>, h: nat, y: Option<V>)
    requires g != h
    ensures var one := if x.Some? then m[g := x.value] else m - {g};
      var other := if y.Some? then m[h := y.value] else m - {h};
      (if y.Some? then one[h := y.value] else one - {h}) == (if x.Some? then other[g := x.value] else other - {g})
  {
  }

  lemma EffectsCommute(s: State, t: TaskId, g: Handle, e: Effect, u: TaskId, h: Handle, f: Effect)
    requires t != u && g != h
    ensures Applied(Applied(s, t, g, e), u, h, f) == Applied(Applied(s, u, h, f), t, g, e)
  {
    UpdatesCommute(s.tasks, t, Some(e.pc), u, Some(f.pc));
    UpdatesCommute(s.locks, g, e.lock, h, f.lock);
    if e.log.Some? && f.log.Some? {
      UpdatesCommute(s.logs, g, e.log, h, f.log);
    }
  }

  lemma AgreesAfter(s: State, t: TaskId, g: Handle, e: Effect, u: TaskId, h: Handle)
    requires t != u && g != h && u in s.tasks
    ensures Agrees(s, Applied(s, t, g, e), u, h)
  {
  }

  lemma StepElsewhere(s: State, a: Action, s': State, h: Handle, e: Effect, r: State)
    requires UsesPort(a) && Step(s, a, s') && Agrees(s, r, a.t, h)
    requires PortUsed(s.tasks[a.t]) == Some(h) && s' == Applied(s, a.t, h, e)
    requires e.log == if a.Perform? || a.PerformFlush? then Some(Log(s', h)) else None
    ensures Step(r, a, Applied(r, a.t, h, e))
  {
    if a.Perform? || a.PerformFlush? || a.NextPhase? || a.StopIo? {
      IoStepElsewhere(s, a, s', h, e, r);
    } else {
      LockStepElsewhere(s, a, s', h, e, r);
    }
  }

  /**
   Different ports interleave freely: any two steps of operations on different ports can be made in
   either order, and lead to the same state.
   */
  lemma DifferentPortsCommute(s: State, a: Action, b: Action, s1: State, s2: State) returns (both: State)
    requires UsesPort(a) && UsesPort(b) && a.t != b.t && Step(s, a, s1) && Step(s, b, s2)
    requires PortUsed(s.tasks[a.t]) != PortUsed(s.tasks[b.t])
    ensures Step(s1, b, both) && Step(s2, a, both)
    ensures forall r :: Step(s1, b, r) || Step(s2, a, r) ==> r == both
  {
    var g, e := StepIsLocal(s, a, s1);
    var h, f := StepIsLocal(s, b, s2);
    hide Step, Applied, UsesPort, PortUsed;
    AgreesAfter(s, a.t, g, e, b.t, h);
    AgreesAfter(s, b.t, h, f, a.t, g);
    StepElsewhere(s, b, s2, h, f, s1);
    StepElsewhere(s, a, s1, g, e, s2);
    EffectsCommute(s, a.t, g, e, b.t, h, f);
    both := Applied(s1, b.t, h, f);
    forall r | Step(s1, b, r) || Step(s2, a, r)
      ensures r == both
    {
      if Step(s1, b, r) {
        StepIsUnique(s1, b, r, both);
      } else {
        StepIsUnique(s2, a, r, both);
      }
    }
  }
}
