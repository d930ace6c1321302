/** What a close promises, by where it began and what was going on: the exact limits of quiescence. */
module ProtocolCloses {
  import opened Wrappers
  import opened Sessions
  import opened Manager
  import opened Protocol
  import opened ProtocolSafety
  import opened ProtocolRuns
  import opened ProtocolQuiescence

  lemma {:induction false} ReachableKnown(run: seq<State>, i: nat) returns (x: Aux, o: Owners)
    requires IsRun(run) && i < |run|
    ensures Known(run[i], x, o)
  {
    if i == 0 {
      x, o := INIT_AUX, map[];
    } else {
      var y, p := ReachableKnown(run, i - 1);
      assert Linked(run, i - 1);
      var a :| Step(run[i - 1], a, run[i]);
      StepKeepsKnown(run[i - 1], y, p, a, run[i]);
      x, o := Follow(run[i - 1], a, y), FollowOwners(run[i - 1], a, p);
    }
  }

  /** Some operation on the session is in its I/O. */
  ghost predicate Busy(s: State, id: SessionId) {
    exists t :: t in s.tasks && s.tasks[t].OpIo? && s.tasks[t].id == id
  }

  /** The step performs a device event of an operation on the session. */
  ghost predicate SessionEvent(s: State, s': State, id: SessionId) {
    exists t :: t in s.tasks && s.tasks[t].OpIo? && s.tasks[t].id == id
      && Log(s', s.tasks[t].handle) == Log(s, s.tasks[t].handle) + [Event(t, PhaseAct(s.tasks[t].phase))]
  }

  /** `cont` is a run that goes on from state `i` of `run`. */
  ghost predicate Continues(run: seq<State>, i: nat, cont: seq<State>)
    requires i < |run|
  {
    IsRun(cont) && i < |cont| && cont[..i + 1] == run[..i + 1]
  }

  /** However the run goes on, no device event of the session happens. */
  ghost predicate Quiescent(run: seq<State>, i: nat, id: SessionId)
    requires i < |run|
  {
    forall cont, j :: Continues(run, i, cont) && i <= j && j + 1 < |cont| ==> !SessionEvent(cont[j], cont[j + 1], id)
  }

  lemma GoneStays(s: State, a: Action, s': State, id: SessionId)
    requires Step(s, a, s') && Gone(s, id)
    ensures Gone(s', id)
  {
  }

  /** Only the second look-up lets an operation into its I/O. */
  lemma RecheckStartsIo(s: State, a: Action, s': State, t: TaskId)
    requires Step(s, a, s') && t in s'.tasks && s'.tasks[t].OpIo?
    ensures t in s.tasks && (s.tasks[t].OpIo? || s.tasks[t].OpRecheck?) && s.tasks[t].id == s'.tasks[t].id
    ensures s.tasks[t].OpIo? || s.tasks[t].id in s.table
  {
    StepMoves(s, a, s');
    if a.t == t {
      MovesToIo(s, a, s');
    }
  }

  lemma MovesToIo(s: State, a: Action, s': State)
    requires Step(s, a, s') && a.t in s'.tasks && s'.tasks[a.t].OpIo?
    ensures a.t in s.tasks && (s.tasks[a.t].OpIo? || s.tasks[a.t].OpRecheck?) && s.tasks[a.t].id == s'.tasks[a.t].id
    ensures s.tasks[a.t].OpIo? || s.tasks[a.t].id in s.table
  {
  }

  /** Without its session, no operation gets to its I/O any more. */
  lemma IdleStays(s: State, a: Action, s': State, id: SessionId)
    requires Step(s, a, s') && Gone(s, id) && !Busy(s, id)
    ensures !Busy(s', id)
  {
    hide Step;
    forall t | t in s'.tasks && s'.tasks[t].OpIo?
      ensures s'.tasks[t].id != id
    {
      RecheckStartsIo(s, a, s', t);
    }
  }

  lemma {:induction false} IdleForever(run: seq<State>, i: nat, j: nat, id: SessionId)
    requires IsRun(run) && i <= j < |run| && Gone(run[i], id) && !Busy(run[i], id)
    ensures Gone(run[j], id) && !Busy(run[j], id)
    decreases j
  {
    if i < j {
      IdleForever(run, i, j - 1, id);
      assert Linked(run, j - 1);
      var a :| Step(run[j - 1], a, run[j]);
      GoneStays(run[j - 1], a, run[j], id);
      IdleStays(run[j - 1], a, run[j], id);
    }
  }

  /** A run goes on with any step of its last state. */
  lemma Extended(run: seq<State>, a: Action, s': State)
    requires IsRun(run) && Step(run[|run| - 1], a, s')
    ensures IsRun(run + [s'])
  {
    var cont := run + [s'];
    forall k: nat
      ensures Linked(cont, k)
    {
      if k + 1 < |run| {
        assert Linked(run, k);
      } else if k + 1 == |run| {
        assert CanStep(cont[k], cont[k + 1]);
      }
    }
  }

  lemma {:induction false} PrefixIsRun(run: seq<State>, n: nat)
    requires IsRun(run) && 0 < n <= |run|
    ensures IsRun(run[..n])
  {
    forall k: nat
      ensures Linked(run[..n], k)
    {
      assert Linked(run, k);
    }
  }

  /** An operation in its I/O can always perform its next device event. */
  lemma BusyPerforms(s: State, t: TaskId) returns (a: Action, s': State)
    requires t in s.tasks && s.tasks[t].OpIo?
    ensures Step(s, a, s') && SessionEvent(s, s', s.tasks[t].id)
  {
    var pc := s.tasks[t];
    if pc.phase.Flushing? {
      a := PerformFlush(t);
      s' := Moved(Logged(s, t, pc), t,
        if pc.op.ExecOp? then pc.(phase := Reading) else OpRelease(pc.op, pc.id, pc.handle));
    } else {
      a, s' := Perform(t), Logged(s, t, pc);
    }
    assert Log(s', pc.handle) == Log(s, pc.handle) + [Event(t, PhaseAct(pc.phase))];
  }

  lemma BusyIsNotQuiescent(run: seq<State>, i: nat, id: SessionId)
    requires IsRun(run) && i < |run| && Busy(run[i], id)
    ensures !Quiescent(run, i, id)
  {
    var t :| t in run[i].tasks && run[i].tasks[t].OpIo? && run[i].tasks[t].id == id;
    var a, s' := BusyPerforms(run[i], t);
    PrefixIsRun(run, i + 1);
    Extended(run[..i + 1], a, s');
    var cont := run[..i + 1] + [s'];
    assert Continues(run, i, cont) && SessionEvent(cont[i], cont[i + 1], id);
  }

  lemma IdleIsQuiescent(run: seq<State>, i: nat, id: SessionId)
    requires IsRun(run) && i < |run| && Gone(run[i], id) && !Busy(run[i], id)
    ensures Quiescent(run, i, id)
  {
    forall cont, j | Continues(run, i, cont) && i <= j && j + 1 < |cont|
      ensures !SessionEvent(cont[j], cont[j + 1], id)
    {
      assert cont[i] == cont[..i + 1][i] == run[..i + 1][i] == run[i];
      IdleForever(cont, i, j, id);
    }
  }

  /**
   Any close that has returned Ok, wherever it began: no device event of its session ever happens again,
   however the run goes on, iff no operation on the session is in its I/O at that moment.
   */
  lemma CloseIsQuiescentIff(run: seq<State>, i: nat, t: TaskId, id: SessionId, from: Option<Handle>)
    requires IsRun(run) && i < |run| && t in run[i].tasks && run[i].tasks[t] == CloseDone(id, from, true)
    ensures Quiescent(run, i, id) <==> !Busy(run[i], id)
  {
    var x, o := ReachableKnown(run, i);
    assert OwnOk(run[i], x, o, run[i].tasks[t]);
    if Busy(run[i], id) {
      BusyIsNotQuiescent(run, i, id);
    } else {
      IdleIsQuiescent(run, i, id);
    }
  }

  /** A close that began on a Ready session returns Ok only when no operation is in its I/O. */
  lemma ReadyCloseIsIdle(run: seq<State>, i: nat, t: TaskId, id: SessionId, h: Handle)
    requires IsRun(run) && i < |run| && t in run[i].tasks && run[i].tasks[t] == CloseDone(id, Some(h), true)
    ensures !Busy(run[i], id) && Quiescent(run, i, id)
  {
    var s := run[i];
    var x, o := ReachableKnown(run, i);
    assert OwnOk(s, x, o, s.tasks[t]) && TaskOk(s, x, t, s.tasks[t]);
    forall u | u in s.tasks && s.tasks[u].OpIo?
      ensures s.tasks[u].id != id
    {
      assert OwnOk(s, x, o, s.tasks[u]) && TaskOk(s, x, u, s.tasks[u]);
    }
    CloseIsQuiescentIff(run, i, t, id, Some(h));
  }

  /**
   One port, one operation: two operations in their I/O at the same time are on different paths, unless
   a close that began while one of the sessions was Opening has returned.
   */
  lemma PathsAreExclusive(run: seq<State>, i: nat, t: TaskId, u: TaskId)
    requires IsRun(run) && i < |run|
    requires t in run[i].tasks && u in run[i].tasks && run[i].tasks[t].OpIo? && run[i].tasks[u].OpIo? && t != u
    requires !ClosedEarly(run[i], run[i].tasks[t].id) && !ClosedEarly(run[i], run[i].tasks[u].id)
    ensures run[i].tasks[t].id in run[i].table && run[i].tasks[u].id in run[i].table
    ensures run[i].table[run[i].tasks[t].id].path != run[i].table[run[i].tasks[u].id].path
  {
    var s := run[i];
    var x, o := ReachableKnown(run, i);
    TableInvariant(run, i);
    assert OwnOk(s, x, o, s.tasks[t]) && TaskOk(s, x, t, s.tasks[t]);
    assert OwnOk(s, x, o, s.tasks[u]) && TaskOk(s, x, u, s.tasks[u]);
  }

  lemma {:induction false} FreshNumber(used: set<nat>) returns (n: nat)
    ensures forall k :: k in used ==> k < n
    decreases |used|
  {
    if used == {} {
      n := 0;
    } else {
      var k :| k in used;
      var m := FreshNumber(used - {k});
      n := if m <= k then k + 1 else m;
      forall j | j in used
        ensures j < n
      {
        assert j == k || j in used - {k};
      }
    }
  }

  function Last(run: seq<State>): State
    requires run != []
  {
    run[|run| - 1]
  }

  /** The run with one more step. */
  lemma GoOn(run: seq<State>, a: Action, s': State) returns (cont: seq<State>)
    requires IsRun(run) && Step(Last(run), a, s')
    ensures IsRun(cont) && run <= cont && Last(cont) == s'
  {
    Extended(run, a, s');
    cont := run + [s'];
  }

  /** The backend opens the port, if it has not yet; nobody holds a lock on a port not installed yet. */
  lemma PortArrives(run: seq<State>, u: TaskId, id: SessionId) returns (cont: seq<State>, h: Handle)
    requires IsRun(run) && u in Last(run).tasks
    requires Last(run).tasks[u] == OpenAwait(id) || (Last(run).tasks[u].OpenInstall? && Last(run).tasks[u].id == id)
    ensures IsRun(cont) && run <= cont && h !in Last(cont).locks && Last(cont).table == Last(run).table
    ensures Last(cont).tasks == Last(run).tasks[u := OpenInstall(id, h)]
  {
    var s := Last(run);
    var x, o := ReachableKnown(run, |run| - 1);
    assert TaskOk(s, x, u, s.tasks[u]);
    if s.tasks[u].OpenInstall? {
      cont, h := run, s.tasks[u].handle;
      assert s.tasks == s.tasks[u := OpenInstall(id, h)];
    } else {
      h := FreshNumber(s.usedHandles);
      var s' := Moved(s, u, OpenInstall(id, h)).(usedHandles := s.usedHandles + {h});
      cont := GoOn(run, BackendOpened(u, h), s');
    }
  }

  /** The close takes no port lock: its first section leaves the session Closing, and its last one comes next. */
  lemma ClosesEarly(run: seq<State>, t: TaskId, id: SessionId) returns (cont: seq<State>)
    requires IsRun(run) && t in Last(run).tasks && Last(run).tasks[t] == CloseStart(id)
    requires id in Last(run).table && Last(run).table[id].state.Opening?
    ensures IsRun(cont) && run <= cont && Last(cont).locks == Last(run).locks
    ensures Last(cont).tasks == Last(run).tasks[t := CloseFinish(id, None)]
    ensures id in Last(cont).table && Last(cont).table[id].state == Closing
    ensures Last(cont).table[id].path == Last(run).table[id].path
  {
    var s := Last(run);
    TableInvariant(run, |run| - 1);
    cont := GoOn(run, StartClose(t), Moved(s, t, CloseFinish(id, None)).(table := CloseBegun(s.table, id)));
  }

  /** The port is installed into the session, whatever its state. */
  lemma Installs(run: seq<State>, u: TaskId, id: SessionId, h: Handle) returns (cont: seq<State>)
    requires IsRun(run) && u in Last(run).tasks && Last(run).tasks[u] == OpenInstall(id, h) && id in Last(run).table
    ensures IsRun(cont) && run <= cont && Last(cont).locks == Last(run).locks
    ensures Last(cont).tasks == Last(run).tasks[u := OpenDone(true)]
    ensures id in Last(cont).table && Last(cont).table[id].state.Ready? && Last(cont).table[id].port == Some(h)
    ensures Last(cont).table[id].path == Last(run).table[id].path
  {
    var s := Last(run);
    cont := GoOn(run, InstallPort(u), Moved(s, u, OpenDone(true)).(table := Installed(s.table, id, h)));
  }

  /** A new write checks the port out. */
  lemma WriteWaits(run: seq<State>, id: SessionId, h: Handle) returns (cont: seq<State>, w: TaskId)
    requires IsRun(run) && id in Last(run).table && Last(run).table[id].port == Some(h)
    ensures IsRun(cont) && run <= cont && w !in Last(run).tasks
    ensures Last(cont) == Moved(Last(run), w, OpWait(WriteOp, id, h))
  {
    var s := Last(run);
    w := FreshNumber(s.tasks.Keys);
    var s1 := Moved(s, w, OpStart(WriteOp, id));
    var run1 := GoOn(run, Spawn(w, OpStart(WriteOp, id)), s1);
    cont := GoOn(run1, CheckOut(w), Moved(s1, w, OpWait(WriteOp, id, h)));
    assert Moved(s1, w, OpWait(WriteOp, id, h)) == Moved(s, w, OpWait(WriteOp, id, h));
  }

  /** It gets the lock and passes the second look-up. */
  lemma WriteStarts(run: seq<State>, w: TaskId, id: SessionId, h: Handle) returns (cont: seq<State>)
    requires IsRun(run) && id in Last(run).table && Last(run).table[id].state.Ready?
    requires Last(run).table[id].port == Some(h) && h !in Last(run).locks
    requires w in Last(run).tasks && Last(run).tasks[w] == OpWait(WriteOp, id, h)
    ensures IsRun(cont) && run <= cont && Last(cont).table == Last(run).table
    ensures Last(cont).tasks == Last(run).tasks[w := OpIo(WriteOp, id, h, Writing)]
  {
    var s := Last(run);
    var s1 := Moved(s, w, OpRecheck(WriteOp, id, h)).(locks := s.locks[h := w]);
    var run1 := GoOn(run, GetLock(w), s1);
    cont := GoOn(run1, Recheck(w), Moved(s1, w, OpIo(WriteOp, id, h, Writing)));
    assert s1.tasks[w := OpIo(WriteOp, id, h, Writing)] == s.tasks[w := OpIo(WriteOp, id, h, Writing)];
  }

  /** The close of task `t` on session `id` returns Ok at state `k`, and is not quiescent. */
  ghost predicate FailsAt(run: seq<State>, i: nat, t: TaskId, id: SessionId, cont: seq<State>, k: nat)
    requires i < |run|
  {
    && Continues(run, i, cont) && i <= k < |cont|
    && t in cont[k].tasks && cont[k].tasks[t].CloseDone? && cont[k].tasks[t].id == id && cont[k].tasks[t].ok
    && !Quiescent(cont, k, id)
  }

  lemma CloseReturns(run: seq<State>, t: TaskId, id: SessionId) returns (cont: seq<State>)
    requires IsRun(run) && t in Last(run).tasks && Last(run).tasks[t] == CloseFinish(id, None)
    ensures IsRun(cont) && run <= cont && Last(cont).tasks == Last(run).tasks[t := CloseDone(id, None, true)]
    ensures Last(cont).table == Removed(Last(run).table, id)
  {
    var s := Last(run);
    cont := GoOn(run, EndClose(t), Moved(s, t, CloseDone(id, None, true)).(table := Removed(s.table, id)));
  }

  /** The close returns while a write on the session is in its I/O; path and slot of the session are free again. */
  lemma EarlyCloseReturnsBusy(run: seq<State>, t: TaskId, u: TaskId, id: SessionId)
    returns (cont: seq<State>, w: TaskId, h: Handle)
    requires IsRun(run) && t in Last(run).tasks && u in Last(run).tasks
    requires Last(run).tasks[t] == CloseStart(id) && id in Last(run).table && Last(run).table[id].state.Opening?
    requires Opens(Last(run).tasks[u], id) && !Last(run).tasks[u].OpenAbandon?
    ensures IsRun(cont) && run <= cont && ReserveError(Last(cont).table, Last(run).table[id].path, true) == None
    ensures t in Last(cont).tasks && Last(cont).tasks[t] == CloseDone(id, None, true)
    ensures w in Last(cont).tasks && Last(cont).tasks[w] == OpIo(WriteOp, id, h, Writing)
  {
    var run1 := run;
    run1, h := InstallsEarly(run, t, u, id);
    var run2;
    run2, w := WriteWaits(run1, id, h);
    var run3 := WriteStarts(run2, w, id, h);
    cont := CloseReturns(run3, t, id);
    TableInvariant(run3, |run3| - 1);
    RemovedIsFree(Last(run3).table, id);
    assert Last(cont).tasks[w] == OpIo(WriteOp, id, h, Writing);
  }

  lemma InstallsEarly(run: seq<State>, t: TaskId, u: TaskId, id: SessionId) returns (cont: seq<State>, h: Handle)
    requires IsRun(run) && t in Last(run).tasks && u in Last(run).tasks
    requires Last(run).tasks[t] == CloseStart(id) && id in Last(run).table && Last(run).table[id].state.Opening?
    requires Opens(Last(run).tasks[u], id) && !Last(run).tasks[u].OpenAbandon?
    ensures IsRun(cont) && run <= cont && t in Last(cont).tasks && Last(cont).tasks[t] == CloseFinish(id, None)
    ensures h !in Last(cont).locks && id in Last(cont).table
    ensures Last(cont).table[id] == Entry(id, Last(run).table[id].path, Ready, Some(h))
  {
    var run1;
    run1, h := PortArrives(run, u, id);
    var run2 := ClosesEarly(run1, t, id);
    cont := Installs(run2, u, id, h);
    TableInvariant(cont, |cont| - 1);
  }

  lemma RemovedIsFree(t: Table, id: SessionId)
    requires TableOk(t) && id in t
    ensures ReserveError(Removed(t, id), t[id].path, true) == None
  {
    var u := Removed(t, id);
    assert u.Keys == t.Keys - {id};
    assert |u| == |u.Keys| && |t| == |t.Keys|;
  }

  lemma EarlyCloseFails(run: seq<State>, i: nat, t: TaskId, u: TaskId, id: SessionId) returns (cont: seq<State>)
    requires IsRun(run) && i < |run| && t in run[i].tasks && u in run[i].tasks
    requires run[i].tasks[t] == CloseStart(id) && id in run[i].table && run[i].table[id].state.Opening?
    requires Opens(run[i].tasks[u], id) && !run[i].tasks[u].OpenAbandon?
    ensures cont != [] && FailsAt(run, i, t, id, cont, |cont| - 1)
  {
    PrefixIsRun(run, i + 1);
    var w, h;
    cont, w, h := EarlyCloseReturnsBusy(run[..i + 1], t, u, id);
    BusyIsNotQuiescent(cont, |cont| - 1, id);
  }

  /** A new task reserves a free path under a new id. */
  lemma PathReserved(run: seq<State>, path: Path) returns (cont: seq<State>, u: TaskId, id: SessionId)
    requires IsRun(run) && ReserveError(Last(run).table, path, true) == None
    ensures IsRun(cont) && run <= cont && u !in Last(run).tasks && id !in Last(run).usedIds
    ensures Last(cont).tasks == Last(run).tasks[u := OpenAwait(id)]
    ensures id in Last(cont).table && Last(cont).table[id].path == path
  {
    var s := Last(run);
    var x := ReachableInv(run, |run| - 1);
    u := FreshNumber(s.tasks.Keys);
    id := FreshNumber(s.usedIds);
    var s1 := Moved(s, u, OpenStart(path));
    var run1 := GoOn(run, Spawn(u, OpenStart(path)), s1);
    var s2 := Moved(s1, u, OpenAwait(id)).(table := Reserved(s1.table, path, id), usedIds := s1.usedIds + {id});
    cont := GoOn(run1, ReserveSlot(u, id), s2);
    assert s1.tasks[u := OpenAwait(id)] == s.tasks[u := OpenAwait(id)];
  }

  /** A write on a free path: its session is opened, and the write gets to its I/O beside all other tasks. */
  lemma PathIsWritten(run: seq<State>, path: Path) returns (cont: seq<State>, w: TaskId)
    requires IsRun(run) && ReserveError(Last(run).table, path, true) == None
    ensures IsRun(cont) && run <= cont && w !in Last(run).tasks && w in Last(cont).tasks && Last(cont).tasks[w].OpIo?
    ensures Last(cont).tasks[w].id !in Last(run).usedIds && Last(cont).tasks[w].id in Last(cont).table
    ensures Last(cont).table[Last(cont).tasks[w].id].path == path
    ensures forall v :: v in Last(run).tasks ==> v in Last(cont).tasks && Last(cont).tasks[v] == Last(run).tasks[v]
  {
    var run1, u, id := PathReserved(run, path);
    var run2, h := PortArrives(run1, u, id);
    var run3 := Installs(run2, u, id, h);
    var run4;
    run4, w := WriteWaits(run3, id, h);
    cont := WriteStarts(run4, w, id, h);
  }

  lemma ClosedIsGone(run: seq<State>, t: TaskId, id: SessionId)
    requires IsRun(run) && t in Last(run).tasks && Last(run).tasks[t] == CloseDone(id, None, true)
    ensures Gone(Last(run), id)
  {
    var x, o := ReachableKnown(run, |run| - 1);
    assert OwnOk(Last(run), x, o, Last(run).tasks[t]);
  }

  /** Two operations are in their I/O, on sessions opened for the same path. */
  ghost predicate Overlap(s: State, v: TaskId, id: SessionId, w: TaskId, path: Path) {
    && v in s.tasks && s.tasks[v].OpIo? && s.tasks[v].id == id
    && w in s.tasks && s.tasks[w].OpIo? && s.tasks[w].id != id
    && s.tasks[w].id in s.table && s.table[s.tasks[w].id].path == path
  }

  /**
   Why a path needs the exception: whenever a close of an Opening session is about to begin and its open
   has not failed, some continuation has two operations in their I/O on the session's path at once.
   */
  lemma EarlyCloseOverlaps(run: seq<State>, i: nat, t: TaskId, u: TaskId, id: SessionId)
    returns (cont: seq<State>, v: TaskId, w: TaskId)
    requires IsRun(run) && i < |run| && t in run[i].tasks && u in run[i].tasks
    requires run[i].tasks[t] == CloseStart(id) && id in run[i].table && run[i].table[id].state.Opening?
    requires Opens(run[i].tasks[u], id) && !run[i].tasks[u].OpenAbandon?
    ensures Continues(run, i, cont) && v != w && Overlap(Last(cont), v, id, w, run[i].table[id].path)
  {
    PrefixIsRun(run, i + 1);
    var run1, g := run, 0;
    run1, v, g := EarlyCloseReturnsBusy(run[..i + 1], t, u, id);
    ClosedIsGone(run1, t, id);
    hide TableOk, IsRun, ReserveError;
    cont, w := PathIsWritten(run1, run[i].table[id].path);
    assert run[..i + 1] <= cont;
  }

  /** The open of session `id` by task `u` has failed; no port was ever opened for it. */
  ghost predicate Barren(s: State, x: Aux, o: Owners, id: SessionId, u: TaskId) {
    && IsStage(x, id, Pending(u)) && Unowned(o, id)
    && u in s.tasks && (s.tasks[u] == OpenAbandon(id) || s.tasks[u].OpenDone?)
  }

  /** Only the task that opens a session moves it on from being pending. */
  lemma PendingStays(s: State, x: Aux, a: Action, s': State, id: SessionId, u: TaskId)
    requires LinksOk(s, x) && Step(s, a, s') && IsStage(x, id, Pending(u))
    requires a.t in s.tasks ==> TaskOk(s, x, a.t, s.tasks[a.t])
    requires u in s.tasks && (s.tasks[u] == OpenAbandon(id) || s.tasks[u].OpenDone?)
    ensures IsStage(Follow(s, a, x), id, Pending(u))
  {
  }

  lemma AbandonMoves(s: State, a: Action, s': State, id: SessionId)
    requires Step(s, a, s') && a.t in s.tasks && s.tasks[a.t] == OpenAbandon(id) && a.t in s'.tasks
    ensures s'.tasks[a.t].OpenDone?
  {
  }

  lemma DoneNeverMoves(s: State, a: Action, s': State)
    requires Step(s, a, s') && a.t in s.tasks
    ensures !s.tasks[a.t].OpenDone? && !s.tasks[a.t].CloseDone?
  {
  }

  lemma AbandonedStays(s: State, a: Action, s': State, id: SessionId, u: TaskId)
    requires Step(s, a, s') && u in s.tasks && (s.tasks[u] == OpenAbandon(id) || s.tasks[u].OpenDone?)
    ensures u in s'.tasks && (s'.tasks[u] == OpenAbandon(id) || s'.tasks[u].OpenDone?)
  {
    StepMoves(s, a, s');
    if a.t == u {
      DoneNeverMoves(s, a, s');
      AbandonMoves(s, a, s', id);
    }
  }

  lemma UnownedStays(s: State, x: Aux, o: Owners, a: Action, s': State, id: SessionId, u: TaskId)
    requires Step(s, a, s') && IsStage(x, id, Pending(u)) && Unowned(o, id)
    requires a.t in s.tasks ==> TaskOk(s, x, a.t, s.tasks[a.t])
    requires u in s.tasks && (s.tasks[u] == OpenAbandon(id) || s.tasks[u].OpenDone?)
    ensures Unowned(FollowOwners(s, a, o), id)
  {
  }

  lemma BarrenStays(s: State, x: Aux, o: Owners, a: Action, s': State, id: SessionId, u: TaskId)
    requires Known(s, x, o) && Step(s, a, s') && Barren(s, x, o, id, u)
    ensures Barren(s', Follow(s, a, x), FollowOwners(s, a, o), id, u)
  {
    assert TaskKnown(s, x, o, a.t);
    assert LinksOk(s, x);
    hide Step, Known, TaskOk, OwnOk, LinksOk, Follow, FollowOwners, Unowned;
    PendingStays(s, x, a, s', id, u);
    AbandonedStays(s, a, s', id, u);
    UnownedStays(s, x, o, a, s', id, u);
  }

  lemma BarrenIsIdle(s: State, x: Aux, o: Owners, id: SessionId, u: TaskId)
    requires Known(s, x, o) && Barren(s, x, o, id, u)
    ensures !Busy(s, id)
  {
    forall t | t in s.tasks && s.tasks[t].OpIo?
      ensures s.tasks[t].id != id
    {
      assert OwnOk(s, x, o, s.tasks[t]);
    }
  }

  lemma BarrenStep(s: State, s': State, x: Aux, o: Owners, id: SessionId, u: TaskId) returns (y: Aux, p: Owners)
    requires Known(s, x, o) && CanStep(s, s') && Barren(s, x, o, id, u)
    ensures Known(s', y, p) && Barren(s', y, p, id, u)
  {
    var a :| Step(s, a, s');
    hide Step, Known, Barren;
    StepKeepsKnown(s, x, o, a, s');
    BarrenStays(s, x, o, a, s', id, u);
    y, p := Follow(s, a, x), FollowOwners(s, a, o);
  }

  lemma {:induction false} BarrenForever(run: seq<State>, i: nat, j: nat, x: Aux, o: Owners, id: SessionId, u: TaskId)
    returns (y: Aux, p: Owners)
    requires IsRun(run) && i <= j < |run| && Known(run[i], x, o) && Barren(run[i], x, o, id, u)
    ensures Known(run[j], y, p) && Barren(run[j], y, p, id, u)
    decreases j
  {
    hide Known, Barren, CanStep;
    y, p := x, o;
    if i < j {
      assert Linked(run, j - 1);
      y, p := BarrenForever(run, i, j - 1, x, o, id, u);
      y, p := BarrenStep(run[j - 1], run[j], y, p, id, u);
    }
  }

  lemma FailedOpenStaysIdle(run: seq<State>, i: nat, t: TaskId, u: TaskId, id: SessionId, cont: seq<State>, k: nat)
    requires IsRun(run) && i < |run| && u in run[i].tasks && run[i].tasks[u] == OpenAbandon(id)
    ensures !FailsAt(run, i, t, id, cont, k)
  {
    if FailsAt(run, i, t, id, cont, k) {
      var x, o := ReachableKnown(run, i);
      assert OwnOk(run[i], x, o, run[i].tasks[u]) && TaskOk(run[i], x, u, run[i].tasks[u]);
      assert cont[i] == cont[..i + 1][i] == run[..i + 1][i] == run[i];
      var y, p := BarrenForever(cont, i, k, x, o, id, u);
      BarrenIsIdle(cont[k], y, p, id, u);
      CloseIsQuiescentIff(cont, k, t, id, cont[k].tasks[t].from);
      assert false;
    }
  }

  /**
   Which closes of an Opening session can fail: from every reachable state in which one is about to
   begin, some continuation lets it return Ok and the port be used afterwards, iff the open has not
   already failed.
   */
  lemma OpeningCloseFailsIff(run: seq<State>, i: nat, t: TaskId, id: SessionId)
    requires IsRun(run) && i < |run| && t in run[i].tasks && run[i].tasks[t] == CloseStart(id)
    requires id in run[i].table && run[i].table[id].state.Opening?
    ensures (exists cont, k :: FailsAt(run, i, t, id, cont, k))
      <==> !exists u :: u in run[i].tasks && run[i].tasks[u] == OpenAbandon(id)
  {
    if u :| u in run[i].tasks && run[i].tasks[u] == OpenAbandon(id) {
      forall cont, k
        ensures !FailsAt(run, i, t, id, cont, k)
      {
        FailedOpenStaysIdle(run, i, t, u, id, cont, k);
      }
    } else {
      var x, o := ReachableKnown(run, i);
      assert HasOpener(run[i], id);
      var v :| v in run[i].tasks && Opens(run[i].tasks[v], id);
      var cont := EarlyCloseFails(run, i, t, v, id);
      assert FailsAt(run, i, t, id, cont, |cont| - 1);
    }
  }

  /** A close of a Ready session never fails so, whatever the continuation. */
  lemma ReadyCloseNeverFails(run: seq<State>, i: nat, t: TaskId, id: SessionId, h: Handle, cont: seq<State>, k: nat)
    requires IsRun(run) && i + 1 < |run| && Step(run[i], StartClose(t), run[i + 1])
    requires run[i + 1].tasks[t] == CloseWait(id, h)
    ensures !FailsAt(run, i + 1, t, id, cont, k)
  {
    if FailsAt(run, i + 1, t, id, cont, k) {
      assert cont[i + 1] == cont[..i + 2][i + 1] == run[..i + 2][i + 1] == run[i + 1];
      CloseKeepsPort(cont, i + 1, k, t, id, h);
      ReadyCloseIsIdle(cont, k, t, id, h);
      assert false;
    }
  }

  /** The port a close took stays with it until it returns. */
  predicate ClosesWith(pc: Pc, id: SessionId, h: Handle) {
    || pc == CloseWait(id, h) || pc == CloseHold(id, h) || pc == CloseFinish(id, Some(h)) || pc == CloseRollback(id, h)
    || (pc.CloseDone? && pc.id == id && pc.from == Some(h))
  }

  lemma CloseMoves(s: State, a: Action, s': State, id: SessionId, h: Handle)
    requires Step(s, a, s') && a.t in s.tasks && a.t in s'.tasks && !s.tasks[a.t].CloseDone?
    requires ClosesWith(s.tasks[a.t], id, h)
    ensures ClosesWith(s'.tasks[a.t], id, h)
  {
  }

  lemma CloseStepKeepsPort(s: State, a: Action, s': State, t: TaskId, id: SessionId, h: Handle)
    requires Step(s, a, s') && t in s.tasks && ClosesWith(s.tasks[t], id, h)
    ensures t in s'.tasks && ClosesWith(s'.tasks[t], id, h)
  {
    StepMoves(s, a, s');
    if a.t == t {
      DoneNeverMoves(s, a, s');
      CloseMoves(s, a, s', id, h);
    }
  }

  lemma {:induction false} CloseKeepsPort(run: seq<State>, i: nat, j: nat, t: TaskId, id: SessionId, h: Handle)
    requires IsRun(run) && i <= j < |run| && t in run[i].tasks && ClosesWith(run[i].tasks[t], id, h)
    ensures t in run[j].tasks && ClosesWith(run[j].tasks[t], id, h)
    decreases j
  {
    if i < j {
      CloseKeepsPort(run, i, j - 1, t, id, h);
      assert Linked(run, j - 1);
      var a :| Step(run[j - 1], a, run[j]);
      CloseStepKeepsPort(run[j - 1], a, run[j], t, id, h);
    }
  }
}
