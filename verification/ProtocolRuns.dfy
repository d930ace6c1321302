/** What the invariant gives over whole runs: the table's promises, quiescence, and its exact limit. */
module ProtocolRuns {
  import opened Wrappers
  import opened Sessions
  import opened Manager
  import opened Protocol
  import opened ProtocolSafety

  lemma StepKeepsTable(s: State, a: Action, s': State)
    requires TableOk(s.table) && Step(s, a, s')
    ensures TableOk(s'.table)
  {
    if a.Spawn? { return; }
    var pc := s.tasks[a.t];
    match a {
      case ReserveSlot(_, id) => ReservedKeepsTable(s.table, pc.path, id);
      case InstallPort(_) | RollBack(_) =>
        if pc.id in s.table {
          UpdatedKeepsTable(s.table, pc.id, Ready, Some(pc.handle));
        }
      case StartClose(_) => UpdatedKeepsTable(s.table, pc.id, Closing, None);
      case AbandonOpen(_) | EndClose(_) => RemovedKeepsTable(s.table, pc.id);
      case _ =>
    }
  }

  lemma SomeStepKeepsTable(s: State, s': State)
    requires TableOk(s.table) && CanStep(s, s')
    ensures TableOk(s'.table)
  {
    var a :| Step(s, a, s');
    StepKeepsTable(s, a, s');
  }

  /** In every reachable state the table keeps the session cap, unique paths, and `port` iff `Ready`. */
  lemma {:induction false} TableInvariant(run: seq<State>, i: nat)
    requires IsRun(run) && i < |run|
    ensures TableOk(run[i].table) && |run[i].table| <= 4
  {
    if i > 0 {
      TableInvariant(run, i - 1);
      assert Linked(run, i - 1);
      SomeStepKeepsTable(run[i - 1], run[i]);
    }
  }

  lemma {:induction false} ReachableInv(run: seq<State>, i: nat) returns (x: Aux)
    requires IsRun(run) && i < |run|
    ensures Inv(run[i], x)
  {
    if i == 0 {
      x := INIT_AUX;
    } else {
      var y := ReachableInv(run, i - 1);
      assert Linked(run, i - 1);
      var a :| Step(run[i - 1], a, run[i]);
      StepKeepsInv(run[i - 1], a, run[i], y);
      x := Follow(run[i - 1], a, y);
    }
  }

  lemma RetiredHome(s: State, a: Action, s': State, x: Aux, h: Handle)
    requires LinksOk(s, x) && Step(s, a, s') && IsHome(x, h, Retired)
    requires a.t in s.tasks ==> TaskOk(s, x, a.t, s.tasks[a.t])
    ensures IsHome(Follow(s, a, x), h, Retired)
  {
  }

  lemma QuietStep(s: State, a: Action, s': State)
    requires Step(s, a, s') && !a.Perform? && !a.PerformFlush?
    ensures s'.logs == s.logs
  {
  }

  lemma RetiredLog(s: State, a: Action, s': State, x: Aux, h: Handle)
    requires Step(s, a, s') && IsHome(x, h, Retired) && (a.t in s.tasks ==> TaskOk(s, x, a.t, s.tasks[a.t]))
    ensures Log(s', h) == Log(s, h)
  {
    if !a.Perform? && !a.PerformFlush? {
      QuietStep(s, a, s');
    }
  }

  /** A retired handle stays retired, and no step touches its log. */
  lemma RetiredStays(s: State, a: Action, s': State, x: Aux, h: Handle)
    requires Inv(s, x) && Step(s, a, s') && IsHome(x, h, Retired)
    ensures IsHome(Follow(s, a, x), h, Retired)
    ensures Log(s', h) == Log(s, h)
  {
    assert LinksOk(s, x) && (a.t in s.tasks ==> TaskOk(s, x, a.t, s.tasks[a.t]));
    hide Step, Inv, LinksOk, TaskOk, Follow, Log;
    RetiredHome(s, a, s', x, h);
    RetiredLog(s, a, s', x, h);
  }

  lemma RetiredStep(s: State, s': State, x: Aux, h: Handle) returns (y: Aux)
    requires Inv(s, x) && CanStep(s, s') && IsHome(x, h, Retired)
    ensures Inv(s', y) && IsHome(y, h, Retired)
    ensures Log(s', h) == Log(s, h)
  {
    var a :| Step(s, a, s');
    StepKeepsInv(s, a, s', x);
    RetiredStays(s, a, s', x, h);
    y := Follow(s, a, x);
  }

  lemma {:induction false} RetiredForever(run: seq<State>, i: nat, j: nat, x: Aux, h: Handle) returns (y: Aux)
    requires IsRun(run) && i <= j < |run| && Inv(run[i], x) && IsHome(x, h, Retired)
    ensures Inv(run[j], y) && IsHome(y, h, Retired)
    ensures Log(run[j], h) == Log(run[i], h)
    decreases j
  {
    y := x;
    if i < j {
      var s, s' := run[j - 1], run[j];
      assert Linked(run, j - 1);
      y := RetiredForever(run, i, j - 1, x, h);
      y := RetiredStep(s, s', y, h);
    }
  }

  /**
   Quiescent close: once a close that began on a Ready session has returned Ok, no event ever again
   happens on that port handle, and no session ever offers it again, whichever tasks still hold or
   wait for it.
   */
  lemma QuiescentClose(run: seq<State>, i: nat, j: nat, t: TaskId, id: SessionId, h: Handle)
    requires IsRun(run) && i <= j < |run|
    requires t in run[i].tasks && run[i].tasks[t] == CloseDone(id, Some(h), true)
    ensures Log(run[j], h) == Log(run[i], h)
    ensures forall k :: k in run[j].table ==> run[j].table[k].port != Some(h)
  {
    var x := ReachableInv(run, i);
    assert TaskOk(run[i], x, t, run[i].tasks[t]);
    var y := RetiredForever(run, i, j, x, h);
  }

  /**
   A close that gives up waiting returns an error and puts back the handle it took: the session, if a
   concurrent close of its opening has not removed it, was Closing without a port and is Ready with
   that very handle, which no other session has.
   */
  lemma TimedOutClose(run: seq<State>, i: nat, t: TaskId, id: SessionId, h: Handle)
    requires IsRun(run) && i + 1 < |run| && Step(run[i], RollBack(t), run[i + 1])
    requires run[i].tasks[t] == CloseRollback(id, h)
    ensures run[i + 1].tasks[t] == CloseDone(id, Some(h), false)
    ensures forall k :: k in run[i].table ==> run[i].table[k].port != Some(h)
    ensures id in run[i].table ==>
      && run[i].table[id].state == Closing && run[i].table[id].port == None
      && run[i + 1].table == run[i].table[id := run[i].table[id].(state := Ready, port := Some(h))]
    ensures id !in run[i].table ==> run[i + 1].table == run[i].table
  {
    var x := ReachableInv(run, i);
    TableInvariant(run, i);
    assert TaskOk(run[i], x, t, run[i].tasks[t]);
  }

  /** The last section of a close that began on a Ready session finds it Closing, or already removed. */
  lemma ReadyCloseFindsClosing(run: seq<State>, i: nat, t: TaskId, id: SessionId, h: Handle)
    requires IsRun(run) && i < |run| && t in run[i].tasks && run[i].tasks[t] == CloseFinish(id, Some(h))
    ensures id in run[i].table ==> run[i].table[id].state == Closing
  {
    var x := ReachableInv(run, i);
    assert TaskOk(run[i], x, t, run[i].tasks[t]);
  }

  const EARLY_READY := Entry(7, "tty", Ready, Some(0))

  /** A run in which task 1 closes session 7 while task 0 still opens it, and task 2 writes to it. */
  function Early(k: nat): (State, Action) {
    var opening := Entry(7, "tty", Opening, None);
    var closing := Entry(7, "tty", Closing, None);
    var tasks := map[0 := OpenDone(true), 1 := CloseFinish(7, None)];
    match k
    case 0 => (INIT, Spawn(0, OpenStart("tty")))
    case 1 => (State(map[], map[], map[0 := OpenStart("tty")], map[], {}, {}), ReserveSlot(0, 7))
    case 2 => (State(map[7 := opening], map[], map[0 := OpenAwait(7)], map[], {7}, {}), Spawn(1, CloseStart(7)))
    case 3 =>
      (State(map[7 := opening], map[], map[0 := OpenAwait(7), 1 := CloseStart(7)], map[], {7}, {}), StartClose(1))
    case 4 =>
      (State(map[7 := closing], map[], map[0 := OpenAwait(7), 1 := CloseFinish(7, None)], map[], {7}, {}),
       BackendOpened(0, 0))
    case 5 =>
      (State(map[7 := closing], map[], map[0 := OpenInstall(7, 0), 1 := CloseFinish(7, None)], map[], {7}, {0}),
       InstallPort(0))
    case 6 => (State(map[7 := EARLY_READY], map[], tasks, map[], {7}, {0}), Spawn(2, OpStart(WriteOp, 7)))
    case 7 => (State(map[7 := EARLY_READY], map[], tasks[2 := OpStart(WriteOp, 7)], map[], {7}, {0}), CheckOut(2))
    case 8 => (State(map[7 := EARLY_READY], map[], tasks[2 := OpWait(WriteOp, 7, 0)], map[], {7}, {0}), GetLock(2))
    case 9 =>
      (State(map[7 := EARLY_READY], map[0 := 2], tasks[2 := OpRecheck(WriteOp, 7, 0)], map[], {7}, {0}), Recheck(2))
    case 10 =>
      (State(map[7 := EARLY_READY], map[0 := 2], tasks[2 := OpIo(WriteOp, 7, 0, Writing)], map[], {7}, {0}),
       EndClose(1))
    case 11 =>
      (State(map[], map[0 := 2], tasks[2 := OpIo(WriteOp, 7, 0, Writing)][1 := CloseDone(7, None, true)],
         map[], {7}, {0}), Perform(2))
    case _ =>
      (State(map[], map[0 := 2], tasks[2 := OpIo(WriteOp, 7, 0, Writing)][1 := CloseDone(7, None, true)],
         map[0 := [Event(2, Wrote)]], {7}, {0}), Perform(2))
  }

  function EarlyClose(): seq<State> {
    seq(13, k requires 0 <= k => Early(k).0)
  }

  lemma EarlyReserves(k: nat)
    requires k < 2
    ensures Step(Early(k).0, Early(k).1, Early(k + 1).0)
  {
  }

  lemma EarlyCloses(k: nat)
    requires 2 <= k < 4
    ensures Step(Early(k).0, Early(k).1, Early(k + 1).0)
  {
  }

  lemma EarlyInstalls(k: nat)
    requires 4 <= k < 8
    ensures Step(Early(k).0, Early(k).1, Early(k + 1).0)
  {
  }

  lemma EarlyWrites(k: nat)
    requires 8 <= k < 12
    ensures Step(Early(k).0, Early(k).1, Early(k + 1).0)
  {
    assert [] + [Event(2, Wrote)] == [Event(2, Wrote)];
  }

  lemma EarlyCloseIsRun()
    ensures IsRun(EarlyClose())
  {
    forall k: nat
      ensures Linked(EarlyClose(), k)
    {
      if k >= 12 {
      } else if k < 2 {
        EarlyReserves(k);
      } else if k < 4 {
        EarlyCloses(k);
      } else if k < 8 {
        EarlyInstalls(k);
      } else {
        EarlyWrites(k);
      }
    }
  }

  /**
   The limit of quiescence. A close that began on an Opening session takes no port lock: here it
   returns Ok and the session's port is written afterwards. On the way the port is installed into a
   Closing session and the close finishes on a Ready one, so neither debug assertion of those
   transitions holds.
   */
  lemma OpeningCloseIsNotQuiescent()
    ensures IsRun(EarlyClose())
    ensures EarlyClose()[5].tasks[0] == OpenInstall(7, 0) && EarlyClose()[5].table[7].state == Closing
    ensures EarlyClose()[10].tasks[1] == CloseFinish(7, None) && EarlyClose()[10].table[7].state == Ready
    ensures EarlyClose()[11].tasks[1] == CloseDone(7, None, true)
    ensures EarlyClose()[12].tasks[2] == OpIo(WriteOp, 7, 0, Writing)
    ensures Log(EarlyClose()[12], 0) == Log(EarlyClose()[11], 0) + [Event(2, Wrote)]
  {
    EarlyCloseIsRun();
  }
}
