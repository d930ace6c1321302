/** When the debug assertions of the session transitions hold. */
module ProtocolAsserts {
  import opened Wrappers
  import opened Sessions
  import opened Manager
  import opened Protocol
  import opened ProtocolSafety
  import opened ProtocolRuns
  import opened ProtocolQuiescence
  import opened ProtocolCloses

  /** A port is about to be installed into a session that is not Opening. */
  ghost predicate MeetsNotOpening(s: State, id: SessionId) {
    && id in s.table && !s.table[id].state.Opening?
    && exists u :: u in s.tasks && s.tasks[u].OpenInstall? && s.tasks[u].id == id
  }

  /** The close of task `t` is about to finish on a session that is not Closing. */
  ghost predicate MeetsNotClosing(s: State, t: TaskId, id: SessionId) {
    && id in s.table && !s.table[id].state.Closing?
    && t in s.tasks && s.tasks[t].CloseFinish? && s.tasks[t].id == id
  }

  /** The open of the session has failed, and its placeholder is about to be removed. */
  ghost predicate OpenFailed(s: State, id: SessionId) {
    exists u :: u in s.tasks && s.tasks[u] == OpenAbandon(id)
  }

  /** A close that began on the session while it was Opening is between its two sections. */
  ghost predicate BetweenSections(s: State, id: SessionId) {
    exists t :: t in s.tasks && s.tasks[t] == CloseFinish(id, None)
  }

  ghost predicate IsPending(x: Aux, id: SessionId) {
    id in x.stage && x.stage[id].Pending?
  }

  /** The entry of a session whose port has not been installed: Opening, or Closing by a close in between. */
  ghost predicate EntryOk(s: State, x: Aux, id: SessionId) {
    id in s.table && IsPending(x, id) ==>
      && (s.table[id].state.Opening? || s.table[id].state.Closing?)
      && (s.table[id].state.Opening? <==> !BetweenSections(s, id))
  }

  /** Which steps make or end the stretch between the sections of a close that began Opening. */
  lemma BetweenChanges(s: State, a: Action, s': State, id: SessionId)
    requires Step(s, a, s') && !(a.StartClose? && s.tasks[a.t].id == id) && !(a.EndClose? && s.tasks[a.t].id == id)
    ensures BetweenSections(s', id) <==> BetweenSections(s, id)
  {
    OneTaskMoves(s, a, s');
    forall t | t in s.tasks && s.tasks[t] == CloseFinish(id, None)
      ensures t in s'.tasks && s'.tasks[t] == CloseFinish(id, None)
    {
      FinishWaits(s, a, s', t, id);
    }
    forall t | t in s'.tasks && s'.tasks[t] == CloseFinish(id, None)
      ensures t in s.tasks && s.tasks[t] == CloseFinish(id, None)
    {
      FinishIsReached(s, a, s', t, id);
    }
  }

  lemma FinishMoves(s: State, a: Action, s': State)
    requires Step(s, a, s') && a.t in s.tasks && s.tasks[a.t].CloseFinish?
    ensures a.EndClose?
  {
  }

  lemma FinishWaits(s: State, a: Action, s': State, t: TaskId, id: SessionId)
    requires Step(s, a, s') && t in s.tasks && s.tasks[t] == CloseFinish(id, None)
    requires !(a.EndClose? && s.tasks[a.t].id == id)
    ensures t in s'.tasks && s'.tasks[t] == CloseFinish(id, None)
  {
    StepMoves(s, a, s');
    if a.t == t {
      FinishMoves(s, a, s');
    }
  }

  lemma MovesToFinish(s: State, a: Action, s': State, id: SessionId)
    requires Step(s, a, s') && a.t in s'.tasks && s'.tasks[a.t] == CloseFinish(id, None)
    ensures a.StartClose? && s.tasks[a.t].id == id
  {
  }

  lemma FinishIsReached(s: State, a: Action, s': State, t: TaskId, id: SessionId)
    requires Step(s, a, s') && t in s'.tasks && s'.tasks[t] == CloseFinish(id, None)
    requires !(a.StartClose? && s.tasks[a.t].id == id)
    ensures t in s.tasks && s.tasks[t] == CloseFinish(id, None)
  {
    StepMoves(s, a, s');
    if a.t == t {
      MovesToFinish(s, a, s', id);
    }
  }

  /** A session that is pending after a step was pending before, unless the step reserves it. */
  lemma PendingBefore(s: State, x: Aux, a: Action, s': State, id: SessionId)
    requires Step(s, a, s') && IsPending(Follow(s, a, x), id) && !(a.ReserveSlot? && a.id == id)
    ensures IsPending(x, id)
    ensures (a.InstallPort? || a.RollBack?) && s.tasks[a.t].id == id ==> id !in s.table
  {
  }

  /** Which steps change the entry of a session. */
  lemma EntryChanges(s: State, a: Action, s': State, id: SessionId)
    requires Step(s, a, s') && id in s'.table && !(a.ReserveSlot? && a.id == id)
    requires !((a.InstallPort? || a.RollBack? || a.StartClose?) && s.tasks[a.t].id == id && id in s.table)
    ensures id in s.table && s'.table[id] == s.table[id]
  {
  }

  lemma EntryOfNewSession(s: State, x: Aux, o: Owners, a: Action, s': State, id: SessionId)
    requires Known(s, x, o) && Step(s, a, s') && a.ReserveSlot? && a.id == id
    ensures EntryOk(s', Follow(s, a, x), id)
  {
    forall t | t in s'.tasks
      ensures s'.tasks[t] != CloseFinish(id, None)
    {
      assert t in s.tasks ==> OwnOk(s, x, o, s.tasks[t]);
    }
  }

  lemma EntryOfClosedSession(s: State, x: Aux, a: Action, s': State, id: SessionId)
    requires Inv(s, x) && EntryOk(s, x, id) && TableOk(s.table)
    requires Step(s, a, s') && a.StartClose? && s.tasks[a.t].id == id
    ensures EntryOk(s', Follow(s, a, x), id)
  {
    if IsPending(Follow(s, a, x), id) {
      assert s'.tasks[a.t] == CloseFinish(id, None);
    }
  }

  lemma EntryStaysOk(s: State, x: Aux, o: Owners, a: Action, s': State, id: SessionId)
    requires Known(s, x, o) && EntryOk(s, x, id) && TableOk(s.table) && Step(s, a, s')
    ensures EntryOk(s', Follow(s, a, x), id)
  {
    if a.ReserveSlot? && a.id == id {
      EntryOfNewSession(s, x, o, a, s', id);
    } else if a.StartClose? && s.tasks[a.t].id == id {
      EntryOfClosedSession(s, x, a, s', id);
    } else if id in s'.table && IsPending(Follow(s, a, x), id) {
      EndRemoves(s, a, s', id);
      PendingBefore(s, x, a, s', id);
      hide Step, Follow, Known;
      EntryChanges(s, a, s', id);
      BetweenChanges(s, a, s', id);
    }
  }

  lemma EndRemoves(s: State, a: Action, s': State, id: SessionId)
    requires Step(s, a, s')
    ensures a.EndClose? && s.tasks[a.t].id == id ==> id !in s'.table
  {
  }

  lemma EntryStep(s: State, s': State, x: Aux, o: Owners, id: SessionId) returns (y: Aux, p: Owners)
    requires Known(s, x, o) && EntryOk(s, x, id) && TableOk(s.table) && CanStep(s, s')
    ensures Known(s', y, p) && EntryOk(s', y, id)
  {
    var a :| Step(s, a, s');
    hide Step, Known, EntryOk, TableOk;
    StepKeepsKnown(s, x, o, a, s');
    EntryStaysOk(s, x, o, a, s', id);
    y, p := Follow(s, a, x), FollowOwners(s, a, o);
  }

  lemma {:induction false} ReachableEntry(run: seq<State>, i: nat, id: SessionId) returns (x: Aux, o: Owners)
    requires IsRun(run) && i < |run|
    ensures Known(run[i], x, o) && EntryOk(run[i], x, id)
  {
    if i == 0 {
      x, o := INIT_AUX, map[];
    } else {
      x, o := ReachableEntry(run, i - 1, id);
      TableInvariant(run, i - 1);
      assert Linked(run, i - 1);
      hide CanStep, Known, EntryOk, TableOk;
      x, o := EntryStep(run[i - 1], run[i], x, o, id);
    }
  }

  /**
   The assertion of the installation, state by state: a session that is still in the table when its port
   is to be installed is Opening, iff no close that began on it is between its two sections.
   */
  lemma InstallFindsOpeningIff(run: seq<State>, i: nat, u: TaskId, id: SessionId, h: Handle)
    requires IsRun(run) && i < |run| && u in run[i].tasks && run[i].tasks[u] == OpenInstall(id, h) && id in run[i].table
    ensures run[i].table[id].state == Opening <==> !BetweenSections(run[i], id)
  {
    var x, o := ReachableEntry(run, i, id);
    assert TaskOk(run[i], x, u, run[i].tasks[u]);
  }

  /** The continuation in which the close comes between the backend's open and the installation. */
  lemma CloseComesBetween(run: seq<State>, i: nat, t: TaskId, v: TaskId, id: SessionId)
    returns (cont: seq<State>, h: Handle)
    requires IsRun(run) && i < |run| && t in run[i].tasks && run[i].tasks[t] == CloseStart(id)
    requires id in run[i].table && run[i].table[id].state.Opening?
    requires v in run[i].tasks && Opens(run[i].tasks[v], id) && !run[i].tasks[v].OpenAbandon?
    ensures Continues(run, i, cont) && MeetsNotOpening(Last(cont), id)
    ensures t in Last(cont).tasks && Last(cont).tasks[t] == CloseFinish(id, None)
    ensures v in Last(cont).tasks && Last(cont).tasks[v] == OpenInstall(id, h)
  {
    PrefixIsRun(run, i + 1);
    var run1;
    run1, h := PortArrives(run[..i + 1], v, id);
    cont := ClosesEarly(run1, t, id);
    assert Last(cont).tasks[v] == OpenInstall(id, h);
  }

  /** While a session can be opened only by a task that has failed, nothing is installed into it. */
  lemma BarrenInstallsNothing(s: State, x: Aux, o: Owners, id: SessionId, u: TaskId)
    requires Known(s, x, o) && Barren(s, x, o, id, u)
    ensures !MeetsNotOpening(s, id)
  {
    forall v | v in s.tasks && s.tasks[v].OpenInstall?
      ensures s.tasks[v].id != id
    {
      assert OwnOk(s, x, o, s.tasks[v]);
    }
  }

  lemma FailedOpenIsBarren(run: seq<State>, i: nat, u: TaskId, id: SessionId) returns (x: Aux, o: Owners)
    requires IsRun(run) && i < |run| && u in run[i].tasks && run[i].tasks[u] == OpenAbandon(id)
    ensures Known(run[i], x, o) && Barren(run[i], x, o, id, u)
  {
    x, o := ReachableKnown(run, i);
    assert OwnOk(run[i], x, o, run[i].tasks[u]) && TaskOk(run[i], x, u, run[i].tasks[u]);
  }

  lemma SameState(run: seq<State>, i: nat, cont: seq<State>)
    requires i < |run| && Continues(run, i, cont)
    ensures cont[i] == run[i]
  {
    assert cont[..i + 1][i] == run[..i + 1][i];
  }

  ghost predicate InstallCanMeet(run: seq<State>, i: nat, id: SessionId)
    requires i < |run|
  {
    exists cont, k :: Continues(run, i, cont) && i <= k < |cont| && MeetsNotOpening(cont[k], id)
  }

  lemma FailedOpenNeverInstalls(run: seq<State>, i: nat, u: TaskId, id: SessionId, cont: seq<State>, k: nat)
    requires IsRun(run) && i < |run| && u in run[i].tasks && run[i].tasks[u] == OpenAbandon(id)
    requires Continues(run, i, cont) && i <= k < |cont|
    ensures !MeetsNotOpening(cont[k], id)
  {
    SameState(run, i, cont);
    var x, o := FailedOpenIsBarren(cont, i, u, id);
    var y, p := BarrenForever(cont, i, k, x, o, id, u);
    BarrenInstallsNothing(cont[k], y, p, id, u);
  }

  lemma LiveOpener(run: seq<State>, i: nat, id: SessionId) returns (v: TaskId)
    requires IsRun(run) && i < |run| && id in run[i].table && run[i].table[id].state.Opening? && !OpenFailed(run[i], id)
    ensures v in run[i].tasks && Opens(run[i].tasks[v], id) && !run[i].tasks[v].OpenAbandon?
  {
    var x, o := ReachableKnown(run, i);
    assert HasOpener(run[i], id);
    v :| v in run[i].tasks && Opens(run[i].tasks[v], id);
  }

  /**
   The assertion that a port is installed into an Opening session: when a close of an Opening session is
   about to begin, some continuation makes it fail iff the open has not already failed.
   */
  lemma InstallAssertFailsIff(run: seq<State>, i: nat, t: TaskId, id: SessionId)
    requires IsRun(run) && i < |run| && t in run[i].tasks && run[i].tasks[t] == CloseStart(id)
    requires id in run[i].table && run[i].table[id].state.Opening?
    ensures InstallCanMeet(run, i, id) <==> !OpenFailed(run[i], id)
  {
    if OpenFailed(run[i], id) {
      var u :| u in run[i].tasks && run[i].tasks[u] == OpenAbandon(id);
      forall cont, k | Continues(run, i, cont) && i <= k < |cont|
        ensures !MeetsNotOpening(cont[k], id)
      {
        FailedOpenNeverInstalls(run, i, u, id, cont, k);
      }
    } else {
      var v := LiveOpener(run, i, id);
      var cont, h := CloseComesBetween(run, i, t, v, id);
      assert MeetsNotOpening(cont[|cont| - 1], id);
    }
  }

  /** The close has not begun, has returned, or finds the session Closing or gone. */
  ghost predicate FindsClosing(s: State, t: TaskId, id: SessionId) {
    && t in s.tasks
    && match s.tasks[t]
       case CloseStart(k) => k == id
       case CloseDone(k, _, _) => k == id
       case CloseFinish(k, from) => k == id && from == None && (id in s.table ==> s.table[id].state.Closing?)
       case _ => false
  }

  /** A session without a port is only ever made Closing. */
  lemma BarrenEntryStays(s: State, x: Aux, o: Owners, a: Action, s': State, id: SessionId, u: TaskId)
    requires Barren(s, x, o, id, u) && LinksOk(s, x) && TaskKnown(s, x, o, a.t) && Step(s, a, s')
    requires id in s'.table && id in s.table && s.table[id].state.Closing?
    ensures s'.table[id].state.Closing?
  {
  }

  lemma OwnCloseFindsClosing(s: State, x: Aux, o: Owners, a: Action, s': State, id: SessionId, u: TaskId)
    requires Barren(s, x, o, id, u) && SharedOk(s, x, o) && Step(s, a, s') && a.t in s'.tasks
    requires FindsClosing(s, a.t, id)
    ensures FindsClosing(s', a.t, id)
  {
  }

  lemma IdsDoNotReturn(s: State, a: Action, s': State, id: SessionId)
    requires Step(s, a, s') && id in s'.table && id !in s.table
    ensures id !in s.usedIds
  {
  }

  lemma FindsClosingStays(s: State, x: Aux, o: Owners, a: Action, s': State, t: TaskId, id: SessionId, u: TaskId)
    requires Known(s, x, o) && Barren(s, x, o, id, u) && Step(s, a, s') && FindsClosing(s, t, id)
    ensures FindsClosing(s', t, id)
  {
    assert LinksOk(s, x) && SharedOk(s, x, o) && TaskKnown(s, x, o, a.t) && id in s.usedIds;
    StepMoves(s, a, s');
    if a.t == t {
      OwnCloseFindsClosing(s, x, o, a, s', id, u);
    } else if id in s'.table && s.tasks[t].CloseFinish? {
      if id in s.table {
        BarrenEntryStays(s, x, o, a, s', id, u);
      } else {
        IdsDoNotReturn(s, a, s', id);
      }
    }
  }

  lemma BarrenCloseStep(s: State, s': State, x: Aux, o: Owners, t: TaskId, id: SessionId, u: TaskId)
    returns (y: Aux, p: Owners)
    requires Known(s, x, o) && CanStep(s, s') && Barren(s, x, o, id, u) && FindsClosing(s, t, id)
    ensures Known(s', y, p) && Barren(s', y, p, id, u) && FindsClosing(s', t, id)
  {
    var a :| Step(s, a, s');
    hide Step, Known, Barren, FindsClosing;
    StepKeepsKnown(s, x, o, a, s');
    BarrenStays(s, x, o, a, s', id, u);
    FindsClosingStays(s, x, o, a, s', t, id, u);
    y, p := Follow(s, a, x), FollowOwners(s, a, o);
  }

  lemma {:induction false} BarrenCloseForever(run: seq<State>, i: nat, j: nat, x: Aux, o: Owners, t: TaskId,
      id: SessionId, u: TaskId)
    returns (y: Aux, p: Owners)
    requires IsRun(run) && i <= j < |run| && Known(run[i], x, o) && Barren(run[i], x, o, id, u)
    requires FindsClosing(run[i], t, id)
    ensures Known(run[j], y, p) && Barren(run[j], y, p, id, u) && FindsClosing(run[j], t, id)
    decreases j
  {
    hide Known, Barren, CanStep, FindsClosing;
    y, p := x, o;
    if i < j {
      assert Linked(run, j - 1);
      y, p := BarrenCloseForever(run, i, j - 1, x, o, t, id, u);
      y, p := BarrenCloseStep(run[j - 1], run[j], y, p, t, id, u);
    }
  }

  ghost predicate FinishCanMeet(run: seq<State>, i: nat, t: TaskId, id: SessionId)
    requires i < |run|
  {
    exists cont, k :: Continues(run, i, cont) && i <= k < |cont| && MeetsNotClosing(cont[k], t, id)
  }

  lemma FailedOpenFindsClosing(run: seq<State>, i: nat, t: TaskId, u: TaskId, id: SessionId, cont: seq<State>, k: nat)
    requires IsRun(run) && i < |run| && u in run[i].tasks && run[i].tasks[u] == OpenAbandon(id)
    requires t in run[i].tasks && run[i].tasks[t] == CloseStart(id)
    requires Continues(run, i, cont) && i <= k < |cont|
    ensures !MeetsNotClosing(cont[k], t, id)
  {
    SameState(run, i, cont);
    var x, o := FailedOpenIsBarren(cont, i, u, id);
    var y, p := BarrenCloseForever(cont, i, k, x, o, t, id, u);
  }

  /**
   The assertion that a close finishes on a Closing session: when a close of an Opening session is about
   to begin, some continuation makes it fail iff the open has not already failed.
   */
  lemma FinishAssertFailsIff(run: seq<State>, i: nat, t: TaskId, id: SessionId)
    requires IsRun(run) && i < |run| && t in run[i].tasks && run[i].tasks[t] == CloseStart(id)
    requires id in run[i].table && run[i].table[id].state.Opening?
    ensures FinishCanMeet(run, i, t, id) <==> !OpenFailed(run[i], id)
  {
    if OpenFailed(run[i], id) {
      var u :| u in run[i].tasks && run[i].tasks[u] == OpenAbandon(id);
      forall cont, k | Continues(run, i, cont) && i <= k < |cont|
        ensures !MeetsNotClosing(cont[k], t, id)
      {
        FailedOpenFindsClosing(run, i, t, u, id, cont, k);
      }
    } else {
      var v := LiveOpener(run, i, id);
      var run1, h := CloseComesBetween(run, i, t, v, id);
      var cont := Installs(run1, v, id, h);
      assert cont[..i + 1] == run1[..i + 1];
      assert Last(cont).tasks[t] == CloseFinish(id, None);
      assert MeetsNotClosing(cont[|cont| - 1], t, id);
    }
  }
}
