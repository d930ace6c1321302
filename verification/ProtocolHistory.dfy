/**
 The link between the concurrent protocol and the operations on one port: if every operation that has a
 port to itself meets its contract, then so does every concurrent history, in the order of the lock.
 */
module ProtocolHistory {
  import opened Wrappers
  import opened Sessions
  import opened Protocol
  import opened ProtocolRuns
  import opened ProtocolAtomic
  import S = PortSpec
  import P = PortRuns

  /** What a task was asked to do, and what it answered. */
  datatype Job = Job(op: P.Op, reply: P.Reply)

  /** Draining is a read. */
  predicate Performs(op: Op, job: P.Op) {
    match op
    case WriteOp => job.WriteBytes?
    case ReadOp => job.ReadBytes?
    case ReadUntilOp => job.ReadUntilMatch?
    case DrainOp => job.ReadBytes?
    case ExecOp(clear) => job.Execute? && job.clear == clear
  }

  /** The operation's I/O has ended, in whatever way. */
  predicate Settled(s: State, t: TaskId) {
    t in s.tasks && (s.tasks[t].OpRelease? || s.tasks[t].OpDone?)
  }

  /** Events `a..b` of the log are all that `t` did there, and nobody else's. */
  predicate Stretch(log: seq<Event>, t: TaskId, a: nat, b: nat) {
    a < b <= |log| && forall i :: 0 <= i < |log| ==> (log[i].task == t <==> a <= i < b)
  }

  /**
   `dev[i]` is the device before event `i` of the log and `dev[i + 1]` the one behind it. Each operation
   whose events took the device from one state to another without interruption met its contract.
   */
  ghost predicate Fulfils(s: State, log: seq<Event>, dev: seq<S.Device>, jobs: map<TaskId, Job>) {
    && |dev| == |log| + 1
    && forall t, a: nat, b: nat :: Settled(s, t) && Stretch(log, t, a, b) ==>
         && t in jobs && Performs(s.tasks[t].op, jobs[t].op)
         && P.Step(dev[a], P.Event(jobs[t].op, jobs[t].reply, dev[b]))
  }

  /** How many events some segments hold. */
  function Size(cut: seq<Segment>): nat {
    if cut == [] then 0 else Size(cut[..|cut| - 1]) + |cut[|cut| - 1].acts|
  }

  /** The segments lie in the log one behind the other, without gaps. */
  predicate Tiles(log: seq<Event>, cut: seq<Segment>) {
    && Size(cut) == |log|
    && forall k :: 0 <= k < |cut| ==> Stretch(log, cut[k].task, Size(cut[..k]), Size(cut[..k + 1]))
  }

  lemma StretchStays(log: seq<Event>, t: TaskId, a: nat, b: nat, e: Event)
    requires Stretch(log, t, a, b) && e.task != t
    ensures Stretch(log + [e], t, a, b)
  {
  }

  lemma StretchGrows(log: seq<Event>, a: nat, e: Event)
    requires Stretch(log, e.task, a, |log|)
    ensures Stretch(log + [e], e.task, a, |log| + 1)
  {
  }

  lemma StretchStarts(log: seq<Event>, e: Event)
    requires !Occurs(log, e.task)
    ensures Stretch(log + [e], e.task, |log|, |log| + 1)
  {
  }

  lemma ContinuedTiles(log: seq<Event>, cut: seq<Segment>, e: Event)
    requires Tiles(log, cut) && AllWhole(log, cut) && cut != [] && cut[|cut| - 1].task == e.task
    ensures Tiles(log + [e], Extended(cut, e))
  {
    var grown, n := Extended(cut, e), |cut| - 1;
    assert grown[..n] == cut[..n] && cut[..n + 1] == cut && grown[..n + 1] == grown;
    hide Stretch, IsWhole;
    forall k | 0 <= k < |grown|
      ensures Stretch(log + [e], grown[k].task, Size(grown[..k]), Size(grown[..k + 1]))
    {
      if k < n {
        assert grown[..k] == cut[..k] && grown[..k + 1] == cut[..k + 1];
        StretchStays(log, cut[k].task, Size(cut[..k]), Size(cut[..k + 1]), e);
      } else {
        StretchGrows(log, Size(cut[..n]), e);
      }
    }
  }

  lemma StartedTiles(log: seq<Event>, cut: seq<Segment>, e: Event)
    requires Tiles(log, cut) && AllWhole(log, cut) && !Occurs(log, e.task)
    ensures Tiles(log + [e], cut + [Segment(e.task, [e.act])])
  {
    var grown, n := cut + [Segment(e.task, [e.act])], |cut|;
    assert grown[..n] == cut && grown[..n + 1] == grown;
    StretchStarts(log, e);
    hide Stretch, Occurs;
    forall k | 0 <= k < |grown|
      ensures Stretch(log + [e], grown[k].task, Size(grown[..k]), Size(grown[..k + 1]))
    {
      if k < n {
        assert grown[..k] == cut[..k] && grown[..k + 1] == cut[..k + 1];
        assert IsWhole(log, cut[k]);
        StretchStays(log, cut[k].task, Size(cut[..k]), Size(cut[..k + 1]), e);
      }
    }
  }

  lemma ExtendedTiles(log: seq<Event>, cut: seq<Segment>, e: Event)
    requires Tiles(log, cut) && AllWhole(log, cut) && Contiguous(log + [e])
    ensures Tiles(log + [e], Extended(cut, e))
  {
    hide Tiles, Contiguous, IsWhole, Occurs;
    if cut != [] && cut[|cut| - 1].task == e.task {
      ContinuedTiles(log, cut, e);
    } else {
      NewTaskIsNew(log, e);
      StartedTiles(log, cut, e);
    }
  }

  lemma {:induction false} SegmentsTile(log: seq<Event>)
    requires Contiguous(log)
    ensures Tiles(log, Segments(log))
  {
    if log != [] {
      var init, e := log[..|log| - 1], log[|log| - 1];
      SegmentsTile(init);
      SegmentsAreWhole(init);
      assert log == init + [e];
      ExtendedTiles(init, Segments(init), e);
    }
  }

  /** The operations of some segments, in their order, as events of a run on the port. */
  function History(cut: seq<Segment>, dev: seq<S.Device>, jobs: map<TaskId, Job>): (r: seq<P.Event>)
    requires Size(cut) < |dev| && forall k :: 0 <= k < |cut| ==> cut[k].task in jobs
    ensures |r| == |cut|
  {
    if cut == [] then []
    else
      var front, job := cut[..|cut| - 1], jobs[cut[|cut| - 1].task];
      History(front, dev, jobs) + [P.Event(job.op, job.reply, dev[Size(cut)])]
  }

  ghost predicate AllSettled(s: State, cut: seq<Segment>) {
    forall k :: 0 <= k < |cut| ==> Settled(s, cut[k].task)
  }

  lemma SizeOfPrefix(cut: seq<Segment>, n: nat)
    requires n <= |cut|
    ensures Size(cut[..n]) <= Size(cut)
  {
    if n < |cut| {
      SizeOfPrefix(cut[..|cut| - 1], n);
      assert cut[..|cut| - 1][..n] == cut[..n];
    } else {
      assert cut[..n] == cut;
    }
  }

  /** A settled segment is one step of the run. */
  lemma SegmentIsStep(s: State, log: seq<Event>, dev: seq<S.Device>, jobs: map<TaskId, Job>, cut: seq<Segment>, k: nat)
    requires Tiles(log, cut) && Fulfils(s, log, dev, jobs) && k < |cut| && Settled(s, cut[k].task)
    ensures cut[k].task in jobs && Size(cut[..k]) < Size(cut[..k + 1]) < |dev|
    ensures Performs(s.tasks[cut[k].task].op, jobs[cut[k].task].op)
    ensures P.Step(dev[Size(cut[..k])],
      P.Event(jobs[cut[k].task].op, jobs[cut[k].task].reply, dev[Size(cut[..k + 1])]))
  {
    hide P.Step;
    assert Stretch(log, cut[k].task, Size(cut[..k]), Size(cut[..k + 1]));
  }

  lemma {:induction false} SettledIsRun(s: State, log: seq<Event>, dev: seq<S.Device>, jobs: map<TaskId, Job>,
      cut: seq<Segment>, n: nat)
    requires Tiles(log, cut) && Fulfils(s, log, dev, jobs) && n <= |cut| && AllSettled(s, cut[..n])
    ensures Size(cut[..n]) < |dev| && forall k :: 0 <= k < n ==> cut[..n][k].task in jobs
    ensures P.IsRun(dev[0], History(cut[..n], dev, jobs))
    ensures P.Final(dev[0], History(cut[..n], dev, jobs)) == dev[Size(cut[..n])]
  {
    hide P.Step, Stretch, Settled, Performs;
    SizeOfPrefix(cut, n);
    if n > 0 {
      assert cut[..n][..n - 1] == cut[..n - 1] && cut[..n][n - 1] == cut[n - 1];
      assert AllSettled(s, cut[..n - 1]);
      SettledIsRun(s, log, dev, jobs, cut, n - 1);
      SegmentIsStep(s, log, dev, jobs, cut, n - 1);
      var history := History(cut[..n], dev, jobs);
      assert history[..n - 1] == History(cut[..n - 1], dev, jobs);
    }
  }

  /** The operations on port `h` whose I/O has ended: all of them, or all but the one that holds the lock. */
  function Ended(s: State, h: Handle): (cut: seq<Segment>)
    ensures cut <= Segments(Log(s, h))
  {
    var cut := Segments(Log(s, h));
    if cut != [] && !Settled(s, cut[|cut| - 1].task) then cut[..|cut| - 1] else cut
  }

  /** Only the last segment's operation can still be in its I/O. */
  lemma EndedIsSettled(run: seq<State>, i: nat, h: Handle, k: nat)
    requires IsRun(run) && i < |run| && k < |Segments(Log(run[i], h))|
    requires var t := Segments(Log(run[i], h))[k].task;
      k < |Segments(Log(run[i], h))| - 1 || (t in run[i].tasks && !run[i].tasks[t].OpIo?)
    ensures Settled(run[i], Segments(Log(run[i], h))[k].task)
  {
    ReachableLogs(run, i);
    var s, log := run[i], Log(run[i], h);
    AtomicOperations(run, i, h, k);
    var cut := Segments(log);
    var t := cut[k].task;
    if k < |cut| - 1 {
      SegmentsTile(log);
      assert Stretch(log, t, Size(cut[..k]), Size(cut[..k + 1]));
      assert Stretch(log, cut[k + 1].task, Size(cut[..k + 1]), Size(cut[..k + 2]));
      assert TaskLogOk(s, t, s.tasks[t]);
      var last := Size(cut[..k + 1]);
      assert log[last - 1].task == t && log[last].task != t;
    }
  }

  /**
   In every reachable state the operations that used a port and have ended form, in the order of their
   device events, a sequential run on its device: each starts where the one before left the device, and
   the last leaves it as it is now, or as the operation that still holds the port found it.
   */
  lemma HistoryIsRun(run: seq<State>, i: nat, h: Handle, dev: seq<S.Device>, jobs: map<TaskId, Job>)
    requires IsRun(run) && i < |run| && Fulfils(run[i], Log(run[i], h), dev, jobs)
    ensures var cut := Ended(run[i], h);
      && AllSettled(run[i], cut)
      && (forall k :: 0 <= k < |cut| ==> cut[k].task in jobs)
      && (forall k :: 0 <= k < |cut| ==> Performs(run[i].tasks[cut[k].task].op, jobs[cut[k].task].op))
      && Size(cut) < |dev|
      && P.IsRun(dev[0], History(cut, dev, jobs))
      && P.Final(dev[0], History(cut, dev, jobs)) == dev[Size(cut)]
      && (cut == Segments(Log(run[i], h)) ==> Size(cut) == |Log(run[i], h)|)
  {
    var s, log := run[i], Log(run[i], h);
    ReachableLogs(run, i);
    SegmentsTile(log);
    var all, cut := Segments(log), Ended(s, h);
    hide P.Step, P.IsRun, Stretch, Performs;
    assert AllSettled(s, cut) by {
      forall k | 0 <= k < |cut|
        ensures Settled(s, cut[k].task)
      {
        if k < |all| - 1 {
          EndedIsSettled(run, i, h, k);
        }
      }
    }
    assert all[..|cut|] == cut;
    SettledIsRun(s, log, dev, jobs, all, |cut|);
    forall k | 0 <= k < |cut|
      ensures cut[k].task in jobs && Performs(s.tasks[cut[k].task].op, jobs[cut[k].task].op)
    {
      SegmentIsStep(s, log, dev, jobs, all, k);
    }
  }

  lemma {:induction false} RepliesSucceeded(cut: seq<Segment>, dev: seq<S.Device>, jobs: map<TaskId, Job>)
    requires Size(cut) < |dev| && forall k :: 0 <= k < |cut| ==> cut[k].task in jobs
    requires forall t :: t in jobs ==> P.Succeeded(jobs[t].reply)
    ensures P.AllSucceeded(History(cut, dev, jobs))
  {
    if cut != [] {
      RepliesSucceeded(cut[..|cut| - 1], dev, jobs);
    }
  }

  /**
   No byte is lost or given out twice between concurrent operations: when all that have ended succeeded,
   the counts they reported add up to the stretch of the stream consumed since the port was opened, what
   was delivered to the device is what they say they sent, and what they returned, in the order of the
   lock, is that stretch exactly when no answer overflowed its buffer.
   */
  lemma ConcurrentConservation(run: seq<State>, i: nat, h: Handle, dev: seq<S.Device>, jobs: map<TaskId, Job>)
    requires IsRun(run) && i < |run| && Fulfils(run[i], Log(run[i], h), dev, jobs)
    requires dev[0].pos <= |dev[0].incoming|
    requires forall t :: t in jobs ==> P.Succeeded(jobs[t].reply)
    ensures var cut := Ended(run[i], h);
      && Size(cut) < |dev| && (forall k :: 0 <= k < |cut| ==> cut[k].task in jobs)
      && var history, now := History(cut, dev, jobs), dev[Size(cut)];
      && P.AllSucceeded(history) && S.Advances(dev[0], now)
      && P.AllCounted(history) == |S.Span(dev[0], now)|
      && S.Sent(dev[0], now) == P.AllDelivered(history)
      && (P.AllReturned(history) == S.Span(dev[0], now) <==> P.NoneOverflowed(history))
  {
    HistoryIsRun(run, i, h, dev, jobs);
    var cut := Ended(run[i], h);
    RepliesSucceeded(cut, dev, jobs);
    P.ByteConservation(dev[0], History(cut, dev, jobs));
  }
}
