/** Whole runs of operations on one port: no byte is invented, reordered, or lost unnoticed. */
module PortRuns {
  import opened Wrappers
  import opened Utf8
  import opened LossyOffset
  import opened LossyProperties
  import opened PatternMatching
  import opened Echo
  import opened PortSpec
  import C = Console

  datatype Op =
    | WriteBytes(data: seq<Byte>)
    | ReadBytes(maxBytes: nat)
    | ReadUntilMatch(find: Regex)
    | Execute(command: seq<Byte>, find: Regex, echo: EchoMode, ending: LineEnding, clear: bool)

  datatype Reply =
    | Wrote(written: Result<nat, SerialError>)
    | Got(read: Result<ReadOutcome, SerialError>)
    | Ran(outcome: Result<ExecOutcome, SerialError>)

  /** One operation in the order in which the port lock was granted, and the device behind it. */
  datatype Event = Event(op: Op, reply: Reply, after: Device)

  ghost predicate OpOk(op: Op) {
    (op.ReadUntilMatch? || op.Execute?) ==> RegexOk(op.find)
  }

  ghost predicate Step(d: Device, e: Event) {
    && OpOk(e.op)
    && match e.op
       case WriteBytes(data) => e.reply.Wrote? && WriteStep(d, data, e.reply.written, e.after)
       case ReadBytes(maxBytes) => e.reply.Got? && ReadStep(d, maxBytes, e.reply.read, e.after)
       case ReadUntilMatch(find) => e.reply.Ran? && ReadUntilStep(d, find, e.reply.outcome, e.after)
       case Execute(command, find, echo, ending, clear) =>
         e.reply.Ran? && ExecStep(d, command, find, echo, ending, clear, e.reply.outcome, e.after)
  }

  function Final(d: Device, run: seq<Event>): Device {
    if run == [] then d else run[|run| - 1].after
  }

  ghost predicate IsRun(d: Device, run: seq<Event>) {
    run != [] ==>
      && IsRun(d, run[..|run| - 1])
      && Step(Final(d, run[..|run| - 1]), run[|run| - 1])
  }

  predicate Succeeded(r: Reply) {
    match r
    case Wrote(w) => w.Ok?
    case Got(g) => g.Ok?
    case Ran(o) => o.Ok?
  }

  predicate AllSucceeded(run: seq<Event>) {
    forall i :: 0 <= i < |run| ==> Succeeded(run[i].reply)
  }

  /** The input a reply hands to the caller. */
  function Returned(r: Reply): seq<Byte>
    requires Succeeded(r)
  {
    match r
    case Wrote(_) => []
    case Got(g) => g.value.data
    case Ran(o) => Cleared(o.value) + o.value.output
  }

  function AllReturned(run: seq<Event>): seq<Byte>
    requires AllSucceeded(run)
  {
    if run == [] then [] else AllReturned(run[..|run| - 1]) + Returned(run[|run| - 1].reply)
  }

  /** How much input a reply says was read. */
  function Counted(r: Reply): nat
    requires Succeeded(r)
  {
    match r
    case Wrote(_) => 0
    case Got(g) => g.value.bytesRead
    case Ran(o) => |Cleared(o.value)| + o.value.bytesRead
  }

  function AllCounted(run: seq<Event>): nat
    requires AllSucceeded(run)
  {
    if run == [] then 0 else AllCounted(run[..|run| - 1]) + Counted(run[|run| - 1].reply)
  }

  /** More was read until a match than a reply can hold. */
  predicate Overflowed(r: Reply) {
    r.Ran? && r.outcome.Ok? && r.outcome.value.bytesRead > MAX_READ_BUFFER
  }

  predicate Truncated(r: Reply) {
    r.Ran? && r.outcome.Ok? && r.outcome.value.truncated
  }

  /** What a reply says was sent. */
  function Delivered(op: Op, r: Reply): seq<Byte>
    requires Succeeded(r)
  {
    if op.WriteBytes? then op.data
    else if op.Execute? && r.Ran? && r.outcome.value.commandWritten then op.command
    else []
  }

  function AllDelivered(run: seq<Event>): seq<Byte>
    requires AllSucceeded(run)
  {
    if run == [] then []
    else AllDelivered(run[..|run| - 1]) + Delivered(run[|run| - 1].op, run[|run| - 1].reply)
  }

  lemma StepAdvances(d: Device, e: Event)
    requires Step(d, e)
    ensures Advances(d, e.after)
  {
  }

  lemma AdvancesTwice(d: Device, d1: Device, d2: Device)
    requires Advances(d, d1) && Advances(d1, d2)
    ensures Advances(d, d2)
    ensures Span(d, d2) == Span(d, d1) + Span(d1, d2)
    ensures Sent(d, d2) == Sent(d, d1) + Sent(d1, d2)
  {
  }

  /** A run consumes a stretch of the device stream and only appends to what was delivered. */
  lemma {:induction false} RunAdvances(d: Device, run: seq<Event>)
    requires IsRun(d, run) && d.pos <= |d.incoming|
    ensures Advances(d, Final(d, run))
  {
    if run != [] {
      var front, last := run[..|run| - 1], run[|run| - 1];
      RunAdvances(d, front);
      StepAdvances(Final(d, front), last);
      AdvancesTwice(d, Final(d, front), last.after);
    }
  }

  /** What a successful step returns is what it consumed, unless it overflowed; the count is always exact. */
  lemma StepReturns(d: Device, e: Event)
    requires Step(d, e) && Succeeded(e.reply)
    ensures Advances(d, e.after) && Counted(e.reply) == |Span(d, e.after)|
    ensures !Overflowed(e.reply) ==> Returned(e.reply) == Span(d, e.after)
    ensures |Returned(e.reply)| <= |Span(d, e.after)|
    ensures Overflowed(e.reply) ==> |Returned(e.reply)| < |Span(d, e.after)|
    ensures Overflowed(e.reply) ==> Truncated(e.reply)
    ensures Sent(d, e.after) == Delivered(e.op, e.reply)
  {
    if e.op.Execute? {
      var span, cleared := Span(d, e.after), Cleared(e.reply.outcome.value);
      assert span == cleared + span[|cleared|..];
    }
  }

  lemma AllSucceededFront(run: seq<Event>)
    requires AllSucceeded(run) && run != []
    ensures AllSucceeded(run[..|run| - 1]) && Succeeded(run[|run| - 1].reply)
  {
  }

  lemma {:induction false} CountsAreExact(d: Device, run: seq<Event>)
    requires IsRun(d, run) && d.pos <= |d.incoming| && AllSucceeded(run)
    ensures Advances(d, Final(d, run)) && AllCounted(run) == |Span(d, Final(d, run))|
    ensures Sent(d, Final(d, run)) == AllDelivered(run)
  {
    if run != [] {
      var front, last := run[..|run| - 1], run[|run| - 1];
      AllSucceededFront(run);
      CountsAreExact(d, front);
      StepReturns(Final(d, front), last);
      AdvancesTwice(d, Final(d, front), last.after);
    }
  }

  ghost predicate NoneOverflowed(run: seq<Event>) {
    forall i :: 0 <= i < |run| ==> !Overflowed(run[i].reply)
  }

  lemma NoneOverflowedFront(run: seq<Event>)
    requires run != []
    ensures NoneOverflowed(run) <==> NoneOverflowed(run[..|run| - 1]) && !Overflowed(run[|run| - 1].reply)
  {
    var front := run[..|run| - 1];
    assert NoneOverflowed(run) ==> forall i :: 0 <= i < |front| ==> front[i] == run[i];
  }

  lemma {:induction false} ReturnsTellLoss(d: Device, run: seq<Event>)
    requires IsRun(d, run) && d.pos <= |d.incoming| && AllSucceeded(run)
    ensures Advances(d, Final(d, run)) && |AllReturned(run)| <= |Span(d, Final(d, run))|
    ensures AllReturned(run) == Span(d, Final(d, run)) <==> NoneOverflowed(run)
  {
    if run != [] {
      var front, last := run[..|run| - 1], run[|run| - 1];
      var before := Final(d, front);
      AllSucceededFront(run);
      ReturnsTellLoss(d, front);
      NoneOverflowedFront(run);
      StepReturns(before, last);
      AdvancesTwice(d, before, last.after);
      JoinTells(AllReturned(front), Span(d, before), Returned(last.reply), Span(before, last.after));
    }
  }

  /**
   Byte conservation: when every operation succeeds, the reported counts add up to the stretch of the
   stream that was consumed, and what was sent is what the replies say. The returned bytes, in lock
   order, are that stretch exactly when no answer overflowed its buffer.
   */
  lemma ByteConservation(d: Device, run: seq<Event>)
    requires IsRun(d, run) && d.pos <= |d.incoming| && AllSucceeded(run)
    ensures Advances(d, Final(d, run))
    ensures AllCounted(run) == |Span(d, Final(d, run))|
    ensures Sent(d, Final(d, run)) == AllDelivered(run)
    ensures AllReturned(run) == Span(d, Final(d, run)) <==> NoneOverflowed(run)
  {
    CountsAreExact(d, run);
    ReturnsTellLoss(d, run);
  }

  /** Two joined pieces that are not longer than their counterparts agree with them iff both do. */
  lemma JoinTells(a: seq<Byte>, a': seq<Byte>, b: seq<Byte>, b': seq<Byte>)
    requires |a| <= |a'| && |b| <= |b'|
    ensures a + b == a' + b' <==> a == a' && b == b'
  {
    if a + b == a' + b' {
      assert |a| == |a'| && |b| == |b'|;
      assert a == (a + b)[..|a|] && a' == (a' + b')[..|a|];
      assert b == (a + b)[|a|..] && b' == (a' + b')[|a|..];
    }
  }

  /** `truncated` is reported whenever bytes were lost. */
  lemma UntruncatedLosesNothing(d: Device, run: seq<Event>)
    requires IsRun(d, run) && d.pos <= |d.incoming| && AllSucceeded(run)
    requires forall i :: 0 <= i < |run| ==> !Truncated(run[i].reply)
    ensures Advances(d, Final(d, run)) && AllReturned(run) == Span(d, Final(d, run))
  {
    forall i | 0 <= i < |run|
      ensures !Overflowed(run[i].reply)
    {
      StepAt(d, run, i);
      StepReturns(Final(d, run[..i]), run[i]);
    }
    ByteConservation(d, run);
  }

  lemma {:induction false} StepAt(d: Device, run: seq<Event>, i: nat)
    requires IsRun(d, run) && i < |run|
    ensures IsRun(d, run[..i]) && Step(Final(d, run[..i]), run[i])
  {
    if i < |run| - 1 {
      StepAt(d, run[..|run| - 1], i);
      assert run[..|run| - 1][..i] == run[..i];
    }
  }

  /** The stream an execution read for its answer. */
  ghost function AnswerStream(d: Device, o: ExecOutcome, d': Device): seq<Byte>
    requires Advances(d, d') && Cleared(o) <= Span(d, d')
  {
    Span(d, d')[|Cleared(o)|..]
  }

  /** Where in its window a matcher searches behind position `b` of the stream. */
  function InWindow(b: nat, streamLength: nat, windowLength: nat): nat
    requires windowLength <= streamLength
  {
    Max(0, b - (streamLength - windowLength))
  }

  lemma DetailsReport(find: Regex, live: seq<Byte>, cursor: nat)
    requires RegexOk(find)
    ensures var at := MapOffset(live, cursor);
      && at <= |Text(live)| && IsCharBoundary(Text(live), at)
      && Reports(find, Text(live), at, Details(find, live, cursor))
  {
    MappedOffsetIsSafe(live, cursor, cursor);
    FoundReports(find, Text(live), MapOffset(live, cursor));
  }

  lemma VisibleIsDetails(find: Regex, s: seq<Byte>, echo: EchoMode, ending: LineEnding)
    requires RegexOk(find)
    ensures var from := if echo == LineEcho then EchoLineBoundary(s, ending) else Some(0);
      var live := Suffix(s, MAX_READ_BUFFER);
      VisibleMatch(find, MAX_READ_BUFFER, s, echo, ending) ==
        if from.Some? then Details(find, live, InWindow(from.value, |s|, |live|)) else None
  {
    hide Details, EchoLineBoundary;
  }

  /**
   What the report on a stream says, whatever the echo mode: the regular expression was applied to the
   text of the output from one character boundary on, the reported range and text are exactly its match
   there, and nothing is reported iff it finds none or the echoed line has not ended.
   */
  lemma ReportIsTheMatch(find: Regex, s: seq<Byte>, echo: EchoMode, ending: LineEnding, o: ExecOutcome)
    returns (at: nat)
    requires RegexOk(find) && UntilOutcome(find, s, echo, ending, o)
    ensures |o.output| <= |s|
    ensures o.bytesRead == |s| && (o.truncated <==> |s| >= 65536)
    ensures o.output == if |s| <= 65536 then s else s[|s| - 65536..]
    ensures echo != LineEcho ==> at == MapOffset(o.output, 0)
    ensures echo == LineEcho && EchoLineBoundary(s, ending).Some? ==>
      at == MapOffset(o.output, InWindow(EchoLineBoundary(s, ending).value, |s|, |o.output|))
    ensures at <= |Text(o.output)| && IsCharBoundary(Text(o.output), at)
    ensures if echo == LineEcho && EchoLineBoundary(s, ending).None? then o.details.None?
      else Reports(find, Text(o.output), at, o.details)
  {
    var from := if echo == LineEcho then EchoLineBoundary(s, ending) else Some(0);
    var cursor := if from.Some? then InWindow(from.value, |s|, |o.output|) else 0;
    at := MapOffset(o.output, cursor);
    VisibleIsDetails(find, s, echo, ending);
    hide Details, MapOffset, Text, Reports, IsCharBoundary, ReadStepwise, VisibleMatch, EchoLineBoundary;
    DetailsReport(find, o.output, cursor);
  }

  /** What a successful read-until reports is what the regular expression finds. */
  lemma ReadUntilFinds(d: Device, find: Regex, o: ExecOutcome, d': Device) returns (at: nat)
    requires RegexOk(find) && ReadUntilStep(d, find, Ok(o), d')
    ensures o.bytesRead == |Span(d, d')| && (o.truncated <==> o.bytesRead >= 65536)
    ensures at == MapOffset(o.output, 0)
    ensures at <= |Text(o.output)| && IsCharBoundary(Text(o.output), at)
    ensures Reports(find, Text(o.output), at, o.details)
  {
    at := ReportIsTheMatch(find, Span(d, d'), UnknownEcho, NoEnding, o);
  }

  /** What an execution that sent its command reports is what the regular expression finds behind the echo. */
  lemma ExecFinds(d: Device, command: seq<Byte>, find: Regex, echo: EchoMode, ending: LineEnding, clear: bool,
      o: ExecOutcome, d': Device) returns (at: nat)
    requires RegexOk(find) && ExecStep(d, command, find, echo, ending, clear, Ok(o), d') && o.commandWritten
    ensures |o.output| <= |AnswerStream(d, o, d')|
    ensures o.bytesRead == |AnswerStream(d, o, d')| && (o.truncated <==> o.bytesRead >= 65536)
    ensures echo != LineEcho ==> at == MapOffset(o.output, 0)
    ensures echo == LineEcho && EchoLineBoundary(AnswerStream(d, o, d'), ending).Some? ==>
      at == MapOffset(o.output, InWindow(EchoLineBoundary(AnswerStream(d, o, d'), ending).value,
        |AnswerStream(d, o, d')|, |o.output|))
    ensures at <= |Text(o.output)| && IsCharBoundary(Text(o.output), at)
    ensures if echo == LineEcho && EchoLineBoundary(AnswerStream(d, o, d'), ending).None? then o.details.None?
      else Reports(find, Text(o.output), at, o.details)
  {
    at := ReportIsTheMatch(find, AnswerStream(d, o, d'), echo, ending, o);
  }

  /**
   No match inside the echo: on a line-echo console a match is reported only behind the first
   terminator of the whole answer, whatever the chunks were. The analysis of the output cuts the echo at
   that same place iff the whole terminator is still in the output, as it is when nothing was truncated;
   otherwise it cuts at a later one, or reports no command output at all.
   */
  lemma MatchIsBehindEcho(d: Device, command: seq<Byte>, find: Regex, clear: bool,
      o: ExecOutcome, d': Device, s: C.Settings)
    requires RegexOk(find) && s.echoMode == LineEcho && o.commandWritten && o.details.Some?
    requires ExecStep(d, command, find, LineEcho, s.lineEnding, clear, Ok(o), d')
    ensures var answer, m := AnswerStream(d, o, d'), o.details.value;
      && EchoLineBoundary(answer, s.lineEnding).Some?
      && m.start <= m.end <= |Text(o.output)| && m.text == Text(o.output)[m.start..m.end]
      && (!o.truncated ==> o.output == answer && C.Boundary(o.output, s) == EchoLineBoundary(answer, s.lineEnding))
      && ((C.Boundary(o.output, s).Some?
           && |answer| - |o.output| + C.Boundary(o.output, s).value == EchoLineBoundary(answer, s.lineEnding).value)
          <==> |answer| - |o.output| + |Terminator(s.lineEnding)| <= EchoLineBoundary(answer, s.lineEnding).value)
      && |o.output| <= |answer|
      && MapOffset(o.output, InWindow(EchoLineBoundary(answer, s.lineEnding).value, |answer|, |o.output|)) <= m.start
  {
    var at := ExecFinds(d, command, find, LineEcho, s.lineEnding, clear, o, d');
    WindowAgreesIff(AnswerStream(d, o, d'), MAX_READ_BUFFER, s.lineEnding);
  }
}
