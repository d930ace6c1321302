/** Reading and writing one port: the loops run under its lock, and the operations built from them. */
module PortIo {
  import opened Wrappers
  import opened Utf8
  import opened PatternMatching
  import opened Echo
  import opened PortSpec

  /** What reading until a match reports. */
  datatype UntilEnd = UntilEnd(status: ExecStatus, bytesRead: nat, details: Option<MatchDetails>)

  /** The report on an execution that was cancelled before it sent anything. */
  function NotSent(cleared: Option<ReadOutcome>): ExecOutcome {
    ExecOutcome(ExecStatus.Cancelled, [], 0, 0, false, None, false, cleared)
  }

  /** How a bounded wait for input ends. */
  datatype Wake = Data(bytes: seq<Byte>) | EndOfInput | Broken | Late | Stopped

  /** One device event, as the port itself sees it. */
  datatype Act =
    | Woke(wake: Wake)
    | SentAll(data: seq<Byte>, failed: Option<SerialError>)
    | Flushed(failed: Option<SerialError>)

  /** Only reads happened since `before`. */
  ghost predicate OnlyReads(before: seq<Act>, after: seq<Act>) {
    before <= after && forall i :: |before| <= i < |after| ==> after[i].Woke?
  }

  /** Bytes were read after `before`, the last time with this result. */
  ghost predicate LastWoke(before: seq<Act>, after: seq<Act>, w: Wake) {
    OnlyReads(before, after) && |before| < |after| && after[|after| - 1] == Woke(w)
  }

  /** What was sent, completely and flushed. */
  ghost function SentAndFlushed(data: seq<Byte>): seq<Act> {
    [SentAll(data, None), Flushed(None)]
  }

  /** The last wait explains the status of reading until a match. */
  predicate StatusFits(w: Wake, status: ExecStatus) {
    match w
    case Data(_) => status.Matched?
    case EndOfInput => status.Matched? || status.Eof?
    case Broken => false
    case Late => status.TimedOut?
    case Stopped => status.Cancelled?
  }

  /** Input was read until a match since `before`, and the last wait explains the status. */
  ghost predicate EndedBy(before: seq<Act>, after: seq<Act>, status: ExecStatus) {
    exists w :: LastWoke(before, after, w) && StatusFits(w, status)
  }

  /**
   A successful execution: the reads that clear, if asked for, then one write, one flush, then reads, the
   last of which explains the status.
   */
  ghost predicate ExecOrder(before: seq<Act>, after: seq<Act>, command: seq<Byte>, clear: bool, status: ExecStatus) {
    exists cleared ::
      && OnlyReads(before, cleared) && (!clear ==> cleared == before)
      && EndedBy(cleared + SentAndFlushed(command), after, status)
  }

  /** The status of a read that did not fill. */
  function ReadStatusOf(w: Wake): Option<ReadStatus> {
    match w
    case EndOfInput => Some(ReadStatus.Eof)
    case Late => Some(ReadStatus.TimedOut)
    case Stopped => Some(ReadStatus.Cancelled)
    case _ => None
  }

  /** The last wait explains how reading until a match ended. */
  predicate Explains(w: Wake, r: Result<UntilEnd, SerialError>) {
    if r.Ok? then StatusFits(w, r.value.status) else w.Broken?
  }

  /** The matcher has seen exactly `s`, and `seen` says whether matching may start. */
  ghost predicate Tracks(w: Window, cap: nat, s: seq<Byte>, echo: EchoMode, ending: LineEnding, seen: bool) {
    && (seen <==> SearchFrom(s, echo, ending).Some?)
    && Refines(w, cap, s, if seen then SearchFrom(s, echo, ending).value else 0)
  }

  lemma SameDetails(find: Regex, live: seq<Byte>, i: nat, live': seq<Byte>, i': nat)
    requires RegexOk(find) && live == live' && i == i'
    ensures Details(find, live, i) == Details(find, live', i')
  {
  }

  lemma TracksShows(find: Regex, w: Window, cap: nat, s: seq<Byte>, echo: EchoMode, ending: LineEnding, seen: bool)
    requires RegexOk(find) && Tracks(w, cap, s, echo, ending, seen)
    ensures VisibleMatch(find, cap, s, echo, ending) == if seen then Details(find, Live(w), w.searchStart) else None
  {
    if seen {
      var windowStart := |s| - |Suffix(s, cap)|;
      SameDetails(find, Live(w), w.searchStart, Suffix(s, cap),
        Max(SearchFrom(s, echo, ending).value, windowStart) - windowStart);
    }
  }

  /** A push keeps what was established about the echo; a new boundary shows in the window first. */
  lemma PushTracks(w: Window, cap: nat, s: seq<Byte>, echo: EchoMode, ending: LineEnding, seen: bool, data: seq<Byte>)
    requires Tracks(w, cap, s, echo, ending, seen) && |data| < cap
    ensures Refines(Pushed(w, cap, data), cap, s + data, if seen then SearchFrom(s, echo, ending).value else 0)
    ensures seen ==> SearchFrom(s + data, echo, ending) == SearchFrom(s, echo, ending)
    ensures !seen ==> echo == LineEcho
    ensures !seen ==>
      SearchFrom(s + data, echo, ending) ==
      (match EchoLineBoundary(Suffix(s + data, cap), ending)
       case None => None
       case Some(b) => Some(|s + data| - |Suffix(s + data, cap)| + b))
  {
    PushRefines(w, cap, s, if seen then SearchFrom(s, echo, ending).value else 0, data);
    if !seen {
      WindowFindsBoundary(s, data, cap, ending);
    } else if echo == LineEcho {
      BoundaryIsStable(s, data, ending);
    }
  }

  /** One chunk more of the stream. */
  lemma NextChunk(find: Regex, cap: nat, s: seq<Byte>, data: seq<Byte>,
      echo: EchoMode, ending: LineEnding, sizes: seq<nat>)
    requires RegexOk(find) && NotVisibleBefore(find, cap, s, echo, ending, sizes) && 0 < |data| <= CHUNK
    requires s != [] ==> VisibleMatch(find, cap, s, echo, ending).None?
    ensures NotVisibleBefore(find, cap, s + data, echo, ending, sizes + [|data|])
  {
    assert (s + data)[..|s|] == s;
    assert (sizes + [|data|])[..|sizes|] == sizes;
  }

  method VisibleMatchDetails(matcher: PatternMatcher, seen: bool) returns (r: Option<MatchDetails>)
    requires matcher.Valid()
    ensures r == if seen then Details(matcher.find, Live(matcher.View()), matcher.searchStart) else None
  {
    if seen {
      r := matcher.FindDetails();
    } else {
      r := None;
    }
  }

  /** One chunk: it is matched at once if the echo is over, and otherwise searched for the end of the echo. */
  method TakeChunk(matcher: PatternMatcher, data: seq<Byte>, seen: bool, echo: EchoMode, ending: LineEnding,
      ghost s: seq<Byte>)
    returns (seen': bool, found: Option<MatchDetails>)
    requires matcher.Valid() && |data| < matcher.maxBuffer
    requires Tracks(matcher.View(), matcher.maxBuffer, s, echo, ending, seen)
    modifies matcher
    ensures matcher.Valid() && Tracks(matcher.View(), matcher.maxBuffer, s + data, echo, ending, seen')
    ensures found == VisibleMatch(matcher.find, matcher.maxBuffer, s + data, echo, ending)
  {
    ghost var cap := matcher.maxBuffer;
    PushTracks(matcher.View(), cap, s, echo, ending, seen, data);
    var matched := false;
    seen', found := seen, None;
    if seen {
      matched := matcher.PushBytes(data);
    } else {
      matcher.PushWithoutMatching(data);
      var boundary := EchoLineBoundary(matcher.buffer[matcher.head..], ending);
      if boundary.Some? {
        AimRefines(matcher.View(), cap, s + data, 0, boundary.value);
        matcher.SetSearchStart(boundary.value);
        seen' := true;
        matched := matcher.IsMatch();
      }
    }
    TracksShows(matcher.find, matcher.View(), cap, s + data, echo, ending, seen');
    if matched {
      found := matcher.FindDetails();
    }
  }

  /** Between two reads: the matcher has followed the stream `s`, and the pattern was not visible at any border. */
  ghost predicate Following(matcher: PatternMatcher, s: seq<Byte>, echo: EchoMode, ending: LineEnding, seen: bool,
      sizes: seq<nat>)
    reads matcher
  {
    && matcher.Valid() && matcher.maxBuffer > CHUNK
    && Tracks(matcher.View(), matcher.maxBuffer, s, echo, ending, seen)
    && (s != [] ==> VisibleMatch(matcher.find, matcher.maxBuffer, s, echo, ending).None?)
    && NotVisibleBefore(matcher.find, matcher.maxBuffer, s, echo, ending, sizes)
  }

  /** The loop has ended after reading `s`, with this report unless the port failed. */
  ghost predicate Ended(matcher: PatternMatcher, s: seq<Byte>, echo: EchoMode, ending: LineEnding,
      r: Result<UntilEnd, SerialError>, sizes: seq<nat>)
    reads matcher
  {
    && matcher.Valid()
    && NotVisibleBefore(matcher.find, matcher.maxBuffer, s, echo, ending, sizes)
    && match r
       case Err(e) => e == Io
       case Ok(end) =>
         && Live(matcher.View()) == Suffix(s, matcher.maxBuffer)
         && UntilReport(matcher.find, matcher.maxBuffer, s, echo, ending, end.status, end.bytesRead, end.details)
  }

  /** One chunk, and the report if the pattern is visible behind it. */
  method Follow(matcher: PatternMatcher, data: seq<Byte>, bytesRead: nat, seen: bool, echo: EchoMode,
      ending: LineEnding, ghost s: seq<Byte>, ghost sizes: seq<nat>)
    returns (seen': bool, end: Option<UntilEnd>)
    requires Following(matcher, s, echo, ending, seen, sizes) && 0 < |data| <= CHUNK && bytesRead == |s|
    modifies matcher
    ensures end.None? ==> Following(matcher, s + data, echo, ending, seen', sizes + [|data|])
    ensures end.Some? ==> Ended(matcher, s + data, echo, ending, Ok(end.value), sizes + [|data|])
    ensures end.Some? ==> end.value.status.Matched?
  {
    hide Details, NotVisibleBefore;
    NextChunk(matcher.find, matcher.maxBuffer, s, data, echo, ending, sizes);
    var found;
    seen', found := TakeChunk(matcher, data, seen, echo, ending, s);
    end := if found.Some? then Some(UntilEnd(Matched, bytesRead + |data|, found)) else None;
  }

  /** The report when no more input is awaited. */
  method Report(matcher: PatternMatcher, w: Wake, bytesRead: nat, seen: bool, echo: EchoMode,
      ending: LineEnding, ghost s: seq<Byte>, ghost sizes: seq<nat>)
    returns (end: UntilEnd)
    requires Following(matcher, s, echo, ending, seen, sizes) && bytesRead == |s| && !w.Data? && !w.Broken?
    ensures Ended(matcher, s, echo, ending, Ok(end), sizes) && Explains(w, Ok(end))
  {
    TracksShows(matcher.find, matcher.View(), matcher.maxBuffer, s, echo, ending, seen);
    var details := VisibleMatchDetails(matcher, seen);
    var status := match w
      case Late => ExecStatus.TimedOut
      case Stopped => ExecStatus.Cancelled
      case _ => if details.Some? then Matched else ExecStatus.Eof;
    end := UntilEnd(status, bytesRead, details);
  }

  lemma FollowsNothing(matcher: PatternMatcher, echo: EchoMode, ending: LineEnding)
    requires matcher.Valid() && matcher.View() == EMPTY && matcher.maxBuffer > CHUNK
    ensures Following(matcher, [], echo, ending, echo != LineEcho, [])
  {
  }

  lemma BrokenEnds(matcher: PatternMatcher, seen: bool, echo: EchoMode, ending: LineEnding,
      s: seq<Byte>, sizes: seq<nat>)
    requires Following(matcher, s, echo, ending, seen, sizes)
    ensures Ended(matcher, s, echo, ending, Err(Io), sizes)
  {
  }

  lemma SliceJoin(s: seq<Byte>, i: nat, j: nat, k: nat)
    requires i <= j <= k <= |s|
    ensures s[i..j] + s[j..k] == s[i..k]
  {
  }

  ghost predicate ClearedBy(d: Device, cleared: Option<ReadOutcome>, d': Device) {
    match cleared
    case None => d' == d
    case Some(o) => ReadStep(d, MAX_READ_BUFFER, Ok(o), d')
  }

  /** Sending a command and reading its answer, with no input cleared in between. */
  ghost predicate AnswerStep(d: Device, command: seq<Byte>, find: Regex, echo: EchoMode, ending: LineEnding,
      cleared: Option<ReadOutcome>, r: Result<ExecOutcome, SerialError>, d': Device)
    requires RegexOk(find)
  {
    && Advances(d, d') && Sent(d, d') <= command
    && match r
       case Ok(o) =>
         && o.commandWritten && o.bytesWritten == |command| && o.cleared == cleared && Sent(d, d') == command
         && UntilOutcome(find, Span(d, d'), echo, ending, o)
       case Err(e) => PossibleSideEffect(e)
  }

  lemma ClearedSpan(d: Device, cleared: Option<ReadOutcome>, d1: Device, d': Device)
    requires d.pos <= |d.incoming| && ClearedBy(d, cleared, d1) && Advances(d1, d')
    ensures Advances(d, d') && Sent(d, d') == Sent(d1, d')
    ensures d1 == d.(pos := d.pos + if cleared.Some? then |cleared.value.data| else 0)
    ensures Span(d, d') == (if cleared.Some? then cleared.value.data else []) + Span(d1, d')
  {
    SliceJoin(d.incoming, d.pos, d1.pos, d'.pos);
  }

  lemma CutFront(a: seq<Byte>, b: seq<Byte>)
    ensures (a + b)[|a|..] == b && a <= a + b
  {
  }

  /** Clearing, sending and reading the answer make one execution. */
  lemma AnsweredIsStep(d: Device, cleared: Option<ReadOutcome>, d1: Device, d': Device, command: seq<Byte>, find: Regex,
      echo: EchoMode, ending: LineEnding, clear: bool, r: Result<ExecOutcome, SerialError>)
    requires RegexOk(find) && |command| <= MAX_WRITE_CHUNK && d.pos <= |d.incoming|
    requires ClearedBy(d, cleared, d1) && cleared.Some? == clear
    requires AnswerStep(d1, command, find, echo, ending, cleared, r, d')
    ensures ExecStep(d, command, find, echo, ending, clear, r, d')
  {
    ClearedSpan(d, cleared, d1, d');
    if r.Ok? {
      CutFront(Cleared(r.value), Span(d1, d'));
    }
  }

  lemma NotSentIsStep(d: Device, cleared: Option<ReadOutcome>, d': Device, command: seq<Byte>, find: Regex,
      echo: EchoMode, ending: LineEnding, clear: bool)
    requires RegexOk(find) && |command| <= MAX_WRITE_CHUNK && d.pos <= |d.incoming|
    requires ClearedBy(d, cleared, d') && cleared.Some? == clear
    ensures ExecStep(d, command, find, echo, ending, clear, Ok(NotSent(cleared)), d')
  {
    ClearedSpan(d, cleared, d', d');
  }

  /** Whether the session can be used: it is looked up before the lock is awaited and again after. */
  method Checkout() returns (refused: Option<SerialError>)
    ensures refused.Some? ==> refused.value == SessionNotFound || refused.value.InvalidState?
  {
    var found: bool, usable: bool, state: SessionState := *, *, *;
    refused := if !found then Some(SessionNotFound) else if !usable then Some(InvalidState(state)) else None;
  }

  method LockPort() returns (refused: Option<SerialError>)
    ensures refused.Some? ==> refused.value == Timeout || refused.value == SerialError.Cancelled
  {
    var late: bool, cancelled: bool := *, *;
    refused := if cancelled then Some(SerialError.Cancelled) else if late then Some(Timeout) else None;
  }

  method IsCancelled() returns (b: bool) {
    b := *;
  }

  class Port {
    const incoming: seq<Byte>
    var pos: nat
    var delivered: seq<Byte>

    /** Every device event so far, in order. */
    ghost var trace: seq<Act>

    ghost predicate Valid()
      reads this
    {
      pos <= |incoming|
    }

    ghost function View(): Device
      reads this
    {
      Device(incoming, pos, delivered)
    }

    /** One read of at most `take` bytes, bounded by a deadline and a cancellation. */
    method Await(take: nat) returns (w: Wake)
      requires Valid() && take > 0
      modifies this`pos, this`trace
      ensures Valid() && old(pos) <= pos && trace == old(trace) + [Woke(w)]
      ensures w.Data? ==> 0 < |w.bytes| <= take && w.bytes == incoming[old(pos)..pos]
      ensures !w.Data? ==> pos == old(pos)
    {
      var n: nat := *;
      w := *;
      if 0 < n <= take && pos + n <= |incoming| {
        w := Data(incoming[pos..pos + n]);
        pos := pos + n;
      } else if w.Data? {
        w := Late;
      }
      trace := trace + [Woke(w)];
    }

    /** Sends bytes; a failure leaves a prefix of them sent. */
    method WriteAll(data: seq<Byte>) returns (error: Option<SerialError>)
      requires Valid()
      modifies this`delivered, this`trace
      ensures Advances(old(View()), View()) && Sent(old(View()), View()) <= data
      ensures error.None? ==> Sent(old(View()), View()) == data
      ensures error.Some? ==> PossibleSideEffect(error.value)
      ensures trace == old(trace) + [SentAll(data, error)]
    {
      var sent: nat, failed: bool := *, *;
      error := LockPort();
      if error.None? && failed {
        error := Some(Io);
      }
      delivered := delivered + if error.Some? && sent <= |data| then data[..sent] else data;
      trace := trace + [SentAll(data, error)];
    }

    method Flush() returns (error: Option<SerialError>)
      modifies this`trace
      ensures error.Some? ==> PossibleSideEffect(error.value)
      ensures trace == old(trace) + [Flushed(error)]
    {
      var failed: bool := *;
      error := LockPort();
      if error.None? && failed {
        error := Some(Io);
      }
      trace := trace + [Flushed(error)];
    }

    method ReadLocked(maxBytes: nat) returns (r: Result<ReadOutcome, SerialError>)
      requires Valid()
      modifies this`pos, this`trace
      ensures Valid() && ReadStep(old(View()), maxBytes, r, View()) && OnlyReads(old(trace), trace)
      ensures r.Err? ==> LastWoke(old(trace), trace, Broken)
      ensures r.Ok? && !r.value.status.Complete? ==>
        exists w :: LastWoke(old(trace), trace, w) && ReadStatusOf(w) == Some(r.value.status)
    {
      var acc := [];
      while |acc| < maxBytes
        invariant Valid() && old(pos) <= pos && |acc| <= maxBytes
        invariant acc == incoming[old(pos)..pos]
        invariant OnlyReads(old(trace), trace)
        decreases maxBytes - |acc|
      {
        var w := Await(Min(maxBytes - |acc|, CHUNK));
        assert LastWoke(old(trace), trace, w);
        match w {
          case Data(bytes) => acc := acc + bytes;
          case EndOfInput => return Ok(ReadOutcome(acc, ReadStatus.Eof, |acc|, false));
          case Broken => return Err(Io);
          case Late => return Ok(ReadOutcome(acc, ReadStatus.TimedOut, |acc|, false));
          case Stopped => return Ok(ReadOutcome(acc, ReadStatus.Cancelled, |acc|, false));
        }
      }
      r := Ok(ReadOutcome(acc, Complete, |acc|, true));
    }

    /** One round of the loop: a chunk is taken, or the report is ready. */
    method ReadMore(matcher: PatternMatcher, bytesRead: nat, seen: bool, echo: EchoMode, ending: LineEnding,
        ghost s: seq<Byte>, ghost sizes: seq<nat>)
      returns (taken: nat, seen': bool, done: Option<Result<UntilEnd, SerialError>>,
        ghost s': seq<Byte>, ghost sizes': seq<nat>)
      requires Valid() && bytesRead == |s| && Following(matcher, s, echo, ending, seen, sizes)
      modifies this`pos, this`trace, matcher
      ensures Valid() && pos == old(pos) + taken && s' == s + incoming[old(pos)..pos]
      ensures |trace| == |old(trace)| + 1 && OnlyReads(old(trace), trace)
      ensures done.Some? ==> Explains(trace[|old(trace)|].wake, done.value)
      ensures done.None? ==> taken > 0 && Following(matcher, s', echo, ending, seen', sizes')
      ensures done.Some? ==> Ended(matcher, s', echo, ending, done.value, sizes')
    {
      hide Following, Ended;
      var w := Await(CHUNK);
      taken, seen', s', sizes' := 0, seen, s, sizes;
      if w.Data? {
        taken, s', sizes' := |w.bytes|, s + w.bytes, sizes + [|w.bytes|];
        var end;
        seen', end := Follow(matcher, w.bytes, bytesRead, seen, echo, ending, s, sizes);
        done := if end.None? then None else Some(Ok(end.value));
      } else if w.Broken? {
        BrokenEnds(matcher, seen, echo, ending, s, sizes);
        done := Some(Err(Io));
      } else {
        var end := Report(matcher, w, bytesRead, seen, echo, ending, s, sizes);
        done := Some(Ok(end));
      }
    }

    method ReadUntilLocked(matcher: PatternMatcher, echo: EchoMode, ending: LineEnding)
      returns (r: Result<UntilEnd, SerialError>, ghost sizes: seq<nat>)
      requires Valid() && matcher.Valid() && matcher.View() == EMPTY && matcher.maxBuffer > CHUNK
      modifies this`pos, this`trace, matcher
      ensures Valid() && old(pos) <= pos
      ensures exists w :: LastWoke(old(trace), trace, w) && Explains(w, r)
      ensures Ended(matcher, incoming[old(pos)..pos], echo, ending, r, sizes)
    {
      hide Following, Ended;
      var bytesRead: nat := 0;
      var seen := echo != LineEcho;
      var done: Option<Result<UntilEnd, SerialError>> := None;
      ghost var s := [];
      sizes := [];
      FollowsNothing(matcher, echo, ending);
      while done.None?
        invariant Valid() && pos == old(pos) + bytesRead && s == incoming[old(pos)..pos]
        invariant OnlyReads(old(trace), trace)
        invariant done.Some? ==> exists w :: LastWoke(old(trace), trace, w) && Explains(w, done.value)
        invariant done.None? ==> Following(matcher, s, echo, ending, seen, sizes)
        invariant done.Some? ==> Ended(matcher, s, echo, ending, done.value, sizes)
        decreases |incoming| - pos + if done.None? then 1 else 0
      {
        var taken, before := 0, pos;
        taken, seen, done, s, sizes := ReadMore(matcher, bytesRead, seen, echo, ending, s, sizes);
        SliceJoin(incoming, old(pos), before, pos);
        bytesRead := bytesRead + taken;
        assert LastWoke(old(trace), trace, trace[|trace| - 1].wake);
      }
      r := done.value;
    }

    method Write(data: seq<Byte>) returns (r: Result<nat, SerialError>)
      requires Valid()
      modifies this
      ensures Valid() && WriteStep(old(View()), data, r, View())
      ensures r.Ok? ==> trace == old(trace) + SentAndFlushed(data)
    {
      var refused := Enter();
      if refused.Some? {
        return Err(refused.value);
      }
      var error := Transmit(data);
      r := if error.Some? then Err(error.value) else Ok(|data|);
    }

    method Enter() returns (refused: Option<SerialError>)
      ensures refused.Some? ==> refused.value != Io
    {
      refused := Checkout();
      if refused.None? {
        refused := LockPort();
      }
      if refused.None? {
        refused := Checkout();
      }
    }

    method Read(maxBytes: nat) returns (r: Result<ReadOutcome, SerialError>)
      requires Valid()
      modifies this`pos, this`trace
      ensures Valid() && ReadStep(old(View()), maxBytes, r, View()) && OnlyReads(old(trace), trace)
    {
      var refused := Enter();
      if refused.Some? {
        return Err(refused.value);
      }
      r := ReadLocked(maxBytes);
    }

    method ReadUntil(pattern: string, find: Regex, compiles: bool) returns (r: Result<ExecOutcome, SerialError>)
      requires Valid() && RegexOk(find)
      modifies this`pos, this`trace
      ensures Valid() && ReadUntilStep(old(View()), find, r, View()) && OnlyReads(old(trace), trace)
      ensures r.Ok? ==> EndedBy(old(trace), trace, r.value.status)
      ensures r.Ok? ==> pattern != "" && compiles
    {
      var refused := Checkout();
      if refused.Some? {
        return Err(refused.value);
      }
      var created := PatternMatcher.Create(pattern, if compiles then Some(find) else None, MAX_READ_BUFFER);
      if created.Err? {
        return Err(created.error);
      }
      refused := LockPort();
      if refused.None? {
        refused := Checkout();
      }
      if refused.Some? {
        return Err(refused.value);
      }
      var matcher := created.value;
      var read, sizes := ReadUntilLocked(matcher, UnknownEcho, NoEnding);
      if read.Err? {
        return Err(read.error);
      }
      var UntilEnd(status, bytesRead, details) := read.value;
      var output := matcher.IntoBuffer();
      r := Ok(ExecOutcome(status, output, 0, bytesRead, |output| >= MAX_READ_BUFFER, details, false, None));
    }

    /** The input that piled up before a command, if it is to be discarded. */
    method ClearFirst(clear: bool) returns (r: Result<Option<ReadOutcome>, SerialError>)
      requires Valid()
      modifies this`pos, this`trace
      ensures Valid() && Advances(old(View()), View()) && delivered == old(delivered)
      ensures OnlyReads(old(trace), trace) && (!clear ==> trace == old(trace))
      ensures r.Ok? ==> r.value.Some? == clear
      ensures r.Ok? ==> ClearedBy(old(View()), r.value, View())
      ensures r.Err? ==> PossibleSideEffect(r.error) || View() == old(View())
    {
      if !clear {
        return Ok(None);
      }
      var outcome := ReadLocked(MAX_READ_BUFFER);
      r := if outcome.Err? then Err(outcome.error) else Ok(Some(outcome.value));
    }

    method Transmit(command: seq<Byte>) returns (error: Option<SerialError>)
      requires Valid()
      modifies this`delivered, this`trace
      ensures Advances(old(View()), View()) && Sent(old(View()), View()) <= command
      ensures error.None? ==> Sent(old(View()), View()) == command
      ensures error.Some? ==> PossibleSideEffect(error.value)
      ensures error.None? ==> trace == old(trace) + SentAndFlushed(command)
    {
      error := WriteAll(command);
      if error.None? {
        error := Flush();
      }
    }

    /** Sends a command, and reads its answer from what the device sends next. */
    method SendAndAnswer(matcher: PatternMatcher, command: seq<Byte>, cleared: Option<ReadOutcome>, echo: EchoMode,
        ending: LineEnding)
      returns (r: Result<ExecOutcome, SerialError>)
      requires Valid() && matcher.Valid() && matcher.View() == EMPTY && matcher.maxBuffer == MAX_READ_BUFFER
      modifies this, matcher
      ensures Valid() && AnswerStep(old(View()), command, matcher.find, echo, ending, cleared, r, View())
      ensures r.Ok? ==> EndedBy(old(trace) + SentAndFlushed(command), trace, r.value.status)
    {
      var error := Transmit(command);
      if error.Some? {
        return Err(error.value);
      }
      var read, sizes := ReadUntilLocked(matcher, echo, ending);
      if read.Err? {
        return Err(read.error);
      }
      var UntilEnd(status, bytesRead, details) := read.value;
      var output := matcher.IntoBuffer();
      r := Ok(ExecOutcome(status, output, |command|, bytesRead, |output| >= MAX_READ_BUFFER, details, true, cleared));
    }

    /** What precedes the port lock, and getting it; no matcher if the call was cancelled by then. */
    method Prepare(command: seq<Byte>, pattern: string, find: Regex, compiles: bool)
      returns (r: Result<Option<PatternMatcher>, SerialError>)
      requires RegexOk(find)
      ensures r.Ok? ==> pattern != "" && compiles && |command| <= MAX_WRITE_CHUNK
      ensures r.Ok? && r.value.Some? ==>
        var m := r.value.value;
        fresh(m) && m.Valid() && m.View() == EMPTY && m.find == find && m.maxBuffer == MAX_READ_BUFFER
    {
      if |command| > MAX_WRITE_CHUNK {
        return Err(InvalidParam("command"));
      }
      var refused := Checkout();
      if refused.Some? {
        return Err(refused.value);
      }
      var created := PatternMatcher.Create(pattern, if compiles then Some(find) else None, MAX_READ_BUFFER);
      if created.Err? {
        return Err(created.error);
      }
      var cancelled := IsCancelled();
      if cancelled {
        return Ok(None);
      }
      refused := LockPort();
      if refused.None? {
        refused := Checkout();
      }
      r := if refused.Some? then Err(refused.value) else Ok(Some(created.value));
    }

    method Exec(command: seq<Byte>, pattern: string, find: Regex, compiles: bool, clear: bool, echo: EchoMode,
        ending: LineEnding)
      returns (r: Result<ExecOutcome, SerialError>)
      requires Valid() && RegexOk(find)
      modifies this
      ensures Valid() && ExecStep(old(View()), command, find, echo, ending, clear, r, View())
      ensures r.Ok? ==> pattern != "" && compiles
      ensures r.Ok? && r.value.commandWritten ==> ExecOrder(old(trace), trace, command, clear, r.value.status)
      ensures r.Ok? && !r.value.commandWritten ==> OnlyReads(old(trace), trace)
    {
      var ready := Prepare(command, pattern, find, compiles);
      if ready.Err? {
        r := Err(ready.error);
      } else if ready.value.None? {
        r := Ok(NotSent(None));
      } else {
        r := ExecLocked(ready.value.value, command, clear, echo, ending);
      }
    }

    /** The part of an execution that holds the port lock. */
    method ExecLocked(matcher: PatternMatcher, command: seq<Byte>, clear: bool, echo: EchoMode, ending: LineEnding)
      returns (r: Result<ExecOutcome, SerialError>)
      requires Valid() && matcher.Valid() && matcher.View() == EMPTY && matcher.maxBuffer == MAX_READ_BUFFER
      requires |command| <= MAX_WRITE_CHUNK
      modifies this, matcher
      ensures Valid() && ExecStep(old(View()), command, matcher.find, echo, ending, clear, r, View())
      ensures r.Ok? && r.value.commandWritten ==> ExecOrder(old(trace), trace, command, clear, r.value.status)
      ensures r.Ok? && !r.value.commandWritten ==> OnlyReads(old(trace), trace)
    {
      ghost var d := View();
      var cleared := ClearFirst(clear);
      if cleared.Err? {
        return Err(cleared.error);
      }
      ghost var d1 := View();
      var cancelled := IsCancelled();
      if cancelled {
        r := Ok(NotSent(cleared.value));
        NotSentIsStep(d, cleared.value, d1, command, matcher.find, echo, ending, clear);
      } else {
        r := SendAndAnswer(matcher, command, cleared.value, echo, ending);
        AnsweredIsStep(d, cleared.value, d1, View(), command, matcher.find, echo, ending, clear, r);
      }
    }
  }
}
