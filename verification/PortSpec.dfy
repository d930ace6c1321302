/** What one operation on a port may do to the device, and what it reports. */
module PortSpec {
  import opened Wrappers
  import opened Utf8
  import opened PatternMatching
  import opened Echo

  const MAX_READ_BUFFER: nat := 65536
  const MAX_WRITE_CHUNK: nat := 4096

  /** The most bytes one read returns. */
  const CHUNK: nat := 4096

  /** All bytes the device ever sends, how many of them were consumed, and all bytes delivered to it. */
  datatype Device = Device(incoming: seq<Byte>, pos: nat, delivered: seq<Byte>)

  datatype ReadStatus = Complete | TimedOut | Eof | Cancelled

  datatype ReadOutcome = ReadOutcome(data: seq<Byte>, status: ReadStatus, bytesRead: nat, truncated: bool)

  datatype ExecStatus = Matched | TimedOut | Eof | Cancelled

  datatype ExecOutcome = ExecOutcome(status: ExecStatus, output: seq<Byte>, bytesWritten: nat, bytesRead: nat,
    truncated: bool, details: Option<MatchDetails>, commandWritten: bool, cleared: Option<ReadOutcome>)

  /** Errors that leave open whether bytes were sent or consumed. */
  predicate PossibleSideEffect(e: SerialError) {
    e.Io? || e.Timeout? || e.Cancelled?
  }

  /** Input only moves forward, and what was delivered stays delivered. */
  ghost predicate Advances(d: Device, d': Device) {
    && d'.incoming == d.incoming && d.pos <= d'.pos <= |d.incoming|
    && d.delivered <= d'.delivered
  }

  /** The input consumed between two states. */
  ghost function Span(d: Device, d': Device): seq<Byte>
    requires Advances(d, d')
  {
    d.incoming[d.pos..d'.pos]
  }

  /** What was sent between two states. */
  ghost function Sent(d: Device, d': Device): seq<Byte>
    requires Advances(d, d')
  {
    d'.delivered[|d.delivered|..]
  }

  /** A read returns all it consumed, at most `maxBytes`, and reports truncation exactly when that filled. */
  ghost predicate ReadStep(d: Device, maxBytes: nat, r: Result<ReadOutcome, SerialError>, d': Device) {
    && Advances(d, d') && d'.delivered == d.delivered
    && match r
       case Ok(o) =>
         && o.data == Span(d, d') && o.bytesRead == |o.data| <= maxBytes
         && (o.truncated <==> |o.data| == maxBytes) && (o.status.Complete? <==> |o.data| == maxBytes)
       case Err(e) => PossibleSideEffect(e) || d' == d
  }

  /** Where in the stream read so far matching may start: behind the echo of a line-mode console. */
  function SearchFrom(s: seq<Byte>, echo: EchoMode, ending: LineEnding): (from: Option<nat>)
    ensures from.Some? ==> from.value <= |s|
  {
    if echo == LineEcho then EchoLineBoundary(s, ending) else Some(0)
  }

  /** What a matcher must see after reading `s`, in whatever chunks: a function of the stream alone. */
  function VisibleMatch(find: Regex, cap: nat, s: seq<Byte>, echo: EchoMode, ending: LineEnding): Option<MatchDetails>
    requires RegexOk(find)
  {
    match SearchFrom(s, echo, ending)
    case None => None
    case Some(from) =>
      var windowStart := |s| - |Suffix(s, cap)|;
      Details(find, Suffix(s, cap), Max(from, windowStart) - windowStart)
  }

  /** The report on a stream `s` read until a match. */
  ghost predicate UntilReport(find: Regex, cap: nat, s: seq<Byte>, echo: EchoMode, ending: LineEnding,
      status: ExecStatus, bytesRead: nat, details: Option<MatchDetails>)
    requires RegexOk(find)
  {
    && bytesRead == |s| && details == VisibleMatch(find, cap, s, echo, ending)
    && (status.Matched? ==> details.Some?)
    && (status.Eof? ==> details.None?)
    && (details.Some? ==> status.Matched? || s == [])
  }

  /** `s` arrived in chunks of these sizes, and at no border before the last was the pattern visible. */
  ghost predicate NotVisibleBefore(find: Regex, cap: nat, s: seq<Byte>, echo: EchoMode,
      ending: LineEnding, sizes: seq<nat>)
    requires RegexOk(find)
    decreases |sizes|
  {
    if sizes == [] then s == []
    else
      var n := sizes[|sizes| - 1];
      && 0 < n <= CHUNK && n <= |s|
      && (n < |s| ==> VisibleMatch(find, cap, s[..|s| - n], echo, ending).None?)
      && NotVisibleBefore(find, cap, s[..|s| - n], echo, ending, sizes[..|sizes| - 1])
  }

  /** `s` arrived in chunks, and reading stopped at the first border where the pattern was visible, if any. */
  ghost predicate ReadStepwise(find: Regex, cap: nat, s: seq<Byte>, echo: EchoMode, ending: LineEnding)
    requires RegexOk(find)
  {
    exists sizes :: NotVisibleBefore(find, cap, s, echo, ending, sizes)
  }

  /** The outcome of a read-until over the stream `s`. */
  ghost predicate UntilOutcome(find: Regex, s: seq<Byte>, echo: EchoMode, ending: LineEnding, o: ExecOutcome)
    requires RegexOk(find)
  {
    && UntilReport(find, MAX_READ_BUFFER, s, echo, ending, o.status, o.bytesRead, o.details)
    && o.output == Suffix(s, MAX_READ_BUFFER)
    && (o.truncated <==> |s| >= MAX_READ_BUFFER)
    && ReadStepwise(find, MAX_READ_BUFFER, s, echo, ending)
  }

  ghost predicate WriteStep(d: Device, data: seq<Byte>, r: Result<nat, SerialError>, d': Device) {
    && Advances(d, d') && d'.pos == d.pos && Sent(d, d') <= data
    && match r
       case Ok(n) => n == |data| && Sent(d, d') == data
       case Err(e) => PossibleSideEffect(e) || d' == d
  }

  ghost predicate ReadUntilStep(d: Device, find: Regex, r: Result<ExecOutcome, SerialError>, d': Device)
    requires RegexOk(find)
  {
    && Advances(d, d') && d'.delivered == d.delivered
    && match r
       case Ok(o) =>
         && UntilOutcome(find, Span(d, d'), UnknownEcho, NoEnding, o)
         && o.bytesWritten == 0 && !o.commandWritten && o.cleared.None?
       case Err(e) => PossibleSideEffect(e) || d' == d
  }

  /** How much an execution discarded before it wrote. */
  function Cleared(o: ExecOutcome): seq<Byte> {
    if o.cleared.Some? then o.cleared.value.data else []
  }

  /**
   An execution reports exactly what it sent: all of the command or none of it. The input it consumed
   is what it cleared and then what it read for the match.
   */
  ghost predicate ExecStep(d: Device, command: seq<Byte>, find: Regex, echo: EchoMode, ending: LineEnding,
      clear: bool, r: Result<ExecOutcome, SerialError>, d': Device)
    requires RegexOk(find)
  {
    && Advances(d, d') && Sent(d, d') <= command
    && match r
       case Ok(o) =>
         && |command| <= MAX_WRITE_CHUNK
         && Sent(d, d') == (if o.commandWritten then command else []) && o.bytesWritten == |Sent(d, d')|
         && (o.cleared.Some? ==>
             clear && ReadStep(d, MAX_READ_BUFFER, Ok(o.cleared.value), d.(pos := d.pos + |Cleared(o)|)))
         && Cleared(o) <= Span(d, d')
         && (if o.commandWritten
             then (clear ==> o.cleared.Some?) && UntilOutcome(find, Span(d, d')[|Cleared(o)|..], echo, ending, o)
             else Span(d, d') == Cleared(o) && o.status.Cancelled? && o.output == [] && o.bytesRead == 0
                  && !o.truncated && o.details.None?)
       case Err(e) => PossibleSideEffect(e) || d' == d
  }
}
