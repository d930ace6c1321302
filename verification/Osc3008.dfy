/** OSC 3008 command markers: scanning, parsing, and extracting the output of one command. */
module Osc3008 {
  import opened Wrappers
  import opened Utf8
  import opened Search

  const BELL: Byte := 0x07
  const ESCAPE: Byte := 0x1B
  const BACKSLASH: Byte := 0x5C
  const SEMICOLON: Byte := 0x3B

  /** `ESC ]3008;` */
  const PREFIX: seq<Byte> := [0x1B, 0x5D, 0x33, 0x30, 0x30, 0x38, 0x3B]

  const START: seq<Byte> := [0x73, 0x74, 0x61, 0x72, 0x74, 0x3D]                                            // start=
  const END: seq<Byte> := [0x65, 0x6E, 0x64, 0x3D]                                                          // end=
  const TYPE_COMMAND: seq<Byte> :=  // type=command
    [0x74, 0x79, 0x70, 0x65, 0x3D, 0x63, 0x6F, 0x6D, 0x6D, 0x61, 0x6E, 0x64]
  const EXIT_SUCCESS: seq<Byte> :=  // exit=success
    [0x65, 0x78, 0x69, 0x74, 0x3D, 0x73, 0x75, 0x63, 0x63, 0x65, 0x73, 0x73]
  const EXIT_FAILURE: seq<Byte> :=  // exit=failure
    [0x65, 0x78, 0x69, 0x74, 0x3D, 0x66, 0x61, 0x69, 0x6C, 0x75, 0x72, 0x65]
  const STATUS: seq<Byte> := [0x73, 0x74, 0x61, 0x74, 0x75, 0x73, 0x3D]                                      // status=

  lemma Spelled(bytes: seq<Byte>, text: string)
    requires |bytes| == |text| && forall i :: 0 <= i < |text| ==> bytes[i] == text[i] as int < 0x80
    ensures bytes == Encode(text)
  {
    AsciiIsItself(text);
  }

  /** What the marker grammar consists of, as text. */
  lemma GrammarIsSpelled()
    ensures PREFIX == Encode("\U{1B}]3008;") && START == Encode("start=") && END == Encode("end=")
    ensures TYPE_COMMAND == Encode("type=command") && STATUS == Encode("status=")
    ensures EXIT_SUCCESS == Encode("exit=success") && EXIT_FAILURE == Encode("exit=failure")
    ensures [SEMICOLON] == Encode(";") && [BELL] == Encode("\U{7}") && [ESCAPE, BACKSLASH] == Encode("\U{1B}\\")
  {
    hide Encode, EncodeChar;
    Spelled(PREFIX, "\U{1B}]3008;");
    Spelled(START, "start=");
    Spelled(END, "end=");
    Spelled(TYPE_COMMAND, "type=command");
    Spelled(STATUS, "status=");
    Spelled(EXIT_SUCCESS, "exit=success");
    Spelled(EXIT_FAILURE, "exit=failure");
    Spelled([SEMICOLON], ";");
    Spelled([BELL], "\U{7}");
    Spelled([ESCAPE, BACKSLASH], "\U{1B}\\");
  }

  datatype Kind = Start | End

  datatype ExitStatus = Success | Failure

  /** What the fields behind the id say. */
  datatype Attributes = Attributes(command: bool, status: Option<ExitStatus>, exitCode: Option<int>)

  datatype Marker = Marker(start: nat, end: nat, id: seq<Byte>, kind: Kind, attributes: Attributes)

  datatype Command = Command(output: seq<Byte>, status: Option<ExitStatus>, exitCode: Option<int>)

  /** Splits at every `;`; there is always a first field. */
  function Split(s: seq<Byte>): (fields: seq<seq<Byte>>)
    ensures fields != []
  {
    if s == [] then [[]]
    else if s[0] == SEMICOLON then [[]] + Split(s[1..])
    else var rest := Split(s[1..]); [[s[0]] + rest[0]] + rest[1..]
  }

  function Join(fields: seq<seq<Byte>>): seq<Byte>
    requires fields != []
  {
    if |fields| == 1 then fields[0] else fields[0] + [SEMICOLON] + Join(fields[1..])
  }

  predicate IsDigits(s: seq<Byte>) {
    forall i :: 0 <= i < |s| ==> 0x30 <= s[i] <= 0x39
  }

  function DigitsValue(s: seq<Byte>): nat
    requires IsDigits(s)
  {
    if s == [] then 0 else 10 * DigitsValue(s[..|s| - 1]) + s[|s| - 1] - 0x30
  }

  /** A signed 32-bit decimal: an optional sign, at least one digit, and no overflow. */
  function ParseI32(s: seq<Byte>): Option<int> {
    var signed := s != [] && (s[0] == 0x2B || s[0] == 0x2D);
    var digits := if signed then s[1..] else s;
    if digits == [] || !IsDigits(digits) then None
    else
      var value: int := if signed && s[0] == 0x2D then 0 - DigitsValue(digits) else DigitsValue(digits);
      if -0x8000_0000 <= value <= 0x7FFF_FFFF then Some(value) else None
  }

  function ReadField(a: Attributes, field: seq<Byte>): Attributes {
    if field == TYPE_COMMAND then a.(command := true)
    else if field == EXIT_SUCCESS then a.(status := Some(Success))
    else if field == EXIT_FAILURE then a.(status := Some(Failure))
    else if STATUS <= field then a.(exitCode := ParseI32(field[|STATUS|..]))
    else a
  }

  /** Later fields override earlier ones. */
  function ReadFields(fields: seq<seq<Byte>>): Attributes {
    if fields == [] then Attributes(false, None, None)
    else ReadField(ReadFields(fields[..|fields| - 1]), fields[|fields| - 1])
  }

  function MarkerOf(start: nat, end: nat, fields: seq<seq<Byte>>): Option<Marker>
    requires fields != []
  {
    var kind := if START <= fields[0] then Some(Start) else if END <= fields[0] then Some(End) else None;
    if kind.None? then None
    else
      var id := fields[0][if kind.value.Start? then |START| else |END|..];
      if id == [] || |id| > 128 then None
      else Some(Marker(start, end, id, kind.value, ReadFields(fields[1..])))
  }

  method ParseOscMarker(start: nat, end: nat, body: seq<Byte>) returns (r: Option<Marker>)
    ensures r == MarkerOf(start, end, Split(body))
  {
    var fields := Split(body);
    var kind, id := Start, fields[0];
    if START <= fields[0] {
      id := fields[0][|START|..];
    } else if END <= fields[0] {
      kind, id := End, fields[0][|END|..];
    } else {
      return None;
    }
    if id == [] || |id| > 128 {
      return None;
    }
    var command, status, exitCode := false, None, None;
    for i := 1 to |fields|
      invariant Attributes(command, status, exitCode) == ReadFields(fields[1..i])
    {
      assert fields[1..i + 1][..i - 1] == fields[1..i];
      var field := fields[i];
      if field == TYPE_COMMAND {
        command := true;
      } else if field == EXIT_SUCCESS {
        status := Some(Success);
      } else if field == EXIT_FAILURE {
        status := Some(Failure);
      } else if STATUS <= field {
        exitCode := ParseI32(field[|STATUS|..]);
      }
    }
    assert fields[1..|fields|] == fields[1..];
    r := Some(Marker(start, end, id, kind, Attributes(command, status, exitCode)));
  }

  /** Length of the terminator at `i`: BEL, or ESC and a backslash. */
  function EndLength(raw: seq<Byte>, i: nat): nat
    requires i < |raw|
  {
    if raw[i] == BELL then 1
    else if raw[i] == ESCAPE && i + 1 < |raw| && raw[i + 1] == BACKSLASH then 2
    else 0
  }

  /** Where the body that starts at `from` ends, and where the marker ends. */
  function OscEnd(raw: seq<Byte>, from: nat): (r: Option<(nat, nat)>)
    ensures r.Some? ==> from <= r.value.0 < r.value.1 <= |raw|
    decreases |raw| - from
  {
    if from >= |raw| then None
    else if EndLength(raw, from) > 0 then Some((from, from + EndLength(raw, from)))
    else OscEnd(raw, from + 1)
  }

  method FindOscEnd(raw: seq<Byte>, bodyStart: nat) returns (r: Option<(nat, nat)>)
    ensures r == OscEnd(raw, bodyStart)
  {
    var index := bodyStart;
    while index < |raw|
      invariant OscEnd(raw, index) == OscEnd(raw, bodyStart)
    {
      if raw[index] == BELL {
        return Some((index, index + 1));
      }
      if raw[index] == ESCAPE && index + 1 < |raw| && raw[index + 1] == BACKSLASH {
        return Some((index, index + 2));
      }
      index := index + 1;
    }
    return None;
  }

  /** The marker whose prefix is at `start`, if it is well formed. */
  function MarkerAt(raw: seq<Byte>, start: nat): (r: Option<Marker>)
    requires start + |PREFIX| <= |raw|
    ensures r.Some? ==> r.value.start == start && start + |PREFIX| < r.value.end <= |raw|
  {
    match OscEnd(raw, start + |PREFIX|)
    case None => None
    case Some((bodyEnd, end)) =>
      var body := raw[start + |PREFIX|..bodyEnd];
      if WellFormed(body) then MarkerOf(start, end, Split(body)) else None
  }

  /** All markers from `cursor` on; one malformed marker spoils them all. */
  function Markers(raw: seq<Byte>, cursor: nat): (r: Option<seq<Marker>>)
    ensures r.Some? ==> forall i :: 0 <= i < |r.value| ==> cursor <= r.value[i].start < r.value[i].end <= |raw|
    decreases |raw| - cursor
  {
    match FirstMatch(raw, PREFIX, cursor)
    case None => Some([])
    case Some(start) =>
      var marker :- MarkerAt(raw, start);
      var rest :- Markers(raw, marker.end);
      Some([marker] + rest)
  }

  /** The markers found so far and the ones still to come, none if those are spoiled. */
  function Behind(markers: seq<Marker>, rest: Option<seq<Marker>>): Option<seq<Marker>> {
    if rest.None? then None else Some(markers + rest.value)
  }

  lemma BehindOne(markers: seq<Marker>, m: Marker, rest: Option<seq<Marker>>)
    ensures Behind(markers, Behind([m], rest)) == Behind(markers + [m], rest)
  {
    if rest.Some? {
      assert markers + ([m] + rest.value) == markers + [m] + rest.value;
    }
  }

  lemma BehindNothing(rest: Option<seq<Marker>>)
    ensures Behind([], rest) == rest
  {
    if rest.Some? {
      assert [] + rest.value == rest.value;
    }
  }

  /** Reads the marker whose prefix is at `start`. */
  method ReadMarker(raw: seq<Byte>, start: nat) returns (r: Option<Marker>)
    requires start + |PREFIX| <= |raw|
    ensures r == MarkerAt(raw, start)
  {
    var ends := FindOscEnd(raw, start + |PREFIX|);
    if ends.None? {
      return None;
    }
    var (bodyEnd, markerEnd) := ends.value;
    var body := raw[start + |PREFIX|..bodyEnd];
    if !WellFormed(body) {
      return None;
    }
    r := ParseOscMarker(start, markerEnd, body);
  }

  method FindMarkers(raw: seq<Byte>) returns (r: Option<seq<Marker>>)
    ensures r == Markers(raw, 0)
  {
    var markers := [];
    var cursor := 0;
    BehindNothing(Markers(raw, 0));
    while cursor + |PREFIX| <= |raw|
      invariant Markers(raw, 0) == Behind(markers, Markers(raw, cursor))
      decreases |raw| - cursor
    {
      var found := FirstMatch(raw, PREFIX, cursor);
      if found.None? {
        break;
      }
      var marker := ReadMarker(raw, found.value);
      if marker.None? {
        return None;
      }
      BehindOne(markers, marker.value, Markers(raw, marker.value.end));
      markers := markers + [marker.value];
      cursor := marker.value.end;
    }
    assert markers + [] == markers;
    r := Some(markers);
  }

  /** What the extraction looks for among the markers. */
  datatype Wanted = CommandStart | EndOf(start: Marker)

  predicate Wants(w: Wanted, m: Marker) {
    match w
    case CommandStart => m.kind == Start && m.attributes.command
    case EndOf(start) => m.kind == End && m.id == start.id && m.start >= start.end
  }

  function Select(markers: seq<Marker>, w: Wanted): (found: seq<Marker>)
    ensures forall k :: 0 <= k < |found| ==> Wants(w, found[k]) && found[k] in markers
  {
    if markers == [] then []
    else (if Wants(w, markers[0]) then [markers[0]] else []) + Select(markers[1..], w)
  }

  function ParseOneCommand(raw: seq<Byte>): Option<Command> {
    var markers :- Markers(raw, 0);
    var starts := Select(markers, CommandStart);
    if |starts| != 1 then None
    else
      var ends := Select(markers, EndOf(starts[0]));
      if |ends| != 1 then None
      else
        Some(Command(raw[starts[0].end..ends[0].start], ends[0].attributes.status, ends[0].attributes.exitCode))
  }

  ghost predicate OnlyAt(markers: seq<Marker>, w: Wanted, k: nat) {
    && k < |markers| && Wants(w, markers[k])
    && forall i :: 0 <= i < |markers| && i != k ==> !Wants(w, markers[i])
  }

  lemma {:induction false} SelectNone(markers: seq<Marker>, w: Wanted)
    ensures Select(markers, w) == [] <==> forall i :: 0 <= i < |markers| ==> !Wants(w, markers[i])
  {
    if markers != [] {
      SelectNone(markers[1..], w);
    }
  }

  /** One marker is selected iff exactly one index is wanted. */
  lemma {:induction false} SelectOnly(markers: seq<Marker>, w: Wanted, k: nat)
    requires OnlyAt(markers, w, k)
    ensures Select(markers, w) == [markers[k]]
  {
    if k == 0 {
      SelectNone(markers[1..], w);
    } else {
      SelectOnly(markers[1..], w, k - 1);
    }
  }

  lemma {:induction false} SelectedOnly(markers: seq<Marker>, w: Wanted) returns (k: nat)
    requires |Select(markers, w)| == 1
    ensures OnlyAt(markers, w, k) && Select(markers, w) == [markers[k]]
  {
    if Wants(w, markers[0]) {
      k := 0;
      SelectNone(markers[1..], w);
    } else {
      k := SelectedOnly(markers[1..], w);
      k := k + 1;
    }
  }

  ghost predicate Covered(markers: seq<Marker>, k: nat) {
    exists i :: 0 <= i < |markers| && markers[i].start <= k < markers[i].end
  }

  /** Every marker is well formed and where its prefix is; markers are disjoint and in order. */
  ghost predicate Ordered(raw: seq<Byte>, markers: seq<Marker>) {
    && (forall i :: 0 <= i < |markers| ==>
          OccursAt(raw, PREFIX, markers[i].start) && MarkerAt(raw, markers[i].start) == Some(markers[i]))
    && (forall i, j :: 0 <= i < j < |markers| ==> markers[i].end <= markers[j].start)
  }

  lemma OrderedBehind(raw: seq<Byte>, m: Marker, rest: seq<Marker>)
    requires OccursAt(raw, PREFIX, m.start) && MarkerAt(raw, m.start) == Some(m)
    requires Ordered(raw, rest) && forall i :: 0 <= i < |rest| ==> m.end <= rest[i].start
    ensures Ordered(raw, [m] + rest)
  {
  }

  lemma {:induction false} MarkersAreOrdered(raw: seq<Byte>, cursor: nat)
    requires Markers(raw, cursor).Some?
    ensures Ordered(raw, Markers(raw, cursor).value)
    decreases |raw| - cursor
  {
    match FirstMatch(raw, PREFIX, cursor) {
      case None =>
      case Some(start) =>
        var m := MarkerAt(raw, start).value;
        MarkersAreOrdered(raw, m.end);
        OrderedBehind(raw, m, Markers(raw, m.end).value);
    }
  }

  lemma CoveredBehind(m: Marker, rest: seq<Marker>, k: nat)
    requires m.start <= k < m.end || Covered(rest, k)
    ensures Covered([m] + rest, k)
  {
    var markers := [m] + rest;
    if m.start <= k < m.end {
      assert markers[0].start <= k < markers[0].end;
    } else {
      var i :| 0 <= i < |rest| && rest[i].start <= k < rest[i].end;
      assert markers[i + 1] == rest[i];
    }
  }

  /** No prefix starts outside the markers. */
  lemma {:induction false} MarkersCoverPrefixes(raw: seq<Byte>, cursor: nat, k: nat)
    requires Markers(raw, cursor).Some? && cursor <= k && OccursAt(raw, PREFIX, k)
    ensures Covered(Markers(raw, cursor).value, k)
    decreases |raw| - cursor
  {
    var start := FirstMatch(raw, PREFIX, cursor).value;
    var m := MarkerAt(raw, start).value;
    if k >= m.end {
      MarkersCoverPrefixes(raw, m.end, k);
    }
    CoveredBehind(m, Markers(raw, m.end).value, k);
  }

  /**
   Marker `s` is the only one that starts a command, `e` the only end marker with that marker's id at or
   behind its end, and `command` is what they enclose, with what the end marker reports.
   */
  ghost predicate ExtractsAt(raw: seq<Byte>, markers: seq<Marker>, s: nat, e: nat, command: Command) {
    && s < |markers| && e < |markers|
    && (forall i :: 0 <= i < |markers| ==> (markers[i].kind == Start && markers[i].attributes.command <==> i == s))
    && (forall i :: 0 <= i < |markers| ==>
          (markers[i].kind == End && markers[i].id == markers[s].id && markers[i].start >= markers[s].end <==> i == e))
    && markers[s].end <= markers[e].start <= |raw|
    && command == Command(raw[markers[s].end..markers[e].start],
         markers[e].attributes.status, markers[e].attributes.exitCode)
  }

  ghost predicate Extracts(raw: seq<Byte>, command: Command) {
    Markers(raw, 0).Some? && exists s: nat, e: nat :: ExtractsAt(raw, Markers(raw, 0).value, s, e, command)
  }

  /** Where the markers are: well formed, disjoint, in order, and covering every prefix in the text. */
  lemma MarkersArePlaced(raw: seq<Byte>)
    requires Markers(raw, 0).Some?
    ensures Ordered(raw, Markers(raw, 0).value)
    ensures forall k: nat :: OccursAt(raw, PREFIX, k) ==> Covered(Markers(raw, 0).value, k)
  {
    MarkersAreOrdered(raw, 0);
    forall k: nat | OccursAt(raw, PREFIX, k)
      ensures Covered(Markers(raw, 0).value, k)
    {
      MarkersCoverPrefixes(raw, 0, k);
    }
  }

  lemma ParsedIsExtracted(raw: seq<Byte>, command: Command)
    requires ParseOneCommand(raw) == Some(command)
    ensures Extracts(raw, command)
  {
    var markers := Markers(raw, 0).value;
    var s := SelectedOnly(markers, CommandStart);
    var e := SelectedOnly(markers, EndOf(markers[s]));
    assert ExtractsAt(raw, markers, s, e, command);
  }

  lemma ExtractedIsParsed(raw: seq<Byte>, command: Command)
    requires Extracts(raw, command)
    ensures ParseOneCommand(raw) == Some(command)
  {
    var markers := Markers(raw, 0).value;
    var s: nat, e: nat :| ExtractsAt(raw, markers, s, e, command);
    SelectOnly(markers, CommandStart, s);
    SelectOnly(markers, EndOf(markers[s]), e);
  }

  /**
   Uniqueness: a command is extracted iff no marker is malformed, exactly one starts a command, and
   exactly one end marker behind that has its id; the output is what lies between those two.
   */
  lemma CommandIsUnique(raw: seq<Byte>, command: Command)
    ensures ParseOneCommand(raw) == Some(command) <==> Extracts(raw, command)
  {
    if ParseOneCommand(raw) == Some(command) {
      ParsedIsExtracted(raw, command);
    } else if Extracts(raw, command) {
      ExtractedIsParsed(raw, command);
    }
  }
}
