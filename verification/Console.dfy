/** Transcript analysis: what a caller is told about the output of one command. */
module Console {
  import opened Wrappers
  import opened Utf8
  import opened Search
  import opened Echo
  import opened Terminal
  import opened Osc3008
  import opened OscRoundTrip

  datatype SemanticPrompt = NoPrompt | Osc3008Prompt

  datatype Settings = Settings(lineEnding: LineEnding, echoMode: EchoMode, prompt: SemanticPrompt)

  datatype Source = SemanticOutput | NormalizedTranscript

  datatype Analysis = Analysis(normalized: string, commandOutput: Option<string>, source: Option<Source>,
    status: Option<ExitStatus>, exitCode: Option<int>)

  /** The text of raw bytes, normalised. */
  function Clean(raw: seq<Byte>): string {
    Normalized(Decode(raw))
  }

  /** Where the output behind the echoed line starts, if the profile promises an echo. */
  function Boundary(raw: seq<Byte>, s: Settings): (b: Option<nat>)
    ensures b.Some? ==> b.value <= |raw|
  {
    if s.echoMode == LineEcho then EchoLineBoundary(raw, s.lineEnding) else None
  }

  function Visible(raw: seq<Byte>, s: Settings): seq<Byte> {
    match Boundary(raw, s)
    case None => raw
    case Some(b) => raw[b..]
  }

  function SemanticCommand(raw: seq<Byte>, s: Settings): Option<Command> {
    if s.prompt == Osc3008Prompt then ParseOneCommand(raw) else None
  }

  function Analyze(raw: seq<Byte>, s: Settings): Analysis {
    var normalized := Clean(Visible(raw, s));
    match SemanticCommand(raw, s)
    case Some(command) =>
      Analysis(normalized, Some(Clean(command.output)), Some(SemanticOutput), command.status, command.exitCode)
    case None =>
      var output :=
        if s.echoMode == LineEcho then (match Boundary(raw, s) case None => None case Some(b) => Some(Clean(raw[b..])))
        else if s.echoMode == NoEcho || s.prompt != NoPrompt then Some(normalized)
        else None;
      Analysis(normalized, output, if output.Some? then Some(NormalizedTranscript) else None, None, None)
  }

  /**
   What a caller may conclude: no text holds an escape or a carriage return; a status or exit code is
   only ever reported from the single well-formed pair of markers; and a command output is missing
   exactly when nothing tells where it starts.
   */
  lemma AnalysisIsHonest(raw: seq<Byte>, s: Settings)
    ensures var a := Analyze(raw, s);
      && Plain(a.normalized) && (a.commandOutput.Some? ==> Plain(a.commandOutput.value))
      && (a.source == Some(SemanticOutput) <==> s.prompt == Osc3008Prompt && exists c :: Extracts(raw, c))
      && (a.status.Some? || a.exitCode.Some? ==> a.source == Some(SemanticOutput))
      && (forall c :: a.source == Some(SemanticOutput) && Extracts(raw, c) ==>
            a.commandOutput == Some(Clean(c.output)) && a.status == c.status && a.exitCode == c.exitCode)
      && (a.source.None? <==> a.commandOutput.None?)
      && (a.source == Some(NormalizedTranscript) ==> a.commandOutput == Some(a.normalized))
      && (a.commandOutput.None? <==>
            && (s.prompt == NoPrompt || !exists c :: Extracts(raw, c))
            && (if s.echoMode == LineEcho then Boundary(raw, s).None?
                else s.echoMode == UnknownEcho && s.prompt == NoPrompt))
  {
    NormalizedIsPlain(Decode(Visible(raw, s)));
    if ParseOneCommand(raw).Some? {
      NormalizedIsPlain(Decode(ParseOneCommand(raw).value.output));
    }
    forall c
      ensures ParseOneCommand(raw) == Some(c) <==> Extracts(raw, c)
    {
      CommandIsUnique(raw, c);
    }
  }

  lemma {:induction false} EscapeIsKept(s: string)
    requires ESC !in s
    ensures ESCAPE !in Encode(s)
  {
    if s != [] {
      EscapeIsKept(s[1..]);
      assert s[0] != ESC;
      assert ESCAPE !in EncodeChar(s[0]);
    }
  }

  lemma PlainIsClean(text: string)
    requires Plain(text)
    ensures Clean(Encode(text)) == text && Free(Encode(text), PREFIX)
  {
    DecodeEncode(text);
    PlainIsUnchanged(text);
    EscapeIsKept(text);
    FreeWithoutHead(Encode(text), PREFIX);
  }

  /**
   A shell that marks its commands is read back exactly, whatever the echo settings: of any plain
   texts around and between the two markers, the caller gets the text between them and the reported
   exit code.
   */
  lemma MarkedOutputIsRecovered(before: string, text: string, after: string, id: seq<Byte>, start: Ending, end: Ending,
      exitCode: int, s: Settings)
    requires s.prompt == Osc3008Prompt && Plain(before) && Plain(text) && Plain(after)
    requires IdFits(id) && Printable(Start, id, [TYPE_COMMAND])
    requires -0x8000_0000 <= exitCode <= 0x7FFF_FFFF
    requires var fields := [if exitCode == 0 then EXIT_SUCCESS else EXIT_FAILURE, STATUS + PrintI32(exitCode)];
      Printable(End, id, fields)
    ensures var fields := [if exitCode == 0 then EXIT_SUCCESS else EXIT_FAILURE, STATUS + PrintI32(exitCode)];
      var raw := Transcript(Encode(before), Printed(Start, id, [TYPE_COMMAND], start), Encode(text),
        Printed(End, id, fields, end), Encode(after));
      var a := Analyze(raw, s);
      && a.commandOutput == Some(text) && a.source == Some(SemanticOutput)
      && a.status == Some(if exitCode == 0 then Success else Failure) && a.exitCode == Some(exitCode)
  {
    PlainIsClean(before);
    PlainIsClean(text);
    PlainIsClean(after);
    ReadOne(TYPE_COMMAND);
    ExitFieldsAreRead(exitCode);
    CommandRoundTrip(Encode(before), Encode(text), Encode(after), id, [TYPE_COMMAND], start,
      [if exitCode == 0 then EXIT_SUCCESS else EXIT_FAILURE, STATUS + PrintI32(exitCode)], end);
  }

  lemma ReadOne(field: seq<Byte>)
    ensures ReadFields([field]) == ReadField(Attributes(false, None, None), field)
  {
    assert [field][..0] == [];
  }

  /** An echoed command line is removed exactly, and what follows it is what the caller gets. */
  lemma EchoIsRemoved(line: seq<Byte>, output: seq<Byte>, s: Settings)
    requires s.echoMode == LineEcho && s.lineEnding != NoEnding && Free(line, Terminator(s.lineEnding))
    ensures var a := Analyze(line + Terminator(s.lineEnding) + output, s);
      && a.normalized == Clean(output)
      && (s.prompt == NoPrompt ==> a.commandOutput == Some(Clean(output)) && a.source == Some(NormalizedTranscript))
  {
    EchoedLine(line, s.lineEnding, output);
    var raw, b := line + Terminator(s.lineEnding) + output, |line| + |Terminator(s.lineEnding)|;
    assert raw[b..] == output;
  }

  lemma FoundIsNotFree(raw: seq<Byte>, pattern: seq<Byte>)
    requires pattern != []
    ensures FirstMatch(raw, pattern, 0).Some? ==> !Free(raw, pattern)
  {
    if FirstMatch(raw, pattern, 0).Some? {
      assert OccursAt(raw, pattern, FirstMatch(raw, pattern, 0).value);
    }
  }

  /**
   Where no echo is cut, because none is declared or its terminator does not occur, the normalised output
   is the whole text; and that is also the command output wherever one is given and no marked command
   was found.
   */
  lemma UncutIsWhole(raw: seq<Byte>, s: Settings)
    requires s.echoMode == LineEcho ==> s.lineEnding == NoEnding || Free(raw, Terminator(s.lineEnding))
    ensures var a := Analyze(raw, s);
      && a.normalized == Normalized(Decode(raw))
      && (s.echoMode == NoEcho || (s.echoMode == UnknownEcho && s.prompt != NoPrompt) ==>
            (s.prompt == NoPrompt || forall c :: !Extracts(raw, c)) ==>
              a.commandOutput == Some(Normalized(Decode(raw))) && a.source == Some(NormalizedTranscript))
  {
    if ParseOneCommand(raw).Some? {
      CommandIsUnique(raw, ParseOneCommand(raw).value);
    }
    if s.lineEnding != NoEnding {
      FoundIsNotFree(raw, Terminator(s.lineEnding));
    }
  }

  lemma NoMarkersNoCommand(raw: seq<Byte>)
    requires ESCAPE !in raw
    ensures ParseOneCommand(raw) == None
  {
    FreeWithoutHead(raw, PREFIX);
    assert Markers(raw, 0) == Some([]);
  }

  /** Plain text without a declared echo comes back as it is; whether it is the command's output is declared too. */
  lemma PlainComesBack(text: string, s: Settings)
    requires Plain(text) && s.echoMode != LineEcho
    ensures Analyze(Encode(text), s) ==
      if s.echoMode == UnknownEcho && s.prompt == NoPrompt then Analysis(text, None, None, None, None)
      else Analysis(text, Some(text), Some(NormalizedTranscript), None, None)
  {
    PlainIsClean(text);
    EscapeIsKept(text);
    NoMarkersNoCommand(Encode(text));
  }
}
