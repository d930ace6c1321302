/** Which writes and commands a session lets through: the gates, in the order in which they refuse. */
module Admission {
  import opened Wrappers
  import opened Utf8
  import opened PatternMatching
  import opened Echo
  import opened PortSpec
  import opened Policy
  import opened Console
  import S = Sessions

  datatype WritePolicy = Allow | Confirm | Deny

  function Rank(p: WritePolicy): nat {
    match p case Allow => 0 case Confirm => 1 case Deny => 2
  }

  function Stricter(a: WritePolicy, b: WritePolicy): WritePolicy {
    if Rank(a) < Rank(b) then b else a
  }

  /** What the server's configuration says about a device. */
  datatype Profile = Profile(policy: WritePolicy, console: Settings,
    denyPatterns: seq<string>, allowPatterns: seq<string>)

  datatype OpenRequest = OpenRequest(port: Option<string>, device: Option<string>, policy: Option<WritePolicy>,
    denyPatterns: Option<seq<string>>, lineEnding: Option<LineEnding>)

  /** What a session keeps from its opening to its end. */
  datatype Config = Config(policy: WritePolicy, console: Settings, commands: CommandPolicy)

  function Callers(r: OpenRequest): seq<string> {
    if r.denyPatterns.Some? then r.denyPatterns.value else []
  }

  /** A profile tightened by a request. */
  method Configure(profile: Profile, r: OpenRequest, globalDeny: Result<seq<string>, SerialError>, compile: Compiler)
    returns (config: Result<Config, SerialError>)
    ensures config.Ok? ==> globalDeny.Ok?
    ensures config.Ok? ==> Tightened(profile, r, globalDeny.value, compile, config.value)
    ensures config.Ok? ==> (config.value.policy == Deny <==> profile.policy == Deny || r.policy == Some(Deny))
    ensures config.Ok? ==>
      (config.value.policy == Allow <==> profile.policy == Allow && (r.policy.None? || r.policy == Some(Allow)))
    ensures globalDeny.Err? ==> config == Err(globalDeny.error)
    ensures globalDeny.Ok? ==>
      var compiled := Compile(globalDeny.value, profile.denyPatterns, profile.allowPatterns, Callers(r), compile);
      && (compiled.Err? ==> config == Err(InvalidParam("command_policy")))
      && (compiled.Ok? && Overrides(profile, r, compiled.value) ==> config == Err(InvalidParam("line_ending")))
      && (compiled.Ok? && !Overrides(profile, r, compiled.value) ==> config.Ok?)
  {
    var console := profile.console;
    var policy := Stricter(profile.policy, if r.policy.Some? then r.policy.value else Allow);
    if globalDeny.Err? {
      return Err(globalDeny.error);
    }
    var compiled := Compile(globalDeny.value, profile.denyPatterns, profile.allowPatterns, Callers(r), compile);
    if compiled.Err? {
      CompileFails(globalDeny.value, profile.denyPatterns, profile.allowPatterns, Callers(r), compile);
      return Err(compiled.error);
    }
    if r.lineEnding.Some? {
      if !compiled.value.IsEmpty() && console.lineEnding != NoEnding && r.lineEnding.value != console.lineEnding {
        return Err(InvalidParam("line_ending"));
      }
      console := console.(lineEnding := r.lineEnding.value);
    }
    config := Ok(Config(policy, console, compiled.value));
  }

  /** The request would replace the line ending of a guarded profile. */
  predicate Overrides(profile: Profile, r: OpenRequest, commands: CommandPolicy) {
    && r.lineEnding.Some? && !commands.IsEmpty()
    && profile.console.lineEnding != NoEnding && r.lineEnding.value != profile.console.lineEnding
  }

  /** What the configuration of a session owes to its profile and to its caller. */
  ghost predicate Tightened(profile: Profile, r: OpenRequest, globalDeny: seq<string>, compile: Compiler, c: Config) {
    && c.policy == Stricter(profile.policy, if r.policy.Some? then r.policy.value else Allow)
    && Compile(globalDeny, profile.denyPatterns, profile.allowPatterns, Callers(r), compile) == Ok(c.commands)
    && c.console == profile.console.(lineEnding :=
         if r.lineEnding.Some? then r.lineEnding.value else profile.console.lineEnding)
    && !Overrides(profile, r, c.commands)
  }

  /**
   A request never loosens a profile: the session denies writes iff one of the two says so, and allows them
   unasked iff neither says more; every command that is admitted would be admitted without the caller's
   rules; and a guarded profile keeps its line ending.
   */
  lemma ProfileIsKept(profile: Profile, r: OpenRequest, globalDeny: seq<string>, compile: Compiler, c: Config)
    requires Tightened(profile, r, globalDeny, compile, c)
    ensures c.policy == Deny <==> profile.policy == Deny || r.policy == Some(Deny)
    ensures c.policy == Allow <==> profile.policy == Allow && (r.policy.None? || r.policy == Some(Allow))
    ensures Rank(profile.policy) <= Rank(c.policy) && (r.policy.Some? ==> Rank(r.policy.value) <= Rank(c.policy))
    ensures c.policy == profile.policy || r.policy == Some(c.policy)
    ensures !c.commands.IsEmpty() && profile.console.lineEnding != NoEnding ==>
      c.console.lineEnding == profile.console.lineEnding
    ensures var server := Compile(globalDeny, profile.denyPatterns, profile.allowPatterns, [], compile);
      && server.Ok? && Compiles(Callers(r), compile)
      && (forall command, requested :: Admits(c.commands, command, c.console.lineEnding, requested) ==>
            Admits(server.value, command, c.console.lineEnding, requested) && !Hit(Callers(r), compile, command))
  {
    var g, p, a := globalDeny, profile.denyPatterns, profile.allowPatterns;
    assert [] + Callers(r) == Callers(r);
    CompiledPolicy(g, p, a, Callers(r), compile, "");
    CompiledPolicy(g, p, a, [], compile, "");
    forall command, requested | Admits(c.commands, command, c.console.lineEnding, requested)
      ensures Admits(Compile(g, p, a, [], compile).value, command, c.console.lineEnding, requested)
      ensures !Hit(Callers(r), compile, command)
    {
      CallerOnlyRestricts(g, p, a, [], Callers(r), compile, command, c.console.lineEnding, requested);
    }
  }

  /**
   Which command lines a session with rules takes, told by the four lists it was opened with: the global
   and the profile's deny patterns, the profile's allow patterns, and the deny patterns of the request.
   */
  lemma SessionTakes(profile: Profile, r: OpenRequest, globalDeny: seq<string>, compile: Compiler, c: Config,
      command: string)
    requires Tightened(profile, r, globalDeny, compile, c)
    ensures var asked := if r.denyPatterns.Some? then r.denyPatterns.value else [];
      var deny := globalDeny + profile.denyPatterns + asked;
      && (forall p :: p in deny + profile.allowPatterns ==> compile(p).Some?)
      && (c.commands.IsEmpty() <==> deny + profile.allowPatterns == [])
      && (!c.commands.IsEmpty() ==>
            (c.commands.Check(command, c.console.lineEnding, None) == None <==>
              && c.console.lineEnding != NoEnding
              && (forall i :: 0 <= i < |command| ==> 0x20 <= command[i] as int < 0x7F || 0xA0 <= command[i] as int)
              && (command == [] || command[|command| - 1] != '\\')
              && (forall p :: p in deny ==> !compile(p).value(command))
              && (profile.allowPatterns == [] || exists p :: p in profile.allowPatterns && compile(p).value(command))))
  {
    var g, p, a, q := globalDeny, profile.denyPatterns, profile.allowPatterns, Callers(r);
    CompiledPolicy(g, p, a, q, compile, command);
    CheckAdmits(c.commands, command, c.console.lineEnding, None);
    MembersCompile(g, compile, command);
    MembersCompile(p, compile, command);
    MembersCompile(a, compile, command);
    MembersCompile(q, compile, command);
    hide Compile, Compiles, Hit, Matches;
  }

  /** A list compiles and hits as its members do. */
  lemma MembersCompile(patterns: seq<string>, compile: Compiler, command: string)
    ensures Compiles(patterns, compile) <==> forall p :: p in patterns ==> compile(p).Some?
    ensures Compiles(patterns, compile) ==>
      (Hit(patterns, compile, command) <==> exists p :: p in patterns && compile(p).value(command))
  {
  }

  /**
   When a request for a line ending is refused: exactly when the session has rules and the profile already
   has another line ending; otherwise the request's line ending is taken, or else the profile's.
   */
  lemma LineEndingIsGuarded(profile: Profile, r: OpenRequest, globalDeny: seq<string>, compile: Compiler)
    requires forall p :: p in globalDeny + profile.denyPatterns + profile.allowPatterns + Callers(r) ==>
      compile(p).Some?
    ensures var commands := Compile(globalDeny, profile.denyPatterns, profile.allowPatterns, Callers(r), compile);
      && commands.Ok?
      && (Overrides(profile, r, commands.value) <==>
            && globalDeny + profile.denyPatterns + profile.allowPatterns + Callers(r) != []
            && profile.console.lineEnding != NoEnding
            && r.lineEnding.Some? && r.lineEnding != Some(profile.console.lineEnding))
  {
    var g, p, a, q := globalDeny, profile.denyPatterns, profile.allowPatterns, Callers(r);
    CompiledPolicy(g, p, a, q, compile, "");
    MembersCompile(g, compile, "");
    MembersCompile(p, compile, "");
    MembersCompile(a, compile, "");
    MembersCompile(q, compile, "");
    hide Compile, Compiles, Hit;
  }

  datatype Tool = WriteTool | ExecTool

  /** The keyed digest under which a client returns an answer. */
  type Digest = (S.SessionId, Tool, seq<Byte>) -> string

  datatype Answer = Malformed | Accept(confirm: Option<bool>) | Decline | Dismiss | Unknown

  /** What comes with a call: the caller's own flag, and the answers a person gave through the client. */
  datatype Consent = Consent(confirm: Option<bool>, canElicit: bool, answers: Option<map<string, Answer>>)

  /** Which of the look-ups of a call still find the session. */
  datatype Lookups = Lookups(console: bool, commands: bool, policy: bool, snapshot: bool, timeout: bool)

  datatype Session = Session(id: S.SessionId, config: Config, digest: Digest)

  datatype Gate = Proceed | Blocked(error: SerialError) | Elicit(key: string)

  /** Why an answer does not let a write proceed. */
  function Refusal(answer: Answer): Option<string> {
    match answer
    case Malformed => Some("invalid")
    case Accept(confirm) => if confirm == Some(true) then None else Some("accept_without_confirm")
    case Decline => Some("decline")
    case Dismiss => Some("cancel")
    case Unknown => Some("unknown")
  }

  function GateWrite(s: Session, l: Lookups, c: Consent, tool: Tool, payload: seq<Byte>): Gate {
    if !l.policy then Blocked(SessionNotFound)
    else match s.config.policy
      case Deny => Blocked(WriteForbidden)
      case Allow => Proceed
      case Confirm =>
        var key := s.digest(s.id, tool, payload);
        if c.canElicit && (c.answers.None? || key !in c.answers.value) then
          if l.snapshot then Elicit(key) else Blocked(SessionNotFound)
        else if c.canElicit then
          (match Refusal(c.answers.value[key])
            case None => Proceed
            case Some(action) => Blocked(ConfirmationDeclined(action)))
        else if c.confirm == Some(true) then Proceed
        else Blocked(ConfirmationRequired)
  }

  datatype WriteCall = WriteCall(data: string, consent: Consent)

  datatype ExecCall = ExecCall(command: string, pattern: string, find: Regex, compiles: bool,
    lineEnding: Option<LineEnding>, echoMode: Option<EchoMode>, prompt: Option<SemanticPrompt>,
    clear: bool, normalize: bool, timeoutGiven: bool, consent: Consent)

  datatype Decision = Refuse(error: SerialError) | Ask(key: string) | Run(payload: seq<Byte>)

  function Decided(g: Gate, payload: seq<Byte>): Decision {
    match g case Proceed => Run(payload) case Blocked(e) => Refuse(e) case Elicit(key) => Ask(key)
  }

  function AdmitWrite(s: Session, l: Lookups, call: WriteCall): Decision {
    var payload := Encode(call.data);
    if |payload| > MAX_WRITE_CHUNK then Refuse(InvalidParam("data"))
    else if !l.commands then Refuse(SessionNotFound)
    else if !s.config.commands.IsEmpty() then Refuse(RawWriteForbidden)
    else Decided(GateWrite(s, l, call.consent, WriteTool, payload), payload)
  }

  /** The console settings of one execution. */
  function Effective(s: Session, call: ExecCall): Settings {
    var d := s.config.console;
    Settings(if call.lineEnding.Some? then call.lineEnding.value else d.lineEnding,
      if call.echoMode.Some? then call.echoMode.value else d.echoMode,
      if call.prompt.Some? then call.prompt.value else d.prompt)
  }

  function Transmitted(s: Session, call: ExecCall): seq<Byte> {
    Encode(call.command) + Terminator(Effective(s, call).lineEnding)
  }

  function AdmitExec(s: Session, l: Lookups, call: ExecCall): Decision {
    var payload := Transmitted(s, call);
    var blocked := s.config.commands.Check(call.command, s.config.console.lineEnding, call.lineEnding);
    if |Encode(call.command)| > MAX_WRITE_CHUNK then Refuse(InvalidParam("command"))
    else if call.pattern == "" || !call.compiles then Refuse(InvalidParam("expect"))
    else if !l.console || !l.commands then Refuse(SessionNotFound)
    else if blocked.Some? then Refuse(CommandBlocked(blocked.value))
    else if Effective(s, call).echoMode == LineEcho && Effective(s, call).lineEnding == NoEnding then
      Refuse(InvalidParam("echo_mode"))
    else if |payload| > MAX_WRITE_CHUNK then Refuse(InvalidParam("command"))
    else
      var gate := GateWrite(s, l, call.consent, ExecTool, payload);
      if gate.Proceed? && !call.timeoutGiven && !l.timeout then Refuse(SessionNotFound)
      else Decided(gate, payload)
  }

  /** A person, or failing that the caller, agreed to exactly these bytes; or nobody need be asked. */
  ghost predicate Consents(s: Session, c: Consent, tool: Tool, payload: seq<Byte>) {
    match s.config.policy
    case Deny => false
    case Allow => true
    case Confirm =>
      if c.canElicit
      then c.answers.Some? && s.digest(s.id, tool, payload) in c.answers.value
        && c.answers.value[s.digest(s.id, tool, payload)] == Accept(Some(true))
      else c.confirm == Some(true)
  }

  /** Exactly when a raw write is sent: never on a guarded session, never without consent. */
  lemma WriteIsAdmitted(s: Session, l: Lookups, call: WriteCall, payload: seq<Byte>)
    ensures AdmitWrite(s, l, call) == Run(payload) <==>
      && payload == Encode(call.data) && |payload| <= MAX_WRITE_CHUNK
      && l.commands && s.config.commands.IsEmpty()
      && l.policy && Consents(s, call.consent, WriteTool, payload)
  {
  }

  /** Everything but consent that an execution needs. */
  ghost predicate WellFormedExec(s: Session, l: Lookups, call: ExecCall) {
    && |Transmitted(s, call)| <= MAX_WRITE_CHUNK && call.pattern != "" && call.compiles
    && l.console && l.commands
    && Admits(s.config.commands, call.command, s.config.console.lineEnding, call.lineEnding)
    && (Effective(s, call).echoMode == LineEcho ==> Effective(s, call).lineEnding != NoEnding)
  }

  /** The characters that end a line in each setting. */
  function EndOfLine(ending: LineEnding): string {
    match ending
    case NoEnding => ""
    case Lf => "\n"
    case Cr => "\r"
    case Crlf => "\r\n"
  }

  /**
   What is sent, in full: the command as text, and behind it the end of line that the call asks for, or
   else the session's; on a guarded session it is always the session's, and there is one. An execution that
   is to skip an echoed line always sends an end of line, and nothing sent is longer than 4096 bytes.
   */
  lemma PayloadIsSpelled(s: Session, l: Lookups, call: ExecCall, payload: seq<Byte>)
    requires AdmitExec(s, l, call) == Run(payload)
    ensures var ending := if call.lineEnding.Some? then call.lineEnding.value else s.config.console.lineEnding;
      && payload == Encode(call.command + EndOfLine(ending))
      && (!s.config.commands.IsEmpty() ==> ending == s.config.console.lineEnding && ending != NoEnding)
      && (call.echoMode == Some(LineEcho) || (call.echoMode.None? && s.config.console.echoMode == LineEcho) ==>
            ending != NoEnding)
      && |payload| <= 4096
  {
    ExecIsAdmitted(s, l, call, payload);
    var ending := Effective(s, call).lineEnding;
    EncodeJoin(call.command, EndOfLine(ending));
    assert "\r\n"[1..] == "\n" && "\n"[1..] == "" && "\r"[1..] == "";
  }

  /** Exactly when a command is sent, and that it is sent whole, with its terminator. */
  lemma ExecIsAdmitted(s: Session, l: Lookups, call: ExecCall, payload: seq<Byte>)
    ensures AdmitExec(s, l, call) == Run(payload) <==>
      && payload == Transmitted(s, call) && WellFormedExec(s, l, call)
      && l.policy && Consents(s, call.consent, ExecTool, payload) && (call.timeoutGiven || l.timeout)
  {
    CheckAdmits(s.config.commands, call.command, s.config.console.lineEnding, call.lineEnding);
  }

  /** The same consent with one answer more. */
  function Answered(c: Consent, key: string, a: Answer): Consent {
    c.(answers := Some((if c.answers.Some? then c.answers.value else map[])[key := a]))
  }

  /** What a caller is told about an answer that does not confirm. */
  function AnswerName(a: Answer): string {
    if a.Decline? then "decline"
    else if a.Dismiss? then "cancel"
    else if a.Accept? then "accept_without_confirm"
    else if a.Malformed? then "invalid"
    else "unknown"
  }

  /**
   Nobody is asked in vain: when a person is asked about an execution, every cheaper check has passed;
   accepting sends exactly the bytes the key was made for, any other answer refuses, and what the
   caller itself confirms makes no difference.
   */
  lemma AskingDecides(s: Session, l: Lookups, call: ExecCall, a: Answer, confirm: Option<bool>)
    requires AdmitExec(s, l, call).Ask? && l.timeout
    ensures var key := AdmitExec(s, l, call).key;
      && s.config.policy == Confirm && key == s.digest(s.id, ExecTool, Transmitted(s, call))
      && WellFormedExec(s, l, call)
      && AdmitExec(s, l, call.(consent := Answered(call.consent, key, a))) ==
           (if a == Accept(Some(true)) then Run(Transmitted(s, call))
            else Refuse(ConfirmationDeclined(AnswerName(a))))
      && AdmitExec(s, l, call.(consent := call.consent.(confirm := confirm))) == AdmitExec(s, l, call)
  {
    CheckAdmits(s.config.commands, call.command, s.config.console.lineEnding, call.lineEnding);
  }

  /**
   Once all cheaper checks have passed, consent alone decides about an execution: a denying session forbids
   it, a person who was asked has the last word, the caller's own flag counts only where nobody can be
   asked, and a question is put only while the session's picture for the person can still be taken.
   */
  lemma ConsentDecides(s: Session, l: Lookups, call: ExecCall)
    requires WellFormedExec(s, l, call) && l.policy && (call.timeoutGiven || l.timeout)
    ensures var decision, c := AdmitExec(s, l, call), call.consent;
      var key := s.digest(s.id, ExecTool, Transmitted(s, call));
      var answered := c.answers.Some? && key in c.answers.value;
      && (s.config.policy == Deny ==> decision == Refuse(WriteForbidden))
      && (decision.Ask? <==> s.config.policy == Confirm && c.canElicit && !answered && l.snapshot)
      && (s.config.policy == Confirm && c.canElicit && answered && c.answers.value[key] != Accept(Some(true)) ==>
            decision == Refuse(ConfirmationDeclined(AnswerName(c.answers.value[key]))))
      && (s.config.policy == Confirm && !c.canElicit && c.confirm != Some(true) ==>
            decision == Refuse(ConfirmationRequired))
      && (decision == Refuse(SessionNotFound) <==>
            s.config.policy == Confirm && c.canElicit && !answered && !l.snapshot)
  {
    CheckAdmits(s.config.commands, call.command, s.config.console.lineEnding, call.lineEnding);
  }

  lemma AskingAboutWriteDecides(s: Session, l: Lookups, call: WriteCall, a: Answer, confirm: Option<bool>)
    requires AdmitWrite(s, l, call).Ask?
    ensures var key := AdmitWrite(s, l, call).key;
      && s.config.policy == Confirm && key == s.digest(s.id, WriteTool, Encode(call.data))
      && s.config.commands.IsEmpty() && |Encode(call.data)| <= MAX_WRITE_CHUNK
      && AdmitWrite(s, l, call.(consent := Answered(call.consent, key, a))) ==
           (if a == Accept(Some(true)) then Run(Encode(call.data)) else Refuse(ConfirmationDeclined(AnswerName(a))))
      && AdmitWrite(s, l, call.(consent := call.consent.(confirm := confirm))) == AdmitWrite(s, l, call)
  {
  }

  datatype Call =
    | Write(write: WriteCall)
    | Exec(exec: ExecCall)
    | Read(maxBytes: Option<nat>, timeoutGiven: bool)
    | Drain(maxBytes: Option<nat>)
    | ClearInput(maxBytes: Option<nat>)
    | ReadUntil(pattern: string, find: Regex, compiles: bool, timeoutGiven: bool)

  datatype Reply =
    | Asked(key: string)
    | Failed(error: SerialError, commandWritten: bool, bytesConsumed: bool, usable: bool)
    | Wrote(count: nat)
    | Executed(outcome: ExecOutcome, analysis: Option<Analysis>)
    | ReadBack(data: ReadOutcome)
    | Discarded(status: ReadStatus, bytesRead: nat, discarded: nat, truncated: bool)
    | Found(found: ExecOutcome)

  /** A tool error on a known session. */
  function Fail(e: SerialError, commandWritten: bool, bytesConsumed: bool): Reply {
    Failed(e, commandWritten, bytesConsumed, !(e.SessionNotFound? || e.InvalidState? || e.Io?))
  }

  function AnalysisOf(settings: Settings, normalize: bool, o: ExecOutcome): Option<Analysis> {
    if normalize || settings.echoMode != UnknownEcho || settings.prompt != NoPrompt
    then Some(Analyze(o.output, settings)) else None
  }

  const DEFAULT_READ: nat := 4096

  function Bounded(maxBytes: Option<nat>, default: nat): nat {
    Min(if maxBytes.Some? then maxBytes.value else default, MAX_READ_BUFFER)
  }

  ghost predicate CallOk(call: Call) {
    (call.Exec? ==> RegexOk(call.exec.find)) && (call.ReadUntil? ==> RegexOk(call.find))
  }

  /** A refused or pending call touches nothing, and its error says so. */
  ghost predicate NotRun(decision: Decision, d: Device, reply: Reply, d': Device)
    requires !decision.Run?
  {
    && d' == d
    && reply == (if decision.Ask? then Asked(decision.key) else Fail(decision.error, false, false))
  }

  ghost predicate WriteHandled(s: Session, l: Lookups, call: WriteCall, d: Device, reply: Reply, d': Device) {
    match AdmitWrite(s, l, call)
    case Run(payload) =>
      if reply.Failed?
      then WriteStep(d, payload, Err(reply.error), d')
         && reply == Fail(reply.error, PossibleSideEffect(reply.error), false)
      else reply.Wrote? && WriteStep(d, payload, Ok(reply.count), d')
    case _ => NotRun(AdmitWrite(s, l, call), d, reply, d')
  }

  /** An execution that was let through, and what is reported about it. */
  ghost predicate ExecReported(e: Settings, payload: seq<Byte>, call: ExecCall, d: Device, reply: Reply, d': Device)
    requires RegexOk(call.find)
  {
    if reply.Failed?
    then
      && ExecStep(d, payload, call.find, e.echoMode, e.lineEnding, call.clear, Err(reply.error), d')
      && reply == Fail(reply.error, PossibleSideEffect(reply.error), PossibleSideEffect(reply.error))
    else
      && reply.Executed? && reply.analysis == AnalysisOf(e, call.normalize, reply.outcome)
      && ExecStep(d, payload, call.find, e.echoMode, e.lineEnding, call.clear, Ok(reply.outcome), d')
  }

  ghost predicate ExecHandled(s: Session, l: Lookups, call: ExecCall, d: Device, reply: Reply, d': Device)
    requires RegexOk(call.find)
  {
    match AdmitExec(s, l, call)
    case Run(payload) => ExecReported(Effective(s, call), payload, call, d, reply, d')
    case _ => NotRun(AdmitExec(s, l, call), d, reply, d')
  }

  ghost predicate ReadHandled(maxBytes: nat, d: Device, reply: Reply, d': Device) {
    if reply.Failed?
    then
      && ReadStep(d, maxBytes, Err(reply.error), d')
      && reply == Fail(reply.error, false, PossibleSideEffect(reply.error))
    else reply.ReadBack? && ReadStep(d, maxBytes, Ok(reply.data), d')
  }

  /** Clearing is draining, with a count in place of the data. */
  ghost predicate ClearHandled(maxBytes: nat, d: Device, reply: Reply, d': Device) {
    if reply.Failed? then ReadHandled(maxBytes, d, reply, d')
    else
      && reply.Discarded? && Advances(d, d') && reply.discarded == |Span(d, d')|
      && ReadStep(d, maxBytes, Ok(ReadOutcome(Span(d, d'), reply.status, reply.bytesRead, reply.truncated)), d')
  }

  ghost predicate ReadUntilHandled(find: Regex, d: Device, reply: Reply, d': Device)
    requires RegexOk(find)
  {
    if reply.Failed?
    then
      && ReadUntilStep(d, find, Err(reply.error), d')
      && reply == Fail(reply.error, false, PossibleSideEffect(reply.error))
    else reply.Found? && ReadUntilStep(d, find, Ok(reply.found), d')
  }

  /** What one handled call does to the device, and what it replies. */
  ghost predicate Handled(s: Session, l: Lookups, call: Call, d: Device, reply: Reply, d': Device) {
    && CallOk(call)
    && match call
       case Write(write) => WriteHandled(s, l, write, d, reply, d')
       case Exec(exec) => ExecHandled(s, l, exec, d, reply, d')
       case Read(maxBytes, _) => ReadHandled(Bounded(maxBytes, DEFAULT_READ), d, reply, d')
       case Drain(maxBytes) => ReadHandled(Bounded(maxBytes, MAX_READ_BUFFER), d, reply, d')
       case ClearInput(maxBytes) => ClearHandled(Bounded(maxBytes, MAX_READ_BUFFER), d, reply, d')
       case ReadUntil(_, find, _, _) => ReadUntilHandled(find, d, reply, d')
  }
}
