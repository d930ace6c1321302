/** Whole runs of tool calls on one session: what reaches the device, and what is reported about it. */
module HandlerRuns {
  import opened Wrappers
  import opened Utf8
  import opened PatternMatching
  import opened Echo
  import opened Lines
  import Search
  import opened PortSpec
  import opened Policy
  import opened Admission
  import opened Console
  import S = Sessions

  datatype Event = Event(call: Call, lookups: Lookups, reply: Reply, after: Device)

  function Final(d: Device, run: seq<Event>): Device {
    if run == [] then d else run[|run| - 1].after
  }

  ghost predicate Step(s: Session, d: Device, e: Event) {
    Handled(s, e.lookups, e.call, d, e.reply, e.after)
  }

  ghost predicate IsRun(s: Session, d: Device, run: seq<Event>) {
    run != [] ==>
      && IsRun(s, d, run[..|run| - 1])
      && Step(s, Final(d, run[..|run| - 1]), run[|run| - 1])
  }

  /** The bytes a call asks to send. */
  function Payload(s: Session, call: Call): seq<Byte> {
    match call
    case Write(write) => Encode(write.data)
    case Exec(exec) => Transmitted(s, exec)
    case _ => []
  }

  /** The gates let the call send its payload. */
  ghost predicate Admitted(s: Session, e: Event) {
    match e.call
    case Write(write) => AdmitWrite(s, e.lookups, write) == Run(Payload(s, e.call))
    case Exec(exec) => AdmitExec(s, e.lookups, exec) == Run(Payload(s, e.call))
    case _ => false
  }

  ghost predicate Silent(d: Device, e: Event) {
    e.after.delivered == d.delivered
  }

  lemma RunSendsPayload(s: Session, l: Lookups, call: ExecCall)
    ensures AdmitExec(s, l, call).Run? ==> AdmitExec(s, l, call).payload == Transmitted(s, call)
  {
  }

  lemma ExecSends(s: Session, l: Lookups, call: ExecCall, d: Device, reply: Reply, d': Device)
    requires RegexOk(call.find) && ExecHandled(s, l, call, d, reply, d') && d.pos <= |d.incoming|
    ensures Advances(d, d') && Sent(d, d') <= Transmitted(s, call)
    ensures d'.delivered == d.delivered || AdmitExec(s, l, call) == Run(Transmitted(s, call))
  {
    RunSendsPayload(s, l, call);
    hide AdmitExec, Transmitted;
  }

  lemma WriteSends(s: Session, l: Lookups, call: WriteCall, d: Device, reply: Reply, d': Device)
    requires WriteHandled(s, l, call, d, reply, d') && d.pos <= |d.incoming|
    ensures Advances(d, d') && Sent(d, d') <= Encode(call.data)
    ensures d'.delivered == d.delivered || AdmitWrite(s, l, call) == Run(Encode(call.data))
  {
    if AdmitWrite(s, l, call).Run? {
      WriteIsAdmitted(s, l, call, AdmitWrite(s, l, call).payload);
    }
  }

  /** What reaches the device is a prefix of an admitted payload. */
  lemma StepSends(s: Session, d: Device, e: Event)
    requires Step(s, d, e) && d.pos <= |d.incoming|
    ensures Advances(d, e.after) && Sent(d, e.after) <= Payload(s, e.call)
    ensures Silent(d, e) || Admitted(s, e)
  {
    if e.call.Exec? {
      ExecSends(s, e.lookups, e.call.exec, d, e.reply, e.after);
    } else if e.call.Write? {
      WriteSends(s, e.lookups, e.call.write, d, e.reply, e.after);
    }
    hide ExecHandled, WriteHandled;
  }

  /**
   Side-effect reports are sound: an error that denies a write left the log as it was, one that denies
   consumption left the input, a question touched nothing, and success reports exactly what was sent.
   */
  lemma ReportsAreSound(s: Session, d: Device, e: Event)
    requires Step(s, d, e) && d.pos <= |d.incoming|
    ensures e.reply.Failed? && !e.reply.commandWritten ==> Silent(d, e)
    ensures e.reply.Failed? && !e.reply.bytesConsumed ==> e.after.pos == d.pos
    ensures e.reply.Asked? ==> e.after == d
    ensures e.reply.Wrote? ==>
      e.after.delivered == d.delivered + Payload(s, e.call) && e.reply.count == |Payload(s, e.call)|
    ensures e.reply.Executed? ==>
      e.after.delivered == d.delivered + (if e.reply.outcome.commandWritten then Payload(s, e.call) else [])
    ensures e.reply.ReadBack? || e.reply.Discarded? || e.reply.Found? ==> Silent(d, e)
  {
    if e.call.Exec? {
      ExecReportIsSound(s, e.lookups, e.call.exec, d, e.reply, e.after);
    } else if e.call.Write? {
      WriteReportIsSound(s, d, e);
    }
  }

  lemma ExecReportIsSound(s: Session, l: Lookups, call: ExecCall, d: Device, reply: Reply, d': Device)
    requires RegexOk(call.find) && ExecHandled(s, l, call, d, reply, d')
    ensures reply.Failed? && !(reply.commandWritten && reply.bytesConsumed) ==> d' == d
    ensures reply.Asked? ==> d' == d
    ensures reply.Failed? || reply.Asked? || reply.Executed?
    ensures reply.Executed? ==>
      d'.delivered == d.delivered + (if reply.outcome.commandWritten then Transmitted(s, call) else [])
  {
    RunSendsPayload(s, l, call);
    if reply.Executed? {
      Rejoin(d, d');
    }
  }

  lemma WriteReportIsSound(s: Session, d: Device, e: Event)
    requires Step(s, d, e) && e.call.Write?
    ensures e.after.pos == d.pos
    ensures e.reply.Failed? && !e.reply.commandWritten ==> e.after == d
    ensures e.reply.Asked? ==> e.after == d
    ensures e.reply.Failed? || e.reply.Asked? || e.reply.Wrote?
    ensures e.reply.Wrote? ==>
      e.after.delivered == d.delivered + Payload(s, e.call) && e.reply.count == |Payload(s, e.call)|
  {
    var decision := AdmitWrite(s, e.lookups, e.call.write);
    if decision.Run? {
      WriteIsAdmitted(s, e.lookups, e.call.write, decision.payload);
      if e.reply.Wrote? {
        Rejoin(d, e.after);
      }
    }
  }

  lemma Rejoin(d: Device, d': Device)
    requires Advances(d, d')
    ensures d.delivered + Sent(d, d') == d'.delivered
  {
  }

  lemma {:induction false} StepAt(s: Session, d: Device, run: seq<Event>, i: nat)
    requires IsRun(s, d, run) && i < |run| && d.pos <= |d.incoming|
    ensures IsRun(s, d, run[..i]) && Step(s, Final(d, run[..i]), run[i])
    ensures Advances(d, Final(d, run[..i]))
  {
    RunAdvances(s, d, run[..|run| - 1]);
    if i < |run| - 1 {
      StepAt(s, d, run[..|run| - 1], i);
      assert run[..|run| - 1][..i] == run[..i];
    }
  }

  lemma {:induction false} RunAdvances(s: Session, d: Device, run: seq<Event>)
    requires IsRun(s, d, run) && d.pos <= |d.incoming|
    ensures Advances(d, Final(d, run))
  {
    if run != [] {
      var front := run[..|run| - 1];
      RunAdvances(s, d, front);
      StepSends(s, Final(d, front), run[|run| - 1]);
    }
  }

  /** A session that denies writes leaves the log of its device untouched forever. */
  lemma {:induction false} DenyStaysSilent(s: Session, d: Device, run: seq<Event>)
    requires IsRun(s, d, run) && d.pos <= |d.incoming| && s.config.policy == Deny
    ensures Final(d, run).delivered == d.delivered
  {
    if run != [] {
      var front, last := run[..|run| - 1], run[|run| - 1];
      DenyStaysSilent(s, d, front);
      RunAdvances(s, d, front);
      StepSends(s, Final(d, front), last);
      AdmittedHasConsent(s, last);
    }
  }

  /** A session that was opened with a request to deny writes, or from a profile that does, never sends. */
  lemma DenyRequestStaysSilent(profile: Profile, r: OpenRequest, globalDeny: seq<string>, compile: Compiler,
      s: Session, d: Device, run: seq<Event>)
    requires Tightened(profile, r, globalDeny, compile, s.config)
    requires profile.policy == Deny || r.policy == Some(Deny)
    requires IsRun(s, d, run) && d.pos <= |d.incoming|
    ensures Final(d, run).delivered == d.delivered
  {
    ProfileIsKept(profile, r, globalDeny, compile, s.config);
    DenyStaysSilent(s, d, run);
  }

  /** A read returns no more than the caller's bound, or the tool's own, and never more than 65536 bytes. */
  lemma ReadsAreBounded(s: Session, d: Device, e: Event)
    requires Step(s, d, e) && (e.reply.ReadBack? || e.reply.Discarded?)
    ensures e.call.Read? || e.call.Drain? || e.call.ClearInput?
    ensures Advances(d, e.after)
    ensures var bound :=
        if e.call.Read? then (if e.call.maxBytes.Some? then e.call.maxBytes.value else 4096)
        else (if e.call.maxBytes.Some? then e.call.maxBytes.value else 65536);
      && |Span(d, e.after)| <= bound && |Span(d, e.after)| <= 65536
      && (e.reply.ReadBack? ==>
            (e.reply.data.truncated <==> |Span(d, e.after)| == bound || |Span(d, e.after)| == 65536))
      && (e.reply.Discarded? ==>
            (e.reply.truncated <==> |Span(d, e.after)| == bound || |Span(d, e.after)| == 65536))
  {
    if e.call.Exec? {
      ExecReportIsSound(s, e.lookups, e.call.exec, d, e.reply, e.after);
    }
    hide ExecHandled, ReadUntilStep, AdmitWrite;
  }

  lemma RefusalsAreSure(s: Session, l: Lookups, call: ExecCall)
    ensures AdmitExec(s, l, call).Refuse? ==> !PossibleSideEffect(AdmitExec(s, l, call).error)
  {
  }

  lemma FailedExec(s: Session, l: Lookups, call: ExecCall, d: Device, reply: Reply, d': Device)
    requires RegexOk(call.find) && ExecHandled(s, l, call, d, reply, d') && reply.Failed?
    ensures reply == Fail(reply.error, PossibleSideEffect(reply.error), PossibleSideEffect(reply.error))
  {
    RefusalsAreSure(s, l, call);
    hide AdmitExec, ExecStep, PossibleSideEffect;
  }

  lemma FailedWrite(s: Session, l: Lookups, call: WriteCall, d: Device, reply: Reply, d': Device)
    requires WriteHandled(s, l, call, d, reply, d') && reply.Failed?
    ensures reply == Fail(reply.error, PossibleSideEffect(reply.error), false)
  {
    hide WriteStep;
  }

  /**
   What a failure says, flag by flag: bytes may have been sent exactly if the call sends and the error is one
   of input or output, of time or of cancellation; input may be lost exactly if the call reads and the error
   is one of these; and the session stays usable unless it is gone, not ready, or its port has failed.
   */
  lemma FailuresAreFlagged(s: Session, d: Device, e: Event)
    requires Step(s, d, e) && e.reply.Failed?
    ensures var unsure := e.reply.error.Io? || e.reply.error.Timeout? || e.reply.error.Cancelled?;
      && (e.reply.commandWritten <==> unsure && (e.call.Write? || e.call.Exec?))
      && (e.reply.bytesConsumed <==> unsure && !e.call.Write?)
    ensures e.reply.usable <==>
      !e.reply.error.Io? && !e.reply.error.SessionNotFound? && !e.reply.error.InvalidState?
  {
    if e.call.Exec? {
      FailedExec(s, e.lookups, e.call.exec, d, e.reply, e.after);
    } else if e.call.Write? {
      FailedWrite(s, e.lookups, e.call.write, d, e.reply, e.after);
    }
    hide ExecHandled, WriteHandled, ReadStep, ReadUntilStep;
  }

  lemma OnlyExecExecutes(s: Session, d: Device, e: Event)
    requires Step(s, d, e) && e.reply.Executed?
    ensures e.call.Exec? && AdmitExec(s, e.lookups, e.call.exec).Run?
    ensures ExecReported(Effective(s, e.call.exec), AdmitExec(s, e.lookups, e.call.exec).payload, e.call.exec,
      d, e.reply, e.after)
  {
    hide ReadStep, ReadUntilStep, ExecReported, AdmitExec, AdmitWrite;
  }

  /** Each setting of an execution is the call's if it gives one, and the session's otherwise. */
  lemma ExecUsesItsSettings(s: Session, d: Device, e: Event)
    requires Step(s, d, e) && e.reply.Executed?
    ensures e.call.Exec?
    ensures var call, own := e.call.exec, s.config.console;
      var echo := if call.echoMode.Some? then call.echoMode.value else own.echoMode;
      var ending := if call.lineEnding.Some? then call.lineEnding.value else own.lineEnding;
      var prompt := if call.prompt.Some? then call.prompt.value else own.prompt;
      && ExecStep(d, Encode(call.command + EndOfLine(ending)), call.find, echo, ending, call.clear,
           Ok(e.reply.outcome), e.after)
      && (e.reply.analysis.None? <==> !call.normalize && echo == UnknownEcho && prompt == NoPrompt)
      && (e.reply.analysis.Some? ==>
            e.reply.analysis.value == Analyze(e.reply.outcome.output, Settings(ending, echo, prompt)))
  {
    hide ExecStep, ReadStep, ReadUntilStep, WriteHandled;
    OnlyExecExecutes(s, d, e);
    PayloadIsSpelled(s, e.lookups, e.call.exec, AdmitExec(s, e.lookups, e.call.exec).payload);
  }

  function ToolOf(call: Call): Tool {
    if call.Write? then WriteTool else ExecTool
  }

  function ConsentOf(call: Call): Consent
    requires call.Write? || call.Exec?
  {
    if call.Write? then call.write.consent else call.exec.consent
  }

  lemma AdmittedHasConsent(s: Session, e: Event)
    requires CallOk(e.call)
    ensures Admitted(s, e) ==> e.call.Write? || e.call.Exec?
    ensures Admitted(s, e) ==> Consents(s, ConsentOf(e.call), ToolOf(e.call), Payload(s, e.call))
  {
    if e.call.Exec? {
      ExecIsAdmitted(s, e.lookups, e.call.exec, Payload(s, e.call));
    } else if e.call.Write? {
      WriteIsAdmitted(s, e.lookups, e.call.write, Payload(s, e.call));
    }
  }

  /** Something a person agreed to send. */
  datatype Approval = Approval(id: S.SessionId, tool: Tool, payload: seq<Byte>)

  /** The assumption on the digest: no two of these finitely many payloads have the same key. */
  ghost predicate Apart(digest: Digest, payloads: set<Approval>) {
    forall a, b ::
      a in payloads && b in payloads && digest(a.id, a.tool, a.payload) == digest(b.id, b.tool, b.payload) ==>
        a == b
  }

  predicate Sends(call: Call) {
    call.Write? || call.Exec?
  }

  /** What a call wants to send, and how. */
  function Wanted(s: Session, call: Call): Approval {
    Approval(s.id, ToolOf(call), Payload(s, call))
  }

  ghost function AllWanted(s: Session, run: seq<Event>): set<Approval> {
    set i | 0 <= i < |run| && Sends(run[i].call) :: Wanted(s, run[i].call)
  }

  ghost predicate IsApproved(s: Session, key: string, approved: set<Approval>) {
    exists a :: a in approved && s.digest(a.id, a.tool, a.payload) == key
  }

  /** Every acceptance that came with a call is under the key of something the person approved. */
  ghost predicate HonestAnswers(s: Session, c: Consent, approved: set<Approval>) {
    c.answers.Some? ==>
      forall key :: key in c.answers.value && c.answers.value[key] == Accept(Some(true)) ==>
        IsApproved(s, key, approved)
  }

  /** The client returns an acceptance only under the key of something the person approved. */
  ghost predicate HonestHost(s: Session, run: seq<Event>, approved: set<Approval>) {
    forall i :: 0 <= i < |run| && (run[i].call.Write? || run[i].call.Exec?) ==>
      HonestAnswers(s, ConsentOf(run[i].call), approved)
  }

  /**
   On a session that asks first, nothing reaches the device without consent: from a client that can ask
   a person, only payloads that person approved for this session and tool; from any other, only calls
   that carried the flag themselves.
   */
  lemma OnlyApprovedIsSent(s: Session, d: Device, run: seq<Event>, approved: set<Approval>, i: nat)
    requires IsRun(s, d, run) && d.pos <= |d.incoming| && s.config.policy == Confirm
    requires Apart(s.digest, approved + AllWanted(s, run)) && HonestHost(s, run, approved) && i < |run|
    requires !Silent(Final(d, run[..i]), run[i])
    ensures run[i].call.Write? || run[i].call.Exec?
    ensures Advances(Final(d, run[..i]), run[i].after)
    ensures Sent(Final(d, run[..i]), run[i].after) <= Payload(s, run[i].call)
    ensures if ConsentOf(run[i].call).canElicit
      then Approval(s.id, ToolOf(run[i].call), Payload(s, run[i].call)) in approved
      else ConsentOf(run[i].call).confirm == Some(true)
  {
    var e := run[i];
    StepAt(s, d, run, i);
    StepSends(s, Final(d, run[..i]), e);
    AdmittedHasConsent(s, e);
    hide Step, IsRun, Admitted;
    if ConsentOf(e.call).canElicit {
      var key := s.digest(s.id, ToolOf(e.call), Payload(s, e.call));
      assert HonestAnswers(s, ConsentOf(e.call), approved);
      assert IsApproved(s, key, approved);
      var a :| a in approved && s.digest(a.id, a.tool, a.payload) == key;
      assert Wanted(s, e.call) in AllWanted(s, run);
      assert a == Wanted(s, e.call);
    }
  }

  lemma ExecAsks(s: Session, l: Lookups, call: ExecCall)
    ensures AdmitExec(s, l, call).Ask? ==> AdmitExec(s, l, call).key == s.digest(s.id, ExecTool, Transmitted(s, call))
  {
  }

  lemma AskedExec(s: Session, l: Lookups, call: ExecCall, d: Device, reply: Reply, d': Device)
    requires RegexOk(call.find) && ExecHandled(s, l, call, d, reply, d') && reply.Asked?
    ensures reply.key == s.digest(s.id, ExecTool, Transmitted(s, call))
  {
    ExecAsks(s, l, call);
    hide AdmitExec, ExecStep, Transmitted, Effective;
  }

  lemma AskedWrite(s: Session, l: Lookups, call: WriteCall, d: Device, reply: Reply, d': Device)
    requires WriteHandled(s, l, call, d, reply, d') && reply.Asked?
    ensures reply.key == s.digest(s.id, WriteTool, Encode(call.data))
  {
  }

  lemma OnlyGatesAsk(s: Session, d: Device, e: Event)
    requires Step(s, d, e) && e.reply.Asked?
    ensures e.call.Write? || e.call.Exec?
  {
    hide ExecHandled, WriteHandled, ReadStep, ReadUntilStep;
  }

  /** A question is put to a person only about the very bytes of the call, under their key. */
  lemma AskedKeyIsOfPayload(s: Session, d: Device, e: Event)
    requires Step(s, d, e) && e.reply.Asked?
    ensures (e.call.Write? || e.call.Exec?) && e.reply.key == s.digest(s.id, ToolOf(e.call), Payload(s, e.call))
  {
    OnlyGatesAsk(s, d, e);
    hide ExecHandled, WriteHandled;
    if e.call.Exec? {
      AskedExec(s, e.lookups, e.call.exec, d, e.reply, e.after);
    } else {
      AskedWrite(s, e.lookups, e.call.write, d, e.reply, e.after);
    }
  }

  ghost predicate AskedBefore(run: seq<Event>, j: nat, key: string) {
    exists i :: 0 <= i < |run| && i < j && run[i].reply == Asked(key)
  }

  predicate Accepts(c: Consent, key: string) {
    c.answers.Some? && key in c.answers.value && c.answers.value[key] == Accept(Some(true))
  }

  /** Every acceptance that comes with call `j` answers a question asked before it. */
  ghost predicate AnswersQuestions(run: seq<Event>, j: nat)
    requires j < |run|
  {
    (run[j].call.Write? || run[j].call.Exec?) && ConsentOf(run[j].call).answers.Some? ==>
      forall key :: Accepts(ConsentOf(run[j].call), key) ==> AskedBefore(run, j, key)
  }

  /** Call `i` was put to a person, and asked to send with the same tool the same bytes as call `j`. */
  ghost predicate ShownBefore(s: Session, run: seq<Event>, i: nat, j: nat) {
    && i < j < |run| && run[i].reply.Asked? && (run[i].call.Write? <==> run[j].call.Write?)
    && Payload(s, run[i].call) == Payload(s, run[j].call)
  }

  /**
   Nothing is sent that was not shown first: on a session that asks, over any run, when a call from a
   client that can ask a person sends anything, an earlier call put exactly these bytes, for the same
   tool, to that person; and no more than these bytes is sent.
   */
  lemma SentWasShown(s: Session, d: Device, run: seq<Event>, j: nat) returns (i: nat)
    requires IsRun(s, d, run) && d.pos <= |d.incoming| && s.config.policy == Confirm
    requires Apart(s.digest, AllWanted(s, run))
    requires j < |run| && AnswersQuestions(run, j) && !Silent(Final(d, run[..j]), run[j])
    requires (run[j].call.Write? || run[j].call.Exec?) ==> ConsentOf(run[j].call).canElicit
    ensures ShownBefore(s, run, i, j)
    ensures Advances(Final(d, run[..j]), run[j].after)
    ensures Sent(Final(d, run[..j]), run[j].after) <= Payload(s, run[j].call)
  {
    var e := run[j];
    StepAt(s, d, run, j);
    StepSends(s, Final(d, run[..j]), e);
    AdmittedHasConsent(s, e);
    var key := s.digest(s.id, ToolOf(e.call), Payload(s, e.call));
    assert Accepts(ConsentOf(e.call), key);
    assert AskedBefore(run, j, key);
    i :| 0 <= i < |run| && i < j && run[i].reply == Asked(key);
    StepAt(s, d, run, i);
    AskedKeyIsOfPayload(s, Final(d, run[..i]), run[i]);
    assert Wanted(s, run[i].call) in AllWanted(s, run) && Wanted(s, e.call) in AllWanted(s, run);
  }

  /** The whole payload of the call was sent. */
  ghost predicate Whole(s: Session, d: Device, e: Event) {
    Payload(s, e.call) != [] && e.after.delivered == d.delivered + Payload(s, e.call)
  }

  /** The line a call sent whole, if any. */
  ghost function NewLines(s: Session, d: Device, e: Event): seq<seq<Byte>> {
    if e.call.Exec? && Whole(s, d, e) then [Encode(e.call.exec.command)] else []
  }

  /** The commands of which every byte was sent, as lines. */
  ghost function WholeLines(s: Session, d: Device, run: seq<Event>): seq<seq<Byte>> {
    if run == [] then []
    else
      var front, last := run[..|run| - 1], run[|run| - 1];
      WholeLines(s, d, front) + NewLines(s, Final(d, front), last)
  }

  /** How many bytes a call sent if it was cut short. */
  ghost function Cut(s: Session, d: Device, e: Event): nat {
    if Whole(s, d, e) || |e.after.delivered| < |d.delivered| then 0 else |e.after.delivered| - |d.delivered|
  }

  ghost function CutBytes(s: Session, d: Device, run: seq<Event>): nat {
    if run == [] then 0
    else
      var front, last := run[..|run| - 1], run[|run| - 1];
      CutBytes(s, d, front) + Cut(s, Final(d, front), last)
  }

  ghost predicate Guarded(s: Session) {
    !s.config.commands.IsEmpty() && s.config.console.lineEnding != NoEnding
  }

  ghost function LineEnd(s: Session): seq<Byte> {
    Terminator(s.config.console.lineEnding)
  }

  /** On a guarded session, only admitted commands send anything, each as one line with the session's terminator. */
  lemma GuardedStep(s: Session, d: Device, e: Event)
    requires Step(s, d, e) && d.pos <= |d.incoming| && !s.config.commands.IsEmpty() && !Silent(d, e)
    ensures e.call.Exec? && Guarded(s)
    ensures Admits(s.config.commands, e.call.exec.command, s.config.console.lineEnding, e.call.exec.lineEnding)
    ensures Payload(s, e.call) == Encode(e.call.exec.command) + LineEnd(s)
    ensures Search.Free(Encode(e.call.exec.command), LineEnd(s))
  {
    StepSends(s, d, e);
    if e.call.Write? {
      WriteIsAdmitted(s, e.lookups, e.call.write, Payload(s, e.call));
    } else {
      var call := e.call.exec;
      ExecIsAdmitted(s, e.lookups, call, Payload(s, e.call));
      AdmittedIsOneLine(s.config.commands, call.command, s.config.console.lineEnding, call.lineEnding);
    }
  }

  ghost predicate AreFree(lines: seq<seq<Byte>>, s: Session) {
    forall i :: 0 <= i < |lines| ==> Search.Free(lines[i], LineEnd(s))
  }

  lemma OneLine(line: seq<Byte>, t: seq<Byte>)
    ensures Joined([line], t) == line + t
  {
  }

  lemma SilentIsNotWhole(s: Session, d: Device, e: Event)
    requires Silent(d, e)
    ensures !Whole(s, d, e)
  {
    if Payload(s, e.call) != [] {
      assert |d.delivered + Payload(s, e.call)| > |d.delivered|;
    }
  }

  /** What one call of a guarded session adds to the log. */
  lemma GuardedAdds(s: Session, d: Device, e: Event)
    requires Step(s, d, e) && d.pos <= |d.incoming| && !s.config.commands.IsEmpty()
    ensures Advances(d, e.after) && AreFree(NewLines(s, d, e), s)
    ensures |Sent(d, e.after)| == |Joined(NewLines(s, d, e), LineEnd(s))| + Cut(s, d, e)
    ensures Cut(s, d, e) == 0 ==> Sent(d, e.after) == Joined(NewLines(s, d, e), LineEnd(s))
  {
    StepSends(s, d, e);
    if Silent(d, e) {
      SilentIsNotWhole(s, d, e);
    } else {
      GuardedStep(s, d, e);
      OneLine(Encode(e.call.exec.command), LineEnd(s));
    }
  }

  /** The log in numbers: whole lines, and what was cut short. */
  lemma {:induction false} LogLength(s: Session, d: Device, run: seq<Event>)
    requires IsRun(s, d, run) && d.pos <= |d.incoming| && !s.config.commands.IsEmpty()
    ensures Advances(d, Final(d, run)) && AreFree(WholeLines(s, d, run), s)
    ensures |Sent(d, Final(d, run))| == |Joined(WholeLines(s, d, run), LineEnd(s))| + CutBytes(s, d, run)
  {
    if run != [] {
      var front, last := run[..|run| - 1], run[|run| - 1];
      var before := Final(d, front);
      LogLength(s, d, front);
      GuardedAdds(s, before, last);
      JoinedAppend(WholeLines(s, d, front), NewLines(s, before, last), LineEnd(s));
    }
  }

  lemma SentTwice(d: Device, d1: Device, d2: Device)
    requires Advances(d, d1) && Advances(d1, d2)
    ensures Advances(d, d2) && Sent(d, d2) == Sent(d, d1) + Sent(d1, d2)
  {
  }

  /** Without a cut-short write, the log is the whole lines. */
  lemma {:induction false} LogIsLines(s: Session, d: Device, run: seq<Event>)
    requires IsRun(s, d, run) && d.pos <= |d.incoming| && !s.config.commands.IsEmpty() && CutBytes(s, d, run) == 0
    ensures Advances(d, Final(d, run)) && Sent(d, Final(d, run)) == Joined(WholeLines(s, d, run), LineEnd(s))
  {
    if run != [] {
      var front, last := run[..|run| - 1], run[|run| - 1];
      var before := Final(d, front);
      LogIsLines(s, d, front);
      GuardedAdds(s, before, last);
      SentTwice(d, before, last.after);
      JoinedAppend(WholeLines(s, d, front), NewLines(s, before, last), LineEnd(s));
    }
  }

  /** Each call sent its whole payload or nothing. */
  ghost predicate NoneCutShort(s: Session, d: Device, run: seq<Event>) {
    forall i :: 0 <= i < |run| ==> Silent(Final(d, run[..i]), run[i]) || Whole(s, Final(d, run[..i]), run[i])
  }

  lemma NoneCutShortFront(s: Session, d: Device, run: seq<Event>)
    requires run != []
    ensures var front, last := run[..|run| - 1], run[|run| - 1];
      NoneCutShort(s, d, run) <==>
        NoneCutShort(s, d, front) && (Silent(Final(d, front), last) || Whole(s, Final(d, front), last))
  {
    var front := run[..|run| - 1];
    forall i | 0 <= i < |front|
      ensures front[i] == run[i] && front[..i] == run[..i]
    {
    }
    if NoneCutShort(s, d, run) {
      assert forall i :: 0 <= i < |front| ==> front[i] == run[i] && front[..i] == run[..i];
    }
  }

  lemma {:induction false} NoCutBytes(s: Session, d: Device, run: seq<Event>)
    requires IsRun(s, d, run) && d.pos <= |d.incoming|
    ensures CutBytes(s, d, run) == 0 <==> NoneCutShort(s, d, run)
  {
    if run != [] {
      var front, last := run[..|run| - 1], run[|run| - 1];
      NoCutBytes(s, d, front);
      NoneCutShortFront(s, d, run);
      RunAdvances(s, d, front);
      StepSends(s, Final(d, front), last);
    }
  }

  /**
   The guarded log parses back: splitting what a guarded session sent at its terminator gives exactly
   the commands that were sent whole, in order and with nothing left over, iff no write was cut short.
   */
  lemma GuardedLogParsesBack(s: Session, d: Device, run: seq<Event>)
    requires IsRun(s, d, run) && d.pos <= |d.incoming| && Guarded(s)
    ensures Advances(d, Final(d, run))
    ensures SplitLines(Sent(d, Final(d, run)), LineEnd(s)) == (WholeLines(s, d, run), []) <==> NoneCutShort(s, d, run)
  {
    var log, lines, t := WholeLog(s, d, run), WholeLines(s, d, run), LineEnd(s);
    LogLength(s, d, run);
    NoCutBytes(s, d, run);
    if CutBytes(s, d, run) == 0 {
      LogIsLines(s, d, run);
      JoinedIsSplit(lines, s.config.console.lineEnding);
    } else if SplitLines(log, t) == (lines, []) {
      SplitIsJoined(log, t);
    }
  }

  ghost function WholeLog(s: Session, d: Device, run: seq<Event>): seq<Byte>
    requires IsRun(s, d, run) && d.pos <= |d.incoming|
  {
    RunAdvances(s, d, run);
    Sent(d, Final(d, run))
  }

  /** A guarded session without a terminator sends nothing at all. */
  lemma {:induction false} UnterminatedStaysSilent(s: Session, d: Device, run: seq<Event>)
    requires IsRun(s, d, run) && d.pos <= |d.incoming| && !s.config.commands.IsEmpty() && !Guarded(s)
    ensures Final(d, run).delivered == d.delivered
  {
    if run != [] {
      var front, last := run[..|run| - 1], run[|run| - 1];
      UnterminatedStaysSilent(s, d, front);
      RunAdvances(s, d, front);
      if !Silent(Final(d, front), last) {
        GuardedStep(s, Final(d, front), last);
      }
    }
  }

  /** Whatever a guarded session sends, in whatever run, is a prefix of one admitted line per call. */
  lemma CutShortIsPrefix(s: Session, d: Device, run: seq<Event>, i: nat)
    requires IsRun(s, d, run) && d.pos <= |d.incoming| && !s.config.commands.IsEmpty() && i < |run|
    requires !Silent(Final(d, run[..i]), run[i])
    ensures run[i].call.Exec? && Advances(Final(d, run[..i]), run[i].after)
    ensures var call := run[i].call.exec;
      && Admits(s.config.commands, call.command, s.config.console.lineEnding, call.lineEnding)
      && Sent(Final(d, run[..i]), run[i].after) <= Encode(call.command) + LineEnd(s)
  {
    StepAt(s, d, run, i);
    StepSends(s, Final(d, run[..i]), run[i]);
    GuardedStep(s, Final(d, run[..i]), run[i]);
  }
}
