/** The tool handlers of one session: gates first, then the port. */
module Handlers {
  import opened Wrappers
  import opened Utf8
  import opened PatternMatching
  import opened Echo
  import opened PortSpec
  import opened Admission
  import opened Policy
  import opened Console
  import Io = PortIo

  class SessionHandlers {
    const session: Session
    const port: Io.Port

    ghost predicate Valid()
      reads port
    {
      port.Valid()
    }

    method GateRawWrite(l: Lookups) returns (blocked: Option<SerialError>)
      ensures blocked.None? <==> l.commands && session.config.commands.IsEmpty()
      ensures blocked.Some? ==> blocked.value == SessionNotFound || blocked.value == RawWriteForbidden
      ensures blocked == Some(SessionNotFound) <==> !l.commands
    {
      blocked := if !l.commands then Some(SessionNotFound)
        else if !session.config.commands.IsEmpty() then Some(RawWriteForbidden)
        else None;
    }

    method GateCommand(l: Lookups, call: ExecCall) returns (blocked: Option<SerialError>)
      ensures blocked.None? <==>
        l.commands && Admits(session.config.commands, call.command, session.config.console.lineEnding, call.lineEnding)
      ensures blocked.Some? ==> blocked.value == SessionNotFound || blocked.value.CommandBlocked?
      ensures blocked == Some(SessionNotFound) <==> !l.commands
      ensures blocked.Some? && l.commands ==>
        var rule := session.config.commands.Check(call.command, session.config.console.lineEnding, call.lineEnding);
        rule == Some(blocked.value.rule)
    {
      CheckAdmits(session.config.commands, call.command, session.config.console.lineEnding, call.lineEnding);
      if !l.commands {
        return Some(SessionNotFound);
      }
      var rule := session.config.commands.Check(call.command, session.config.console.lineEnding, call.lineEnding);
      blocked := if rule.None? then None else Some(CommandBlocked(rule.value));
    }

    method Write(l: Lookups, call: WriteCall) returns (reply: Reply)
      requires Valid()
      modifies port
      ensures Valid() && WriteHandled(session, l, call, old(port.View()), reply, port.View())
    {
      var payload := Encode(call.data);
      if |payload| > MAX_WRITE_CHUNK {
        return Fail(InvalidParam("data"), false, false);
      }
      var blocked := GateRawWrite(l);
      if blocked.Some? {
        return Fail(blocked.value, false, false);
      }
      match GateWrite(session, l, call.consent, WriteTool, payload) {
        case Blocked(e) => return Fail(e, false, false);
        case Elicit(key) => return Asked(key);
        case Proceed =>
      }
      var r := port.Write(payload);
      reply := match r
        case Ok(n) => Wrote(n)
        case Err(e) => Fail(e, PossibleSideEffect(e), false);
    }

    /** Everything that runs before the port is checked out, cheapest refusal first. */
    method CheckExec(l: Lookups, call: ExecCall) returns (decision: Decision)
      ensures decision.Run? <==>
        && WellFormedExec(session, l, call) && l.policy
        && Consents(session, call.consent, ExecTool, Transmitted(session, call)) && (call.timeoutGiven || l.timeout)
      ensures decision.Run? ==> decision.payload == Transmitted(session, call)
      ensures decision == AdmitExec(session, l, call)
    {
      ExecIsAdmitted(session, l, call, Transmitted(session, call));
      CheckAdmits(session.config.commands, call.command, session.config.console.lineEnding, call.lineEnding);
      if |Encode(call.command)| > MAX_WRITE_CHUNK {
        return Refuse(InvalidParam("command"));
      }
      if call.pattern == "" || !call.compiles {
        return Refuse(InvalidParam("expect"));
      }
      if !l.console {
        return Refuse(SessionNotFound);
      }
      var blocked := GateCommand(l, call);
      if blocked.Some? {
        return Refuse(blocked.value);
      }
      var e := Effective(session, call);
      if e.echoMode == LineEcho && e.lineEnding == NoEnding {
        return Refuse(InvalidParam("echo_mode"));
      }
      var transmitted := Encode(call.command);
      transmitted := transmitted + Terminator(e.lineEnding);
      if |transmitted| > MAX_WRITE_CHUNK {
        return Refuse(InvalidParam("command"));
      }
      match GateWrite(session, l, call.consent, ExecTool, transmitted) {
        case Blocked(error) => return Refuse(error);
        case Elicit(key) => return Ask(key);
        case Proceed =>
      }
      if !call.timeoutGiven && !l.timeout {
        return Refuse(SessionNotFound);
      }
      decision := Run(transmitted);
    }

    method Exec(l: Lookups, call: ExecCall) returns (reply: Reply)
      requires Valid() && RegexOk(call.find)
      modifies port
      ensures Valid() && ExecHandled(session, l, call, old(port.View()), reply, port.View())
      ensures reply.Asked? ==> port.trace == old(port.trace)
      ensures reply.Executed? && reply.outcome.commandWritten ==>
        Io.ExecOrder(old(port.trace), port.trace, Transmitted(session, call), call.clear, reply.outcome.status)
    {
      hide AdmitExec, ExecReported;
      var decision := CheckExec(l, call);
      if decision.Refuse? {
        return Fail(decision.error, false, false);
      } else if decision.Ask? {
        return Asked(decision.key);
      }
      reply := RunExec(Effective(session, call), decision.payload, call);
    }

    method RunExec(e: Settings, payload: seq<Byte>, call: ExecCall) returns (reply: Reply)
      requires Valid() && RegexOk(call.find)
      modifies port
      ensures Valid() && ExecReported(e, payload, call, old(port.View()), reply, port.View())
      ensures reply.Executed? && reply.outcome.commandWritten ==>
        Io.ExecOrder(old(port.trace), port.trace, payload, call.clear, reply.outcome.status)
    {
      var r := port.Exec(payload, call.pattern, call.find, call.compiles, call.clear, e.echoMode, e.lineEnding);
      reply := match r
        case Ok(o) => Executed(o, AnalysisOf(e, call.normalize, o))
        case Err(error) => Fail(error, PossibleSideEffect(error), PossibleSideEffect(error));
    }

    method Read(l: Lookups, maxBytes: Option<nat>, default: nat, timeoutGiven: bool) returns (reply: Reply)
      requires Valid()
      modifies port
      ensures Valid() && ReadHandled(Bounded(maxBytes, default), old(port.View()), reply, port.View())
    {
      if !timeoutGiven && !l.timeout {
        return Fail(SessionNotFound, false, false);
      }
      var r := port.Read(Bounded(maxBytes, default));
      reply := match r
        case Ok(o) => ReadBack(o)
        case Err(e) => Fail(e, false, PossibleSideEffect(e));
    }

    method ClearInput(maxBytes: Option<nat>) returns (reply: Reply)
      requires Valid()
      modifies port
      ensures Valid() && ClearHandled(Bounded(maxBytes, MAX_READ_BUFFER), old(port.View()), reply, port.View())
    {
      var r := port.Read(Bounded(maxBytes, MAX_READ_BUFFER));
      reply := match r
        case Ok(o) => Discarded(o.status, o.bytesRead, |o.data|, o.truncated)
        case Err(e) => Fail(e, false, PossibleSideEffect(e));
    }

    method ReadUntil(l: Lookups, pattern: string, find: Regex, compiles: bool, timeoutGiven: bool)
      returns (reply: Reply)
      requires Valid() && RegexOk(find)
      modifies port
      ensures Valid() && ReadUntilHandled(find, old(port.View()), reply, port.View())
      ensures reply.Found? ==> Io.EndedBy(old(port.trace), port.trace, reply.found.status)
    {
      if !timeoutGiven && !l.timeout {
        return Fail(SessionNotFound, false, false);
      }
      var r := port.ReadUntil(pattern, find, compiles);
      reply := match r
        case Ok(o) => Admission.Found(o)
        case Err(e) => Fail(e, false, PossibleSideEffect(e));
    }

    constructor (session: Session, port: Io.Port)
      requires port.Valid()
      ensures Valid() && this.session == session && this.port == port
    {
      this.session, this.port := session, port;
    }

    /** One call of any tool. */
    method Handle(l: Lookups, call: Call) returns (reply: Reply)
      requires Valid() && CallOk(call)
      modifies port
      ensures Valid() && Handled(session, l, call, old(port.View()), reply, port.View())
    {
      match call {
        case Write(write) => reply := Write(l, write);
        case Exec(exec) => reply := Exec(l, exec);
        case Read(maxBytes, timeoutGiven) => reply := Read(l, maxBytes, DEFAULT_READ, timeoutGiven);
        case Drain(maxBytes) => reply := Read(l, maxBytes, MAX_READ_BUFFER, true);
        case ClearInput(maxBytes) => reply := ClearInput(maxBytes);
        case ReadUntil(pattern, find, compiles, timeoutGiven) =>
          reply := ReadUntil(l, pattern, find, compiles, timeoutGiven);
      }
    }
  }
}
