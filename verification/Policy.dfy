/** Command policies: server-owned rules that judge one complete command line. */
module Policy {
  import opened Wrappers
  import opened Utf8
  import opened Search
  import opened Echo
  import D = Decimal

  /** A compiled pattern; which lines it matches is not modelled. */
  type Pattern = string -> bool

  /** Compiles a pattern, if it is one and within the size limits. */
  type Compiler = string -> Option<Pattern>

  datatype Rule = Rule(name: string, pattern: Pattern)

  datatype CommandPolicy = CommandPolicy(deny: seq<Rule>, allow: seq<Rule>) {
    predicate IsEmpty() {
      deny == [] && allow == []
    }

    function MatchedRule(command: string): Option<string> {
      match FirstMatching(deny, command)
      case Some(i) => Some(deny[i].name)
      case None => if allow != [] && FirstMatching(allow, command).None? then Some(NO_MATCH) else None
    }

    /** The check or rule that blocks a command; an empty policy imposes nothing. */
    function Check(command: string, session: LineEnding, requested: Option<LineEnding>): Option<string> {
      if IsEmpty() then None
      else if requested.Some? && requested.value != session then Some(LINE_ENDING_OVERRIDE)
      else if session == NoEnding then Some(NO_LINE_ENDING)
      else if exists i :: 0 <= i < |command| && IsControl(command[i]) then Some(CONTROL_CHAR)
      else if command != [] && command[|command| - 1] == '\\' then Some(LINE_CONTINUATION)
      else MatchedRule(command)
    }
  }

  const NO_MATCH := "allow.profile.no_match"
  const LINE_ENDING_OVERRIDE := "shape.line_ending_override"
  const NO_LINE_ENDING := "shape.no_line_ending"
  const CONTROL_CHAR := "shape.control_char"
  const LINE_CONTINUATION := "shape.line_continuation"

  const SHAPES := [LINE_ENDING_OVERRIDE, NO_LINE_ENDING, CONTROL_CHAR, LINE_CONTINUATION]

  /** The control characters of Unicode (category Cc). */
  predicate IsControl(c: char) {
    c < ' ' || '\U{7F}' <= c <= '\U{9F}'
  }

  /** The first rule that matches. */
  function FirstMatching(rules: seq<Rule>, command: string): (r: Option<nat>)
    ensures r.Some? ==> r.value < |rules| && rules[r.value].pattern(command)
    ensures r.Some? ==> forall i :: 0 <= i < r.value ==> !rules[i].pattern(command)
    ensures r.None? ==> forall i :: 0 <= i < |rules| ==> !rules[i].pattern(command)
  {
    First(rules, (rule: Rule) => rule.pattern(command))
  }

  predicate Matches(rules: seq<Rule>, command: string) {
    exists i :: 0 <= i < |rules| && rules[i].pattern(command)
  }

  /** Compiles a list; the first pattern that does not compile refuses it as a whole. */
  function CompileRules(prefix: string, patterns: seq<string>, compile: Compiler): Result<seq<Rule>, SerialError> {
    if patterns == [] then Ok([])
    else
      var n := |patterns| - 1;
      match CompileRules(prefix, patterns[..n], compile)
      case Err(e) => Err(e)
      case Ok(rules) =>
        match compile(patterns[n])
        case None => Err(InvalidParam("command_policy"))
        case Some(pattern) => Ok(rules + [Rule(prefix + "." + D.Digits(n), pattern)])
  }

  lemma {:induction false} FirstBadPattern(prefix: string, patterns: seq<string>, compile: Compiler)
    ensures var r := CompileRules(prefix, patterns, compile); r.Err? ==> r.error == InvalidParam("command_policy")
  {
    if patterns != [] {
      FirstBadPattern(prefix, patterns[..|patterns| - 1], compile);
    }
  }

  /** The policy of a session: global rules first, then the profile's, then the caller's. */
  function Compile(globalDeny: seq<string>, profileDeny: seq<string>, profileAllow: seq<string>,
      callerDeny: seq<string>, compile: Compiler): Result<CommandPolicy, SerialError>
  {
    var g := CompileRules("deny.global", globalDeny, compile);
    var p := CompileRules("deny.profile", profileDeny, compile);
    var c := CompileRules("deny.caller", callerDeny, compile);
    var a := CompileRules("allow.profile", profileAllow, compile);
    if g.Err? then Err(g.error)
    else if p.Err? then Err(p.error)
    else if c.Err? then Err(c.error)
    else if a.Err? then Err(a.error)
    else Ok(CommandPolicy(g.value + p.value + c.value, a.value))
  }

  lemma CompileFails(g: seq<string>, p: seq<string>, a: seq<string>, c: seq<string>, compile: Compiler)
    ensures var r := Compile(g, p, a, c, compile); r.Err? ==> r.error == InvalidParam("command_policy")
  {
    FirstBadPattern("deny.global", g, compile);
    FirstBadPattern("deny.profile", p, compile);
    FirstBadPattern("deny.caller", c, compile);
    FirstBadPattern("allow.profile", a, compile);
  }

  /** All patterns compile, and one of them matches. */
  predicate Compiles(patterns: seq<string>, compile: Compiler) {
    forall i :: 0 <= i < |patterns| ==> compile(patterns[i]).Some?
  }

  predicate Hit(patterns: seq<string>, compile: Compiler, command: string)
    requires Compiles(patterns, compile)
  {
    exists i :: 0 <= i < |patterns| && compile(patterns[i]).value(command)
  }

  lemma {:induction false} CompiledRules(prefix: string, patterns: seq<string>, compile: Compiler)
    ensures CompileRules(prefix, patterns, compile).Ok? <==> Compiles(patterns, compile)
    ensures Compiles(patterns, compile) ==>
      var rules := CompileRules(prefix, patterns, compile).value;
      && |rules| == |patterns|
      && (forall i :: 0 <= i < |rules| ==> rules[i] == Rule(prefix + "." + D.Digits(i), compile(patterns[i]).value))
  {
    if patterns != [] {
      CompiledRules(prefix, patterns[..|patterns| - 1], compile);
    }
  }

  lemma CompiledHit(prefix: string, patterns: seq<string>, compile: Compiler, command: string)
    requires Compiles(patterns, compile)
    ensures CompileRules(prefix, patterns, compile).Ok?
    ensures Matches(CompileRules(prefix, patterns, compile).value, command) <==> Hit(patterns, compile, command)
    ensures CompileRules(prefix, patterns, compile).value == [] <==> patterns == []
  {
    CompiledRules(prefix, patterns, compile);
    var rules := CompileRules(prefix, patterns, compile).value;
    if Hit(patterns, compile, command) {
      var i :| 0 <= i < |patterns| && compile(patterns[i]).value(command);
      assert rules[i].pattern(command);
    }
  }

  lemma MatchesJoin(a: seq<Rule>, b: seq<Rule>, command: string)
    ensures Matches(a + b, command) <==> Matches(a, command) || Matches(b, command)
  {
    if Matches(a, command) {
      var i :| 0 <= i < |a| && a[i].pattern(command);
      assert (a + b)[i].pattern(command);
    } else if Matches(b, command) {
      var i :| 0 <= i < |b| && b[i].pattern(command);
      assert (a + b)[|a| + i].pattern(command);
    }
  }

  /** The command is one line that ends where the session's terminator is, and the rules admit it. */
  ghost predicate Admits(p: CommandPolicy, command: string, session: LineEnding, requested: Option<LineEnding>) {
    p.IsEmpty() ||
    (&& session != NoEnding && (requested == None || requested == Some(session))
     && (forall i :: 0 <= i < |command| ==> !IsControl(command[i]))
     && (command != [] ==> command[|command| - 1] != '\\')
     && !Matches(p.deny, command) && (p.allow == [] || Matches(p.allow, command)))
  }

  lemma CheckAdmits(p: CommandPolicy, command: string, session: LineEnding, requested: Option<LineEnding>)
    ensures p.Check(command, session, requested) == None <==> Admits(p, command, session, requested)
  {
    if FirstMatching(p.deny, command).Some? {
      assert p.deny[FirstMatching(p.deny, command).value].pattern(command);
    }
    if FirstMatching(p.allow, command).Some? {
      assert p.allow[FirstMatching(p.allow, command).value].pattern(command);
    }
  }

  /**
   What a compiled policy means: it exists iff every pattern compiles, is empty iff there are none, and
   its rules admit exactly the lines that no global, profile or caller rule denies and, if the profile
   allows some, that one of those matches.
   */
  lemma CompiledPolicy(g: seq<string>, p: seq<string>, a: seq<string>, c: seq<string>,
      compile: Compiler, command: string)
    ensures Compile(g, p, a, c, compile).Ok? <==>
      Compiles(g, compile) && Compiles(p, compile) && Compiles(a, compile) && Compiles(c, compile)
    ensures Compile(g, p, a, c, compile).Ok? ==>
      var policy := Compile(g, p, a, c, compile).value;
      && (policy.IsEmpty() <==> g == [] && p == [] && a == [] && c == [])
      && (Matches(policy.deny, command) <==>
          Hit(g, compile, command) || Hit(p, compile, command) || Hit(c, compile, command))
      && (policy.allow == [] <==> a == [])
      && (Matches(policy.allow, command) <==> Hit(a, compile, command))
  {
    CompiledRules("deny.global", g, compile);
    CompiledRules("deny.profile", p, compile);
    CompiledRules("deny.caller", c, compile);
    CompiledRules("allow.profile", a, compile);
    if Compile(g, p, a, c, compile).Ok? {
      CompiledHit("deny.global", g, compile, command);
      CompiledHit("deny.profile", p, compile, command);
      CompiledHit("deny.caller", c, compile, command);
      CompiledHit("allow.profile", a, compile, command);
      var gs := CompileRules("deny.global", g, compile).value;
      var ps := CompileRules("deny.profile", p, compile).value;
      MatchesJoin(gs, ps, command);
      MatchesJoin(gs + ps, CompileRules("deny.caller", c, compile).value, command);
    }
  }

  /** The first pattern of a list that matches. */
  function FirstHit(patterns: seq<string>, compile: Compiler, command: string): (i: nat)
    requires Compiles(patterns, compile) && Hit(patterns, compile, command)
    ensures i < |patterns| && compile(patterns[i]).value(command)
    ensures forall k :: 0 <= k < i ==> !compile(patterns[k]).value(command)
  {
    if compile(patterns[0]).value(command) then 0 else 1 + FirstHit(patterns[1..], compile, command)
  }

  /** The name of the first rule that matches. */
  function FirstName(rules: seq<Rule>, command: string): Option<string> {
    match FirstMatching(rules, command)
    case None => None
    case Some(i) => Some(rules[i].name)
  }

  lemma FirstNameInJoin(a: seq<Rule>, b: seq<Rule>, command: string)
    ensures FirstName(a + b, command) ==
      if FirstName(a, command).Some? then FirstName(a, command) else FirstName(b, command)
  {
    var all := a + b;
    assert forall i :: 0 <= i < |a| ==> all[i] == a[i];
    assert forall i :: 0 <= i < |b| ==> all[|a| + i] == b[i];
    hide FirstMatching;
    var first := FirstMatching(all, command);
    if FirstMatching(a, command).Some? {
      assert all[FirstMatching(a, command).value].pattern(command);
    } else if FirstMatching(b, command).Some? {
      assert all[|a| + FirstMatching(b, command).value].pattern(command);
      if first.Some? && first.value >= |a| {
        assert all[first.value] == b[first.value - |a|];
      }
    } else {
      forall i | 0 <= i < |all|
        ensures !all[i].pattern(command)
      {
        assert i >= |a| ==> all[i] == b[i - |a|];
      }
    }
  }

  /** The name a list gives to its first pattern that matches. */
  function HitName(prefix: string, patterns: seq<string>, compile: Compiler, command: string): Option<string>
    requires Compiles(patterns, compile)
  {
    if Hit(patterns, compile, command)
    then Some(prefix + "." + D.Digits(FirstHit(patterns, compile, command)))
    else None
  }

  lemma FirstNameOfCompiled(prefix: string, patterns: seq<string>, compile: Compiler, command: string)
    requires Compiles(patterns, compile)
    ensures CompileRules(prefix, patterns, compile).Ok?
    ensures FirstName(CompileRules(prefix, patterns, compile).value, command) ==
      HitName(prefix, patterns, compile, command)
  {
    CompiledRules(prefix, patterns, compile);
    CompiledHit(prefix, patterns, compile, command);
  }

  /** The rule reported for a blocked command: global before profile before caller, each list in its order. */
  lemma ReportedRule(g: seq<string>, p: seq<string>, a: seq<string>, c: seq<string>, compile: Compiler, command: string)
    requires Compiles(g, compile) && Compiles(p, compile) && Compiles(a, compile) && Compiles(c, compile)
    ensures Compile(g, p, a, c, compile).Ok?
    ensures Compile(g, p, a, c, compile).value.MatchedRule(command) ==
      if Hit(g, compile, command) then HitName("deny.global", g, compile, command)
      else if Hit(p, compile, command) then HitName("deny.profile", p, compile, command)
      else if Hit(c, compile, command) then HitName("deny.caller", c, compile, command)
      else if a != [] && !Hit(a, compile, command) then Some(NO_MATCH)
      else None
  {
    CompiledPolicy(g, p, a, c, compile, command);
    FirstNameOfCompiled("deny.global", g, compile, command);
    FirstNameOfCompiled("deny.profile", p, compile, command);
    FirstNameOfCompiled("deny.caller", c, compile, command);
    FirstNameOfCompiled("allow.profile", a, compile, command);
    var gs := CompileRules("deny.global", g, compile).value;
    var ps := CompileRules("deny.profile", p, compile).value;
    FirstNameInJoin(gs, ps, command);
    FirstNameInJoin(gs + ps, CompileRules("deny.caller", c, compile).value, command);
  }

  lemma RuleNamesAreNotShapes(index: string)
    ensures "deny.global" + "." + index !in SHAPES
    ensures "deny.profile" + "." + index !in SHAPES
    ensures "deny.caller" + "." + index !in SHAPES
    ensures NO_MATCH !in SHAPES
  {
    forall id | id in SHAPES
      ensures id[0] == 's'
    {
    }
    assert ("deny.global" + "." + index)[0] == 'd';
    assert ("deny.profile" + "." + index)[0] == 'd';
    assert ("deny.caller" + "." + index)[0] == 'd';
    assert NO_MATCH[0] == 'a';
  }

  /**
   The id reported for a blocked command explains it: the structural checks come first, in their order,
   and any other id is that of the first rule that denies, or of the missing allow.
   */
  lemma BlockIsExplained(g: seq<string>, p: seq<string>, a: seq<string>, c: seq<string>, compile: Compiler,
      command: string, session: LineEnding, requested: Option<LineEnding>)
    requires Compiles(g, compile) && Compiles(p, compile) && Compiles(a, compile) && Compiles(c, compile)
    requires g != [] || p != [] || a != [] || c != []
    ensures Compile(g, p, a, c, compile).Ok?
    ensures var policy := Compile(g, p, a, c, compile).value;
      var id := policy.Check(command, session, requested);
      var overrides := requested.Some? && requested.value != session;
      var controls := exists i :: 0 <= i < |command| && IsControl(command[i]);
      var continues := command != [] && command[|command| - 1] == '\\';
      && (id == Some(LINE_ENDING_OVERRIDE) <==> overrides)
      && (id == Some(NO_LINE_ENDING) <==> !overrides && session == NoEnding)
      && (id == Some(CONTROL_CHAR) <==> !overrides && session != NoEnding && controls)
      && (id == Some(LINE_CONTINUATION) <==> !overrides && session != NoEnding && !controls && continues)
      && (!overrides && session != NoEnding && !controls && !continues ==> id == policy.MatchedRule(command))
  {
    CompiledPolicy(g, p, a, c, compile, command);
    ReportedRule(g, p, a, c, compile, command);
    ShapesDiffer();
    if Hit(g, compile, command) {
      RuleNamesAreNotShapes(D.Digits(FirstHit(g, compile, command)));
    } else if Hit(p, compile, command) {
      RuleNamesAreNotShapes(D.Digits(FirstHit(p, compile, command)));
    } else if Hit(c, compile, command) {
      RuleNamesAreNotShapes(D.Digits(FirstHit(c, compile, command)));
    } else {
      RuleNamesAreNotShapes("");
    }
  }

  lemma ShapesDiffer()
    ensures forall i, j :: 0 <= i < j < |SHAPES| ==> SHAPES[i] != SHAPES[j]
  {
    assert LINE_ENDING_OVERRIDE[6] == 'l' && NO_LINE_ENDING[6] == 'n'
      && CONTROL_CHAR[6] == 'c' && LINE_CONTINUATION[6] == 'l';
    assert LINE_ENDING_OVERRIDE[11] == 'e' && LINE_CONTINUATION[11] == 'c';
  }

  lemma HitMore(c: seq<string>, more: seq<string>, compile: Compiler, command: string)
    requires Compiles(c + more, compile)
    ensures Compiles(c, compile) && Compiles(more, compile)
    ensures Hit(c, compile, command) ==> Hit(c + more, compile, command)
    ensures Hit(more, compile, command) ==> Hit(c + more, compile, command)
  {
    forall i | 0 <= i < |c|
      ensures compile(c[i]).Some?
    {
      assert (c + more)[i] == c[i];
    }
    forall i | 0 <= i < |more|
      ensures compile(more[i]).Some?
    {
      assert (c + more)[|c| + i] == more[i];
    }
    if Hit(c, compile, command) {
      var i :| 0 <= i < |c| && compile(c[i]).value(command);
      assert compile((c + more)[i]).value(command);
    }
    if Hit(more, compile, command) {
      var i :| 0 <= i < |more| && compile(more[i]).value(command);
      assert compile((c + more)[|c| + i]).value(command);
    }
  }

  /** A caller's rules only ever add restrictions, and its own are enforced. */
  lemma CallerOnlyRestricts(g: seq<string>, p: seq<string>, a: seq<string>, c: seq<string>, more: seq<string>,
      compile: Compiler, command: string, session: LineEnding, requested: Option<LineEnding>)
    requires Compile(g, p, a, c + more, compile).Ok?
    requires Admits(Compile(g, p, a, c + more, compile).value, command, session, requested)
    ensures Compile(g, p, a, c, compile).Ok?
    ensures Admits(Compile(g, p, a, c, compile).value, command, session, requested)
    ensures Compiles(more, compile) && !Hit(more, compile, command)
  {
    CompiledPolicy(g, p, a, c + more, compile, command);
    HitMore(c, more, compile, command);
    CompiledPolicy(g, p, a, c, compile, command);
  }

  /**
   What a guarded session lets through, by code points: with its own line ending, exactly the lines without
   a C0 or C1 control character or DEL and without a backslash at the end, of which no deny rule and some
   allow rule, if there is one, matches.
   */
  lemma GuardedLine(p: CommandPolicy, command: string, session: LineEnding)
    requires !p.IsEmpty() && session != NoEnding
    ensures p.Check(command, session, None) == None <==>
      && (forall i :: 0 <= i < |command| ==> 0x20 <= command[i] as int < 0x7F || 0xA0 <= command[i] as int)
      && (command == [] || command[|command| - 1] != '\\')
      && (forall k :: 0 <= k < |p.deny| ==> !p.deny[k].pattern(command))
      && (p.allow == [] || exists k :: 0 <= k < |p.allow| && p.allow[k].pattern(command))
  {
    CheckAdmits(p, command, session, None);
  }

  lemma {:induction false} NoLineBytes(s: string)
    requires forall i :: 0 <= i < |s| ==> !IsControl(s[i])
    ensures 10 !in Encode(s) && 13 !in Encode(s)
  {
    if s != [] {
      NoLineBytes(s[1..]);
      assert !IsControl(s[0]);
      assert 10 !in EncodeChar(s[0]) && 13 !in EncodeChar(s[0]);
    }
  }

  /** An admitted line of a guarded session holds no terminator, so it cannot reach another line. */
  lemma AdmittedIsOneLine(p: CommandPolicy, command: string, session: LineEnding, requested: Option<LineEnding>)
    requires !p.IsEmpty() && Admits(p, command, session, requested)
    ensures session != NoEnding && Free(Encode(command), Terminator(session))
  {
    NoLineBytes(command);
    FreeWithoutHead(Encode(command), Terminator(session));
  }
}
