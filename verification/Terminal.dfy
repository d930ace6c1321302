/** The terminal normaliser: nested loops over a peekable text, and the one-pass machine they equal. */
module Terminal {
  import opened Wrappers

  const ESC: char := '\U{1B}'
  const BEL: char := '\U{7}'

  datatype Mode = Ground | Escape | Osc(prevEsc: bool) | Csi | AfterCr

  function GroundStep(c: char): (Mode, string) {
    if c == ESC then (Escape, "")
    else if c == '\r' then (AfterCr, "\n")
    else (Ground, [c])
  }

  /** One character: the next mode, and what is written. */
  function Step(mode: Mode, c: char): (Mode, string) {
    match mode
    case Ground => GroundStep(c)
    case Escape => if c == ']' then (Osc(false), "") else if c == '[' then (Csi, "") else GroundStep(c)
    case Osc(prevEsc) => (if c == BEL || (prevEsc && c == '\\') then Ground else Osc(c == ESC), "")
    case Csi => (if '@' <= c <= '~' then Ground else Csi, "")
    case AfterCr => if c == '\n' then (Ground, "") else GroundStep(c)
  }

  function EndMode(mode: Mode, s: string): Mode
    decreases s
  {
    if s == [] then mode else EndMode(Step(mode, s[0]).0, s[1..])
  }

  function Output(mode: Mode, s: string): string
    decreases s
  {
    if s == [] then [] else Step(mode, s[0]).1 + Output(Step(mode, s[0]).0, s[1..])
  }

  /** The normalised form of a terminal text. */
  function Normalized(s: string): string {
    Output(Ground, s)
  }

  /** Text without escapes and carriage returns. */
  predicate Plain(s: string) {
    ESC !in s && '\r' !in s
  }

  /** A mode that only watches for one more character behaves like `Ground` on any other. */
  lemma LikeGround(mode: Mode, s: string)
    requires mode.Escape? ==> s == [] || (s[0] != ']' && s[0] != '[')
    requires mode.AfterCr? ==> s == [] || s[0] != '\n'
    requires mode.Ground? || mode.Escape? || mode.AfterCr?
    ensures Output(mode, s) == Output(Ground, s)
  {
  }

  /** The output of a text that goes on behind position `i`. */
  lemma OutputFrom(mode: Mode, raw: string, i: nat)
    requires i < |raw|
    ensures Output(mode, raw[i..]) == Step(mode, raw[i]).1 + Output(Step(mode, raw[i]).0, raw[i + 1..])
  {
    assert raw[i..][1..] == raw[i + 1..];
  }

  /** Consumes an operating system command up to its terminator, or the rest of the text. */
  method SkipOsc(raw: string, from: nat) returns (i: nat)
    requires from <= |raw|
    ensures from <= i <= |raw|
    ensures Output(Osc(false), raw[from..]) == Output(Ground, raw[i..])
  {
    i := from;
    var prevEsc := false;
    while i < |raw|
      invariant from <= i <= |raw|
      invariant Output(Osc(false), raw[from..]) == Output(Osc(prevEsc), raw[i..])
    {
      var c := raw[i];
      OutputFrom(Osc(prevEsc), raw, i);
      i := i + 1;
      if c == BEL || (prevEsc && c == '\\') {
        return;
      }
      prevEsc := c == ESC;
    }
  }

  /** Consumes a control sequence up to its final character, or the rest of the text. */
  method SkipCsi(raw: string, from: nat) returns (i: nat)
    requires from <= |raw|
    ensures from <= i <= |raw|
    ensures Output(Csi, raw[from..]) == Output(Ground, raw[i..])
  {
    i := from;
    while i < |raw|
      invariant from <= i <= |raw|
      invariant Output(Csi, raw[from..]) == Output(Csi, raw[i..])
    {
      var c := raw[i];
      OutputFrom(Csi, raw, i);
      i := i + 1;
      if '@' <= c <= '~' {
        return;
      }
    }
  }

  lemma CarriageReturn(raw: string, i: nat)
    requires i < |raw| && raw[i] == '\r'
    ensures Output(Ground, raw[i..])
         == (if i + 1 < |raw| && raw[i + 1] == '\n' then "" else "\n") + Output(Ground, raw[i + 1..])
  {
    OutputFrom(Ground, raw, i);
    if i + 1 < |raw| && raw[i + 1] == '\n' {
      OutputFrom(AfterCr, raw, i + 1);
      OutputFrom(Ground, raw, i + 1);
    } else {
      LikeGround(AfterCr, raw[i + 1..]);
    }
  }

  lemma EscapeCharacter(raw: string, i: nat)
    requires i < |raw| && raw[i] == ESC
    ensures Output(Ground, raw[i..]) ==
      if i + 1 < |raw| && raw[i + 1] == ']' then Output(Osc(false), raw[i + 2..])
      else if i + 1 < |raw| && raw[i + 1] == '[' then Output(Csi, raw[i + 2..])
      else Output(Ground, raw[i + 1..])
  {
    OutputFrom(Ground, raw, i);
    if i + 1 < |raw| && (raw[i + 1] == ']' || raw[i + 1] == '[') {
      OutputFrom(Escape, raw, i + 1);
    } else {
      LikeGround(Escape, raw[i + 1..]);
    }
  }

  lemma CarriageReturnWritten(out: string, raw: string, i: nat)
    requires i < |raw| && raw[i] == '\r'
    ensures out + Output(Ground, raw[i..])
         == (if i + 1 < |raw| && raw[i + 1] == '\n' then out else out + "\n") + Output(Ground, raw[i + 1..])
  {
    CarriageReturn(raw, i);
    Associative(out, "\n", Output(Ground, raw[i + 1..]));
  }

  lemma CharacterWritten(out: string, raw: string, i: nat)
    requires i < |raw| && raw[i] != '\r' && raw[i] != ESC
    ensures out + Output(Ground, raw[i..]) == out + [raw[i]] + Output(Ground, raw[i + 1..])
  {
    OutputFrom(Ground, raw, i);
    Associative(out, [raw[i]], Output(Ground, raw[i + 1..]));
  }

  method NormalizeTerminalOutput(raw: string) returns (out: string)
    ensures out == Normalized(raw)
  {
    out := "";
    var i := 0;
    assert raw[0..] == raw;
    while i < |raw|
      invariant 0 <= i <= |raw|
      invariant Normalized(raw) == out + Output(Ground, raw[i..])
    {
      var ch := raw[i];
      i := i + 1;
      if ch == ESC {
        EscapeCharacter(raw, i - 1);
        if i < |raw| && raw[i] == ']' {
          i := SkipOsc(raw, i + 1);
        } else if i < |raw| && raw[i] == '[' {
          i := SkipCsi(raw, i + 1);
        }
      } else if ch == '\r' {
        CarriageReturnWritten(out, raw, i - 1);
        if i >= |raw| || raw[i] != '\n' {
          out := out + "\n";
        }
      } else {
        CharacterWritten(out, raw, i - 1);
        out := out + [ch];
      }
    }
    assert raw[i..] == [];
  }

  lemma {:induction false} OutputIsPlain(mode: Mode, s: string)
    ensures Plain(Output(mode, s))
    decreases s
  {
    if s != [] {
      OutputIsPlain(Step(mode, s[0]).0, s[1..]);
    }
  }

  lemma {:induction false} PlainIsUnchanged(s: string)
    requires Plain(s)
    ensures Normalized(s) == s && EndMode(Ground, s) == Ground
  {
    if s != [] {
      PlainIsUnchanged(s[1..]);
    }
  }

  /** The result has no escape and no carriage return, and normalising again changes nothing. */
  lemma NormalizedIsPlain(s: string)
    ensures Plain(Normalized(s))
    ensures Normalized(Normalized(s)) == Normalized(s)
    ensures Normalized(s) == s <==> Plain(s)
  {
    OutputIsPlain(Ground, s);
    PlainIsUnchanged(Normalized(s));
    if Plain(s) {
      PlainIsUnchanged(s);
    }
  }

  lemma {:induction false} OutputJoin(mode: Mode, a: string, b: string)
    ensures Output(mode, a + b) == Output(mode, a) + Output(EndMode(mode, a), b)
    ensures EndMode(mode, a + b) == EndMode(EndMode(mode, a), b)
    decreases a
  {
    if a == [] {
      assert a + b == b;
    } else {
      var (next, written) := Step(mode, a[0]);
      assert (a + b)[1..] == a[1..] + b;
      OutputJoin(next, a[1..], b);
      Associative(written, Output(next, a[1..]), Output(EndMode(mode, a), b));
    }
  }

  /** A text that shows that `mode` is not `Ground`. */
  function Witness(mode: Mode): string {
    match mode
    case AfterCr => "\n"
    case Escape => "]"
    case _ => "@"
  }

  lemma WitnessTells(mode: Mode)
    requires !mode.Ground?
    ensures Output(mode, Witness(mode)) == [] && Normalized(Witness(mode)) == Witness(mode)
  {
    var w := Witness(mode);
    assert w[1..] == [];
    assert Output(mode, w) == Step(mode, w[0]).1 + Output(Step(mode, w[0]).0, []);
    PlainIsUnchanged(w);
  }

  /**
   Normalising piece by piece is normalising the whole, for every continuation, exactly when the first
   piece ends outside an escape and not in a carriage return.
   */
  lemma NormalizedJoin(a: string)
    ensures (forall b :: Normalized(a + b) == Normalized(a) + Normalized(b)) <==> EndMode(Ground, a) == Ground
  {
    forall b
      ensures Normalized(a + b) == Normalized(a) + Output(EndMode(Ground, a), b)
    {
      OutputJoin(Ground, a, b);
    }
    var mode := EndMode(Ground, a);
    if !mode.Ground? {
      WitnessTells(mode);
      var b := Witness(mode);
      assert |Normalized(a + b)| != |Normalized(a) + Normalized(b)|;
    }
  }

  lemma {:induction false} PlainStaysGround(s: string)
    requires Plain(s)
    ensures EndMode(Ground, s) == Ground
  {
    if s != [] {
      assert s[0] != ESC && s[0] != '\r';
      PlainStaysGround(s[1..]);
    }
  }

  lemma {:induction false} ControlSequenceStaysOpen(body: string)
    requires forall c :: c in body ==> !('@' <= c <= '~')
    ensures EndMode(Csi, body) == Csi && Output(Csi, body) == []
  {
    if body != [] {
      assert body[0] in body && forall c :: c in body[1..] ==> c in body;
      ControlSequenceStaysOpen(body[1..]);
    }
  }

  /** No terminator is inside: no BEL, and no escape directly in front of a backslash. */
  predicate OscBody(body: string) {
    BEL !in body && forall i :: 0 < i < |body| && body[i] == '\\' ==> body[i - 1] != ESC
  }

  lemma {:induction false} OscStaysOpen(prevEsc: bool, body: string)
    requires OscBody(body) && (prevEsc && body != [] ==> body[0] != '\\')
    ensures EndMode(Osc(prevEsc), body).Osc? && Output(Osc(prevEsc), body) == []
    decreases body
  {
    if body != [] {
      assert body[0] in body;
      var rest := body[1..];
      assert forall i :: 0 < i < |rest| ==> rest[i] == body[i + 1] && rest[i - 1] == body[i];
      OscStaysOpen(body[0] == ESC, rest);
    }
  }

  /** What follows plain text and a piece that writes `written`, in the mode it leads to. */
  lemma WrittenBehind(before: string, piece: string, written: string, mode: Mode, after: string)
    requires Plain(before) && Output(Ground, piece) == written && EndMode(Ground, piece) == mode
    requires Output(mode, after) == Output(Ground, after)
    ensures Normalized(before + piece + after) == before + written + Normalized(after)
  {
    PlainStaysGround(before);
    PlainIsUnchanged(before);
    OutputJoin(Ground, before, piece);
    OutputJoin(Ground, before + piece, after);
  }

  /** A piece that writes nothing and returns to the ground mode vanishes. */
  lemma Vanishes(before: string, piece: string, after: string)
    requires Plain(before) && Output(Ground, piece) == [] && EndMode(Ground, piece) == Ground
    ensures Normalized(before + piece + after) == before + Normalized(after)
  {
    WrittenBehind(before, piece, [], Ground, after);
    assert before + [] == before;
  }

  /** What opens an escape writes nothing. */
  lemma Opened(c: char, body: string)
    requires c == '[' || c == ']'
    ensures var mode := if c == '[' then Csi else Osc(false);
      && Output(Ground, [ESC, c] + body) == Output(mode, body)
      && EndMode(Ground, [ESC, c] + body) == EndMode(mode, body)
  {
    var s := [ESC, c] + body;
    assert s[1..][0] == c && s[1..][1..] == body;
  }

  /** An unfinished escape at the end writes nothing either. */
  lemma OpenPieceVanishes(before: string, piece: string)
    requires Plain(before) && Output(Ground, piece) == []
    ensures Normalized(before + piece) == before
  {
    PlainStaysGround(before);
    PlainIsUnchanged(before);
    OutputJoin(Ground, before, piece);
  }

  /** A control sequence vanishes, up to and with its first character from `@` to `~`, and nothing else does. */
  lemma ControlSequenceVanishes(before: string, body: string, final: char, after: string)
    requires Plain(before) && '@' <= final <= '~' && forall c :: c in body ==> !('@' <= c <= '~')
    ensures Normalized(before + ([ESC, '['] + (body + [final])) + after) == before + Normalized(after)
    ensures Normalized(before + ([ESC, '['] + body)) == before
  {
    ControlSequenceStaysOpen(body);
    OutputJoin(Csi, body, [final]);
    assert [final][1..] == [];
    Opened('[', body + [final]);
    Vanishes(before, [ESC, '['] + (body + [final]), after);
    Opened('[', body);
    OpenPieceVanishes(before, [ESC, '['] + body);
  }

  /** An operating system command vanishes, up to and with its first BEL or escape and backslash. */
  lemma OscVanishes(before: string, body: string, after: string)
    requires Plain(before) && OscBody(body)
    ensures Normalized(before + ([ESC, ']'] + (body + [BEL])) + after) == before + Normalized(after)
    ensures Normalized(before + ([ESC, ']'] + (body + [ESC, '\\'])) + after) == before + Normalized(after)
    ensures Normalized(before + ([ESC, ']'] + body)) == before
  {
    OscStaysOpen(false, body);
    OutputJoin(Osc(false), body, [BEL]);
    OutputJoin(Osc(false), body, [ESC, '\\']);
    OscEnds(EndMode(Osc(false), body));
    Opened(']', body + [BEL]);
    Opened(']', body + [ESC, '\\']);
    Opened(']', body);
    Vanishes(before, [ESC, ']'] + (body + [BEL]), after);
    Vanishes(before, [ESC, ']'] + (body + [ESC, '\\']), after);
    OpenPieceVanishes(before, [ESC, ']'] + body);
  }

  lemma OscEnds(mode: Mode)
    requires mode.Osc?
    ensures EndMode(mode, [BEL]) == Ground && Output(mode, [BEL]) == []
    ensures EndMode(mode, [ESC, '\\']) == Ground && Output(mode, [ESC, '\\']) == []
  {
    assert [BEL][1..] == [];
    assert [ESC, '\\'][1..] == ['\\'] && ['\\'][1..] == [];
  }

  /** Every line break, however it is written, becomes one line feed; any other escape drops only itself. */
  lemma LineBreaks(before: string, after: string)
    requires Plain(before)
    ensures Normalized(before + "\r\n" + after) == before + "\n" + Normalized(after)
    ensures after == [] || after[0] != '\n' ==> Normalized(before + "\r" + after) == before + "\n" + Normalized(after)
    ensures after == [] || (after[0] != '[' && after[0] != ']') ==>
      Normalized(before + [ESC] + after) == before + Normalized(after)
  {
    hide Normalized, Plain;
    assert "\r\n"[1..] == "\n" && "\n"[1..] == [] && "\r"[1..] == [] && [ESC][1..] == [];
    WrittenBehind(before, "\r\n", "\n", Ground, after);
    if after == [] || after[0] != '\n' {
      LikeGround(AfterCr, after);
      WrittenBehind(before, "\r", "\n", AfterCr, after);
    }
    if after == [] || (after[0] != '[' && after[0] != ']') {
      LikeGround(Escape, after);
      WrittenBehind(before, [ESC], [], Escape, after);
      assert before + [] == before;
    }
  }
}
