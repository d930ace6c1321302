/** A byte log as the lines a device reads from it. */
module Lines {
  import opened Wrappers
  import opened Utf8
  import opened Search
  import opened Echo

  /** Each line with its terminator. */
  function Joined(lines: seq<seq<Byte>>, t: seq<Byte>): seq<Byte> {
    if lines == [] then [] else lines[0] + t + Joined(lines[1..], t)
  }

  /** The complete lines of a log, and what is left without a terminator. */
  function SplitLines(raw: seq<Byte>, t: seq<Byte>): (seq<seq<Byte>>, seq<Byte>)
    requires t != []
    decreases |raw|
  {
    match FirstMatch(raw, t, 0)
    case None => ([], raw)
    case Some(k) =>
      var (lines, rest) := SplitLines(raw[k + |t|..], t);
      ([raw[..k]] + lines, rest)
  }

  lemma JoinedFront(line: seq<Byte>, lines: seq<seq<Byte>>, t: seq<Byte>)
    ensures Joined([line] + lines, t) == line + t + Joined(lines, t)
  {
    assert ([line] + lines)[1..] == lines;
  }

  lemma CutAt(raw: seq<Byte>, t: seq<Byte>, k: nat)
    requires OccursAt(raw, t, k)
    ensures raw[..k] + t + raw[k + |t|..] == raw
  {
    assert raw == raw[..k] + raw[k..k + |t|] + raw[k + |t|..];
  }

  lemma LineParts(line: seq<Byte>, t: seq<Byte>, back: seq<Byte>)
    ensures (line + t + back)[..|line|] == line && (line + t + back)[|line| + |t|..] == back
  {
  }

  /** Splitting loses nothing. */
  lemma {:induction false} SplitIsJoined(raw: seq<Byte>, t: seq<Byte>)
    requires t != []
    ensures Joined(SplitLines(raw, t).0, t) + SplitLines(raw, t).1 == raw
    decreases |raw|
  {
    match FirstMatch(raw, t, 0) {
      case None =>
      case Some(k) =>
        var back := raw[k + |t|..];
        SplitIsJoined(back, t);
        var (lines, rest) := SplitLines(back, t);
        JoinedFront(raw[..k], lines, t);
        Associative(raw[..k] + t, Joined(lines, t), rest);
        CutAt(raw, t, k);
    }
  }

  ghost predicate AreLines(lines: seq<seq<Byte>>, ending: LineEnding) {
    ending != NoEnding && forall i :: 0 <= i < |lines| ==> Free(lines[i], Terminator(ending))
  }

  /** Lines without a terminator inside are read back as they are. */
  lemma {:induction false} JoinedIsSplit(lines: seq<seq<Byte>>, ending: LineEnding)
    requires AreLines(lines, ending)
    ensures SplitLines(Joined(lines, Terminator(ending)), Terminator(ending)) == (lines, [])
  {
    var t := Terminator(ending);
    if lines == [] {
      assert FirstMatch([], t, 0).None?;
    } else {
      var back := Joined(lines[1..], t);
      JoinedIsSplit(lines[1..], ending);
      EchoedLine(lines[0], ending, back);
      LineParts(lines[0], t, back);
      assert [lines[0]] + lines[1..] == lines;
    }
  }

  lemma {:induction false} JoinedAppend(a: seq<seq<Byte>>, b: seq<seq<Byte>>, t: seq<Byte>)
    ensures Joined(a + b, t) == Joined(a, t) + Joined(b, t)
  {
    if a == [] {
      assert a + b == b;
    } else {
      JoinedAppend(a[1..], b, t);
      assert (a + b)[1..] == a[1..] + b;
      Associative(a[0] + t, Joined(a[1..], t), Joined(b, t));
    }
  }
}
