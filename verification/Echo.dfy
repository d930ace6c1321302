/** Line endings and the boundary of an echoed command line. */
module Echo {
  import opened Wrappers
  import opened Utf8
  import opened Search
  import opened PatternMatching

  datatype LineEnding = NoEnding | Lf | Cr | Crlf

  datatype EchoMode = UnknownEcho | NoEcho | LineEcho

  function Terminator(ending: LineEnding): seq<Byte> {
    match ending
    case NoEnding => []
    case Lf => [10]
    case Cr => [13]
    case Crlf => [13, 10]
  }

  /** The offset just behind the first terminator; no terminator gives no boundary. */
  function EchoLineBoundary(raw: seq<Byte>, ending: LineEnding): (r: Option<nat>)
    ensures r.Some? ==> |Terminator(ending)| <= r.value <= |raw|
  {
    if ending == NoEnding then None
    else match FirstMatch(raw, Terminator(ending), 0)
      case None => None
      case Some(start) => Some(start + |Terminator(ending)|)
  }

  lemma SameInFront(total: seq<Byte>, data: seq<Byte>, pattern: seq<Byte>, j: nat)
    requires j + |pattern| <= |total|
    ensures OccursAt(total + data, pattern, j) <==> OccursAt(total, pattern, j)
  {
    assert (total + data)[j..j + |pattern|] == total[j..j + |pattern|];
  }

  lemma PrefixHasNoTerminator(total: seq<Byte>, data: seq<Byte>, ending: LineEnding, j: nat)
    requires EchoLineBoundary(total, ending) == None
    requires OccursAt(total + data, Terminator(ending), j) && ending != NoEnding
    ensures j + |Terminator(ending)| > |total|
  {
    if j + |Terminator(ending)| <= |total| {
      SameInFront(total, data, Terminator(ending), j);
    }
  }

  lemma BoundaryBehindCut(all: seq<Byte>, cut: nat, ending: LineEnding)
    requires ending != NoEnding && cut <= |all|
    requires forall j: nat :: OccursAt(all, Terminator(ending), j) ==> cut <= j
    ensures EchoLineBoundary(all, ending) == match EchoLineBoundary(all[cut..], ending)
      case None => None
      case Some(b) => Some(cut + b)
  {
    FirstMatchBehindCut(all, cut, Terminator(ending));
  }

  /**
   Before the boundary has been seen, the first terminator of the window is the first terminator of
   the whole stream, as long as chunks are shorter than the window's cap: a terminator that a new
   chunk completes is never cut by the eviction.
   */
  lemma WindowFindsBoundary(total: seq<Byte>, data: seq<Byte>, cap: nat, ending: LineEnding)
    requires EchoLineBoundary(total, ending) == None && |data| < cap
    ensures var live := Suffix(total + data, cap);
      EchoLineBoundary(total + data, ending) == match EchoLineBoundary(live, ending)
        case None => None
        case Some(b) => Some(|total + data| - |live| + b)
  {
    var all := total + data;
    var cut := |all| - |Suffix(all, cap)|;
    assert Suffix(all, cap) == all[cut..];
    if ending != NoEnding {
      forall j: nat | OccursAt(all, Terminator(ending), j)
        ensures cut <= j
      {
        PrefixHasNoTerminator(total, data, ending, j);
      }
      BoundaryBehindCut(all, cut, ending);
    }
  }

  /** Once found, the boundary of a stream does not depend on what follows. */
  lemma BoundaryIsStable(total: seq<Byte>, data: seq<Byte>, ending: LineEnding)
    requires EchoLineBoundary(total, ending).Some?
    ensures EchoLineBoundary(total + data, ending) == EchoLineBoundary(total, ending)
  {
    var t := Terminator(ending);
    var k := FirstMatch(total, t, 0).value;
    forall j | 0 <= j <= k
      ensures OccursAt(total + data, t, j) <==> OccursAt(total, t, j)
    {
      SameInFront(total, data, t, j);
    }
    FirstMatchIs(total + data, t, 0, k);
  }

  /**
   The chunk bound is sharp for every window: a chunk as long as the cap evicts the carriage return of a
   terminator in the round that completes it, and the boundary of the stream is missed; a later
   terminator is taken for it, if there is one.
   */
  lemma FullChunkMissesBoundary(cap: nat, rest: seq<Byte>)
    requires cap == 1 + |rest|
    ensures var all, window := [13] + ([10] + rest), Suffix([13] + ([10] + rest), cap);
      && EchoLineBoundary([13], Crlf) == None && EchoLineBoundary(all, Crlf) == Some(2)
      && (EchoLineBoundary(window, Crlf).Some? ==> |all| - |window| + EchoLineBoundary(window, Crlf).value > 2)
      && (Free(rest, Terminator(Crlf)) ==> EchoLineBoundary(window, Crlf) == None)
  {
    var all: seq<Byte> := [13] + ([10] + rest);
    assert all[0..2] == [13, 10];
    FirstMatchIs(all, [13, 10], 0, 0);
    var window: seq<Byte> := [10] + rest;
    assert all[1..] == window;
    if Free(rest, Terminator(Crlf)) {
      assert window[1..] == rest;
      forall j: nat
        ensures !OccursAt(window, [13, 10], j)
      {
        if j > 0 {
          OccursBehindCut(window, 1, [13, 10], j - 1);
        } else if |window| >= 2 {
          assert window[0..2][0] == 10;
        }
      }
    }
  }

  /**
   Where the boundary of a stream is found in its last `cap` bytes: exactly if the whole first terminator
   is still among them.
   */
  lemma WindowAgreesIff(s: seq<Byte>, cap: nat, ending: LineEnding)
    requires EchoLineBoundary(s, ending).Some?
    ensures var window, b := Suffix(s, cap), EchoLineBoundary(s, ending).value;
      var cut := |s| - |window|;
      (EchoLineBoundary(window, ending).Some? && cut + EchoLineBoundary(window, ending).value == b)
        <==> cut + |Terminator(ending)| <= b
  {
    var b, t := EchoLineBoundary(s, ending).value, Terminator(ending);
    var cut := |s| - |Suffix(s, cap)|;
    assert Suffix(s, cap) == s[cut..];
    if cut + |t| <= b {
      BoundaryBehindCut(s, cut, ending);
    }
  }

  /** A terminator cannot straddle the start of the first one. */
  lemma EchoedLine(line: seq<Byte>, ending: LineEnding, output: seq<Byte>)
    requires ending != NoEnding && Free(line, Terminator(ending))
    ensures EchoLineBoundary(line + Terminator(ending) + output, ending) == Some(|line| + |Terminator(ending)|)
  {
    var t := Terminator(ending);
    var raw := line + t + output;
    assert raw == line + (t + output);
    forall j | 0 <= j < |line|
      ensures !OccursAt(raw, t, j)
    {
      if j + |t| <= |line| {
        SameInFront(line, t + output, t, j);
        assert !OccursAt(line, t, j);
      } else {
        assert raw[j..j + |t|][1] == raw[|line|] == t[0];
      }
    }
    assert raw[|line|..|line| + |t|] == t;
    FirstMatchIs(raw, t, 0, |line|);
  }
}
