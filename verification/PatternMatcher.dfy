/** The streaming matcher: a lazily compacted window over everything read, and a search cursor. */
module PatternMatching {
  import opened Wrappers
  import opened Utf8
  import opened LossyOffset
  import opened LossyProperties

  /** The leftmost match in a text, as byte offsets; the regular expression itself is not modelled. */
  type Regex = seq<Byte> -> Option<(nat, nat)>

  ghost predicate RegexOk(find: Regex) {
    forall text :: find(text).Some? ==> find(text).value.0 <= find(text).value.1 <= |text|
  }

  datatype MatchDetails = MatchDetails(text: seq<Byte>, start: nat, end: nat)

  /** The matcher's memory; the bytes before `head` are dropped but not yet removed. */
  datatype Window = Window(buffer: seq<Byte>, head: nat, searchStart: nat)

  const EMPTY := Window([], 0, 0)

  function Live(w: Window): seq<Byte> {
    if w.head <= |w.buffer| then w.buffer[w.head..] else []
  }

  /** The last `n` elements, or all of them. */
  function Suffix(s: seq<Byte>, n: nat): seq<Byte> {
    if |s| <= n then s else s[|s| - n..]
  }

  function Pushed(w: Window, cap: nat, data: seq<Byte>): Window
    requires w.head <= |w.buffer|
  {
    var buffer := w.buffer + data;
    var live := |buffer| - w.head;
    var dropped := if live > cap then live - cap else 0;
    var head := w.head + dropped;
    var searchStart := if w.searchStart < dropped then 0 else w.searchStart - dropped;
    if head > cap then Window(buffer[head..], 0, searchStart) else Window(buffer, head, searchStart)
  }

  /** The bytes a push moves in memory: the live ones, when it compacts. */
  function MovedBy(w: Window, cap: nat, data: seq<Byte>): nat
    requires w.head <= |w.buffer|
  {
    var live := |w.buffer| + |data| - w.head;
    if w.head + (if live > cap then live - cap else 0) > cap then Min(live, cap) else 0
  }

  function Aimed(w: Window, offset: nat): Window {
    w.(searchStart := Min(offset, |Live(w)|))
  }

  /** What is found in a text from position `at` on. */
  function Found(find: Regex, text: seq<Byte>, at: nat): Option<MatchDetails>
    requires RegexOk(find) && at <= |text|
  {
    match find(text[at..])
    case None => None
    case Some((lo, hi)) => Some(MatchDetails(text[at + lo..at + hi], at + lo, at + hi))
  }

  /**
   `details` say what the expression finds in `text` from `at` on: the range of its match, and the text
   in that range; or that it finds nothing.
   */
  predicate Reports(find: Regex, text: seq<Byte>, at: nat, details: Option<MatchDetails>) {
    && at <= |text|
    && match details
       case None => find(text[at..]).None?
       case Some(m) =>
         && at <= m.start <= m.end <= |text| && m.text == text[m.start..m.end]
         && find(text[at..]) == Some((m.start - at, m.end - at))
  }

  lemma FoundReports(find: Regex, text: seq<Byte>, at: nat)
    requires RegexOk(find) && at <= |text|
    ensures Reports(find, text, at, Found(find, text, at))
  {
    assert find(text[at..]).Some? ==> find(text[at..]).value.1 <= |text[at..]|;
  }

  /** What is found in a window from a search cursor on. */
  function Details(find: Regex, live: seq<Byte>, searchStart: nat): Option<MatchDetails>
    requires RegexOk(find)
  {
    MappedOffsetIsSafe(live, searchStart, searchStart);
    Found(find, Text(live), MapOffset(live, searchStart))
  }

  /**
   `w` is what pushing `total` and last aiming at absolute position `aim` must give: the last `cap`
   bytes, and the cursor at `aim` unless the window has moved past it.
   */
  ghost predicate Refines(w: Window, cap: nat, total: seq<Byte>, aim: nat) {
    && w.head <= |w.buffer| && w.head <= cap
    && Live(w) == Suffix(total, cap)
    && |total| - |Live(w)| + w.searchStart == Max(|total| - |Live(w)|, aim)
    && aim <= |total|
  }

  lemma EmptyRefines(cap: nat)
    ensures Refines(EMPTY, cap, [], 0)
  {
  }

  lemma SuffixOfSuffix(total: seq<Byte>, data: seq<Byte>, cap: nat)
    ensures Suffix(Suffix(total, cap) + data, cap) == Suffix(total + data, cap)
  {
  }

  lemma PushedLive(w: Window, cap: nat, data: seq<Byte>)
    requires w.head <= |w.buffer|
    ensures Live(Pushed(w, cap, data)) == Suffix(Live(w) + data, cap)
  {
    var buffer := w.buffer + data;
    assert buffer[w.head..] == Live(w) + data;
  }

  lemma PushRefines(w: Window, cap: nat, total: seq<Byte>, aim: nat, data: seq<Byte>)
    requires Refines(w, cap, total, aim)
    ensures Refines(Pushed(w, cap, data), cap, total + data, aim)
  {
    PushedLive(w, cap, data);
    SuffixOfSuffix(total, data, cap);
  }

  lemma AimRefines(w: Window, cap: nat, total: seq<Byte>, aim: nat, offset: nat)
    requires Refines(w, cap, total, aim)
    ensures Refines(Aimed(w, offset), cap, total, |total| - |Live(w)| + Min(offset, |Live(w)|))
  {
  }

  datatype Edit = Push(data: seq<Byte>) | Aim(offset: nat)

  /** Everything pushed. */
  function Total(edits: seq<Edit>): seq<Byte> {
    if edits == [] then []
    else
      var before := Total(edits[..|edits| - 1]);
      match edits[|edits| - 1]
      case Push(data) => before + data
      case Aim(_) => before
  }

  /** The window after a sequence of edits, step by step as the code does it. */
  function After(edits: seq<Edit>, cap: nat): (w: Window)
    ensures w.head <= |w.buffer|
  {
    if edits == [] then EMPTY
    else
      var before := After(edits[..|edits| - 1], cap);
      match edits[|edits| - 1]
      case Push(data) => Pushed(before, cap, data)
      case Aim(offset) => Aimed(before, offset)
  }

  /** The absolute position the cursor was last set to. */
  function AimOf(edits: seq<Edit>, cap: nat): nat {
    if edits == [] then 0
    else
      var before := edits[..|edits| - 1];
      match edits[|edits| - 1]
      case Push(_) => AimOf(before, cap)
      case Aim(offset) => WindowStart(before, cap) + Min(offset, |Suffix(Total(before), cap)|)
  }

  function WindowStart(edits: seq<Edit>, cap: nat): nat {
    |Total(edits)| - |Suffix(Total(edits), cap)|
  }

  function Moved(edits: seq<Edit>, cap: nat): nat {
    if edits == [] then 0
    else
      var before := edits[..|edits| - 1];
      Moved(before, cap) + match edits[|edits| - 1]
        case Push(data) => MovedBy(After(before, cap), cap, data)
        case Aim(_) => 0
  }

  /**
   Buffer refinement: after any pushes and cursor settings the live window is exactly the last `cap`
   bytes pushed, the cursor is where it was last set unless the window has passed it, and the physical
   buffer holds at most two caps.
   */
  lemma {:induction false} BufferRefinement(edits: seq<Edit>, cap: nat)
    ensures Refines(After(edits, cap), cap, Total(edits), AimOf(edits, cap))
    ensures WindowStart(edits, cap) + After(edits, cap).searchStart == Max(WindowStart(edits, cap), AimOf(edits, cap))
    ensures |After(edits, cap).buffer| <= 2 * cap
  {
    if edits == [] {
      EmptyRefines(cap);
    } else {
      var before := edits[..|edits| - 1];
      BufferRefinement(before, cap);
      match edits[|edits| - 1] {
        case Push(data) => PushRefines(After(before, cap), cap, Total(before), AimOf(before, cap), data);
        case Aim(offset) => AimRefines(After(before, cap), cap, Total(before), AimOf(before, cap), offset);
      }
    }
  }

  /** Amortised compaction: all moves together move no more bytes than have been dropped. */
  lemma {:induction false} CompactionIsAmortised(edits: seq<Edit>, cap: nat)
    ensures Moved(edits, cap) + After(edits, cap).head <= WindowStart(edits, cap) <= |Total(edits)|
  {
    if edits != [] {
      var before := edits[..|edits| - 1];
      CompactionIsAmortised(before, cap);
      BufferRefinement(before, cap);
      BufferRefinement(edits, cap);
    }
  }

  class PatternMatcher {
    const find: Regex
    const maxBuffer: nat
    var buffer: seq<Byte>
    var head: nat
    var searchStart: nat

    ghost predicate Valid()
      reads this
    {
      RegexOk(find) && head <= |buffer|
    }

    ghost function View(): Window
      reads this
    {
      Window(buffer, head, searchStart)
    }

    constructor (find: Regex, maxBuffer: nat)
      requires RegexOk(find)
      ensures Valid() && View() == EMPTY && this.find == find && this.maxBuffer == maxBuffer
    {
      this.find, this.maxBuffer := find, maxBuffer;
      buffer, head, searchStart := [], 0, 0;
    }

    /** An empty or uncompilable pattern is refused before a matcher exists. */
    static method Create(pattern: string, compiled: Option<Regex>, maxBuffer: nat)
      returns (r: Result<PatternMatcher, SerialError>)
      requires compiled.Some? ==> RegexOk(compiled.value)
      ensures r.Ok? <==> pattern != "" && compiled.Some?
      ensures r.Err? ==> r.error == InvalidParam("pattern")
      ensures r.Ok? ==> fresh(r.value) && r.value.Valid() && r.value.View() == EMPTY
      ensures r.Ok? ==> r.value.find == compiled.value && r.value.maxBuffer == maxBuffer
    {
      if pattern == "" || compiled.None? {
        return Err(InvalidParam("pattern"));
      }
      var matcher := new PatternMatcher(compiled.value, maxBuffer);
      r := Ok(matcher);
    }

    method PushWithoutMatching(data: seq<Byte>)
      requires Valid()
      modifies this
      ensures Valid() && View() == Pushed(old(View()), maxBuffer, data)
    {
      buffer := buffer + data;
      var live := |buffer| - head;
      if live > maxBuffer {
        var dropped := live - maxBuffer;
        head := head + dropped;
        searchStart := if searchStart < dropped then 0 else searchStart - dropped;
      }
      if head > maxBuffer {
        buffer := buffer[head..];
        head := 0;
      }
    }

    /** The fast path for well-formed windows and the lossy path find the same. */
    method FindDetails() returns (r: Option<MatchDetails>)
      requires Valid()
      ensures r == Details(find, Live(View()), searchStart)
      ensures Reports(find, Text(Live(View())), MapOffset(Live(View()), searchStart), r)
    {
      var live := buffer[head..];
      var text, at := live, 0;
      if WellFormed(live) {
        FastPath(live, searchStart);
        at := RoundUp(live, Min(searchStart, |live|));
      } else {
        text, at := DecodeLossyAt(live, searchStart);
      }
      MappedOffsetIsSafe(live, searchStart, searchStart);
      hide Reports;
      r := FindFrom(text, at);
    }

    method FindFrom(text: seq<Byte>, at: nat) returns (r: Option<MatchDetails>)
      requires Valid() && at <= |text|
      ensures r == Found(find, text, at)
      ensures Reports(find, text, at, r)
    {
      var found := find(text[at..]);
      if found.None? {
        r := None;
      } else {
        var (lo, hi) := found.value;
        assert text[at..][lo..hi] == text[at + lo..at + hi];
        r := Some(MatchDetails(text[at..][lo..hi], at + lo, at + hi));
      }
    }

    method IsMatch() returns (b: bool)
      requires Valid()
      ensures b == Details(find, Live(View()), searchStart).Some?
    {
      var details := FindDetails();
      b := details.Some?;
    }

    method PushBytes(data: seq<Byte>) returns (b: bool)
      requires Valid()
      modifies this
      ensures Valid() && View() == Pushed(old(View()), maxBuffer, data)
      ensures b == Details(find, Live(View()), searchStart).Some?
    {
      PushWithoutMatching(data);
      b := IsMatch();
    }

    method SetSearchStart(offset: nat)
      requires Valid()
      modifies this
      ensures Valid() && View() == Aimed(old(View()), offset)
    {
      searchStart := Min(offset, |buffer| - head);
    }

    /** Consumes the matcher. */
    method IntoBuffer() returns (data: seq<Byte>)
      requires Valid()
      modifies this
      ensures data == old(Live(View()))
    {
      if head > 0 {
        buffer := buffer[head..];
      }
      data := buffer;
    }
  }
}
