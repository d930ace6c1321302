/** Lossy decoding with one raw byte offset mapped into the text. */
module LossyOffset {
  import opened Wrappers
  import opened Utf8

  /** One well-formed or malformed sequence of the input. */
  datatype Unit = Unit(bytes: seq<Byte>, ok: bool)

  predicate IsUnit(u: Unit) {
    && u.bytes != []
    && (u.ok ==> !IsTail(u.bytes[0]) && forall i :: 0 < i < |u.bytes| ==> IsTail(u.bytes[i]))
    && (!u.ok ==> |u.bytes| <= 3)
  }

  predicate AreUnits(us: seq<Unit>) {
    forall i :: 0 <= i < |us| ==> IsUnit(us[i])
  }

  function Units(raw: seq<Byte>): seq<Unit> {
    if raw == [] then []
    else [Unit(raw[..UnitLength(raw)], UnitOk(raw))] + Units(raw[UnitLength(raw)..])
  }

  function Bytes(us: seq<Unit>): seq<Byte> {
    if us == [] then [] else us[0].bytes + Bytes(us[1..])
  }

  /** What one sequence becomes in the text. */
  function Shown(u: Unit): seq<Byte> {
    if u.ok then u.bytes else EncodeChar(REPLACEMENT)
  }

  function ShownAll(us: seq<Unit>): seq<Byte> {
    if us == [] then [] else Shown(us[0]) + ShownAll(us[1..])
  }

  lemma {:induction false} UnitsAreUnits(raw: seq<Byte>)
    ensures AreUnits(Units(raw))
  {
    if raw != [] {
      UnitsAreUnits(raw[UnitLength(raw)..]);
      if UnitOk(raw) {
        UnitShape(raw);
      }
    }
  }

  lemma {:induction false} BytesOfUnits(raw: seq<Byte>)
    ensures Bytes(Units(raw)) == raw
  {
    if raw != [] {
      var k := UnitLength(raw);
      BytesOfUnits(raw[k..]);
      assert Units(raw)[1..] == Units(raw[k..]);
      assert raw == raw[..k] + raw[k..];
    }
  }

  lemma {:induction false} ShownUnits(raw: seq<Byte>)
    ensures ShownAll(Units(raw)) == Text(raw)
  {
    if raw != [] {
      var back := raw[UnitLength(raw)..];
      ShownUnits(back);
      assert Units(raw)[1..] == Units(back);
    }
  }

  lemma UnitsOfRaw(raw: seq<Byte>)
    ensures Bytes(Units(raw)) == raw
    ensures ShownAll(Units(raw)) == Text(raw)
  {
    BytesOfUnits(raw);
    ShownUnits(raw);
  }

  /** Whether `text` may be cut at `i`; `text` is well-formed wherever the source asks. */
  predicate IsCharBoundary(text: seq<Byte>, i: nat) {
    i == 0 || i == |text| || (i < |text| && !IsTail(text[i]))
  }

  /** The first character boundary at or after `i`. */
  function NextBoundary(text: seq<Byte>, i: nat): (b: nat)
    requires i <= |text|
    ensures i <= b <= |text| && IsCharBoundary(text, b)
    ensures forall j :: i <= j < b ==> !IsCharBoundary(text, j)
    decreases |text| - i
  {
    if IsCharBoundary(text, i) then i else NextBoundary(text, i + 1)
  }

  /**
   Where offset `o` lands in the text, sequence by sequence: inside a sequence, behind it; at a
   malformed sequence that does not follow another one, behind it too; else at the boundary itself.
   */
  function Landing(us: seq<Unit>, o: nat, afterBad: bool): nat
    requires o <= |Bytes(us)|
  {
    if us == [] then 0
    else if o == 0 then (if us[0].ok || afterBad then 0 else |Shown(us[0])|)
    else if o < |us[0].bytes| then |Shown(us[0])|
    else |Shown(us[0])| + Landing(us[1..], o - |us[0].bytes|, !us[0].ok)
  }

  function MapOffset(raw: seq<Byte>, o: nat): nat {
    UnitsOfRaw(raw);
    Landing(Units(raw), Min(o, |raw|), false)
  }

  /** A maximal well-formed stretch and the malformed sequence behind it, if any. */
  datatype Chunk = Chunk(valid: seq<Byte>, invalid: seq<Byte>)

  function Chunks(us: seq<Unit>): seq<Chunk> {
    if us == [] then []
    else if !us[0].ok then [Chunk([], us[0].bytes)] + Chunks(us[1..])
    else if |us| == 1 then [Chunk(us[0].bytes, [])]
    else
      var rest := Chunks(us[1..]);
      if rest == [] then [] else [rest[0].(valid := us[0].bytes + rest[0].valid)] + rest[1..]
  }

  function RunLength(us: seq<Unit>): (n: nat)
    ensures n <= |us| && (n < |us| ==> !us[n].ok)
    ensures forall i :: 0 <= i < n ==> us[i].ok
  {
    if us == [] || !us[0].ok then 0 else 1 + RunLength(us[1..])
  }

  /** The first chunk is the leading run and the malformed sequence that ends it. */
  lemma {:induction false} FirstChunk(us: seq<Unit>)
    requires us != [] && AreUnits(us)
    ensures var n := RunLength(us);
      && Chunks(us) != []
      && Chunks(us)[0] == Chunk(Bytes(us[..n]), if n < |us| then us[n].bytes else [])
      && Chunks(us)[1..] == if n < |us| then Chunks(us[n + 1..]) else []
  {
    var n := RunLength(us);
    if us[0].ok && |us| > 1 {
      FirstChunk(us[1..]);
      assert us[..n][1..] == us[1..][..n - 1];
    } else if us[0].ok {
      assert us[..1] == [us[0]];
      assert Bytes([us[0]]) == us[0].bytes + Bytes([]);
    }
  }

  lemma {:induction false} BytesJoin(a: seq<Unit>, b: seq<Unit>)
    ensures Bytes(a + b) == Bytes(a) + Bytes(b)
  {
    if a == [] {
      assert a + b == b;
    } else {
      BytesJoin(a[1..], b);
      assert (a + b)[1..] == a[1..] + b;
      Associative(a[0].bytes, Bytes(a[1..]), Bytes(b));
    }
  }

  lemma {:induction false} ShownJoin(a: seq<Unit>, b: seq<Unit>)
    ensures ShownAll(a + b) == ShownAll(a) + ShownAll(b)
  {
    if a == [] {
      assert a + b == b;
    } else {
      ShownJoin(a[1..], b);
      assert (a + b)[1..] == a[1..] + b;
      Associative(Shown(a[0]), ShownAll(a[1..]), ShownAll(b));
    }
  }

  lemma {:induction false} RunIsShownAsIs(us: seq<Unit>)
    requires forall i :: 0 <= i < |us| ==> us[i].ok
    ensures ShownAll(us) == Bytes(us)
  {
    if us != [] {
      RunIsShownAsIs(us[1..]);
    }
  }

  /** Cutting at a character boundary does not move the boundaries behind it. */
  lemma BoundaryShift(front: seq<Byte>, back: seq<Byte>, o: nat)
    requires o <= |back| && (back != [] ==> !IsTail(back[0]))
    ensures NextBoundary(front + back, |front| + o) == |front| + NextBoundary(back, o)
  {
    var b, text := NextBoundary(back, o), front + back;
    assert forall j :: 0 <= j < |back| ==> text[|front| + j] == back[j];
    forall j | |front| + o <= j < |front| + b
      ensures !IsCharBoundary(text, j)
    {
      assert !IsCharBoundary(back, j - |front|);
    }
    assert IsCharBoundary(text, |front| + b);
  }

  /** Inside the leading run an offset is rounded up to a character boundary of the run. */
  lemma {:induction false} LandingInRun(us: seq<Unit>, o: nat, n: nat, afterBad: bool)
    requires AreUnits(us) && n <= |us| && (forall i :: 0 <= i < n ==> us[i].ok)
    requires o < |Bytes(us[..n])|
    ensures o <= |Bytes(us)|
    ensures Landing(us, o, afterBad) == NextBoundary(Bytes(us[..n]), o)
  {
    BytesJoin(us[..n], us[n..]);
    assert us == us[..n] + us[n..];
    var u, back := us[0], Bytes(us[..n][1..]);
    assert us[..n][1..] == us[1..][..n - 1];
    if n > 1 {
      assert back[0] == us[1].bytes[0];
    }
    if o >= |u.bytes| {
      LandingInRun(us[1..], o - |u.bytes|, n - 1, false);
      BoundaryShift(u.bytes, back, o - |u.bytes|);
    } else if o > 0 {
      var text := u.bytes + back;
      assert forall j :: o <= j < |u.bytes| ==> !IsCharBoundary(text, j);
      assert IsCharBoundary(text, |u.bytes|);
    }
  }

  lemma RunBytes(us: seq<Unit>, n: nat)
    requires n <= |us|
    ensures |Bytes(us)| == |Bytes(us[..n])| + |Bytes(us[n..])|
    ensures n < |us| ==> |Bytes(us[n..])| == |us[n].bytes| + |Bytes(us[n + 1..])|
  {
    BytesJoin(us[..n], us[n..]);
    assert us == us[..n] + us[n..];
  }

  /** Behind the leading run the rest decides. */
  lemma {:induction false} LandingPastRun(us: seq<Unit>, o: nat, n: nat, afterBad: bool)
    requires AreUnits(us) && n <= |us| && (forall i :: 0 <= i < n ==> us[i].ok)
    requires |Bytes(us[..n])| <= o <= |Bytes(us)|
    ensures o - |Bytes(us[..n])| <= |Bytes(us[n..])|
    ensures Landing(us, o, afterBad)
         == |Bytes(us[..n])| + Landing(us[n..], o - |Bytes(us[..n])|, n == 0 && afterBad)
  {
    RunBytes(us, n);
    if n > 0 {
      assert us[..n][1..] == us[1..][..n - 1] && us[1..][n - 1..] == us[n..];
      LandingPastRun(us[1..], o - |us[0].bytes|, n - 1, false);
    }
  }

  /** The sequences behind the first chunk. */
  function AfterChunk(us: seq<Unit>): seq<Unit> {
    var n := RunLength(us);
    if n < |us| then us[n + 1..] else []
  }

  /** What one chunk contributes to the text. */
  function ChunkText(c: Chunk): seq<Byte> {
    c.valid + (if c.invalid != [] then EncodeChar(REPLACEMENT) else [])
  }

  lemma ChunksBehind(us: seq<Unit>)
    requires us != [] && AreUnits(us)
    ensures Chunks(us) != [] && Chunks(us)[1..] == Chunks(AfterChunk(us)) && AreUnits(AfterChunk(us))
  {
    FirstChunk(us);
  }

  lemma ChunkBytes(us: seq<Unit>)
    requires us != [] && AreUnits(us)
    ensures Chunks(us) != []
    ensures var c := Chunks(us)[0];
      && |Bytes(us)| == |c.valid| + |c.invalid| + |Bytes(AfterChunk(us))|
      && (c.invalid == [] ==> AfterChunk(us) == [])
  {
    FirstChunk(us);
    hide Chunks;
    RunBytes(us, RunLength(us));
  }

  lemma ChunkShape(us: seq<Unit>)
    requires us != [] && AreUnits(us)
    ensures Chunks(us) != [] && Chunks(us)[1..] == Chunks(AfterChunk(us)) && AreUnits(AfterChunk(us))
    ensures var c := Chunks(us)[0];
      && |Bytes(us)| == |c.valid| + |c.invalid| + |Bytes(AfterChunk(us))|
      && (c.invalid == [] ==> AfterChunk(us) == [])
  {
    ChunksBehind(us);
    ChunkBytes(us);
  }

  lemma TailShown(us: seq<Unit>, n: nat)
    requires n < |us|
    ensures ShownAll(us[n..]) == Shown(us[n]) + ShownAll(us[n + 1..])
  {
    assert us[n..][1..] == us[n + 1..];
  }

  lemma RunShown(us: seq<Unit>, n: nat)
    requires n <= |us| && forall i :: 0 <= i < n ==> us[i].ok
    ensures ShownAll(us) == Bytes(us[..n]) + ShownAll(us[n..])
  {
    assert us == us[..n] + us[n..];
    ShownJoin(us[..n], us[n..]);
    RunIsShownAsIs(us[..n]);
  }

  lemma ChunkShown(us: seq<Unit>)
    requires us != [] && AreUnits(us) && Chunks(us) != []
    ensures ShownAll(us) == ChunkText(Chunks(us)[0]) + ShownAll(AfterChunk(us))
  {
    var n := RunLength(us);
    FirstChunk(us);
    RunShown(us, n);
    if n < |us| {
      TailShown(us, n);
      Associative(Bytes(us[..n]), Shown(us[n]), ShownAll(us[n + 1..]));
    }
  }

  /** Offsets up to the end of a malformed sequence land behind it. */
  lemma BadLanding(us: seq<Unit>, o: nat, afterBad: bool)
    requires us != [] && IsUnit(us[0]) && !us[0].ok && o <= |Bytes(us)| && (o == 0 ==> !afterBad)
    ensures o <= |us[0].bytes| ==> Landing(us, o, afterBad) == |EncodeChar(REPLACEMENT)|
    ensures |us[0].bytes| <= o ==>
      Landing(us, o, afterBad) == |EncodeChar(REPLACEMENT)| + Landing(us[1..], o - |us[0].bytes|, true)
  {
  }

  /** Where an offset lands, in terms of the first chunk `c` and the sequences `next` behind it. */
  ghost predicate LandsBy(c: Chunk, next: seq<Unit>, o: nat, at: nat) {
    && o <= |c.valid| + |c.invalid| + |Bytes(next)|
    && (o < |c.valid| ==> at == NextBoundary(c.valid, o))
    && (|c.valid| <= o <= |c.valid| + |c.invalid| ==> at == |ChunkText(c)|)
    && (|c.valid| + |c.invalid| <= o ==> at == |ChunkText(c)| + Landing(next, o - |c.valid| - |c.invalid|, true))
  }

  lemma LandingBehindRun(us: seq<Unit>, n: nat, o: nat, afterBad: bool)
    requires AreUnits(us) && n < |us| && (forall i :: 0 <= i < n ==> us[i].ok) && !us[n].ok
    requires |Bytes(us[..n])| <= o <= |Bytes(us)| && (o == 0 ==> !afterBad)
    ensures LandsBy(Chunk(Bytes(us[..n]), us[n].bytes), us[n + 1..], o, Landing(us, o, afterBad))
  {
    var tail := us[n..];
    LandingPastRun(us, o, n, afterBad);
    RunBytes(us, n);
    assert tail[1..] == us[n + 1..] && tail[0] == us[n];
    BadLanding(tail, o - |Bytes(us[..n])|, n == 0 && afterBad);
  }

  lemma ChunkLanding(us: seq<Unit>, o: nat, afterBad: bool)
    requires us != [] && AreUnits(us) && o <= |Bytes(us)| && (o == 0 ==> !afterBad)
    ensures Chunks(us) != [] && LandsBy(Chunks(us)[0], AfterChunk(us), o, Landing(us, o, afterBad))
  {
    var n := RunLength(us);
    FirstChunk(us);
    RunBytes(us, n);
    if o < |Bytes(us[..n])| {
      LandingInRun(us, o, n, afterBad);
    } else if n < |us| {
      LandingBehindRun(us, n, o, afterBad);
    } else {
      LandingPastRun(us, o, n, afterBad);
    }
  }

  method RoundUp(text: seq<Byte>, i: nat) returns (b: nat)
    requires i <= |text|
    ensures b == NextBoundary(text, i)
  {
    b := i;
    while !IsCharBoundary(text, b)
      invariant i <= b <= |text|
      invariant NextBoundary(text, b) == NextBoundary(text, i)
      decreases |text| - b
    {
      b := b + 1;
    }
  }

  /** The mapped offset once chunk `c`, which starts at `rawPos`, is decoded. */
  function FoundIn(c: Chunk, offset: nat, rawPos: nat, length: nat, found: Option<nat>): Option<nat>
    requires found.None? ==> rawPos <= offset
  {
    if found.Some? then found
    else
      var o := offset - rawPos;
      if o < |c.valid| then Some(length + NextBoundary(c.valid, o))
      else if c.invalid != [] && o <= |c.valid| + |c.invalid| then Some(length + |ChunkText(c)|)
      else None
  }

  /** The offset has been mapped, or it lies in the sequences that are left. */
  ghost predicate Located(target: nat, offset: nat, rest: seq<Unit>, rawPos: nat, length: nat, found: Option<nat>) {
    && (found.Some? ==> found.value == target)
    && (found.None? ==>
          && rawPos <= offset <= rawPos + |Bytes(rest)|
          && (0 < rawPos && rest != [] ==> rawPos < offset)
          && target == length + Landing(rest, offset - rawPos, rawPos > 0))
  }

  lemma LocatedStep(target: nat, offset: nat, rest: seq<Unit>, rawPos: nat, length: nat, found: Option<nat>)
    requires rest != [] && AreUnits(rest) && Located(target, offset, rest, rawPos, length, found)
    ensures Chunks(rest) != []
    ensures var c := Chunks(rest)[0];
      Located(target, offset, AfterChunk(rest), rawPos + |c.valid| + |c.invalid|, length + |ChunkText(c)|,
        FoundIn(c, offset, rawPos, length, found))
  {
    ChunkShape(rest);
    if found.None? {
      ChunkLanding(rest, offset - rawPos, rawPos > 0);
      ChunkIsNotEmpty(rest);
      StillLocated(target, offset, Chunks(rest)[0], AfterChunk(rest), rawPos, length);
    }
  }

  lemma StillLocated(target: nat, offset: nat, c: Chunk, next: seq<Unit>, rawPos: nat, length: nat)
    requires rawPos <= offset && length <= target && LandsBy(c, next, offset - rawPos, target - length)
    requires |c.valid| + |c.invalid| > 0 && (c.invalid == [] ==> next == [])
    ensures Located(target, offset, next, rawPos + |c.valid| + |c.invalid|, length + |ChunkText(c)|,
        FoundIn(c, offset, rawPos, length, None))
  {
  }

  lemma ChunkIsNotEmpty(us: seq<Unit>)
    requires us != [] && AreUnits(us) && Chunks(us) != []
    ensures |Chunks(us)[0].valid| + |Chunks(us)[0].invalid| > 0
  {
    FirstChunk(us);
    if us[0].ok {
      assert us[..RunLength(us)][0] == us[0];
    }
  }

  /** One round of the decoding loop: appends a chunk, and maps the offset if it falls into the chunk. */
  method DecodeChunk(c: Chunk, offset: nat, rawPos: nat, text: seq<Byte>, found: Option<nat>)
    returns (text': seq<Byte>, found': Option<nat>)
    requires found.None? ==> rawPos <= offset
    ensures text' == text + ChunkText(c)
    ensures found' == FoundIn(c, offset, rawPos, |text|, found)
  {
    found' := found;
    if found.None? && offset < rawPos + |c.valid| {
      var o := RoundUp(c.valid, offset - rawPos);
      found' := Some(|text| + o);
    }
    text' := text + c.valid;
    if c.invalid != [] {
      text' := text' + EncodeChar(REPLACEMENT);
      if found'.None? && offset <= rawPos + |c.valid| + |c.invalid| {
        found' := Some(|text'|);
      }
    }
  }

  /**
   Decodes chunk by chunk, as the chunks of the input come; the mapped offset is found on the way.
   */
  method DecodeLossyAt(raw: seq<Byte>, rawOffset: nat) returns (text: seq<Byte>, mapped: nat)
    ensures text == Text(raw)
    ensures mapped == MapOffset(raw, rawOffset)
  {
    var offset := Min(rawOffset, |raw|);
    var chunks := Chunks(Units(raw));
    text := [];
    var found: Option<nat> := None;
    var rawPos: nat := 0;
    ghost var rest := Units(raw);
    UnitsAreUnits(raw);
    UnitsOfRaw(raw);
    for i := 0 to |chunks|
      invariant AreUnits(rest) && chunks[i..] == Chunks(rest)
      invariant text + ShownAll(rest) == Text(raw)
      invariant Located(MapOffset(raw, rawOffset), offset, rest, rawPos, |text|, found)
    {
      var c := chunks[i];
      ChunkShape(rest);
      ChunkShown(rest);
      LocatedStep(MapOffset(raw, rawOffset), offset, rest, rawPos, |text|, found);
      Associative(text, ChunkText(c), ShownAll(AfterChunk(rest)));
      text, found := DecodeChunk(c, offset, rawPos, text, found);
      rawPos := rawPos + |c.valid| + |c.invalid|;
      rest := AfterChunk(rest);
    }
    if rest != [] {
      FirstChunk(rest);
    }
    mapped := match found case Some(at) => at case None => |text|;
  }
}
