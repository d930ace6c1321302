/** Printed OSC 3008 markers parse back, whatever surrounds them. */
module OscRoundTrip {
  import opened Wrappers
  import opened Utf8
  import opened Search
  import opened Osc3008
  import D = Decimal

  datatype Ending = Bell | StringTerminator

  function EndingBytes(e: Ending): seq<Byte> {
    match e
    case Bell => [BELL]
    case StringTerminator => [ESCAPE, BACKSLASH]
  }

  function Body(kind: Kind, id: seq<Byte>, fields: seq<seq<Byte>>): seq<Byte> {
    Join([(if kind.Start? then START else END) + id] + fields)
  }

  function Printed(kind: Kind, id: seq<Byte>, fields: seq<seq<Byte>>, e: Ending): seq<Byte> {
    PREFIX + Body(kind, id, fields) + EndingBytes(e)
  }

  predicate IdFits(id: seq<Byte>) {
    1 <= |id| <= 128
  }

  /** What a marker can carry: no `;` in any part, and text that does not end early. */
  predicate Printable(kind: Kind, id: seq<Byte>, fields: seq<seq<Byte>>) {
    && SEMICOLON !in id
    && (forall i :: 0 <= i < |fields| ==> SEMICOLON !in fields[i])
    && WellFormed(Body(kind, id, fields))
    && (forall i :: 0 <= i < |Body(kind, id, fields)| ==> EndLength(Body(kind, id, fields), i) == 0)
  }

  lemma {:induction false} SplitField(field: seq<Byte>, back: seq<Byte>)
    requires SEMICOLON !in field
    ensures Split(field + [SEMICOLON] + back) == [field] + Split(back)
    ensures Split(field) == [field]
  {
    if field == [] {
      assert field + [SEMICOLON] + back == [SEMICOLON] + back;
    } else {
      SplitField(field[1..], back);
      assert (field + [SEMICOLON] + back)[1..] == field[1..] + [SEMICOLON] + back;
      assert [field[0]] + field[1..] == field;
    }
  }

  lemma {:induction false} SplitJoin(fields: seq<seq<Byte>>)
    requires fields != [] && forall i :: 0 <= i < |fields| ==> SEMICOLON !in fields[i]
    ensures Split(Join(fields)) == fields
  {
    if |fields| == 1 {
      SplitField(fields[0], []);
    } else {
      SplitJoin(fields[1..]);
      SplitField(fields[0], Join(fields[1..]));
    }
  }

  /** The first terminator behind a body without one is the one printed. */
  lemma {:induction false} OscEndOfBody(raw: seq<Byte>, at: nat, body: seq<Byte>, i: nat, e: Ending)
    requires i <= |body| && at + |body| + |EndingBytes(e)| <= |raw|
    requires raw[at..at + |body|] == body
    requires raw[at + |body|..at + |body| + |EndingBytes(e)|] == EndingBytes(e)
    requires forall k :: 0 <= k < |body| ==> EndLength(body, k) == 0
    ensures OscEnd(raw, at + i) == Some((at + |body|, at + |body| + |EndingBytes(e)|))
    decreases |body| - i
  {
    var ending := raw[at + |body|..at + |body| + |EndingBytes(e)|];
    assert raw[at + |body|] == ending[0];
    if i == |body| {
      if e.StringTerminator? {
        assert raw[at + |body| + 1] == ending[1];
      }
    } else {
      assert raw[at + i] == body[i];
      assert i + 1 < |body| ==> raw[at + i + 1] == body[i + 1];
      assert EndLength(body, i) == 0;
      OscEndOfBody(raw, at, body, i + 1, e);
    }
  }

  /** What reading a printed marker must give; an id that does not fit spoils it. */
  function ReadBack(start: nat, end: nat, kind: Kind, id: seq<Byte>, fields: seq<seq<Byte>>): Option<Marker> {
    if IdFits(id) then Some(Marker(start, end, id, kind, ReadFields(fields))) else None
  }

  lemma FieldsOfBody(start: nat, end: nat, kind: Kind, id: seq<Byte>, fields: seq<seq<Byte>>)
    requires Printable(kind, id, fields)
    ensures MarkerOf(start, end, Split(Body(kind, id, fields))) == ReadBack(start, end, kind, id, fields)
  {
    var first := (if kind.Start? then START else END) + id;
    SplitJoin([first] + fields);
    assert ([first] + fields)[1..] == fields;
    if kind.End? {
      assert first[0] == 0x65;
      assert !(START <= first);
      assert first[|END|..] == id;
    } else {
      assert first[|START|..] == id;
    }
  }

  lemma SliceOfSlice(raw: seq<Byte>, at: nat, part: seq<Byte>, i: nat, j: nat)
    requires at + |part| <= |raw| && raw[at..at + |part|] == part && i <= j <= |part|
    ensures raw[at + i..at + j] == part[i..j]
  {
    forall k | 0 <= k < j - i
      ensures raw[at + i..at + j][k] == part[i..j][k]
    {
      assert raw[at..at + |part|][i + k] == part[i + k];
    }
  }

  lemma MarkerParts(body: seq<Byte>, ending: seq<Byte>)
    ensures var m := PREFIX + body + ending;
      && m[0..|PREFIX|] == PREFIX && m[|PREFIX|..|PREFIX| + |body|] == body && m[|PREFIX| + |body|..|m|] == ending
  {
  }

  lemma MarkerFromParts(raw: seq<Byte>, at: nat, from: nat, kind: Kind,
      id: seq<Byte>, fields: seq<seq<Byte>>, e: Ending)
    requires Printable(kind, id, fields) && from == at + |PREFIX|
    requires var body := Body(kind, id, fields);
      && from + |body| + |EndingBytes(e)| <= |raw|
      && raw[from..from + |body|] == body
      && raw[from + |body|..from + |body| + |EndingBytes(e)|] == EndingBytes(e)
    ensures var end := from + |Body(kind, id, fields)| + |EndingBytes(e)|;
      MarkerAt(raw, at) == ReadBack(at, end, kind, id, fields)
  {
    var body := Body(kind, id, fields);
    OscEndOfBody(raw, from, body, 0, e);
    FieldsOfBody(at, from + |body| + |EndingBytes(e)|, kind, id, fields);
    hide MarkerOf, Split, Body, OscEnd, EndLength, WellFormed, ReadFields;
  }

  /** A printed marker is read back where it stands. */
  lemma MarkerIsRead(raw: seq<Byte>, at: nat, kind: Kind, id: seq<Byte>, fields: seq<seq<Byte>>, e: Ending)
    requires Printable(kind, id, fields)
    requires var m := Printed(kind, id, fields, e); at + |m| <= |raw| && raw[at..at + |m|] == m
    ensures var end := at + |Printed(kind, id, fields, e)|;
      MarkerAt(raw, at) == ReadBack(at, end, kind, id, fields)
  {
    var m, n := Printed(kind, id, fields, e), |PREFIX| + |Body(kind, id, fields)|;
    MarkerParts(Body(kind, id, fields), EndingBytes(e));
    SliceOfSlice(raw, at, m, |PREFIX|, n);
    SliceOfSlice(raw, at, m, n, |m|);
    MarkerFromParts(raw, at, at + |PREFIX|, kind, id, fields, e);
  }

  lemma {:induction false} JoinSplit(s: seq<Byte>)
    ensures Join(Split(s)) == s && forall i :: 0 <= i < |Split(s)| ==> SEMICOLON !in Split(s)[i]
  {
    if s != [] {
      var fields := Split(s[1..]);
      JoinSplit(s[1..]);
      if s[0] == SEMICOLON {
        assert ([[]] + fields)[1..] == fields;
      } else {
        var glued := [[s[0]] + fields[0]] + fields[1..];
        assert glued[1..] == fields[1..];
      }
    }
  }

  /** What stands between `from` and the end that is found holds no terminator, and one stands behind it. */
  lemma {:induction false} OscEndIsFirst(raw: seq<Byte>, from: nat)
    requires OscEnd(raw, from).Some?
    ensures var (bodyEnd, end) := OscEnd(raw, from).value;
      && (forall i :: from <= i < bodyEnd ==> EndLength(raw, i) == 0)
      && (raw[bodyEnd..end] == EndingBytes(Bell) || raw[bodyEnd..end] == EndingBytes(StringTerminator))
    decreases |raw| - from
  {
    if EndLength(raw, from) == 0 {
      OscEndIsFirst(raw, from + 1);
    }
  }

  lemma BodyHasNoEnd(raw: seq<Byte>, from: nat, to: nat)
    requires from <= to <= |raw| && forall i :: from <= i < to ==> EndLength(raw, i) == 0
    ensures forall k :: 0 <= k < to - from ==> EndLength(raw[from..to], k) == 0
  {
    forall k | 0 <= k < to - from
      ensures EndLength(raw[from..to], k) == 0
    {
      assert EndLength(raw, from + k) == 0;
    }
  }

  /** The parts of a parsed body. */
  lemma BodyOfFields(start: nat, end: nat, body: seq<Byte>) returns (fields: seq<seq<Byte>>)
    requires WellFormed(body) && (forall k :: 0 <= k < |body| ==> EndLength(body, k) == 0)
    requires MarkerOf(start, end, Split(body)).Some?
    ensures var m := MarkerOf(start, end, Split(body)).value;
      && body == Body(m.kind, m.id, fields) && Printable(m.kind, m.id, fields) && IdFits(m.id)
      && m == Marker(start, end, m.id, m.kind, ReadFields(fields))
  {
    var parts, m := Split(body), MarkerOf(start, end, Split(body)).value;
    JoinSplit(body);
    fields := parts[1..];
    var key := if m.kind.Start? then START else END;
    assert parts[0] == key + m.id;
    assert parts == [parts[0]] + fields;
    forall i | 0 <= i < |fields|
      ensures SEMICOLON !in fields[i]
    {
      assert fields[i] == parts[i + 1];
    }
  }

  /** The bytes of `raw` from `at` on are `m`, printed with these fields and this ending. */
  ghost predicate Carries(raw: seq<Byte>, at: nat, m: Marker, fields: seq<seq<Byte>>, e: Ending) {
    && m.start == at <= m.end <= |raw| && raw[at..m.end] == Printed(m.kind, m.id, fields, e)
    && Printable(m.kind, m.id, fields) && IdFits(m.id) && m.attributes == ReadFields(fields)
  }

  lemma MarkerCarries(raw: seq<Byte>, at: nat) returns (fields: seq<seq<Byte>>, e: Ending)
    requires OccursAt(raw, PREFIX, at) && MarkerAt(raw, at).Some?
    ensures Carries(raw, at, MarkerAt(raw, at).value, fields, e)
  {
    var from := at + |PREFIX|;
    var (bodyEnd, end) := OscEnd(raw, from).value;
    OscEndIsFirst(raw, from);
    BodyHasNoEnd(raw, from, bodyEnd);
    hide OscEnd, EndLength, WellFormed, Printable, Body, ReadFields, Split, MarkerOf;
    fields := BodyOfFields(at, end, raw[from..bodyEnd]);
    e := if raw[bodyEnd..end] == EndingBytes(Bell) then Bell else StringTerminator;
    Glued(raw, at, from, bodyEnd, end);
  }

  lemma Glued(raw: seq<Byte>, a: nat, b: nat, c: nat, d: nat)
    requires a <= b <= c <= d <= |raw|
    ensures raw[a..d] == raw[a..b] + raw[b..c] + raw[c..d]
  {
  }

  /**
   A marker is read exactly where one could have been printed: behind a prefix, its bytes are those of a
   marker with a fitting id and well-formed text, and it says what those say. What is cut off, is no
   UTF-8, has no id or one too long, or neither starts nor ends anything, is none.
   */
  lemma MarkerIsPrinted(raw: seq<Byte>, at: nat, m: Marker)
    requires OccursAt(raw, PREFIX, at)
    ensures MarkerAt(raw, at) == Some(m) <==> exists fields, e :: Carries(raw, at, m, fields, e)
  {
    hide MarkerAt;
    if MarkerAt(raw, at) == Some(m) {
      var fields, e := MarkerCarries(raw, at);
    }
    forall fields, e | Carries(raw, at, m, fields, e)
      ensures MarkerAt(raw, at) == Some(m)
    {
      CarriedIsRead(raw, at, m, fields, e);
    }
  }

  lemma CarriedIsRead(raw: seq<Byte>, at: nat, m: Marker, fields: seq<seq<Byte>>, e: Ending)
    requires OccursAt(raw, PREFIX, at) && Carries(raw, at, m, fields, e)
    ensures MarkerAt(raw, at) == Some(m)
  {
    hide Printable, Printed, MarkerAt, ReadFields;
    assert m.end - at == |raw[at..m.end]|;
    MarkerIsRead(raw, at, m.kind, m.id, fields, e);
  }

  /** A prefix cannot straddle the start of another one, so free text in front of one stays free. */
  lemma NextPrefix(raw: seq<Byte>, cursor: nat, gap: seq<Byte>)
    requires cursor + |gap| <= |raw| && raw[cursor..cursor + |gap|] == gap && Free(gap, PREFIX)
    requires OccursAt(raw, PREFIX, cursor + |gap|)
    ensures FirstMatch(raw, PREFIX, cursor) == Some(cursor + |gap|)
  {
    var at := cursor + |gap|;
    assert raw[at] == raw[at..at + |PREFIX|][0];
    forall j | cursor <= j < at
      ensures !OccursAt(raw, PREFIX, j)
    {
      if j + |PREFIX| <= at {
        SliceOfSlice(raw, cursor, gap, j - cursor, j - cursor + |PREFIX|);
        assert !OccursAt(gap, PREFIX, j - cursor);
      } else if j + |PREFIX| <= |raw| {
        assert raw[j..j + |PREFIX|][at - j] == raw[at];
      }
    }
    FirstMatchIs(raw, PREFIX, cursor, at);
  }

  lemma NoMorePrefix(raw: seq<Byte>, cursor: nat)
    requires cursor <= |raw| && Free(raw[cursor..], PREFIX)
    ensures FirstMatch(raw, PREFIX, cursor) == None
  {
    if FirstMatch(raw, PREFIX, cursor).Some? {
      var k := FirstMatch(raw, PREFIX, cursor).value;
      OccursBehindCut(raw, cursor, PREFIX, k - cursor);
    }
  }

  /** The text of one command with its markers, between other text. */
  function Transcript(pre: seq<Byte>, start: seq<Byte>, output: seq<Byte>, end: seq<Byte>, post: seq<Byte>): seq<Byte> {
    pre + start + output + end + post
  }

  lemma MarkersFrom(raw: seq<Byte>, cursor: nat, start: nat, m: Marker, rest: seq<Marker>)
    requires FirstMatch(raw, PREFIX, cursor) == Some(start) && MarkerAt(raw, start) == Some(m)
    requires Markers(raw, m.end) == Some(rest)
    ensures Markers(raw, cursor) == Some([m] + rest)
  {
  }

  lemma PrintedStartsWithPrefix(raw: seq<Byte>, at: nat, kind: Kind, id: seq<Byte>, fields: seq<seq<Byte>>, e: Ending)
    requires var m := Printed(kind, id, fields, e); at + |m| <= |raw| && raw[at..at + |m|] == m
    ensures OccursAt(raw, PREFIX, at)
  {
    var m := Printed(kind, id, fields, e);
    MarkerParts(Body(kind, id, fields), EndingBytes(e));
    SliceOfSlice(raw, at, m, 0, |PREFIX|);
  }

  /** A printed marker, and the text in front of it. */
  datatype Piece = Piece(text: seq<Byte>, kind: Kind, id: seq<Byte>, fields: seq<seq<Byte>>, ending: Ending)

  function PieceBytes(p: Piece): seq<Byte> {
    p.text + Printed(p.kind, p.id, p.fields, p.ending)
  }

  /** Any number of markers with text before, between and behind them. */
  function Printout(pieces: seq<Piece>, post: seq<Byte>): seq<Byte> {
    if pieces == [] then post else PieceBytes(pieces[0]) + Printout(pieces[1..], post)
  }

  ghost predicate PieceOk(p: Piece) {
    Free(p.text, PREFIX) && Printable(p.kind, p.id, p.fields) && IdFits(p.id)
  }

  /** The markers of a printout that begins at `at`. */
  function Placed(pieces: seq<Piece>, at: nat): (markers: seq<Marker>)
    ensures |markers| == |pieces|
  {
    if pieces == [] then []
    else
      [PlacedOne(pieces[0], at)] + Placed(pieces[1..], at + |PieceBytes(pieces[0])|)
  }

  function PlacedOne(p: Piece, at: nat): Marker {
    Marker(at + |p.text|, at + |PieceBytes(p)|, p.id, p.kind, ReadFields(p.fields))
  }

  lemma PlacedFirst(pieces: seq<Piece>, at: nat)
    requires pieces != []
    ensures Placed(pieces, at) == [PlacedOne(pieces[0], at)] + Placed(pieces[1..], at + |PieceBytes(pieces[0])|)
  {
  }

  /** A piece at `at`, part by part. */
  ghost predicate StandsAt(raw: seq<Byte>, at: nat, p: Piece) {
    var start, m := at + |p.text|, Printed(p.kind, p.id, p.fields, p.ending);
    start + |m| <= |raw| && raw[at..start] == p.text && raw[start..start + |m|] == m
  }

  lemma PieceIsRead(raw: seq<Byte>, at: nat, p: Piece)
    requires PieceOk(p) && StandsAt(raw, at, p)
    ensures FirstMatch(raw, PREFIX, at) == Some(at + |p.text|)
    ensures MarkerAt(raw, at + |p.text|) == Some(PlacedOne(p, at))
  {
    hide Printable, Printed, MarkerAt, FirstMatch, ReadFields;
    PrintedStartsWithPrefix(raw, at + |p.text|, p.kind, p.id, p.fields, p.ending);
    NextPrefix(raw, at, p.text);
    MarkerIsRead(raw, at + |p.text|, p.kind, p.id, p.fields, p.ending);
  }

  lemma Thirds(raw: seq<Byte>, at: nat, a: seq<Byte>, b: seq<Byte>, c: seq<Byte>)
    requires at <= |raw| && raw[at..] == a + b + c
    ensures var i, j := at + |a|, at + |a| + |b|;
      j <= |raw| && raw[at..i] == a && raw[i..j] == b && raw[j..] == c
  {
    var back := raw[at..];
    assert |raw| - at == |back| == |a| + |b| + |c|;
    assert raw[at..at + |a|] == back[..|a|];
    assert raw[at + |a|..at + |a| + |b|] == back[|a|..|a| + |b|];
    assert raw[at + |a| + |b|..] == back[|a| + |b|..];
  }

  lemma FirstPieceStands(raw: seq<Byte>, at: nat, pieces: seq<Piece>, post: seq<Byte>)
    requires pieces != [] && at <= |raw| && raw[at..] == Printout(pieces, post)
    ensures StandsAt(raw, at, pieces[0])
    ensures var next := at + |PieceBytes(pieces[0])|; next <= |raw| && raw[next..] == Printout(pieces[1..], post)
  {
    var p := pieces[0];
    var m := Printed(p.kind, p.id, p.fields, p.ending);
    hide Printed;
    Thirds(raw, at, p.text, m, Printout(pieces[1..], post));
  }

  lemma NothingPrinted(raw: seq<Byte>, at: nat, post: seq<Byte>)
    requires at <= |raw| && raw[at..] == Printout([], post) && Free(post, PREFIX)
    ensures Markers(raw, at) == Some(Placed([], at))
  {
    NoMorePrefix(raw, at);
  }

  /** All markers of a printout are read back, each where it was printed. */
  lemma {:induction false} PrintoutIsRead(raw: seq<Byte>, at: nat, pieces: seq<Piece>, post: seq<Byte>)
    requires at <= |raw| && raw[at..] == Printout(pieces, post) && Free(post, PREFIX)
    requires forall i :: 0 <= i < |pieces| ==> PieceOk(pieces[i])
    ensures Markers(raw, at) == Some(Placed(pieces, at))
    decreases |pieces|
  {
    hide PieceOk, PieceBytes, MarkerAt, Printout, Placed, PlacedOne, Markers, FirstMatch, Free, StandsAt;
    if pieces == [] {
      NothingPrinted(raw, at, post);
    } else {
      var next := at + |PieceBytes(pieces[0])|;
      FirstPieceStands(raw, at, pieces, post);
      PieceIsRead(raw, at, pieces[0]);
      PrintoutIsRead(raw, next, pieces[1..], post);
      PlacedFirst(pieces, at);
      NextOf(pieces[0], at);
      MarkersFrom(raw, at, at + |pieces[0].text|, PlacedOne(pieces[0], at), Placed(pieces[1..], next));
    }
  }

  lemma NextOf(p: Piece, at: nat)
    ensures PlacedOne(p, at).end == at + |PieceBytes(p)|
  {
  }

  /** A printout is the bytes of its front and the printout of its back. */
  lemma {:induction false} PrintoutJoin(a: seq<Piece>, b: seq<Piece>, post: seq<Byte>)
    ensures Printout(a + b, post) == Printout(a, []) + Printout(b, post)
  {
    if a == [] {
      assert a + b == b;
    } else {
      PrintoutJoin(a[1..], b, post);
      assert (a + b)[1..] == a[1..] + b;
      Associative(PieceBytes(a[0]), Printout(a[1..], []), Printout(b, post));
    }
  }

  /** A marker carries what its piece does, and ends where the printout of the pieces up to it does. */
  lemma {:induction false} PlacedAt(pieces: seq<Piece>, at: nat, i: nat)
    requires i < |pieces|
    ensures Placed(pieces, at)[i] == PlacedOne(pieces[i], at + |Printout(pieces[..i], [])|)
  {
    var next := at + |PieceBytes(pieces[0])|;
    PlacedFirst(pieces, at);
    if i == 0 {
      NoPieces();
      assert pieces[..0] == [];
    } else {
      PlacedAt(pieces[1..], next, i - 1);
      FrontLength(pieces, i);
      hide PieceBytes, Printout, PlacedOne, Placed;
      assert Placed(pieces, at)[i] == Placed(pieces[1..], next)[i - 1];
    }
  }

  lemma PlacedCarries(pieces: seq<Piece>, i: nat)
    requires i < |pieces|
    ensures var m := Placed(pieces, 0)[i];
      m.kind == pieces[i].kind && m.id == pieces[i].id && m.attributes == ReadFields(pieces[i].fields)
  {
    hide Placed, Printout, ReadFields;
    PlacedAt(pieces, 0, i);
  }

  lemma PlacedEnd(pieces: seq<Piece>, at: nat, i: nat)
    requires i < |pieces|
    ensures Placed(pieces, at)[i].end == at + |Printout(pieces[..i + 1], [])|
  {
    PlacedAt(pieces, at, i);
    PrintoutJoin(pieces[..i], [pieces[i]], []);
    assert pieces[..i] + [pieces[i]] == pieces[..i + 1];
    OnePiece(pieces[i]);
  }

  lemma OnePiece(p: Piece)
    ensures Printout([p], []) == PieceBytes(p)
  {
  }

  lemma NoPieces()
    ensures Printout([], []) == []
  {
  }

  lemma FrontLength(pieces: seq<Piece>, n: nat)
    requires 0 < n <= |pieces|
    ensures |Printout(pieces[..n], [])| == |PieceBytes(pieces[0])| + |Printout(pieces[1..][..n - 1], [])|
  {
    assert pieces[..n][1..] == pieces[1..][..n - 1];
  }

  /** What was printed between two markers stands between them. */
  lemma OutputBetween(front: seq<Piece>, inner: seq<Piece>, end: Piece, behind: seq<Piece>, post: seq<Byte>)
    requires front != []
    ensures var pieces := front + inner + [end] + behind;
      var raw, markers := Printout(pieces, post), Placed(pieces, 0);
      var from, to := markers[|front| - 1].end, markers[|front| + |inner|].start;
      from <= to <= |raw| && raw[from..to] == Printout(inner, end.text)
  {
    var pieces := front + inner + [end] + behind;
    var marker := Printed(end.kind, end.id, end.fields, end.ending);
    hide Printout, Placed, Printed;
    PrintedParts(front, inner, end, behind, post);
    Slices(Printout(front, []), Printout(inner, []), end.text, marker, Printout(behind, post));
    assert pieces[..|front|] == front && pieces[..|front| + |inner|] == front + inner;
    PlacedEnd(pieces, 0, |front| - 1);
    PlacedAt(pieces, 0, |front| + |inner|);
    PrintoutJoin(front, inner, []);
  }

  lemma PrintedParts(front: seq<Piece>, inner: seq<Piece>, end: Piece, behind: seq<Piece>, post: seq<Byte>)
    ensures var marker := Printed(end.kind, end.id, end.fields, end.ending);
      Printout(front + inner + [end] + behind, post) ==
        Printout(front, []) + Printout(inner, []) + (end.text + marker + Printout(behind, post))
    ensures Printout(inner, end.text) == Printout(inner, []) + end.text
  {
    var back := [end] + behind;
    assert back[1..] == behind;
    assert Printout(back, post) == PieceBytes(end) + Printout(behind, post);
    assert front + inner + [end] + behind == (front + inner) + back;
    PrintoutJoin(front + inner, back, post);
    PrintoutJoin(front, inner, []);
    PrintoutJoin(inner, [], end.text);
    assert inner + [] == inner;
  }

  lemma Slices(a: seq<Byte>, b: seq<Byte>, c: seq<Byte>, d: seq<Byte>, e: seq<Byte>)
    ensures (a + b + (c + d + e))[|a|..|a| + |b| + |c|] == b + c
  {
  }

  lemma MarkerIsNotEmpty(raw: seq<Byte>, markers: seq<Marker>, i: nat)
    requires Ordered(raw, markers) && i < |markers|
    ensures markers[i].start < markers[i].end
  {
    hide OscEnd, WellFormed, MarkerOf;
    assert MarkerAt(raw, markers[i].start) == Some(markers[i]);
  }

  lemma InOrder(raw: seq<Byte>, markers: seq<Marker>, i: nat, j: nat)
    requires Ordered(raw, markers) && i < j < |markers|
    ensures markers[i].end <= markers[j].start
  {
    hide MarkerAt;
  }

  /** A marker begins behind another's end iff it comes later. */
  lemma BehindIsLater(raw: seq<Byte>, markers: seq<Marker>, s: nat, i: nat)
    requires Markers(raw, 0) == Some(markers) && s < |markers| && i < |markers|
    ensures markers[i].start >= markers[s].end <==> s < i
  {
    MarkersAreOrdered(raw, 0);
    hide Ordered, Markers;
    MarkerIsNotEmpty(raw, markers, i);
    MarkerIsNotEmpty(raw, markers, s);
    if i < s {
      InOrder(raw, markers, i, s);
    } else if s < i {
      InOrder(raw, markers, s, i);
    }
  }

  /** The conditions of the extraction, by the places of the markers. */
  lemma ExtractsThem(raw: seq<Byte>, markers: seq<Marker>, s: nat, e: nat, command: Command)
    requires Markers(raw, 0) == Some(markers) && s < e < |markers|
    requires forall i :: 0 <= i < |markers| ==>
      (markers[i].kind == Start && markers[i].attributes.command <==> i == s)
    requires forall i :: s < i < |markers| ==> (markers[i].kind == End && markers[i].id == markers[s].id <==> i == e)
    requires markers[s].end <= markers[e].start <= |raw|
    requires command == Command(raw[markers[s].end..markers[e].start],
      markers[e].attributes.status, markers[e].attributes.exitCode)
    ensures Extracts(raw, command)
  {
    hide MarkerAt, Markers;
    forall i | 0 <= i < |markers|
      ensures markers[i].kind == End && markers[i].id == markers[s].id && markers[i].start >= markers[s].end <==> i == e
    {
      BehindIsLater(raw, markers, s, i);
      assert s < i ==> (markers[i].kind == End && markers[i].id == markers[s].id <==> i == e);
    }
    assert ExtractsAt(raw, markers, s, e, command);
  }

  /** The pieces' own conditions are those of the extraction. */
  lemma PiecesExtract(raw: seq<Byte>, pieces: seq<Piece>, s: nat, e: nat, output: seq<Byte>)
    requires Markers(raw, 0) == Some(Placed(pieces, 0)) && s < e < |pieces|
    requires forall i :: 0 <= i < |pieces| ==>
      (pieces[i].kind == Start && ReadFields(pieces[i].fields).command <==> i == s)
    requires forall i :: s < i < |pieces| ==> (pieces[i].kind == End && pieces[i].id == pieces[s].id <==> i == e)
    requires var from, to := Placed(pieces, 0)[s].end, Placed(pieces, 0)[e].start;
      from <= to <= |raw| && raw[from..to] == output
    ensures var a := ReadFields(pieces[e].fields);
      ParseOneCommand(raw) == Some(Command(output, a.status, a.exitCode))
  {
    var markers, a := Placed(pieces, 0), ReadFields(pieces[e].fields);
    var command := Command(output, a.status, a.exitCode);
    hide Markers, ReadFields, Placed, MarkerAt, Extracts, ParseOneCommand;
    forall i | 0 <= i < |markers|
      ensures markers[i].kind == pieces[i].kind && markers[i].id == pieces[i].id
      ensures markers[i].attributes == ReadFields(pieces[i].fields)
    {
      PlacedCarries(pieces, i);
    }
    ExtractsThem(raw, markers, s, e, command);
    ExtractedIsParsed(raw, command);
  }

  /**
   Commands among other markers: of any printout the one command is extracted, however many markers of
   other contexts enclose it, stand beside it or lie inside it, and whatever ended in front of it. Its
   output is all that was printed between its own two markers.
   */
  lemma NestedRoundTrip(outer: seq<Piece>, start: Piece, inner: seq<Piece>, end: Piece, behind: seq<Piece>,
      post: seq<Byte>)
    requires Free(post, PREFIX)
    requires forall p :: p in outer + [start] + inner + [end] + behind ==> PieceOk(p)
    requires start.kind == Start && ReadFields(start.fields).command && end.kind == End && end.id == start.id
    requires forall p :: p in outer + inner + behind ==> !(p.kind == Start && ReadFields(p.fields).command)
    requires forall p :: p in inner + behind ==> !(p.kind == End && p.id == start.id)
    ensures var a := ReadFields(end.fields);
      ParseOneCommand(Printout(outer + [start] + inner + [end] + behind, post)) ==
        Some(Command(Printout(inner, end.text), a.status, a.exitCode))
  {
    var pieces := outer + [start] + inner + [end] + behind;
    var raw, s, e := Printout(pieces, post), |outer|, |outer| + 1 + |inner|;
    hide Printout, Placed, Markers, PieceOk, ReadFields, ParseOneCommand;
    PrintoutIsRead(raw, 0, pieces, post);
    OutputBetween(outer + [start], inner, end, behind, post);
    forall i | 0 <= i < |pieces|
      ensures pieces[i].kind == Start && ReadFields(pieces[i].fields).command <==> i == s
    {
      assert i != s && i != e ==> pieces[i] in outer + inner + behind;
    }
    forall i | s < i < |pieces|
      ensures pieces[i].kind == End && pieces[i].id == pieces[s].id <==> i == e
    {
      assert i != e ==> pieces[i] in inner + behind;
    }
    PiecesExtract(raw, pieces, s, e, Printout(inner, end.text));
  }

  lemma TwoPiecesParse(start: Piece, end: Piece, post: seq<Byte>)
    requires Free(post, PREFIX) && PieceOk(start) && PieceOk(end)
    requires start.kind == Start && ReadFields(start.fields).command && end.kind == End && end.id == start.id
    ensures var a := ReadFields(end.fields);
      ParseOneCommand(Printout([start, end], post)) == Some(Command(end.text, a.status, a.exitCode))
  {
    hide PieceOk, ReadFields, ParseOneCommand;
    assert [] + [start] + [] + [end] + [] == [start, end];
    NestedRoundTrip([], start, [], end, [], post);
  }

  lemma Regroup(a: seq<Byte>, b: seq<Byte>, c: seq<Byte>, d: seq<Byte>, e: seq<Byte>)
    ensures a + b + (c + d + e) == a + b + c + d + e
  {
  }

  lemma TwoPieces(a: Piece, b: Piece, post: seq<Byte>)
    ensures Printout([a, b], post) == PieceBytes(a) + (PieceBytes(b) + post)
    ensures Printout([], b.text) == b.text
  {
    assert [a, b][1..] == [b] && [b][1..] == [];
    assert Printout([b], post) == PieceBytes(b) + Printout([], post);
    assert Printout([], b.text) == b.text;
  }

  /**
   OSC round trip: one command start marker, an output and its end marker, inside text free of the
   prefix, parse back to exactly that output, status and exit code.
   */
  lemma CommandRoundTrip(pre: seq<Byte>, output: seq<Byte>, post: seq<Byte>, id: seq<Byte>,
      startFields: seq<seq<Byte>>, startEnding: Ending, endFields: seq<seq<Byte>>, endEnding: Ending)
    requires Free(pre, PREFIX) && Free(output, PREFIX) && Free(post, PREFIX)
    requires Printable(Start, id, startFields) && Printable(End, id, endFields)
    requires IdFits(id) && ReadFields(startFields).command
    ensures var a := ReadFields(endFields);
      ParseOneCommand(Transcript(pre, Printed(Start, id, startFields, startEnding), output,
        Printed(End, id, endFields, endEnding), post)) == Some(Command(output, a.status, a.exitCode))
  {
    var start := Piece(pre, Start, id, startFields, startEnding);
    var end := Piece(output, End, id, endFields, endEnding);
    var first, last := Printed(Start, id, startFields, startEnding), Printed(End, id, endFields, endEnding);
    hide ParseOneCommand, Printed, Printout, Printable, Free, ReadFields;
    TwoPiecesParse(start, end, post);
    TwoPieces(start, end, post);
    Regroup(pre, first, output, last, post);
  }

  function AsBytes(digits: string): seq<Byte>
    requires D.AllDigits(digits)
  {
    seq(|digits|, i requires 0 <= i < |digits| => digits[i] as int)
  }

  /** The decimal form of an exit code. */
  function PrintNat(n: nat): seq<Byte> {
    D.DigitsAreReadBack(n);
    AsBytes(D.Digits(n))
  }

  function PrintI32(n: int): seq<Byte> {
    if n < 0 then [0x2D] + PrintNat(-n) else PrintNat(n)
  }

  lemma {:induction false} BytesValue(digits: string)
    requires D.AllDigits(digits)
    ensures IsDigits(AsBytes(digits)) && DigitsValue(AsBytes(digits)) == D.Value(digits)
  {
    if digits != "" {
      BytesValue(digits[..|digits| - 1]);
      assert AsBytes(digits)[..|digits| - 1] == AsBytes(digits[..|digits| - 1]);
    }
  }

  lemma PrintedNat(n: nat)
    ensures PrintNat(n) != [] && IsDigits(PrintNat(n)) && DigitsValue(PrintNat(n)) == n
  {
    D.DigitsAreReadBack(n);
    BytesValue(D.Digits(n));
  }

  lemma Negated(digits: seq<Byte>)
    requires digits != [] && IsDigits(digits)
    ensures ParseI32([0x2D] + digits) ==
      if DigitsValue(digits) <= 0x8000_0000 then Some(0 - DigitsValue(digits)) else None
  {
    assert ([0x2D] + digits)[1..] == digits;
  }

  /** A printed number is read back exactly if it fits 32 bits. */
  lemma ExitCodeRoundTrip(n: int)
    ensures ParseI32(PrintI32(n)) == if -0x8000_0000 <= n <= 0x7FFF_FFFF then Some(n) else None
  {
    PrintedNat(if n < 0 then -n else n);
    if n < 0 {
      hide PrintNat, DigitsValue, IsDigits, ParseI32;
      Negated(PrintNat(-n));
    } else {
      hide PrintNat, DigitsValue;
    }
  }

  /** Anything but an optional sign and at least one digit is no exit code. */
  lemma OnlyNumbersAreRead(s: seq<Byte>)
    ensures ParseI32(s).Some? ==>
      var digits := if s != [] && (s[0] == 0x2B || s[0] == 0x2D) then s[1..] else s;
      digits != [] && forall i :: 0 <= i < |digits| ==> '0' as int <= digits[i] <= '9' as int
  {
  }

  lemma PlusSignIsSkipped(n: nat)
    ensures ParseI32([0x2B] + PrintNat(n)) == if n <= 0x7FFF_FFFF then Some(n) else None
  {
    PrintedNat(n);
    assert ([0x2B] + PrintNat(n))[1..] == PrintNat(n);
  }

  /** The two fields a shell prints at the end of a command are read back. */
  lemma ExitFieldsAreRead(n: int)
    requires -0x8000_0000 <= n <= 0x7FFF_FFFF
    ensures ReadFields([EXIT_SUCCESS, STATUS + PrintI32(n)]) == Attributes(false, Some(Success), Some(n))
    ensures ReadFields([EXIT_FAILURE, STATUS + PrintI32(n)]) == Attributes(false, Some(Failure), Some(n))
  {
    var field := STATUS + PrintI32(n);
    ExitCodeRoundTrip(n);
    assert field[|STATUS|..] == PrintI32(n);
    assert field[0] == 0x73;
    assert field != TYPE_COMMAND && field != EXIT_SUCCESS && field != EXIT_FAILURE;
    ReadTwo(EXIT_SUCCESS, field);
    ReadTwo(EXIT_FAILURE, field);
  }

  lemma ReadTwo(a: seq<Byte>, b: seq<Byte>)
    ensures ReadFields([a, b]) == ReadField(ReadField(Attributes(false, None, None), a), b)
  {
    assert [a, b][..1] == [a] && [a][..0] == [];
    assert ReadFields([a]) == ReadField(ReadFields([]), a);
  }
}
