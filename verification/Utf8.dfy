/**
 UTF-8 as section 4 of RFC 3629 defines it, and lossy decoding: every malformed sequence, that is
 every longest prefix of a well-formed one (one byte at least), becomes one U+FFFD.
 */
module Utf8 {

  type Byte = b: int | 0 <= b < 256

  predicate IsTail(b: Byte) {
    0x80 <= b < 0xC0
  }

  /** Length of the sequences that start with `b`, 0 if there are none. */
  function SequenceLength(b: Byte): nat {
    if b < 0x80 then 1
    else if b < 0xC2 then 0
    else if b < 0xE0 then 2
    else if b < 0xF0 then 3
    else if b < 0xF5 then 4
    else 0
  }

  predicate SecondOk(b: Byte, second: Byte) {
    if b == 0xE0 then 0xA0 <= second < 0xC0
    else if b == 0xED then 0x80 <= second < 0xA0
    else if b == 0xF0 then 0x90 <= second < 0xC0
    else if b == 0xF4 then 0x80 <= second < 0x90
    else IsTail(second)
  }

  /** How many bytes at the front belong to the same sequence. */
  function MatchedLength(raw: seq<Byte>): (n: nat)
    requires raw != []
    ensures n <= |raw| && n <= SequenceLength(raw[0])
  {
    var need := SequenceLength(raw[0]);
    if need <= 1 then need
    else if |raw| < 2 || !SecondOk(raw[0], raw[1]) then 1
    else if need == 2 || |raw| < 3 || !IsTail(raw[2]) then 2
    else if need == 3 || |raw| < 4 || !IsTail(raw[3]) then 3
    else 4
  }

  /** The text starts with a well-formed sequence. */
  predicate UnitOk(raw: seq<Byte>)
    requires raw != []
  {
    0 < MatchedLength(raw) == SequenceLength(raw[0])
  }

  /** Length of the well-formed or malformed sequence at the front. */
  function UnitLength(raw: seq<Byte>): (n: nat)
    requires raw != []
    ensures 1 <= n <= |raw|
  {
    if MatchedLength(raw) == 0 then 1 else MatchedLength(raw)
  }

  predicate WellFormed(raw: seq<Byte>) {
    raw == [] || (UnitOk(raw) && WellFormed(raw[UnitLength(raw)..]))
  }

  /** The bits of a byte above the value `base` of its marker bits. */
  function Bits(b: Byte, base: int): int {
    b - base
  }

  /** The character of the well-formed sequence at the front. */
  function Scalar(raw: seq<Byte>): char
    requires raw != [] && UnitOk(raw)
  {
    var n := UnitLength(raw);
    if n == 1 then raw[0] as char
    else if n == 2 then (Bits(raw[0], 0xC0) * 64 + Bits(raw[1], 0x80)) as char
    else if n == 3 then (Bits(raw[0], 0xE0) * 4096 + Bits(raw[1], 0x80) * 64 + Bits(raw[2], 0x80)) as char
    else
      (Bits(raw[0], 0xF0) * 262144 + Bits(raw[1], 0x80) * 4096
       + Bits(raw[2], 0x80) * 64 + Bits(raw[3], 0x80)) as char
  }

  function EncodeChar(c: char): seq<Byte> {
    var n := c as int;
    if n < 0x80 then [n]
    else if n < 0x800 then [0xC0 + n / 64, 0x80 + n % 64]
    else if n < 0x10000 then [0xE0 + n / 4096, 0x80 + n / 64 % 64, 0x80 + n % 64]
    else [0xF0 + n / 262144, 0x80 + n / 4096 % 64, 0x80 + n / 64 % 64, 0x80 + n % 64]
  }

  function Encode(s: string): seq<Byte> {
    if s == [] then [] else EncodeChar(s[0]) + Encode(s[1..])
  }

  const REPLACEMENT: char := '\U{FFFD}'

  /** The lossy decoding, as characters. */
  function Decode(raw: seq<Byte>): string {
    if raw == [] then []
    else [if UnitOk(raw) then Scalar(raw) else REPLACEMENT] + Decode(raw[UnitLength(raw)..])
  }

  /** What the sequence at the front contributes to the text. */
  function Piece(raw: seq<Byte>): seq<Byte>
    requires raw != []
  {
    if UnitOk(raw) then raw[..UnitLength(raw)] else EncodeChar(REPLACEMENT)
  }

  /** The lossy decoding, as the bytes of the resulting string. */
  function Text(raw: seq<Byte>): seq<Byte> {
    if raw == [] then [] else Piece(raw) + Text(raw[UnitLength(raw)..])
  }

  lemma UnitShape(raw: seq<Byte>)
    requires raw != [] && UnitOk(raw)
    ensures !IsTail(raw[0])
    ensures forall i :: 0 < i < UnitLength(raw) ==> IsTail(raw[i])
  {
  }

  lemma EncodeLongScalar(raw: seq<Byte>)
    requires raw != [] && UnitOk(raw) && UnitLength(raw) == 4
    ensures EncodeChar(Scalar(raw)) == raw[..4]
  {
    assert Scalar(raw) as int / 64 == Bits(raw[0], 0xF0) * 4096 + Bits(raw[1], 0x80) * 64 + Bits(raw[2], 0x80);
    assert Scalar(raw) as int / 4096 == Bits(raw[0], 0xF0) * 64 + Bits(raw[1], 0x80);
  }

  lemma EncodeScalar(raw: seq<Byte>)
    requires raw != [] && UnitOk(raw)
    ensures EncodeChar(Scalar(raw)) == raw[..UnitLength(raw)]
  {
    if UnitLength(raw) == 4 {
      EncodeLongScalar(raw);
    } else if UnitLength(raw) == 3 {
      assert Scalar(raw) as int / 64 == Bits(raw[0], 0xE0) * 64 + Bits(raw[1], 0x80);
    }
  }

  lemma EncodedUnit(c: char)
    ensures var raw := EncodeChar(c);
      UnitOk(raw) && UnitLength(raw) == |raw| && Scalar(raw) == c
  {
    var n := c as int;
    assert n / 64 == n / 4096 * 64 + n / 64 % 64;
    if n >= 0x10000 {
      assert n / 4096 == n / 262144 * 64 + n / 4096 % 64;
    }
  }

  /** A well-formed sequence at the front stays one, whatever follows. */
  lemma UnitPrefix(a: seq<Byte>, b: seq<Byte>)
    requires a != [] && UnitOk(a)
    ensures UnitOk(a + b) && UnitLength(a + b) == UnitLength(a) && Scalar(a + b) == Scalar(a)
  {
    assert (a + b)[..|a|] == a;
  }

  /** The text is the encoding of the lossily decoded characters. */
  lemma {:induction false} TextIsEncoded(raw: seq<Byte>)
    ensures Text(raw) == Encode(Decode(raw))
  {
    if raw != [] {
      var back := raw[UnitLength(raw)..];
      TextIsEncoded(back);
      assert Decode(raw)[1..] == Decode(back);
      if UnitOk(raw) {
        EncodeScalar(raw);
      }
    }
  }

  lemma {:induction false} EncodeJoin(a: string, b: string)
    ensures Encode(a + b) == Encode(a) + Encode(b)
  {
    if a == [] {
      assert a + b == b;
    } else {
      hide EncodeChar;
      EncodeJoin(a[1..], b);
      assert (a + b)[1..] == a[1..] + b;
      assert EncodeChar(a[0]) + Encode(a[1..]) + Encode(b) == EncodeChar(a[0]) + (Encode(a[1..]) + Encode(b));
    }
  }

  /** Text of the first 128 characters is its own encoding, byte by byte. */
  lemma {:induction false} AsciiIsItself(s: string)
    requires forall i :: 0 <= i < |s| ==> s[i] as int < 0x80
    ensures |Encode(s)| == |s| && forall i :: 0 <= i < |s| ==> Encode(s)[i] == s[i] as int
  {
    if s != [] {
      AsciiIsItself(s[1..]);
      assert EncodeChar(s[0]) == [s[0] as int];
    }
  }

  /** Decoding inverts encoding, whatever follows. */
  lemma {:induction false} DecodeEncode(s: string)
    ensures WellFormed(Encode(s)) && Decode(Encode(s)) == s
  {
    if s != [] {
      var rest := Encode(s[1..]);
      DecodeEncode(s[1..]);
      EncodedUnit(s[0]);
      UnitPrefix(EncodeChar(s[0]), rest);
      assert Encode(s)[|EncodeChar(s[0])|..] == rest;
    }
  }

  /** Encoding inverts decoding exactly on well-formed text. */
  lemma {:induction false} TextIsIdentity(raw: seq<Byte>)
    requires WellFormed(raw)
    ensures Text(raw) == raw
  {
    if raw != [] {
      var n := UnitLength(raw);
      TextIsIdentity(raw[n..]);
      assert raw == raw[..n] + raw[n..];
    }
  }

  lemma WellFormedIffIdentity(raw: seq<Byte>)
    ensures WellFormed(raw) <==> Text(raw) == raw
  {
    TextIsEncoded(raw);
    DecodeEncode(Decode(raw));
    if WellFormed(raw) {
      TextIsIdentity(raw);
    }
  }

  lemma {:induction false} WellFormedJoin(a: seq<Byte>, b: seq<Byte>)
    requires WellFormed(a) && WellFormed(b)
    ensures WellFormed(a + b)
  {
    if a == [] {
      assert a + b == b;
    } else {
      var n := UnitLength(a);
      UnitPrefix(a, b);
      assert (a + b)[n..] == a[n..] + b;
      WellFormedJoin(a[n..], b);
    }
  }

  /** These bytes begin some character's encoding. */
  ghost predicate Begins(part: seq<Byte>) {
    exists c: char :: part <= EncodeChar(c)
  }

  /** The least second byte that may follow `b`. */
  function LeastSecond(b: Byte): Byte {
    if b == 0xE0 then 0xA0 else if b == 0xF0 then 0x90 else 0x80
  }

  /** A begun sequence, completed with the least bytes that may follow. */
  function Completed(part: seq<Byte>): (r: seq<Byte>)
    requires part != [] && MatchedLength(part) == |part|
    ensures part <= r && UnitOk(r) && UnitLength(r) == |r|
  {
    var need := SequenceLength(part[0]);
    if |part| == need then part
    else if need == 2 then part + [0x80]
    else if need == 3 then (if |part| == 1 then part + [LeastSecond(part[0]), 0x80] else part + [0x80])
    else if |part| == 1 then part + [LeastSecond(part[0]), 0x80, 0x80]
    else if |part| == 2 then part + [0x80, 0x80]
    else part + [0x80]
  }

  lemma MatchedBegins(raw: seq<Byte>)
    requires raw != [] && MatchedLength(raw) > 0
    ensures Begins(raw[..MatchedLength(raw)])
  {
    var part := raw[..MatchedLength(raw)];
    var whole := Completed(part);
    EncodeScalar(whole);
    assert whole[..|whole|] == whole;
    assert part <= EncodeChar(Scalar(whole));
  }

  /** How far a text agrees with a whole character, it is matched. */
  lemma BegunIsMatched(raw: seq<Byte>, n: nat, c: char)
    requires 0 < n <= |raw| && raw[..n] <= EncodeChar(c)
    ensures n <= MatchedLength(raw)
  {
    EncodedUnit(c);
    var whole := EncodeChar(c);
    assert forall i :: 0 <= i < n ==> raw[i] == raw[..n][i] == whole[i];
  }

  lemma CharacterStands(raw: seq<Byte>)
    requires raw != [] && UnitOk(raw)
    ensures exists c: char :: EncodeChar(c) <= raw
  {
    EncodeScalar(raw);
    assert EncodeChar(Scalar(raw)) <= raw;
  }

  /**
   Malformed input, told by the encodings alone: where no character's encoding stands, one U+FFFD
   replaces the longest stretch that begins one, or a single byte if none does; decoding goes on behind.
   */
  lemma MalformedIsMaximal(raw: seq<Byte>)
    requires raw != [] && forall c: char :: !(EncodeChar(c) <= raw)
    ensures var n := UnitLength(raw);
      && 1 <= n <= |raw| && Decode(raw) == ['\U{FFFD}'] + Decode(raw[n..])
      && (n == 1 || Begins(raw[..n]))
      && (forall k :: n < k <= |raw| ==> !Begins(raw[..k]))
  {
    var n := UnitLength(raw);
    if UnitOk(raw) {
      CharacterStands(raw);
    }
    if MatchedLength(raw) > 0 {
      MatchedBegins(raw);
    }
    forall k | n < k <= |raw|
      ensures !Begins(raw[..k])
    {
      if Begins(raw[..k]) {
        var c: char :| raw[..k] <= EncodeChar(c);
        BegunIsMatched(raw, k, c);
      }
    }
  }

  /** Where a character's encoding stands, it is decoded and decoding goes on behind it. */
  lemma CharacterIsDecoded(c: char, rest: seq<Byte>)
    ensures Decode(EncodeChar(c) + rest) == [c] + Decode(rest)
  {
    EncodedUnit(c);
    UnitPrefix(EncodeChar(c), rest);
    assert (EncodeChar(c) + rest)[|EncodeChar(c)|..] == rest;
  }
}
