/** First occurrences of a byte pattern. */
module Search {
  import opened Wrappers
  import opened Utf8

  predicate OccursAt(raw: seq<Byte>, pattern: seq<Byte>, i: nat) {
    i + |pattern| <= |raw| && raw[i..i + |pattern|] == pattern
  }

  /** The first occurrence at or after `i`. */
  function FirstMatch(raw: seq<Byte>, pattern: seq<Byte>, i: nat): (r: Option<nat>)
    requires pattern != []
    ensures r.Some? ==> i <= r.value && OccursAt(raw, pattern, r.value)
    ensures r.Some? ==> forall j :: i <= j < r.value ==> !OccursAt(raw, pattern, j)
    ensures r.None? ==> forall j :: i <= j ==> !OccursAt(raw, pattern, j)
    decreases |raw| - i
  {
    if i + |pattern| > |raw| then None
    else if raw[i..i + |pattern|] == pattern then Some(i)
    else FirstMatch(raw, pattern, i + 1)
  }

  /** A first occurrence is the only thing `FirstMatch` can return. */
  lemma FirstMatchIs(raw: seq<Byte>, pattern: seq<Byte>, i: nat, k: nat)
    requires pattern != [] && i <= k && OccursAt(raw, pattern, k)
    requires forall j :: i <= j < k ==> !OccursAt(raw, pattern, j)
    ensures FirstMatch(raw, pattern, i) == Some(k)
  {
  }

  ghost predicate Free(raw: seq<Byte>, pattern: seq<Byte>) {
    forall j :: !OccursAt(raw, pattern, j)
  }

  /** A text without the first byte of a pattern is free of it. */
  lemma FreeWithoutHead(raw: seq<Byte>, pattern: seq<Byte>)
    requires pattern != [] && pattern[0] !in raw
    ensures Free(raw, pattern)
  {
    forall j: nat
      ensures !OccursAt(raw, pattern, j)
    {
      if j + |pattern| <= |raw| {
        assert raw[j..j + |pattern|][0] == raw[j];
      }
    }
  }

  lemma OccursBehindCut(raw: seq<Byte>, cut: nat, pattern: seq<Byte>, j: nat)
    requires cut <= |raw|
    ensures OccursAt(raw, pattern, cut + j) <==> OccursAt(raw[cut..], pattern, j)
  {
    if j + |pattern| <= |raw| - cut {
      assert raw[cut..][j..j + |pattern|] == raw[cut + j..cut + j + |pattern|];
    }
  }

  /** Cutting off a front without occurrences shifts the first one. */
  lemma FirstMatchBehindCut(raw: seq<Byte>, cut: nat, pattern: seq<Byte>)
    requires pattern != [] && cut <= |raw|
    requires forall j: nat :: OccursAt(raw, pattern, j) ==> cut <= j
    ensures FirstMatch(raw, pattern, 0) == match FirstMatch(raw[cut..], pattern, 0)
      case None => None
      case Some(k) => Some(cut + k)
  {
    var back := raw[cut..];
    var first := FirstMatch(back, pattern, 0);
    forall j: nat
      ensures OccursAt(back, pattern, j) <==> OccursAt(raw, pattern, cut + j)
    {
      OccursBehindCut(raw, cut, pattern, j);
    }
    forall i: nat | first.None? || i < cut + first.value
      ensures !OccursAt(raw, pattern, i)
    {
      if i >= cut {
        assert !OccursAt(back, pattern, i - cut);
      }
    }
    if first.Some? {
      FirstMatchIs(raw, pattern, 0, cut + first.value);
    }
  }
}
