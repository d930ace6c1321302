/** What the mapped offset means: a sliceable, monotone position, and exactly which one. */
module LossyProperties {
  import opened Wrappers
  import opened Utf8
  import opened LossyOffset

  lemma ShownHead(u: Unit)
    requires IsUnit(u)
    ensures Shown(u) != [] && !IsTail(Shown(u)[0])
    ensures |u.bytes| <= |Shown(u)|
  {
  }

  lemma {:induction false} LandingIsMonotone(us: seq<Unit>, o: nat, o': nat, afterBad: bool)
    requires AreUnits(us) && o <= o' <= |Bytes(us)|
    ensures Landing(us, o, afterBad) <= Landing(us, o', afterBad)
  {
    if us != [] && o >= |us[0].bytes| {
      LandingIsMonotone(us[1..], o - |us[0].bytes|, o' - |us[0].bytes|, !us[0].ok);
    }
  }

  lemma {:induction false} LandingIsBounded(us: seq<Unit>, o: nat, afterBad: bool)
    requires AreUnits(us) && o <= |Bytes(us)|
    ensures o <= Landing(us, o, afterBad) <= |ShownAll(us)|
  {
    if us != [] {
      ShownHead(us[0]);
      if o >= |us[0].bytes| {
        LandingIsBounded(us[1..], o - |us[0].bytes|, !us[0].ok);
      }
    }
  }

  lemma BoundaryBehind(front: seq<Byte>, back: seq<Byte>, i: nat)
    requires i <= |back| && (back != [] ==> !IsTail(back[0])) && IsCharBoundary(back, i)
    ensures IsCharBoundary(front + back, |front| + i)
  {
    if i < |back| {
      assert (front + back)[|front| + i] == back[i];
    }
  }

  lemma {:induction false} LandingIsBoundary(us: seq<Unit>, o: nat, afterBad: bool)
    requires AreUnits(us) && o <= |Bytes(us)|
    ensures IsCharBoundary(ShownAll(us), Landing(us, o, afterBad))
  {
    if us != [] {
      var shown, back := Shown(us[0]), us[1..];
      if back != [] {
        ShownHead(back[0]);
      }
      BoundaryBehind(shown, ShownAll(back), 0);
      if o >= |us[0].bytes| {
        var rest := o - |us[0].bytes|;
        LandingIsBoundary(back, rest, !us[0].ok);
        LandingIsBounded(back, rest, !us[0].ok);
        BoundaryBehind(shown, ShownAll(back), Landing(back, rest, !us[0].ok));
      }
    }
  }

  /**
   The mapped offset can be sliced at, never falls before the raw offset (clamped to the input), and
   is monotone in it.
   */
  lemma MappedOffsetIsSafe(raw: seq<Byte>, o: nat, o': nat)
    requires o <= o'
    ensures IsCharBoundary(Text(raw), MapOffset(raw, o))
    ensures Min(o, |raw|) <= MapOffset(raw, o) <= |Text(raw)|
    ensures MapOffset(raw, o) <= MapOffset(raw, o')
  {
    var us := Units(raw);
    UnitsAreUnits(raw);
    UnitsOfRaw(raw);
    LandingIsBoundary(us, Min(o, |raw|), false);
    LandingIsBounded(us, Min(o, |raw|), false);
    LandingIsMonotone(us, Min(o, |raw|), Min(o', |raw|), false);
  }

  /** How many sequences lie before the first sequence boundary at or after `o`. */
  function CeilIndex(us: seq<Unit>, o: nat): (j: nat)
    requires o <= |Bytes(us)|
    ensures j <= |us|
  {
    if us == [] || o == 0 then 0
    else 1 + CeilIndex(us[1..], if o < |us[0].bytes| then 0 else o - |us[0].bytes|)
  }

  lemma {:induction false} CeilIsLeast(us: seq<Unit>, o: nat)
    requires AreUnits(us) && o <= |Bytes(us)|
    ensures var j := CeilIndex(us, o);
      o <= |Bytes(us[..j])| && (j > 0 ==> |Bytes(us[..j - 1])| < o)
  {
    if us != [] && o > 0 {
      var j, back := CeilIndex(us, o), if o < |us[0].bytes| then 0 else o - |us[0].bytes|;
      CeilIsLeast(us[1..], back);
      assert us[..j][1..] == us[1..][..j - 1];
      if j > 1 {
        assert us[..j - 1][1..] == us[1..][..j - 2];
      }
    }
  }

  /** A malformed sequence starts exactly at `o`, and none ends there. */
  predicate SkipsBad(us: seq<Unit>, o: nat, afterBad: bool)
    requires o <= |Bytes(us)|
  {
    var j := CeilIndex(us, o);
    j < |us| && !us[j].ok && |Bytes(us[..j])| == o && (if j == 0 then !afterBad else us[j - 1].ok)
  }

  lemma {:induction false} LandingIsExact(us: seq<Unit>, o: nat, afterBad: bool)
    requires AreUnits(us) && o <= |Bytes(us)|
    ensures Landing(us, o, afterBad) ==
      |ShownAll(us[..CeilIndex(us, o)])| + (if SkipsBad(us, o, afterBad) then |EncodeChar(REPLACEMENT)| else 0)
  {
    var j := CeilIndex(us, o);
    if us != [] && o > 0 {
      assert us[..j][1..] == us[1..][..j - 1];
      if o < |us[0].bytes| {
        assert j == 1 && us[..1][1..] == [];
      } else {
        LandingIsExact(us[1..], o - |us[0].bytes|, !us[0].ok);
      }
    }
  }

  /**
   Exactly where a raw offset lands: behind the sequences up to the first sequence boundary at or
   after it, and behind one more if a malformed sequence starts there that does not follow another
   malformed one.
   */
  lemma MappedOffsetIsExact(raw: seq<Byte>, o: nat) returns (j: nat)
    ensures var us := Units(raw);
      && Bytes(us) == raw && ShownAll(us) == Text(raw)
      && j <= |us| && Min(o, |raw|) <= |Bytes(us[..j])| && (j > 0 ==> |Bytes(us[..j - 1])| < Min(o, |raw|))
      && (MapOffset(raw, o) == |ShownAll(us[..j])| || (j < |us| && MapOffset(raw, o) == |ShownAll(us[..j + 1])|))
      && (MapOffset(raw, o) != |ShownAll(us[..j])| <==>
            j < |us| && !us[j].ok && |Bytes(us[..j])| == Min(o, |raw|) && (j == 0 || us[j - 1].ok))
  {
    var us := Units(raw);
    UnitsAreUnits(raw);
    UnitsOfRaw(raw);
    j := CeilIndex(us, Min(o, |raw|));
    CeilIsLeast(us, Min(o, |raw|));
    LandingIsExact(us, Min(o, |raw|), false);
    if j < |us| {
      ShownNext(us, j);
    }
  }

  lemma ShownNext(us: seq<Unit>, j: nat)
    requires j < |us|
    ensures ShownAll(us[..j + 1]) == ShownAll(us[..j]) + Shown(us[j])
  {
    assert us[..j + 1] == us[..j] + [us[j]];
    ShownJoin(us[..j], [us[j]]);
    assert ShownAll([us[j]]) == Shown(us[j]) + ShownAll([]);
  }

  lemma {:induction false} WellFormedUnits(raw: seq<Byte>)
    requires WellFormed(raw)
    ensures forall i :: 0 <= i < |Units(raw)| ==> Units(raw)[i].ok
  {
    if raw != [] {
      WellFormedUnits(raw[UnitLength(raw)..]);
    }
  }

  lemma LandingInText(us: seq<Unit>, o: nat)
    requires AreUnits(us) && (forall i :: 0 <= i < |us| ==> us[i].ok) && o <= |Bytes(us)|
    ensures Landing(us, o, false) == NextBoundary(Bytes(us), o)
  {
    assert us[..|us|] == us;
    if o < |Bytes(us)| {
      LandingInRun(us, o, |us|, false);
    } else {
      LandingPastRun(us, o, |us|, false);
    }
  }

  /** On well-formed text the mapping is the fast path: round up to a character boundary. */
  lemma FastPath(raw: seq<Byte>, o: nat)
    requires WellFormed(raw)
    ensures Text(raw) == raw
    ensures MapOffset(raw, o) == NextBoundary(raw, Min(o, |raw|))
  {
    TextIsIdentity(raw);
    UnitsAreUnits(raw);
    UnitsOfRaw(raw);
    WellFormedUnits(raw);
    LandingInText(Units(raw), Min(o, |raw|));
  }

  /** An offset between two malformed sequences stays between them, unlike one at the first of them. */
  lemma AdjacentMalformedStay()
    ensures MapOffset([0xFF, 0xFF], 0) == 3
    ensures MapOffset([0xFF, 0xFF], 1) == 3
    ensures Text([0xFF, 0xFF]) == EncodeChar(REPLACEMENT) + EncodeChar(REPLACEMENT)
  {
    var raw: seq<Byte> := [0xFF, 0xFF];
    var bad := Unit([0xFF], false);
    assert raw[1..] == [0xFF] && raw[..1] == [0xFF];
    assert Units([0xFF]) == [bad] by {
      assert [0xFF as Byte][1..] == [] && [0xFF as Byte][..1] == [0xFF];
    }
    assert Units(raw) == [bad, bad];
    UnitsOfRaw(raw);
    assert ShownAll([bad, bad]) == Shown(bad) + ShownAll([bad]);
    assert ShownAll([bad]) == Shown(bad) + ShownAll([]);
  }
}
