/** The journal's timestamp text: `YYYY-MM-DDTHH:MM:SS.sssZ` of section 5.6 of RFC 3339. */
module Timestamp {
  import opened Wrappers
  import opened Calendar
  import opened Decimal

  const DAY := 86_400

  /** The first second of year 10000. */
  const YEAR_10000 := 253_402_300_800

  /** A number printed at a fixed width, its mark, and the rest of the text. */
  function Part(n: int, width: nat, mark: char, rest: string): string {
    Padded(n, width) + [mark] + rest
  }

  function ClockText(tod: int, millis: nat): string
    requires 0 <= tod
  {
    Part(tod / 3600, 2, ':', Part((tod % 3600) / 60, 2, ':', Part(tod % 60, 2, '.', Part(millis, 3, 'Z', ""))))
  }

  function DateText(date: Date, rest: string): string {
    Part(date.year, 4, '-', Part(date.month, 2, '-', Part(date.day, 2, 'T', rest)))
  }

  /** The timestamp of `secs` seconds and `millis` milliseconds after 1970-01-01T00:00:00Z. */
  function Stamp(secs: int, millis: nat): string {
    DateText(CivilFromDays(secs / DAY), ClockText(secs % DAY, millis))
  }

  /** The number in front of a text, if it is `width` digits followed by `mark`. */
  function TakePart(s: string, width: nat, mark: char): Option<(nat, string)> {
    if |s| > width && AllDigits(s[..width]) && s[width] == mark then Some((Value(s[..width]), s[width + 1..])) else None
  }

  function ParseClock(s: string): Option<(nat, nat)> {
    var (h, s1) :- TakePart(s, 2, ':');
    var (mi, s2) :- TakePart(s1, 2, ':');
    var (sec, s3) :- TakePart(s2, 2, '.');
    var (ms, end) :- TakePart(s3, 3, 'Z');
    if h < 24 && mi < 60 && sec < 60 && end == "" then Some((h * 3600 + mi * 60 + sec, ms)) else None
  }

  function ParseDate(s: string): Option<(Date, string)> {
    var (y, s1) :- TakePart(s, 4, '-');
    var (m, s2) :- TakePart(s1, 2, '-');
    var (d, s3) :- TakePart(s2, 2, 'T');
    if ValidDate(Date(y, m, d)) then Some((Date(y, m, d), s3)) else None
  }

  /** A calendar day, the second of the day, and the millisecond. */
  datatype Reading = Reading(date: Date, tod: nat, millis: nat)

  /** Reads a timestamp; anything but a real instant is refused. */
  function Parse(s: string): Option<Reading> {
    var (date, rest) :- ParseDate(s);
    var (tod, millis) :- ParseClock(rest);
    Some(Reading(date, tod, millis))
  }

  function Seconds(r: Reading): int
    requires ValidDate(r.date)
  {
    DaysFromCivil(r.date) * DAY + r.tod
  }

  /** The instants whose year has four digits. */
  predicate InRange(secs: int, millis: nat) {
    0 <= CivilFromDays(secs / DAY).year <= 9999 && millis < 1000
  }

  predicate InstantLess(secs: int, millis: nat, secs': int, millis': nat) {
    secs < secs' || (secs == secs' && millis < millis')
  }

  lemma Powers()
    ensures Pow10(2) == 100 && Pow10(3) == 1000 && Pow10(4) == 10_000
  {
    assert Pow10(1) == 10;
  }

  lemma PartOrder(n: nat, m: nat, width: nat, mark: char, x: string, y: string)
    requires n < Pow10(width) && m < Pow10(width) && width > 0
    ensures Before(Part(n, width, mark, x), Part(m, width, mark, y)) <==> n < m || (n == m && Before(x, y))
  {
    PaddedIsFixed(n, width);
    PaddedIsFixed(m, width);
    FixedOrder(n, m, width);
    var p, q := Fixed(n, width), Fixed(m, width);
    BeforeByParts(p + [mark], q + [mark], x, y);
    BeforeByParts(p, q, [mark], [mark]);
    assert !Before([mark], [mark]);
    assert (p + [mark])[..width] == p && (q + [mark])[..width] == q;
  }

  lemma PartRoundTrip(n: nat, width: nat, mark: char, rest: string)
    requires n < Pow10(width) && width > 0
    ensures TakePart(Part(n, width, mark, rest), width, mark) == Some((n, rest))
  {
    PaddedIsFixed(n, width);
    FixedValue(n, width);
    var s := Part(n, width, mark, rest);
    assert s[..width] == Fixed(n, width) && s[width + 1..] == rest;
  }

  lemma PartPrintsBack(s: string, width: nat, mark: char)
    requires width > 0 && TakePart(s, width, mark).Some?
    ensures var (n, rest) := TakePart(s, width, mark).value;
      n < Pow10(width) && Part(n, width, mark, rest) == s
  {
    ValueFixed(s[..width]);
    PaddedIsFixed(Value(s[..width]), width);
    assert s == s[..width] + [s[width]] + s[width + 1..];
  }

  lemma ClockSplit(tod: nat)
    ensures tod == tod / 3600 * 3600 + (tod % 3600) / 60 * 60 + tod % 60
    ensures (tod % 3600) / 60 < 60 && tod % 60 < 60
  {
    assert tod % 3600 % 60 == tod % 60;
  }

  lemma ClockOrder(tod: nat, millis: nat, tod': nat, millis': nat)
    requires tod < DAY && tod' < DAY && millis < 1000 && millis' < 1000
    ensures Before(ClockText(tod, millis), ClockText(tod', millis')) <==>
      tod < tod' || (tod == tod' && millis < millis')
  {
    ClockSplit(tod);
    ClockSplit(tod');
    Powers();
    var x, x' := Part(millis, 3, 'Z', ""), Part(millis', 3, 'Z', "");
    PartOrder(millis, millis', 3, 'Z', "", "");
    var y, y' := Part(tod % 60, 2, '.', x), Part(tod' % 60, 2, '.', x');
    PartOrder(tod % 60, tod' % 60, 2, '.', x, x');
    var z, z' := Part((tod % 3600) / 60, 2, ':', y), Part((tod' % 3600) / 60, 2, ':', y');
    PartOrder((tod % 3600) / 60, (tod' % 3600) / 60, 2, ':', y, y');
    PartOrder(tod / 3600, tod' / 3600, 2, ':', z, z');
  }

  lemma DateOrder(a: Date, b: Date, x: string, y: string)
    requires ValidDate(a) && ValidDate(b) && 0 <= a.year <= 9999 && 0 <= b.year <= 9999
    ensures Before(DateText(a, x), DateText(b, y)) <==> Earlier(a, b) || (a == b && Before(x, y))
  {
    Powers();
    PartOrder(a.day, b.day, 2, 'T', x, y);
    var p, q := Part(a.day, 2, 'T', x), Part(b.day, 2, 'T', y);
    PartOrder(a.month, b.month, 2, '-', p, q);
    PartOrder(a.year, b.year, 4, '-', Part(a.month, 2, '-', p), Part(b.month, 2, '-', q));
  }

  lemma DaysOrder(d: int, e: int)
    ensures Earlier(CivilFromDays(d), CivilFromDays(e)) <==> d < e
    ensures CivilFromDays(d) == CivilFromDays(e) <==> d == e
  {
    if d < e {
      CivilIsMonotone(d, e);
    } else if e < d {
      CivilIsMonotone(e, d);
    }
  }

  /** Timestamps of four-digit years compare as text exactly as their instants compare. */
  lemma StampOrder(secs: int, millis: nat, secs': int, millis': nat)
    requires InRange(secs, millis) && InRange(secs', millis')
    ensures Before(Stamp(secs, millis), Stamp(secs', millis')) <==> InstantLess(secs, millis, secs', millis')
  {
    CivilIsExact(secs / DAY);
    CivilIsExact(secs' / DAY);
    DateOrder(CivilFromDays(secs / DAY), CivilFromDays(secs' / DAY),
      ClockText(secs % DAY, millis), ClockText(secs' % DAY, millis'));
    ClockOrder(secs % DAY, millis, secs' % DAY, millis');
    DaysOrder(secs / DAY, secs' / DAY);
  }

  lemma ClockRoundTrip(tod: nat, millis: nat)
    requires tod < DAY && millis < 1000
    ensures ParseClock(ClockText(tod, millis)) == Some((tod, millis))
  {
    ClockSplit(tod);
    Powers();
    var x := Part(millis, 3, 'Z', "");
    PartRoundTrip(millis, 3, 'Z', "");
    var y := Part(tod % 60, 2, '.', x);
    PartRoundTrip(tod % 60, 2, '.', x);
    var z := Part((tod % 3600) / 60, 2, ':', y);
    PartRoundTrip((tod % 3600) / 60, 2, ':', y);
    PartRoundTrip(tod / 3600, 2, ':', z);
    hide Part, TakePart;
  }

  lemma DateRoundTrip(date: Date, rest: string)
    requires ValidDate(date) && 0 <= date.year <= 9999
    ensures ParseDate(DateText(date, rest)) == Some((date, rest))
  {
    Powers();
    var x := Part(date.day, 2, 'T', rest);
    PartRoundTrip(date.day, 2, 'T', rest);
    var y := Part(date.month, 2, '-', x);
    PartRoundTrip(date.month, 2, '-', x);
    PartRoundTrip(date.year, 4, '-', y);
  }

  lemma ReadingOfStamp(secs: int, millis: nat)
    requires InRange(secs, millis)
    ensures Parse(Stamp(secs, millis)) == Some(Reading(CivilFromDays(secs / DAY), secs % DAY, millis))
  {
    CivilIsExact(secs / DAY);
    DateRoundTrip(CivilFromDays(secs / DAY), ClockText(secs % DAY, millis));
    ClockRoundTrip(secs % DAY, millis);
  }

  lemma SecondsOfDay(date: Date, tod: nat, millis: nat, days: int)
    requires ValidDate(date) && DaysFromCivil(date) == days
    ensures Seconds(Reading(date, tod, millis)) == days * DAY + tod
  {
  }

  /** Reading a timestamp returns the instant it was printed from. */
  lemma ParseStamp(secs: int, millis: nat)
    requires InRange(secs, millis)
    ensures var r := Parse(Stamp(secs, millis));
      r.Some? && r.value.millis == millis && ValidDate(r.value.date) && Seconds(r.value) == secs
  {
    ReadingOfStamp(secs, millis);
    CivilIsExact(secs / DAY);
    SecondsOfDay(CivilFromDays(secs / DAY), secs % DAY, millis, secs / DAY);
  }

  lemma ClockPrintsBack(s: string)
    requires ParseClock(s).Some?
    ensures var (tod, millis) := ParseClock(s).value;
      tod < DAY && millis < 1000 && ClockText(tod, millis) == s
  {
    Powers();
    var (h, s1) := TakePart(s, 2, ':').value;
    PartPrintsBack(s, 2, ':');
    var (mi, s2) := TakePart(s1, 2, ':').value;
    PartPrintsBack(s1, 2, ':');
    var (sec, s3) := TakePart(s2, 2, '.').value;
    PartPrintsBack(s2, 2, '.');
    PartPrintsBack(s3, 3, 'Z');
    ClockJoin(h, mi, sec);
  }

  lemma ClockJoin(h: nat, mi: nat, sec: nat)
    requires h < 24 && mi < 60 && sec < 60
    ensures var tod := h * 3600 + mi * 60 + sec;
      tod < DAY && tod / 3600 == h && (tod % 3600) / 60 == mi && tod % 60 == sec
  {
    var tod := h * 3600 + mi * 60 + sec;
    assert tod % 3600 == mi * 60 + sec;
    assert tod == 60 * (60 * h + mi) + sec;
  }

  lemma DatePrintsBack(s: string)
    requires ParseDate(s).Some?
    ensures var (date, rest) := ParseDate(s).value;
      ValidDate(date) && 0 <= date.year <= 9999 && DateText(date, rest) == s
  {
    Powers();
    PartPrintsBack(s, 4, '-');
    PartPrintsBack(TakePart(s, 4, '-').value.1, 2, '-');
    PartPrintsBack(TakePart(TakePart(s, 4, '-').value.1, 2, '-').value.1, 2, 'T');
  }

  lemma StampOfDay(days: int, tod: nat, millis: nat, secs: int)
    requires tod < DAY && secs == days * DAY + tod
    ensures secs / DAY == days
    ensures Stamp(secs, millis) == DateText(CivilFromDays(days), ClockText(tod, millis))
  {
    assert secs % DAY == tod;
  }

  lemma StampOfReading(date: Date, tod: nat, millis: nat)
    requires ValidDate(date) && 0 <= date.year <= 9999 && tod < DAY && millis < 1000
    ensures var secs := Seconds(Reading(date, tod, millis));
      InRange(secs, millis) && Stamp(secs, millis) == DateText(date, ClockText(tod, millis))
  {
    CivilInverts(date);
    StampOfDay(DaysFromCivil(date), tod, millis, Seconds(Reading(date, tod, millis)));
  }

  /** Every text that reads as an instant is the timestamp of that instant. */
  lemma StampParse(s: string)
    requires Parse(s).Some?
    ensures var r := Parse(s).value;
      && ValidDate(r.date)
      && InRange(Seconds(r), r.millis)
      && Stamp(Seconds(r), r.millis) == s
  {
    DatePrintsBack(s);
    ClockPrintsBack(ParseDate(s).value.1);
    var r := Parse(s).value;
    StampOfReading(r.date, r.tod, r.millis);
  }

  lemma PartShape(n: nat, width: nat, mark: char, rest: string)
    requires n < Pow10(width) && width > 0
    ensures var s := Part(n, width, mark, rest);
      && |s| == width + 1 + |rest| && s[width] == mark && s[width + 1..] == rest
      && AllDigits(s[..width]) && Value(s[..width]) == n
  {
    PaddedIsFixed(n, width);
    FixedValue(n, width);
    assert Part(n, width, mark, rest)[..width] == Fixed(n, width);
  }

  /** The time of day in a timestamp, read place by place. */
  predicate IsClock(s: string, tod: nat, millis: nat) {
    && |s| == 13 && s[2] == ':' && s[5] == ':' && s[8] == '.' && s[12] == 'Z'
    && AllDigits(s[..2]) && AllDigits(s[3..5]) && AllDigits(s[6..8]) && AllDigits(s[9..12])
    && Value(s[..2]) == tod / 3600 && Value(s[3..5]) == tod / 60 % 60 && Value(s[6..8]) == tod % 60
    && Value(s[9..12]) == millis
  }

  lemma MinuteOfHour(tod: nat)
    ensures (tod % 3600) / 60 == tod / 60 % 60
  {
    assert tod == tod / 3600 * 3600 + tod % 3600;
    assert tod / 60 == tod / 3600 * 60 + (tod % 3600) / 60;
  }

  lemma ClockIsSpelled(tod: nat, millis: nat)
    requires tod < DAY && millis < 1000
    ensures IsClock(ClockText(tod, millis), tod, millis)
  {
    ClockSplit(tod);
    MinuteOfHour(tod);
    Powers();
    var x := Part(millis, 3, 'Z', "");
    var y := Part(tod % 60, 2, '.', x);
    var z := Part((tod % 3600) / 60, 2, ':', y);
    var s := Part(tod / 3600, 2, ':', z);
    PartShape(millis, 3, 'Z', "");
    PartShape(tod % 60, 2, '.', x);
    PartShape((tod % 3600) / 60, 2, ':', y);
    PartShape(tod / 3600, 2, ':', z);
    hide Part, Value, AllDigits;
    assert s[3..] == z && z[3..] == y && y[3..] == x;
    assert s[3..5] == z[..2] && s[6..8] == y[..2] && s[9..12] == x[..3];
  }

  /**
   The text of a timestamp, place by place: `YYYY-MM-DDTHH:MM:SS.sssZ`, in which the date is the one whose
   day number the instant falls on and the time is what is left of the day.
   */
  lemma StampIsSpelled(secs: int, millis: nat)
    requires InRange(secs, millis)
    ensures var s, date := Stamp(secs, millis), CivilFromDays(secs / DAY);
      && |s| == 24 && s[4] == '-' && s[7] == '-' && s[10] == 'T'
      && AllDigits(s[..4]) && AllDigits(s[5..7]) && AllDigits(s[8..10])
      && ValidDate(date) && DaysFromCivil(date) == secs / DAY
      && Value(s[..4]) == date.year && Value(s[5..7]) == date.month && Value(s[8..10]) == date.day
      && IsClock(s[11..], secs % DAY, millis)
  {
    var date, rest := CivilFromDays(secs / DAY), ClockText(secs % DAY, millis);
    CivilIsExact(secs / DAY);
    ClockIsSpelled(secs % DAY, millis);
    Powers();
    var x := Part(date.day, 2, 'T', rest);
    var y := Part(date.month, 2, '-', x);
    var s := Part(date.year, 4, '-', y);
    PartShape(date.day, 2, 'T', rest);
    PartShape(date.month, 2, '-', x);
    PartShape(date.year, 4, '-', y);
    hide Part, Value, AllDigits, ClockText, IsClock, DaysFromCivil;
    assert s[5..] == y && y[3..] == x && x[3..] == rest;
    assert s[5..7] == y[..2] && s[8..10] == x[..2] && s[11..] == rest;
  }

  lemma LastDayOf9999()
    ensures DaysFromCivil(Date(9999, 12, 31)) == (YEAR_10000 - 1) / DAY
    ensures DaysFromCivil(Date(10_000, 1, 1)) == YEAR_10000 / DAY
  {
    MonthStarts(9999);
  }

  lemma YearsFrom9999()
    ensures CivilFromDays((YEAR_10000 - 1) / DAY).year == 9999
    ensures CivilFromDays(YEAR_10000 / DAY).year == 10_000
  {
    LastDayOf9999();
    hide DaysFromCivil, CivilFromDays;
    CivilInverts(Date(9999, 12, 31));
    CivilInverts(Date(10_000, 1, 1));
  }

  lemma FiveDigitsSortFirst()
    ensures Before(Stamp(YEAR_10000, 0), Stamp(YEAR_10000 - 1, 0))
  {
    YearsFrom9999();
    assert Digits(9999)[0] == '9' && |Digits(9999)| == 4 by {
      assert Digits(99) == ['9', '9'];
    }
    assert Digits(10_000)[0] == '1' && |Digits(10_000)| == 5 by {
      assert Digits(100) == ['1', '0', '0'];
    }
  }

  /** An instant from year 0 on and not after second `hi`. */
  predicate UpTo(secs: int, millis: nat, hi: int) {
    0 <= CivilFromDays(secs / DAY).year && secs <= hi && millis < 1000
  }

  /** The timestamps of all instants from year 0 up to second `hi` compare as text as they compare in time. */
  ghost predicate OrderedUpTo(hi: int) {
    forall secs, millis: nat, secs', millis': nat :: UpTo(secs, millis, hi) && UpTo(secs', millis', hi) ==>
      (Before(Stamp(secs, millis), Stamp(secs', millis')) <==> InstantLess(secs, millis, secs', millis'))
  }

  lemma UpToIsInRange(secs: int, millis: nat, hi: int)
    requires UpTo(secs, millis, hi) && hi < YEAR_10000
    ensures InRange(secs, millis)
  {
    YearsFrom9999();
    var last := (YEAR_10000 - 1) / DAY;
    assert secs / DAY <= last;
    if secs / DAY < last {
      CivilIsMonotone(secs / DAY, last);
    }
  }

  /** The text order is the order in time exactly up to the end of year 9999. */
  lemma OrderEndsWithYear9999(hi: int)
    ensures OrderedUpTo(hi) <==> hi < YEAR_10000
  {
    if hi < YEAR_10000 {
      forall secs, millis: nat, secs', millis': nat | UpTo(secs, millis, hi) && UpTo(secs', millis', hi)
        ensures Before(Stamp(secs, millis), Stamp(secs', millis')) <==> InstantLess(secs, millis, secs', millis')
      {
        UpToIsInRange(secs, millis, hi);
        UpToIsInRange(secs', millis', hi);
        StampOrder(secs, millis, secs', millis');
      }
    } else {
      YearsFrom9999();
      FiveDigitsSortFirst();
      assert UpTo(YEAR_10000, 0, hi) && UpTo(YEAR_10000 - 1, 0, hi);
    }
  }
}
