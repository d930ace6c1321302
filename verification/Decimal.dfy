/** Decimal digits: printing with zero padding, reading back, and comparing as text. */
module Decimal {

  function Digit(d: int): char
    requires 0 <= d < 10
  {
    ('0' as int + d) as char
  }

  predicate IsDigit(c: char) {
    '0' <= c <= '9'
  }

  function DigitValue(c: char): nat
    requires IsDigit(c)
  {
    c as int - '0' as int
  }

  /** The shortest decimal form of a natural number. */
  function Digits(n: nat): string {
    if n < 10 then [Digit(n)] else Digits(n / 10) + [Digit(n % 10)]
  }

  /** Printing is read back, whatever the number. */
  lemma {:induction false} DigitsAreReadBack(n: nat)
    ensures Digits(n) != "" && AllDigits(Digits(n)) && Value(Digits(n)) == n
  {
    var s := Digits(n);
    if n < 10 {
      assert s[..0] == "";
    } else {
      DigitsAreReadBack(n / 10);
      assert s[..|s| - 1] == Digits(n / 10);
    }
  }

  function Zeros(k: nat): string {
    seq(k, _ => '0')
  }

  /** Zero padding to at least `width` characters; a sign counts and stays in front. */
  function Padded(n: int, width: nat): string {
    var sign := if n < 0 then "-" else "";
    var digits := Digits(if n < 0 then -n else n);
    var used := |sign| + |digits|;
    sign + Zeros(if used < width then width - used else 0) + digits
  }

  /** The last `width` decimal digits of `n`. */
  function Fixed(n: nat, width: nat): (s: string)
    ensures |s| == width
    ensures forall i :: 0 <= i < width ==> IsDigit(s[i])
  {
    if width == 0 then "" else Fixed(n / 10, width - 1) + [Digit(n % 10)]
  }

  function Pow10(k: nat): nat {
    if k == 0 then 1 else 10 * Pow10(k - 1)
  }

  predicate AllDigits(s: string) {
    forall i :: 0 <= i < |s| ==> IsDigit(s[i])
  }

  function Value(s: string): nat
    requires AllDigits(s)
  {
    if s == [] then 0 else 10 * Value(s[..|s| - 1]) + DigitValue(s[|s| - 1])
  }

  lemma {:induction false} FixedZero(width: nat)
    ensures Fixed(0, width) == Zeros(width)
  {
    if width > 0 {
      FixedZero(width - 1);
      assert Zeros(width) == Zeros(width - 1) + ['0'];
    }
  }

  lemma {:induction false} DecimalFits(n: nat, width: nat)
    requires n < Pow10(width) && width > 0
    ensures 1 <= |Digits(n)| <= width
    ensures Zeros(width - |Digits(n)|) + Digits(n) == Fixed(n, width)
  {
    if n < 10 {
      FixedZero(width - 1);
    } else {
      DecimalFits(n / 10, width - 1);
      assert width - |Digits(n)| == width - 1 - |Digits(n / 10)|;
    }
  }

  /** Padding a number that fits is printing exactly `width` digits. */
  lemma PaddedIsFixed(n: nat, width: nat)
    requires n < Pow10(width) && width > 0
    ensures Padded(n, width) == Fixed(n, width)
  {
    DecimalFits(n, width);
  }

  lemma {:induction false} FixedValue(n: nat, width: nat)
    requires n < Pow10(width)
    ensures AllDigits(Fixed(n, width)) && Value(Fixed(n, width)) == n
  {
    if width > 0 {
      FixedValue(n / 10, width - 1);
      assert Fixed(n, width)[..width - 1] == Fixed(n / 10, width - 1);
    }
  }

  lemma {:induction false} ValueFixed(s: string)
    requires AllDigits(s)
    ensures Value(s) < Pow10(|s|) && Fixed(Value(s), |s|) == s
  {
    if s != [] {
      ValueFixed(s[..|s| - 1]);
      assert s == s[..|s| - 1] + [s[|s| - 1]];
    }
  }

  /** Lexicographic order of text by character code. */
  predicate Before(a: string, b: string) {
    b != [] && (a == [] || a[0] < b[0] || (a[0] == b[0] && Before(a[1..], b[1..])))
  }

  lemma {:induction false} BeforeByParts(a: string, b: string, x: string, y: string)
    requires |a| == |b|
    ensures Before(a + x, b + y) <==> Before(a, b) || (a == b && Before(x, y))
  {
    if a == [] {
      assert a + x == x && b + y == y;
    } else {
      BeforeByParts(a[1..], b[1..], x, y);
      assert (a + x)[1..] == a[1..] + x && (b + y)[1..] == b[1..] + y;
      assert a == [a[0]] + a[1..] && b == [b[0]] + b[1..];
    }
  }

  lemma {:induction false} FixedOrder(n: nat, m: nat, width: nat)
    requires n < Pow10(width) && m < Pow10(width)
    ensures Before(Fixed(n, width), Fixed(m, width)) <==> n < m
    ensures Fixed(n, width) == Fixed(m, width) <==> n == m
  {
    FixedValue(n, width);
    FixedValue(m, width);
    if width > 0 {
      FixedOrder(n / 10, m / 10, width - 1);
      BeforeByParts(Fixed(n / 10, width - 1), Fixed(m / 10, width - 1), [Digit(n % 10)], [Digit(m % 10)]);
      assert Before([Digit(n % 10)], [Digit(m % 10)]) <==> n % 10 < m % 10;
    }
  }
}
