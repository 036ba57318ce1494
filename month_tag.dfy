/**
 * The `YYYY-MM` month tag of getCurrentMonth, built from a clock reading, and
 * the facts about it that the ledger's rollover rule relies on: distinct
 * calendar months give distinct tags, and for four-digit years the tags order
 * lexicographically as the calendar does.
 */
module MonthTag {

  predicate IsDigit(c: char) {
    '0' <= c <= '9'
  }

  predicate AllDigits(s: string) {
    forall i :: 0 <= i < |s| ==> IsDigit(s[i])
  }

  function DigitValue(c: char): nat
    requires IsDigit(c)
  {
    c as int - '0' as int
  }

  function DigitChar(d: nat): (c: char)
    requires d < 10
    ensures IsDigit(c) && DigitValue(c) == d
  {
    ('0' as int + d) as char
  }

  /** The number a string of decimal digits spells, read most significant digit first. */
  function DecimalValue(s: string): nat
    requires AllDigits(s)
  {
    if |s| == 0 then 0 else 10 * DecimalValue(s[..|s| - 1]) + DigitValue(s[|s| - 1])
  }

  /** String(n) for a non-negative integer: its digits, with no leading zero. */
  function NatToDecimal(n: nat): (s: string)
    ensures |s| >= 1 && AllDigits(s)
    ensures s[0] == '0' <==> n == 0
    ensures |s| == 1 <==> n < 10
  {
    if n < 10 then [DigitChar(n)] else NatToDecimal(n / 10) + [DigitChar(n % 10)]
  }

  /** Reading back the decimal spelling of n gives n. */
  lemma {:induction false} DecimalRoundTrip(n: nat)
    ensures DecimalValue(NatToDecimal(n)) == n
  {
    var s := NatToDecimal(n);
    if n >= 10 {
      assert s[..|s| - 1] == NatToDecimal(n / 10);
      DecimalRoundTrip(n / 10);
    }
  }

  lemma NatToDecimalInjective(a: nat, b: nat)
    requires NatToDecimal(a) == NatToDecimal(b)
    ensures a == b
  {
    DecimalRoundTrip(a);
    DecimalRoundTrip(b);
  }

  /** A four-digit number is spelled with four characters. */
  lemma FourDigits(n: nat)
    requires 1000 <= n <= 9999
    ensures |NatToDecimal(n)| == 4
  {
    assert |NatToDecimal(n / 10)| == 3 by {
      assert |NatToDecimal(n / 100)| == 2 by {
        assert |NatToDecimal(n / 1000)| == 1;
      }
    }
  }

  /** String(x) for an integer: a minus sign before the digits of a negative number. */
  function IntToDecimal(x: int): (s: string)
    ensures |s| >= 1
    ensures s[0] == '-' <==> x < 0
  {
    if x < 0 then "-" + NatToDecimal(-x) else NatToDecimal(x)
  }

  lemma IntToDecimalInjective(a: int, b: int)
    requires IntToDecimal(a) == IntToDecimal(b)
    ensures a == b
  {
    if a < 0 {
      assert NatToDecimal(-a) == IntToDecimal(a)[1..] == IntToDecimal(b)[1..] == NatToDecimal(-b);
      NatToDecimalInjective(-a, -b);
    } else {
      NatToDecimalInjective(a, b);
    }
  }

  /** padStart(2, '0'): zeros in front up to length 2; longer strings are left alone. */
  function PadStart2(s: string): (r: string)
    ensures |r| == if |s| >= 2 then |s| else 2
    ensures r[|r| - |s|..] == s
    ensures forall i :: 0 <= i < |r| - |s| ==> r[i] == '0'
  {
    if |s| >= 2 then s else seq(2 - |s|, _ => '0') + s
  }

  /** The month half of a tag: the month number 1..12 padded to two digits. */
  function MonthPart(monthIndex: nat): string {
    PadStart2(NatToDecimal(monthIndex + 1))
  }

  /**
   * getCurrentMonth for a clock reading: `year` as getFullYear gives it and
   * `monthIndex` as getMonth gives it (0 for January).
   */
  function CurrentMonth(year: int, monthIndex: nat): string {
    IntToDecimal(year) + "-" + MonthPart(monthIndex)
  }

  lemma {:induction false} MonthPartShape(monthIndex: nat)
    requires monthIndex < 12
    ensures |MonthPart(monthIndex)| == 2 && AllDigits(MonthPart(monthIndex))
    ensures DecimalValue(MonthPart(monthIndex)) == monthIndex + 1
  {
    var d := NatToDecimal(monthIndex + 1);
    var mm := MonthPart(monthIndex);
    DecimalRoundTrip(monthIndex + 1);
    if monthIndex + 1 < 10 {
      assert mm == ['0'] + d;
      assert mm[..1] == ['0'];
      assert mm[1..] == d;
    } else {
      assert |NatToDecimal((monthIndex + 1) / 10)| == 1;
      assert mm == d;
    }
  }

  /** A tag is the year, a dash, and the month number 1..12 as two digits. */
  lemma CurrentMonthShape(year: int, monthIndex: nat)
    requires monthIndex < 12
    ensures var tag, y := CurrentMonth(year, monthIndex), IntToDecimal(year);
      |tag| == |y| + 3 && tag[..|y|] == y && tag[|y|] == '-' &&
      AllDigits(tag[|y| + 1..]) && DecimalValue(tag[|y| + 1..]) == monthIndex + 1
  {
    MonthPartShape(monthIndex);
    var y, mm := IntToDecimal(year), MonthPart(monthIndex);
    var tag := y + "-" + mm;
    assert tag == CurrentMonth(year, monthIndex);
    assert tag[..|y|] == y;
    assert tag[|y| + 1..] == mm;
  }

  /** For a four-digit year the tag has seven characters, `YYYY-MM`. */
  lemma CurrentMonthLength(year: int, monthIndex: nat)
    requires 1000 <= year <= 9999 && monthIndex < 12
    ensures |CurrentMonth(year, monthIndex)| == 7
  {
    FourDigits(year);
    CurrentMonthShape(year, monthIndex);
  }

  /** Two clock readings give the same tag exactly when they are in the same calendar month. */
  lemma CurrentMonthInjective(y1: int, m1: nat, y2: int, m2: nat)
    requires m1 < 12 && m2 < 12
    ensures CurrentMonth(y1, m1) == CurrentMonth(y2, m2) <==> y1 == y2 && m1 == m2
  {
    if CurrentMonth(y1, m1) == CurrentMonth(y2, m2) {
      CurrentMonthShape(y1, m1);
      CurrentMonthShape(y2, m2);
      var tag, a, b := CurrentMonth(y1, m1), IntToDecimal(y1), IntToDecimal(y2);
      assert a == tag[..|a|] == b;
      IntToDecimalInjective(y1, y2);
    }
  }

  /** Character-wise lexicographic order, which agrees with JavaScript's `<` on the ASCII tags compared here. */
  predicate TagBefore(a: string, b: string)
    decreases |a|
  {
    |b| > 0 && (|a| == 0 || a[0] < b[0] || (a[0] == b[0] && TagBefore(a[1..], b[1..])))
  }

  lemma {:induction false} TagBeforeIrreflexive(a: string)
    ensures !TagBefore(a, a)
    decreases |a|
  {
    if |a| > 0 {
      TagBeforeIrreflexive(a[1..]);
    }
  }

  lemma {:induction false} TagBeforeTransitive(a: string, b: string, c: string)
    requires TagBefore(a, b) && TagBefore(b, c)
    ensures TagBefore(a, c)
    decreases |a|
  {
    if |a| > 0 && a[0] == b[0] == c[0] {
      TagBeforeTransitive(a[1..], b[1..], c[1..]);
    }
  }

  /** Strings of equal length keep their order whatever is appended to each. */
  lemma {:induction false} TagBeforeExtend(a: string, b: string, x: string, y: string)
    requires |a| == |b| && TagBefore(a, b)
    ensures TagBefore(a + x, b + y)
    decreases |a|
  {
    if a[0] == b[0] && !(a[0] < b[0]) {
      assert (a + x)[1..] == a[1..] + x;
      assert (b + y)[1..] == b[1..] + y;
      TagBeforeExtend(a[1..], b[1..], x, y);
    }
  }

  /** A common prefix does not change the order. */
  lemma {:induction false} TagBeforePrefix(p: string, a: string, b: string)
    requires TagBefore(a, b)
    ensures TagBefore(p + a, p + b)
    decreases |p|
  {
    if |p| > 0 {
      assert (p + a)[0] == p[0] == (p + b)[0];
      assert (p + a)[1..] == p[1..] + a;
      assert (p + b)[1..] == p[1..] + b;
      TagBeforePrefix(p[1..], a, b);
      assert TagBefore((p + a)[1..], (p + b)[1..]);
    } else {
      assert p + a == a && p + b == b;
    }
  }

  /** Digit strings of one length with one value are the same string. */
  lemma {:induction false} DigitsInjective(a: string, b: string)
    requires |a| == |b| && AllDigits(a) && AllDigits(b)
    requires DecimalValue(a) == DecimalValue(b)
    ensures a == b
    decreases |a|
  {
    if |a| > 0 {
      var n := |a| - 1;
      assert DigitValue(a[n]) == DigitValue(b[n]) && DecimalValue(a[..n]) == DecimalValue(b[..n]);
      DigitsInjective(a[..n], b[..n]);
      assert a == a[..n] + [a[n]] && b == b[..n] + [b[n]];
    }
  }

  /** Among digit strings of one length, lexicographic order is numeric order. */
  lemma {:induction false} DigitsOrder(a: string, b: string)
    requires |a| == |b| && AllDigits(a) && AllDigits(b)
    requires DecimalValue(a) < DecimalValue(b)
    ensures TagBefore(a, b)
    decreases |a|
  {
    var n := |a| - 1;
    var a', b' := a[..n], b[..n];
    assert a == a' + [a[n]] && b == b' + [b[n]];
    if DecimalValue(a') < DecimalValue(b') {
      DigitsOrder(a', b');
      TagBeforeExtend(a', b', [a[n]], [b[n]]);
    } else {
      assert DecimalValue(a') == DecimalValue(b');
      DigitsInjective(a', b');
      assert TagBefore([a[n]], [b[n]]);
      TagBeforePrefix(a', [a[n]], [b[n]]);
    }
  }

  /** With four-digit years, a later calendar month has a lexicographically later tag. */
  lemma CurrentMonthChronological(y1: int, m1: nat, y2: int, m2: nat)
    requires 1000 <= y1 <= 9999 && 1000 <= y2 <= 9999 && m1 < 12 && m2 < 12
    requires y1 < y2 || (y1 == y2 && m1 < m2)
    ensures TagBefore(CurrentMonth(y1, m1), CurrentMonth(y2, m2))
  {
    var a, b := NatToDecimal(y1), NatToDecimal(y2);
    FourDigits(y1);
    FourDigits(y2);
    if y1 < y2 {
      DecimalRoundTrip(y1);
      DecimalRoundTrip(y2);
      DigitsOrder(a, b);
      TagBeforeExtend(a, b, "-" + MonthPart(m1), "-" + MonthPart(m2));
      assert CurrentMonth(y1, m1) == a + ("-" + MonthPart(m1));
      assert CurrentMonth(y2, m2) == b + ("-" + MonthPart(m2));
    } else {
      MonthPartShape(m1);
      MonthPartShape(m2);
      DigitsOrder(MonthPart(m1), MonthPart(m2));
      TagBeforePrefix(a + "-", MonthPart(m1), MonthPart(m2));
    }
  }

  lemma JanuaryExample()
    ensures CurrentMonth(2024, 0) == "2024-01"
    ensures CurrentMonth(2024, 11) == "2024-12"
  {
  }
}
