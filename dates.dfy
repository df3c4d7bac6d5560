/** Calendar dates as Python's `datetime.date` has them: the proleptic Gregorian
    calendar over years 1 to 9999, comparison by (year, month, day), the day after a
    date (`date + timedelta(days=1)`), and the `%Y%m%d` rendering of `strftime`. */
module Dates {
  import opened Wrappers
  import opened Text
  import opened Numbers

  datatype Date = Date(year: int, month: int, day: int)

  predicate IsLeap(y: int) {
    y % 4 == 0 && (y % 100 != 0 || y % 400 == 0)
  }

  function DaysIn(y: int, m: int): int {
    if m == 2 then (if IsLeap(y) then 29 else 28)
    else if m == 4 || m == 6 || m == 9 || m == 11 then 30
    else 31
  }

  /** A date `datetime.date` can represent: years 1 to 9999. */
  predicate Valid(d: Date) {
    1 <= d.year <= 9999 && 1 <= d.month <= 12 && 1 <= d.day <= DaysIn(d.year, d.month)
  }

  /** `a < b` on dates: chronological order, compared field by field. */
  predicate Before(a: Date, b: Date): (r: bool)
    ensures r ==> a != b && a.year <= b.year
  {
    a.year < b.year
    || (a.year == b.year && (a.month < b.month || (a.month == b.month && a.day < b.day)))
  }

  /** The calendar's successor of `d`; `None` after 9999-12-31, where Python raises
      `OverflowError`. */
  function NextDay(d: Date): (r: Option<Date>)
    requires Valid(d)
    ensures r.None? <==> d == Date(9999, 12, 31)
    ensures r.Some? ==> Valid(r.value)
  {
    if d.day < DaysIn(d.year, d.month) then Some(Date(d.year, d.month, d.day + 1))
    else if d.month < 12 then Some(Date(d.year, d.month + 1, 1))
    else if d.year < 9999 then Some(Date(d.year + 1, 1, 1))
    else None
  }

  // Python's own day numbering (`date.toordinal`): day 1 is 0001-01-01.

  function DaysBeforeYear(y: int): int
    requires y >= 1
  {
    var p := y - 1;
    p * 365 + p / 4 - p / 100 + p / 400
  }

  function DaysBeforeMonth(y: int, m: int): int
    requires 1 <= m <= 12
  {
    var table := [0, 31, 59, 90, 120, 151, 181, 212, 243, 273, 304, 334];
    table[m - 1] + (if m > 2 && IsLeap(y) then 1 else 0)
  }

  function Ordinal(d: Date): int
    requires Valid(d)
  {
    DaysBeforeYear(d.year) + DaysBeforeMonth(d.year, d.month) + d.day
  }

  lemma YearLength(y: int)
    requires y >= 1
    ensures DaysBeforeYear(y + 1) == DaysBeforeYear(y) + (if IsLeap(y) then 366 else 365)
  {
    DivStep(y, 4);
    DivStep(y, 100);
    DivStep(y, 400);
    if y % 100 == 0 {
      ModUnique(y, 4, y / 100 * 25, 0);
    }
    if y % 400 == 0 {
      ModUnique(y, 100, y / 400 * 4, 0);
    }
  }

  /** Going from `y - 1` to `y` the quotient by `k` grows exactly when `k` divides `y`. */
  lemma DivStep(y: int, k: int)
    requires y >= 1 && k > 0
    ensures y / k - (y - 1) / k == (if y % k == 0 then 1 else 0)
  {
    var q, r := y / k, y % k;
    if r > 0 {
      ModUnique(y - 1, k, q, r - 1);
    } else {
      assert y - 1 == (q - 1) * k + (k - 1);
      ModUnique(y - 1, k, q - 1, k - 1);
    }
  }

  /** Each month starts where the previous one ends. */
  lemma MonthLength(y: int, m: int)
    requires 1 <= m < 12
    ensures DaysBeforeMonth(y, m + 1) == DaysBeforeMonth(y, m) + DaysIn(y, m)
  {
  }

  /** The day after `d` is the next day in Python's numbering: the successor of the
      calendar agrees with `fromordinal(toordinal() + 1)`. */
  lemma NextDayOrdinal(d: Date)
    requires Valid(d) && d != Date(9999, 12, 31)
    ensures NextDay(d).Some? && Ordinal(NextDay(d).value) == Ordinal(d) + 1
  {
    if d.day == DaysIn(d.year, d.month) {
      if d.month < 12 {
        MonthLength(d.year, d.month);
      } else {
        YearLength(d.year);
      }
    }
  }

  /** The days of one year are numbered before the days of the next. */
  lemma {:induction false} YearsOrdered(y: int, y': int)
    requires 1 <= y < y'
    ensures DaysBeforeYear(y) + (if IsLeap(y) then 366 else 365) <= DaysBeforeYear(y')
    decreases y' - y
  {
    YearLength(y);
    if y + 1 < y' {
      YearsOrdered(y + 1, y');
      YearLength(y + 1);
    }
  }

  /** Comparing dates is comparing their day numbers. */
  lemma BeforeIffOrdinal(a: Date, b: Date)
    requires Valid(a) && Valid(b)
    ensures Before(a, b) <==> Ordinal(a) < Ordinal(b)
  {
    if a.year < b.year {
      YearsOrdered(a.year, b.year);
    } else if b.year < a.year {
      YearsOrdered(b.year, a.year);
    }
  }

  /** The day after `d` is the earliest date later than `d`. */
  lemma NextDayIsSuccessor(d: Date, x: Date)
    requires Valid(d) && Valid(x) && d != Date(9999, 12, 31)
    ensures NextDay(d).Some? && Before(d, NextDay(d).value)
    ensures Before(d, x) ==> !Before(x, NextDay(d).value)
  {
    var n := NextDay(d).value;
    NextDayOrdinal(d);
    BeforeIffOrdinal(d, n);
    BeforeIffOrdinal(d, x);
    BeforeIffOrdinal(x, n);
  }

  function DigitChar(n: int): char
    requires 0 <= n < 10
  {
    ('0' as int + n) as char
  }

  /** `n` in `width` decimal digits with leading zeros. */
  function Padded(n: nat, width: nat): (r: String)
    ensures |r| == width && AllDigits(r)
  {
    if width == 0 then [] else Padded(n / 10, width - 1) + [DigitChar(n % 10)]
  }

  /** `d.strftime('%Y%m%d')` for a year written with four digits. */
  function Format8(d: Date): (r: String)
    requires Valid(d) && 1000 <= d.year
    ensures |r| == 8 && AllDigits(r)
  {
    Padded(d.year, 4) + Padded(d.month, 2) + Padded(d.day, 2)
  }

  /** Reading the 8-digit form back as year, month and day. */
  function ReadYmd(s: String): Option<Date>
  {
    if |s| == 8 && AllDigits(s) then
      var d := Date(DigitsValue(s[..4]), DigitsValue(s[4..6]), DigitsValue(s[6..]));
      if Valid(d) then Some(d) else None
    else None
  }

  lemma {:induction false} PaddedValue(n: nat, width: nat)
    ensures DigitsValue(Padded(n, width)) == n % Pow10(width)
  {
    if width > 0 {
      var r := Padded(n, width);
      assert r[..|r| - 1] == Padded(n / 10, width - 1);
      PaddedValue(n / 10, width - 1);
      DivModPow10(n, width - 1);
    }
  }

  function Pow10(k: nat): (r: nat)
    ensures r > 0
  {
    if k == 0 then 1 else 10 * Pow10(k - 1)
  }

  lemma DivModPow10(n: nat, k: nat)
    ensures (n / 10) % Pow10(k) * 10 + n % 10 == n % Pow10(k + 1)
  {
    var p := Pow10(k);
    var q := n / 10;
    assert n == q * 10 + n % 10;
    assert q == (q / p) * p + q % p;
    assert n == (q / p) * (10 * p) + (q % p * 10 + n % 10) by {
      assert (q / p) * p * 10 == (q / p) * (10 * p);
    }
    assert 0 <= q % p * 10 + n % 10 < 10 * p;
    ModUnique(n, 10 * p, q / p, q % p * 10 + n % 10);
  }

  lemma ModUnique(n: nat, m: nat, a: int, b: int)
    requires m > 0 && 0 <= b < m && n == a * m + b
    ensures n / m == a && n % m == b
  {
    var q, r := n / m, n % m;
    assert (a - q) * m == r - b by {
      assert q * m + r == a * m + b;
    }
    if a > q {
      MulAtLeast(a - q, m);
    } else if a < q {
      MulAtLeast(q - a, m);
    }
  }

  lemma MulAtLeast(k: int, m: int)
    requires k >= 1 && m > 0
    ensures k * m >= m
  {
  }

  /** Reading back the `%Y%m%d` form gives the date that was written. */
  lemma ReadFormat8(d: Date)
    requires Valid(d) && 1000 <= d.year
    ensures ReadYmd(Format8(d)) == Some(d)
  {
    var y, m, dd := Padded(d.year, 4), Padded(d.month, 2), Padded(d.day, 2);
    PaddedValue(d.year, 4);
    PaddedValue(d.month, 2);
    PaddedValue(d.day, 2);
    assert Pow10(4) == 10000 && Pow10(2) == 100;
    ModUnique(d.year, 10000, 0, d.year);
    ModUnique(d.month, 100, 0, d.month);
    ModUnique(d.day, 100, 0, d.day);
    assert Date(DigitsValue(y), DigitsValue(m), DigitsValue(dd)) == d;
    ReadParts(y, m, dd);
    assert Format8(d) == y + m + dd;
  }

  /** The three fields of an 8-digit string are read where they were written. */
  lemma ReadParts(y: String, m: String, dd: String)
    requires |y| == 4 && |m| == 2 && |dd| == 2 && AllDigits(y) && AllDigits(m) && AllDigits(dd)
    ensures var d := Date(DigitsValue(y), DigitsValue(m), DigitsValue(dd));
      ReadYmd(y + m + dd) == if Valid(d) then Some(d) else None
  {
    var s := y + m + dd;
    assert s[..4] == y && s[4..6] == m && s[6..] == dd;
    assert AllDigits(s) by {
      forall k | 0 <= k < |s| ensures IsDigit(s[k]) {
        if k < 4 {
          assert s[k] == y[k];
        } else if k < 6 {
          assert s[k] == m[k - 4];
        } else {
          assert s[k] == dd[k - 6];
        }
      }
    }
  }
}
