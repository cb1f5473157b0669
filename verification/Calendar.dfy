/** The proleptic Gregorian calendar over UTC years 0000 to 9999, days counted from 0000-01-01. */
module Calendar {
  import opened Prelude

  predicate Leap(y: nat) {
    y % 4 == 0 && (y % 100 != 0 || y % 400 == 0)
  }

  function YearLength(y: nat): nat {
    if Leap(y) then 366 else 365
  }

  function DaysBeforeYear(y: nat): nat {
    if y == 0 then 0 else DaysBeforeYear(y - 1) + YearLength(y - 1)
  }

  function MonthLength(y: nat, m: nat): (n: nat)
    ensures 28 <= n <= 31
  {
    if m == 2 then (if Leap(y) then 29 else 28)
    else if m == 4 || m == 6 || m == 9 || m == 11 then 30
    else 31
  }

  function DaysBeforeMonth(y: nat, m: nat): nat {
    if m <= 1 then 0 else DaysBeforeMonth(y, m - 1) + MonthLength(y, m - 1)
  }

  const END_YEAR: nat := 10000

  /** The days of the years 0000 to 9999. */
  const END_DAY: int := 3_652_425

  type Day = n: int | 0 <= n < END_DAY witness 0

  lemma {:induction false} Divisors(z: nat)
    ensures z % 100 == 0 ==> z % 4 == 0
    ensures z % 400 == 0 ==> z % 100 == 0
  {
    if z % 100 == 0 { assert z == 4 * (25 * (z / 100)); }
    if z % 400 == 0 { assert z == 100 * (4 * (z / 400)); }
  }

  lemma {:induction false} LeapInBits(z: nat)
    ensures Bit(z % 4 == 0) - Bit(z % 100 == 0) + Bit(z % 400 == 0) == Bit(Leap(z))
  {
    Divisors(z);
  }

  lemma {:induction false} FourStep(z: nat)
    ensures (z + 4) / 4 == (z + 3) / 4 + Bit(z % 4 == 0)
  {
  }

  lemma {:induction false} HundredStep(z: nat)
    ensures (z + 100) / 100 == (z + 99) / 100 + Bit(z % 100 == 0)
  {
  }

  lemma {:induction false} FourHundredStep(z: nat)
    ensures (z + 400) / 400 == (z + 399) / 400 + Bit(z % 400 == 0)
  {
  }

  function LeapsBefore(y: nat): int {
    (y + 3) / 4 - (y + 99) / 100 + (y + 399) / 400
  }

  lemma {:induction false} LeapsStep(z: nat)
    ensures LeapsBefore(z + 1) == LeapsBefore(z) + Bit(Leap(z))
  {
    LeapInBits(z);
    FourStep(z);
    HundredStep(z);
    FourHundredStep(z);
  }

  /** The days before a year, with its leap years in closed form. */
  lemma {:induction false} DaysInClosedForm(y: nat)
    ensures DaysBeforeYear(y) == 365 * y + LeapsBefore(y)
  {
    if y == 0 {
      assert LeapsBefore(y) == 0;
    } else {
      DaysInClosedForm(y - 1);
      LeapsStep(y - 1);
    }
  }

  datatype Date = Date(year: nat, month: nat, day: nat) {
    predicate Valid() {
      year < END_YEAR && 1 <= month <= 12 && 1 <= day <= MonthLength(year, month)
    }
  }

  function DayNumber(d: Date): int {
    DaysBeforeYear(d.year) + DaysBeforeMonth(d.year, d.month) + d.day - 1
  }

  predicate DateLess(a: Date, b: Date) {
    a.year < b.year || (a.year == b.year && (a.month < b.month || (a.month == b.month && a.day < b.day)))
  }

  lemma {:induction false} YearsGrow(y: nat, z: nat)
    requires y <= z
    ensures DaysBeforeYear(y) + 365 * (z - y) <= DaysBeforeYear(z)
  {
    if y < z { YearsGrow(y, z - 1); }
  }

  lemma {:induction false} MonthsGrow(y: nat, m: nat, n: nat)
    requires 1 <= m <= n
    ensures DaysBeforeMonth(y, m) + 28 * (n - m) <= DaysBeforeMonth(y, n)
  {
    if m < n { MonthsGrow(y, m, n - 1); }
  }

  lemma {:induction false} MonthsFillTheYear(y: nat)
    ensures DaysBeforeMonth(y, 13) == YearLength(y)
  {
    assert DaysBeforeMonth(y, 2) == 31;
    assert DaysBeforeMonth(y, 3) == if Leap(y) then 60 else 59;
    assert DaysBeforeMonth(y, 5) == DaysBeforeMonth(y, 3) + 61;
    assert DaysBeforeMonth(y, 7) == DaysBeforeMonth(y, 5) + 61;
    assert DaysBeforeMonth(y, 9) == DaysBeforeMonth(y, 7) + 62;
    assert DaysBeforeMonth(y, 11) == DaysBeforeMonth(y, 9) + 61;
    assert DaysBeforeMonth(y, 13) == DaysBeforeMonth(y, 11) + 61;
  }

  /** A valid date falls inside its month and its year. */
  lemma {:induction false} DayInMonth(d: Date)
    requires d.Valid()
    ensures DaysBeforeYear(d.year) + DaysBeforeMonth(d.year, d.month) <= DayNumber(d)
    ensures DayNumber(d) < DaysBeforeYear(d.year) + DaysBeforeMonth(d.year, d.month + 1) <= DaysBeforeYear(d.year + 1)
    ensures 0 <= DayNumber(d) < END_DAY
  {
    MonthsFillTheYear(d.year);
    MonthsGrow(d.year, d.month + 1, 13);
    DaysInClosedForm(d.year + 1);
  }

  /** Dates in calendar order are days in order. */
  lemma {:induction false} DateOrder(a: Date, b: Date)
    requires a.Valid() && b.Valid()
    ensures DateLess(a, b) <==> DayNumber(a) < DayNumber(b)
    ensures a == b <==> DayNumber(a) == DayNumber(b)
  {
    if DateLess(a, b) { DatesIncrease(a, b); }
    if DateLess(b, a) { DatesIncrease(b, a); }
    assert a == b || DateLess(a, b) || DateLess(b, a);
  }

  lemma {:induction false} DatesIncrease(a: Date, b: Date)
    requires a.Valid() && b.Valid() && DateLess(a, b)
    ensures DayNumber(a) < DayNumber(b)
  {
    DayInMonth(a);
    if a.year < b.year {
      YearsGrow(a.year + 1, b.year);
    } else if a.month < b.month {
      MonthsGrow(a.year, a.month + 1, b.month);
    }
  }

  function FindYear(n: nat, y: nat): (r: nat)
    requires DaysBeforeYear(y) <= n
    ensures y <= r && DaysBeforeYear(r) <= n < DaysBeforeYear(r + 1)
    decreases n - DaysBeforeYear(y)
  {
    if n < DaysBeforeYear(y + 1) then y else FindYear(n, y + 1)
  }

  function FindMonth(y: nat, n: nat, m: nat): (r: nat)
    requires 1 <= m <= 12 && DaysBeforeMonth(y, m) <= n < DaysBeforeMonth(y, 13)
    ensures m <= r <= 12 && DaysBeforeMonth(y, r) <= n < DaysBeforeMonth(y, r + 1)
    decreases 12 - m
  {
    if n < DaysBeforeMonth(y, m + 1) then m else FindMonth(y, n, m + 1)
  }

  /** The calendar date of a day. */
  function DateOf(n: Day): (d: Date)
    ensures d.Valid() && DayNumber(d) == n
  {
    var y := FindYear(n, 0);
    assert y < END_YEAR by { DaysInClosedForm(y); }
    MonthsFillTheYear(y);
    var m := FindMonth(y, n - DaysBeforeYear(y), 1);
    Date(y, m, n - DaysBeforeYear(y) - DaysBeforeMonth(y, m) + 1)
  }
}
