/** Gregorian dates and day numbers. Floating-point products are modelled as exact rationals,
    truncated toward zero as the conversion to int does. */
module Dates {

  /** Division of integers in C: the quotient is truncated toward zero. */
  function Quotient(n: int, d: nat): int
    requires d > 0
  {
    if n >= 0 then n / d else -((-n) / d)
  }

  /** Conversion of a double to int. */
  function Truncate(r: real): int { if r >= 0.0 then r.Floor else -((-r).Floor) }

  lemma RatioTruncates(n: int, d: nat)
    requires d > 0
    ensures Truncate(n as real / d as real) == Quotient(n, d)
  {
    var m := if n >= 0 then n else -n;
    FloorOfRatio(m, d);
    assert n < 0 ==> -(n as real / d as real) == m as real / d as real;
  }

  lemma FloorOfRatio(m: nat, d: nat)
    requires d > 0
    ensures (m as real / d as real).Floor == m / d
  {
    var q := m / d;
    assert q * d <= m < (q + 1) * d;
    RatioAtLeast(q, m, d);
    RatioBelow(q + 1, m, d);
  }

  lemma RatioAtLeast(n: int, m: int, d: nat)
    requires d > 0 && n * d <= m
    ensures n as real <= m as real / d as real
  {
    ProductAsReal(n, d);
    RatioTimes(m as real, d as real);
    ScaledOrder(n as real, m as real / d as real, d as real);
  }

  lemma RatioBelow(n: int, m: int, d: nat)
    requires d > 0 && m < n * d
    ensures m as real / d as real < n as real
  {
    ProductAsReal(n, d);
    RatioTimes(m as real, d as real);
    assert m as real < (n * d) as real;
    ScaledOrder(n as real, m as real / d as real, d as real);
  }

  lemma RatioTimes(x: real, y: real)
    requires y != 0.0
    ensures x / y * y == x
  {
  }

  lemma ProductAsReal(a: int, b: int)
    ensures (a * b) as real == a as real * b as real
  {
  }

  lemma ScaledOrder(x: real, y: real, d: real)
    requires d > 0.0
    ensures x <= y <==> x * d <= y * d
  {
  }

  datatype Date = Date(y: int, m: int, d: int)

  predicate IsLeap(y: int) { y % 4 == 0 && (y % 100 != 0 || y % 400 == 0) }

  function DaysIn(y: int, m: int): int {
    if m == 2 then (if IsLeap(y) then 29 else 28) else if m == 4 || m == 6 || m == 9 || m == 11 then 30 else 31
  }

  predicate Valid(a: Date) { a.y >= 0 && 1 <= a.m <= 12 && 1 <= a.d <= DaysIn(a.y, a.m) }

  function Next(a: Date): Date {
    if a.d < DaysIn(a.y, a.m) then a.(d := a.d + 1)
    else if a.m < 12 then Date(a.y, a.m + 1, 1)
    else Date(a.y + 1, 1, 1)
  }

  /** The day number of __compute_jd, at noon: its julian day plus one half. */
  function DayNumber(a: Date): int {
    var (y, m) := if a.m <= 2 then (a.y - 1, a.m + 12) else (a.y, a.m);
    var c := Quotient(y, 100);
    var b := 2 - c + Quotient(c, 4);
    Quotient(1461 * (y + 4716), 4) + Quotient(306001 * (m + 1), 10000) + a.d + b - 1524
  }

  /** The date of __compute_ymd for a day number. */
  function YmdOf(z: int): Date {
    var a := Quotient(4 * z - 7468865, 146097);
    var b := z + 1 + a - Quotient(a, 4) + 1524;
    var c := Quotient(100 * b - 12210, 36525);
    var d := Quotient(1461 * c, 4);
    var e := Quotient(10000 * (b - d), 306001);
    var day := b - d - Quotient(306001 * e, 10000);
    var m := if e < 14 then e - 1 else e - 13;
    Date(if m > 2 then c - 4716 else c - 4715, m, day)
  }

  /** From each day to the next the number grows by one, in all months and all leap-year cases. */
  lemma NextDay(a: Date)
    requires Valid(a)
    ensures Valid(Next(a)) && DayNumber(Next(a)) == DayNumber(a) + 1
  {
    if a.d == DaysIn(a.y, a.m) {
      if a.m == 2 {
        EndOfFebruary(a.y);
      } else {
        EndOfMonth(a.y, a.m);
      }
    } else {
      hide Quotient;
    }
  }

  lemma EndOfMonth(y: int, m: int)
    requires y >= 0 && 1 <= m <= 12 && m != 2
    ensures DayNumber(if m < 12 then Date(y, m + 1, 1) else Date(y + 1, 1, 1))
            == DayNumber(Date(y, m, DaysIn(y, m))) + 1
  {
    MonthLengths(m);
    hide Quotient;
  }

  /** The fractions of 30.6001 add up to the lengths of the months from March on. */
  lemma MonthLengths(m: int)
    requires 1 <= m <= 12 && m != 2
    ensures var n := if m == 1 then 13 else m;
            Quotient(306001 * (n + 2), 10000) - Quotient(306001 * (n + 1), 10000)
              == if m == 4 || m == 6 || m == 9 || m == 11 then 30 else 31
  {
    assert m == 1 || m == 3 || m == 4 || m == 5 || m == 6 || m == 7 || m == 8 || m == 9 || m == 10 || m == 11
           || m == 12;
  }

  lemma EndOfFebruary(y: int)
    requires y >= 0
    ensures DayNumber(Date(y, 3, 1)) == DayNumber(Date(y, 2, DaysIn(y, 2))) + 1
  {
    hide DayNumber;
    MarchFirst(y);
    var c := y / 100;
    if y >= 1 {
      InFebruary(y, DaysIn(y, 2));
      assert (y - 1) / 100 == if y % 100 == 0 then c - 1 else c;
      YearLength(y);
      LeapCentury(y);
      assert c >= 1 ==> c / 4 - (c - 1) / 4 == if c % 4 == 0 then 1 else 0;
    } else {
      FebruaryOfYearZero();
    }
  }

  lemma MarchFirst(y: int)
    requires y >= 0
    ensures DayNumber(Date(y, 3, 1)) == 1461 * (y + 4716) / 4 + 123 + (2 - y / 100 + y / 100 / 4) - 1524
  {
  }

  lemma InFebruary(y: int, d: int)
    requires y >= 1
    ensures DayNumber(Date(y, 2, d)) == 1461 * (y + 4715) / 4 + 459 + d + (2 - (y - 1) / 100 + (y - 1) / 100 / 4) - 1524
  {
  }

  lemma FebruaryOfYearZero()
    ensures DayNumber(Date(0, 3, 1)) == DayNumber(Date(0, 2, DaysIn(0, 2))) + 1
  {
  }

  lemma YearLength(y: int)
    requires y >= 0
    ensures 1461 * (y + 4716) / 4 - 1461 * (y + 4715) / 4 == if y % 4 == 0 then 366 else 365
  {
  }

  lemma LeapCentury(y: int)
    requires y >= 0
    ensures IsLeap(y) <==> y % 4 == 0 && (y % 100 != 0 || y / 100 % 4 == 0)
  {
    assert y % 100 == 0 ==> (y % 400 == 0 <==> y / 100 % 4 == 0);
  }

  // The inverse.

  /** Years and months counted from March, as both formulas do. */
  datatype Shifted = Shifted(y: int, m: int, d: int)

  function Shift(a: Date): Shifted { if a.m <= 2 then Shifted(a.y - 1, a.m + 12, a.d) else Shifted(a.y, a.m, a.d) }

  /** Days counted as if every fourth year were a leap year. */
  function JulianPart(s: Shifted): int { Quotient(1461 * (s.y + 4716), 4) + Quotient(306001 * (s.m + 1), 10000) + s.d }

  predicate ValidShift(s: Shifted) {
    s.y >= -1 && 3 <= s.m <= 14 && 1 <= s.d <= 31
    && (s.m == 14 ==> s.d <= 28 || (s.d == 29 && s.y % 4 == 3))
    && (s.m == 4 || s.m == 6 || s.m == 9 || s.m == 11 ==> s.d <= 30)
  }

  /** The second half of __compute_ymd recovers the date from the Julian part. */
  lemma JulianInverts(s: Shifted)
    requires ValidShift(s)
    ensures var b := JulianPart(s);
            var c := Quotient(100 * b - 12210, 36525);
            var d := Quotient(1461 * c, 4);
            var e := Quotient(10000 * (b - d), 306001);
            c == s.y + 4716 && e == s.m + 1 && b - d - Quotient(306001 * e, 10000) == s.d
  {
    MonthOffset(s.m, s.d);
    YearOf(s);
  }

  lemma MonthOffset(m: int, d: int)
    requires 3 <= m <= 14 && 1 <= d <= 31
    requires m == 14 ==> d <= 29
    requires m == 4 || m == 6 || m == 9 || m == 11 ==> d <= 30
    ensures var k := Quotient(306001 * (m + 1), 10000);
            122 <= k && Quotient(10000 * (k + d), 306001) == m + 1 && k + d <= 488
              && (k + d == 488 ==> m == 14 && d == 29)
  {
    assert m == 3 || m == 4 || m == 5 || m == 6 || m == 7 || m == 8 || m == 9 || m == 10 || m == 11 || m == 12
           || m == 13 || m == 14;
  }

  lemma YearOf(s: Shifted)
    requires ValidShift(s)
    ensures Quotient(100 * JulianPart(s) - 12210, 36525) == s.y + 4716
  {
    MonthOffset(s.m, s.d);
    var y, k := s.y + 4716, Quotient(306001 * (s.m + 1), 10000) + s.d;
    var n := 1461 * y / 4;
    assert 4 * n == 1461 * y - y % 4;
    assert 100 * (n + k) - 12210 == 36525 * y - 25 * (y % 4) + 100 * k - 12210;
  }

  /** The correction for the years without leap day. The quotient is exact on one day only. */
  lemma CenturyCorrection(s: Shifted, z: int)
    requires ValidShift(s) && (s.m == 14 && s.d == 29 ==> s.y == -1 || IsLeap(s.y + 1))
    requires var c := Quotient(s.y, 100); z == JulianPart(s) + 2 - c + Quotient(c, 4) - 1524
    ensures var a := Quotient(4 * z - 7468865, 146097);
            z + 1 + a - Quotient(a, 4) + 1524 == JulianPart(s) + if s == Shifted(300, 3, 1) then -1 else 0
  {
    MonthOffset(s.m, s.d);
    if s.y >= 0 { CenturyFromZero(s, z); }
  }

  lemma CenturyFromZero(s: Shifted, z: int)
    requires ValidShift(s) && s.y >= 0 && (s.m == 14 && s.d == 29 ==> IsLeap(s.y + 1))
    requires z == JulianPart(s) + 2 - s.y / 100 + s.y / 100 / 4 - 1524
    ensures var a := Quotient(4 * z - 7468865, 146097);
            z + 1 + a - Quotient(a, 4) + 1524 == JulianPart(s) + if s == Shifted(300, 3, 1) then -1 else 0
  {
    hide Quotient, JulianPart;
    var k := Quotient(306001 * (s.m + 1), 10000) + s.d;
    var c, r := s.y / 100, s.y % 100;
    var t := 1461 * (r + 4716) / 4 - 1722519 + k - 123;
    JulianByCentury(s);
    CenturyDays(s, r, k, t);
    assert 4 * z - 7468865 == 146097 * (c - 4) + (4 * t + 3 - c % 4);
    AlphaOf(c, 4 * t + 3 - c % 4);
    QuarterOf(c);
  }

  lemma JulianByCentury(s: Shifted)
    requires s.y >= 0
    ensures JulianPart(s)
            == 36525 * (s.y / 100) + 1461 * (s.y % 100 + 4716) / 4 + Quotient(306001 * (s.m + 1), 10000) + s.d
  {
    var c, r := s.y / 100, s.y % 100;
    assert 1461 * (s.y + 4716) == 4 * (36525 * c) + 1461 * (r + 4716);
  }

  lemma QuarterOf(c: int)
    requires c >= 0
    ensures Quotient(c - 4, 4) == (if c >= 4 then c / 4 - 1 else if c == 0 then -1 else 0)
            && Quotient(c - 3, 4) == if c >= 3 then (c + 1) / 4 - 1 else 0
  {
  }

  /** The day of the century, counted from its first of March. */
  lemma CenturyDays(s: Shifted, r: int, k: int, t: int)
    requires ValidShift(s) && s.y >= 0 && r == s.y % 100 && k == Quotient(306001 * (s.m + 1), 10000) + s.d
    requires (s.m == 14 && s.d == 29 ==> IsLeap(s.y + 1)) && t == 1461 * (r + 4716) / 4 - 1722519 + k - 123
    ensures 0 <= t <= 36523 || (t == 36524 && s.y / 100 % 4 == 3)
    ensures t == 0 <==> r == 0 && s.m == 3 && s.d == 1
  {
    MonthOffset(s.m, s.d);
    assert s.m > 3 ==> Quotient(306001 * (s.m + 1), 10000) > 122;
  }

  lemma AlphaOf(c: int, rest: int)
    requires c >= 0 && 0 <= rest < 146097
    ensures var a := Quotient(146097 * (c - 4) + rest, 146097);
            a == if c >= 4 || rest == 0 then c - 4 else c - 3
  {
    var n := 146097 * (c - 4) + rest;
    if c >= 4 {
      assert n / 146097 == c - 4;
    } else {
      assert -n == 146097 * (4 - c) - rest;
      assert (-n) / 146097 == if rest == 0 then 4 - c else 3 - c;
    }
  }

  lemma ShiftValid(a: Date)
    requires Valid(a)
    ensures var s := Shift(a);
            && ValidShift(s) && (s.m == 14 && s.d == 29 ==> s.y == -1 || IsLeap(s.y + 1))
            && (s == Shifted(300, 3, 1) <==> a == Date(300, 3, 1))
  {
  }

  /** __compute_ymd inverts __compute_jd on every date from year 0 on but the first of March 300. */
  lemma YmdInverts(a: Date)
    requires Valid(a)
    ensures YmdOf(DayNumber(a)) == a <==> a != Date(300, 3, 1)
  {
    hide Quotient, YmdOf, DayNumber;
    OneDayLost();
    if a != Date(300, 3, 1) { YmdBack(a); }
  }

  lemma YmdBack(a: Date)
    requires Valid(a) && a != Date(300, 3, 1)
    ensures YmdOf(DayNumber(a)) == a
  {
    hide Quotient, IsLeap, DaysIn;
    var s := Shift(a);
    ShiftValid(a);
    CenturyCorrection(s, DayNumber(a));
    JulianInverts(s);
  }

  lemma OneDayLost()
    ensures YmdOf(DayNumber(Date(300, 3, 1))) == Date(300, 2, 29)
  {
    assert DayNumber(Date(300, 3, 1)) == 1830692;
    assert Quotient(4 * 1830692 - 7468865, 146097) == -1;
    assert YmdOf(1830692) == Date(300, 2, 29);
  }

  // The date object. Times of day are not part of it, so a Julian day is always a whole number
  // and a half.

  /** 0 is Sunday. */
  function DayOfWeek(z: int): int { (z + 1) % 7 }

  /** Days from `z` to the next weekday `n`. */
  function DaysTo(z: int, n: int): int {
    var w := DayOfWeek(z);
    n - (if w > n then w - 7 else w)
  }

  /** `weekday N` lands on weekday N, at most six days ahead, on no earlier such day, and stays there. */
  lemma WeekdayLands(z: int, n: int)
    requires 0 <= n <= 6
    ensures 0 <= DaysTo(z, n) <= 6 && DayOfWeek(z + DaysTo(z, n)) == n
    ensures forall x :: z <= x < z + DaysTo(z, n) ==> DayOfWeek(x) != n
    ensures DaysTo(z + DaysTo(z, n), n) == 0
  {
  }

  /** The remainder in C has the sign of the dividend. */
  function Remainder(n: int, d: nat): int
    requires d > 0
  {
    n - d * Quotient(n, d)
  }

  /** Where `weekday N` moves the day `z`, with the remainder of C. */
  function Landing(z: int, n: int): int {
    var w := Remainder(z + 1, 7);
    z + n - (if w > n then w - 7 else w)
  }

  /** It lands on weekday N for every day, one week late exactly for a day number below -1 whose weekday
      is 1 to `n`. */
  lemma LandingIs(z: int, n: int)
    requires 0 <= n <= 6
    ensures DayOfWeek(Landing(z, n)) == n
    ensures Landing(z, n) == z + DaysTo(z, n) <==> z >= -1 || DayOfWeek(z) == 0 || DayOfWeek(z) > n
    ensures Landing(z, n) == z + DaysTo(z, n) || Landing(z, n) == z + DaysTo(z, n) + 7
  {
    var w := Remainder(z + 1, 7);
    if z + 1 >= 0 {
      assert w == DayOfWeek(z);
    } else {
      assert w == -((-z - 1) % 7);
      assert (z + 1) % 7 == if w == 0 then 0 else w + 7;
    }
  }

  /** The first of January 2000 was a Saturday, day 2451545, and weekdays follow each other. */
  lemma Weekdays(a: Date)
    requires Valid(a)
    ensures DayNumber(Date(2000, 1, 1)) == 2451545 && DayOfWeek(2451545) == 6
    ensures DayOfWeek(DayNumber(Next(a))) == if DayOfWeek(DayNumber(a)) == 6 then 0 else DayOfWeek(DayNumber(a)) + 1
  {
    hide DayNumber, DayOfWeek, Next;
    Epoch();
    NextDay(a);
    WeekdayNext(DayNumber(a));
  }

  lemma Epoch()
    ensures DayNumber(Date(2000, 1, 1)) == 2451545 && DayOfWeek(2451545) == 6
  {
  }

  lemma WeekdayNext(z: int)
    ensures DayOfWeek(z + 1) == if DayOfWeek(z) == 6 then 0 else DayOfWeek(z) + 1
  {
  }

  /** Months counted from January of year 0. */
  function MonthCount(y: int, m: int): int { 12 * y + m - 1 }

  class DateTime {
    var rJD: real
    var y: int
    var m: int
    var d: int
    var validYMD: bool
    var validJD: bool

    function TheDate(): Date
      reads this
    {
      Date(y, m, d)
    }

    /** The date the modifiers start from. */
    function Current(): Date
      reads this
    {
      if validYMD then TheDate() else YmdOf(Truncate(rJD + 0.5))
    }

    method ComputeJd()
      modifies this
      ensures validJD && TheDate() == old(TheDate())
      ensures old(validJD) ==> rJD == old(rJD) && validYMD == old(validYMD)
      ensures !old(validJD) ==>
                !validYMD && rJD == DayNumber(if old(validYMD) then TheDate() else Date(2000, 1, 1)) as real - 0.5
    {
      hide Quotient, Truncate;
      if validJD {
        return;
      }
      var (y', m', d') := if validYMD then (y, m, d) else (2000, 1, 1);
      if m' <= 2 {
        y', m' := y' - 1, m' + 12;
      }
      var a := Quotient(y', 100);
      var b := 2 - a + Quotient(a, 4);
      var x1 := Truncate(365.25 * (y' + 4716) as real);
      var x2 := Truncate(30.6001 * (m' + 1) as real);
      RatioTruncates(1461 * (y' + 4716), 4);
      RatioTruncates(306001 * (m' + 1), 10000);
      assert 365.25 * (y' + 4716) as real == (1461 * (y' + 4716)) as real / 4.0;
      assert 30.6001 * (m' + 1) as real == (306001 * (m' + 1)) as real / 10000.0;
      rJD := (x1 + x2 + d' + b) as real - 1524.5;
      validJD, validYMD := true, false;
    }

    method ComputeYmd()
      modifies this
      ensures validYMD && rJD == old(rJD) && validJD == old(validJD)
      ensures TheDate() == if old(validYMD) then old(TheDate()) else YmdOf(Truncate(rJD + 0.5))
    {
      hide Quotient, Truncate;
      if validYMD {
        return;
      }
      var z := Truncate(rJD + 0.5);
      var a := Truncate((z as real - 1867216.25) / 36524.25);
      RatioTruncates(4 * z - 7468865, 146097);
      assert (z as real - 1867216.25) / 36524.25 == (4 * z - 7468865) as real / 146097.0;
      a := z + 1 + a - Quotient(a, 4);
      var b := a + 1524;
      var c := Truncate((b as real - 122.1) / 365.25);
      RatioTruncates(100 * b - 12210, 36525);
      assert (b as real - 122.1) / 365.25 == (100 * b - 12210) as real / 36525.0;
      var d' := Truncate(365.25 * c as real);
      RatioTruncates(1461 * c, 4);
      assert 365.25 * c as real == (1461 * c) as real / 4.0;
      var e := Truncate((b - d') as real / 30.6001);
      RatioTruncates(10000 * (b - d'), 306001);
      assert (b - d') as real / 30.6001 == (10000 * (b - d')) as real / 306001.0;
      var x1 := Truncate(30.6001 * e as real);
      RatioTruncates(306001 * e, 10000);
      assert 30.6001 * e as real == (306001 * e) as real / 10000.0;
      d := b - d' - x1;
      m := if e < 14 then e - 1 else e - 13;
      y := if m > 2 then c - 4716 else c - 4715;
      validYMD := true;
    }

    /** `weekday N`. The date passes through year, month and day on the way. */
    method Weekday(n: int)
      requires 0 <= n <= 6
      modifies this
      ensures validJD && !validYMD && rJD == Landing(DayNumber(old(Current())), n) as real - 0.5
    {
      hide DayNumber, YmdOf;
      ghost var a := Current();
      ComputeYmd();
      assert TheDate() == a;
      validJD := false;
      ComputeJd();
      var z := Truncate(rJD + 1.5);
      z := z - 7 * Quotient(z, 7);
      if z > n {
        z := z - 7;
      }
      rJD := rJD + (n - z) as real;
      validYMD := false;
    }

    /** The date a shift by months starts from: the Julian day is computed first, which drops year,
        month and day, and these are then read back from it. */
    function ShiftStart(): Date
      reads this
    {
      if validJD then Current() else YmdOf(DayNumber(if validYMD then TheDate() else Date(2000, 1, 1)))
    }

    /** `+N months`, for a whole number N. */
    method AddMonths(k: int)
      modifies this
      ensures 1 <= m <= 12 && MonthCount(y, m) == MonthCount(old(ShiftStart()).y, old(ShiftStart()).m) + k
              && d == old(ShiftStart()).d
      ensures validJD && !validYMD && rJD == DayNumber(TheDate()) as real - 0.5
    {
      hide DayNumber, YmdOf;
      ghost var a := ShiftStart();
      ComputeJd();
      ComputeYmd();
      assert TheDate() == a;
      m := m + k;
      var x := if m > 0 then Quotient(m - 1, 12) else Quotient(m - 12, 12);
      y := y + x;
      m := m - x * 12;
      validJD := false;
      ComputeJd();
      validYMD := false;
    }
  }

  /** Day numbers from year 0 on are positive. */
  lemma Positive(a: Date)
    requires Valid(a)
    ensures DayNumber(a) > 0 && Truncate(DayNumber(a) as real - 0.5 + 0.5) == DayNumber(a)
    ensures Truncate(DayNumber(a) as real - 0.5 + 1.5) == DayNumber(a) + 1
  {
    assert a.m <= 2 || a.y / 100 >= 0;
    assert 1461 * (a.y + 4715) / 4 >= a.y + 4715;
    var y := if a.m <= 2 then a.y - 1 else a.y;
    assert Quotient(y, 100) <= y + 1;
  }

  /** `weekday` starts from the day the fields describe, unless it is the one that is lost. */
  lemma CurrentDay(dt: DateTime, a: Date)
    requires Valid(a) && (dt.validYMD || dt.validJD)
    requires (dt.validYMD ==> dt.TheDate() == a) && (dt.validJD ==> dt.rJD == DayNumber(a) as real - 0.5)
    ensures dt.Current() == a <==> dt.validYMD || a != Date(300, 3, 1)
  {
    hide DayNumber, YmdOf;
    YmdInverts(a);
    Positive(a);
  }

  /** A shift by months starts from the day the fields describe, unless it is the one that is lost,
      even if year, month and day are valid. */
  lemma ShiftDay(dt: DateTime, a: Date)
    requires Valid(a) && (dt.validYMD || dt.validJD)
    requires (dt.validYMD ==> dt.TheDate() == a) && (dt.validJD ==> dt.rJD == DayNumber(a) as real - 0.5)
    ensures dt.ShiftStart() == a <==> (dt.validYMD && dt.validJD) || a != Date(300, 3, 1)
  {
    hide DayNumber, YmdOf;
    YmdInverts(a);
    CurrentDay(dt, a);
  }

  lemma ShiftFromLostDay(dt: DateTime)
    requires dt.validYMD && !dt.validJD && dt.TheDate() == Date(300, 3, 1)
    ensures dt.ShiftStart() == Date(300, 2, 29)
  {
    OneDayLost();
  }
}
