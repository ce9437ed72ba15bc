/** Days since 2000-01-01 and civil dates. */
module Calendar {
  datatype Date = Date(year: int, month: int, day: int)

  const INT32_MAX: int := 0x7FFF_FFFF
  const INT32_MIN: int := -0x8000_0000

  ghost predicate IsInt32(x: int) { INT32_MIN <= x <= INT32_MAX }

  /** The value a cast to 32 bits leaves. */
  function Int32(x: int): int { (x + 0x8000_0000) % 0x1_0000_0000 - 0x8000_0000 }

  /** Division towards zero. */
  function Quot(a: int, b: int): int
    requires b > 0
  {
    if a >= 0 then a / b else -(-a / b)
  }

  /** Division towards zero of a real by one. */
  function Truncate(x: real): int { if x >= 0.0 then x.Floor else -((-x).Floor) }

  predicate Leap(year: int) { (year % 4 == 0 && year % 100 != 0) || year % 400 == 0 }

  /** Days before the first day of so many years after year 1. */
  function YearsByDays(years: int): int {
    years * 365 + Quot(years, 4) - Quot(years, 100) + Quot(years, 400)
  }

  /** Days of the year before the given month, counted from 0; the whole year for 12. */
  function MonthDays(leap: bool, month: nat): (d: nat)
    requires month <= 12
  {
    var shift := if leap && month > 1 then 1 else 0;
    [0, 31, 59, 90, 120, 151, 181, 212, 243, 273, 304, 334, 365][month] + shift
  }

  /** Days from 0001-01-01 to 2000-01-01. */
  const EPOCH: int := 730119

  function Encode(d: Date): int {
    var years := if d.year > 0 then d.year - 1 else 0;
    var month := if d.month <= 0 then 0 else if d.month > 13 then 12 else d.month - 1;
    YearsByDays(years) - EPOCH + MonthDays(Leap(d.year), month) + d.day - 1
  }

  /** The last month, from `month` down, whose days before it are reached. */
  function LastReached(leap: bool, rem: int, month: nat): (r: nat)
    requires month <= 12
    ensures r <= month
  {
    if month == 0 || (MonthDays(leap, month) != 0 && Quot(rem, MonthDays(leap, month)) != 0) then month
    else LastReached(leap, rem, month - 1)
  }

  /** The years gone, from a quotient rounded to the nearest and one correction. */
  function YearsGone(offset: int, quotient: real): int {
    var years := Truncate(if quotient >= 0.0 then quotient + 0.5 else quotient - 0.5);
    if Int32(YearsByDays(years)) > offset then years - 1 else years
  }

  /** The day of year `rem` days after its first. */
  function DayOfYear(year: int, rem: int): Date {
    var last := LastReached(Leap(year), rem, 12);
    var month := if last == 12 then 0 else last;
    Date(year, 1 + month, 1 + rem - MonthDays(Leap(year), month))
  }

  /** The date of a day, given the floating quotient of the days since 0001-01-01 by
      365.2425; where a subtraction of 32-bit values leaves their range, it wraps. */
  function Decode(days: int, quotient: real): Date {
    var offset := days + EPOCH;
    var years := YearsGone(offset, quotient);
    DayOfYear(years + 1, Int32(offset - Int32(YearsByDays(years))))
  }

  /** The quotient is off by no more than slack / 146097: a quarter of a year is 36524, double
      precision needs less than 1. */
  ghost predicate Near(quotient: real, offset: int, slack: int) {
    -(slack as real) <= quotient * 146097.0 - offset as real * 400.0 <= slack as real
  }

  method DateToYmd(days: int, quotient: real) returns (y: int, m: int, d: int)
    ensures Date(y, m, d) == Decode(days, quotient)
  {
    var offset := days + EPOCH;
    var years := Truncate(if quotient >= 0.0 then quotient + 0.5 else quotient - 0.5);
    if Int32(YearsByDays(years)) > offset { years := years - 1; }
    var rem := Int32(offset - Int32(YearsByDays(years)));
    y := years + 1;
    var leap := Leap(y);
    var mid := 12;
    while mid > 0 && (MonthDays(leap, mid) == 0 || Quot(rem, MonthDays(leap, mid)) == 0)
      invariant 0 <= mid <= 12 && LastReached(leap, rem, 12) == LastReached(leap, rem, mid)
    {
      mid := mid - 1;
    }
    if mid == 12 { mid := 0; }
    m := 1 + mid;
    d := 1 + rem - MonthDays(leap, mid);
  }

  // ---------- the calendar's own rules (Appendix C of RFC 3339) ----------

  function MonthLength(year: int, month: int): int {
    if month == 2 then (if Leap(year) then 29 else 28)
    else if month == 4 || month == 6 || month == 9 || month == 11 then 30 else 31
  }

  ghost predicate Valid(d: Date) {
    d.year >= 1 && 1 <= d.month <= 12 && 1 <= d.day <= MonthLength(d.year, d.month)
  }

  function DayAfter(d: Date): Date {
    if d.day < MonthLength(d.year, d.month) then Date(d.year, d.month, d.day + 1)
    else if d.month < 12 then Date(d.year, d.month + 1, 1)
    else Date(d.year + 1, 1, 1)
  }

  predicate Before(a: Date, b: Date) {
    a.year < b.year || (a.year == b.year && (a.month < b.month || (a.month == b.month && a.day < b.day)))
  }

  // ---------- years ----------

  lemma YearLength(year: int)
    requires year >= 1
    ensures YearsByDays(year) - YearsByDays(year - 1) == if Leap(year) then 366 else 365
  {
    Step(year, 4);
    Step(year, 100);
    Step(year, 400);
  }

  lemma Step(y: int, n: int)
    requires y >= 1 && (n == 4 || n == 100 || n == 400)
    ensures y / n - (y - 1) / n == if y % n == 0 then 1 else 0
  {
    if n == 4 {} else if n == 100 {} else {}
  }

  lemma {:induction false} YearsIncrease(a: int, b: int)
    requires 0 <= a <= b
    ensures YearsByDays(a) + 365 * (b - a) <= YearsByDays(b)
    decreases b - a
  {
    if a < b {
      YearsIncrease(a, b - 1);
      YearLength(b);
    }
  }

  lemma YearsNear(years: int)
    requires years >= 0
    ensures -699 <= 400 * YearsByDays(years) - 146097 * years <= 396
  {
  }

  lemma YearsFit(years: int)
    requires 0 <= years <= 5879610
    ensures 0 <= YearsByDays(years) && Int32(YearsByDays(years)) == YearsByDays(years)
  {
    YearsNear(years);
  }

  // ---------- the rounded year ----------

  /** The last day whose year is found: 182 days later the year count after the rounding no
      longer fits 32 bits. */
  const LAST: int := 2146753519

  /** A quotient within a quarter of a year rounds to the year or the next one, so the one
      correction always finds the year. */
  lemma OneCorrection(offset: int, quotient: real)
    requires 0 <= offset && Near(quotient, offset, 36524)
    requires Truncate(if quotient >= 0.0 then quotient + 0.5 else quotient - 0.5) <= 5879610
    ensures var years := YearsGone(offset, quotient);
      0 <= years <= 5879610 && YearsByDays(years) <= offset < YearsByDays(years + 1)
  {
    var rounded := Truncate(if quotient >= 0.0 then quotient + 0.5 else quotient - 0.5);
    RoundedNear(offset, quotient, rounded);
    YearsFit(rounded);
    YearsNear(rounded + 1);
    if rounded > 0 { YearsNear(rounded - 1); }
  }

  lemma RoundedNear(offset: int, quotient: real, rounded: int)
    requires 0 <= offset && Near(quotient, offset, 36524)
    requires rounded == Truncate(if quotient >= 0.0 then quotient + 0.5 else quotient - 0.5)
    ensures rounded >= 0 && 146097 * rounded - 109573 <= 400 * offset <= 146097 * rounded + 109573
  {
    var r := rounded as real;
    if quotient >= 0.0 {
      assert r <= quotient + 0.5 < r + 1.0;
      assert -36524.0 <= quotient * 146097.0 - offset as real * 400.0 <= 36524.0;
      assert 146097.0 * r - 109573.0 <= 400.0 * offset as real <= 146097.0 * r + 109573.0;
    } else {
      assert -r <= 0.5 - quotient < -r + 1.0;
      assert quotient * 146097.0 >= -36524.0;
      assert quotient > -0.5;
      assert rounded == 0;
    }
  }

  lemma YearIs(offset: int, a: int, b: int)
    requires 0 <= a && 0 <= b && YearsByDays(a) <= offset < YearsByDays(a + 1) && YearsByDays(b) <= offset < YearsByDays(b + 1)
    ensures a == b
  {
    if a < b { YearsIncrease(a + 1, b); }
    if b < a { YearsIncrease(b + 1, a); }
  }

  // ---------- the month ----------

  lemma MonthDaysIncrease(leap: bool, month: nat)
    requires month < 12
    ensures MonthDays(leap, 0) == 0 && MonthDays(leap, 12) == if leap then 366 else 365
    ensures forall year: int :: Leap(year) == leap ==> MonthDays(leap, month + 1) == MonthDays(leap, month) + MonthLength(year, month + 1)
  {
  }

  lemma {:induction false} LastReachedIs(leap: bool, rem: int, from: nat)
    requires 0 <= rem && from <= 12 && (from < 12 ==> rem < MonthDays(leap, from + 1)) && rem < MonthDays(leap, 12)
    ensures var r := LastReached(leap, rem, from);
      r < 12 && MonthDays(leap, r) <= rem < MonthDays(leap, r + 1)
  {
    if from > 0 {
      Reached(rem, MonthDays(leap, from));
      if rem < MonthDays(leap, from) { LastReachedIs(leap, rem, from - 1); }
    }
  }

  lemma Reached(rem: int, d: int)
    requires 0 <= rem && 0 < d
    ensures Quot(rem, d) != 0 <==> d <= rem
  {
  }

  /** The date `rem` days into a year is a date of that year, and its day number fits. */
  lemma DayOfYearIs(year: int, rem: int)
    requires year >= 1 && 0 <= rem < YearsByDays(year) - YearsByDays(year - 1)
    ensures var d := DayOfYear(year, rem); Valid(d) && d.year == year && Encode(d) == YearsByDays(year - 1) + rem - EPOCH
  {
    YearLength(year);
    LastReachedIs(Leap(year), rem, 12);
    MonthDaysIncrease(Leap(year), LastReached(Leap(year), rem, 12));
  }

  /** A valid date is the day of its year that its number says. */
  lemma ValidIs(d: Date)
    requires Valid(d)
    ensures var rem := Encode(d) + EPOCH - YearsByDays(d.year - 1);
      0 <= rem < YearsByDays(d.year) - YearsByDays(d.year - 1) && DayOfYear(d.year, rem) == d
  {
    var leap, rem := Leap(d.year), Encode(d) + EPOCH - YearsByDays(d.year - 1);
    YearLength(d.year);
    MonthsIncrease(leap, d.month, 12);
    MonthDaysIncrease(leap, d.month - 1);
    LastReachedIs(leap, rem, 12);
    var r := LastReached(leap, rem, 12);
    if r < d.month - 1 { MonthsIncrease(leap, r + 1, d.month - 1); }
    if r > d.month - 1 { MonthsIncrease(leap, d.month, r); }
  }

  lemma {:induction false} MonthsIncrease(leap: bool, a: nat, b: nat)
    requires a <= b <= 12
    ensures MonthDays(leap, a) <= MonthDays(leap, b)
    decreases b - a
  {
    if a < b { MonthsIncrease(leap, a, b - 1); }
  }

  // ---------- the main results ----------

  /** From 0001-01-01 on, the date of a day is valid and has that day's number. */
  lemma DecodeIs(days: int, quotient: real)
    requires -EPOCH <= days <= LAST && Near(quotient, days + EPOCH, 1)
    ensures var d := Decode(days, quotient); Valid(d) && Encode(d) == days
  {
    hide YearsByDays, YearsGone, DayOfYear, Encode, Valid, Quot, Truncate;
    var offset := days + EPOCH;
    RoundedBelow(offset, quotient);
    OneCorrection(offset, quotient);
    var years := YearsGone(offset, quotient);
    YearsFit(years);
    YearLength(years + 1);
    DayOfYearIs(years + 1, offset - YearsByDays(years));
  }

  lemma RoundedBelow(offset: int, quotient: real)
    requires 0 <= offset <= LAST + EPOCH && Near(quotient, offset, 1)
    ensures Truncate(if quotient >= 0.0 then quotient + 0.5 else quotient - 0.5) <= 5879610
  {
    assert quotient * 146097.0 <= 1.0 + offset as real * 400.0;
    assert quotient < 5879610.5;
  }

  /** On every day a 32-bit offset can name, the two functions are inverse exactly from
      0001-01-01 to the last day whose rounded year count fits. */
  lemma DecodeThenEncodeIff(days: int, quotient: real)
    requires IsInt32(days) && IsInt32(days + EPOCH) && Near(quotient, days + EPOCH, 1)
    ensures var d := Decode(days, quotient); Valid(d) && Encode(d) == days <==> -EPOCH <= days <= LAST
  {
    if days < -EPOCH {
      BeforeYearOne(days, quotient);
    } else if days > LAST {
      AfterLast(days, quotient);
    } else {
      DecodeIs(days, quotient);
    }
  }

  /** Before year 1 the year found is not positive; the division of its count goes the other
      way, so the day may fall on another date of that year. */
  lemma BeforeYearOne(days: int, quotient: real)
    requires IsInt32(days) && days < -EPOCH && Near(quotient, days + EPOCH, 1)
    ensures var d := Decode(days, quotient); d.year <= 0 && d.day >= 1
  {
    hide YearsByDays, YearsGone, Truncate, Near;
    var offset := days + EPOCH;
    NegativeYears(offset, quotient);
    var years := YearsGone(offset, quotient);
    MonthBelow(Leap(years + 1), offset - YearsByDays(years), 12);
  }

  lemma NegativeYears(offset: int, quotient: real)
    requires INT32_MIN + EPOCH <= offset < 0 && Near(quotient, offset, 1)
    ensures var years := YearsGone(offset, quotient);
      years < 0 && Int32(YearsByDays(years)) == YearsByDays(years) && 0 <= offset - YearsByDays(years) < 1000
  {
    hide YearsByDays, Int32;
    var k := (0.5 - quotient).Floor;
    RoundedAway(offset, quotient, k);
    assert Truncate(if quotient >= 0.0 then quotient + 0.5 else quotient - 0.5) == -k;
    Corrected(offset, k);
  }

  lemma Corrected(offset: int, k: int)
    requires INT32_MIN + EPOCH <= offset < 0 && k >= 0 && 146097 * k - 73050 <= -400 * offset <= 146097 * k + 73050
    ensures var years := if Int32(YearsByDays(-k)) > offset then -k - 1 else -k;
      years < 0 && Int32(YearsByDays(years)) == YearsByDays(years) && 0 <= offset - YearsByDays(years) < 1000
  {
    hide YearsByDays, Int32;
    NegatedYears(k);
    NegatedYears(k + 1);
    CastFits(YearsByDays(-k));
    CastFits(YearsByDays(-k - 1));
  }

  lemma CastFits(x: int)
    ensures IsInt32(x) <==> Int32(x) == x
  {
  }

  lemma NegatedYears(k: int)
    requires k >= 0
    ensures -396 <= 400 * YearsByDays(-k) + 146097 * k <= 699 && (k == 0 ==> YearsByDays(-k) == 0)
  {
    assert YearsByDays(-k) == -YearsByDays(k);
    YearsNear(k);
  }

  lemma RoundedAway(offset: int, quotient: real, k: int)
    requires offset < 0 && Near(quotient, offset, 1) && k == (0.5 - quotient).Floor
    ensures quotient < 0.0 && k >= 0 && 146097 * k - 73050 <= -400 * offset <= 146097 * k + 73050
  {
    var r := k as real;
    assert r <= 0.5 - quotient < r + 1.0;
    assert quotient * 146097.0 <= 1.0 - 400.0;
    assert 146097.0 * r - 73050.0 <= -400.0 * offset as real <= 146097.0 * r + 73050.0;
  }

  lemma {:induction false} MonthBelow(leap: bool, rem: int, from: nat)
    requires 0 <= rem && from <= 12
    ensures MonthDays(leap, LastReached(leap, rem, from)) <= rem
  {
    if from > 0 {
      Reached(rem, MonthDays(leap, from));
      if rem < MonthDays(leap, from) { MonthBelow(leap, rem, from - 1); }
    }
  }

  lemma AfterLast(days: int, quotient: real)
    requires LAST < days && IsInt32(days + EPOCH) && Near(quotient, days + EPOCH, 1)
    ensures var d := Decode(days, quotient); d.year == 5879612 && d.day < 1
  {
    hide LastReached, Near;
    RoundedPast(days + EPOCH, quotient);
    var rem := days + EPOCH - 2147483820;
    assert Decode(days, quotient) == DayOfYear(5879612, rem);
    MonthAbove(rem);
  }

  lemma RoundedPast(offset: int, quotient: real)
    requires LAST + EPOCH < offset <= INT32_MAX && Near(quotient, offset, 1)
    ensures quotient >= 0.0 && (quotient + 0.5).Floor == 5879611
  {
  }

  lemma MonthAbove(rem: int)
    requires -366 < rem < 0
    ensures LastReached(true, rem, 12) < 12
  {
  }

  /** Every computation Encode makes fits 32 bits, and so does the offset Decode starts from. */
  ghost predicate Fits(d: Date) {
    d.year <= 5879611 && IsInt32(Encode(d)) && IsInt32(Encode(d) + EPOCH)
  }

  /** Exactly the valid dates up to the last day come back from their number. */
  lemma EncodeThenDecodeIff(d: Date, quotient: real)
    requires Fits(d) && Near(quotient, Encode(d) + EPOCH, 1)
    ensures Decode(Encode(d), quotient) == d <==> Valid(d) && Encode(d) <= LAST
  {
    hide Decode, YearsByDays, DayOfYear;
    var days := Encode(d);
    if days < -EPOCH {
      BeforeYearOne(days, quotient);
      EncodeSign(d);
    } else if days > LAST {
      AfterLast(days, quotient);
    } else {
      DecodeIs(days, quotient);
      if Valid(d) { SameNumber(d, Decode(days, quotient)); }
    }
  }

  /** No date with a year up to 0 and a day from 1 has a number before year 1. */
  lemma EncodeSign(d: Date)
    ensures d.year <= 0 && d.day >= 1 ==> Encode(d) >= -EPOCH
    ensures Valid(d) ==> Encode(d) >= -EPOCH
  {
    if Valid(d) { YearsIncrease(0, d.year - 1); }
  }

  lemma SameNumber(a: Date, b: Date)
    requires Valid(a) && Valid(b) && Encode(a) == Encode(b)
    ensures a == b
  {
    ValidIs(a);
    ValidIs(b);
    YearIs(Encode(a) + EPOCH, a.year - 1, b.year - 1);
  }

  /** Numbers follow the order of dates. */
  lemma EncodeIncreasesIff(a: Date, b: Date)
    requires Valid(a) && Valid(b)
    ensures Encode(a) < Encode(b) <==> Before(a, b)
  {
    if Before(a, b) { EncodeIncreases(a, b); }
    if Before(b, a) { EncodeIncreases(b, a); }
  }

  lemma EncodeIncreases(a: Date, b: Date)
    requires Valid(a) && Valid(b) && Before(a, b)
    ensures Encode(a) < Encode(b)
  {
    if a.year < b.year {
      hide Encode, DayOfYear;
      ValidIs(a);
      ValidIs(b);
      YearsIncrease(a.year, b.year - 1);
    } else if a.month < b.month {
      MonthsIncrease(Leap(a.year), a.month, b.month - 1);
      MonthDaysIncrease(Leap(a.year), a.month - 1);
    }
  }

  /** The day after, by the calendar's rules, has the next number. */
  lemma DayAfterIs(d: Date)
    requires Valid(d)
    ensures Valid(DayAfter(d)) && Encode(DayAfter(d)) == Encode(d) + 1
  {
    YearLength(d.year);
    MonthDaysIncrease(Leap(d.year), d.month - 1);
  }

  /** Day 0 is 2000-01-01, and each next day is the day after by the calendar's own rules. */
  lemma DecodeFollowsCalendar(days: int, quotient: real, next: real)
    requires -EPOCH <= days < LAST && Near(quotient, days + EPOCH, 1) && Near(next, days + 1 + EPOCH, 1)
    ensures Decode(days + 1, next) == DayAfter(Decode(days, quotient))
    ensures days == 0 ==> Decode(days, quotient) == Date(2000, 1, 1)
  {
    hide Decode, Encode, DayAfter, Valid;
    DecodeIs(days, quotient);
    DecodeIs(days + 1, next);
    DayAfterIs(Decode(days, quotient));
    SameNumber(Decode(days + 1, next), DayAfter(Decode(days, quotient)));
    if days == 0 {
      Epoch();
      SameNumber(Decode(days, quotient), Date(2000, 1, 1));
    }
  }

  lemma Epoch()
    ensures Valid(Date(2000, 1, 1)) && Encode(Date(2000, 1, 1)) == 0
  {
  }
}
