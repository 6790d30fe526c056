/** The closed-form calendar arithmetic of src/time/rtc.c against the Gregorian calendar. */
module Calendar {
  import opened Arithmetic

  datatype Time = Time(year: nat, month: nat, day: nat, hour: nat, minute: nat, second: nat)

  // ----- The calendar -----

  predicate Leap(y: nat) {
    y % 4 == 0 && (y % 100 != 0 || y % 400 == 0)
  }

  function YearLength(y: nat): nat {
    if Leap(y) then 366 else 365
  }

  function MonthLength(y: nat, m: nat): nat {
    if m == 2 then if Leap(y) then 29 else 28
    else if m == 4 || m == 6 || m == 9 || m == 11 then 30
    else 31
  }

  /** Days of the years from 1970 up to the beginning of `y`. */
  function DaysOfYears(y: nat): nat
    requires y >= 1970
  {
    if y == 1970 then 0 else DaysOfYears(y - 1) + YearLength(y - 1)
  }

  /** Days of the months of `y` before month `m`. */
  function DaysOfMonths(y: nat, m: nat): nat
    requires m >= 1
  {
    if m == 1 then 0 else DaysOfMonths(y, m - 1) + MonthLength(y, m - 1)
  }

  predicate ValidTime(t: Time) {
    && 1970 <= t.year < 0x1_0000 && 1 <= t.month <= 12 && 1 <= t.day <= MonthLength(t.year, t.month)
    && t.hour < 24 && t.minute < 60 && t.second < 60
  }

  /** Seconds since 1970-01-01 00:00:00, counted by years, months and days. */
  function SecondsSinceEpoch(t: Time): nat
    requires ValidTime(t)
  {
    (((DaysOfYears(t.year) + DaysOfMonths(t.year, t.month) + t.day - 1) * 24 + t.hour) * 60 + t.minute) * 60 + t.second
  }

  /** One second later. */
  function NextSecond(t: Time): Time {
    if t.second < 59 then t.(second := t.second + 1)
    else if t.minute < 59 then t.(minute := t.minute + 1, second := 0)
    else if t.hour < 23 then t.(hour := t.hour + 1, minute := 0, second := 0)
    else if t.day < MonthLength(t.year, t.month) then Time(t.year, t.month, t.day + 1, 0, 0, 0)
    else if t.month < 12 then Time(t.year, t.month + 1, 1, 0, 0, 0)
    else Time(t.year + 1, 1, 1, 0, 0, 0)
  }

  // ----- The closed form -----

  /** `(s8)x` of a byte. */
  function Signed(x: nat): int
    requires x < 0x100
  {
    if x < 0x80 then x else x - 0x100
  }

  /** `month -= 2` in eight bits, put right if the signed value is not positive. */
  function ShiftedMonth(month: nat): (m: nat)
    requires month < 0x100
  {
    var m := (month + 0x100 - 2) % 0x100;
    if Signed(m) <= 0 then (m + 12) % 0x100 else m
  }

  /** `year -= 1` in sixteen bits in the same case. */
  function ShiftedYear(year: nat, month: nat): (y: nat)
    requires year < 0x1_0000 && month < 0x100
  {
    if Signed((month + 0x100 - 2) % 0x100) <= 0 then (year + 0x1_0000 - 1) % 0x1_0000 else year
  }

  /** The days in the expression of `mktime`, for the shifted year and month. */
  function MktimeDays(year: nat, month: nat, day: nat): int {
    year / 4 - year / 100 + year / 400 + 367 * month / 12 + day + year * 365 - 719499
  }

  /** `mktime`, with its 8-bit month and 16-bit year. */
  function Mktime(t: Time): int
    requires t.year < 0x1_0000 && t.month < 0x100
  {
    var days := MktimeDays(ShiftedYear(t.year, t.month), ShiftedMonth(t.month), t.day);
    ((days * 24 + t.hour) * 60 + t.minute) * 60 + t.second
  }

  // ----- They agree -----

  function LeapDays(y: nat): int {
    y / 4 - y / 100 + y / 400
  }

  lemma LeapDaysStep(y: nat)
    requires y > 0
    ensures LeapDays(y) == LeapDays(y - 1) + if Leap(y) then 1 else 0
  {
    DivStep(y, 4);
    DivStep(y, 100);
    DivStep(y, 400);
  }

  lemma DivStep(y: nat, k: nat)
    requires y > 0 && k > 1
    ensures y / k == (y - 1) / k + if y % k == 0 then 1 else 0
  {
    var q, r := y / k, y % k;
    assert y == q * k + r;
    if r == 0 {
      assert y - 1 == (q - 1) * k + (k - 1);
      DivUnique(y - 1, k, q - 1, k - 1);
    } else {
      DivUnique(y - 1, k, q, r - 1);
    }
  }

  /** The sum over the years in closed form. */
  lemma {:induction false} DaysOfYearsClosed(y: nat)
    requires y >= 1970
    ensures DaysOfYears(y) == 365 * (y - 1970) + LeapDays(y - 1) - 477
  {
    if y > 1970 {
      DaysOfYearsClosed(y - 1);
      LeapDaysStep(y - 1);
    }
  }

  /** The sum over the months in closed form: months count from March, the leap day comes last. */
  lemma DaysOfMonthsClosed(y: nat, m: nat)
    requires 1 <= m <= 12
    ensures m > 2 ==> DaysOfMonths(y, m) == 367 * (m - 2) / 12 + 29 + if Leap(y) then 1 else 0
    ensures m <= 2 ==> DaysOfMonths(y, m) == 367 * (m + 10) / 12 - 336
  {
    if m > 2 {
      DaysOfMonthsClosed(y, m - 1);
    }
  }

  /** January and February count as months 11 and 12 of the year before. */
  lemma Shift(year: nat, month: nat)
    requires 0 < year < 0x1_0000 && 1 <= month <= 12
    ensures ShiftedMonth(month) == if month <= 2 then month + 10 else month - 2
    ensures ShiftedYear(year, month) == if month <= 2 then year - 1 else year
  {
  }

  lemma MktimeDaysCorrect(year: nat, month: nat, day: nat)
    requires 1970 <= year < 0x1_0000 && 1 <= month <= 12
    ensures MktimeDays(ShiftedYear(year, month), ShiftedMonth(month), day)
            == DaysOfYears(year) + DaysOfMonths(year, month) + day - 1
  {
    Shift(year, month);
    DaysOfYearsClosed(year);
    DaysOfMonthsClosed(year, month);
    LeapDaysStep(year);
  }

  /** The closed form equals the sum over years, months and days, for every date from 1970 on. */
  lemma MktimeIsSecondsSinceEpoch(t: Time)
    requires ValidTime(t)
    ensures Mktime(t) == SecondsSinceEpoch(t)
  {
    MktimeDaysCorrect(t.year, t.month, t.day);
  }

  lemma NextSecondIsValid(t: Time)
    requires ValidTime(t) && (t.year < 0xffff || NextSecond(t).year == t.year)
    ensures ValidTime(NextSecond(t))
    ensures SecondsSinceEpoch(NextSecond(t)) == SecondsSinceEpoch(t) + 1
  {
    if t.month == 12 && NextSecond(t).year != t.year {
      DaysOfYear(t.year);
    }
  }

  lemma DaysOfYear(y: nat)
    ensures DaysOfMonths(y, 12) + 31 == YearLength(y)
  {
    DaysOfMonthsClosed(y, 12);
  }

  /** Successive seconds map to successive integers, across all boundaries. */
  lemma MktimeCountsSeconds(t: Time)
    requires ValidTime(t) && (t.year < 0xffff || NextSecond(t).year == t.year)
    ensures ValidTime(NextSecond(t)) && Mktime(NextSecond(t)) == Mktime(t) + 1
  {
    NextSecondIsValid(t);
    MktimeIsSecondsSinceEpoch(t);
    MktimeIsSecondsSinceEpoch(NextSecond(t));
  }

  lemma MktimeOfEpoch()
    ensures Mktime(Time(1970, 1, 1, 0, 0, 0)) == 0
  {
    MktimeIsSecondsSinceEpoch(Time(1970, 1, 1, 0, 0, 0));
  }
}
