// The date arithmetic of today_iso in crates/bvault-export/src/build.rs, and the calendar
// it has to agree with (leap rule: Appendix C of RFC 3339; month lengths: section 5.7).
module CivilDate {
  datatype Date = Date(year: nat, month: nat, day: nat)

  // ---- The calendar, one day at a time ---------------------------------------------------

  predicate IsLeap(year: nat) {
    year % 4 == 0 && (year % 100 != 0 || year % 400 == 0)
  }

  function DaysInMonth(year: nat, month: nat): nat {
    if month == 2 then (if IsLeap(year) then 29 else 28)
    else if month == 4 || month == 6 || month == 9 || month == 11 then 30
    else 31
  }

  predicate ValidDate(date: Date) {
    1 <= date.month <= 12 && 1 <= date.day <= DaysInMonth(date.year, date.month)
  }

  function NextDay(date: Date): Date {
    if date.day < DaysInMonth(date.year, date.month) then date.(day := date.day + 1)
    else if date.month < 12 then Date(date.year, date.month + 1, 1)
    else Date(date.year + 1, 1, 1)
  }

  const EPOCH := Date(1970, 1, 1)

  function DateAfter(days: nat): Date {
    if days == 0 then EPOCH else NextDay(DateAfter(days - 1))
  }

  // ---- The program's arithmetic ------------------------------------------------------------

  const DAYS_PER_ERA := 146_097

  function YearOfEra(dayOfEra: nat): int {
    (dayOfEra - dayOfEra / 1460 + dayOfEra / 36_524 - dayOfEra / 146_096) / 365
  }

  function DayOfYear(dayOfEra: nat): int {
    var year := YearOfEra(dayOfEra);
    dayOfEra - (365 * year + year / 4 - year / 100)
  }

  function MonthIndex(dayOfYear: int): int {
    (5 * dayOfYear + 2) / 153
  }

  // Years that begin in March, months counted from March.
  function FromMarch(year: int, dayOfYear: int): (int, int, int) {
    var index := MonthIndex(dayOfYear);
    var day := dayOfYear - (153 * index + 2) / 5 + 1;
    var month := if index < 10 then index + 3 else index - 9;
    (if month <= 2 then year + 1 else year, month, day)
  }

  function Civil(days: nat): (int, int, int) {
    var z := days + 719_468;
    var era := z / DAYS_PER_ERA;
    var dayOfEra := z - era * DAYS_PER_ERA;
    FromMarch(YearOfEra(dayOfEra) + era * 400, DayOfYear(dayOfEra))
  }

  function Triple(date: Date): (int, int, int) {
    (date.year, date.month, date.day)
  }

  // ---- Years that begin in March -----------------------------------------------------------

  // A year that begins in March is long when the February it ends with is.
  function YearLength(year: nat): nat {
    if IsLeap(year + 1) then 366 else 365
  }

  // The first day of a year of an era.
  function YearStart(year: int): int {
    365 * year + year / 4 - year / 100
  }

  // The day number stands for this day of this year.
  predicate Stands(days: nat, year: nat, dayOfYear: nat) {
    && dayOfYear < YearLength(year)
    && days + 719_468 == DAYS_PER_ERA * (year / 400) + YearStart(year % 400) + dayOfYear
  }

  // The formula for the year gets every day right, by century c, four-year group q and
  // year r of the group: what it subtracts is exactly the leap days so far, or one more
  // near the end of a group, where that does not matter.
  lemma YearByParts(c: nat, q: nat, r: nat, dayOfYear: nat)
    requires c < 4 && q < 25 && r < 4
    requires dayOfYear < 365 || (dayOfYear == 365 && r == 3 && (q < 24 || c == 3))
    ensures YearOfEra(36_524 * c + 1461 * q + 365 * r + dayOfYear) == 100 * c + 4 * q + r
  {
    var day := 36_524 * c + 1461 * q + 365 * r + dayOfYear;
    var rest := 24 * c + q + 365 * r + dayOfYear;
    var extra := if rest >= 1460 then 1 else 0;
    var last := if c == 3 && q == 24 && r == 3 && dayOfYear == 365 then 1 else 0;
    assert day == 1460 * (25 * c + q) + rest;
    assert day / 1460 == 25 * c + q + extra;
    assert day / 36_524 == c + last;
    assert day / 146_096 == last;
    var year := 100 * c + 4 * q + r;
    assert day - day / 1460 + day / 36_524 - day / 146_096 == 365 * year + dayOfYear - extra;
    assert 0 <= dayOfYear - extra < 365;
  }

  lemma YearParts(year: nat)
    requires year < 400
    ensures var c, q, r := year / 100, year % 100 / 4, year % 4;
      && year == 100 * c + 4 * q + r && YearStart(year) == 36_524 * c + 1461 * q + 365 * r
      && (IsLeap(year + 1) ==> r == 3 && (q < 24 || c == 3))
  {}

  lemma ModShift4(a: nat, k: nat)
    ensures (a + 4 * k) % 4 == a % 4
  {}

  lemma ModShift100(a: nat, k: nat)
    ensures (a + 100 * k) % 100 == a % 100
  {}

  lemma ModShift400(a: nat, k: nat)
    ensures (a + 400 * k) % 400 == a % 400
  {}

  lemma LeapRepeats(year: nat)
    ensures IsLeap(year + 1) <==> IsLeap(year % 400 + 1)
  {
    var era := year / 400;
    ModShift4(year % 400 + 1, 100 * era);
    ModShift100(year % 400 + 1, 4 * era);
    ModShift400(year % 400 + 1, era);
    assert year + 1 == (year % 400 + 1) + 400 * era;
  }

  // The program's arithmetic takes a day number to the day it stands for.
  lemma CivilOf(days: nat, year: nat, dayOfYear: nat)
    requires Stands(days, year, dayOfYear)
    ensures Civil(days) == FromMarch(year, dayOfYear)
  {
    hide IsLeap, FromMarch, YearOfEra, YearStart;
    var y := year % 400;
    LeapRepeats(year);
    YearParts(y);
    var dayOfEra := YearStart(y) + dayOfYear;
    WithinEra(y, dayOfYear);
    EraOf(year / 400, dayOfEra);
    YearByParts(y / 100, y % 100 / 4, y % 4, dayOfYear);
    assert YearOfEra(dayOfEra) == y;
    DayOfYearIs(dayOfEra, y);
  }

  lemma EraOf(era: nat, dayOfEra: nat)
    requires dayOfEra < DAYS_PER_ERA
    ensures (DAYS_PER_ERA * era + dayOfEra) / DAYS_PER_ERA == era
  {}

  lemma WithinEra(y: nat, dayOfYear: nat)
    requires y < 400 && dayOfYear < 366 && (dayOfYear == 365 ==> IsLeap(y + 1))
    ensures 0 <= YearStart(y) + dayOfYear < DAYS_PER_ERA
  {}

  lemma DayOfYearIs(dayOfEra: nat, y: nat)
    requires YearOfEra(dayOfEra) == y
    ensures DayOfYear(dayOfEra) == dayOfEra - YearStart(y)
  {}

  // The next day: the same year, or the first of the next.
  lemma StandsNext(days: nat, year: nat, dayOfYear: nat)
    requires Stands(days, year, dayOfYear)
    ensures dayOfYear + 1 < YearLength(year) ==> Stands(days + 1, year, dayOfYear + 1)
    ensures dayOfYear + 1 == YearLength(year) ==> Stands(days + 1, year + 1, 0)
  {
    LeapRepeats(year);
    var y := year % 400;
    if y == 399 {
      assert (year + 1) % 400 == 0 && (year + 1) / 400 == year / 400 + 1;
      assert IsLeap(400);
    } else {
      assert (year + 1) % 400 == y + 1 && (year + 1) / 400 == year / 400;
      YearStartNext(y);
    }
  }

  lemma YearStartNext(y: nat)
    requires y < 399
    ensures YearStart(y + 1) == YearStart(y) + YearLength(y)
  {
    assert (y + 1) / 4 == y / 4 + if (y + 1) % 4 == 0 then 1 else 0;
    assert (y + 1) / 100 == y / 100 + if (y + 1) % 100 == 0 then 1 else 0;
    assert y + 1 < 400 && (y + 1) % 100 == 0 ==> (y + 1) % 4 == 0 && (y + 1) % 400 != 0;
  }

  // In a year that begins in March, the month formula steps as the calendar does.
  lemma MonthsStep(year: nat, dayOfYear: nat, date: Date)
    requires dayOfYear < YearLength(year) && Triple(date) == FromMarch(year, dayOfYear)
    ensures ValidDate(date)
    ensures dayOfYear + 1 < YearLength(year) ==> Triple(NextDay(date)) == FromMarch(year, dayOfYear + 1)
    ensures dayOfYear + 1 == YearLength(year) ==> Triple(NextDay(date)) == FromMarch(year + 1, 0)
  {
    hide IsLeap;
  }

  lemma {:induction false} DateStands(days: nat) returns (year: nat, dayOfYear: nat)
    ensures Stands(days, year, dayOfYear) && Triple(DateAfter(days)) == FromMarch(year, dayOfYear)
  {
    hide NextDay, FromMarch, YearStart, IsLeap;
    if days == 0 {
      year, dayOfYear := 1969, 306;
      EpochStands();
    } else {
      year, dayOfYear := DateStands(days - 1);
      StandsNext(days - 1, year, dayOfYear);
      MonthsStep(year, dayOfYear, DateAfter(days - 1));
      if dayOfYear + 1 < YearLength(year) {
        dayOfYear := dayOfYear + 1;
      } else {
        year, dayOfYear := year + 1, 0;
      }
    }
  }

  lemma EpochStands()
    ensures Stands(0, 1969, 306) && Triple(EPOCH) == FromMarch(1969, 306)
  {}

  // For every day from the epoch on, the program's arithmetic gives the date the calendar
  // reaches one day at a time, with a valid month and day.
  lemma CivilIsTheCalendar(days: nat)
    ensures Civil(days) == Triple(DateAfter(days)) && ValidDate(DateAfter(days))
  {
    hide ValidDate, FromMarch, Civil;
    var year, dayOfYear := DateStands(days);
    CivilOf(days, year, dayOfYear);
    MonthsStep(year, dayOfYear, DateAfter(days));
  }

  // ---- The inverse -----------------------------------------------------------------------

  function MarchYear(date: Date): int {
    if date.month <= 2 then date.year - 1 else date.year
  }

  function MarchDay(date: Date): int {
    (153 * ((date.month + 9) % 12) + 2) / 5 + date.day - 1
  }

  function DayNumber(date: Date): int {
    var year := MarchYear(date);
    DAYS_PER_ERA * (year / 400) + YearStart(year % 400) + MarchDay(date) - 719_468
  }

  lemma MarchParts(year: nat, dayOfYear: nat, date: Date)
    requires dayOfYear < YearLength(year) && Triple(date) == FromMarch(year, dayOfYear)
    ensures MarchYear(date) == year && MarchDay(date) == dayOfYear
  {
    hide IsLeap;
    var index := MonthIndex(dayOfYear);
    assert 0 <= index < 12;
    assert (date.month + 9) % 12 == index;
  }

  lemma PartsOf(date: Date)
    requires ValidDate(date) && 0 <= MarchYear(date)
    ensures 0 <= MarchDay(date) < YearLength(MarchYear(date))
    ensures Triple(date) == FromMarch(MarchYear(date), MarchDay(date))
  {
    hide IsLeap;
    var index := (date.month + 9) % 12;
    assert index == if date.month <= 2 then date.month + 9 else date.month - 3;
    MonthIndexOf(index, date.day);
  }

  // Months counted from March begin where the formula puts them.
  lemma MonthIndexOf(index: nat, day: nat)
    requires index < 12 && 1 <= day <= if index in {1, 3, 6, 8} then 30 else if index == 11 then 29 else 31
    ensures MonthIndex((153 * index + 2) / 5 + day - 1) == index
  {}

  // Day number and date determine each other: the date of a day number gives the number
  // back, and every valid date whose number is not negative is the date of its number.
  lemma DateAndNumber(days: nat, date: Date)
    ensures DayNumber(DateAfter(days)) == days
    ensures ValidDate(date) && 1 <= date.year && 0 <= DayNumber(date) ==> Civil(DayNumber(date)) == Triple(date)
  {
    hide IsLeap, FromMarch, YearStart, ValidDate, Civil;
    var year, dayOfYear := DateStands(days);
    MarchParts(year, dayOfYear, DateAfter(days));
    if ValidDate(date) && 1 <= date.year && 0 <= DayNumber(date) {
      PartsOf(date);
      CivilOf(DayNumber(date), MarchYear(date), MarchDay(date));
    }
  }

  // No two days share a date.
  lemma DatesAreDistinct(a: nat, b: nat)
    ensures Civil(a) == Civil(b) ==> a == b
  {
    hide Civil, DayNumber;
    CivilIsTheCalendar(a);
    CivilIsTheCalendar(b);
    DateAndNumber(a, EPOCH);
    DateAndNumber(b, EPOCH);
  }
}
