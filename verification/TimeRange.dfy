// The absolute time range of the time filter, in UTC (TimeRangeFilter.tsx). Dates follow the Date
// arithmetic of ECMA-262, section 21.4.1.
module TimeRange {
  import opened Basics
  import opened Strings

  // ---------- days and years ----------

  const SECONDS_PER_DAY := 86400
  /** The latest and, negated, the earliest time a Date can hold, in seconds. */
  const MAX_SECONDS := 8_640_000_000_000

  function DayFromYear(y: int): int {
    365 * (y - 1970) + (y - 1969) / 4 - (y - 1901) / 100 + (y - 1601) / 400
  }

  predicate IsLeap(y: int) {
    y % 4 == 0 && (y % 100 != 0 || y % 400 == 0)
  }

  function DaysInYear(y: int): int {
    if IsLeap(y) then 366 else 365
  }

  lemma {:induction false} YearLength(y: int)
    ensures DayFromYear(y + 1) - DayFromYear(y) == DaysInYear(y)
  {
    LeapDays4(y);
    LeapDays100(y);
    LeapDays400(y);
    if y % 400 == 0 {
      FourHundreds(y);
    }
    if y % 100 == 0 {
      Hundreds(y);
    }
  }

  lemma {:induction false} LeapDays4(y: int)
    ensures (y + 1 - 1969) / 4 == (y - 1969) / 4 + if y % 4 == 0 then 1 else 0
  {
  }

  lemma {:induction false} LeapDays100(y: int)
    ensures (y + 1 - 1901) / 100 == (y - 1901) / 100 + if y % 100 == 0 then 1 else 0
  {
  }

  lemma {:induction false} LeapDays400(y: int)
    ensures (y + 1 - 1601) / 400 == (y - 1601) / 400 + if y % 400 == 0 then 1 else 0
  {
  }

  lemma {:induction false} FourHundreds(y: int)
    requires y % 400 == 0
    ensures y % 100 == 0
  {
    assert y == 100 * (4 * (y / 400));
  }

  lemma {:induction false} Hundreds(y: int)
    requires y % 100 == 0
    ensures y % 4 == 0
  {
    assert y == 4 * (25 * (y / 100));
  }

  /** The largest year that starts no later than `day`, searched for from `y`. */
  function YearFrom(day: int, y: int): (r: int)
    ensures DayFromYear(r) <= day < DayFromYear(r + 1)
    decreases if day < DayFromYear(y) then 1 else 0,
              if day < DayFromYear(y) then DayFromYear(y) - day else day - DayFromYear(y)
  {
    YearLength(y);
    YearLength(y - 1);
    if day < DayFromYear(y) then YearFrom(day, y - 1)
    else if day >= DayFromYear(y + 1) then YearFrom(day, y + 1)
    else y
  }

  function YearOfDay(day: int): int {
    YearFrom(day, 1970)
  }

  // ---------- months ----------

  /** The day of the year on which month `m` (from 0) starts. */
  function MonthStart(m: int, leap: bool): int
    requires 0 <= m <= 12
  {
    var shift := if leap then 1 else 0;
    match m
    case 0 => 0
    case 1 => 31
    case 2 => 59 + shift
    case 3 => 90 + shift
    case 4 => 120 + shift
    case 5 => 151 + shift
    case 6 => 181 + shift
    case 7 => 212 + shift
    case 8 => 243 + shift
    case 9 => 273 + shift
    case 10 => 304 + shift
    case 11 => 334 + shift
    case _ => 365 + shift
  }

  function MonthFrom(d: int, leap: bool, m: int): (r: int)
    requires 0 <= m <= 11 && MonthStart(m, leap) <= d < MonthStart(12, leap)
    ensures 0 <= r <= 11 && MonthStart(r, leap) <= d < MonthStart(r + 1, leap)
    decreases 12 - m
  {
    if d < MonthStart(m + 1, leap) then m else MonthFrom(d, leap, m + 1)
  }

  // ---------- civil dates ----------

  datatype Civil = Civil(year: int, month: int, date: int)

  function DayWithinYear(day: int): (d: int)
    ensures 0 <= d < MonthStart(12, IsLeap(YearOfDay(day)))
  {
    YearLength(YearOfDay(day));
    day - DayFromYear(YearOfDay(day))
  }

  function CivilOfDay(day: int): (c: Civil)
    ensures 0 <= c.month <= 11
    ensures 1 <= c.date <= MonthStart(c.month + 1, IsLeap(c.year)) - MonthStart(c.month, IsLeap(c.year))
  {
    var y, d := YearOfDay(day), DayWithinYear(day);
    var m := MonthFrom(d, IsLeap(y), 0);
    Civil(y, m, d - MonthStart(m, IsLeap(y)) + 1)
  }

  /** MakeDay: months outside 0..11 carry into the year, dates outside the month into the days. */
  function MakeDay(year: int, month: int, date: int): int {
    var y, m := year + month / 12, month % 12;
    DayFromYear(y) + MonthStart(m, IsLeap(y)) + date - 1
  }

  /** Splitting a day into a civil date loses nothing. */
  lemma {:induction false} CivilRoundTrip(day: int)
    ensures var c := CivilOfDay(day); MakeDay(c.year, c.month, c.date) == day
  {
    var c := CivilOfDay(day);
    assert c.month / 12 == 0 && c.month % 12 == c.month;
  }

  /** MakeFullYear: two-digit years mean the twentieth century. */
  function FullYear(y: int): int {
    if 0 <= y <= 99 then 1900 + y else y
  }

  // ---------- the picker ----------

  predicate ValidTime(t: int) {
    -MAX_SECONDS <= t <= MAX_SECONDS
  }

  /** A Date of the picker: invalid, or the calendar date it shows. */
  datatype PickedDate = InvalidDate | OnDate(date: Civil)

  /** `pickerDate` */
  function PickerDate(t: int): PickedDate {
    if !ValidTime(t) then InvalidDate
    else
      var c := CivilOfDay(t / SECONDS_PER_DAY);
      OnDate(Civil(FullYear(c.year), c.month, c.date))
  }

  function Digit(n: int): char
    requires 0 <= n <= 9
  {
    '0' + n as char
  }

  /** `String(n).padStart(2, '0')` */
  function Pad2(n: int): string
    requires 0 <= n <= 99
  {
    [Digit(n / 10), Digit(n % 10)]
  }

  /** `timeParts` */
  function TimeParts(t: int): string {
    if !ValidTime(t) then "NaN:NaN"
    else Pad2(t / 3600 % 24) + [':'] + Pad2(t / 60 % 60)
  }

  /** `Number(s)` for strings of digits; None stands for NaN. */
  function Number(s: string): Option<int> {
    if s == "" then Some(0)
    else
      var init, c := Number(s[..|s| - 1]), s[|s| - 1];
      if init.Some? && '0' <= c <= '9' then Some(10 * init.value + (c - '0') as int) else None
  }

  /** `Date.UTC` in seconds; None for an invalid date. */
  function UtcSeconds(date: Civil, hours: int, minutes: int): Option<int> {
    var t := MakeDay(FullYear(date.year), date.month, date.date) * SECONDS_PER_DAY + hours * 3600 + minutes * 60;
    if ValidTime(t) then Some(t) else None
  }

  /** `dateAndTimeToTimestamp`; None where the result is not finite. */
  function DateAndTimeToTimestamp(date: PickedDate, time: string): Option<int> {
    var parts := Split(time, ':');
    if date.InvalidDate? || |parts| < 2 then None
    else
      var hours, minutes := Number(parts[0]), Number(parts[1]);
      if hours.None? || minutes.None? then None else UtcSeconds(date.date, hours.value, minutes.value)
  }

  function Rebuilt(t: int): Option<int> {
    DateAndTimeToTimestamp(PickerDate(t), TimeParts(t))
  }

  function FloorToMinute(t: int): int {
    t - t % 60
  }

  lemma {:induction false} Pad2IsNumber(n: int)
    requires 0 <= n <= 99
    ensures Number(Pad2(n)) == Some(n) && ':' !in Pad2(n)
  {
    var s := Pad2(n);
    assert s[..1] == [Digit(n / 10)];
    assert s[..1][..0] == "";
    assert Number(s[..1]) == Some(n / 10);
  }

  lemma {:induction false} TimePartsParse(t: int)
    requires ValidTime(t)
    ensures var parts := Split(TimeParts(t), ':');
            |parts| == 2 && Number(parts[0]) == Some(t / 3600 % 24) && Number(parts[1]) == Some(t / 60 % 60)
  {
    var h, m := t / 3600 % 24, t / 60 % 60;
    Pad2IsNumber(h);
    Pad2IsNumber(m);
    SplitFirst(Pad2(h), Pad2(m), ':');
    SplitToken(Pad2(m), ':');
  }

  lemma {:induction false} TimeOfDay(t: int)
    ensures t / SECONDS_PER_DAY * SECONDS_PER_DAY + t / 3600 % 24 * 3600 + t / 60 % 60 * 60 == FloorToMinute(t)
  {
    var minutes := t / 60;
    var hours := minutes / 60;
    var days := hours / 24;
    assert t == 60 * minutes + t % 60;
    assert t / 3600 == hours;
    assert t / SECONDS_PER_DAY == days;
    assert hours % 24 == hours - 24 * days;
    assert minutes % 60 == minutes - 60 * hours;
  }

  /** The years that a Date takes for years of the twentieth century. */
  predicate TwoDigitYear(t: int) {
    0 <= CivilOfDay(t / SECONDS_PER_DAY).year <= 99
  }

  /** Within the range of dates, splitting a timestamp for the picker and building it again gives the
      timestamp rounded down to the minute, if and only if its year is not one of 0 to 99. */
  lemma {:induction false} RebuiltIffFourDigitYear(t: int)
    requires ValidTime(t)
    ensures Rebuilt(t).Some?
    ensures Rebuilt(t) == Some(FloorToMinute(t)) <==> !TwoDigitYear(t)
  {
    assert TwoDigitYear(t) <==> 0 <= CivilOfDay(t / SECONDS_PER_DAY).year <= 99;
    hide *;
    SplitParts(t / SECONDS_PER_DAY);
    TimeOfDay(t);
    FloorIsValid(t);
    RebuiltParts(t);
    CenturyOrSame(CivilOfDay(t / SECONDS_PER_DAY), t / SECONDS_PER_DAY, t / 3600 % 24, t / 60 % 60, FloorToMinute(t));
  }

  lemma {:induction false} SplitParts(day: int)
    ensures var c := CivilOfDay(day); MakeDay(c.year, c.month, c.date) == day && 0 <= c.month <= 11 && 1 <= c.date <= 31
  {
    CivilRoundTrip(day);
    MonthLength(CivilOfDay(day));
    hide MakeDay;
  }

  lemma {:induction false} RebuiltParts(t: int)
    requires ValidTime(t)
    ensures var c := CivilOfDay(t / SECONDS_PER_DAY);
            Rebuilt(t) == UtcSeconds(Civil(FullYear(c.year), c.month, c.date), t / 3600 % 24, t / 60 % 60)
  {
    hide CivilOfDay, TimeParts, Number, Split, UtcSeconds;
    TimePartsParse(t);
  }

  lemma {:induction false} CenturyOrSame(c: Civil, day: int, hours: int, minutes: int, t: int)
    requires MakeDay(c.year, c.month, c.date) == day
    requires day * SECONDS_PER_DAY + hours * 3600 + minutes * 60 == t && ValidTime(t)
    requires 0 <= c.month <= 11 && 1 <= c.date <= 31 && 0 <= hours < 24 && 0 <= minutes < 60
    ensures UtcSeconds(Civil(FullYear(c.year), c.month, c.date), hours, minutes).Some?
    ensures UtcSeconds(Civil(FullYear(c.year), c.month, c.date), hours, minutes) == Some(t)
            <==> !(0 <= c.year <= 99)
  {
    hide MakeDay;
    if 0 <= c.year <= 99 {
      CenturiesApart(c);
      var day' := MakeDay(c.year + 1900, c.month, c.date);
      assert FullYear(FullYear(c.year)) == c.year + 1900;
      SecondsAscend(day, day', hours * 3600 + minutes * 60);
    } else {
      assert FullYear(FullYear(c.year)) == c.year;
    }
  }

  lemma {:induction false} SecondsAscend(day: int, day': int, seconds: int)
    requires day < day' && -26000 < day' < 11000 && 0 <= seconds < SECONDS_PER_DAY
    ensures day * SECONDS_PER_DAY + seconds < day' * SECONDS_PER_DAY + seconds
    ensures ValidTime(day' * SECONDS_PER_DAY + seconds)
  {
  }

  lemma {:induction false} MonthLength(c: Civil)
    requires 0 <= c.month <= 11
    requires c.date <= MonthStart(c.month + 1, IsLeap(c.year)) - MonthStart(c.month, IsLeap(c.year))
    ensures c.date <= 31
  {
  }

  lemma {:induction false} FloorIsValid(t: int)
    requires ValidTime(t)
    ensures ValidTime(FloorToMinute(t))
  {
    assert MAX_SECONDS == 144_000_000_000 * 60;
  }

  lemma {:induction false} CenturiesApart(c: Civil)
    requires 0 <= c.year <= 99 && 0 <= c.month <= 11 && 1 <= c.date <= 31
    ensures MakeDay(c.year + 1900, c.month, c.date) > MakeDay(c.year, c.month, c.date)
    ensures -26000 < MakeDay(c.year + 1900, c.month, c.date) < 11000
  {
    hide *;
    PlainDay(c.year, c.month, c.date);
    PlainDay(c.year + 1900, c.month, c.date);
    YearsApart(c.year);
    MonthBounds(c.month, IsLeap(c.year));
    MonthBounds(c.month, IsLeap(c.year + 1900));
  }

  lemma {:induction false} PlainDay(y: int, m: int, date: int)
    requires 0 <= m <= 11
    ensures MakeDay(y, m, date) == DayFromYear(y) + MonthStart(m, IsLeap(y)) + date - 1
  {
    assert m / 12 == 0 && m % 12 == m;
    hide DayFromYear, MonthStart, IsLeap;
  }

  lemma {:induction false} YearsApart(y: int)
    requires 0 <= y <= 99
    ensures DayFromYear(y) + 365 < DayFromYear(y + 1900)
    ensures -25_600 < DayFromYear(y + 1900) < 10_600
  {
  }

  lemma {:induction false} MonthBounds(m: int, leap: bool)
    requires 0 <= m <= 11
    ensures 0 <= MonthStart(m, leap) <= 335
  {
  }

  /** The epoch and everything after it is rebuilt to the minute. */
  lemma {:induction false} RebuiltSinceEpoch(t: int)
    requires 0 <= t <= MAX_SECONDS
    ensures Rebuilt(t) == Some(FloorToMinute(t))
  {
    var y := YearOfDay(t / SECONDS_PER_DAY);
    if y < 1970 {
      YearsAscend(y + 1, 1970);
    }
    RebuiltIffFourDigitYear(t);
  }

  lemma {:induction false} YearsAscend(y: int, y': int)
    requires y <= y'
    ensures DayFromYear(y) <= DayFromYear(y')
    decreases y' - y
  {
    if y < y' {
      YearLength(y);
      YearsAscend(y + 1, y');
    }
  }

  /** The picker shows a year of 0 to 99 as one of the twentieth century, and takes it for one. */
  lemma {:induction false} TwoDigitYearsShift(t: int, c: Civil, hours: int, minutes: int)
    requires ValidTime(t)
    ensures var split := CivilOfDay(t / SECONDS_PER_DAY);
            PickerDate(t) == OnDate(if TwoDigitYear(t) then split.(year := split.year + 1900) else split)
    ensures 0 <= c.year <= 99 ==> UtcSeconds(c, hours, minutes) == UtcSeconds(c.(year := c.year + 1900), hours, minutes)
  {
    hide CivilOfDay, MakeDay;
  }

  lemma {:induction false} YearIsUnique(day: int, y: int)
    requires DayFromYear(y) <= day < DayFromYear(y + 1)
    ensures YearOfDay(day) == y
  {
    var r := YearOfDay(day);
    if r < y {
      YearsAscend(r + 1, y);
    } else if y < r {
      YearsAscend(y + 1, r);
    }
  }

  lemma {:induction false} MonthIsUnique(d: int, leap: bool, from: int, m: int)
    requires 0 <= from <= m <= 11 && MonthStart(m, leap) <= d < MonthStart(m + 1, leap)
    requires MonthStart(from, leap) <= d < MonthStart(12, leap)
    ensures MonthFrom(d, leap, from) == m
    decreases m - from
  {
    if from < m {
      MonthIsUnique(d, leap, from + 1, m);
    }
  }

  /** The Gregorian calendar: thirty days has September. */
  function DaysInMonth(year: int, month: int): int {
    if month == 1 then if year % 4 == 0 && (year % 100 != 0 || year % 400 == 0) then 29 else 28
    else if month == 3 || month == 5 || month == 8 || month == 10 then 30
    else 31
  }

  lemma {:induction false} MonthLasts(year: int, month: int)
    requires 0 <= month <= 11
    ensures MonthStart(month + 1, IsLeap(year)) == MonthStart(month, IsLeap(year)) + DaysInMonth(year, month)
  {
  }

  lemma {:induction false} MonthsAscend(m: int, leap: bool)
    requires 0 <= m <= 12
    ensures 0 <= MonthStart(m, leap) <= MonthStart(12, leap)
    ensures MonthStart(0, leap) == 0
  {
  }

  lemma {:induction false} YearLasts(year: int)
    ensures MonthStart(12, IsLeap(year)) == DaysInYear(year)
  {
  }

  /** A date of the calendar is what its day is split into. */
  lemma {:induction false} DateOfDay(c: Civil, day: int)
    requires 0 <= c.month <= 11 && 1 <= c.date <= DaysInMonth(c.year, c.month)
    requires day == DayFromYear(c.year) + MonthStart(c.month, IsLeap(c.year)) + c.date - 1
    ensures CivilOfDay(day) == c
  {
    hide MonthStart, DayFromYear, IsLeap, DaysInMonth, DaysInYear, YearOfDay, MonthFrom;
    MonthLasts(c.year, c.month);
    YearLength(c.year);
    YearLasts(c.year);
    MonthsAscend(c.month, IsLeap(c.year));
    MonthsAscend(c.month + 1, IsLeap(c.year));
    YearIsUnique(day, c.year);
    MonthIsUnique(day - DayFromYear(c.year), IsLeap(c.year), 0, c.month);
  }

  function NextDate(c: Civil): Civil {
    if c.date < DaysInMonth(c.year, c.month) then c.(date := c.date + 1)
    else if c.month < 11 then Civil(c.year, c.month + 1, 1)
    else Civil(c.year + 1, 0, 1)
  }

  /** Splitting days walks through the calendar: day 0 is the first of January 1970, and each day has
      the date after that of the day before. */
  lemma {:induction false} CalendarAdvances(day: int)
    ensures CivilOfDay(0) == Civil(1970, 0, 1)
    ensures CivilOfDay(day + 1) == NextDate(CivilOfDay(day))
  {
    hide *;
    DayZero();
    DateIsValid(day);
    NextDay(CivilOfDay(day), day);
  }

  lemma {:induction false} DayZero()
    ensures CivilOfDay(0) == Civil(1970, 0, 1)
  {
    DateOfDay(Civil(1970, 0, 1), 0);
    hide CivilOfDay;
  }

  lemma {:induction false} DateIsValid(day: int)
    ensures var c := CivilOfDay(day);
            && 0 <= c.month <= 11 && 1 <= c.date <= DaysInMonth(c.year, c.month)
            && day == DayFromYear(c.year) + MonthStart(c.month, IsLeap(c.year)) + c.date - 1
  {
    hide *;
    var c := CivilOfDay(day);
    CivilRoundTrip(day);
    PlainDay(c.year, c.month, c.date);
    MonthLasts(c.year, c.month);
  }

  lemma {:induction false} MonthNotEmpty(year: int, month: int)
    ensures DaysInMonth(year, month) >= 28
  {
  }

  lemma {:induction false} NextDay(c: Civil, day: int)
    requires 0 <= c.month <= 11 && 1 <= c.date <= DaysInMonth(c.year, c.month)
    requires day == DayFromYear(c.year) + MonthStart(c.month, IsLeap(c.year)) + c.date - 1
    ensures CivilOfDay(day + 1) == NextDate(c)
  {
    hide MonthStart, DayFromYear, IsLeap, DaysInMonth, DaysInYear, CivilOfDay;
    MonthLasts(c.year, c.month);
    YearLength(c.year);
    MonthsAscend(0, IsLeap(c.year + 1));
    YearLasts(c.year);
    MonthNotEmpty(c.year, c.month + 1);
    MonthNotEmpty(c.year + 1, 0);
    DateOfDay(NextDate(c), day + 1);
  }

  /** The first day of the year 50 is rebuilt as the first day of 1950. */
  lemma {:induction false} YearFiftyIsNotRebuilt()
    ensures var t := -60_589_296_000;
            ValidTime(t) && Rebuilt(t) == Some(-631_152_000) && Rebuilt(t) != Some(FloorToMinute(t))
  {
    var t := -60_589_296_000;
    assert t == -701_265 * SECONDS_PER_DAY;
    assert t / SECONDS_PER_DAY == -701_265 && t / 3600 % 24 == 0 && t / 60 % 60 == 0;
    DateOfDay(Civil(50, 0, 1), -701_265);
    hide CivilOfDay, Rebuilt;
    RebuiltParts(t);
    assert MakeDay(1950, 0, 1) == -7305;
  }

  // ---------- the order check ----------

  datatype RangeError = InvalidTimes | StartAfterEnd

  datatype Applied = NotApplied | Applied(start: int, end: int)

  /** What becomes of two ends, None where an end is not finite. */
  function Checked(start: Option<int>, end: Option<int>): Result<Applied, RangeError> {
    if start.None? || end.None? then Err(InvalidTimes)
    else if start.value > end.value then Err(StartAfterEnd)
    else Ok(Applied(start.value, end.value))
  }

  /** A valid time outside the years 0 to 99. */
  ghost predicate Dated(t: int) {
    ValidTime(t) && !TwoDigitYear(t)
  }

  /** A range that is reopened and applied unedited is refused as invalid exactly when one of its ends is
      no valid time. Outside the years 0 to 99 it is else accepted, rounded down to minutes, exactly when
      its ends are in order once rounded; so it is whenever start <= end. */
  lemma {:induction false} UneditedRange(start: int, end: int)
    ensures Checked(Rebuilt(start), Rebuilt(end)) == Err(InvalidTimes) <==> !(ValidTime(start) && ValidTime(end))
    ensures Dated(start) && Dated(end) ==>
              Checked(Rebuilt(start), Rebuilt(end))
              == if FloorToMinute(start) <= FloorToMinute(end) then Ok(Applied(FloorToMinute(start), FloorToMinute(end)))
                 else Err(StartAfterEnd)
    ensures Dated(start) && Dated(end) && start <= end ==> Checked(Rebuilt(start), Rebuilt(end)).Ok?
  {
    hide Rebuilt, ValidTime, TwoDigitYear, FloorToMinute;
    RebuiltEnd(start);
    RebuiltEnd(end);
    FloorIsMonotone(start, end);
  }

  lemma {:induction false} RebuiltEnd(t: int)
    ensures Rebuilt(t).Some? <==> ValidTime(t)
    ensures Dated(t) ==> Rebuilt(t) == Some(FloorToMinute(t))
  {
    if ValidTime(t) {
      RebuiltIffFourDigitYear(t);
    }
  }

  lemma {:induction false} FloorIsMonotone(a: int, b: int)
    ensures a <= b ==> FloorToMinute(a) <= FloorToMinute(b)
  {
    assert FloorToMinute(a) == a / 60 * 60 && FloorToMinute(b) == b / 60 * 60;
  }

  /** The state of the component that concerns the absolute range. */
  class TimeRangeFilter {
    /** The range in force, from the page: missing and zero both mean none. */
    const startTimestamp: Option<int>
    const endTimestamp: Option<int>
    /** Missing until the picker is opened. */
    var absoluteStart: Option<PickedDate>
    var absoluteEnd: Option<PickedDate>
    var startTime: string
    var endTime: string
    var error: Option<RangeError>
    var lastApplied: Applied

    constructor (start: Option<int>, end: Option<int>)
      ensures startTimestamp == start && endTimestamp == end
      ensures lastApplied == NotApplied
    {
      startTimestamp, endTimestamp := start, end;
      absoluteStart, absoluteEnd := None, None;
      startTime, endTime := "00:00", "23:59";
      error, lastApplied := None, NotApplied;
    }

    predicate InForce() {
      startTimestamp.GetOr(0) != 0 && endTimestamp.GetOr(0) != 0
    }

    /** `openAbsolutePicker`; `today` is the current date. */
    method OpenAbsolutePicker(today: Civil)
      modifies this
      ensures error == None && lastApplied == old(lastApplied)
      ensures startTimestamp.Some? && startTimestamp.value != 0 && endTimestamp.Some? && endTimestamp.value != 0 ==>
                && absoluteStart == Some(PickerDate(startTimestamp.value)) && startTime == TimeParts(startTimestamp.value)
                && absoluteEnd == Some(PickerDate(endTimestamp.value)) && endTime == TimeParts(endTimestamp.value)
      ensures startTimestamp.None? || startTimestamp.value == 0 || endTimestamp.None? || endTimestamp.value == 0 ==>
                && absoluteStart == absoluteEnd == Some(OnDate(today))
                && startTime == old(startTime) && endTime == old(endTime)
    {
      error := None;
      if startTimestamp.GetOr(0) != 0 && endTimestamp.GetOr(0) != 0 {
        absoluteStart, absoluteEnd := Some(PickerDate(startTimestamp.value)), Some(PickerDate(endTimestamp.value));
        startTime, endTime := TimeParts(startTimestamp.value), TimeParts(endTimestamp.value);
      } else {
        absoluteStart, absoluteEnd := Some(OnDate(today)), Some(OnDate(today));
      }
    }

    /** `applyAbsoluteRange`: a missing date is passed over, all else is accepted or reported. */
    method ApplyAbsoluteRange()
      modifies `error, `lastApplied
      ensures absoluteStart.None? || absoluteEnd.None? ==> error == old(error) && lastApplied == old(lastApplied)
      ensures absoluteStart.Some? && absoluteEnd.Some? ==>
                match Checked(
                  DateAndTimeToTimestamp(absoluteStart.value, startTime), DateAndTimeToTimestamp(absoluteEnd.value, endTime))
                case Ok(range) => error == None && lastApplied == range
                case Err(e) => error == Some(e) && lastApplied == old(lastApplied)
    {
      if absoluteStart.None? || absoluteEnd.None? {
        return;
      }
      var start := DateAndTimeToTimestamp(absoluteStart.value, startTime);
      var end := DateAndTimeToTimestamp(absoluteEnd.value, endTime);
      if start.None? || end.None? {
        error := Some(InvalidTimes);
        return;
      }
      if start.value > end.value {
        error := Some(StartAfterEnd);
        return;
      }
      error := None;
      lastApplied := Applied(start.value, end.value);
    }

    /** Reopening a range in force and applying it unedited; see UneditedRange. */
    method ReopenAndApply(today: Civil)
      modifies this
      ensures InForce() ==>
                match Checked(Rebuilt(startTimestamp.value), Rebuilt(endTimestamp.value))
                case Ok(range) => error == None && lastApplied == range
                case Err(e) => error == Some(e) && lastApplied == old(lastApplied)
    {
      hide DateAndTimeToTimestamp, TimeParts, PickerDate;
      OpenAbsolutePicker(today);
      ApplyAbsoluteRange();
    }
  }
}
