/** Calendar dates of Unix timestamps (src/commands/doctor.rs). */
module CivilDate {
  import opened Basics
  import opened Decimal

  datatype Date = Date(year: int, month: nat, day: nat)

  datatype Stamp = Stamp(date: Date, hour: nat, minute: nat, second: nat)

  // ----- the calendar, from its rules (RFC 3339, section 5.7 and Appendix C) -----

  predicate Leap(y: int) { y % 4 == 0 && (y % 100 != 0 || y % 400 == 0) }

  function DaysInMonth(y: int, m: nat): nat
  {
    if m == 2 then if Leap(y) then 29 else 28
    else if m == 4 || m == 6 || m == 9 || m == 11 then 30
    else 31
  }

  predicate ValidDate(d: Date) { 1 <= d.month <= 12 && 1 <= d.day <= DaysInMonth(d.year, d.month) }

  function NextDay(d: Date): Date
  {
    if d.day < DaysInMonth(d.year, d.month) then d.(day := d.day + 1)
    else if d.month < 12 then Date(d.year, d.month + 1, 1)
    else Date(d.year + 1, 1, 1)
  }

  const EPOCH := Date(1970, 1, 1)

  /** Counting days one by one from the epoch. */
  function Calendar(days: nat): Date { if days == 0 then EPOCH else NextDay(Calendar(days - 1)) }

  // ----- the arithmetic of the code -----

  /** Year of era from day of era: the approximate quotient, corrected for leap years. */
  function YearOfEra(doe: nat): nat
    requires doe < 146_097
  {
    (doe - doe / 1460 + doe / 36_524 - doe / 146_096) / 365
  }

  /** Days before year `yoe` of an era whose years start in March. */
  function DaysBefore(yoe: nat): nat { 365 * yoe + yoe / 4 - yoe / 100 }

  function MonthIndex(doy: nat): nat { (5 * doy + 2) / 153 }

  function DayOfMonth(doy: nat): int { doy - (153 * MonthIndex(doy) + 2) / 5 + 1 }

  function MonthOf(mp: nat): nat { if mp < 10 then mp + 3 else mp - 9 }

  /**
   The date of a day number; no unsigned subtraction on the way goes below zero. Day numbers are never negative, so the
   era is the plain quotient.
   */
  function DateOfDay(days: nat): Date
  {
    var z := days + 719_468;
    var era := z / 146_097;
    var doe: nat := z - era * 146_097;
    var yoe := YearOfEra(doe);
    YearFits(doe);
    var doy: nat := doe - DaysBefore(yoe);
    var mp := MonthIndex(doy);
    MonthFits(doy);
    var d: nat := DayOfMonth(doy);
    var m := MonthOf(mp);
    var yAnchor := yoe + era * 400;
    Date(if m <= 2 then yAnchor + 1 else yAnchor, m, d)
  }

  /** Whether the March-based year `yoe` of an era ends with a leap day. */
  predicate EndsLeap(yoe: nat) { (yoe + 1) % 4 == 0 && ((yoe + 1) % 100 != 0 || yoe == 399) }

  function YearLength(yoe: nat): nat { if EndsLeap(yoe) then 366 else 365 }

  /** The quotient hits the right year: the day lies between its first and its last. */
  lemma YearFits(doe: nat)
    requires doe < 146_097
    ensures YearOfEra(doe) < 400
    ensures DaysBefore(YearOfEra(doe)) <= doe < DaysBefore(YearOfEra(doe)) + YearLength(YearOfEra(doe))
  {
    var century := if doe == 146_096 then 3 else doe / 36_524;
    var doc := doe - 36_524 * century;
    assert 0 <= century <= 3 && 0 <= doc <= 36_524;
    QuotientWithinCentury(century, doc);
    YearOfCenturyFits(century, doc);
    CenturyDays(century, YearOfCentury(century, doc));
  }

  /** Days before, and the leap rule, within a century of the era. */
  lemma CenturyDays(century: nat, g: int)
    requires century <= 3 && 0 <= g <= 99
    ensures DaysBefore(100 * century + g) == 36_524 * century + 365 * g + g / 4
    ensures YearLength(100 * century + g) ==
            365 + (g + 1) / 4 - g / 4 - (if g == 99 && century < 3 then 1 else 0)
  {
    var yoe := 100 * century + g;
    assert yoe / 4 == 25 * century + g / 4 && yoe / 100 == century;
    if century == 0 {} else if century == 1 {} else if century == 2 {} else {
      assert century == 3;
    }
  }

  /** The year of a century that day `doc` of century `century` falls in, as the corrected quotient gives it. */
  function YearOfCentury(century: nat, doc: nat): int { (doc - (24 * century + doc) / 1460) / 365 }

  lemma QuotientWithinCentury(century: nat, doc: nat)
    requires century <= 3 && (if century == 3 then doc <= 36_524 else doc < 36_524)
    ensures YearOfEra(36_524 * century + doc) == 100 * century + YearOfCentury(century, doc)
  {
    var doe := 36_524 * century + doc;
    assert doe / 1460 == 25 * century + (24 * century + doc) / 1460;
    if doe == 146_096 {
    } else {
      assert doe / 36_524 == century && doe / 146_096 == 0;
    }
    var rest := doc - (24 * century + doc) / 1460;
    assert doe - doe / 1460 + doe / 36_524 - doe / 146_096 == 36_500 * century + rest;
    assert (36_500 * century + rest) / 365 == 100 * century + rest / 365;
  }

  /** Within a century every fourth year is one day longer; `q` and `g / 4` count those days alike. */
  lemma YearOfCenturyFits(century: nat, doc: nat)
    requires century <= 3 && (if century == 3 then doc <= 36_524 else doc < 36_524)
    ensures var g := YearOfCentury(century, doc);
            && 0 <= g <= 99
            && 365 * g + g / 4 <= doc
            && doc < 365 * (g + 1) + (g + 1) / 4 - (if g == 99 && century < 3 then 1 else 0)
  {
    var q := (24 * century + doc) / 1460;
    var g := YearOfCentury(century, doc);
    assert 0 <= q <= 25;
    assert 1460 * q <= 24 * century + doc < 1460 * q + 1460;
    assert 365 * g <= doc - q < 365 * g + 365;
    var h, h1 := g / 4, (g + 1) / 4;
    assert 4 * h <= g < 4 * h + 4 && 4 * h1 <= g + 1 < 4 * h1 + 4;
    assert h <= q <= h1;
  }

  lemma MonthFits(doy: nat)
    requires doy < 366
    ensures MonthIndex(doy) < 12
    ensures 1 <= DayOfMonth(doy) <= 31
  {
  }

  // ----- the arithmetic counts days -----

  /** A day number as era, year of era and day of year. */
  ghost predicate Located(days: nat, era: nat, yoe: nat, doy: nat)
  {
    yoe < 400 && doy < YearLength(yoe) && days + 719_468 == 146_097 * era + DaysBefore(yoe) + doy
  }

  lemma LastYearEndsTheEra(yoe: nat)
    requires yoe < 400
    ensures DaysBefore(yoe) + YearLength(yoe) <= 146_097
    ensures yoe == 399 ==> DaysBefore(yoe) + YearLength(yoe) == 146_097
    ensures yoe < 399 ==> DaysBefore(yoe) + YearLength(yoe) == DaysBefore(yoe + 1)
  {
  }

  lemma {:induction false} YearsAdjoin(a: nat, b: nat)
    requires a < b < 400
    ensures DaysBefore(a) + YearLength(a) <= DaysBefore(b)
    decreases b
  {
    LastYearEndsTheEra(b - 1);
    if a < b - 1 {
      YearsAdjoin(a, b - 1);
    }
  }

  /** The code's arithmetic finds the one location of a day. */
  lemma LocationIsUnique(days: nat, era: nat, yoe: nat, doy: nat)
    requires Located(days, era, yoe, doy)
    ensures var doe := days + 719_468 - 146_097 * era;
            && 0 <= doe < 146_097 && (days + 719_468) / 146_097 == era
            && YearOfEra(doe) == yoe && doe - DaysBefore(yoe) == doy
  {
    LastYearEndsTheEra(yoe);
    var doe: nat := days + 719_468 - 146_097 * era;
    YearFits(doe);
    var found := YearOfEra(doe);
    if found < yoe {
      YearsAdjoin(found, yoe);
    } else if yoe < found {
      YearsAdjoin(yoe, found);
    }
  }

  function DateAt(era: nat, yoe: nat, doy: nat): Date
    requires doy < 366
  {
    MonthFits(doy);
    var m := MonthOf(MonthIndex(doy));
    Date(if m <= 2 then yoe + era * 400 + 1 else yoe + era * 400, m, DayOfMonth(doy))
  }

  lemma DateOfLocation(days: nat, era: nat, yoe: nat, doy: nat)
    requires Located(days, era, yoe, doy)
    ensures DateOfDay(days) == DateAt(era, yoe, doy)
  {
    LocationIsUnique(days, era, yoe, doy);
  }

  lemma EveryDayIsLocated(days: nat) returns (era: nat, yoe: nat, doy: nat)
    ensures Located(days, era, yoe, doy)
  {
    era := (days + 719_468) / 146_097;
    var doe := days + 719_468 - 146_097 * era;
    YearFits(doe);
    yoe := YearOfEra(doe);
    doy := doe - DaysBefore(yoe);
  }

  lemma LeapYearOfEra(era: nat, yoe: nat)
    requires yoe < 400
    ensures Leap(yoe + era * 400 + 1) <==> EndsLeap(yoe)
  {
    Multiple4(yoe + 1, 100 * era);
    Multiple100(yoe + 1, 4 * era);
    Multiple400(yoe + 1, era);
  }

  lemma Multiple4(x: nat, k: nat)
    ensures (x + 4 * k) % 4 == x % 4
  {
  }

  lemma Multiple100(x: nat, k: nat)
    ensures (x + 100 * k) % 100 == x % 100
  {
  }

  lemma Multiple400(x: nat, k: nat)
    ensures (x + 400 * k) % 400 == x % 400
  {
  }

  /** The length of March-based month `mp`. */
  function MonthLength(mp: nat, leap: bool): nat
  {
    if mp == 11 then if leap then 29 else 28
    else if mp == 1 || mp == 3 || mp == 6 || mp == 8 then 30
    else 31
  }

  lemma MonthStep(doy: nat)
    requires doy < 366
    ensures MonthIndex(doy) < 11 ==> DayOfMonth(doy) <= MonthLength(MonthIndex(doy), true)
    ensures MonthIndex(doy) < 11 && DayOfMonth(doy) < MonthLength(MonthIndex(doy), true) ==>
              MonthIndex(doy + 1) == MonthIndex(doy) && DayOfMonth(doy + 1) == DayOfMonth(doy) + 1
    ensures MonthIndex(doy) < 11 && DayOfMonth(doy) == MonthLength(MonthIndex(doy), true) ==>
              MonthIndex(doy + 1) == MonthIndex(doy) + 1 && DayOfMonth(doy + 1) == 1
    ensures MonthIndex(doy) == 11 ==> DayOfMonth(doy) == doy - 336
    ensures MonthIndex(doy) == 11 && doy < 365 ==> MonthIndex(doy + 1) == 11
  {
    var mp := MonthIndex(doy);
    MonthFits(doy);
    assert 153 * mp <= 5 * doy + 2 < 153 * mp + 153;
    if mp == 0 {} else if mp == 1 {} else if mp == 2 {} else if mp == 3 {} else if mp == 4 {} else if mp == 5 {}
    else if mp == 6 {} else if mp == 7 {} else if mp == 8 {} else if mp == 9 {} else if mp == 10 {} else {
      assert mp == 11;
    }
  }

  lemma MonthsAgree(era: nat, yoe: nat, doy: nat)
    requires yoe < 400 && doy < YearLength(yoe)
    ensures var d := DateAt(era, yoe, doy);
            DaysInMonth(d.year, d.month) == MonthLength(MonthIndex(doy), EndsLeap(yoe))
  {
    MonthFits(doy);
    LeapYearOfEra(era, yoe);
  }

  /** The day after, at every kind of boundary: within a month, between months, years and eras. */
  lemma NextLocation(era: nat, yoe: nat, doy: nat)
    requires yoe < 400 && doy < YearLength(yoe)
    ensures ValidDate(DateAt(era, yoe, doy))
    ensures NextDay(DateAt(era, yoe, doy)) ==
            if doy + 1 < YearLength(yoe) then DateAt(era, yoe, doy + 1)
            else if yoe < 399 then DateAt(era, yoe + 1, 0)
            else DateAt(era + 1, 0, 0)
  {
    MonthsAgree(era, yoe, doy);
    MonthStep(doy);
    MonthFits(doy);
  }

  lemma {:induction false} DayStep(days: nat)
    ensures ValidDate(DateOfDay(days)) && DateOfDay(days + 1) == NextDay(DateOfDay(days))
  {
    var era, yoe, doy := EveryDayIsLocated(days);
    DateOfLocation(days, era, yoe, doy);
    NextLocation(era, yoe, doy);
    LastYearEndsTheEra(yoe);
    if doy + 1 < YearLength(yoe) {
      DateOfLocation(days + 1, era, yoe, doy + 1);
    } else if yoe < 399 {
      DateOfLocation(days + 1, era, yoe + 1, 0);
    } else {
      DateOfLocation(days + 1, era + 1, 0, 0);
    }
  }

  lemma DayZero()
    ensures DateOfDay(0) == EPOCH
  {
    assert Located(0, 4, 369, 306);
    DateOfLocation(0, 4, 369, 306);
  }

  predicate Earlier(a: Date, b: Date)
  {
    a.year < b.year || (a.year == b.year && (a.month < b.month || (a.month == b.month && a.day < b.day)))
  }

  /** Any numbering that starts at the epoch and steps by calendar days is the calendar, and it increases. */
  lemma {:induction false} SteppingIsCalendar(f: nat -> Date, n: nat)
    requires f(0) == EPOCH && forall k: nat :: f(k + 1) == NextDay(f(k))
    ensures f(n) == Calendar(n)
  {
    if n > 0 {
      SteppingIsCalendar(f, n - 1);
      assert f(n - 1 + 1) == NextDay(f(n - 1));
    }
  }

  lemma {:induction false} SteppingIncreases(f: nat -> Date, m: nat, n: nat)
    requires forall k: nat :: f(k + 1) == NextDay(f(k)) && ValidDate(f(k))
    requires m < n
    ensures Earlier(f(m), f(n))
    decreases n
  {
    assert f(n - 1 + 1) == NextDay(f(n - 1)) && ValidDate(f(n - 1));
    if m < n - 1 {
      SteppingIncreases(f, m, n - 1);
    }
  }

  /** For every day number the arithmetic gives the date that counting days on the calendar gives. */
  lemma {:induction false} DateOfDayIsCalendar(days: nat)
    ensures DateOfDay(days) == Calendar(days) && ValidDate(Calendar(days))
  {
    var f := (k: nat) => DateOfDay(k);
    forall k: nat ensures f(k + 1) == NextDay(f(k)) {
      DayStep(k);
    }
    DayZero();
    DayStep(days);
    SteppingIsCalendar(f, days);
  }

  /** Later days have later dates, so no two days share one. */
  lemma {:induction false} DatesIncrease(m: nat, n: nat)
    requires m < n
    ensures Earlier(DateOfDay(m), DateOfDay(n))
  {
    var f := (k: nat) => DateOfDay(k);
    forall k: nat ensures f(k + 1) == NextDay(f(k)) && ValidDate(f(k)) {
      DayStep(k);
    }
    SteppingIncreases(f, m, n);
  }

  /** Days from civil: the day number of a date, by the inverse arithmetic. */
  function DayNumber(d: Date): int
  {
    var y := if d.month <= 2 then d.year - 1 else d.year;
    var mp := if d.month > 2 then d.month - 3 else d.month + 9;
    var era := y / 400;
    era * 146_097 + DaysBefore(y - era * 400) + (153 * mp + 2) / 5 + d.day - 1 - 719_468
  }

  lemma {:induction false} DayNumberOfDate(days: nat)
    ensures DayNumber(DateOfDay(days)) == days
  {
    var era, yoe, doy := EveryDayIsLocated(days);
    DateOfLocation(days, era, yoe, doy);
    MonthFits(doy);
    assert (yoe + era * 400) / 400 == era;
  }

  /** The parts the inverse arithmetic uses: the year that starts in March, its era, and the months since March. */
  function MarchYear(d: Date): int { if d.month <= 2 then d.year - 1 else d.year }

  function MonthsSinceMarch(d: Date): int { if d.month > 2 then d.month - 3 else d.month + 9 }

  function DayOfMarchYear(d: Date): int { (153 * MonthsSinceMarch(d) + 2) / 5 + d.day - 1 }

  /** Every valid date from the epoch on is the date of a day, namely of its day number. */
  lemma {:induction false} DateOfDayNumber(d: Date)
    requires ValidDate(d) && d.year >= 1970
    ensures DayNumber(d) >= 0 && DateOfDay(DayNumber(d)) == d
  {
    var era, yoe, doy := LocateDate(d);
    DateOfLocation(DayNumber(d), era, yoe, doy);
  }

  lemma LocateDate(d: Date) returns (era: nat, yoe: nat, doy: nat)
    requires ValidDate(d) && d.year >= 1970
    ensures DayNumber(d) >= 0 && Located(DayNumber(d), era, yoe, doy) && doy < 366 && DateAt(era, yoe, doy) == d
  {
    era, yoe, doy := MarchYear(d) / 400, MarchYear(d) % 400, DayOfMarchYear(d);
    DayWithinYear(d, era, yoe, MonthsSinceMarch(d));
    DateIsAt(d, era, yoe, MonthsSinceMarch(d));
    NotBeforeTheEpoch(d);
    DayNumberLocates(d, era, yoe, doy);
  }

  /** Days before a March year, counted from year 0. */
  lemma DaysBeforeMarchYear(y: nat)
    ensures y / 400 * 146_097 + DaysBefore(y % 400) == 365 * y + y / 4 - y / 100 + y / 400
  {
    var era, yoe := y / 400, y % 400;
    assert y == 400 * era + yoe;
    assert y / 4 == 100 * era + yoe / 4 && y / 100 == 4 * era + yoe / 100;
  }

  lemma NotBeforeTheEpoch(d: Date)
    requires ValidDate(d) && d.year >= 1970
    ensures DayNumber(d) >= 0
  {
    var y := MarchYear(d);
    DaysBeforeMarchYear(y);
    assert y - y / 400 * 400 == y % 400;
    if y == 1969 {
      assert DayOfMarchYear(d) >= 306;
    } else {
      assert y >= 1970 && 365 * y - y / 100 >= 365 * 1970 - 19;
    }
  }

  lemma DayNumberLocates(d: Date, era: nat, yoe: nat, doy: nat)
    requires DayNumber(d) >= 0 && yoe < 400 && doy < YearLength(yoe)
    requires yoe + era * 400 == (if d.month <= 2 then d.year - 1 else d.year)
    requires doy == (153 * (if d.month > 2 then d.month - 3 else d.month + 9) + 2) / 5 + d.day - 1
    ensures Located(DayNumber(d), era, yoe, doy)
  {
    assert (yoe + era * 400) / 400 == era;
  }

  lemma DateIsAt(d: Date, era: nat, yoe: nat, mp: nat)
    requires 1 <= d.month <= 12 && mp == (if d.month > 2 then d.month - 3 else d.month + 9)
    requires 1 <= d.day <= MonthLength(mp, true)
    requires yoe + era * 400 == (if d.month <= 2 then d.year - 1 else d.year)
    ensures var doy := (153 * mp + 2) / 5 + d.day - 1;
            doy < 366 && DateAt(era, yoe, doy) == d
  {
    MonthOfDoy(mp, d.day);
  }

  lemma DayWithinYear(d: Date, era: nat, yoe: nat, mp: nat)
    requires ValidDate(d) && yoe < 400
    requires yoe + era * 400 == (if d.month <= 2 then d.year - 1 else d.year)
    requires mp == if d.month > 2 then d.month - 3 else d.month + 9
    ensures d.day <= MonthLength(mp, true) && (153 * mp + 2) / 5 + d.day - 1 < YearLength(yoe)
  {
    LeapYearOfEra(era, yoe);
  }

  lemma MonthOfDoy(mp: nat, day: nat)
    requires mp < 12 && 1 <= day <= MonthLength(mp, true)
    ensures var doy := (153 * mp + 2) / 5 + day - 1;
            doy < 366 && MonthIndex(doy) == mp && DayOfMonth(doy) == day
  {
    if mp == 0 {} else if mp == 1 {} else if mp == 2 {} else if mp == 3 {} else if mp == 4 {} else if mp == 5 {}
    else if mp == 6 {} else if mp == 7 {} else if mp == 8 {} else if mp == 9 {} else if mp == 10 {} else {
      assert mp == 11;
    }
  }

  // ----- the printed form -----

  function StampOf(secs: nat): Stamp
  {
    Stamp(DateOfDay(secs / 86_400), (secs / 3600) % 24, (secs / 60) % 60, secs % 60)
  }

  function FormatStamp(t: Stamp): string
    requires t.date.year >= 0
  {
    Padded(t.date.year, 4) + StampTail(Padded(t.date.month, 2), Padded(t.date.day, 2), Padded(t.hour, 2),
                                       Padded(t.minute, 2), Padded(t.second, 2))
  }

  /** What follows the year. */
  function StampTail(mo: string, d: string, h: string, mi: string, sec: string): string
  {
    "-" + mo + "-" + d + "T" + h + ":" + mi + ":" + sec + "Z"
  }

  /** `format_unix_secs`. */
  function FormatUnixSecs(secs: nat): string
  {
    YearIsPositive(secs / 86_400);
    FormatStamp(StampOf(secs))
  }

  lemma YearIsPositive(days: nat)
    ensures DateOfDay(days).year >= 0
  {
  }

  /** The clock fields and the calendar date account for every second. */
  lemma {:induction false} StampIsExact(secs: nat)
    ensures var t := StampOf(secs);
            && t.date == Calendar(secs / 86_400) && ValidDate(t.date)
            && t.hour < 24 && t.minute < 60 && t.second < 60
            && secs == DayNumber(t.date) * 86_400 + t.hour * 3600 + t.minute * 60 + t.second
  {
    var days := secs / 86_400;
    DateOfDayIsCalendar(days);
    DayNumberOfDate(days);
    ClockFields(secs);
  }

  lemma ClockFields(secs: nat)
    ensures secs == (secs / 86_400) * 86_400 + ((secs / 3600) % 24) * 3600 + ((secs / 60) % 60) * 60 + secs % 60
  {
    assert secs / 3600 == (secs / 86_400) * 24 + (secs / 3600) % 24;
    assert secs / 60 == (secs / 3600) * 60 + (secs / 60) % 60;
  }

  /** Reading a stamp back: sixteen fixed characters at the end, the year before them. */
  function ParseStamp(s: string): Option<Stamp>
  {
    if |s| < 17 then None
    else
      var n := |s| - 16;
      var tail := s[n..];
      var (y, mo, d) := (Parse(s[..n]), Parse(tail[1..3]), Parse(tail[4..6]));
      var (h, mi, sec) := (Parse(tail[7..9]), Parse(tail[10..12]), Parse(tail[13..15]));
      if tail[0] == '-' && tail[3] == '-' && tail[6] == 'T' && tail[9] == ':' && tail[12] == ':' && tail[15] == 'Z'
         && y.Some? && mo.Some? && d.Some? && h.Some? && mi.Some? && sec.Some?
      then Some(Stamp(Date(y.value, mo.value, d.value), h.value, mi.value, sec.value))
      else None
  }

  lemma TailFields(mo: string, d: string, h: string, mi: string, sec: string)
    requires |mo| == |d| == |h| == |mi| == |sec| == 2
    ensures var tail := StampTail(mo, d, h, mi, sec);
            && |tail| == 16
            && tail[0] == tail[3] == '-' && tail[6] == 'T' && tail[9] == tail[12] == ':' && tail[15] == 'Z'
            && tail[1..3] == mo && tail[4..6] == d && tail[7..9] == h && tail[10..12] == mi && tail[13..15] == sec
  {
    var tail := StampTail(mo, d, h, mi, sec);
    assert tail == ['-', mo[0], mo[1], '-', d[0], d[1], 'T', h[0], h[1], ':', mi[0], mi[1], ':', sec[0], sec[1], 'Z'];
    assert tail[1..3] == [mo[0], mo[1]] && tail[4..6] == [d[0], d[1]] && tail[7..9] == [h[0], h[1]];
    assert tail[10..12] == [mi[0], mi[1]] && tail[13..15] == [sec[0], sec[1]];
  }

  lemma {:induction false} ParseFormat(t: Stamp)
    requires t.date.year >= 0 && t.date.month < 100 && t.date.day < 100
    requires t.hour < 100 && t.minute < 100 && t.second < 100
    ensures ParseStamp(FormatStamp(t)) == Some(t)
  {
    var y := Padded(t.date.year, 4);
    var (mo, d) := (Padded(t.date.month, 2), Padded(t.date.day, 2));
    var (h, mi, sec) := (Padded(t.hour, 2), Padded(t.minute, 2), Padded(t.second, 2));
    TwoDigits(t.date.month);
    TwoDigits(t.date.day);
    TwoDigits(t.hour);
    TwoDigits(t.minute);
    TwoDigits(t.second);
    ParsePadded(t.date.year, 4);
    ParsePadded(t.date.month, 2);
    ParsePadded(t.date.day, 2);
    ParsePadded(t.hour, 2);
    ParsePadded(t.minute, 2);
    ParsePadded(t.second, 2);
    TailFields(mo, d, h, mi, sec);
    var s := FormatStamp(t);
    assert s[|s| - 16..] == StampTail(mo, d, h, mi, sec) && s[..|s| - 16] == y;
  }

  /** The printed text determines the second: it reads back to the exact date and time. */
  lemma {:induction false} FormatRoundTrip(secs: nat)
    ensures ParseStamp(FormatUnixSecs(secs)) == Some(StampOf(secs))
  {
    YearIsPositive(secs / 86_400);
    StampIsExact(secs);
    ParseFormat(StampOf(secs));
  }

  function DigitOf(n: nat): char { ('0' as int + n % 10) as char }

  function TwoOf(n: nat): string { [DigitOf(n / 10), DigitOf(n)] }

  function Spelled(t: Stamp): string
    requires t.date.year >= 0
  {
    TwoOf(t.date.year / 100) + TwoOf(t.date.year) + ['-'] + TwoOf(t.date.month) + ['-'] + TwoOf(t.date.day) +
    ['T'] + TwoOf(t.hour) + [':'] + TwoOf(t.minute) + [':'] + TwoOf(t.second) + ['Z']
  }

  lemma DigitsAgree(d: nat)
    requires d < 10
    ensures DigitChar(d) == DigitOf(d)
  {
  }

  lemma PaddedTwo(n: nat)
    requires n < 100
    ensures Padded(n, 2) == TwoOf(n)
  {
    DigitsAgree(n % 10);
    if n >= 10 {
      DigitsAgree(n / 10);
      assert Print(n / 10) == [DigitChar(n / 10)];
      assert Zeros(0) + Print(n) == Print(n);
    } else {
      assert Zeros(1) == "0" + Zeros(0);
      assert DigitOf(0) == '0';
    }
  }

  lemma PaddedFour(n: nat)
    requires 1000 <= n < 10_000
    ensures Padded(n, 4) == TwoOf(n / 100) + TwoOf(n)
  {
    DigitsAgree(n % 10);
    DigitsAgree((n / 10) % 10);
    DigitsAgree((n / 100) % 10);
    DigitsAgree(n / 1000);
    assert n / 10 / 10 == n / 100 && n / 100 / 10 == n / 1000;
    assert Print(n / 1000) == [DigitChar(n / 1000)];
    assert Print(n / 100) == [DigitChar(n / 1000), DigitChar((n / 100) % 10)];
    assert Print(n / 10) == [DigitChar(n / 1000), DigitChar((n / 100) % 10), DigitChar((n / 10) % 10)];
    assert Zeros(0) + Print(n) == Print(n);
  }

  lemma YearIsLate(secs: nat)
    ensures StampOf(secs).date.year >= 1970
  {
    DayZero();
    if secs / 86_400 > 0 {
      DatesIncrease(0, secs / 86_400);
    }
  }

  /** Until the year 9999 the text is these twenty characters. */
  lemma {:induction false} StampIsSpelled(secs: nat)
    requires StampOf(secs).date.year < 10_000
    ensures var t := StampOf(secs);
            t.date.year >= 0 && FormatUnixSecs(secs) == Spelled(t)
  {
    var t := StampOf(secs);
    StampIsExact(secs);
    YearIsLate(secs);
    YearIsPositive(secs / 86_400);
    PaddedFour(t.date.year);
    PaddedTwo(t.date.month);
    PaddedTwo(t.date.day);
    PaddedTwo(t.hour);
    PaddedTwo(t.minute);
    PaddedTwo(t.second);
    TailIsSpelled(TwoOf(t.date.year / 100) + TwoOf(t.date.year), TwoOf(t.date.month), TwoOf(t.date.day), TwoOf(t.hour),
                  TwoOf(t.minute), TwoOf(t.second));
  }

  lemma TailIsSpelled(y: string, mo: string, d: string, h: string, mi: string, sec: string)
    ensures y + StampTail(mo, d, h, mi, sec) ==
            y + ['-'] + mo + ['-'] + d + ['T'] + h + [':'] + mi + [':'] + sec + ['Z']
  {
  }

  lemma KnownDay(days: nat)
    requires days == 19_675
    ensures DateOfDay(days) == Date(2023, 11, 14)
  {
    assert DaysBefore(23) == 8400 && YearLength(23) == 366;
    assert Located(days, 5, 23, 258);
    DateOfLocation(days, 5, 23, 258);
    assert MonthIndex(258) == 8 && DayOfMonth(258) == 14;
  }

  lemma KnownClock(secs: nat)
    requires secs == 1_700_000_000
    ensures secs / 86_400 == 19_675 && (secs / 3600) % 24 == 22 && (secs / 60) % 60 == 13 && secs % 60 == 20
  {
  }

  lemma StampFrom(secs: nat, d: Date, h: nat, mi: nat, sec: nat)
    requires DateOfDay(secs / 86_400) == d && (secs / 3600) % 24 == h && (secs / 60) % 60 == mi && secs % 60 == sec
    ensures StampOf(secs) == Stamp(d, h, mi, sec)
  {
  }

  lemma KnownFields(secs: nat)
    requires secs == 1_700_000_000
    ensures StampOf(secs) == Stamp(Date(2023, 11, 14), 22, 13, 20)
  {
    KnownClock(secs);
    KnownDay(secs / 86_400);
    StampFrom(secs, Date(2023, 11, 14), 22, 13, 20);
  }

  lemma KnownText(t: Stamp)
    requires t == Stamp(Date(2023, 11, 14), 22, 13, 20)
    ensures Spelled(t) == "2023-11-14T22:13:20Z"
  {
  }

  /** A second with its text. */
  lemma {:induction false} KnownStamp(secs: nat)
    requires secs == 1_700_000_000
    ensures FormatUnixSecs(secs) == "2023-11-14T22:13:20Z"
  {
    KnownFields(secs);
    StampIsSpelled(secs);
    KnownText(StampOf(secs));
  }
}
