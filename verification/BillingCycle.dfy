/** Monthly billing cycles on the UTC calendar. */
module BillingCycle {

  const SECONDS_PER_DAY: int := 86400

  // ---- The calendar --------------------------------------------------------------------------

  predicate Leap(year: int) {
    year % 4 == 0 && (year % 100 != 0 || year % 400 == 0)
  }

  function DaysIn(year: int, month: int): int
    requires 0 <= month <= 11
  {
    if month == 1 then (if Leap(year) then 29 else 28)
    else if month == 3 || month == 5 || month == 8 || month == 10 then 30
    else 31
  }

  /** Months counted from January 1970. */
  function MonthIndex(year: int, month: int): int {
    (year - 1970) * 12 + month
  }

  function LengthOf(m: int): int {
    DaysIn(1970 + m / 12, m % 12)
  }

  /** The day, counted from the epoch, on which a month begins; December 1969 is the earliest needed. */
  function MonthStart(m: int): int
    requires m >= -1
    decreases m + 1
  {
    if m == -1 then -31 else MonthStart(m - 1) + LengthOf(m - 1)
  }

  lemma {:induction false} Later(m: int, n: int)
    requires -1 <= m < n
    ensures MonthStart(n) >= MonthStart(m) + LengthOf(m)
    decreases n
  {
    if m < n - 1 {
      Later(m, n - 1);
    }
  }

  lemma NextMonth(m: int)
    requires m >= -1
    ensures MonthStart(m + 1) == MonthStart(m) + LengthOf(m)
  {
  }

  lemma LengthInYear(year: int, k: int)
    requires 0 <= k <= 11
    ensures LengthOf(MonthIndex(year, k)) == DaysIn(year, k) && LengthOf(12 * (year - 1970) + k) == DaysIn(year, k)
  {
  }

  lemma LengthPositive(m: int)
    ensures 28 <= LengthOf(m) <= 31
  {
  }

  lemma EpochMonth()
    ensures MonthStart(0) == 0
  {
    assert LengthOf(-1) == 31;
  }

  /** The calendar agrees with the usual count of the days before a year. */
  lemma {:induction false} YearStart(year: int)
    requires year >= 1970
    ensures MonthStart(12 * (year - 1970)) == 365 * (year - 1970) + LeapsBefore(year) - LeapsBefore(1970)
    decreases year
  {
    hide LeapsBefore, MonthStart;
    if year == 1970 {
      EpochMonth();
    } else {
      YearStart(year - 1);
      YearLength(year - 1);
      LeapStep(year - 1);
    }
  }

  function LeapsBefore(year: int): int {
    (year - 1) / 4 - (year - 1) / 100 + (year - 1) / 400
  }

  lemma LeapStep(year: int)
    ensures LeapsBefore(year + 1) == LeapsBefore(year) + (if Leap(year) then 1 else 0)
  {
    Fours(year - 1);
    Hundreds(year - 1);
    FourHundreds(year - 1);
    FactorDivides(year);
  }

  lemma Fours(n: int)
    ensures (n + 1) / 4 == n / 4 + (if (n + 1) % 4 == 0 then 1 else 0)
  {
  }

  lemma Hundreds(n: int)
    ensures (n + 1) / 100 == n / 100 + (if (n + 1) % 100 == 0 then 1 else 0)
  {
  }

  lemma FourHundreds(n: int)
    ensures (n + 1) / 400 == n / 400 + (if (n + 1) % 400 == 0 then 1 else 0)
  {
  }

  lemma FactorDivides(year: int)
    ensures year % 400 == 0 ==> year % 100 == 0
    ensures year % 100 == 0 ==> year % 4 == 0
  {
  }

  lemma YearLength(year: int)
    requires year >= 1970
    ensures MonthStart(12 * (year - 1970) + 12) == MonthStart(12 * (year - 1970)) + (if Leap(year) then 366 else 365)
  {
    hide Leap, MonthStart, LengthOf;
    var m := 12 * (year - 1970);
    HalfYear(m);
    HalfYear(m + 6);
    HalfYearLength(year, 0);
    HalfYearLength(year, 6);
  }

  /** The days of six months from month `k` of a year. */
  lemma HalfYearLength(year: int, k: int)
    requires k == 0 || k == 6
    ensures var m := 12 * (year - 1970) + k;
            LengthOf(m) + LengthOf(m + 1) + LengthOf(m + 2) + LengthOf(m + 3) + LengthOf(m + 4) + LengthOf(m + 5)
            == if k == 6 then 184 else if Leap(year) then 182 else 181
  {
    hide Leap, LengthOf;
    LengthInYear(year, k);
    LengthInYear(year, k + 1);
    LengthInYear(year, k + 2);
    LengthInYear(year, k + 3);
    LengthInYear(year, k + 4);
    LengthInYear(year, k + 5);
  }

  lemma HalfYear(m: int)
    requires m >= 0
    ensures MonthStart(m + 6) == MonthStart(m) + LengthOf(m) + LengthOf(m + 1) + LengthOf(m + 2)
                                 + LengthOf(m + 3) + LengthOf(m + 4) + LengthOf(m + 5)
  {
    hide LengthOf, MonthStart;
    NextMonth(m);
    NextMonth(m + 1);
    NextMonth(m + 2);
    NextMonth(m + 3);
    NextMonth(m + 4);
    NextMonth(m + 5);
  }

  /** A UTC date: a year, a month from 0 and a day from 1. */
  datatype Date = Date(year: int, month: int, day: int)

  predicate Names(d: Date, dayNumber: int) {
    && 0 <= d.month <= 11 && MonthIndex(d.year, d.month) >= -1
    && 1 <= d.day <= DaysIn(d.year, d.month)
    && dayNumber == MonthStart(MonthIndex(d.year, d.month)) + d.day - 1
  }

  /** The date of a day, as the C library gives it. */
  method Gmtime(dayNumber: nat) returns (d: Date)
    ensures Names(d, dayNumber) && d.year >= 1970
  {
    hide LengthOf, MonthStart, DaysIn;
    EpochMonth();
    var m := 0;
    while MonthStart(m) + LengthOf(m) <= dayNumber
      invariant m >= 0 && MonthStart(m) <= dayNumber
      decreases dayNumber - MonthStart(m)
    {
      LengthPositive(m);
      NextMonth(m);
      m := m + 1;
    }
    d := Date(1970 + m / 12, m % 12, dayNumber - MonthStart(m) + 1);
    LengthInYear(d.year, d.month);
  }

  /** Midnight on day `d` of month `m`. */
  function Midnight(m: int, d: int): int
    requires m >= -1
  {
    (MonthStart(m) + d - 1) * SECONDS_PER_DAY
  }

  // ---- The calendar in closed form -----------------------------------------------------------

  /** The day a month begins on, by the usual formula over years that begin in March. */
  ghost function CivilDay(year: int, month: int): int {
    var y, march := if month < 2 then year - 1 else year, if month < 2 then month + 10 else month - 2;
    365 * y + y / 4 - y / 100 + y / 400 + (153 * march + 2) / 5 - 719468
  }

  lemma CivilYear(year: int)
    requires year >= 1970
    ensures MonthStart(12 * (year - 1970)) == CivilDay(year, 0)
  {
    YearStart(year);
    hide MonthStart;
    assert LeapsBefore(1970) == 477;
  }

  lemma CivilStep(year: int, month: int)
    requires 1 <= month <= 11
    ensures CivilDay(year, month) == CivilDay(year, month - 1) + DaysIn(year, month - 1)
  {
    if month == 2 {
      LeapStep(year);
    }
  }

  /** Every month begins on the day of that formula. */
  lemma {:induction false} MonthIsCivil(year: int, month: int)
    requires year >= 1970 && 0 <= month <= 11
    ensures MonthStart(MonthIndex(year, month)) == CivilDay(year, month)
    decreases month
  {
    hide MonthStart, CivilDay, DaysIn, LengthOf;
    if month == 0 {
      CivilYear(year);
    } else {
      MonthIsCivil(year, month - 1);
      CivilStep(year, month);
      NextMonth(MonthIndex(year, month - 1));
      LengthInYear(year, month - 1);
    }
  }

  /** Midnight of a day of a month is so many days of 86400 seconds after the epoch. */
  lemma MidnightIsCivil(year: int, month: int, d: int)
    requires (year >= 1970 && 0 <= month <= 11) || (year == 1969 && month == 11)
    ensures MonthIndex(year, month) >= -1
    ensures Midnight(MonthIndex(year, month), d) == (CivilDay(year, month) + d - 1) * 86400
  {
    if year >= 1970 {
      MonthIsCivil(year, month);
    }
  }

  // ---- Cycles --------------------------------------------------------------------------------

  /** From the reset day of month `m` to the reset day of the next month, with `now` inside. */
  predicate InCycle(now: int, resetDay: int, m: int) {
    m >= -1 && Midnight(m, resetDay) <= now < Midnight(m + 1, resetDay)
  }

  datatype Cycle = NoCycle | Cycle(start: int, end: int)

  ghost predicate IsCycle(now: int, resetDay: int, c: Cycle) {
    exists m :: InCycle(now, resetDay, m) && c == Cycle(Midnight(m, resetDay), Midnight(m + 1, resetDay))
  }

  /** The cycle as calendar dates: from the reset day of one month to that of the next. */
  ghost predicate IsCivilCycle(now: int, resetDay: int, c: Cycle, year: int, month: int) {
    var nextYear, nextMonth := if month == 11 then year + 1 else year, if month == 11 then 0 else month + 1;
    && 0 <= month <= 11 && c.Cycle? && c.start <= now < c.end
    && c.start == (CivilDay(year, month) + resetDay - 1) * 86400
    && c.end == (CivilDay(nextYear, nextMonth) + resetDay - 1) * 86400
  }

  method CycleBounds(now: int, resetDay: int) returns (c: Cycle)
    ensures c.NoCycle? <==> resetDay < 1 || resetDay > 28 || now < 0
    ensures c.Cycle? ==> IsCycle(now, resetDay, c) && exists year, month :: IsCivilCycle(now, resetDay, c, year, month)
  {
    if resetDay < 1 || resetDay > 28 || now < 0 {
      return NoCycle;
    }
    hide DaysIn, MonthStart, LengthOf, Midnight, CivilDay, IsCivilCycle;
    var d := Gmtime(now / SECONDS_PER_DAY);
    var year, month := d.year, d.month;
    if d.day < resetDay {
      month := month - 1;
      if month < 0 {
        month := 11;
        year := year - 1;
      }
    }
    var start := Midnight(MonthIndex(year, month), resetDay);
    var nextMonth, nextYear := month + 1, year;
    if nextMonth > 11 {
      nextMonth := 0;
      nextYear := nextYear + 1;
    }
    c := Cycle(start, Midnight(MonthIndex(nextYear, nextMonth), resetDay));
    assert MonthIndex(nextYear, nextMonth) == MonthIndex(year, month) + 1;
    DateInCycle(now, d, resetDay);
    assert IsCivilCycle(now, resetDay, c, year, month) by { BoundsAreCivil(now, resetDay, c, year, month); }
  }

  lemma BoundsAreCivil(now: int, resetDay: int, c: Cycle, year: int, month: int)
    requires (year >= 1970 && 0 <= month <= 11) || (year == 1969 && month == 11)
    requires InCycle(now, resetDay, MonthIndex(year, month))
    requires c == Cycle(Midnight(MonthIndex(year, month), resetDay), Midnight(MonthIndex(year, month) + 1, resetDay))
    ensures IsCivilCycle(now, resetDay, c, year, month)
  {
    hide DaysIn, MonthStart, LengthOf, Midnight, CivilDay;
    MidnightIsCivil(year, month, resetDay);
    MidnightIsCivil(if month == 11 then year + 1 else year, if month == 11 then 0 else month + 1, resetDay);
  }

  /** The cycle of a date starts in its month, or in the month before when the reset day is still to come. */
  lemma DateInCycle(now: int, d: Date, resetDay: int)
    requires 1 <= resetDay <= 28 && now >= 0 && Names(d, now / SECONDS_PER_DAY) && d.year >= 1970
    ensures InCycle(now, resetDay, MonthIndex(d.year, d.month) - if d.day < resetDay then 1 else 0)
  {
    hide DaysIn, MonthStart, LengthOf;
    var m := MonthIndex(d.year, d.month);
    LengthInYear(d.year, d.month);
    NextMonth(m);
    NextMonth(m - 1);
    LengthPositive(m - 1);
    hide MonthIndex;
    assert now / SECONDS_PER_DAY * SECONDS_PER_DAY <= now < (now / SECONDS_PER_DAY + 1) * SECONDS_PER_DAY;
  }

  lemma ResetDaysAscend(m: int, n: int, resetDay: int)
    requires -1 <= m < n
    ensures Midnight(m + 1, resetDay) <= Midnight(n, resetDay)
  {
    if m + 1 < n {
      Later(m + 1, n);
      LengthPositive(m + 1);
    }
  }

  lemma CycleMonth(now: int, resetDay: int, c: Cycle) returns (m: int)
    requires IsCycle(now, resetDay, c)
    ensures InCycle(now, resetDay, m) && c == Cycle(Midnight(m, resetDay), Midnight(m + 1, resetDay))
  {
    hide Midnight;
    m :| InCycle(now, resetDay, m) && c == Cycle(Midnight(m, resetDay), Midnight(m + 1, resetDay));
  }

  /** Of two moments, the later one is in the same cycle or a later one. */
  lemma MonthsFollow(now: int, later: int, resetDay: int, m: int, n: int)
    requires now <= later && InCycle(now, resetDay, m) && InCycle(later, resetDay, n)
    ensures m == n || (m < n && Midnight(m + 1, resetDay) <= Midnight(n, resetDay))
  {
    hide Midnight;
    if m < n {
      ResetDaysAscend(m, n, resetDay);
    } else if n < m {
      ResetDaysAscend(n, m, resetDay);
    }
  }

  /** Cycles tile time: two moments share a cycle or lie in disjoint ones. */
  lemma CyclesTile(now: int, later: int, resetDay: int, c: Cycle, c': Cycle)
    requires now <= later && IsCycle(now, resetDay, c) && IsCycle(later, resetDay, c')
    ensures if later < c.end then c' == c else c.end <= c'.start
  {
    hide Midnight, IsCycle;
    var m := CycleMonth(now, resetDay, c);
    var n := CycleMonth(later, resetDay, c');
    MonthsFollow(now, later, resetDay, m, n);
  }

  /** The cycle computed at the end of a cycle starts there. */
  lemma NextCycleStartsAtEnd(now: int, resetDay: int, c: Cycle, c': Cycle)
    requires IsCycle(now, resetDay, c) && IsCycle(c.end, resetDay, c')
    ensures c'.start == c.end
  {
    hide Midnight, IsCycle;
    var m := CycleMonth(now, resetDay, c);
    var n := CycleMonth(c.end, resetDay, c');
    var next := m + 1;
    MonthHasLength(next, resetDay);
    assert InCycle(c.end, resetDay, next);
    MonthsFollow(c.end, c.end, resetDay, next, n);
    MonthsFollow(c.end, c.end, resetDay, n, next);
  }

  lemma MonthHasLength(m: int, resetDay: int)
    requires m >= -1
    ensures Midnight(m, resetDay) < Midnight(m + 1, resetDay)
  {
    LengthPositive(m);
  }
}
