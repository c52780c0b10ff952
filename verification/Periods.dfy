/**
 Quota periods: the key under which usage is counted now, and the instant at which it is
 announced to reset. Instants are nanoseconds from the start of year 1, UTC.
 */
module Periods {
  import opened Wrappers
  import opened Decimal
  import opened Calendar

  const HOUR: nat := 3_600_000_000_000
  const DAY: nat := 86_400_000_000_000

  function DateAt(t: nat): Date { Civil(t / DAY) }

  function HourAt(t: nat): nat { t % DAY / HOUR }

  /** A text, a separator and two digits. */
  function Extend(text: string, sep: char, n: nat): string { text + [sep] + Pad(n, 2) }

  function MonthText(d: Date): string { Extend(Pad(d.year, 4), '-', d.month) }

  function DayText(d: Date): string { Extend(MonthText(d), '-', d.day) }

  /** The key of the running period; an unknown period counts by month. */
  function CurrentPeriodKey(period: string, t: nat): string {
    var d := DateAt(t);
    if period == "hourly" then Extend(DayText(d), 'T', HourAt(t))
    else if period == "daily" then DayText(d)
    else if period == "yearly" then Itoa(d.year)
    else MonthText(d)
  }

  /** Midnight of a calendar day; months past December and days past the month's end carry over. */
  function Midnight(year: nat, month: nat, day: nat): nat
    requires year >= 1 && month >= 1 && day >= 1
  {
    (DayNumber(Date(year + (month - 1) / 12, (month - 1) % 12 + 1, 1)) + (day - 1)) * DAY
  }

  /** The instant the running period ends; none is announced for an unknown period. */
  function NextPeriodReset(period: string, t: nat): Option<nat> {
    var d := DateAt(t);
    if period == "hourly" then Some(t / HOUR * HOUR + HOUR)
    else if period == "daily" then Some(Midnight(d.year, d.month, d.day + 1))
    else if period == "monthly" then Some(Midnight(d.year, d.month + 1, 1))
    else if period == "yearly" then Some(Midnight(d.year + 1, 1, 1))
    else None
  }

  predicate Known(period: string) {
    period == "hourly" || period == "daily" || period == "monthly" || period == "yearly"
  }

  /** The instant the running period began. */
  function PeriodStart(period: string, t: nat): nat {
    var d := DateAt(t);
    if period == "hourly" then t / HOUR * HOUR
    else if period == "daily" then t / DAY * DAY
    else if period == "yearly" then Midnight(d.year, 1, 1)
    else Midnight(d.year, d.month, 1)
  }

  // ─── Keys determine what they print ───

  lemma SameSuffix(a: string, b: string, x: string, y: string)
    requires |x| == |y| && a + x == b + y
    ensures a == b && x == y
  {
    assert |a| == |b|;
    assert a == (a + x)[..|a|] && b == (b + y)[..|b|];
    assert x == (a + x)[|a|..] && y == (b + y)[|b|..];
  }

  /** A text extended by two digits determines both its parts. */
  lemma ExtendDetermines(a: string, b: string, sep: char, m: nat, n: nat)
    requires m < 100 && n < 100
    ensures Extend(a, sep, m) == Extend(b, sep, n) ==> a == b && m == n
  {
    PadTwo(m);
    PadTwo(n);
    if Extend(a, sep, m) == Extend(b, sep, n) {
      SameSuffix(a + [sep], b + [sep], Pad(m, 2), Pad(n, 2));
      SameSuffix(a, b, [sep], [sep]);
      PadValue(m, 2);
      PadValue(n, 2);
    }
  }

  lemma MonthTextDetermines(d: Date, e: Date)
    requires ValidDate(d) && ValidDate(e)
    ensures MonthText(d) == MonthText(e) ==> d.year == e.year && d.month == e.month
  {
    if MonthText(d) == MonthText(e) {
      ExtendDetermines(Pad(d.year, 4), Pad(e.year, 4), '-', d.month, e.month);
      PadValue(d.year, 4);
      PadValue(e.year, 4);
    }
  }

  lemma DayTextDetermines(d: Date, e: Date)
    requires ValidDate(d) && ValidDate(e)
    ensures DayText(d) == DayText(e) ==> d == e
  {
    if DayText(d) == DayText(e) {
      ExtendDetermines(MonthText(d), MonthText(e), '-', d.day, e.day);
      MonthTextDetermines(d, e);
    }
  }

  lemma HourTextDetermines(t: nat, u: nat)
    ensures CurrentPeriodKey("hourly", t) == CurrentPeriodKey("hourly", u)
      ==> DateAt(t) == DateAt(u) && HourAt(t) == HourAt(u)
  {
    if CurrentPeriodKey("hourly", t) == CurrentPeriodKey("hourly", u) {
      ExtendDetermines(DayText(DateAt(t)), DayText(DateAt(u)), 'T', HourAt(t), HourAt(u));
      DayTextDetermines(DateAt(t), DateAt(u));
    }
  }

  lemma ExtendReadsBack(text: string, sep: char, n: nat)
    requires n < 100
    ensures var e := Extend(text, sep, n);
      && |e| == |text| + 3 && e[..|text|] == text && e[|text|] == sep
      && Digits(e[|text| + 1..]) && Value(e[|text| + 1..]) == n
  {
    PadTwo(n);
    PadValue(n, 2);
    assert Extend(text, sep, n)[|text| + 1..] == Pad(n, 2);
  }

  /** The text ends in a separator and two digits that read n, after the given text. */
  predicate EndsIn(key: string, text: string, sep: char, n: nat) {
    && |key| == |text| + 3 && key[..|text|] == text && key[|text|] == sep
    && Digits(key[|text| + 1..]) && Value(key[|text| + 1..]) == n
  }

  /**
   What the keys say: the civil year, month, day and hour of the instant, in the layouts 2006, 2006-01, 2006-01-02 and
   2006-01-02T15.
   */
  lemma KeysReadBack(t: nat)
    ensures var d := DateAt(t);
      && ValidDate(d) && DayNumber(d) == t / 86_400_000_000_000
      && Digits(CurrentPeriodKey("yearly", t)) && Value(CurrentPeriodKey("yearly", t)) == d.year
      && EndsIn(CurrentPeriodKey("monthly", t), Pad(d.year, 4), '-', d.month)
      && EndsIn(CurrentPeriodKey("daily", t), CurrentPeriodKey("monthly", t), '-', d.day)
      && EndsIn(CurrentPeriodKey("hourly", t), CurrentPeriodKey("daily", t), 'T', t / 3_600_000_000_000 % 24)
    ensures Digits(Pad(DateAt(t).year, 4)) && Value(Pad(DateAt(t).year, 4)) == DateAt(t).year
    ensures |Pad(DateAt(t).year, 4)| >= 4
  {
    var d := DateAt(t);
    PadValue(d.year, 4);
    ExtendReadsBack(Pad(d.year, 4), '-', d.month);
    ExtendReadsBack(MonthText(d), '-', d.day);
    HourInDay(t);
    ExtendReadsBack(DayText(d), 'T', HourAt(t));
    MonthlyKey(t);
  }

  lemma HourInDay(t: nat)
    ensures HourAt(t) == t / 3_600_000_000_000 % 24 && HourAt(t) < 24
  {
    var day, rest := t / DAY, t % DAY;
    var hour := rest / HOUR;
    assert t == day * (24 * HOUR) + hour * HOUR + rest % HOUR;
    assert t == (24 * day + hour) * HOUR + rest % HOUR;
    assert t / HOUR == 24 * day + hour;
  }

  // ─── Each period is an interval ───

  lemma MonthMidnights(d: Date)
    requires ValidDate(d)
    ensures Midnight(d.year, d.month, 1) == (DaysBeforeYear(d.year) + DaysBeforeMonth(d.year, d.month)) * DAY
    ensures Midnight(d.year, d.month, d.day + 1) == (DayNumber(d) + 1) * DAY
  {
    assert (d.month - 1) / 12 == 0 && (d.month - 1) % 12 + 1 == d.month;
  }

  lemma NextMonthMidnight(d: Date)
    requires ValidDate(d)
    ensures Midnight(d.year, d.month + 1, 1) == (DaysBeforeYear(d.year) + DaysBeforeMonth(d.year, d.month + 1)) * DAY
  {
    if d.month == 12 {
      TwelveMonthsAreAYear(d.year);
      assert d.month / 12 == 1 && d.month % 12 + 1 == 1;
    } else {
      assert d.month / 12 == 0 && d.month % 12 + 1 == d.month + 1;
    }
  }

  lemma DayBounds(u: nat, a: nat, b: nat)
    ensures a * DAY <= u < b * DAY <==> a <= u / DAY < b
  {
  }

  lemma HourBounds(u: nat, h: nat)
    ensures h * HOUR <= u < h * HOUR + HOUR <==> u / HOUR == h
  {
  }

  lemma HourOfDay(t: nat)
    ensures t / HOUR / 24 == t / DAY && t / HOUR % 24 == HourAt(t)
    ensures t / HOUR == t / DAY * 24 + HourAt(t)
  {
  }

  /** The instants with t's key are exactly those from the period's start up to, and not including, its reset. */
  lemma PeriodIsInterval(period: string, t: nat, u: nat)
    requires Known(period)
    ensures PeriodStart(period, t) <= t < NextPeriodReset(period, t).value
    ensures CurrentPeriodKey(period, t) == CurrentPeriodKey(period, u)
      <==> PeriodStart(period, t) <= u < NextPeriodReset(period, t).value
  {
    if period == "hourly" {
      HourlyInterval(t, u);
    } else if period == "daily" {
      DailyInterval(t, u);
    } else if period == "monthly" {
      MonthlyInterval(t, u);
    } else {
      YearlyInterval(t, u);
    }
  }

  lemma HourlyInterval(t: nat, u: nat)
    ensures t / HOUR * HOUR <= t < t / HOUR * HOUR + HOUR
    ensures CurrentPeriodKey("hourly", t) == CurrentPeriodKey("hourly", u)
      <==> t / HOUR * HOUR <= u < t / HOUR * HOUR + HOUR
  {
    HourBounds(t, t / HOUR);
    HourBounds(u, t / HOUR);
    HourOfDay(t);
    HourOfDay(u);
    if CurrentPeriodKey("hourly", t) == CurrentPeriodKey("hourly", u) {
      HourTextDetermines(t, u);
      assert t / DAY == DayNumber(DateAt(t)) == u / DAY;
    }
  }

  lemma DailyInterval(t: nat, u: nat)
    ensures t / DAY * DAY <= t < Midnight(DateAt(t).year, DateAt(t).month, DateAt(t).day + 1)
    ensures CurrentPeriodKey("daily", t) == CurrentPeriodKey("daily", u)
      <==> t / DAY * DAY <= u < Midnight(DateAt(t).year, DateAt(t).month, DateAt(t).day + 1)
  {
    MonthMidnights(DateAt(t));
    assert DayNumber(DateAt(t)) == t / DAY;
    DayBounds(t, t / DAY, t / DAY + 1);
    DayBounds(u, t / DAY, t / DAY + 1);
    if CurrentPeriodKey("daily", t) == CurrentPeriodKey("daily", u) {
      DayTextDetermines(DateAt(t), DateAt(u));
      assert t / DAY == DayNumber(DateAt(t)) == u / DAY;
    }
  }

  /** The days of a date's month, as day numbers. */
  function MonthFrom(d: Date): nat
    requires ValidDate(d)
  {
    DaysBeforeYear(d.year) + DaysBeforeMonth(d.year, d.month)
  }

  function MonthTo(d: Date): nat
    requires ValidDate(d)
  {
    DaysBeforeYear(d.year) + DaysBeforeMonth(d.year, d.month + 1)
  }

  lemma MonthMembership(n: nat, k: nat)
    ensures MonthFrom(Civil(n)) <= n < MonthTo(Civil(n))
    ensures MonthText(Civil(n)) == MonthText(Civil(k)) <==> MonthFrom(Civil(n)) <= k < MonthTo(Civil(n))
  {
    var d, e := Civil(n), Civil(k);
    assert n == DayNumber(d) && k == DayNumber(e);
    if MonthText(d) == MonthText(e) {
      MonthTextDetermines(d, e);
    } else if MonthFrom(d) <= k < MonthTo(d) {
      MonthIsUnique(k, d.year, d.month);
    }
  }

  /** An instant lies between two midnights of a month's start exactly if its day lies in the month. */
  lemma MonthBounds(d: Date, u: nat)
    requires ValidDate(d)
    ensures InMonth(d, u) <==> MonthFrom(d) <= u / DAY < MonthTo(d)
  {
    MonthMidnights(d);
    NextMonthMidnight(d);
    DayBounds(u, MonthFrom(d), MonthTo(d));
  }

  predicate InMonth(d: Date, u: nat)
    requires ValidDate(d)
  {
    Midnight(d.year, d.month, 1) <= u < Midnight(d.year, d.month + 1, 1)
  }

  lemma SameMonth(t: nat, u: nat)
    ensures InMonth(DateAt(t), t)
    ensures InMonth(DateAt(t), u) <==> MonthText(DateAt(t)) == MonthText(DateAt(u))
  {
    MonthBounds(DateAt(t), t);
    MonthBounds(DateAt(t), u);
    MonthMembership(t / DAY, u / DAY);
  }

  lemma MonthlyInterval(t: nat, u: nat)
    ensures Midnight(DateAt(t).year, DateAt(t).month, 1) <= t < Midnight(DateAt(t).year, DateAt(t).month + 1, 1)
    ensures CurrentPeriodKey("monthly", t) == CurrentPeriodKey("monthly", u)
      <==> Midnight(DateAt(t).year, DateAt(t).month, 1) <= u < Midnight(DateAt(t).year, DateAt(t).month + 1, 1)
  {
    SameMonth(t, u);
    MonthlyKey(t);
    MonthlyKey(u);
  }

  lemma MonthlyKey(t: nat)
    ensures CurrentPeriodKey("monthly", t) == MonthText(DateAt(t))
  {
  }

  lemma YearlyInterval(t: nat, u: nat)
    ensures Midnight(DateAt(t).year, 1, 1) <= t < Midnight(DateAt(t).year + 1, 1, 1)
    ensures CurrentPeriodKey("yearly", t) == CurrentPeriodKey("yearly", u)
      <==> Midnight(DateAt(t).year, 1, 1) <= u < Midnight(DateAt(t).year + 1, 1, 1)
  {
    var d, e := DateAt(t), DateAt(u);
    YearBounds(t / DAY);
    YearBounds(u / DAY);
    DayBounds(t, DaysBeforeYear(d.year), DaysBeforeYear(d.year + 1));
    DayBounds(u, DaysBeforeYear(d.year), DaysBeforeYear(d.year + 1));
    if CurrentPeriodKey("yearly", t) == CurrentPeriodKey("yearly", u) {
      assert d.year == Value(Itoa(d.year)) == Value(Itoa(e.year)) == e.year;
    } else if DaysBeforeYear(d.year) <= u / DAY < DaysBeforeYear(d.year + 1) {
      YearIsUnique(u / DAY, d.year);
    }
  }

  lemma YearBounds(n: nat)
    ensures DaysBeforeYear(Civil(n).year) <= n < DaysBeforeYear(Civil(n).year + 1)
  {
    TwelveMonthsAreAYear(Civil(n).year);
    MonthsAscend(Civil(n).year, Civil(n).month + 1, 13);
  }

  // ─── Results ───

  /** The key stays the same until the announced reset, and is another one at the reset. */
  lemma KeyHoldsUntilReset(period: string, t: nat, u: nat)
    requires Known(period) && t <= u
    ensures t < NextPeriodReset(period, t).value
    ensures u < NextPeriodReset(period, t).value ==> CurrentPeriodKey(period, u) == CurrentPeriodKey(period, t)
    ensures u == NextPeriodReset(period, t).value ==> CurrentPeriodKey(period, u) != CurrentPeriodKey(period, t)
  {
    PeriodIsInterval(period, t, u);
  }

  lemma ResetFollowsKey(period: string, t: nat, u: nat)
    requires Known(period)
    ensures CurrentPeriodKey(period, t) == CurrentPeriodKey(period, u)
      ==> NextPeriodReset(period, t).value <= NextPeriodReset(period, u).value
  {
    var q := NextPeriodReset(period, u).value;
    PeriodIsInterval(period, t, u);
    PeriodIsInterval(period, u, q);
    PeriodIsInterval(period, t, q);
  }

  /** Key and reset agree on what a period is: two instants have one key exactly when they have one reset. */
  lemma KeyAndResetAgree(period: string, t: nat, u: nat)
    requires Known(period)
    ensures CurrentPeriodKey(period, t) == CurrentPeriodKey(period, u)
      <==> NextPeriodReset(period, t).value == NextPeriodReset(period, u).value
  {
    if CurrentPeriodKey(period, t) == CurrentPeriodKey(period, u) {
      ResetFollowsKey(period, t, u);
      ResetFollowsKey(period, u, t);
    }
    if t <= u {
      KeyHoldsUntilReset(period, t, u);
      KeyHoldsUntilReset(period, u, u);
    } else {
      KeyHoldsUntilReset(period, u, t);
      KeyHoldsUntilReset(period, t, t);
    }
  }

  /** An unknown period is counted by month but announces no reset. */
  lemma UnknownPeriod(period: string, t: nat)
    requires !Known(period)
    ensures CurrentPeriodKey(period, t) == CurrentPeriodKey("monthly", t) && NextPeriodReset(period, t).None?
  {
  }
}
