/**
 * The figures the caffeine screen derives from the user's drinks: the
 * active level (a plain total, no decay over time), the status tier, the
 * sleep forecast and the crash card.
 */
module Forecast {
  import opened Wrappers
  import opened Text
  import opened DrinkModel
  import opened Ordering

  const HourMs: int := 60 * 60 * 1000
  /** The crash is predicted four hours after the newest drink. */
  const CrashDelayMs: int := 4 * HourMs

  // ---- Active level.

  /** Every logged milligram counts, however long ago it was logged. */
  function ActiveLevel(ds: seq<Drink>): (level: int)
    ensures NonNegativeDoses(ds) ==> level >= 0
  {
    if ds == [] then 0
    else
      var init := ds[..|ds| - 1];
      assert NonNegativeDoses(ds) ==> NonNegativeDoses(init) by {
        assert forall i :: 0 <= i < |init| ==> init[i] == ds[i];
      }
      ActiveLevel(init) + ds[|ds| - 1].caffeineMg
  }

  /** Kotlin `Int` arithmetic: the result of `+` reduced into 32 bits. */
  function Wrap32(x: int): (r: int)
    ensures IntMin <= r <= IntMax
    ensures (r - x) % 0x1_0000_0000 == 0
  {
    (x - IntMin) % 0x1_0000_0000 + IntMin
  }

  /** `drinks.sumOf { it.caffeineMg }` as the source computes it: an `Int` accumulator that wraps. */
  function ActiveLevelAsWritten(ds: seq<Drink>): (level: int)
    ensures IntMin <= level <= IntMax
  {
    if ds == [] then 0 else Wrap32(ActiveLevelAsWritten(ds[..|ds| - 1]) + ds[|ds| - 1].caffeineMg)
  }

  predicate NonNegativeDoses(ds: seq<Drink>) {
    forall i :: 0 <= i < |ds| ==> ds[i].caffeineMg >= 0
  }

  lemma WrapAbsorbs(a: int, m: int)
    ensures Wrap32(Wrap32(a) + m) == Wrap32(a + m)
  {
    var M := 0x1_0000_0000;
    var q := (a - IntMin) / M;
    assert Wrap32(a) == a - M * q;
    assert (a + m - M * q - IntMin) % M == (a + m - IntMin) % M;
  }

  /** The source's total is the true total reduced into 32 bits. */
  lemma {:induction false} AsWrittenIsWrappedTotal(ds: seq<Drink>)
    ensures ActiveLevelAsWritten(ds) == Wrap32(ActiveLevel(ds))
  {
    if ds != [] {
      var init := ds[..|ds| - 1];
      AsWrittenIsWrappedTotal(init);
      WrapAbsorbs(ActiveLevel(init), ds[|ds| - 1].caffeineMg);
    }
  }

  /** With non-negative doses, logging another drink never lowers the level, and no dose exceeds it. */
  lemma {:induction false} LevelCoversEachDose(ds: seq<Drink>)
    requires NonNegativeDoses(ds)
    ensures ActiveLevel(ds) >= 0
    ensures forall i :: 0 <= i < |ds| ==> ds[i].caffeineMg <= ActiveLevel(ds)
  {
    if ds != [] {
      var init := ds[..|ds| - 1];
      assert NonNegativeDoses(init) by {
        forall i | 0 <= i < |init| ensures init[i].caffeineMg >= 0 {
          assert init[i] == ds[i];
        }
      }
      LevelCoversEachDose(init);
      assert ds == init + [ds[|ds| - 1]];
      LevelOfSnoc(init, ds[|ds| - 1]);
      forall i | 0 <= i < |ds| ensures ds[i].caffeineMg <= ActiveLevel(ds) {
        if i < |init| {
          assert init[i] == ds[i];
        }
      }
    }
  }

  /** Appending a drink adds its dose. */
  lemma LevelOfSnoc(ds: seq<Drink>, d: Drink)
    ensures ActiveLevel(ds + [d]) == ActiveLevel(ds) + d.caffeineMg
  {
    assert (ds + [d])[..|ds|] == ds;
  }

  // ---- Status tier.

  datatype Status = Relaxed | Productive | HighEnergy | Danger

  /** The four bands, tested from the top: above 400, above 250, above 100, the rest. */
  function StatusOf(level: int): (s: Status)
    ensures s == Danger <==> level > 400
    ensures s == HighEnergy <==> 250 < level <= 400
    ensures s == Productive <==> 100 < level <= 250
    ensures s == Relaxed <==> level <= 100
  {
    if level > 400 then Danger
    else if level > 250 then HighEnergy
    else if level > 100 then Productive
    else Relaxed
  }

  /** The banner text of each tier. */
  function StatusText(s: Status): string {
    match s
    case Danger => "\U{26A0}\U{FE0F} DANGER ZONE"
    case HighEnergy => "\U{26A1} HIGH ENERGY"
    case Productive => "\U{2705} PRODUCTIVE"
    case Relaxed => "\U{1F4A4} RELAXED"
  }

  /** Each tier has its own banner: two tiers share a text only if they are the same tier. */
  lemma StatusTextsDistinct(a: Status, b: Status)
    ensures StatusText(a) == StatusText(b) <==> a == b
  {
    if a != b {
      assert StatusText(a)[|StatusText(a)| - 2..] != StatusText(b)[|StatusText(b)| - 2..];
    }
  }

  function Rank(s: Status): nat {
    match s
    case Relaxed => 0
    case Productive => 1
    case HighEnergy => 2
    case Danger => 3
  }

  /** A higher level never gives a calmer tier. */
  lemma StatusMonotone(a: int, b: int)
    requires a <= b
    ensures Rank(StatusOf(a)) <= Rank(StatusOf(b))
  {
  }

  /** Each bound belongs to the band below it. */
  lemma StatusBoundaries()
    ensures StatusOf(400) == HighEnergy && StatusOf(401) == Danger
    ensures StatusOf(250) == Productive && StatusOf(251) == HighEnergy
    ensures StatusOf(100) == Relaxed && StatusOf(101) == Productive
  {
  }

  // ---- Sleep forecast.

  /** Whole hours until it is safe to sleep: one per 20 mg above 50 mg, rounded down. */
  function HoursToSleep(level: int): (h: nat)
    ensures level <= 50 ==> h == 0
    ensures level > 50 ==> 20 * h <= level - 50 < 20 * (h + 1)
  {
    if level > 50 then (level - 50) / 20 else 0
  }

  lemma HoursToSleepMonotone(a: int, b: int)
    requires a <= b
    ensures HoursToSleep(a) <= HoursToSleep(b)
  {
    if a > 50 {
      assert 20 * HoursToSleep(a) <= b - 50;
    }
  }

  /** A calendar day as `Calendar` reports it: the year and the day of that year (1-based). */
  datatype CalendarDate = CalendarDate(year: int, dayOfYear: int)

  predicate IsLeapYear(y: int) {
    y % 4 == 0 && (y % 100 != 0 || y % 400 == 0)
  }

  function DaysInYear(y: int): int {
    if IsLeapYear(y) then 366 else 365
  }

  predicate ValidDate(d: CalendarDate) {
    d.year >= 1 && 1 <= d.dayOfYear <= DaysInYear(d.year)
  }

  /** The calendar day after `d`. */
  function NextDay(d: CalendarDate): (n: CalendarDate)
    requires ValidDate(d)
    ensures ValidDate(n)
  {
    if d.dayOfYear < DaysInYear(d.year) then CalendarDate(d.year, d.dayOfYear + 1)
    else CalendarDate(d.year + 1, 1)
  }

  function DaysBeforeYear(y: int): nat
    requires y >= 1
  {
    if y == 1 then 0 else DaysBeforeYear(y - 1) + DaysInYear(y - 1)
  }

  /** Days since the start of year 1 (proleptic Gregorian). */
  function DayNumber(d: CalendarDate): int
    requires ValidDate(d)
  {
    DaysBeforeYear(d.year) + d.dayOfYear
  }

  /**
   * The source's day difference: day-of-year delta plus 365 per year of
   * delta, whatever the length of the years crossed.
   */
  function DayDifferenceAsWritten(now: CalendarDate, sleep: CalendarDate): (r: int)
    ensures ValidDate(now) && sleep == NextDay(now) ==>
      (r == 1 <==> !(IsLeapYear(now.year) && now.dayOfYear == 366))
  {
    (sleep.dayOfYear - now.dayOfYear) + (sleep.year - now.year) * 365
  }

  /** The number of calendar days from `now`'s date to `sleep`'s date. */
  function DayDifference(now: CalendarDate, sleep: CalendarDate): (r: int)
    requires ValidDate(now) && ValidDate(sleep)
    ensures now.year == sleep.year ==> r == DayDifferenceAsWritten(now, sleep)
    ensures sleep == NextDay(now) ==> r == 1
    ensures sleep == now ==> r == 0
  {
    DayNumber(sleep) - DayNumber(now)
  }

  /** Counting calendar days: days after `now`, in `n` steps, is `n` days away. */
  lemma {:induction false} DayDifferenceCountsDays(now: CalendarDate, n: nat)
    requires ValidDate(now)
    ensures ValidDate(DaysAfter(now, n)) && DayDifference(now, DaysAfter(now, n)) == n
  {
    if n > 0 {
      DayDifferenceCountsDays(now, n - 1);
    }
  }

  function DaysAfter(d: CalendarDate, n: nat): (r: CalendarDate)
    requires ValidDate(d)
    ensures ValidDate(r)
  {
    if n == 0 then d else NextDay(DaysAfter(d, n - 1))
  }

  /**
   * The source's rule is off on the last day of a leap year: from
   * 31 December 2024 (day 366) to 1 January 2025 it counts 0 days.
   */
  lemma DayDifferenceAsWrittenMissesLeapDay()
    ensures var now, sleep := CalendarDate(2024, 366), CalendarDate(2025, 1);
      && ValidDate(now) && sleep == NextDay(now)
      && DayDifferenceAsWritten(now, sleep) == 0
      && DayDifference(now, sleep) == 1
      && SleepLabel(70, DayDifferenceAsWritten(now, sleep)) == TodayAt
      && SleepLabel(70, DayDifference(now, sleep)) == TomorrowAt
  {
  }

  datatype SleepText = SleepAnytime | TodayAt | TomorrowAt | InDaysAt(days: int)

  /** "Sleep anytime" at 50 mg or less; otherwise today, tomorrow or in N days (at the sleep time). */
  function SleepLabel(level: int, dayDifference: int): (t: SleepText)
    ensures t == SleepAnytime <==> level <= 50
    ensures t == TodayAt <==> level > 50 && dayDifference <= 0
    ensures t == TomorrowAt <==> level > 50 && dayDifference == 1
    ensures t.InDaysAt? <==> level > 50 && dayDifference >= 2
    ensures t.InDaysAt? ==> t.days == dayDifference
  {
    if level <= 50 then SleepAnytime
    else if dayDifference <= 0 then TodayAt
    else if dayDifference == 1 then TomorrowAt
    else InDaysAt(dayDifference)
  }

  /** The sleep card: hours to wait, the instant (epoch ms) and its label. */
  datatype SleepAdvice = SleepAdvice(hours: nat, at: int, text: SleepText)

  /**
   * `now` is epoch ms; `nowDate` is the calendar date of `now` and
   * `sleepDate` that of `now` plus `HoursToSleep(level)` hours (time zone and
   * calendar arithmetic are the caller's).
   */
  function Sleep(level: int, now: int, nowDate: CalendarDate, sleepDate: CalendarDate): (a: SleepAdvice)
    requires ValidDate(nowDate) && ValidDate(sleepDate)
    ensures a.at == now + a.hours * HourMs && a.at >= now
    ensures a.text == SleepAnytime <==> a.hours == 0 && level <= 50
    ensures sleepDate == NextDay(nowDate) && level > 50 ==> a.text == TomorrowAt
    ensures a.hours == HoursToSleep(level)
    ensures a.text == SleepLabel(level, DayDifference(nowDate, sleepDate))
  {
    var h := HoursToSleep(level);
    SleepAdvice(h, now + h * HourMs, SleepLabel(level, DayDifference(nowDate, sleepDate)))
  }

  // ---- Crash card.

  datatype CrashCard = CrashExpected(at: int) | Stable

  /**
   * No card without drinks. Otherwise a crash is expected at the newest
   * drink's time plus four hours, if that is strictly after `now` and the
   * level is above 30; else the energy is "stable".
   */
  function Crash(ds: seq<Drink>, now: int, level: int): (r: Option<CrashCard>)
    ensures r.None? <==> ds == []
    ensures r.Some? ==>
      (r.value.CrashExpected? <==>
         level > 30 && exists i :: 0 <= i < |ds| && ds[i].timeAdded + CrashDelayMs > now)
    ensures r.Some? && r.value.CrashExpected? ==>
      && (exists i :: 0 <= i < |ds| && r.value.at == ds[i].timeAdded + CrashDelayMs)
      && (forall i :: 0 <= i < |ds| ==> ds[i].timeAdded + CrashDelayMs <= r.value.at)
  {
    if ds == [] then None
    else
      var last := ds[LatestIndex(ds, TimeAdded)];
      var crashAt := last.timeAdded + CrashDelayMs;
      if crashAt > now && level > 30 then Some(CrashExpected(crashAt)) else Some(Stable)
  }

  /** At exactly 30 mg the card says "stable", however recent the drink. */
  lemma CrashNeedsMoreThan30(ds: seq<Drink>, now: int)
    requires ds != []
    ensures Crash(ds, now, 30) == Some(Stable)
  {
  }

  // ---- Everything the screen shows, from one snapshot of the drinks.

  datatype ForecastResult = ForecastResult(
    level: int, status: Status, statusText: string, sleep: SleepAdvice, crash: Option<CrashCard>)

  function ForecastOf(ds: seq<Drink>, now: int, nowDate: CalendarDate, sleepDate: CalendarDate): (r: ForecastResult)
    requires ValidDate(nowDate) && ValidDate(sleepDate)
    ensures ds == [] ==> r.level == 0 && r.status == Relaxed && r.sleep.text == SleepAnytime && r.crash.None?
    ensures r.level == ActiveLevel(ds) && r.status == StatusOf(r.level) && r.statusText == StatusText(r.status)
    ensures r.sleep == Sleep(r.level, now, nowDate, sleepDate) && r.crash == Crash(ds, now, r.level)
  {
    var level := ActiveLevel(ds);
    var status := StatusOf(level);
    ForecastResult(level, status, StatusText(status), Sleep(level, now, nowDate, sleepDate), Crash(ds, now, level))
  }

  /** The tier is never calmer than the tier of any single logged dose. */
  lemma StatusCoversEachDose(ds: seq<Drink>, now: int, nowDate: CalendarDate, sleepDate: CalendarDate)
    requires ValidDate(nowDate) && ValidDate(sleepDate)
    requires NonNegativeDoses(ds)
    ensures forall i :: 0 <= i < |ds| ==>
      Rank(StatusOf(ds[i].caffeineMg)) <= Rank(ForecastOf(ds, now, nowDate, sleepDate).status)
  {
    LevelCoversEachDose(ds);
    forall i | 0 <= i < |ds| ensures Rank(StatusOf(ds[i].caffeineMg)) <= Rank(StatusOf(ActiveLevel(ds))) {
      StatusMonotone(ds[i].caffeineMg, ActiveLevel(ds));
    }
  }

  /**
   * Two maximal `Int` doses: the source's wrapping total is -2, so the
   * screen shows RELAXED; the true total is in the DANGER band.
   */
  lemma AsWrittenLevelWraps(id1: string, id2: string, t: int, u: string)
    ensures var d1, d2 := Drink(id1, "x", IntMax, t, "LocalCafe", u), Drink(id2, "x", IntMax, t, "LocalCafe", u);
      && ActiveLevelAsWritten([d1, d2]) == -2
      && StatusOf(ActiveLevelAsWritten([d1, d2])) == Relaxed
      && ActiveLevel([d1, d2]) == 2 * IntMax
      && StatusOf(ActiveLevel([d1, d2])) == Danger
  {
    var d1, d2 := Drink(id1, "x", IntMax, t, "LocalCafe", u), Drink(id2, "x", IntMax, t, "LocalCafe", u);
    var one, two := [d1], [d1, d2];
    assert two[..|two| - 1] == one;
    assert one[..|one| - 1] == [];
    assert ActiveLevel(one) == IntMax;
    assert ActiveLevelAsWritten(one) == Wrap32(IntMax) == IntMax;
    assert Wrap32(IntMax + IntMax) == -2;
  }
}
