/** Day arithmetic on millisecond timestamps (src/utils/mock.ts) and the
    UTC calendar-day key of a timestamp (todayDateNoTime in src/utils/general.ts). */
module Dates {

  /** Milliseconds in one day: 24 * 60 * 60 * 1000. */
  const DayMs: int := 86400000

  /** The instant `beforeDays` whole days before `d`. */
  function DaysBefore(d: int, beforeDays: int): int
  {
    d - beforeDays * DayMs
  }

  /** JavaScript's Math.round: the nearest integer, halves rounded up. */
  function Round(x: real): int
  {
    (x + 0.5).Floor
  }

  /** The number of days from `current` to `next`, rounded to the nearest
      whole day with halves rounded up; DaysBetweenIsRound shows it is
      Math.round of the real quotient. */
  function DaysBetween(current: int, next: int): int
  {
    (next - current + DayMs / 2) / DayMs
  }

  /** Math.round of the number of days from `current` to `next`, as the
      source computes it on the millisecond difference. */
  lemma DaysBetweenIsRound(current: int, next: int)
    ensures DaysBetween(current, next) == Round((next - current) as real / DayMs as real)
  {
    var x := next - current;
    var q := (x + DayMs / 2) / DayMs;
    var r := (x + DayMs / 2) % DayMs;
    assert x + DayMs / 2 == q * DayMs + r && 0 <= r < DayMs;
    var y := x as real / DayMs as real + 0.5;
    assert y == (x + DayMs / 2) as real / DayMs as real;
    assert y == q as real + r as real / DayMs as real;
    assert q as real <= y < (q + 1) as real;
  }

  lemma DaysBeforeZero(d: int)
    ensures DaysBefore(d, 0) == d
  {
  }

  lemma DaysBeforeCompose(d: int, m: int, n: int)
    ensures DaysBefore(DaysBefore(d, m), n) == DaysBefore(d, m + n)
  {
  }

  /** Shifting the later instant by whole days shifts the day count by as many. */
  lemma DaysBetweenShift(current: int, next: int, k: int)
    ensures DaysBetween(current, next + k * DayMs) == DaysBetween(current, next) + k
    ensures DaysBetween(current + k * DayMs, next) == DaysBetween(current, next) - k
  {
    var x := next - current + DayMs / 2;
    DivShift(x, k);
    DivShift(x, -k);
  }

  lemma DivShift(x: int, k: int)
    ensures (x + k * DayMs) / DayMs == x / DayMs + k
  {
    var q, r := x / DayMs, x % DayMs;
    assert x + k * DayMs == (q + k) * DayMs + r;
  }

  /** Going back `n` days from `d` is exactly `n` days before `d`. */
  lemma DaysBetweenDaysBefore(d: int, n: int)
    ensures DaysBetween(DaysBefore(d, n), d) == n
  {
    DaysBetweenShift(d, d, n);
    DaysBetweenSame(d);
  }

  lemma DaysBetweenSame(a: int)
    ensures DaysBetween(a, a) == 0
  {
  }

  /** The day count never decreases as the later instant moves later. */
  lemma DaysBetweenMonotone(a: int, b: int, b': int)
    requires b <= b'
    ensures DaysBetween(a, b) <= DaysBetween(a, b')
  {
    DivMonotone(b - a + DayMs / 2, b' - a + DayMs / 2);
  }

  lemma DivMonotone(x: int, y: int)
    requires x <= y
    ensures x / DayMs <= y / DayMs
  {
    var qx, qy := x / DayMs, y / DayMs;
    assert qx * DayMs <= x && y < qy * DayMs + DayMs;
  }

  /** A UTC calendar date: what todayDateNoTime formats as `year-month-day`. */
  datatype CivilDate = CivilDate(year: int, month: int, day: int)

  /** A day number split into its 400-year era, the year within the era
      and the day within that year (eras and years start on a 1 March). */
  datatype EraDay = EraDay(era: int, yoe: int, doy: int)

  function EraDayOf(z: int): (p: EraDay)
    ensures 0 <= p.yoe <= 399 && 0 <= p.doy <= 365
    ensures z + 719468 == p.era * 146097 + DaysBeforeYear(p.yoe) + p.doy
  {
    var zz := z + 719468;
    var era := zz / 146097;
    var doe := zz - era * 146097;
    EraBounds(doe);
    var yoe := YearOfEra(doe);
    EraDay(era, yoe, doe - DaysBeforeYear(yoe))
  }

  function CivilOf(p: EraDay): CivilDate
  {
    var mp := MonthIndex(p.doy);
    var m := MonthOf(mp);
    var y := p.yoe + p.era * 400;
    CivilDate(if m <= 2 then y + 1 else y, m, DayOf(p.doy, mp))
  }

  /** The UTC calendar date of day number `z`, counted from 1970-01-01, in the
      proleptic Gregorian calendar of JavaScript's Date (the days-to-civil
      conversion over 400-year eras). */
  function CivilFromDays(z: int): CivilDate
  {
    CivilOf(EraDayOf(z))
  }

  /** Year within its era of the day `doe` of the era. */
  function YearOfEra(doe: int): int
  {
    (doe - doe / 1460 + doe / 36524 - doe / 146096) / 365
  }

  /** Days of the era before its year `yoe` starts. */
  function DaysBeforeYear(yoe: int): int
  {
    365 * yoe + yoe / 4 - yoe / 100
  }

  /** Month counted from March (0) to February (11) of a day of the year. */
  function MonthIndex(doy: int): int
  {
    (5 * doy + 2) / 153
  }

  function MonthOf(mp: int): int
  {
    if mp < 10 then mp + 3 else mp - 9
  }

  function DayOf(doy: int, mp: int): int
  {
    doy - (153 * mp + 2) / 5 + 1
  }

  lemma DivIs(x: int, k: int, q: int)
    requires k == 4 || k == 100 || k == 365 || k == 1460 || k == 1461 || k == 36524 || k == 146096
    requires q * k <= x < q * k + k
    ensures x / k == q
  {
    if k == 4 {
    } else if k == 100 {
    } else if k == 365 {
    } else if k == 1460 {
    } else if k == 1461 {
    } else if k == 36524 {
    } else {
    }
  }

  /** The year of the era of a day that lies `v` days into the 4-year group
      `g` of the century `c` of the era. */
  lemma YearOfEraIs(doe: int, c: int, g: int, v: int)
    requires 0 <= c <= 3 && 0 <= g && 0 <= v <= 1460 && 1461 * g + v < 36524
    requires doe == 36524 * c + 1461 * g + v
    ensures YearOfEra(doe) == 100 * c + 4 * g + (if v == 1460 then 3 else v / 365)
  {
    var delta := if 24 * c + g + v >= 1460 then 1 else 0;
    DivIs(doe, 1460, 25 * c + g + delta);
    DivIs(doe, 36524, c);
    DivIs(doe, 146096, 0);
    var t := if v == 1460 then 3 else v / 365;
    var n := 36500 * c + 1460 * g + v - delta;
    assert doe - doe / 1460 + doe / 36524 - doe / 146096 == n;
    DivIs(n, 365, 100 * c + 4 * g + t);
  }

  lemma DaysBeforeYearIs(c: int, g: int, t: int)
    requires 0 <= c <= 3 && 0 <= g <= 24 && 0 <= t <= 3
    ensures DaysBeforeYear(100 * c + 4 * g + t) == 36524 * c + 1461 * g + 365 * t
  {
    var y := 100 * c + 4 * g + t;
    DivIs(y, 4, 25 * c + g);
    DivIs(y, 100, c);
  }

  /** Every day of an era falls in one of its 400 years, at most 365 days
      after the year starts. The era splits into centuries of 36524 days
      (the last has 36525) and those into 4-year groups of 1461 days
      (the last of the first three centuries has 1460). */
  lemma EraBounds(doe: int)
    requires 0 <= doe < 146097
    ensures 0 <= YearOfEra(doe) <= 399
    ensures 0 <= doe - DaysBeforeYear(YearOfEra(doe)) <= 365
  {
    if doe == 146096 {
      DivIs(doe, 1460, 100);
      DivIs(doe, 36524, 4);
      DivIs(doe, 146096, 1);
      DivIs(145999, 365, 399);
      assert YearOfEra(doe) == 399;
      DaysBeforeYearIs(3, 24, 3);
    } else {
      var c := doe / 36524;
      var w := doe - 36524 * c;
      var g := w / 1461;
      var v := w - 1461 * g;
      var t := if v == 1460 then 3 else v / 365;
      YearOfEraIs(doe, c, g, v);
      DaysBeforeYearIs(c, g, t);
    }
  }

  lemma MonthDayInjective(doy1: int, doy2: int)
    requires 0 <= doy1 <= 365 && 0 <= doy2 <= 365
    requires MonthOf(MonthIndex(doy1)) == MonthOf(MonthIndex(doy2))
    requires DayOf(doy1, MonthIndex(doy1)) == DayOf(doy2, MonthIndex(doy2))
    ensures doy1 == doy2
  {
    var mp1, mp2 := MonthIndex(doy1), MonthIndex(doy2);
    assert 0 <= mp1 <= 11 && 0 <= mp2 <= 11;
    assert mp1 == mp2;
  }

  lemma YearInjective(yoe1: int, era1: int, yoe2: int, era2: int)
    requires 0 <= yoe1 <= 399 && 0 <= yoe2 <= 399
    requires yoe1 + era1 * 400 == yoe2 + era2 * 400
    ensures era1 == era2 && yoe1 == yoe2
  {
  }

  lemma CivilOfInjective(p1: EraDay, p2: EraDay)
    requires 0 <= p1.yoe <= 399 && 0 <= p1.doy <= 365
    requires 0 <= p2.yoe <= 399 && 0 <= p2.doy <= 365
    requires CivilOf(p1) == CivilOf(p2)
    ensures p1 == p2
  {
    MonthDayInjective(p1.doy, p2.doy);
    YearInjective(p1.yoe, p1.era, p2.yoe, p2.era);
  }

  /** Different day numbers have different calendar dates. */
  lemma CivilFromDaysInjective(z1: int, z2: int)
    requires CivilFromDays(z1) == CivilFromDays(z2)
    ensures z1 == z2
  {
    CivilOfInjective(EraDayOf(z1), EraDayOf(z2));
  }

  /** The number of the UTC day a timestamp falls on, counted from
      1970-01-01 (the floor of the timestamp over a day). */
  function DayNumber(ms: int): int
  {
    ms / DayMs
  }

  /** The date part of todayDateNoTime: the UTC year, month and day of a
      timestamp's day number. todayDateNoTime first resolves its argument
      with getSafeNull (General.TimestampOr), so 0 and an absent timestamp
      are keyed by the clock's day, never by the instant 0. */
  function DayKey(ms: int): CivilDate
  {
    CivilFromDays(DayNumber(ms))
  }

  /** Two timestamps get the same key exactly when they fall on the same
      UTC day; so a map keyed by DayKey is a map keyed by DayNumber with
      its keys renamed. */
  lemma DayKeySameDay(a: int, b: int)
    ensures DayKey(a) == DayKey(b) <==> DayNumber(a) == DayNumber(b)
  {
    if DayKey(a) == DayKey(b) {
      CivilFromDaysInjective(DayNumber(a), DayNumber(b));
    }
  }

  /** The instant 0 falls on 1970-01-01, day 0. */
  lemma EpochKey()
    ensures DayKey(0) == CivilDate(1970, 1, 1)
  {
    assert DayNumber(0) == 0;
    assert 719468 / 146097 == 4;
    assert YearOfEra(135080) == 369;
    assert DaysBeforeYear(369) == 134774;
    assert EraDayOf(0) == EraDay(4, 369, 306);
    assert MonthIndex(306) == 10;
    assert DayOf(306, 10) == 1;
    assert CivilOf(EraDay(4, 369, 306)) == CivilDate(1970, 1, 1);
  }
}
