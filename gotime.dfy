/** The parts of Go's `time` package and of `timestamppb` that the fetcher
    relies on: timestamps, `Before`, fixed zones and the day of the month. */
module GoTime {
  import opened Wrappers

  /** `timestamppb.Timestamp`: seconds since 1970-01-01T00:00:00Z and a
      nanosecond part. */
  datatype Timestamp = Timestamp(seconds: int, nanos: int)

  const NanosPerSecond := 1_000_000_000
  const SecondsPerDay := 86_400

  /** The instant `AsTime()` denotes, in nanoseconds since the epoch
      (`time.Unix` folds an out-of-range nanosecond part into the seconds). */
  function UnixNanos(t: Timestamp): int
  {
    t.seconds * NanosPerSecond + t.nanos
  }

  /** What `AsTime()` reads from a nil `*Timestamp`: the getters return zero. */
  function OrEpoch(t: Option<Timestamp>): Timestamp
  {
    match t
    case Some(ts) => ts
    case None => Timestamp(0, 0)
  }

  /** `Time.Before`. */
  predicate Before(a: Timestamp, b: Timestamp)
  {
    UnixNanos(a) < UnixNanos(b)
  }

  /** A `time.Time`: an instant shown in a fixed zone `offset` seconds east of UTC. */
  datatype Time = Time(instant: Timestamp, offset: int)

  /** The offset of the zone `shanghai` builds: `time.FixedZone("UTC", 8*60*60)`. */
  const ShanghaiOffset := 8 * 60 * 60

  /** `shanghai` (article.go:189-192): the same instant, shown at UTC+8. */
  function Shanghai(t: Timestamp): (r: Time)
    ensures r.instant == t && r.offset == 28_800
  {
    Time(t, ShanghaiOffset)
  }

  /** Whole days from 1970-01-01 to the wall-clock date of `t` (floor division,
      as Go's absolute-time arithmetic does for instants before 1970 too). */
  function WallDays(t: Time): int
  {
    (UnixNanos(t.instant) / NanosPerSecond + t.offset) / SecondsPerDay
  }

  /** A proleptic Gregorian date. */
  datatype Date = Date(year: int, month: int, day: int)

  /** Splits a day count from 0000-03-01 into 400-year eras of 146097 days
      and the day within the era. */
  function EraOf(z: int): (r: (int, int))
    ensures 0 <= r.1 < 146_097 && z == r.0 * 146_097 + r.1
  {
    (z / 146_097, z % 146_097)
  }

  /** A Gregorian leap year. */
  predicate Leap(y: int)
  {
    y % 4 == 0 && (y % 100 != 0 || y % 400 == 0)
  }

  /** Splits a day of an era into the year of the era and the day of that year
      (years start on 1 March, so a year's leap day belongs to the February of
      the next calendar year): centuries of 36524 days, four-year cycles of
      1461 days and years of 365 days, the last century of an era and the last
      year of a cycle taking the extra day. */
  function YearOfEra(doe: int): (r: (int, int))
    requires 0 <= doe < 146_097
    ensures 0 <= r.0 <= 399 && 0 <= r.1 <= 365
    ensures doe == 365 * r.0 + r.0 / 4 - r.0 / 100 + r.1
    ensures r.1 < 365 + (if Leap(r.0 + 1) then 1 else 0)
  {
    var c := if doe / 36_524 == 4 then 3 else doe / 36_524;
    var n := doe - 36_524 * c;
    var q := n / 1_461;
    var n' := n - 1_461 * q;
    var y := if n' / 365 == 4 then 3 else n' / 365;
    var yoe := 100 * c + 4 * q + y;
    assert yoe / 4 == 25 * c + q && yoe / 100 == c;
    assert n' - 365 * y == 365 ==> y == 3 && n' == 1_460;
    assert q == 24 && n' == 1_460 ==> n == 36_524;
    LeapDay(c, q, y, n' - 365 * y);
    (yoe, n' - 365 * y)
  }

  /** Only the last year of a four-year cycle has a 366th day, and in the
      last cycle of a century only when the century is the last of its era. */
  lemma LeapDay(c: int, q: int, y: int, d: int)
    requires 0 <= c <= 3 && 0 <= q <= 24 && 0 <= y <= 3 && 0 <= d <= 365
    requires d == 365 ==> y == 3 && (q == 24 ==> c == 3)
    ensures d < 365 + (if Leap(100 * c + 4 * q + y + 1) then 1 else 0)
  {
    if d == 365 {
      var k := 25 * c + q + 1;
      assert 100 * c + 4 * q + y + 1 == 4 * k;
      if q == 24 {
        assert 4 * k == 400;
      } else {
        assert k % 25 != 0;
        assert (4 * k) % 100 != 0;
      }
    }
  }

  /** Splits a day of a March-based year into the month (0 for March) and the
      day of the month. */
  function MonthOfYear(doy: int): (r: (int, int))
    requires 0 <= doy <= 365
    ensures 0 <= r.0 <= 11 && 1 <= r.1 <= 31
    ensures doy == (153 * r.0 + 2) / 5 + r.1 - 1
    ensures r.1 <= (if r.0 in {1, 3, 6, 8} then 30 else if r.0 == 11 then 29 else 31)
  {
    var mp := (5 * doy + 2) / 153;
    (mp, doy - (153 * mp + 2) / 5 + 1)
  }

  /** The date `days` days after 1970-01-01. */
  function CivilFromDays(days: int): (r: Date)
    ensures 1 <= r.month <= 12 && 1 <= r.day <= 31
  {
    var (era, doe) := EraOf(days + 719_468);
    var (yoe, doy) := YearOfEra(doe);
    var (mp, d) := MonthOfYear(doy);
    var m := if mp < 10 then mp + 3 else mp - 9;
    var year := era * 400 + yoe;
    Date(if m <= 2 then year + 1 else year, m, d)
  }

  /** The day count of a date: the inverse of `CivilFromDays`. */
  function DaysFromCivil(date: Date): int
  {
    var y := if date.month <= 2 then date.year - 1 else date.year;
    var era := y / 400;
    var yoe := y - era * 400;
    var mp := if date.month > 2 then date.month - 3 else date.month + 9;
    var doy := (153 * mp + 2) / 5 + date.day - 1;
    var doe := yoe * 365 + yoe / 4 - yoe / 100 + doy;
    era * 146_097 + doe - 719_468
  }

  /** Distinct days give distinct dates: turning the date back into a day count
      recovers the count. */
  lemma CivilRoundTrip(days: int)
    ensures DaysFromCivil(CivilFromDays(days)) == days
  {
    var (era, doe) := EraOf(days + 719_468);
    var (yoe, doy) := YearOfEra(doe);
    var (mp, d) := MonthOfYear(doy);
    var date := CivilFromDays(days);
    var y := if date.month <= 2 then date.year - 1 else date.year;
    assert y == era * 400 + yoe;
    assert y / 400 == era;
    DaysFromCivilParts(date, era, yoe, doy);
  }

  /** `DaysFromCivil` read through the era, the year of the era and the day of
      the year it computes. */
  lemma DaysFromCivilParts(date: Date, era: int, yoe: int, doy: int)
    requires var y := if date.month <= 2 then date.year - 1 else date.year;
      y / 400 == era && y - era * 400 == yoe
    requires var mp := if date.month > 2 then date.month - 3 else date.month + 9;
      (153 * mp + 2) / 5 + date.day - 1 == doy
    ensures DaysFromCivil(date) == era * 146_097 + yoe * 365 + yoe / 4 - yoe / 100 + doy - 719_468
  {
  }

  /** `Time.Day`: the day of the month of the wall-clock date. */
  function Day(t: Time): (d: int)
    ensures 1 <= d <= 31
  {
    CivilFromDays(WallDays(t)).day
  }

  /** The day count of a date grows one by one with its day of the month. */
  lemma DaysFromCivilDay(date: Date)
    ensures DaysFromCivil(date) == DaysFromCivil(date.(day := 1)) + date.day - 1
  {
    var mp := if date.month > 2 then date.month - 3 else date.month + 9;
    assert (153 * mp + 2) / 5 + date.day - 1 == ((153 * mp + 2) / 5 + 1 - 1) + date.day - 1;
  }

  /** Within one calendar month the difference of the days of the month is
      the number of whole days between the two dates. */
  lemma {:induction false} SameMonthDays(a: int, b: int)
    requires CivilFromDays(a).year == CivilFromDays(b).year
    requires CivilFromDays(a).month == CivilFromDays(b).month
    ensures a - b == CivilFromDays(a).day - CivilFromDays(b).day
  {
    var da, db := CivilFromDays(a), CivilFromDays(b);
    CivilRoundTrip(a);
    CivilRoundTrip(b);
    DaysFromCivilDay(da);
    DaysFromCivilDay(db);
    assert da.(day := 1) == db.(day := 1);
  }

  // The calendar steps for the day counts used in the examples below, one
  // small proof each so that no single proof carries all the arithmetic.

  lemma ErasOfExamples()
    ensures EraOf(18_571 + 719_468) == (5, 7_554)
    ensures EraOf(18_572 + 719_468) == (5, 7_555)
    ensures EraOf(18_688 + 719_468) == (5, 7_671)
    ensures EraOf(18_656 + 719_468) == (5, 7_639)
  {
  }

  lemma MonthsOfExamples()
    ensures MonthOfYear(249) == (8, 5)
    ensures MonthOfYear(250) == (8, 6)
    ensures MonthOfYear(1) == (0, 2)
    ensures MonthOfYear(334) == (10, 29)
  {
  }

  lemma YearOfEra7554()
    ensures YearOfEra(7_554) == (20, 249)
  {
    assert 7_554 / 36_524 == 0 && 7_554 / 1_461 == 5 && 249 / 365 == 0;
  }

  lemma YearOfEra7555()
    ensures YearOfEra(7_555) == (20, 250)
  {
    assert 7_555 / 36_524 == 0 && 7_555 / 1_461 == 5 && 250 / 365 == 0;
  }

  lemma YearOfEra7671()
    ensures YearOfEra(7_671) == (21, 1)
  {
    assert 7_671 / 36_524 == 0 && 7_671 / 1_461 == 5 && 366 / 365 == 1;
  }

  lemma YearOfEra7639()
    ensures YearOfEra(7_639) == (20, 334)
  {
    assert 7_639 / 36_524 == 0 && 7_639 / 1_461 == 5 && 334 / 365 == 0;
  }

  lemma CivilNov5()
    ensures CivilFromDays(18_571) == Date(2020, 11, 5)
  {
    ErasOfExamples();
    MonthsOfExamples();
    YearOfEra7554();
  }

  lemma CivilNov6()
    ensures CivilFromDays(18_572) == Date(2020, 11, 6)
  {
    ErasOfExamples();
    MonthsOfExamples();
    YearOfEra7555();
  }

  lemma CivilMar2()
    ensures CivilFromDays(18_688) == Date(2021, 3, 2)
  {
    ErasOfExamples();
    MonthsOfExamples();
    YearOfEra7671();
  }

  lemma CivilJan29()
    ensures CivilFromDays(18_656) == Date(2021, 1, 29)
  {
    ErasOfExamples();
    MonthsOfExamples();
    YearOfEra7639();
  }

  /** 2020-11-05T13:30:02Z, the instant in the date attribute the fetcher
      reads, falls on 5 November 2020 in UTC+8. */
  lemma ShanghaiDateExample()
    ensures CivilFromDays(WallDays(Shanghai(Timestamp(1_604_583_002, 0)))) == Date(2020, 11, 5)
  {
    assert WallDays(Shanghai(Timestamp(1_604_583_002, 0))) == 18_571;
    CivilNov5();
  }

  /** 2020-11-05T16:30:00Z is already the 6th in UTC+8. */
  lemma ShanghaiDayAhead()
    ensures Day(Shanghai(Timestamp(1_604_593_800, 0))) == 6
  {
    assert WallDays(Shanghai(Timestamp(1_604_593_800, 0))) == 18_572;
    CivilNov6();
  }

  /** The same instant read at offset zero is still the 5th. */
  lemma UtcDayBehind()
    ensures Day(Time(Timestamp(1_604_593_800, 0), 0)) == 5
  {
    assert WallDays(Time(Timestamp(1_604_593_800, 0), 0)) == 18_571;
    CivilNov5();
  }

  /** 2021-03-02T04:00:00Z is the 2nd in UTC+8. */
  lemma DayOfMarchExample()
    ensures Day(Time(Timestamp(1_614_657_600, 0), ShanghaiOffset)) == 2
  {
    assert WallDays(Time(Timestamp(1_614_657_600, 0), ShanghaiOffset)) == 18_688;
    CivilMar2();
  }

  /** 2021-01-29T12:00:00Z is the 29th in UTC+8. */
  lemma DayOfJanuaryExample()
    ensures Day(Shanghai(Timestamp(1_611_921_600, 0))) == 29
  {
    assert WallDays(Shanghai(Timestamp(1_611_921_600, 0))) == 18_656;
    CivilJan29();
  }
}
