/**
 The proleptic Gregorian calendar behind period bucketing
 (internal/registry/analytics.go, PeriodBucket and periodBucketEnd).
 A `Day` is the number of days since 1970-01-01, standing for that midnight UTC;
 every day the analytics code buckets is such a midnight.
 */
module Calendar {

  type Day = int

  /** A year, a month in 1..12 and a day of the month, counted from 1. */
  datatype Date = Date(year: int, month: int, day: int)

  /** Sunday is 0, as in Go's time.Weekday; 1970-01-01 was a Thursday. */
  function Weekday(d: Day): int {
    (d + 4) % 7
  }

  predicate IsLeap(y: int) {
    y % 4 == 0 && (y % 100 != 0 || y % 400 == 0)
  }

  /** 1 January of year `y`. */
  function YearStart(y: int): Day {
    365 * (y - 1970) + (y - 1) / 4 - (y - 1) / 100 + (y - 1) / 400 - 477
  }

  /** Days of a year before the first of its month `m` (0-based). */
  function DaysBefore(y: int, m: int): int
    requires 0 <= m <= 12
  {
    (if m == 0 then 0 else if m == 1 then 31 else if m == 2 then 59 else if m == 3 then 90
     else if m == 4 then 120 else if m == 5 then 151 else if m == 6 then 181 else if m == 7 then 212
     else if m == 8 then 243 else if m == 9 then 273 else if m == 10 then 304 else if m == 11 then 334 else 365)
    + (if m >= 2 && IsLeap(y) then 1 else 0)
  }

  /** The first day of the `n`-th month counted from January of year 0. */
  function MonthStart(n: int): Day {
    YearStart(n / 12) + DaysBefore(n / 12, n % 12)
  }

  /** Go's time.Date at midnight: months and days outside their usual range carry over. */
  function FromDate(y: int, m: int, d: int): Day {
    MonthStart(12 * y + m - 1) + d - 1
  }

  /** Go's time.AddDate. */
  function AddDate(d: Day, years: int, months: int, days: int): Day {
    var c := ToDate(d);
    FromDate(c.year + years, c.month + months, c.day + days)
  }

  lemma QuotientOf(x: int, k: int, q: int)
    requires k in {4, 100, 400} && k * q <= x < k * q + k
    ensures x / k == q
  {
  }

  /** YearStart without divisions, for a year given by its place in the 400-year cycle. */
  lemma YearStartOfCycle(a: int, b: int, c: int, e: int)
    requires 0 <= b < 4 && 0 <= c < 25 && 0 <= e < 4
    ensures YearStart(400 * a + 100 * b + 4 * c + e + 1) == 146097 * a + 36524 * b + 1461 * c + 365 * e - 719162
  {
    var x := 400 * a + 100 * b + 4 * c + e;
    QuotientOf(x, 4, 100 * a + 25 * b + c);
    QuotientOf(x, 100, 4 * a + b);
    QuotientOf(x, 400, a);
  }

  lemma QuotientStep(x: int)
    ensures x / 4 - (x - 1) / 4 == if x % 4 == 0 then 1 else 0
    ensures x / 100 - (x - 1) / 100 == if x % 100 == 0 then 1 else 0
    ensures x / 400 - (x - 1) / 400 == if x % 400 == 0 then 1 else 0
  {
  }

  lemma YearLength(y: int)
    ensures YearStart(y + 1) - YearStart(y) == DaysBefore(y, 12)
  {
    QuotientStep(y);
    assert y % 400 == 0 ==> y % 100 == 0 by {
      assert y == 400 * (y / 400) + y % 400;
      if y % 400 == 0 {
        QuotientOf(y, 100, 4 * (y / 400));
      }
    }
    assert y % 100 == 0 ==> y % 4 == 0 by {
      if y % 100 == 0 {
        QuotientOf(y, 4, 25 * (y / 100));
      }
    }
  }

  /** The year of a day, by peeling off 400-, 100-, 4- and 1-year cycles. */
  function YearOf(d: Day): (y: int)
    ensures YearStart(y) <= d < YearStart(y + 1)
  {
    var r400 := d + 719162;
    var a, r100 := r400 / 146097, r400 % 146097;
    var b := if r100 / 36524 == 4 then 3 else r100 / 36524;
    var r4 := r100 - 36524 * b;
    var c, r1 := r4 / 1461, r4 % 1461;
    var e := if r1 / 365 == 4 then 3 else r1 / 365;
    var y := 400 * a + 100 * b + 4 * c + e + 1;
    assert YearStart(y) <= d < YearStart(y + 1) by {
      YearStartOfCycle(a, b, c, e);
      NextYearOfCycle(a, b, c, e);
    }
    y
  }

  lemma NextYearOfCycle(a: int, b: int, c: int, e: int)
    requires 0 <= b < 4 && 0 <= c < 25 && 0 <= e < 4
    ensures YearStart(400 * a + 100 * b + 4 * c + e + 2)
            == 146097 * a + 36524 * b + 1461 * c + 365 * (e + 1) - 719162
               + (if e == 3 && (c < 24 || b == 3) then 1 else 0)
  {
    if e < 3 {
      YearStartOfCycle(a, b, c, e + 1);
    } else if c < 24 {
      YearStartOfCycle(a, b, c + 1, 0);
    } else if b < 3 {
      YearStartOfCycle(a, b + 1, 0, 0);
    } else {
      YearStartOfCycle(a + 1, 0, 0, 0);
    }
  }

  function MonthIn(y: int, yday: int): (m: int)
    requires 0 <= yday < DaysBefore(y, 12)
    ensures 0 <= m < 12 && DaysBefore(y, m) <= yday < DaysBefore(y, m + 1)
  {
    if yday < DaysBefore(y, 1) then 0 else if yday < DaysBefore(y, 2) then 1
    else if yday < DaysBefore(y, 3) then 2 else if yday < DaysBefore(y, 4) then 3
    else if yday < DaysBefore(y, 5) then 4 else if yday < DaysBefore(y, 6) then 5
    else if yday < DaysBefore(y, 7) then 6 else if yday < DaysBefore(y, 8) then 7
    else if yday < DaysBefore(y, 9) then 8 else if yday < DaysBefore(y, 10) then 9
    else if yday < DaysBefore(y, 11) then 10 else 11
  }

  // ---------- the calendar is a calendar ----------

  lemma MonthOfYear(y: int, m: int)
    requires 0 <= m < 12
    ensures (12 * y + m) / 12 == y && (12 * y + m) % 12 == m
    ensures MonthStart(12 * y + m) == YearStart(y) + DaysBefore(y, m)
    ensures MonthStart(12 * y + m + 1) == YearStart(y) + DaysBefore(y, m + 1)
  {
    hide YearStart;
    if m == 11 {
      YearLength(y);
      assert (12 * y + 12) / 12 == y + 1 && (12 * y + 12) % 12 == 0;
    } else {
      assert (12 * y + m + 1) / 12 == y && (12 * y + m + 1) % 12 == m + 1;
    }
  }

  lemma MonthLength(n: int)
    ensures 28 <= MonthStart(n + 1) - MonthStart(n) <= 31
  {
    hide YearStart, MonthStart;
    MonthOfYear(n / 12, n % 12);
    assert n == 12 * (n / 12) + n % 12;
  }

  /** The Gregorian month lengths. */
  lemma MonthLengths(y: int, m: int)
    requires 1 <= m <= 12
    ensures MonthStart(12 * y + m) - MonthStart(12 * y + m - 1)
            == if m in {4, 6, 9, 11} then 30
               else if m == 2 then (if y % 4 == 0 && (y % 100 != 0 || y % 400 == 0) then 29 else 28)
               else 31
  {
    hide MonthStart, YearStart;
    MonthOfYear(y, m - 1);
  }

  lemma {:induction false} MonthStartIncreasing(n: int, k: nat)
    ensures MonthStart(n) + 28 * k <= MonthStart(n + k)
  {
    hide MonthStart;
    if k > 0 {
      MonthLength(n + k - 1);
      MonthStartIncreasing(n, k - 1);
    }
  }

  /** The calendar date of a day. */
  function ToDate(d: Day): (c: Date)
    ensures 1 <= c.month <= 12 && c.day >= 1
  {
    var y := YearOf(d);
    var yday := d - YearStart(y);
    assert yday < DaysBefore(y, 12) by {
      YearLength(y);
    }
    var m := MonthIn(y, yday);
    Date(y, m + 1, yday - DaysBefore(y, m) + 1)
  }

  /** The month a day lies in, counted from January of year 0. */
  function MonthIndex(d: Day): int {
    12 * ToDate(d).year + ToDate(d).month - 1
  }

  lemma MonthContainsDay(d: Day)
    ensures MonthStart(MonthIndex(d)) + ToDate(d).day - 1 == d < MonthStart(MonthIndex(d) + 1)
  {
    hide YearStart, MonthStart, YearOf, MonthIn, DaysBefore;
    MonthOfYear(ToDate(d).year, ToDate(d).month - 1);
    YearLength(ToDate(d).year);
  }

  lemma MonthIsUnique(d: Day, n: int)
    requires MonthStart(n) <= d < MonthStart(n + 1)
    ensures MonthIndex(d) == n
  {
    hide *;
    MonthContainsDay(d);
    var m := MonthIndex(d);
    if m < n {
      MonthStartIncreasing(m + 1, n - m - 1);
    } else if n < m {
      MonthStartIncreasing(n + 1, m - n - 1);
    }
  }

  /** Reading a day as a date and building the date again gives the day back. */
  lemma DateRoundTrip(d: Day)
    ensures var c := ToDate(d); FromDate(c.year, c.month, c.day) == d
  {
    hide YearStart, MonthStart, YearOf, MonthIn, DaysBefore;
    MonthContainsDay(d);
  }

  /** Building a valid date and reading it gives the date back. */
  lemma DayRoundTrip(y: int, m: int, d: int)
    requires 1 <= m <= 12 && 1 <= d <= MonthStart(12 * y + m) - MonthStart(12 * y + m - 1)
    ensures ToDate(FromDate(y, m, d)) == Date(y, m, d)
  {
    hide YearStart, MonthStart, YearOf, MonthIn, DaysBefore;
    var x := FromDate(y, m, d);
    MonthIsUnique(x, 12 * y + m - 1);
    MonthContainsDay(x);
  }

  /** AddDate in days is addition, whatever the date. */
  lemma AddDays(d: Day, k: int)
    ensures AddDate(d, 0, 0, k) == d + k
  {
    hide MonthStart, ToDate;
    DateRoundTrip(d);
  }

  /** AddDate by one month from the first of a month is the first of the next, December included. */
  lemma AddMonth(n: int)
    ensures AddDate(MonthStart(n), 0, 1, 0) == MonthStart(n + 1)
  {
    hide YearStart, MonthStart, YearOf, MonthIn, DaysBefore;
    MonthLength(n);
    MonthIsUnique(MonthStart(n), n);
    DateRoundTrip(MonthStart(n));
  }

  // ---------- period buckets ----------

  datatype Period = Weekly | Monthly | Daily

  function PeriodBucket(day: Day, period: Period): Day {
    match period
    case Weekly =>
      var offset := (Weekday(day) + 6) % 7;
      AddDate(day, 0, 0, -offset)
    case Monthly => FromDate(ToDate(day).year, ToDate(day).month, 1)
    case Daily => day
  }

  function PeriodBucketEnd(bucketStart: Day, period: Period): Day {
    match period
    case Weekly => AddDate(bucketStart, 0, 0, 7)
    case Monthly => AddDate(bucketStart, 0, 1, 0)
    case Daily => AddDate(bucketStart, 0, 0, 1)
  }

  /** Buckets in closed form: the Monday on or before, the first of the month, the day itself. */
  lemma BucketForm(d: Day, p: Period)
    ensures PeriodBucket(d, p) == match p
                                  case Weekly => d - (d + 3) % 7
                                  case Monthly => MonthStart(MonthIndex(d))
                                  case Daily => d
  {
    hide MonthStart, ToDate;
    if p.Weekly? {
      AddDays(d, -((Weekday(d) + 6) % 7));
      assert ((d + 4) % 7 + 6) % 7 == (d + 3) % 7;
    }
  }

  lemma EndForm(b: Day, p: Period)
    requires PeriodBucket(b, p) == b
    ensures PeriodBucketEnd(b, p) == match p
                                     case Weekly => b + 7
                                     case Monthly => MonthStart(MonthIndex(b) + 1)
                                     case Daily => b + 1
  {
    hide MonthStart, MonthIndex, PeriodBucket, AddDate;
    BucketForm(b, p);
    match p
    case Weekly => AddDays(b, 7);
    case Monthly => AddMonth(MonthIndex(b));
    case Daily => AddDays(b, 1);
  }

  /** A bucket start is its own bucket. */
  lemma BucketIdempotent(d: Day, p: Period)
    ensures PeriodBucket(PeriodBucket(d, p), p) == PeriodBucket(d, p)
  {
    hide *;
    var b := PeriodBucket(d, p);
    BucketForm(d, p);
    BucketForm(b, p);
    if p.Monthly? {
      MonthLength(MonthIndex(d));
      MonthIsUnique(b, MonthIndex(d));
    } else if p.Weekly? {
      assert (b + 3) % 7 == 0;
    }
  }

  /** The days of a bucket are exactly the half-open interval from its start to its end. */
  lemma BucketIsInterval(b: Day, d: Day, p: Period)
    requires PeriodBucket(b, p) == b
    ensures PeriodBucket(d, p) == b <==> b <= d < PeriodBucketEnd(b, p)
  {
    hide *;
    MonthContainsDay(d);
    MonthContainsDay(b);
    BucketForm(d, p);
    BucketForm(b, p);
    EndForm(b, p);
    if p.Monthly? {
      var n := MonthIndex(b);
      if b <= d < PeriodBucketEnd(b, p) {
        MonthIsUnique(d, n);
      }
      if PeriodBucket(d, p) == b {
        MonthLength(MonthIndex(d));
        MonthIsUnique(b, MonthIndex(d));
      }
    }
  }

  /** Every day lies in its own bucket, before the bucket's end. */
  lemma BucketContainsDay(d: Day, p: Period)
    ensures PeriodBucket(d, p) <= d < PeriodBucketEnd(PeriodBucket(d, p), p)
  {
    BucketIdempotent(d, p);
    BucketIsInterval(PeriodBucket(d, p), d, p);
  }

  /** Buckets tile the day line: the end of one is the start of the next. */
  lemma BucketsTile(d: Day, p: Period)
    ensures var next := PeriodBucketEnd(PeriodBucket(d, p), p);
            PeriodBucket(next, p) == next
  {
    hide *;
    var b := PeriodBucket(d, p);
    var next := PeriodBucketEnd(b, p);
    BucketIdempotent(d, p);
    BucketForm(b, p);
    EndForm(b, p);
    BucketForm(next, p);
    if p.Monthly? {
      MonthLength(MonthIndex(b) + 1);
      MonthIsUnique(next, MonthIndex(b) + 1);
    }
  }

  lemma BucketMonotone(d: Day, e: Day, p: Period)
    requires d <= e
    ensures PeriodBucket(d, p) <= PeriodBucket(e, p)
  {
    var b := PeriodBucket(e, p);
    if d < b {
      BucketContainsDay(d, p);
    } else {
      BucketContainsDay(e, p);
      BucketIdempotent(e, p);
      BucketIsInterval(b, d, p);
    }
  }

  /** Anchors: the epoch, the leap day 2024-02-29 and the days around it, and 1 May 2024. */
  lemma KnownDates()
    ensures FromDate(1970, 1, 1) == 0 && Weekday(0) == 4
    ensures FromDate(2024, 2, 26) == 19779 && FromDate(2024, 2, 29) == 19782 && FromDate(2024, 3, 1) == 19783
    ensures FromDate(2024, 5, 1) == 19844
  {
    hide MonthStart;
    MonthOfYear(1970, 0);
    MonthOfYear(2024, 1);
    MonthOfYear(2024, 4);
  }

  /** The week of the leap day starts on Monday 26 February, its month on the 1st; 1 May starts its own month. */
  lemma LeapDayBuckets()
    ensures PeriodBucket(FromDate(2024, 2, 29), Weekly) == FromDate(2024, 2, 26)
    ensures PeriodBucket(FromDate(2024, 2, 29), Monthly) == FromDate(2024, 2, 1)
    ensures PeriodBucket(19844, Monthly) == 19844 == FromDate(2024, 5, 1)
  {
    hide MonthStart, ToDate;
    KnownDates();
    BucketForm(19782, Weekly);
    DayRoundTrip(2024, 2, 29) by {
      MonthOfYear(2024, 1);
    }
    DayRoundTrip(2024, 5, 1) by {
      MonthOfYear(2024, 4);
    }
  }

  /** The monthly bucket of the d-th of a month is the first of that month, for every date of the calendar. */
  lemma MonthlyBucketIsTheFirst(y: int, m: int, d: int)
    requires 1 <= m <= 12 && 1 <= d
    requires d <= if m in {4, 6, 9, 11} then 30
                  else if m == 2 then (if y % 4 == 0 && (y % 100 != 0 || y % 400 == 0) then 29 else 28)
                  else 31
    ensures PeriodBucket(FromDate(y, m, d), Monthly) == FromDate(y, m, 1) == FromDate(y, m, d) - d + 1
  {
    hide MonthStart, ToDate;
    MonthLengths(y, m);
    DayRoundTrip(y, m, d);
  }
}
