/** Quota periods and the time bucket a moment falls in (`period_bucket`). Times are whole microseconds since
    1970-01-01T00:00:00Z, the resolution of Python's datetime. A bucket is numbered instead of being printed
    as an ISO label; the label is the printed start of the bucket, so equal numbers mean equal labels. */
module Calendar {
  import opened Prelude
  import opened Text

  type Time = nat

  datatype Period = TenSeconds | Hour | Day | Week | Month | Infinite

  // `normalize_quota_period`: "lifetime" is another name for "infinite", anything else unknown is refused.
  function ParsePeriod(text: string): Option<Period> {
    var name := Lower(Strip(text));
    if name == "10s" then Some(TenSeconds)
    else if name == "hour" then Some(Hour)
    else if name == "day" then Some(Day)
    else if name == "week" then Some(Week)
    else if name == "month" then Some(Month)
    else if name == "infinite" || name == "lifetime" then Some(Infinite)
    else None
  }

  const SECOND: nat := 1_000_000
  const DAY: nat := 86_400 * SECOND

  // Months are counted from January 1970.
  function MonthLength(month: nat): (days: nat)
    ensures 28 <= days <= 31
  {
    var year := 1970 + month / 12;
    var m := month % 12;
    if m == 1 then
      if year % 4 == 0 && (year % 100 != 0 || year % 400 == 0) then 29 else 28
    else if m == 3 || m == 5 || m == 8 || m == 10 then 30 else 31
  }

  function MonthStart(month: nat): (day: nat)
  {
    if month == 0 then 0 else MonthStart(month - 1) + MonthLength(month - 1)
  }

  // The calendar month of a day, searching forward from a month that starts on or before it.
  function MonthOf(day: nat, from: nat): (month: nat)
    requires MonthStart(from) <= day
    ensures MonthStart(month) <= day < MonthStart(month + 1)
    decreases day - MonthStart(from)
  {
    if day < MonthStart(from + 1) then from else MonthOf(day, from + 1)
  }

  function Bucket(t: Time, p: Period): nat {
    match p
    case TenSeconds => t / (10 * SECOND)
    case Hour => t / (3600 * SECOND)
    case Day => t / DAY
    case Week => (t / DAY + 3) / 7     // 1970-01-01 was a Thursday; weeks start on Monday
    case Month => MonthOf(t / DAY, 0)
    case Infinite => 0
  }

  // The first moment of a bucket; the week that contains 1970-01-01 began before the epoch.
  function BucketStart(b: nat, p: Period): int {
    match p
    case TenSeconds => b * 10 * SECOND
    case Hour => b * 3600 * SECOND
    case Day => b * DAY
    case Week => (7 * b - 3) * DAY
    case Month => MonthStart(b) * DAY
    case Infinite => 0
  }

  // A bucket is exactly the span between its own start and the next bucket's start.
  lemma BucketSpansTime(t: Time, p: Period)
    ensures BucketStart(Bucket(t, p), p) <= t
    ensures p != Infinite ==> t < BucketStart(Bucket(t, p) + 1, p)
  {
    if p == Month {
      hide MonthStart, MonthLength;
      var m := MonthOf(t / DAY, 0);
      DaySpans(t, MonthStart(m), MonthStart(m + 1));
    } else if p == Week {
      var week := (t / DAY + 3) / 7;
      DaySpans(t, 7 * week - 3, 7 * (week + 1) - 3);
    }
  }

  lemma DaySpans(t: Time, from: int, until: int)
    requires from <= t / DAY < until
    ensures from * DAY <= t < until * DAY
  {
  }

  lemma {:induction false} MonthStartsRise(a: nat, b: nat)
    requires a <= b
    ensures MonthStart(a) <= MonthStart(b)
    decreases b
  {
    if a < b { MonthStartsRise(a, b - 1); }
  }

  // As time passes buckets never go back: rolling over is the only change.
  lemma BucketsRise(t: Time, u: Time, p: Period)
    requires t <= u
    ensures Bucket(t, p) <= Bucket(u, p)
  {
    match p
    case Month =>
      var a, b := MonthOf(t / DAY, 0), MonthOf(u / DAY, 0);
      assert t / DAY <= u / DAY;
      if b < a { MonthStartsRise(b + 1, a); }
    case _ =>
  }

  // --- what the periods are -----------------------------------------------------------------------------------

  // Buckets of a fixed length last ten seconds, an hour, a day or seven days; months last 28 to 31 days.
  lemma BucketLengths(b: nat, p: Period)
    ensures var span := BucketStart(b + 1, p) - BucketStart(b, p);
            match p
            case TenSeconds => span == 10_000_000
            case Hour => span == 3_600_000_000
            case Day => span == 86_400_000_000
            case Week => span == 604_800_000_000
            case Month => 28 * 86_400_000_000 <= span <= 31 * 86_400_000_000
            case Infinite => span == 0
  {
  }

  // Day 0, 1970-01-01, was a Thursday.
  function Weekday(day: int): nat { (day + 3) % 7 }       // 0 is Monday, as in `datetime.weekday`

  lemma WeeksStartOnMonday(b: nat)
    ensures BucketStart(b, Week) % 86_400_000_000 == 0 && Weekday(BucketStart(b, Week) / 86_400_000_000) == 0
  {
    var day := 7 * b - 3;
    assert BucketStart(b, Week) == day * 86_400_000_000;
    assert day + 3 == 7 * b;
  }

  // A day is in the month whose first day is the last one not after it: there is no other candidate.
  lemma MonthIsUnique(day: nat, a: nat, b: nat)
    requires MonthStart(a) <= day < MonthStart(a + 1) && MonthStart(b) <= day < MonthStart(b + 1)
    ensures a == b
  {
    if a < b { MonthStartsRise(a + 1, b); }
    if b < a { MonthStartsRise(b + 1, a); }
  }

  // The Gregorian calendar in closed form: the days from the epoch to the first of January of a year, and from
  // there to the first of each month.
  function NewYear(year: nat): int
    requires year >= 1970
  {
    365 * (year - 1970) + (year - 1) / 4 - (year - 1) / 100 + (year - 1) / 400 - 477
  }

  function DaysBefore(m: nat): nat
    requires m < 12
  {
    [0, 31, 59, 90, 120, 151, 181, 212, 243, 273, 304, 334][m]
  }

  predicate Leap(year: nat) { year % 400 == 0 || (year % 4 == 0 && year % 100 != 0) }

  lemma NextQuotient(n: nat)
    ensures (n + 1) / 4 == n / 4 + if (n + 1) % 4 == 0 then 1 else 0
    ensures (n + 1) / 100 == n / 100 + if (n + 1) % 100 == 0 then 1 else 0
    ensures (n + 1) / 400 == n / 400 + if (n + 1) % 400 == 0 then 1 else 0
  {
  }

  lemma Divisors(n: nat)
    ensures n % 400 == 0 ==> n % 100 == 0
    ensures n % 100 == 0 ==> n % 4 == 0
  {
    if n % 400 == 0 { Hundreds(4 * (n / 400)); }
    if n % 100 == 0 { Fours(25 * (n / 100)); }
  }

  lemma Hundreds(k: nat)
    ensures 100 * k % 100 == 0
  {
  }

  lemma Fours(k: nat)
    ensures 4 * k % 4 == 0
  {
  }

  lemma LeapDays(year: nat)
    requires year >= 1970
    ensures NewYear(year + 1) == NewYear(year) + if Leap(year) then 366 else 365
  {
    var a, b, c := (year - 1) / 4, (year - 1) / 100, (year - 1) / 400;
    var l, m, n := year / 4, year / 100, year / 400;
    NextQuotient(year - 1);
    Divisors(year);
    assert NewYear(year) == 365 * (year - 1970) + a - b + c - 477;
    assert NewYear(year + 1) == 365 * (year + 1 - 1970) + l - m + n - 477;
    hide NewYear;
  }

  lemma {:induction false} MonthsOfTheYear(year: nat, m: nat)
    requires year >= 1970 && m < 12
    ensures MonthStart(12 * (year - 1970) + m) == NewYear(year) + DaysBefore(m) + if m > 1 && Leap(year) then 1 else 0
    decreases year, m
  {
    Epoch();
    hide MonthStart, NewYear, DaysBefore, Leap;
    if m > 0 {
      MonthsOfTheYear(year, m - 1);
      NextMonth(year, m - 1);
    } else if year > 1970 {
      MonthsOfTheYear(year - 1, 11);
      NextMonth(year - 1, 11);
      LeapDays(year - 1);
    }
  }

  lemma Epoch()
    ensures MonthStart(0) == 0 == NewYear(1970) && DaysBefore(0) == 0 && DaysBefore(11) == 334
  {
  }

  lemma NextMonth(year: nat, m: nat)
    requires year >= 1970 && m < 12
    ensures var k := 12 * (year - 1970) + m;
            MonthStart(k + 1) == MonthStart(k) + (if m == 11 then 31 else DaysBefore(m + 1) - DaysBefore(m)) + if m == 1 && Leap(year) then 1 else 0
  {
    MonthInYear(year, m);
    LengthIs(12 * (year - 1970) + m, year, m);
    hide MonthLength, Leap;
  }

  lemma LengthIs(k: nat, year: nat, m: nat)
    requires year == 1970 + k / 12 && m == k % 12
    ensures MonthLength(k) == (if m == 11 then 31 else DaysBefore(m + 1) - DaysBefore(m)) + if m == 1 && Leap(year) then 1 else 0
  {
    Divisors(year);
  }

  lemma MonthInYear(year: nat, m: nat)
    requires year >= 1970 && m < 12
    ensures (12 * (year - 1970) + m) / 12 == year - 1970 && (12 * (year - 1970) + m) % 12 == m
  {
  }

  // So every moment of a date falls in the bucket of its year and month.
  lemma MonthOfDate(year: nat, m: nat, day: nat, t: Time)
    requires year >= 1970 && m < 12 && day < MonthLength(12 * (year - 1970) + m)
    requires t / 86_400_000_000 == NewYear(year) + DaysBefore(m) + (if m > 1 && Leap(year) then 1 else 0) + day
    ensures Bucket(t, Month) == 12 * (year - 1970) + m
  {
    MonthsOfTheYear(year, m);
    MonthIsUnique(t / DAY, MonthOf(t / DAY, 0), 12 * (year - 1970) + m);
    hide NewYear, DaysBefore, MonthLength;
  }

  // --- the names of the periods ---------------------------------------------------------------------------------

  const NAMES := map["10s" := TenSeconds, "hour" := Hour, "day" := Day, "week" := Week, "month" := Month,
                     "infinite" := Infinite, "lifetime" := Infinite]

  predicate Spaces(s: string) { forall i :: 0 <= i < |s| ==> IsSpace(s[i]) }

  // A name counts in any case and with any white space around it.
  lemma PeriodNames(left: string, name: string, right: string)
    requires Spaces(left) && Spaces(right) && (name == "" || (!IsSpace(name[0]) && !IsSpace(name[|name| - 1])))
    ensures ParsePeriod(left + name + right) == if Lower(name) in NAMES then Some(NAMES[Lower(name)]) else None
  {
    StripIs(left, name, right);
    hide IsSpace, Strip;
  }
}
