/** The time buckets of the dashboard series. */
module MetricBuckets {
  import opened Calendar

  datatype Bucket = Hour | Day | Week | Month

  function Midnight(d: Date): DateTime {
    DateTime(d, 0, 0)
  }

  function BucketStart(t: DateTime, b: Bucket): DateTime {
    match b
    case Month => Midnight(Date(t.date.year, t.date.month, 1))
    case Week => Midnight(AddDays(t.date, -Weekday(t.date)))
    case Day => Midnight(t.date)
    case Hour => DateTime(t.date, t.hour, 0)
  }

  function NextBucket(t: DateTime, b: Bucket): DateTime {
    match b
    case Hour => if t.hour < 23 then t.(hour := t.hour + 1) else DateTime(NextDay(t.date), 0, t.micros)
    case Day => t.(date := AddDays(t.date, 1))
    case Week => t.(date := AddDays(t.date, 7))
    case Month =>
      if t.date.month < 12 then t.(date := Date(t.date.year, t.date.month + 1, 1))
      else t.(date := Date(t.date.year + 1, 1, 1))
  }

  // ---- slots ----

  /** Buckets in their order have consecutive numbers. */
  function Slot(t: DateTime, b: Bucket): int {
    match b
    case Hour => Ordinal(t.date) * 24 + t.hour
    case Day => Ordinal(t.date)
    case Week => (Ordinal(t.date) + 6) / 7
    case Month => t.date.year * 12 + t.date.month
  }

  predicate IsStart(t: DateTime, b: Bucket) {
    Valid(t) && BucketStart(t, b) == t
  }

  lemma StartNumber(t: DateTime, b: Bucket)
    requires Valid(t)
    ensures Valid(BucketStart(t, b)) && Slot(BucketStart(t, b), b) == Slot(t, b)
  {
    if b == Week { AddDaysNumber(t.date, -Weekday(t.date)); }
  }

  /** Weeks start at midnight of a Monday. */
  lemma WeekStart(x: DateTime)
    requires Valid(x)
    ensures IsStart(x, Week) <==> x.hour == 0 && x.micros == 0 && Weekday(x.date) == 0
  {
    hide Ordinal;
    AddDaysNumber(x.date, -Weekday(x.date));
    assert AddDays(x.date, 0) == x.date;
  }

  lemma StartIsStart(t: DateTime, b: Bucket)
    requires Valid(t)
    ensures IsStart(BucketStart(t, b), b) && NotAfter(BucketStart(t, b), t)
  {
    hide Ordinal, AddDays;
    StartNumber(t, b);
    if b == Week {
      AddDaysNumber(t.date, -Weekday(t.date));
      WeekStart(BucketStart(t, b));
      SameDay(BucketStart(t, b).date, t.date);
    }
  }

  /** 5 January 1970 was a Monday. */
  const MONDAY := Date(1970, 1, 5)

  /** Some whole number of weeks lies between that Monday and the day. */
  ghost predicate IsMonday(d: Date) {
    exists k: int :: WeeksLater(d, k)
  }

  ghost predicate WeeksLater(d: Date, k: int) {
    d == AddDays(MONDAY, 7 * k)
  }

  lemma MondayNumber()
    ensures ValidDate(MONDAY) && Ordinal(MONDAY) == 719167
  {
  }

  lemma WholeWeeks(n: int)
    requires (n + 6) % 7 == 0
    ensures n == 719167 + 7 * ((n - 719167) / 7)
  {
  }

  lemma MondayNumbers(d: Date)
    requires Weekday(d) == 0
    ensures (Ordinal(d) + 6) % 7 == 0
  {
    hide Ordinal;
  }

  lemma MondaysAreWeeksApart(d: Date)
    requires ValidDate(d) && Weekday(d) == 0
    ensures IsMonday(d)
  {
    hide Ordinal, AddDays, Weekday, ValidDate;
    MondayNumber();
    MondayNumbers(d);
    WholeWeeks(Ordinal(d));
    var k := (Ordinal(d) - 719167) / 7;
    DaysApart(MONDAY, d, 7 * k);
    assert WeeksLater(d, k);
  }

  lemma DaysApart(d: Date, e: Date, n: int)
    requires ValidDate(d) && ValidDate(e) && Ordinal(e) == Ordinal(d) + n
    ensures e == AddDays(d, n)
  {
    AddDaysNumber(d, n);
    SameDay(AddDays(d, n), e);
  }

  /**
   * Where a bucket starts: at the hour, at midnight of the day, at midnight of the Monday on or up to
   * six days before it, or at midnight of the first of its month.
   */
  lemma StartMeans(t: DateTime)
    requires Valid(t)
    ensures BucketStart(t, Hour) == DateTime(t.date, t.hour, 0)
    ensures BucketStart(t, Day) == DateTime(t.date, 0, 0)
    ensures BucketStart(t, Month) == DateTime(Date(t.date.year, t.date.month, 1), 0, 0)
    ensures var s := BucketStart(t, Week);
      s.hour == 0 && s.micros == 0 && IsMonday(s.date) && exists n :: 0 <= n <= 6 && t.date == AddDays(s.date, n)
  {
    hide Ordinal, AddDays, IsMonday;
    var n := Weekday(t.date);
    var s := BucketStart(t, Week);
    StartIsStart(t, Week);
    WeekStart(s);
    MondaysAreWeeksApart(s.date);
    AddDaysNumber(t.date, -n);
    DaysApart(s.date, t.date, n);
  }

  lemma LaterSlot(x: DateTime, y: DateTime, b: Bucket)
    requires Valid(x) && Valid(y) && NotAfter(x, y)
    ensures Slot(x, b) <= Slot(y, b)
  {
    SameDay(x.date, y.date);
  }

  lemma SlotDecides(x: DateTime, y: DateTime, b: Bucket)
    requires IsStart(x, b) && IsStart(y, b) && Slot(x, b) == Slot(y, b)
    ensures x == y
  {
    hide Ordinal, AddDays;
    SameDay(x.date, y.date);
    WeekStart(x);
    WeekStart(y);
  }

  lemma NextWeek(x: DateTime)
    requires IsStart(x, Week)
    ensures IsStart(NextBucket(x, Week), Week) && Slot(NextBucket(x, Week), Week) == Slot(x, Week) + 1
  {
    hide Ordinal, AddDays;
    AddDaysNumber(x.date, 7);
    WeekStart(x);
    WeekStart(NextBucket(x, Week));
  }

  lemma NextSlot(x: DateTime, b: Bucket)
    requires IsStart(x, b)
    ensures IsStart(NextBucket(x, b), b) && Slot(NextBucket(x, b), b) == Slot(x, b) + 1
  {
    hide Ordinal;
    match b {
      case Hour => NextDayNumber(x.date);
      case Day => AddDaysNumber(x.date, 1);
      case Week => NextWeek(x);
      case Month =>
    }
  }

  lemma TotalOrder(x: DateTime, y: DateTime)
    requires Valid(x) && Valid(y)
    ensures Before(x, y) || x == y || Before(y, x)
    ensures !(Before(x, y) && Before(y, x)) && !Before(x, x)
  {
  }

  /** A bucket begins no later than a moment exactly when its number is no larger. */
  lemma StartsBy(x: DateTime, t: DateTime, b: Bucket)
    requires IsStart(x, b) && Valid(t)
    ensures NotAfter(x, t) <==> Slot(x, b) <= Slot(t, b)
  {
    if NotAfter(x, t) { LaterSlot(x, t, b); }
    TotalOrder(x, t);
    if Before(t, x) {
      LaterSlot(t, x, b);
      if Slot(x, b) == Slot(t, b) {
        StartIsStart(t, b);
        StartNumber(t, b);
        SlotDecides(x, BucketStart(t, b), b);
        TotalOrder(BucketStart(t, b), t);
      }
    }
  }

  // ---- building the buckets ----

  /** The buckets from a cursor on that begin by the end. */
  function BucketsFrom(cursor: DateTime, end: DateTime, b: Bucket): seq<DateTime>
    requires IsStart(cursor, b) && Valid(end)
    decreases Slot(end, b) - Slot(cursor, b)
  {
    if NotAfter(cursor, end) then
      StartsBy(cursor, end, b);
      NextSlot(cursor, b);
      [cursor] + BucketsFrom(NextBucket(cursor, b), end, b)
    else []
  }

  function Buckets(start: DateTime, end: DateTime, b: Bucket): seq<DateTime>
    requires Valid(start) && Valid(end)
  {
    StartIsStart(start, b);
    BucketsFrom(BucketStart(start, b), end, b)
  }

  method BuildBuckets(start: DateTime, end: DateTime, b: Bucket) returns (buckets: seq<DateTime>)
    requires Valid(start) && Valid(end)
    ensures buckets == Buckets(start, end, b)
  {
    hide Slot, NextBucket, BucketStart, NotAfter, IsStart, Valid;
    StartIsStart(start, b);
    var cursor := BucketStart(start, b);
    buckets := [];
    while NotAfter(cursor, end)
      invariant IsStart(cursor, b) && Buckets(start, end, b) == buckets + BucketsFrom(cursor, end, b)
      decreases Slot(end, b) - Slot(cursor, b)
    {
      StartsBy(cursor, end, b);
      NextSlot(cursor, b);
      buckets := buckets + [cursor];
      cursor := NextBucket(cursor, b);
    }
  }

  /** The buckets have all numbers from that of the start to that of the end. */
  lemma {:induction false} BucketNumbers(cursor: DateTime, end: DateTime, b: Bucket)
    requires IsStart(cursor, b) && Valid(end)
    ensures var bs, n := BucketsFrom(cursor, end, b), Slot(end, b) - Slot(cursor, b) + 1;
      |bs| == (if n < 0 then 0 else n) &&
      forall i :: 0 <= i < |bs| ==> IsStart(bs[i], b) && Slot(bs[i], b) == Slot(cursor, b) + i
    decreases Slot(end, b) - Slot(cursor, b)
  {
    StartsBy(cursor, end, b);
    if NotAfter(cursor, end) {
      NextSlot(cursor, b);
      BucketNumbers(NextBucket(cursor, b), end, b);
    }
  }

  /** The built buckets are strictly increasing. */
  lemma BucketsIncrease(start: DateTime, end: DateTime, b: Bucket, i: nat, j: nat)
    requires Valid(start) && Valid(end) && i < j < |Buckets(start, end, b)|
    ensures Before(Buckets(start, end, b)[i], Buckets(start, end, b)[j])
  {
    StartIsStart(start, b);
    BucketNumbers(BucketStart(start, b), end, b);
    var x, y := Buckets(start, end, b)[i], Buckets(start, end, b)[j];
    StartsBy(x, y, b);
  }

  ghost predicate InRange(t: DateTime, start: DateTime, end: DateTime) {
    Valid(t) && NotAfter(start, t) && NotAfter(t, end)
  }

  /** The truncation of every moment of the range is one of the buckets. */
  lemma NoMomentLost(start: DateTime, end: DateTime, b: Bucket, t: DateTime)
    requires Valid(start) && Valid(end) && InRange(t, start, end)
    ensures BucketStart(t, b) in Buckets(start, end, b)
  {
    StartIsStart(start, b);
    StartIsStart(t, b);
    StartNumber(start, b);
    StartNumber(t, b);
    LaterSlot(start, t, b);
    LaterSlot(t, end, b);
    BucketNumbers(BucketStart(start, b), end, b);
    var bs, k := Buckets(start, end, b), Slot(t, b) - Slot(start, b);
    SlotDecides(bs[k], BucketStart(t, b), b);
  }

  lemma {:induction false} BucketIsTruncation(start: DateTime, end: DateTime, b: Bucket, i: nat) returns (t: DateTime)
    requires Valid(start) && Valid(end) && NotAfter(start, end) && i < |Buckets(start, end, b)|
    ensures InRange(t, start, end) && BucketStart(t, b) == Buckets(start, end, b)[i]
  {
    StartIsStart(start, b);
    StartNumber(start, b);
    BucketNumbers(BucketStart(start, b), end, b);
    var x := Buckets(start, end, b)[i];
    if i == 0 {
      t := start;
      SlotDecides(x, BucketStart(start, b), b);
    } else {
      t := x;
      StartsBy(x, start, b);
      TotalOrder(x, start);
      StartsBy(x, end, b);
    }
  }

  /** The buckets of a range are exactly the truncations of its moments. */
  lemma BucketsAreTruncations(start: DateTime, end: DateTime, b: Bucket, x: DateTime)
    requires Valid(start) && Valid(end) && NotAfter(start, end)
    ensures x in Buckets(start, end, b) <==> exists t :: InRange(t, start, end) && BucketStart(t, b) == x
  {
    if x in Buckets(start, end, b) {
      var i :| 0 <= i < |Buckets(start, end, b)| && Buckets(start, end, b)[i] == x;
      var t := BucketIsTruncation(start, end, b, i);
    }
    if t :| InRange(t, start, end) && BucketStart(t, b) == x {
      NoMomentLost(start, end, b, t);
    }
  }

  // ---- series ----

  datatype Point = Point(period: DateTime, value: real)

  function ValueAt(mapping: map<DateTime, real>, x: DateTime): real {
    if x in mapping then mapping[x] else 0.0
  }

  function SeriesFromMapping(start: DateTime, end: DateTime, b: Bucket, mapping: map<DateTime, real>): (r: seq<Point>)
    requires Valid(start) && Valid(end)
    ensures |r| == |Buckets(start, end, b)|
  {
    var buckets := Buckets(start, end, b);
    seq(|buckets|, i requires 0 <= i < |buckets| => Point(buckets[i], ValueAt(mapping, buckets[i])))
  }

  function SumOf(points: seq<Point>): real {
    if points == [] then 0.0 else points[0].value + SumOf(points[1..])
  }

  /** The total of a mapping. */
  ghost function Total<K(!new)>(mapping: map<K, real>): real
    decreases |mapping|
  {
    if mapping == map[] then 0.0
    else
      var k :| k in mapping;
      assert |mapping - {k}| < |mapping| by { Smaller(mapping, k); }
      mapping[k] + Total(mapping - {k})
  }

  lemma Smaller<K(!new)>(mapping: map<K, real>, k: K)
    requires k in mapping
    ensures |mapping - {k}| < |mapping|
  {
    assert (mapping - {k}).Keys == mapping.Keys - {k};
    assert |mapping.Keys| == |mapping| && |(mapping - {k}).Keys| == |mapping - {k}|;
  }

  lemma {:induction false} TotalWithout<K(!new)>(mapping: map<K, real>, k: K)
    requires k in mapping
    ensures Total(mapping) == mapping[k] + Total(mapping - {k})
    decreases |mapping|, 1
  {
    assert mapping != map[];
    var c :| c in mapping && Total(mapping) == mapping[c] + Total(mapping - {c});
    if c != k {
      Smaller(mapping, c);
      TotalWithout(mapping - {c}, k);
      TotalSwapped(mapping, c, k);
    }
  }

  lemma {:induction false} TotalSwapped<K(!new)>(mapping: map<K, real>, c: K, k: K)
    requires c in mapping && k in mapping && c != k
    ensures Total(mapping - {k}) == mapping[c] + Total(mapping - {c} - {k})
    decreases |mapping|, 0
  {
    Smaller(mapping, k);
    TotalWithout(mapping - {k}, c);
    assert mapping - {k} - {c} == mapping - {c} - {k};
  }

  predicate DistinctPeriods(points: seq<Point>) {
    forall i, j :: 0 <= i < j < |points| ==> points[i].period != points[j].period
  }

  predicate Shows(points: seq<Point>, mapping: map<DateTime, real>) {
    forall i :: 0 <= i < |points| ==> points[i].value == ValueAt(mapping, points[i].period)
  }

  /** Points with distinct periods that cover all keys of the mapping add up to its total. */
  lemma {:induction false} PointsTotal(points: seq<Point>, mapping: map<DateTime, real>)
    requires DistinctPeriods(points) && Shows(points, mapping)
    requires forall x :: x in mapping ==> exists i :: 0 <= i < |points| && points[i].period == x
    ensures SumOf(points) == Total(mapping)
  {
    if points == [] {
      assert mapping == map[];
    } else {
      var x, rest := points[0].period, points[1..];
      var smaller := mapping - {x};
      forall k | k in smaller ensures exists i :: 0 <= i < |rest| && rest[i].period == k {
        var i :| 0 <= i < |points| && points[i].period == k;
        assert rest[i - 1].period == k;
      }
      forall i | 0 <= i < |rest| ensures rest[i].value == ValueAt(smaller, rest[i].period) {
        assert points[i + 1] == rest[i];
      }
      PointsTotal(rest, smaller);
      if x in mapping { TotalWithout(mapping, x); } else { assert smaller == mapping; }
    }
  }

  /** No row of the range is lost: the series adds up to the mapping when its keys are truncated moments of the range. */
  lemma SeriesTotal(start: DateTime, end: DateTime, b: Bucket, mapping: map<DateTime, real>)
    requires Valid(start) && Valid(end)
    requires forall x :: x in mapping ==> exists t :: InRange(t, start, end) && BucketStart(t, b) == x
    ensures SumOf(SeriesFromMapping(start, end, b, mapping)) == Total(mapping)
  {
    hide Buckets, Total, SumOf;
    var points, buckets := SeriesFromMapping(start, end, b, mapping), Buckets(start, end, b);
    forall i, j | 0 <= i < j < |points| ensures points[i].period != points[j].period {
      BucketsIncrease(start, end, b, i, j);
    }
    forall x | x in mapping ensures exists i :: 0 <= i < |points| && points[i].period == x {
      var t :| InRange(t, start, end) && BucketStart(t, b) == x;
      NoMomentLost(start, end, b, t);
      var i :| 0 <= i < |buckets| && buckets[i] == x;
      assert points[i].period == x;
    }
    PointsTotal(points, mapping);
  }

  // ---- work in progress ----

  datatype WipPoint = WipPoint(period: DateTime, inbox: int, inProgress: int, review: int, done: int)

  /** The counts by status name; a status that is missing counts nothing. */
  function CountOf(values: map<string, int>, status: string): int {
    if status in values then values[status] else 0
  }

  function WipAt(mapping: map<DateTime, map<string, int>>, x: DateTime): WipPoint {
    var values := if x in mapping then mapping[x] else map[];
    WipPoint(x, CountOf(values, "inbox"), CountOf(values, "in_progress"), CountOf(values, "review"), CountOf(values, "done"))
  }

  method WipSeriesFromMapping(start: DateTime, end: DateTime, b: Bucket, mapping: map<DateTime, map<string, int>>)
      returns (points: seq<WipPoint>)
    requires Valid(start) && Valid(end)
    ensures |points| == |Buckets(start, end, b)|
    ensures forall i :: 0 <= i < |points| ==> points[i] == WipAt(mapping, Buckets(start, end, b)[i])
  {
    hide Buckets;
    var buckets := BuildBuckets(start, end, b);
    points := [];
    for i := 0 to |buckets|
      invariant |points| == i && forall j :: 0 <= j < i ==> points[j] == WipAt(mapping, buckets[j])
    {
      points := points + [WipAt(mapping, buckets[i])];
    }
  }

  /** One status of a work-in-progress mapping. */
  function StatusMapping(mapping: map<DateTime, map<string, int>>, status: string): map<DateTime, real> {
    map x | x in mapping :: CountOf(mapping[x], status) as real
  }

  predicate WipStatus(status: string) {
    status == "inbox" || status == "in_progress" || status == "review" || status == "done"
  }

  /** The component of a point for one status. */
  function CountIn(p: WipPoint, status: string): int
    requires WipStatus(status)
  {
    if status == "inbox" then p.inbox
    else if status == "in_progress" then p.inProgress
    else if status == "review" then p.review
    else p.done
  }

  function StatusPoints(points: seq<WipPoint>, status: string): (r: seq<Point>)
    requires WipStatus(status)
    ensures |r| == |points|
  {
    seq(|points|, i requires 0 <= i < |points| => Point(points[i].period, CountIn(points[i], status) as real))
  }

  /** One status of the work-in-progress points is the series of that status. */
  lemma WipPointsByStatus(mapping: map<DateTime, map<string, int>>, x: DateTime, status: string)
    requires WipStatus(status)
    ensures CountIn(WipAt(mapping, x), status) as real == ValueAt(StatusMapping(mapping, status), x)
  {
  }

  lemma WipSeriesByStatus(
      start: DateTime, end: DateTime, b: Bucket, mapping: map<DateTime, map<string, int>>, points: seq<WipPoint>,
      status: string)
    requires Valid(start) && Valid(end) && WipStatus(status) && |points| == |Buckets(start, end, b)|
    requires forall i :: 0 <= i < |points| ==> points[i] == WipAt(mapping, Buckets(start, end, b)[i])
    ensures StatusPoints(points, status) == SeriesFromMapping(start, end, b, StatusMapping(mapping, status))
  {
    hide Buckets, StatusMapping, CountIn;
    var series := SeriesFromMapping(start, end, b, StatusMapping(mapping, status));
    forall i | 0 <= i < |points| ensures StatusPoints(points, status)[i] == series[i] {
      WipPointsByStatus(mapping, Buckets(start, end, b)[i], status);
    }
  }

  /** No count of the range is lost: the points of each status add up to all counts of that status. */
  lemma WipTotal(
      start: DateTime, end: DateTime, b: Bucket, mapping: map<DateTime, map<string, int>>, points: seq<WipPoint>,
      status: string)
    requires Valid(start) && Valid(end) && WipStatus(status) && |points| == |Buckets(start, end, b)|
    requires forall i :: 0 <= i < |points| ==> points[i] == WipAt(mapping, Buckets(start, end, b)[i])
    requires forall x :: x in mapping ==> exists t :: InRange(t, start, end) && BucketStart(t, b) == x
    ensures SumOf(StatusPoints(points, status)) == Total(StatusMapping(mapping, status))
  {
    hide Buckets, Total, SumOf, BucketStart;
    WipSeriesByStatus(start, end, b, mapping, points, status);
    SeriesTotal(start, end, b, StatusMapping(mapping, status));
  }
}
