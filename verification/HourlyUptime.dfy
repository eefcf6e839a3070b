/**
  The hourly uptime index of the in-memory store (app/storage/store/memory/uptime.go)
  and the reference it is measured against: the full history of inserted results.

  Time is an integer number of nanoseconds since the Unix epoch. Hour stamps, like the
  keys of the original map, are in seconds.
*/
module HourlyUptime {
  import opened Collections
  import opened Histories

  const SECOND := 1_000_000_000
  const HOUR := 3_600_000_000_000
  const RETENTION := 2_592_000_000_000_000  // 30 days
  const CLEANUP_THRESHOLD := 32 * 24
  const UINT64_MODULUS := 0x1_0000_0000_0000_0000

  // Divisors are written out below: division by a numeral is linear for the verifier, division by a
  // named constant is not.

  type int64 = x: int | -0x8000_0000_0000_0000 <= x < 0x8000_0000_0000_0000

  type uint64 = x: nat | x < UINT64_MODULUS

  /** Unsigned 64-bit addition, wrapping around. */
  function Add64(a: uint64, b: uint64): uint64 {
    if a + b < UINT64_MODULUS then a + b else a + b - UINT64_MODULUS
  }

  datatype Result = Result(success: bool, timestamp: int, duration: int64)

  /** A result together with the clock reading at the moment it was inserted. */
  datatype Arrival = Arrival(result: Result, now: int)

  /** What is known of the executions of an hour or of a range of hours. */
  datatype Bucket = Idle | Busy(total: nat, successful: nat, responseTime: uint64) {

    function Total(): nat {
      if Idle? then 0 else total
    }

    function Successful(): nat {
      if Idle? then 0 else successful
    }

    function ResponseTime(): uint64 {
      if Idle? then 0 else responseTime
    }
  }

  type Index = map<int, Bucket>

  /** `t.Truncate(time.Hour).Unix()`. */
  function HourOf(t: int): (hour: int)
    ensures hour % 3600 == 0
    ensures hour * 1_000_000_000 <= t < (hour + 3600) * 1_000_000_000
  {
    t / 3_600_000_000_000 * 3600
  }

  /** The Unix second before which an eviction pass deletes buckets. */
  function Cutoff(now: int): int {
    (now - (RETENTION + HOUR)) / 1_000_000_000
  }

  /** `uint64(d.Milliseconds())`: truncation toward zero, then wrap-around. */
  function Millis(d: int64): uint64 {
    if d >= 0 then d / 1_000_000
    else if d > -1_000_000 then 0
    else UINT64_MODULUS - (0 - d) / 1_000_000
  }

  function Sum(a: Bucket, b: Bucket): Bucket {
    if a.Idle? then b
    else if b.Idle? then a
    else Busy(a.total + b.total, a.successful + b.successful, Add64(a.responseTime, b.responseTime))
  }

  function Single(r: Result): Bucket {
    Busy(1, if r.success then 1 else 0, Millis(r.duration))
  }

  function BucketAt(ix: Index, hour: int): Bucket {
    if hour in ix then ix[hour] else Idle
  }

  function Bump(ix: Index, r: Result): Index {
    ix[HourOf(r.timestamp) := Sum(BucketAt(ix, HourOf(r.timestamp)), Single(r))]
  }

  function Evict(ix: Index, now: int): Index {
    map hour | hour in ix && Cutoff(now) <= hour :: ix[hour]
  }

  /** What one call of `processUptimeAfterResult` makes of the index. */
  function Insert(ix: Index, a: Arrival): Index {
    var bumped := Bump(ix, a.result);
    if |bumped| > CLEANUP_THRESHOLD then Evict(bumped, a.now) else bumped
  }

  /** The index after a whole history of insertions. */
  function IndexAfter(h: History<Arrival>): Index {
    if h.Start? then map[] else Insert(IndexAfter(h.before), h.last)
  }

  /** The reference: the aggregate of every result ever inserted whose hour lies in [lo, hi]. */
  function Window(h: History<Arrival>, lo: int, hi: int): Bucket {
    if h.Start? then Idle
    else Sum(Window(h.before, lo, hi), Share(h.last.result, lo, hi))
  }

  /** What one result contributes to a window. */
  function Share(r: Result, lo: int, hi: int): Bucket {
    if lo <= HourOf(r.timestamp) <= hi then Single(r) else Idle
  }

  /** The latest clock reading in a history. */
  function LatestNow(h: History<Arrival>): (latest: int)
    requires h.Then?
    ensures h.last.now <= latest
    ensures latest == h.last.now || (h.before.Then? && latest == LatestNow(h.before))
    ensures h.before.Then? ==> LatestNow(h.before) <= latest
  {
    if h.before.Start? || LatestNow(h.before) < h.last.now then h.last.now else LatestNow(h.before)
  }

  // ---------------------------------------------------------------------------------
  // What the reference counts
  // ---------------------------------------------------------------------------------

  /** The result was observed in the hours that start at the stamps lo to hi. */
  predicate InHours(r: Result, lo: int, hi: int) {
    lo * 1_000_000_000 <= r.timestamp < (hi + 3600) * 1_000_000_000
  }

  /** How many of the inserted results were observed in these hours. */
  function ExecutedIn(h: History<Arrival>, lo: int, hi: int): nat {
    if h.Start? then 0 else ExecutedIn(h.before, lo, hi) + if InHours(h.last.result, lo, hi) then 1 else 0
  }

  /** How many of those succeeded. */
  function SucceededIn(h: History<Arrival>, lo: int, hi: int): nat {
    if h.Start? then 0
    else SucceededIn(h.before, lo, hi) + if InHours(h.last.result, lo, hi) && h.last.result.success then 1 else 0
  }

  /** How many milliseconds they took, without wrapping. */
  function MillisecondsIn(h: History<Arrival>, lo: int, hi: int): nat {
    if h.Start? then 0
    else MillisecondsIn(h.before, lo, hi) + if InHours(h.last.result, lo, hi) then Millis(h.last.result.duration) else 0
  }

  /** The aggregate of a range of hours counts the results observed in them, the successes among them,
      and the milliseconds they took, modulo 2 to the 64. */
  lemma {:induction false} WindowCounts(h: History<Arrival>, lo: int, hi: int)
    requires lo % 3600 == 0 && hi % 3600 == 0
    ensures Window(h, lo, hi).Total() == ExecutedIn(h, lo, hi)
    ensures Window(h, lo, hi).Successful() == SucceededIn(h, lo, hi) <= ExecutedIn(h, lo, hi)
    ensures Window(h, lo, hi).ResponseTime() == MillisecondsIn(h, lo, hi) % 0x1_0000_0000_0000_0000
  {
    if h.Then? {
      WindowCounts(h.before, lo, hi);
      HoursMatch(h.last.result, lo, hi);
      Add64Wraps(MillisecondsIn(h.before, lo, hi), Millis(h.last.result.duration));
    }
  }

  lemma HoursMatch(r: Result, lo: int, hi: int)
    requires lo % 3600 == 0 && hi % 3600 == 0
    ensures InHours(r, lo, hi) <==> lo <= HourOf(r.timestamp) <= hi
  {
    var hour := HourOf(r.timestamp);
    assert hour == hour / 3600 * 3600 && lo == lo / 3600 * 3600 && hi == hi / 3600 * 3600;
  }

  lemma Add64Wraps(sum: nat, b: uint64)
    ensures Add64(sum % 0x1_0000_0000_0000_0000, b) == (sum + b) % 0x1_0000_0000_0000_0000
  {
  }

  /** Durations count as whole milliseconds, rounded down; a negative one is rounded towards zero and then
      wraps, so it counts as almost 2 to the 64. */
  lemma MillisIs(d: int64)
    ensures d >= 0 ==> Millis(d) * 1_000_000 <= d < (Millis(d) + 1) * 1_000_000
    ensures -1_000_000 < d < 0 ==> Millis(d) == 0
    ensures d <= -1_000_000 ==>
      var below := UINT64_MODULUS - Millis(d); below * 1_000_000 <= 0 - d < (below + 1) * 1_000_000
  {
  }

  lemma CutoffMonotone(a: int, b: int)
    requires a <= b
    ensures Cutoff(a) <= Cutoff(b)
  {
  }

  // ---------------------------------------------------------------------------------
  // Eviction is invisible
  // ---------------------------------------------------------------------------------

  /** From hour `from` on, the index holds exactly the aggregates of the history. */
  ghost predicate AgreesFrom(h: History<Arrival>, from: int) {
    forall hour :: from <= hour ==> AgreesAt(h, hour)
  }

  ghost predicate AgreesAt(h: History<Arrival>, hour: int) {
    && (hour in IndexAfter(h) <==> Window(h, hour, hour).Busy?)
    && BucketAt(IndexAfter(h), hour) == Window(h, hour, hour)
  }

  lemma {:induction false} WindowTotals(h: History<Arrival>, lo: int, hi: int)
    ensures Window(h, lo, hi).Successful() <= Window(h, lo, hi).Total()
    ensures Window(h, lo, hi).Total() == 0 <==> Window(h, lo, hi).Idle?
  {
    if h.Then? {
      WindowTotals(h.before, lo, hi);
    }
  }

  /** Every bucket at or after the cutoff of the latest clock reading is exact: eviction has
      never removed anything from it. No assumption is made on the order of timestamps or
      clock readings. */
  lemma {:induction false} RetainedBucketsAreExact(h: History<Arrival>)
    requires h.Then?
    ensures AgreesFrom(h, Cutoff(LatestNow(h)))
  {
    CutoffMonotone(h.last.now, LatestNow(h));
    if h.before.Then? {
      RetainedBucketsAreExact(h.before);
      CutoffMonotone(LatestNow(h.before), LatestNow(h));
    }
    forall hour | Cutoff(LatestNow(h)) <= hour
      ensures AgreesAt(h, hour)
    {
      assert AgreesAt(h.before, hour);
      WindowTotals(h.before, hour, hour);
    }
  }

  lemma RetainedBucketIsExact(h: History<Arrival>, hour: int)
    requires h.Then? && Cutoff(LatestNow(h)) <= hour
    ensures BucketAt(IndexAfter(h), hour) == Window(h, hour, hour)
  {
    RetainedBucketsAreExact(h);
    assert AgreesAt(h, hour);
  }

  /** Every bucket the index holds, evicted and re-created ones included, has at least one
      execution and no more successes than executions. */
  lemma {:induction false} BucketsAreSane(h: History<Arrival>)
    ensures forall hour :: hour in IndexAfter(h) ==>
      0 < IndexAfter(h)[hour].Total() && IndexAfter(h)[hour].Successful() <= IndexAfter(h)[hour].Total()
  {
    if h.Then? {
      BucketsAreSane(h.before);
    }
  }

  // ---------------------------------------------------------------------------------
  // Window queries
  // ---------------------------------------------------------------------------------

  /** Number of iterations of a query loop that starts at `from` and steps by one hour while
      it has not passed `until`. */
  function Steps(from: int, until: int): nat
    requires from <= until
  {
    (until - from) / 3_600_000_000_000 + 1
  }

  /** The sum of the buckets of n consecutive hours. */
  function SumHours(ix: Index, first: int, n: nat): Bucket {
    if n == 0 then Idle
    else Sum(SumHours(ix, first, n - 1), BucketAt(ix, first + 3600 * (n - 1)))
  }

  /** Moving on by one hour moves on by one hour stamp. */
  lemma HourOfNext(t: int)
    ensures HourOf(t + HOUR) == HourOf(t) + 3600
  {
  }

  lemma Add64Regroups(a: uint64, b: uint64, c: uint64)
    ensures Add64(Add64(a, b), c) == Add64(Add64(a, c), b)
    ensures Add64(Add64(a, b), c) == Add64(a, Add64(b, c))
  {
  }

  lemma SumRegroups(a: Bucket, b: Bucket, c: Bucket)
    ensures Sum(Sum(a, b), c) == Sum(Sum(a, c), b)
    ensures Sum(Sum(a, b), c) == Sum(a, Sum(b, c))
  {
    Add64Regroups(a.ResponseTime(), b.ResponseTime(), c.ResponseTime());
  }

  /** A window splits at any point. */
  lemma {:induction false} WindowSplits(h: History<Arrival>, lo: int, mid: int, hi: int)
    requires lo <= mid <= hi
    ensures Window(h, lo, hi) == Sum(Window(h, lo, mid - 1), Window(h, mid, hi))
  {
    if h.Then? {
      WindowSplits(h.before, lo, mid, hi);
      SumRegroups(Window(h.before, lo, mid - 1), Window(h.before, mid, hi), Share(h.last.result, lo, hi));
    }
  }

  /** No hour stamp lies strictly between two multiples of 3600. */
  lemma {:induction false} WindowSnaps(h: History<Arrival>, lo: int, hour: int)
    requires hour % 3600 == 0
    ensures Window(h, lo, hour - 1) == Window(h, lo, hour - 3600)
  {
    if h.Then? {
      WindowSnaps(h.before, lo, hour);
      ShareSnaps(h.last.result, lo, hour);
    }
  }

  lemma ShareSnaps(r: Result, lo: int, hour: int)
    requires hour % 3600 == 0
    ensures Share(r, lo, hour - 1) == Share(r, lo, hour - 3600)
  {
  }

  lemma {:induction false} EmptyWindow(h: History<Arrival>, lo: int, hi: int)
    requires hi < lo
    ensures Window(h, lo, hi) == Idle
  {
    if h.Then? {
      EmptyWindow(h.before, lo, hi);
    }
  }

  /** The history of n consecutive hours. */
  function HistoryOf(h: History<Arrival>, first: int, n: nat): Bucket {
    Window(h, first, first + 3600 * n - 3600)
  }

  /** What the index holds for them. */
  function Collected(h: History<Arrival>, first: int, n: nat): Bucket {
    SumHours(IndexAfter(h), first, n)
  }

  lemma OneMoreHour(h: History<Arrival>, first: int, n: nat)
    requires h.Then? && first % 3600 == 0 && Cutoff(LatestNow(h)) <= first
    ensures var bucket := BucketAt(IndexAfter(h), first + 3600 * n);
      && HistoryOf(h, first, n + 1) == Sum(HistoryOf(h, first, n), bucket)
      && Collected(h, first, n + 1) == Sum(Collected(h, first, n), bucket)
  {
    MoreHours(first, n);
    AddHour(h, first, first + 3600 * n);
  }

  lemma {:induction false} HoursAddUp(h: History<Arrival>, first: int, n: nat)
    requires h.Then? && first % 3600 == 0 && Cutoff(LatestNow(h)) <= first
    ensures Collected(h, first, n) == HistoryOf(h, first, n)
  {
    if n == 0 {
      EmptyWindow(h, first, first - 3600);
    } else {
      HoursAddUp(h, first, n - 1);
      OneMoreHour(h, first, n - 1);
    }
  }

  /** Adding up buckets hour by hour gives exactly the history of those hours. */
  lemma SumHoursIsWindow(h: History<Arrival>, first: int, n: nat)
    requires h.Then? && first % 3600 == 0
    requires Cutoff(LatestNow(h)) <= first
    ensures SumHours(IndexAfter(h), first, n) == Window(h, first, first + 3600 * n - 3600)
  {
    HoursAddUp(h, first, n);
  }

  lemma MoreHours(hour: int, n: nat)
    requires hour % 3600 == 0
    ensures (hour + 3600 * n) % 3600 == 0
  {
  }

  lemma AddHour(h: History<Arrival>, first: int, hour: int)
    requires h.Then? && hour % 3600 == 0 && Cutoff(LatestNow(h)) <= first <= hour
    ensures Sum(Window(h, first, hour - 3600), BucketAt(IndexAfter(h), hour)) == Window(h, first, hour)
  {
    WindowSplits(h, first, hour, hour);
    WindowSnaps(h, first, hour);
    RetainedBucketIsExact(h, hour);
  }

  /** However old the hours, the buckets the index does hold never report more successes than
      executions. */
  lemma {:induction false} SumHoursIsSane(h: History<Arrival>, first: int, n: nat)
    ensures SumHours(IndexAfter(h), first, n).Successful() <= SumHours(IndexAfter(h), first, n).Total()
    ensures SumHours(IndexAfter(h), first, n).Total() == 0 <==> SumHours(IndexAfter(h), first, n).Idle?
  {
    if n > 0 {
      SumHoursIsSane(h, first, n - 1);
      BucketsAreSane(h);
    }
  }

  /** The last whole hour a query from `from` to `until` visits. */
  function LastHour(from: int, until: int): int
    requires from <= until
  {
    HourOf(from) + 3600 * (Steps(from, until) - 1)
  }

  /** A query covers the hour of its upper end exactly when the end is at least as far into
      its hour as the start is into its own; otherwise it stops one hour short. */
  lemma LastHourReachesEnd(from: int, until: int)
    requires from <= until
    ensures LastHour(from, until) == HourOf(until) <==> from % HOUR <= until % HOUR
    ensures LastHour(from, until) == HourOf(until) || LastHour(from, until) == HourOf(until) - 3600
  {
    var q, r := until / HOUR - from / HOUR, until % HOUR - from % HOUR;
    assert until - from == q * HOUR + r;
    if r >= 0 {
      assert (until - from) / HOUR == q;
    } else {
      assert until - from == (q - 1) * HOUR + (r + HOUR);
      assert (until - from) / HOUR == q - 1;
    }
  }

  /** A range that starts whole hours before one clock reading and ends at a later one, less than an
      hour away, misses the hour of its end exactly if an hour begins between the two readings. */
  lemma BadgeReachesEndIff(hours: nat, first: int, second: int)
    requires first <= second < first + HOUR
    ensures LastHour(first - hours * HOUR, second) == HourOf(second) <==> HourOf(first) == HourOf(second)
  {
    assert (first - hours * HOUR) / HOUR == first / HOUR - hours;
    assert (first - hours * HOUR) % HOUR == first % HOUR;
    LastHourReachesEnd(first - hours * HOUR, second);
  }

  /** A range that starts on the hour never misses the hour of its end. */
  lemma ChartReachesEnd(hours: nat, first: int, second: int)
    requires first <= second
    ensures LastHour(first / HOUR * HOUR - hours * HOUR, second) == HourOf(second)
  {
    var from := first / HOUR * HOUR - hours * HOUR;
    assert from == (first / HOUR - hours) * HOUR;
    assert from % HOUR == 0;
    LastHourReachesEnd(from, second);
  }

  /** A query start no more than thirty days before the latest insertion is recent enough,
      thanks to the extra hour kept back by the cutoff. */
  lemma RecentStartIsRetained(latest: int, from: int)
    requires latest - 720 * HOUR <= from
    ensures Cutoff(latest) <= HourOf(from)
  {
    assert from / HOUR * HOUR > from - HOUR;
    assert HourOf(from) * SECOND == from / HOUR * HOUR;
  }

  /** So is the hour-aligned start of the 30-day chart, read at any time after the latest
      insertion. */
  lemma ChartStartIsRetained(latest: int, queriedAt: int)
    requires latest <= queriedAt
    ensures Cutoff(latest) <= HourOf(queriedAt / HOUR * HOUR - 720 * HOUR)
  {
    var aligned := queriedAt / HOUR * HOUR - RETENTION;
    assert aligned == (queriedAt / HOUR - 720) * HOUR;
    assert HourOf(aligned) == (queriedAt / HOUR - 720) * 3600;
    assert queriedAt / HOUR * HOUR > queriedAt - HOUR;
  }

  /** How far before the thirty days a start may lie and still be safe at every clock reading:
      one second, what is lost when the cutoff is rounded down. */
  lemma ExactSlack(slack: int)
    ensures (forall latest :: Cutoff(latest) <= HourOf(latest - 720 * HOUR - slack)) <==> slack <= SECOND
  {
    if slack > SECOND {
      var latest := RETENTION + slack + HOUR - 1;
      assert HourOf(latest - RETENTION - slack) == 0;
      assert Cutoff(latest) == (slack - 1) / SECOND;
      assert Cutoff(latest) >= 1;
    } else {
      forall latest ensures Cutoff(latest) <= HourOf(latest - RETENTION - slack) {
        SlackIsRetained(latest, slack);
      }
    }
  }

  lemma SlackIsRetained(latest: int, slack: int)
    requires slack <= SECOND
    ensures Cutoff(latest) <= HourOf(latest - RETENTION - slack)
  {
  }

  // ---------------------------------------------------------------------------------
  // The size of the index
  // ---------------------------------------------------------------------------------

  /** No result is timestamped after the clock reading of its insertion, and the clock never
      goes back. */
  ghost predicate Timely(h: History<Arrival>) {
    h.Then? ==>
      && h.last.result.timestamp <= h.last.now
      && (h.before.Then? ==> h.before.last.now <= h.last.now)
      && Timely(h.before)
  }

  /** The hour stamps from hour number lo up to, but not including, hour number hi. */
  function HourStamps(lo: int, hi: int): set<int> {
    set n | lo <= n < hi :: 3600 * n
  }

  lemma {:induction false} HourStampsCount(lo: int, hi: int)
    requires lo <= hi
    ensures |HourStamps(lo, hi)| == hi - lo
    decreases hi - lo
  {
    if lo == hi {
      assert HourStamps(lo, hi) == {};
    } else {
      HourStampsCount(lo, hi - 1);
      assert HourStamps(lo, hi) == HourStamps(lo, hi - 1) + {3600 * (hi - 1)};
      assert 3600 * (hi - 1) !in HourStamps(lo, hi - 1);
    }
  }

  lemma {:induction false} SubsetCount<T>(a: set<T>, b: set<T>)
    requires a <= b
    ensures |a| <= |b|
  {
    if a != {} {
      var x :| x in a;
      SubsetCount(a - {x}, b - {x});
    }
  }

  lemma {:induction false} KeysAreTimelyHours(h: History<Arrival>, now: int)
    requires Timely(h) && (h.Then? ==> h.last.now <= now)
    ensures forall hour :: hour in IndexAfter(h) ==> hour % 3600 == 0 && hour <= HourOf(now)
  {
    if h.Then? {
      KeysAreTimelyHours(h.before, now);
      HourOfMonotone(h.last.result.timestamp, now);
    }
  }

  lemma HourOfMonotone(a: int, b: int)
    requires a <= b
    ensures HourOf(a) <= HourOf(b)
  {
  }

  /** Eviction is lazy: up to 768 buckets nothing is deleted, and above that everything before the cutoff is,
      but nothing else. */
  lemma EvictsLazily(ix: Index, a: Arrival, hour: int)
    ensures hour in Insert(ix, a) <==>
      hour in Bump(ix, a.result) && (|Bump(ix, a.result)| <= 768 || Cutoff(a.now) <= hour)
    ensures hour in Insert(ix, a) ==> Insert(ix, a)[hour] == Bump(ix, a.result)[hour]
  {
  }

  /** Only 722 hour stamps fit between the cutoff and the clock. */
  lemma EvictedSize(ix: Index, now: int)
    requires forall hour :: hour in ix ==> hour % 3600 == 0 && hour <= HourOf(now)
    ensures |Evict(ix, now)| <= 722
  {
    var hi := now / HOUR;
    var stamps := HourStamps(hi - 721, hi + 1);
    forall hour | hour in Evict(ix, now) ensures hour in stamps {
      var n := hour / 3600;
      assert hour == 3600 * n;
      assert now >= hi * HOUR;
      assert Cutoff(now) >= hi * 3600 - 721 * 3600;
      assert hi - 721 <= n < hi + 1;
    }
    HourStampsCount(hi - 721, hi + 1);
    SubsetCount(Evict(ix, now).Keys, stamps);
  }

  /** Whatever the history, the index never holds more than 768 buckets after an insertion,
      and at most 722 if that insertion triggered an eviction pass. */
  lemma IndexSizeBound(h: History<Arrival>)
    requires h.Then? && Timely(h)
    ensures |IndexAfter(h)| <= 768
    ensures |Bump(IndexAfter(h.before), h.last.result)| > 768 ==> |IndexAfter(h)| <= 722
  {
    KeysAreTimelyHours(h.before, h.last.now);
    HourOfMonotone(h.last.result.timestamp, h.last.now);
    EvictedSize(Bump(IndexAfter(h.before), h.last.result), h.last.now);
  }

  // ---------------------------------------------------------------------------------
  // The mutable index
  // ---------------------------------------------------------------------------------

  class HourlyUptimeStatistics {
    var TotalExecutions: nat
    var SuccessfulExecutions: nat
    var TotalExecutionsResponseTime: uint64

    constructor ()
      ensures TotalExecutions == SuccessfulExecutions == TotalExecutionsResponseTime == 0
    {
      TotalExecutions, SuccessfulExecutions, TotalExecutionsResponseTime := 0, 0, 0;
    }

    /** Counts one execution. */
    method Add(result: Result)
      modifies this
      ensures TotalExecutions == old(TotalExecutions) + 1
      ensures SuccessfulExecutions == old(SuccessfulExecutions) + if result.success then 1 else 0
      ensures TotalExecutionsResponseTime == Add64(old(TotalExecutionsResponseTime), Millis(result.duration))
    {
      if result.success {
        SuccessfulExecutions := SuccessfulExecutions + 1;
      }
      TotalExecutions := TotalExecutions + 1;
      TotalExecutionsResponseTime := Add64(TotalExecutionsResponseTime, Millis(result.duration));
    }

    function View(): Bucket
      reads this
    {
      Busy(TotalExecutions, SuccessfulExecutions, TotalExecutionsResponseTime)
    }
  }

  class Uptime {
    var HourlyStatistics: map<int, HourlyUptimeStatistics>

    /** The index as a value. */
    ghost var Contents: Index
    ghost var Repr: set<object>

    constructor ()
      ensures Valid() && fresh(Repr) && Contents == map[]
    {
      HourlyStatistics := map[];
      Contents, Repr := map[], {this};
    }

    /** No two hours share an entry, and the entries hold the contents. */
    ghost predicate Valid()
      reads this, Repr
      ensures Valid() ==> this in Repr
    {
      && this in Repr
      && HourlyStatistics.Keys == Contents.Keys
      && (forall hour :: hour in HourlyStatistics ==>
            HourlyStatistics[hour] in Repr && HourlyStatistics[hour].View() == Contents[hour])
      && (forall a, b :: a in HourlyStatistics && b in HourlyStatistics && a != b ==>
            HourlyStatistics[a] != HourlyStatistics[b])
    }

    /** `processUptimeAfterResult`: count the result in its hour, then evict old hours if there
        are too many. */
    method Process(result: Result, now: int)
      requires Valid()
      modifies Repr
      ensures Valid() && fresh(Repr - old(Repr))
      ensures Contents == Insert(old(Contents), Arrival(result, now))
    {
      Count(result);
      assert |Contents| == |Contents.Keys| == |HourlyStatistics.Keys| == |HourlyStatistics|;
      if |HourlyStatistics| > CLEANUP_THRESHOLD {
        CleanUp(now);
      }
    }

    /** The first half of `processUptimeAfterResult`: find or create the entry of the result's
        hour, and increment it in place. */
    method Count(result: Result)
      requires Valid()
      modifies Repr
      ensures Valid() && fresh(Repr - old(Repr))
      ensures Contents == Bump(old(Contents), result)
    {
      var hour := HourOf(result.timestamp);
      if hour !in HourlyStatistics {
        var created := new HourlyUptimeStatistics();
        HourlyStatistics := HourlyStatistics[hour := created];
        Repr := Repr + {created};
      }
      HourlyStatistics[hour].Add(result);
      Contents := Bump(Contents, result);
      forall k | k in HourlyStatistics && k != hour
        ensures HourlyStatistics[k].View() == Contents[k]
      {
        assert HourlyStatistics[k] == old(HourlyStatistics[k]) != HourlyStatistics[hour];
      }
    }

    /** The second half: evict what is older than the retention and one more hour. */
    method CleanUp(now: int)
      requires Valid()
      modifies this
      ensures Valid() && Repr == old(Repr)
      ensures Contents == Evict(old(Contents), now)
    {
      EvictBefore(Cutoff(now));
      Contents := Evict(Contents, now);
    }

    /** Deletes the entries of all hours before the cutoff, in whatever order the map yields
        its keys. */
    method EvictBefore(cutoff: int)
      modifies this`HourlyStatistics
      ensures HourlyStatistics ==
        map hour | hour in old(HourlyStatistics) && cutoff <= hour :: old(HourlyStatistics)[hour]
    {
      var pending := HourlyStatistics.Keys;
      while pending != {}
        invariant pending <= old(HourlyStatistics).Keys
        invariant HourlyStatistics ==
          map hour | hour in old(HourlyStatistics) && (hour in pending || cutoff <= hour) :: old(HourlyStatistics)[hour]
        decreases pending
      {
        var hour := Pick(pending);
        pending := pending - {hour};
        if cutoff > hour {
          HourlyStatistics := HourlyStatistics - {hour};
        }
      }
    }
  }
}
