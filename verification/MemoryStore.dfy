/**
  The in-memory store of endpoint statuses (app/storage/store/memory/memory.go and util.go),
  proved to be a bounded view of the full history of what was inserted.
*/
module MemoryStore {
  import opened Collections
  import opened Histories
  import opened HourlyUptime
  import opened GoStrings
  import Keys
  import Paging

  datatype EventType = START | HEALTHY | UNHEALTHY

  datatype Event = Event(kind: EventType, timestamp: int)

  /** `NewEventFromResult`. */
  function EventOf(r: Result): Event {
    Event(if r.success then HEALTHY else UNHEALTHY, r.timestamp)
  }

  // ---------------------------------------------------------------------------------
  // One endpoint status as a value
  // ---------------------------------------------------------------------------------

  datatype StatusView = StatusView(results: seq<Result>, events: seq<Event>, uptime: Index)

  /** The event log after a further result. */
  function NextEvents(results: seq<Result>, events: seq<Event>, r: Result, maxEvents: nat): seq<Event> {
    if results == [] then events + [EventOf(r)]
    else if results[|results| - 1].success != r.success then LastN(events + [EventOf(r)], maxEvents)
    else events
  }

  /** `AddResult`. */
  function AddResult(v: StatusView, a: Arrival, maxResults: nat, maxEvents: nat): StatusView {
    StatusView(LastN(v.results + [a.result], maxResults), NextEvents(v.results, v.events, a.result, maxEvents),
               Insert(v.uptime, a))
  }

  /** All that ever happened to one endpoint: when its status was created, and every insertion. */
  datatype Record = Record(startedAt: int, arrivals: History<Arrival>)

  function Extended(r: Option<Record>, startedAt: int, a: Arrival): Record {
    match r
    case None => Record(startedAt, Then(Start, a))
    case Some(known) => Record(known.startedAt, Then(known.arrivals, a))
  }

  function StatusAfter(startedAt: int, h: History<Arrival>, maxResults: nat, maxEvents: nat): StatusView {
    match h
    case Start => StatusView([], [Event(START, startedAt)], map[])
    case Then(before, a) => AddResult(StatusAfter(startedAt, before, maxResults, maxEvents), a, maxResults, maxEvents)
  }

  // ---------------------------------------------------------------------------------
  // The unbounded reference
  // ---------------------------------------------------------------------------------

  function AllResults(h: History<Arrival>): (rs: seq<Result>)
    ensures |rs| == h.Length()
  {
    match h
    case Start => []
    case Then(before, a) => AllResults(before) + [a.result]
  }

  /** Whether an insertion changes the health of the endpoint, or establishes it. */
  predicate ChangesHealth(before: History<Arrival>, r: Result) {
    before.Start? || before.last.result.success != r.success
  }

  /** The complete log: the start, the first health, and every change of health. */
  function FullLog(startedAt: int, h: History<Arrival>): seq<Event> {
    match h
    case Start => [Event(START, startedAt)]
    case Then(before, a) =>
      if ChangesHealth(before, a.result) then FullLog(startedAt, before) + [EventOf(a.result)]
      else FullLog(startedAt, before)
  }

  /** What the store keeps of a complete log. The start and the first health are never trimmed on
      their own: trimming only happens at a change of health. */
  function Retained(log: seq<Event>, maxEvents: nat): seq<Event> {
    if |log| <= 2 then log else LastN(log, maxEvents)
  }

  lemma LastNOfLastN<T>(s: seq<T>, x: T, n: nat)
    ensures LastN(LastN(s, n) + [x], n) == LastN(s + [x], n)
  {
  }

  lemma {:induction false} FullLogLength(startedAt: int, h: History<Arrival>)
    ensures h.Then? <==> |FullLog(startedAt, h)| >= 2
  {
    if h.Then? {
      FullLogLength(startedAt, h.before);
    }
  }

  /** The status is a bounded view of the history: the last results, the tail of the complete
      event log, and the hourly index. */
  lemma {:induction false} StatusIsBoundedHistory(startedAt: int, h: History<Arrival>, maxResults: nat, maxEvents: nat)
    requires maxResults >= 1
    ensures StatusAfter(startedAt, h, maxResults, maxEvents) ==
            StatusView(LastN(AllResults(h), maxResults), Retained(FullLog(startedAt, h), maxEvents), IndexAfter(h))
  {
    if h.Then? {
      StatusIsBoundedHistory(startedAt, h.before, maxResults, maxEvents);
      LastNOfLastN(AllResults(h.before), h.last.result, maxResults);
      LastNOfLastN(FullLog(startedAt, h.before), EventOf(h.last.result), maxEvents);
      FullLogLength(startedAt, h.before);
      LastResultIsKept(h.before, maxResults);
    }
  }

  lemma LastResultIsKept(h: History<Arrival>, maxResults: nat)
    requires maxResults >= 1
    ensures h.Start? <==> LastN(AllResults(h), maxResults) == []
    ensures h.Then? ==>
      var kept := LastN(AllResults(h), maxResults);
      kept[|kept| - 1] == h.last.result
  {
  }

  /** With room for at least two events the retained log is simply the tail of the complete one. */
  lemma RetainedIsTail(log: seq<Event>, maxEvents: nat)
    ensures maxEvents >= 2 ==> Retained(log, maxEvents) == LastN(log, maxEvents)
  {
  }

  ghost predicate Alternating(log: seq<Event>) {
    && (forall i :: 1 <= i < |log| ==> log[i].kind != START)
    && (forall i :: 1 <= i < |log| ==> log[i].kind != log[i - 1].kind)
  }

  function HealthOf(success: bool): EventType {
    if success then HEALTHY else UNHEALTHY
  }

  /** In the complete log the health events alternate, and the last event always tells the health
      of the last result. */
  lemma {:induction false} FullLogAlternates(startedAt: int, h: History<Arrival>)
    ensures Alternating(FullLog(startedAt, h))
    ensures FullLog(startedAt, h) != [] && FullLog(startedAt, h)[0] == Event(START, startedAt)
    ensures h.Then? ==>
      var log := FullLog(startedAt, h);
      log[|log| - 1].kind == HealthOf(h.last.result.success)
  {
    if h.Then? {
      FullLogAlternates(startedAt, h.before);
    }
  }

  /** A result that establishes or changes the health is logged last, with its own time; any other result
      leaves the complete log as it was. */
  lemma ChangeIsLogged(startedAt: int, h: History<Arrival>)
    requires h.Then?
    ensures var r := h.last.result;
      if h.before.Start? || h.before.last.result.success != r.success then
        FullLog(startedAt, h) == FullLog(startedAt, h.before) + [Event(HealthOf(r.success), r.timestamp)]
      else
        FullLog(startedAt, h) == FullLog(startedAt, h.before)
  {
  }

  /** The same holds of what the store retains, as long as it retains anything. */
  lemma RetainedEventsAlternate(startedAt: int, h: History<Arrival>, maxEvents: nat)
    requires maxEvents >= 1
    ensures Alternating(Retained(FullLog(startedAt, h), maxEvents))
    ensures h.Then? ==>
      var kept := Retained(FullLog(startedAt, h), maxEvents);
      kept != [] && kept[|kept| - 1].kind == HealthOf(h.last.result.success)
  {
    FullLogAlternates(startedAt, h);
  }

  // ---------------------------------------------------------------------------------
  // Queries over the history
  // ---------------------------------------------------------------------------------

  datatype Answer<+T> = Ok(value: T) | InvalidTimeRange | EndpointNotFound

  /** The success ratio of a range of executions; 0 if there were none. */
  function Ratio(b: Bucket): real {
    if b.Total() == 0 then 0.0 else b.Successful() as real / b.Total() as real
  }

  lemma RatioIsFraction(b: Bucket)
    requires b.Successful() <= b.Total()
    ensures 0.0 <= Ratio(b) <= 1.0
  {
    if b.Total() > 0 {
      DivisionIsFraction(b.Successful() as real, b.Total() as real);
    }
  }

  lemma DivisionIsFraction(a: real, b: real)
    requires 0.0 <= a <= b && 0.0 < b
    ensures 0.0 <= a / b <= 1.0
  {
  }

  /** r is the part of the executions in a range of hours that succeeded. */
  ghost predicate IsUptime(r: real, h: History<Arrival>, lo: int, hi: int) {
    IsPart(r, SucceededIn(h, lo, hi), ExecutedIn(h, lo, hi))
  }

  /** r is part out of whole: 0 if there is nothing, and 1 exactly if there is something and it is all. */
  ghost predicate IsPart(r: real, part: nat, whole: nat) {
    && r * whole as real == part as real
    && (whole == 0 ==> r == 0.0)
    && (r == 1.0 <==> 0 < whole == part)
  }

  /** r is the average response time of the executions in a range of hours: the milliseconds they took,
      modulo 2 to the 64, shared out and rounded down; 0 without executions. */
  ghost predicate IsAverage(r: nat, h: History<Arrival>, lo: int, hi: int) {
    IsShare(r, MillisecondsIn(h, lo, hi) % 0x1_0000_0000_0000_0000, ExecutedIn(h, lo, hi))
  }

  ghost predicate IsShare(r: nat, total: nat, count: nat) {
    if count == 0 then r == 0 else r * count <= total < (r + 1) * count
  }

  lemma RatioOfWindow(h: History<Arrival>, lo: int, hi: int)
    requires lo % 3600 == 0 && hi % 3600 == 0
    ensures IsUptime(Ratio(Window(h, lo, hi)), h, lo, hi)
  {
    WindowCounts(h, lo, hi);
    RatioIsPart(Window(h, lo, hi));
  }

  lemma RatioIsPart(b: Bucket)
    requires b.Successful() <= b.Total()
    ensures IsPart(Ratio(b), b.Successful(), b.Total())
  {
    if b.Total() > 0 {
      Division(b.Successful() as real, b.Total() as real);
    }
  }

  lemma Division(a: real, b: real)
    requires b > 0.0
    ensures a / b * b == a
    ensures a / b == 1.0 <==> a == b
  {
  }

  lemma AverageOfWindow(h: History<Arrival>, lo: int, hi: int)
    requires lo % 3600 == 0 && hi % 3600 == 0
    ensures IsAverage(Average(Window(h, lo, hi)), h, lo, hi)
  {
    WindowCounts(h, lo, hi);
    if ExecutedIn(h, lo, hi) > 0 {
      QuotientIsShare(Window(h, lo, hi).ResponseTime(), ExecutedIn(h, lo, hi));
    }
  }

  lemma QuotientIsShare(total: nat, count: nat)
    requires count > 0
    ensures IsShare(Quotient(total, count), total, count)
  {
    var q := total / count;
    assert total == q * count + total % count;
    assert (q + 1) * count == q * count + count;
  }

  /** The average response time in whole milliseconds; 0 if there were no executions. */
  function Average(b: Bucket): nat {
    if b.Total() == 0 then 0 else Quotient(b.ResponseTime(), b.Total())
  }

  function Quotient(total: nat, count: nat): nat
    requires count > 0
  {
    total / count
  }

  /** The lower end of a query is recent enough for nothing in its range to have been evicted. */
  ghost predicate RecentEnough(h: History<Arrival>, from: int) {
    h.Then? ==> Cutoff(LatestNow(h)) <= HourOf(from)
  }

  /** Any start in the thirty days before the latest insertion is. */
  lemma ThirtyDaysAreRecentEnough(h: History<Arrival>, from: int)
    requires h.Then? ==> LatestNow(h) - 720 * HOUR <= from
    ensures RecentEnough(h, from)
  {
    if h.Then? {
      RecentStartIsRetained(LatestNow(h), from);
    }
  }

  /** What the hours visited by a query hold in the index. */
  function Visited(ix: Index, from: int, until: int): Bucket
    requires from <= until
  {
    SumHours(ix, HourOf(from), Steps(from, until))
  }

  lemma {:induction false} NothingToSum(first: int, n: nat)
    ensures SumHours(map[], first, n) == Idle
  {
    if n > 0 {
      NothingToSum(first, n - 1);
    }
  }

  /** A recent query sees exactly the history of the whole hours from that of `from` to the last
      one visited. */
  lemma VisitedIsWindow(h: History<Arrival>, from: int, until: int)
    requires from <= until && RecentEnough(h, from)
    ensures Visited(IndexAfter(h), from, until) == Window(h, HourOf(from), LastHour(from, until))
  {
    if h.Start? {
      NothingToSum(HourOf(from), Steps(from, until));
    } else {
      SumHoursIsWindow(h, HourOf(from), Steps(from, until));
    }
  }

  /** The average of each of n consecutive hours in which something was executed. */
  function Averages(ix: Index, first: int, n: nat): map<int, nat> {
    if n == 0 then map[]
    else
      var hour := first + 3600 * (n - 1);
      if BucketAt(ix, hour).Total() == 0 then Averages(ix, first, n - 1)
      else Averages(ix, first, n - 1)[hour := Average(ix[hour])]
  }

  lemma {:induction false} AveragesMembers(ix: Index, first: int, n: nat, hour: int)
    requires first % 3600 == 0
    ensures hour in Averages(ix, first, n) <==>
      hour % 3600 == 0 && first <= hour <= first + 3600 * (n - 1) && BucketAt(ix, hour).Total() > 0
    ensures hour in Averages(ix, first, n) ==> Averages(ix, first, n)[hour] == Average(BucketAt(ix, hour))
  {
    if n > 0 {
      AveragesMembers(ix, first, n - 1, hour);
    }
  }

  lemma HourIsShown(h: History<Arrival>, from: int, hour: int)
    requires RecentEnough(h, from) && HourOf(from) <= hour
    ensures BucketAt(IndexAfter(h), hour) == Window(h, hour, hour)
    ensures hour in IndexAfter(h) <==> Window(h, hour, hour).Busy?
  {
    if h.Then? {
      RetainedBucketsAreExact(h);
      assert AgreesAt(h, hour);
    }
  }

  lemma ShownAverage(h: History<Arrival>, from: int, until: int, hour: int)
    requires from <= until && RecentEnough(h, from)
    ensures var averages := Averages(IndexAfter(h), HourOf(from), Steps(from, until));
      && (hour in averages <==>
            hour % 3600 == 0 && HourOf(from) <= hour <= LastHour(from, until) && ExecutedIn(h, hour, hour) > 0)
      && (hour in averages ==> IsAverage(averages[hour], h, hour, hour))
  {
    AveragesMembers(IndexAfter(h), HourOf(from), Steps(from, until), hour);
    if HourOf(from) <= hour && hour % 3600 == 0 {
      HourIsShown(h, from, hour);
      WindowCounts(h, hour, hour);
      AverageOfWindow(h, hour, hour);
    }
  }

  lemma VisitedIsFraction(h: History<Arrival>, from: int, until: int)
    requires from <= until
    ensures 0.0 <= Ratio(Visited(IndexAfter(h), from, until)) <= 1.0
  {
    SumHoursIsSane(h, HourOf(from), Steps(from, until));
    RatioIsFraction(Visited(IndexAfter(h), from, until));
  }

  ghost predicate SomeNewer(rs: seq<Result>, timestamp: int) {
    exists i :: 0 <= i < |rs| && rs[i].timestamp > timestamp
  }

  /** The timestamps of the results never go back. */
  ghost predicate TimestampsOrdered(h: History<Arrival>) {
    h.Then? && h.before.Then? ==>
      h.before.last.result.timestamp <= h.last.result.timestamp && TimestampsOrdered(h.before)
  }

  lemma {:induction false} NewestIsLast(h: History<Arrival>)
    requires h.Then? && TimestampsOrdered(h)
    ensures forall i :: 0 <= i < |AllResults(h)| ==> AllResults(h)[i].timestamp <= h.last.result.timestamp
  {
    if h.before.Then? {
      NewestIsLast(h.before);
    }
  }

  /** Looking for a newer result among the retained ones only is as good as looking among all. */
  lemma RetainedResultsDecideNewer(h: History<Arrival>, maxResults: nat, timestamp: int)
    requires maxResults >= 1 && TimestampsOrdered(h)
    ensures SomeNewer(LastN(AllResults(h), maxResults), timestamp) <==> SomeNewer(AllResults(h), timestamp)
  {
    if h.Then? {
      NewestIsLast(h);
      var all, kept := AllResults(h), LastN(AllResults(h), maxResults);
      assert kept[|kept| - 1] == all[|all| - 1] == h.last.result;
    }
  }

  // ---------------------------------------------------------------------------------
  // The mutable store
  // ---------------------------------------------------------------------------------

  class Status {
    const Name: string
    const Group: string
    const Key: string
    const Uptime: Uptime
    var Results: seq<Result>
    var Events: seq<Event>

    /** Everything ever added to this status, and the limits it is added under. */
    ghost var record: Record
    ghost const maxResults: nat
    ghost const maxEvents: nat
    ghost var Repr: set<object>

    /** `NewStatus`, together with the start event that `InsertEndpointResult` appends to it. */
    constructor (group: string, name: string, startedAt: int, ghost maxResults: nat, ghost maxEvents: nat)
      ensures Valid() && fresh(Repr)
      ensures Group == group && Name == name && Key == Keys.Key(group, name)
      ensures this.maxResults == maxResults && this.maxEvents == maxEvents
      ensures record == Record(startedAt, Start)
    {
      Group, Name, Key := group, name, Keys.Key(group, name);
      Results := [];
      Events := [Event(START, startedAt)];
      var uptime := new Uptime();
      Uptime := uptime;
      record := Record(startedAt, Start);
      this.maxResults, this.maxEvents := maxResults, maxEvents;
      Repr := {this} + uptime.Repr;
    }

    /** The status as a value. */
    ghost function View(): StatusView
      reads this, Uptime
    {
      StatusView(Results, Events, Uptime.Contents)
    }

    /** The status is what its record makes of it. */
    ghost predicate Valid()
      reads this, Repr
      ensures Valid() ==> this in Repr
    {
      && this in Repr && Uptime in Repr && Uptime.Repr <= Repr && this !in Uptime.Repr
      && Uptime.Valid()
      && View() == StatusAfter(record.startedAt, record.arrivals, maxResults, maxEvents)
    }

    /** `AddResult` of util.go. */
    method Add(result: Result, now: int, maximumNumberOfResults: nat, maximumNumberOfEvents: nat)
      requires Valid() && maximumNumberOfResults == maxResults && maximumNumberOfEvents == maxEvents
      modifies Repr
      ensures Valid() && fresh(Repr - old(Repr))
      ensures record == Record(old(record).startedAt, Then(old(record).arrivals, Arrival(result, now)))
    {
      AddToWindow(result, maximumNumberOfResults, maximumNumberOfEvents);
      Uptime.Process(result, now);
      record := Record(record.startedAt, Then(record.arrivals, Arrival(result, now)));
      Repr := Repr + Uptime.Repr;
    }

    /** The part of `AddResult` that maintains the bounded lists. */
    method AddToWindow(result: Result, maximumNumberOfResults: nat, maximumNumberOfEvents: nat)
      modifies this`Results, this`Events
      ensures Results == LastN(old(Results) + [result], maximumNumberOfResults)
      ensures Events == NextEvents(old(Results), old(Events), result, maximumNumberOfEvents)
    {
      if |Results| > 0 {
        if Results[|Results| - 1].success != result.success {
          Events := Events + [EventOf(result)];
          if |Events| > maximumNumberOfEvents {
            Events := Events[|Events| - maximumNumberOfEvents..];
          }
        }
      } else {
        Events := Events + [EventOf(result)];
      }
      Results := Results + [result];
      if |Results| > maximumNumberOfResults {
        Results := Results[|Results| - maximumNumberOfResults..];
      }
    }
  }

  class Store {
    const maximumNumberOfResults: nat
    const maximumNumberOfEvents: nat
    var endpointCache: map<string, Status>
    ghost var Repr: set<object>

    /** `NewStore`; the limits come from a validated configuration. */
    constructor (maximumNumberOfResults: nat, maximumNumberOfEvents: nat)
      requires maximumNumberOfResults >= 1 && maximumNumberOfEvents >= 1
      ensures Valid() && fresh(Repr) && (forall key :: RecordOf(key) == None)
      ensures this.maximumNumberOfResults == maximumNumberOfResults
      ensures this.maximumNumberOfEvents == maximumNumberOfEvents
    {
      this.maximumNumberOfResults, this.maximumNumberOfEvents := maximumNumberOfResults, maximumNumberOfEvents;
      endpointCache, Repr := map[], {this};
    }

    /** The status of a key is valid, lives in its own part of the heap, and is kept under the
        limits of the store. */
    ghost predicate Owns(status: Status)
      reads this, status, status.Repr
    {
      && status in Repr && status.Repr <= Repr && this !in status.Repr && status.Valid()
      && status.maxResults == maximumNumberOfResults && status.maxEvents == maximumNumberOfEvents
    }

    /** A status whose part of the heap has not changed is still owned. */
    twostate lemma StillOwned(status: Status)
      requires old(Owns(status)) && old(Repr) <= Repr
      requires forall o :: o in old(status.Repr) ==> unchanged(o)
      ensures Owns(status) && status.Repr == old(status.Repr) && status.record == old(status.record)
    {
    }

    ghost predicate Valid()
      reads this, Repr
      ensures Valid() ==> this in Repr
    {
      && this in Repr
      && maximumNumberOfResults >= 1 && maximumNumberOfEvents >= 1
      && (forall key :: key in endpointCache ==>
            endpointCache[key] in Repr && endpointCache[key].Repr <= Repr && Owns(endpointCache[key]))
      && (forall k, k' :: k in endpointCache && k' in endpointCache && k != k' ==>
            endpointCache[k].Repr !! endpointCache[k'].Repr)
    }

    /** Everything ever inserted under a key, if the key is in the cache. */
    ghost function RecordOf(key: string): Option<Record>
      reads this, endpointCache.Values
    {
      if key in endpointCache then Some(endpointCache[key].record) else None
    }

    /** `InsertEndpointResult`: appends to the record of the endpoint's key, which is created if
        need be, and touches no other. */
    method InsertEndpointResult(group: string, name: string, result: Result, startedAt: int, now: int)
      requires Valid()
      modifies Repr
      ensures Valid() && fresh(Repr - old(Repr))
      ensures var before, after := old(RecordOf(Keys.Key(group, name))), RecordOf(Keys.Key(group, name));
        && after.Some?
        && after.value.startedAt == (if before.Some? then before.value.startedAt else startedAt)
        && after.value.arrivals == Then(if before.Some? then before.value.arrivals else Start, Arrival(result, now))
      ensures forall key :: key != Keys.Key(group, name) ==> RecordOf(key) == old(RecordOf(key))
    {
      var key := Keys.Key(group, name);
      if key !in endpointCache {
        Create(key, group, name, startedAt);
      }
      Append(key, result, now);
    }

    method Create(key: string, group: string, name: string, startedAt: int)
      requires Valid() && key !in endpointCache
      modifies this
      ensures Valid() && fresh(Repr - old(Repr))
      ensures RecordOf(key) == Some(Record(startedAt, Start))
      ensures forall k :: k != key ==> RecordOf(k) == old(RecordOf(k))
    {
      var created := new Status(group, name, startedAt, maximumNumberOfResults, maximumNumberOfEvents);
      endpointCache := endpointCache[key := created];
      Repr := Repr + created.Repr;
      forall k | k in old(endpointCache)
        ensures Owns(endpointCache[k]) && endpointCache[k].Repr == old(endpointCache[k].Repr)
        ensures endpointCache[k].record == old(endpointCache[k].record)
      {
        StillOwned(old(endpointCache[k]));
      }
    }

    method Append(key: string, result: Result, now: int)
      requires Valid() && key in endpointCache
      modifies Repr
      ensures Valid() && fresh(Repr - old(Repr))
      ensures RecordOf(key) == Some(Extended(old(RecordOf(key)), 0, Arrival(result, now)))
      ensures forall k :: k != key ==> RecordOf(k) == old(RecordOf(k))
    {
      var status := endpointCache[key];
      status.Add(result, now, maximumNumberOfResults, maximumNumberOfEvents);
      Repr := Repr + status.Repr;
      assert Owns(status);
      forall k | k in endpointCache && k != key
        ensures Owns(endpointCache[k]) && endpointCache[k].Repr == old(endpointCache[k].Repr) &&
                endpointCache[k].Repr !! status.Repr
        ensures endpointCache[k].record == old(endpointCache[k].record)
      {
        StillOwned(endpointCache[k]);
      }
    }

    /** What the cached status of a key shows of its record. */
    lemma Shows(key: string)
      requires Valid() && key in endpointCache
      ensures var s := endpointCache[key];
        && s.Results == LastN(AllResults(s.record.arrivals), maximumNumberOfResults)
        && s.Events == Retained(FullLog(s.record.startedAt, s.record.arrivals), maximumNumberOfEvents)
        && s.Uptime.Valid() && s.Uptime.Contents == IndexAfter(s.record.arrivals)
    {
      var s := endpointCache[key];
      assert Owns(s);
      StatusIsBoundedHistory(s.record.startedAt, s.record.arrivals, maximumNumberOfResults, maximumNumberOfEvents);
    }

    /** `GetEndpointStatusByKey`: a page of the retained results and events, or all of them when
        every paging parameter is zero. */
    method GetEndpointStatusByKey(key: string, page: int, pageSize: int, eventsPage: int, eventsPageSize: int)
        returns (r: Answer<(seq<Result>, seq<Event>)>)
      requires Valid()
      ensures RecordOf(key).None? <==> r.EndpointNotFound?
      ensures r.Ok? <==> RecordOf(key).Some?
      ensures r.Ok? ==>
        var record := RecordOf(key).value;
        var results := LastN(AllResults(record.arrivals), maximumNumberOfResults);
        var events := Retained(FullLog(record.startedAt, record.arrivals), maximumNumberOfEvents);
        r.value == if page == pageSize == eventsPage == eventsPageSize == 0 then (results, events)
                   else (Paging.PageOf(results, page, pageSize), Paging.PageOf(events, eventsPage, eventsPageSize))
    {
      if key !in endpointCache {
        return EndpointNotFound;
      }
      Shows(key);
      var s := endpointCache[key];
      if page == pageSize == eventsPage == eventsPageSize == 0 {
        return Ok((s.Results, s.Events));
      }
      return Ok((Paging.PageOf(s.Results, page, pageSize), Paging.PageOf(s.Events, eventsPage, eventsPageSize)));
    }

    /** The loop shared by the uptime and the response time queries: visits the hours from that of
        `from`, one hour apart, for as long as `until` has not been passed. */
    method AddUp(uptime: Uptime, from: int, until: int) returns (total: nat, successful: nat, responseTime: uint64)
      requires uptime.Valid() && from <= until
      requires forall hour :: hour in uptime.Contents ==> uptime.Contents[hour].Total() > 0
      ensures var visited := Visited(uptime.Contents, from, until);
        total == visited.Total() && successful == visited.Successful() && responseTime == visited.ResponseTime()
    {
      total, successful, responseTime := 0, 0, 0;
      var current := from;
      ghost var n := 0;
      while until - current >= 0
        invariant current - 3_600_000_000_000 * n == from
        invariant HourOf(current) == HourOf(from) + 3600 * n
        invariant n == 0 || current - HOUR <= until
        invariant var visited := SumHours(uptime.Contents, HourOf(from), n);
          total == visited.Total() && successful == visited.Successful() && responseTime == visited.ResponseTime()
        decreases until - current
      {
        var hour := HourOf(current);
        HourOfNext(current);
        if hour in uptime.HourlyStatistics && uptime.HourlyStatistics[hour].TotalExecutions != 0 {
          var stats := uptime.HourlyStatistics[hour];
          total := total + stats.TotalExecutions;
          successful := successful + stats.SuccessfulExecutions;
          responseTime := Add64(responseTime, stats.TotalExecutionsResponseTime);
        }
        current := current + HOUR;
        n := n + 1;
      }
      assert n == Steps(from, until);
    }

    /** `GetUptimeByKey`. For a recent range the answer is the success ratio of everything ever
        inserted in the hours visited; for any range it is a fraction. */
    method GetUptimeByKey(key: string, from: int, until: int) returns (r: Answer<real>)
      requires Valid()
      ensures r.InvalidTimeRange? <==> from > until
      ensures r.EndpointNotFound? <==> from <= until && RecordOf(key).None?
      ensures r.Ok? ==> 0.0 <= r.value <= 1.0
      ensures r.Ok? && RecentEnough(RecordOf(key).value.arrivals, from) ==>
        IsUptime(r.value, RecordOf(key).value.arrivals, HourOf(from), LastHour(from, until))
    {
      if from > until {
        return InvalidTimeRange;
      }
      if key !in endpointCache {
        return EndpointNotFound;
      }
      Shows(key);
      ghost var h := endpointCache[key].record.arrivals;
      VisitedIsFraction(h, from, until);
      if RecentEnough(h, from) {
        VisitedIsWindow(h, from, until);
        RatioOfWindow(h, HourOf(from), LastHour(from, until));
      }
      BucketsAreSane(h);
      var total, successful, _ := AddUp(endpointCache[key].Uptime, from, until);
      if total == 0 {
        return Ok(0.0);
      }
      return Ok(successful as real / total as real);
    }

    /** `GetAverageResponseTimeByKey`. */
    method GetAverageResponseTimeByKey(key: string, from: int, until: int) returns (r: Answer<nat>)
      requires Valid()
      ensures r.InvalidTimeRange? <==> from > until
      ensures r.EndpointNotFound? <==> from <= until && RecordOf(key).None?
      ensures r.Ok? && RecentEnough(RecordOf(key).value.arrivals, from) ==>
        IsAverage(r.value, RecordOf(key).value.arrivals, HourOf(from), LastHour(from, until))
    {
      if from > until {
        return InvalidTimeRange;
      }
      if key !in endpointCache {
        return EndpointNotFound;
      }
      Shows(key);
      ghost var h := endpointCache[key].record.arrivals;
      if RecentEnough(h, from) {
        VisitedIsWindow(h, from, until);
        AverageOfWindow(h, HourOf(from), LastHour(from, until));
      }
      BucketsAreSane(h);
      var total, _, responseTime := AddUp(endpointCache[key].Uptime, from, until);
      if total == 0 {
        return Ok(0);
      }
      return Ok(Quotient(responseTime, total));
    }

    /** `GetHourlyAverageResponseTimeByKey`: for a recent range, one entry for every visited hour
        in which anything was ever inserted. */
    method GetHourlyAverageResponseTimeByKey(key: string, from: int, until: int) returns (r: Answer<map<int, nat>>)
      requires Valid()
      ensures r.InvalidTimeRange? <==> from > until
      ensures r.EndpointNotFound? <==> from <= until && RecordOf(key).None?
      ensures r.Ok? && RecentEnough(RecordOf(key).value.arrivals, from) ==>
        var h := RecordOf(key).value.arrivals;
        && (forall hour :: hour in r.value <==>
              hour % 3600 == 0 && HourOf(from) <= hour <= LastHour(from, until) && ExecutedIn(h, hour, hour) > 0)
        && (forall hour :: hour in r.value ==> IsAverage(r.value[hour], h, hour, hour))
    {
      if from > until {
        return InvalidTimeRange;
      }
      if key !in endpointCache {
        return EndpointNotFound;
      }
      Shows(key);
      ghost var h := endpointCache[key].record.arrivals;
      var averages := AveragePerHour(endpointCache[key].Uptime, from, until);
      if RecentEnough(h, from) {
        forall hour
          ensures hour in averages <==>
            hour % 3600 == 0 && HourOf(from) <= hour <= LastHour(from, until) && ExecutedIn(h, hour, hour) > 0
          ensures hour in averages ==> IsAverage(averages[hour], h, hour, hour)
        {
          ShownAverage(h, from, until, hour);
        }
      }
      return Ok(averages);
    }

    /** The loop of the hourly query. */
    method AveragePerHour(uptime: Uptime, from: int, until: int) returns (averages: map<int, nat>)
      requires uptime.Valid() && from <= until
      ensures averages == Averages(uptime.Contents, HourOf(from), Steps(from, until))
    {
      averages := map[];
      var current := from;
      ghost var n := 0;
      while until - current >= 0
        invariant current - 3_600_000_000_000 * n == from
        invariant HourOf(current) == HourOf(from) + 3600 * n
        invariant n == 0 || current - HOUR <= until
        invariant averages == Averages(uptime.Contents, HourOf(from), n)
        decreases until - current
      {
        var hour := HourOf(current);
        HourOfNext(current);
        if hour in uptime.HourlyStatistics && uptime.HourlyStatistics[hour].TotalExecutions != 0 {
          var stats := uptime.HourlyStatistics[hour];
          averages := averages[hour := Quotient(stats.TotalExecutionsResponseTime, stats.TotalExecutions)];
        }
        current := current + HOUR;
        n := n + 1;
      }
      assert n == Steps(from, until);
    }

    /** `HasEndpointStatusNewerThan`: whether some retained result is newer; with timestamps that
        never go back, whether any result ever inserted is. */
    method HasEndpointStatusNewerThan(key: string, timestamp: int) returns (newer: bool)
      requires Valid()
      ensures RecordOf(key).None? ==> !newer
      ensures RecordOf(key).Some? ==>
        var kept := LastN(AllResults(RecordOf(key).value.arrivals), maximumNumberOfResults);
        (newer <==> exists i :: 0 <= i < |kept| && kept[i].timestamp > timestamp)
      ensures RecordOf(key).Some? && TimestampsOrdered(RecordOf(key).value.arrivals) ==>
        (newer <==> SomeNewer(AllResults(RecordOf(key).value.arrivals), timestamp))
    {
      if key !in endpointCache {
        return false;
      }
      Shows(key);
      ghost var h := endpointCache[key].record.arrivals;
      if TimestampsOrdered(h) {
        RetainedResultsDecideNewer(h, maximumNumberOfResults, timestamp);
      }
      newer := AnyNewer(endpointCache[key].Results, timestamp);
    }

    static method AnyNewer(results: seq<Result>, timestamp: int) returns (newer: bool)
      ensures newer <==> SomeNewer(results, timestamp)
    {
      for i := 0 to |results|
        invariant forall j :: 0 <= j < i ==> results[j].timestamp <= timestamp
      {
        if results[i].timestamp > timestamp {
          return true;
        }
      }
      return false;
    }

    /** `DeleteAllEndpointStatusesNotInKeys`: the statuses of the given keys stay as they are, all
        others go; the result is how many went. */
    method DeleteAllEndpointStatusesNotInKeys(keys: seq<string>) returns (deleted: nat)
      requires Valid()
      modifies this`endpointCache
      ensures Valid()
      ensures forall key :: RecordOf(key) == if key in keys then old(RecordOf(key)) else None
      ensures deleted == |set key | key in old(endpointCache) && key !in keys|
    {
      var keysToDelete := KeysToDelete(endpointCache.Keys, keys);
      assert keysToDelete == set key | key in endpointCache && key !in keys;
      DeleteAll(keysToDelete);
      deleted := |keysToDelete|;
    }

    method DeleteAll(keysToDelete: set<string>)
      requires Valid()
      modifies this`endpointCache
      ensures Valid()
      ensures forall key :: RecordOf(key) == if key in keysToDelete then None else old(RecordOf(key))
    {
      endpointCache := endpointCache - keysToDelete;
      forall key | key in endpointCache ensures Owns(endpointCache[key]) {
        StillOwned(old(endpointCache[key]));
      }
    }

    /** The existing keys that are not to be kept, found by comparing each with all of `keys`. */
    static method KeysToDelete(existing: set<string>, keys: seq<string>) returns (keysToDelete: set<string>)
      ensures keysToDelete == set key | key in existing && key !in keys
    {
      keysToDelete := {};
      var pending := existing;
      while pending != {}
        invariant pending <= existing
        invariant keysToDelete == set key | key in existing && key !in pending && key !in keys
        decreases pending
      {
        var existingKey := Pick(pending);
        pending := pending - {existingKey};
        var shouldDelete := true;
        for i := 0 to |keys|
          invariant shouldDelete <==> existingKey !in keys[..i]
        {
          if existingKey == keys[i] {
            shouldDelete := false;
            break;
          }
        }
        if shouldDelete {
          keysToDelete := keysToDelete + {existingKey};
        }
      }
    }
  }
}
