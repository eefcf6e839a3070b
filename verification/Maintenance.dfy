/**
  The maintenance window (app/config/maintenance/maintenance.go), in a zone with a fixed offset.

  Times are nanoseconds. A local time counts from midnight of 1970-01-01, a Thursday; days are
  numbered from that day.
*/
module Maintenance {
  import opened GoStrings

  const MINUTE := 60_000_000_000
  const HOUR := 60 * MINUTE
  const DAY := 24 * HOUR

  const LONG_DAY_NAMES: seq<string> :=
    ["Sunday", "Monday", "Tuesday", "Wednesday", "Thursday", "Friday", "Saturday"]

  /** The name of the weekday of a day. */
  function DayName(day: int): string {
    LONG_DAY_NAMES[(day + 4) % 7]
  }

  /** The week: 1970-01-01 was a Thursday, and the names follow one another. */
  lemma WeekRuns(day: int)
    ensures DayName(0) == "Thursday"
    ensures DayName(day) == "Sunday" <==> DayName(day + 1) == "Monday"
    ensures DayName(day) == "Monday" <==> DayName(day + 1) == "Tuesday"
    ensures DayName(day) == "Tuesday" <==> DayName(day + 1) == "Wednesday"
    ensures DayName(day) == "Wednesday" <==> DayName(day + 1) == "Thursday"
    ensures DayName(day) == "Thursday" <==> DayName(day + 1) == "Friday"
    ensures DayName(day) == "Friday" <==> DayName(day + 1) == "Saturday"
    ensures DayName(day) == "Saturday" <==> DayName(day + 1) == "Sunday"
  {
    assert (day + 1 + 4) % 7 == if (day + 4) % 7 == 6 then 0 else (day + 4) % 7 + 1;
    NamesDiffer((day + 4) % 7);
    NamesDiffer((day + 5) % 7);
  }

  lemma NamesDiffer(w: nat)
    requires w < 7
    ensures LONG_DAY_NAMES[w] == "Sunday" <==> w == 0
    ensures LONG_DAY_NAMES[w] == "Monday" <==> w == 1
    ensures LONG_DAY_NAMES[w] == "Tuesday" <==> w == 2
    ensures LONG_DAY_NAMES[w] == "Wednesday" <==> w == 3
    ensures LONG_DAY_NAMES[w] == "Thursday" <==> w == 4
    ensures LONG_DAY_NAMES[w] == "Friday" <==> w == 5
    ensures LONG_DAY_NAMES[w] == "Saturday" <==> w == 6
  {
  }

  /** Each name belongs to one day in seven, counted from the first such day after 1970-01-01. */
  lemma NamedDays(day: int)
    ensures DayName(day) == "Thursday" <==> day % 7 == 0
    ensures DayName(day) == "Friday" <==> (day - 1) % 7 == 0
    ensures DayName(day) == "Saturday" <==> (day - 2) % 7 == 0
    ensures DayName(day) == "Sunday" <==> (day - 3) % 7 == 0
    ensures DayName(day) == "Monday" <==> (day - 4) % 7 == 0
    ensures DayName(day) == "Tuesday" <==> (day - 5) % 7 == 0
    ensures DayName(day) == "Wednesday" <==> (day - 6) % 7 == 0
  {
    NamesDiffer((day + 4) % 7);
  }

  // ---------------------------------------------------------------------------------
  // The start, hh:mm
  // ---------------------------------------------------------------------------------

  /** `strconv.Atoi(strings.TrimPrefix(s, "0"))`. */
  function NumberOf(s: string): Option<int> {
    Atoi(if HasPrefix(s, "0") then s[1..] else s)
  }

  /** Text of which every character is one byte. */
  predicate IsAscii(s: string) {
    forall i :: 0 <= i < |s| ==> s[i] < '\U{0080}'
  }

  /** `hhmmToDuration`. The original counts bytes and does not look at the third one. A text with a
      character of more bytes is refused in any case: five bytes leave room for one beside digits
      only if it reaches into the hours or the minutes. */
  function HhmmToDuration(s: string): (r: Option<nat>)
    ensures r.Some? ==> r.value < DAY && r.value % MINUTE == 0
  {
    if |s| != 5 || !IsAscii(s) then None
    else
      match NumberOf(s[..2])
      case None => None
      case Some(hours) =>
        match NumberOf(s[3..5])
        case None => None
        case Some(minutes) =>
          var duration := hours * HOUR + minutes * MINUTE;
          if hours < 0 || hours > 23 || minutes < 0 || minutes > 59 || duration < 0 || duration >= DAY then None
          else
            assert duration == (hours * 60 + minutes) * MINUTE;
            Some(duration)
  }

  function TwoDigits(n: nat): string
    requires n < 100
  {
    [Digit(n / 10), Digit(n % 10)]
  }

  lemma NumberOfTwoDigits(n: nat)
    requires n < 100
    ensures NumberOf(TwoDigits(n)) == Some(n)
  {
    var s := TwoDigits(n);
    if n < 10 {
      assert s[1..] == Itoa(n);
    } else {
      assert Digits(n / 10) == [Digit(n / 10)];
      assert s == Itoa(n);
    }
    AtoiOfItoa(n);
  }

  /** Two digits, any separator of one byte, and two digits are read as written if they are a time of day;
      they are refused if they are not, or if the separator is any other. */
  lemma ClockRoundTrip(hours: nat, minutes: nat, separator: char)
    requires hours < 100 && minutes < 100
    ensures HhmmToDuration(TwoDigits(hours) + [separator] + TwoDigits(minutes))
         == if separator < '\U{0080}' && hours < 24 && minutes < 60 then
              Some(hours * 3_600_000_000_000 + minutes * 60_000_000_000)
            else None
  {
    var s := TwoDigits(hours) + [separator] + TwoDigits(minutes);
    assert s[2] == separator;
    assert s[..2] == TwoDigits(hours) && s[3..5] == TwoDigits(minutes);
    NumberOfTwoDigits(hours);
    NumberOfTwoDigits(minutes);
  }

  // ---------------------------------------------------------------------------------
  // The window
  // ---------------------------------------------------------------------------------

  ghost predicate Scheduled(every: seq<string>, day: int) {
    every == [] || DayName(day) in every
  }

  /** Strictly inside the window that starts on the given day. */
  ghost predicate InWindowOf(day: int, start: nat, duration: int, local: int) {
    day * DAY + start < local < day * DAY + start + duration
  }

  /** What the window is meant to be: inside the window of some scheduled day. */
  ghost predicate InSomeWindow(start: nat, duration: int, every: seq<string>, local: int) {
    exists day :: Scheduled(every, day) && InWindowOf(day, start, duration, local)
  }

  /** The day whose window the code looks at: yesterday if the hour of the start is still to
      come. */
  function DayLookedAt(start: nat, local: int): int {
    var today := local / DAY;
    if (local % DAY) / HOUR < start / HOUR then today - 1 else today
  }

  ghost predicate IsUnder(start: nat, duration: int, every: seq<string>, local: int) {
    var day := DayLookedAt(start, local);
    Scheduled(every, day) && InWindowOf(day, start, duration, local)
  }

  /** The day looked at is the one with local between its start hour and the next day's. */
  lemma DayLookedAtIff(start: nat, local: int, day: int)
    requires start < DAY
    ensures day == DayLookedAt(start, local) <==>
            var hour := start - start % HOUR;
            day * DAY + hour <= local < (day + 1) * DAY + hour
  {
    var today, time := local / DAY, local % DAY;
    var h := start / HOUR;
    assert start - start % HOUR == h * HOUR;
    assert time / HOUR < h <==> time < h * HOUR;
  }

  /** Exactly when the code says yes: inside the window of a scheduled day, and before the start
      hour comes round again. */
  lemma IsUnderIff(start: nat, duration: int, every: seq<string>, local: int)
    requires start < DAY
    ensures IsUnder(start, duration, every, local) <==>
            exists day :: Scheduled(every, day) && InWindowOf(day, start, duration, local)
              && local < (day + 1) * DAY + start - start % HOUR
  {
    DayLookedAtIff(start, local, DayLookedAt(start, local));
    if day :| Scheduled(every, day) && InWindowOf(day, start, duration, local)
              && local < (day + 1) * DAY + start - start % HOUR {
      DayLookedAtIff(start, local, day);
    }
  }

  lemma SameName(a: int, b: int)
    ensures DayName(a) == DayName(b) <==> (a - b) % 7 == 0
  {
    NamesDiffer((a + 4) % 7);
    NamesDiffer((b + 4) % 7);
  }

  /** The instant is in the window of a day that is any number of weeks from the given one, and before the
      start hour comes round again. */
  ghost predicate InWeeklyWindow(first: int, start: nat, duration: int, local: int) {
    exists day :: (day - first) % 7 == 0 && day * DAY + start < local < day * DAY + start + duration
      && local < (day + 1) * DAY + start - start % HOUR
  }

  /** A schedule of one named day: the window of every seventh day. */
  lemma IsUnderOnOneDay(first: int, start: nat, duration: int, local: int)
    requires start < DAY
    ensures IsUnder(start, duration, [DayName(first)], local) <==> InWeeklyWindow(first, start, duration, local)
  {
    IsUnderIff(start, duration, [DayName(first)], local);
    forall day ensures Scheduled([DayName(first)], day) <==> (day - first) % 7 == 0 {
      SameName(day, first);
    }
    assert forall day :: InWindowOf(day, start, duration, local) <==>
      day * DAY + start < local < day * DAY + start + duration;
  }

  /** On Sundays: 1970-01-04, which is day 3, and every seventh day from there. */
  lemma IsUnderOnSundays(start: nat, duration: int, local: int)
    requires start < DAY
    ensures IsUnder(start, duration, ["Sunday"], local) <==> InWeeklyWindow(3, start, duration, local)
  {
    NamedDays(3);
    IsUnderOnOneDay(3, start, duration, local);
  }

  lemma UnderIsInSomeWindow(start: nat, duration: int, every: seq<string>, local: int)
    requires start < DAY && IsUnder(start, duration, every, local)
    ensures InSomeWindow(start, duration, every, local)
  {
    assert Scheduled(every, DayLookedAt(start, local));
  }

  ghost predicate ValidDays(every: seq<string>) {
    forall i :: 0 <= i < |every| ==> every[i] in LONG_DAY_NAMES
  }

  lemma SomeScheduledDay(every: seq<string>) returns (day: int)
    requires ValidDays(every)
    ensures Scheduled(every, day)
  {
    if every == [] {
      day := 0;
    } else {
      assert every[0] in LONG_DAY_NAMES;
      var w :| 0 <= w < 7 && LONG_DAY_NAMES[w] == every[0];
      day := w + 3;
      assert (day + 4) % 7 == w;
    }
  }

  /** The code finds the whole window of every scheduled day exactly when the duration is at most
      24 hours less the minutes of the start: the test for yesterday's window compares hours
      only. */
  lemma MeetsIntentIff(start: nat, duration: int, every: seq<string>)
    requires start < DAY && 0 < duration <= DAY && ValidDays(every)
    ensures (forall local :: IsUnder(start, duration, every, local) <==> InSomeWindow(start, duration, every, local))
       <==> duration <= DAY - start % HOUR
  {
    if duration <= DAY - start % HOUR {
      forall local
        ensures IsUnder(start, duration, every, local) <==> InSomeWindow(start, duration, every, local)
      {
        IsUnderIff(start, duration, every, local);
        if day :| Scheduled(every, day) && InWindowOf(day, start, duration, local) {
          assert local < (day + 1) * DAY + start - start % HOUR;
        }
      }
    } else {
      var day := SomeScheduledDay(every);
      MissedInstant(start, duration, every, day);
    }
  }

  /** The instant that is missed: the start hour of the next day. */
  lemma MissedInstant(start: nat, duration: int, every: seq<string>, day: int)
    requires start < DAY && duration <= DAY && Scheduled(every, day)
    requires duration > DAY - start % HOUR
    ensures var local := (day + 1) * DAY + start - start % HOUR;
      InSomeWindow(start, duration, every, local) && !IsUnder(start, duration, every, local)
  {
    var local := (day + 1) * DAY + start - start % HOUR;
    DayLookedAtIff(start, local, day + 1);
    assert InWindowOf(day, start, duration, local);
  }

  // ---------------------------------------------------------------------------------
  // The configuration object
  // ---------------------------------------------------------------------------------

  datatype Error = InvalidStart | InvalidDuration | InvalidDay | InvalidTimezone

  class Config {
    var enabled: Option<bool>
    var start: string
    var duration: int
    var timezone: string
    var every: seq<string>
    var timezoneLocation: Option<int> // the offset of the zone
    var durationToStartFromMidnight: nat

    constructor (enabled: Option<bool>, start: string, duration: int, timezone: string, every: seq<string>)
      ensures this.enabled == enabled && this.start == start && this.duration == duration
      ensures this.timezone == timezone && this.every == every
      ensures timezoneLocation == None && durationToStartFromMidnight == 0
    {
      this.enabled, this.start, this.duration := enabled, start, duration;
      this.timezone, this.every := timezone, every;
      timezoneLocation, durationToStartFromMidnight := None, 0;
    }

    predicate IsEnabled()
      reads this
    {
      enabled == None || enabled.value
    }

    /** What an accepted and enabled configuration promises. */
    ghost predicate Ready()
      reads this
    {
      && ValidDays(every)
      && durationToStartFromMidnight < DAY
      && HhmmToDuration(start) == Some(durationToStartFromMidnight)
      && 0 < duration <= DAY
      && timezoneLocation.Some?
    }

    /** `zones` are the offsets of the zones that can be loaded. */
    method ValidateAndSetDefaults(zones: map<string, int>) returns (error: Option<Error>)
      modifies this
      ensures enabled == old(enabled) && start == old(start) && duration == old(duration) && every == old(every)
      ensures enabled == Some(false) ==> error == None && unchanged(this)
      ensures enabled != Some(false) ==>
        (error == None <==>
          && ValidDays(every) && HhmmToDuration(start).Some? && 0 < duration <= DAY
          && (old(timezone) == "" || old(timezone) in zones))
      ensures enabled != Some(false) && error == None ==>
        && Ready()
        && timezone == (if old(timezone) == "" then "UTC" else old(timezone))
        && timezoneLocation == Some(if old(timezone) == "" then 0 else zones[timezone])
      ensures error == Some(InvalidDay) ==> !ValidDays(every)
      ensures error == Some(InvalidStart) ==> ValidDays(every) && HhmmToDuration(start) == None
      ensures error == Some(InvalidDuration) ==> HhmmToDuration(start).Some? && !(0 < duration <= DAY)
      ensures error == Some(InvalidTimezone) ==> 0 < duration <= DAY && old(timezone) !in zones
    {
      error := None;
      if !IsEnabled() {
        return;
      }
      for i := 0 to |every|
        invariant unchanged(this)
        invariant forall j :: 0 <= j < i ==> every[j] in LONG_DAY_NAMES
      {
        var isDayValid := IsDayName(every[i]);
        if !isDayValid {
          return Some(InvalidDay);
        }
      }
      var parsed := HhmmToDuration(start);
      if parsed.None? {
        durationToStartFromMidnight := 0;
        return Some(InvalidStart);
      }
      durationToStartFromMidnight := parsed.value;
      if duration <= 0 || duration > DAY {
        return Some(InvalidDuration);
      }
      if timezone != "" {
        if timezone !in zones {
          timezoneLocation := None;
          return Some(InvalidTimezone);
        }
        timezoneLocation := Some(zones[timezone]);
      } else {
        timezone := "UTC";
        timezoneLocation := Some(0);
      }
    }

    method HasDay(day: string) returns (found: bool)
      ensures found <==> day in every
    {
      for i := 0 to |every|
        invariant forall j :: 0 <= j < i ==> every[j] != day
      {
        if every[i] == day {
          return true;
        }
      }
      return false;
    }

    /** `now` is the clock in UTC and `localOffset` the offset of the machine's zone. */
    method IsUnderMaintenance(now: int, localOffset: int) returns (r: bool)
      ensures var local := now + if timezoneLocation.Some? then timezoneLocation.value else localOffset;
        r <==> enabled != Some(false) && IsUnder(durationToStartFromMidnight, duration, every, local)
    {
      if !IsEnabled() {
        return false;
      }
      var local := now + if timezoneLocation.Some? then timezoneLocation.value else localOffset;
      var adjustedDate := local / DAY;
      if (local % DAY) / HOUR < durationToStartFromMidnight / HOUR {
        adjustedDate := adjustedDate - 1;
      }
      var hasMaintenanceEveryDay := |every| == 0;
      var hasPeriodOnThatWeekday := HasDay(DayName(adjustedDate));
      if !hasMaintenanceEveryDay && !hasPeriodOnThatWeekday {
        return false;
      }
      var startOfMaintenancePeriod := adjustedDate * DAY + durationToStartFromMidnight;
      var endOfMaintenancePeriod := startOfMaintenancePeriod + duration;
      return startOfMaintenancePeriod < local < endOfMaintenancePeriod;
    }
  }

  /** The inner loop over the names of days. */
  method IsDayName(day: string) returns (valid: bool)
    ensures valid <==> day in LONG_DAY_NAMES
  {
    valid := false;
    for i := 0 to |LONG_DAY_NAMES|
      invariant valid <==> day in LONG_DAY_NAMES[..i]
    {
      if day == LONG_DAY_NAMES[i] {
        return true;
      }
    }
  }
}
