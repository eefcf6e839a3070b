/**
  The alerting of external endpoints: each result is handled by a throw-away conversion that carries
  the counters and the alerts over, but not the time of the last reminder
  (app/config/endpoint/external_endpoint.go, app/api/external_endpoint.go,
  app/watchdog/external_endpoint.go).
*/
module ExternalRuns {
  import opened GoStrings
  import opened Histories
  import opened Alerting
  import opened AlertReminders
  import AlertRuns

  // ---------------------------------------------------------------------------------
  // External endpoints simulate regular ones
  // ---------------------------------------------------------------------------------

  /** A step of an external endpoint: its reminder time does not survive the conversion. */
  function ExternalStep(s: State, input: Input): (s': State)
    requires |input.attempts| == |s.alerts|
    ensures |s'.alerts| == |s.alerts|
  {
    Step(s.(lastReminderSent := ZERO_TIME), input).(lastReminderSent := ZERO_TIME)
  }

  function ExternalRun(s: State, h: History<Input>): (s': State)
    requires Fits(h, |s.alerts|)
    ensures |s'.alerts| == |s.alerts|
    decreases h
  {
    match h
    case Start => s
    case Then(before, input) => ExternalStep(ExternalRun(s, before), input)
  }

  /** Equal counters, and for each alert equal flags and equally many initial notifications and
      resolutions. */
  ghost predicate Simulates(e: State, s: State) {
    && e.failures == s.failures && e.successes == s.successes && |e.alerts| == |s.alerts|
    && forall i :: 0 <= i < |s.alerts| ==> SameAlert(e, s, i)
  }

  ghost predicate SameAlert(e: State, s: State, i: nat)
    requires i < |e.alerts| == |s.alerts|
  {
    && e.alerts[i].config == s.alerts[i].config && e.alerts[i].triggered == s.alerts[i].triggered
    && Initials(e.log, i) == Initials(s.log, i) && Resolutions(e.log, i) == Resolutions(s.log, i)
  }

  lemma StepSimulates(e: State, s: State, input: Input)
    requires Simulates(e, s) && |input.attempts| == |s.alerts|
    ensures Simulates(ExternalStep(e, input), Step(s, input))
  {
    var e' := e.(lastReminderSent := ZERO_TIME);
    StepCounters(e', input);
    StepCounters(s, input);
    forall i | 0 <= i < |s.alerts| ensures SameAlert(ExternalStep(e, input), Step(s, input), i) {
      assert SameAlert(e, s, i);
      StepPerAlert(e', input, i);
      StepPerAlert(s, input, i);
      StepCounts(e', input, i);
      StepCounts(s, input, i);
    }
  }

  /** Fed the same handled results and send outcomes, an external endpoint goes through the same
      counters and triggered flags as one long-lived endpoint. */
  lemma {:induction false} ExternalSimulatesRegular(s: State, h: History<Input>)
    requires Fits(h, |s.alerts|)
    ensures Simulates(ExternalRun(s, h), Run(s, h))
  {
    if h.Start? {
      assert forall i :: 0 <= i < |s.alerts| ==> SameAlert(s, s, i);
    } else {
      ExternalSimulatesRegular(s, h.before);
      StepSimulates(ExternalRun(s, h.before), Run(s, h.before), h.last);
    }
  }

  // ---------------------------------------------------------------------------------
  // What the simulation does not cover: reminders
  // ---------------------------------------------------------------------------------

  /** A reminder of alert i is attempted when an external endpoint in state s handles the input. */
  predicate ExternalReminder(s: State, input: Input, i: nat)
    requires i < |s.alerts| == |input.attempts|
  {
    var a, att := s.alerts[i], input.attempts[i];
    && !input.success && a.config.enabled && a.triggered && s.failures + 1 >= a.config.failureThreshold
    && a.config.minimumReminderInterval > 0 && att.checkedAt - ZERO_TIME >= a.config.minimumReminderInterval
    && !att.outcome.NoProvider?
  }

  lemma ExternalStepReminders(s: State, input: Input, i: nat)
    requires i < |s.alerts| == |input.attempts|
    ensures Reminders(ExternalStep(s, input).log, i)
         == Reminders(s.log, i) + if ExternalReminder(s, input, i) then 1 else 0
  {
    var e := s.(lastReminderSent := ZERO_TIME);
    if input.success {
      ResolveFirstReminders(e.(successes := e.successes + 1), |e.alerts|, input.attempts, i);
    } else {
      TriggerFirstReminders(e.(successes := 0, failures := e.failures + 1), |e.alerts|, input.attempts, i);
    }
  }

  lemma {:induction false} ExternalRunKeepsConfigs(s: State, h: History<Input>, i: nat)
    requires Fits(h, |s.alerts|) && i < |s.alerts|
    ensures ExternalRun(s, h).alerts[i].config == s.alerts[i].config
  {
    if h.Then? {
      ExternalRunKeepsConfigs(s, h.before, i);
      StepPerAlert(ExternalRun(s, h.before).(lastReminderSent := ZERO_TIME), h.last, i);
    }
  }

  /** After any run, the next result brings a reminder of an alert of an external endpoint exactly if
      it is a failure, the alert is enabled, triggered and configured for reminders, the failures in
      a row have reached its threshold, it has a provider, and its interval has passed since the zero
      time, however recent the last delivery was. */
  lemma ExternalRemindsAtEveryFailure(s: State, h: History<Input>, i: nat)
    requires Clean(s) && h.Then? && Fits(h, |s.alerts|) && i < |s.alerts|
    ensures var before, config, att := ExternalRun(s, h.before), s.alerts[i].config, h.last.attempts[i];
      Reminders(ExternalRun(s, h).log, i) == Reminders(before.log, i) +
        if !h.last.success && config.enabled && before.alerts[i].triggered
           && AlertRuns.TrailingFailures(h) >= config.failureThreshold
           && config.minimumReminderInterval > 0
           && att.checkedAt - ZERO_TIME >= config.minimumReminderInterval
           && !att.outcome.NoProvider?
        then 1 else 0
  {
    ExternalStepReminders(ExternalRun(s, h.before), h.last, i);
    ExternalRunKeepsConfigs(s, h.before, i);
    ExternalSimulatesRegular(s, h.before);
    AlertRuns.CountersAreTrailingRuns(s, h.before);
  }

  lemma {:induction false} TriggerFirstDelivered(s: State, n: nat, attempts: seq<Attempt>, i: nat, t: int)
    requires n <= |s.alerts| == |attempts| && n <= i
    ensures DeliveredBy(TriggerFirst(s, n, attempts).log, i, t) <==> DeliveredBy(s.log, i, t)
  {
    if n > 0 {
      TriggerFirstDelivered(s, n - 1, attempts, i, t);
    }
  }

  lemma {:induction false} TriggerFirstSpacedIff(s: State, n: nat, attempts: seq<Attempt>, i: nat, interval: int)
    requires n <= |s.alerts| == |attempts| && i < |s.alerts|
    ensures Spaced(TriggerFirst(s, n, attempts).log, i, interval) <==>
      && Spaced(s.log, i, interval)
      && (i < n && !attempts[i].outcome.NoProvider?
          && Due(s.alerts[i], s.failures, s.lastReminderSent, attempts[i].checkedAt) == Some(Reminder) ==>
            DeliveredBy(s.log, i, attempts[i].checkedAt - interval))
  {
    if n > 0 {
      TriggerFirstSpacedIff(s, n - 1, attempts, i, interval);
      TriggerFirstPerAlert(s, n - 1, attempts, n - 1);
      if n - 1 == i {
        TriggerFirstDelivered(s, n - 1, attempts, i, attempts[i].checkedAt - interval);
      }
    }
  }

  lemma {:induction false} ResolveFirstSpacedIff(s: State, n: nat, attempts: seq<Attempt>, i: nat, interval: int)
    requires n <= |s.alerts| == |attempts|
    ensures Spaced(ResolveFirst(s, n, attempts).log, i, interval) <==> Spaced(s.log, i, interval)
  {
    if n > 0 {
      ResolveFirstSpacedIff(s, n - 1, attempts, i, interval);
    }
  }

  /** A step of an external endpoint keeps the reminders of an alert spaced exactly if it attempts none,
      or if its interval has passed since every delivery for that alert. */
  lemma ExternalStepSpacedIff(s: State, input: Input, i: nat)
    requires i < |s.alerts| == |input.attempts|
    ensures var interval := s.alerts[i].config.minimumReminderInterval;
      Spaced(ExternalStep(s, input).log, i, interval) <==>
        && Spaced(s.log, i, interval)
        && (ExternalReminder(s, input, i) ==> DeliveredBy(s.log, i, input.attempts[i].checkedAt - interval))
  {
    var e, interval := s.(lastReminderSent := ZERO_TIME), s.alerts[i].config.minimumReminderInterval;
    if input.success {
      ResolveFirstSpacedIff(e.(successes := e.successes + 1), |e.alerts|, input.attempts, i, interval);
    } else {
      TriggerFirstSpacedIff(e.(successes := 0, failures := e.failures + 1), |e.alerts|, input.attempts, i, interval);
    }
  }

  lemma {:induction false} NoRemindersNoViolation(s: State, h: History<Input>, i: nat)
    requires Clean(s) && Fits(h, |s.alerts|) && i < |s.alerts|
    requires !s.alerts[i].config.enabled || s.alerts[i].config.minimumReminderInterval <= 0
    ensures Spaced(ExternalRun(s, h).log, i, s.alerts[i].config.minimumReminderInterval)
  {
    if h.Then? {
      NoRemindersNoViolation(s, h.before, i);
      ExternalRunKeepsConfigs(s, h.before, i);
      ExternalStepSpacedIff(ExternalRun(s, h.before), h.last, i);
    }
  }

  /** m failures at one time, during which every provider delivers. */
  function FailuresAt(n: nat, m: nat, time: int): History<Input> {
    if m == 0 then Start
    else Then(FailuresAt(n, m - 1, time), Input(false, seq(n, _ => Attempt(Delivers(""), time, time))))
  }

  lemma {:induction false} FailuresAtAreTimed(n: nat, m: nat, t: int, time: int)
    requires t <= time
    ensures Fits(FailuresAt(n, m, time), n) && Timed(t, FailuresAt(n, m, time))
    ensures RunEnd(t, FailuresAt(n, m, time)) <= time
  {
    if m > 0 {
      FailuresAtAreTimed(n, m - 1, t, time);
    }
  }

  /** An alert that fires at some time has a delivery no earlier than that. */
  lemma {:induction false} TriggerFirstDelivers(s: State, n: nat, attempts: seq<Attempt>, i: nat, t: int)
    requires n <= |s.alerts| == |attempts| && i < |s.alerts|
    requires i < n && Initiates(s.alerts[i], s.failures, attempts[i]) ==> t < attempts[i].sentAt
    ensures i < n && Initiates(s.alerts[i], s.failures, attempts[i]) ==>
      !DeliveredBy(TriggerFirst(s, n, attempts).log, i, t)
    ensures !DeliveredBy(s.log, i, t) ==> !DeliveredBy(TriggerFirst(s, n, attempts).log, i, t)
  {
    if n > 0 {
      TriggerFirstDelivers(s, n - 1, attempts, i, t);
      TriggerFirstPerAlert(s, n - 1, attempts, n - 1);
    }
  }

  lemma {:induction false} AfterFailuresAt(s: State, i: nat, m: nat, time: int)
    requires Clean(s) && i < |s.alerts| && s.alerts[i].config.enabled && s.alerts[i].config.failureThreshold >= 1
    ensures Fits(FailuresAt(|s.alerts|, m, time), |s.alerts|)
    ensures var r := ExternalRun(s, FailuresAt(|s.alerts|, m, time));
      && r.failures == m && r.alerts[i].config == s.alerts[i].config
      && (r.alerts[i].triggered <==> m >= s.alerts[i].config.failureThreshold)
      && (r.alerts[i].triggered ==> !DeliveredBy(r.log, i, time - 1))
  {
    if m > 0 {
      AfterFailuresAt(s, i, m - 1, time);
      var h := FailuresAt(|s.alerts|, m, time);
      var e := ExternalRun(s, h.before).(lastReminderSent := ZERO_TIME);
      StepPerAlert(e, h.last, i);
      StepCounters(e, h.last);
      TriggerFirstDelivers(e.(successes := 0, failures := e.failures + 1), |e.alerts|, h.last.attempts, i, time - 1);
    }
  }

  /** A run in which reminders come too soon: one failure more than it takes to fire. */
  lemma SpacingIsViolated(s: State, i: nat, t: int) returns (h: History<Input>)
    requires Clean(s) && Validated(s) && i < |s.alerts|
    requires s.alerts[i].config.enabled && s.alerts[i].config.minimumReminderInterval > 0
    ensures Fits(h, |s.alerts|) && Timed(t, h)
    ensures !Spaced(ExternalRun(s, h).log, i, s.alerts[i].config.minimumReminderInterval)
  {
    var n, config := |s.alerts|, s.alerts[i].config;
    var soonest := ZERO_TIME + config.minimumReminderInterval;
    var time := if t < soonest then soonest else t;
    h := FailuresAt(n, config.failureThreshold + 1, time);
    FailuresAtAreTimed(n, config.failureThreshold + 1, t, time);
    AfterFailuresAt(s, i, config.failureThreshold, time);
    var before := ExternalRun(s, h.before);
    assert ExternalReminder(before, h.last, i);
    ExternalStepSpacedIff(before, h.last, i);
    if DeliveredBy(before.log, i, time - config.minimumReminderInterval) {
      DeliveredByLater(before.log, i, time - config.minimumReminderInterval, time - 1);
    }
  }

  /** The reminders of an alert of an external endpoint keep their interval in every run on a clock that
      never goes back exactly if the alert never sends any: it is disabled, or has no interval. */
  lemma ExternalRemindersAreSpacedIff(s: State, i: nat, t: int)
    requires Clean(s) && Validated(s) && i < |s.alerts|
    ensures (forall h: History<Input> :: Fits(h, |s.alerts|) && Timed(t, h) ==>
        Spaced(ExternalRun(s, h).log, i, s.alerts[i].config.minimumReminderInterval)) <==>
      !s.alerts[i].config.enabled || s.alerts[i].config.minimumReminderInterval <= 0
  {
    if !s.alerts[i].config.enabled || s.alerts[i].config.minimumReminderInterval <= 0 {
      forall h: History<Input> | Fits(h, |s.alerts|) && Timed(t, h)
        ensures Spaced(ExternalRun(s, h).log, i, s.alerts[i].config.minimumReminderInterval)
      {
        NoRemindersNoViolation(s, h, i);
      }
    } else {
      var h := SpacingIsViolated(s, i, t);
    }
  }
}
