/**
  Reminders across restarts: a restart forgets when the last one was delivered.
*/
module AlertRestartReminders {
  import opened GoStrings
  import opened Histories
  import opened Alerting
  import opened AlertTable
  import opened AlertRestarts
  import opened AlertReminders
  import ExternalRuns

  /** The last clock reading of a run with restarts that starts at t. */
  function ActionsEnd(t: int, h: History<Action>): int {
    match h
    case Start => t
    case Then(before, Restart) => ActionsEnd(t, before)
    case Then(before, Handle(input)) => StepEnd(ActionsEnd(t, before), input.attempts, |input.attempts|)
  }

  /** A clock that starts at t and never goes back, not even in a restart. */
  predicate ActionsTimed(t: int, h: History<Action>) {
    match h
    case Start => true
    case Then(before, Restart) => ActionsTimed(t, before)
    case Then(before, Handle(input)) =>
      ActionsTimed(t, before) && StepTimed(ActionsEnd(t, before), input.attempts)
  }

  /** A reminder of alert i is attempted when the input is handled. */
  predicate Reminds(s: State, input: Input, i: nat)
    requires i < |s.alerts| == |input.attempts|
  {
    && !input.success && !input.attempts[i].outcome.NoProvider?
    && Due(s.alerts[i], s.failures + 1, s.lastReminderSent, input.attempts[i].checkedAt) == Some(Reminder)
  }

  /** A step keeps the reminders of an alert spaced exactly if it attempts none, or if its interval has
      passed since every delivery for that alert. */
  lemma StepSpacedIff(s: State, input: Input, i: nat)
    requires i < |s.alerts| == |input.attempts|
    ensures var interval := s.alerts[i].config.minimumReminderInterval;
      Spaced(Step(s, input).log, i, interval) <==>
        && Spaced(s.log, i, interval)
        && (Reminds(s, input, i) ==> DeliveredBy(s.log, i, input.attempts[i].checkedAt - interval))
  {
    var n, interval := |s.alerts|, s.alerts[i].config.minimumReminderInterval;
    if input.success {
      ExternalRuns.ResolveFirstSpacedIff(s.(successes := s.successes + 1), n, input.attempts, i, interval);
    } else {
      var started := s.(successes := 0, failures := s.failures + 1);
      ExternalRuns.TriggerFirstSpacedIff(started, n, input.attempts, i, interval);
    }
  }

  lemma {:induction false} RestoreForgetsReminders(s: State, n: nat)
    requires n <= |s.alerts|
    ensures RestoreFirst(s, n).lastReminderSent == s.lastReminderSent
  {
    if n > 0 {
      RestoreForgetsReminders(s, n - 1);
    }
  }

  lemma {:induction false} SpacedWithoutReminders(s: State, h: History<Action>, i: nat)
    requires Clean(s) && ActionsFit(h, |s.alerts|) && i < |s.alerts|
    requires !s.alerts[i].config.enabled || s.alerts[i].config.minimumReminderInterval <= 0
    ensures Spaced(Perform(s, h).log, i, s.alerts[i].config.minimumReminderInterval)
  {
    if h.Then? {
      SpacedWithoutReminders(s, h.before, i);
      PerformKeepsConfigs(s, h.before, i);
      match h.last
      case Handle(input) => StepSpacedIff(Perform(s, h.before), input, i);
      case Restart => RestartedPerAlert(Perform(s, h.before), i);
    }
  }

  /** A failure at one time, for which only the provider of alert i delivers. */
  function FailureAt(n: nat, i: nat, time: int): Input {
    Input(false, seq(n, k => Attempt(if k == i then Delivers("") else Fails, time, time)))
  }

  function FailuresAt(n: nat, i: nat, m: nat, time: int): History<Action> {
    if m == 0 then Start else Then(FailuresAt(n, i, m - 1, time), Handle(FailureAt(n, i, time)))
  }

  lemma {:induction false} FailuresAtAreTimed(n: nat, i: nat, m: nat, t: int, time: int)
    requires t <= time
    ensures ActionsFit(FailuresAt(n, i, m, time), n)
    ensures ActionsTimed(t, FailuresAt(n, i, m, time)) && ActionsEnd(t, FailuresAt(n, i, m, time)) <= time
  {
    if m > 0 {
      FailuresAtAreTimed(n, i, m - 1, t, time);
    }
  }

  lemma {:induction false} AfterFailuresAt(s: State, i: nat, m: nat, time: int)
    requires Clean(s) && i < |s.alerts| && s.alerts[i].config.enabled && s.alerts[i].config.failureThreshold >= 1
    ensures ActionsFit(FailuresAt(|s.alerts|, i, m, time), |s.alerts|)
    ensures var r := Perform(s, FailuresAt(|s.alerts|, i, m, time));
      && r.failures == m && r.alerts[i].config == s.alerts[i].config
      && (r.alerts[i].triggered <==> m >= s.alerts[i].config.failureThreshold)
      && (r.alerts[i].triggered ==> !DeliveredBy(r.log, i, time - 1))
  {
    if m > 0 {
      AfterFailuresAt(s, i, m - 1, time);
      var r, input := Perform(s, FailuresAt(|s.alerts|, i, m - 1, time)), FailureAt(|s.alerts|, i, time);
      StepPerAlert(r, input, i);
      StepCounters(r, input);
      ExternalRuns.TriggerFirstDelivers(r.(successes := 0, failures := r.failures + 1), |r.alerts|, input.attempts, i,
                                        time - 1);
    }
  }

  lemma {:induction false} OthersStayQuietAt(s: State, i: nat, l: nat, m: nat, time: int)
    requires Clean(s) && i < |s.alerts| && l < |s.alerts| && l != i
    ensures ActionsFit(FailuresAt(|s.alerts|, i, m, time), |s.alerts|)
    ensures !Perform(s, FailuresAt(|s.alerts|, i, m, time)).alerts[l].triggered
  {
    if m > 0 {
      OthersStayQuietAt(s, i, l, m - 1, time);
      StepPerAlert(Perform(s, FailuresAt(|s.alerts|, i, m - 1, time)), FailureAt(|s.alerts|, i, time), l);
    }
  }

  /** A run in which a reminder comes too soon: the alert fires, the process restarts, and the next failure
      is reminded of at once. */
  lemma RestartBreaksSpacing(s: State, i: nat, t: int) returns (h: History<Action>)
    requires Clean(s) && Validated(s) && DistinctRows(s.alerts) && i < |s.alerts|
    requires s.alerts[i].config.enabled && s.alerts[i].config.minimumReminderInterval > 0
    ensures ActionsFit(h, |s.alerts|) && ActionsTimed(t, h)
    ensures !Spaced(Perform(s, h).log, i, s.alerts[i].config.minimumReminderInterval)
  {
    var n, c := |s.alerts|, s.alerts[i].config;
    var soonest := ZERO_TIME + c.minimumReminderInterval;
    var time := if t < soonest then soonest else t;
    var fired := FailuresAt(n, i, c.failureThreshold, time);
    h := Then(Then(fired, Restart), Handle(FailureAt(n, i, time)));
    FailuresAtAreTimed(n, i, c.failureThreshold, t, time);
    FiredAndRestarted(s, i, time);
    var r := Restarted(Perform(s, fired));
    StepSpacedIff(r, FailureAt(n, i, time), i);
    if DeliveredBy(r.log, i, time - c.minimumReminderInterval) {
      DeliveredByLater(r.log, i, time - c.minimumReminderInterval, time - 1);
    }
  }

  lemma FiredAndRestarted(s: State, i: nat, time: int)
    requires Clean(s) && Validated(s) && DistinctRows(s.alerts) && i < |s.alerts| && s.alerts[i].config.enabled
    requires 0 < s.alerts[i].config.minimumReminderInterval <= time - ZERO_TIME
    ensures var fired := FailuresAt(|s.alerts|, i, s.alerts[i].config.failureThreshold, time);
      && ActionsFit(fired, |s.alerts|)
      && var r := Restarted(Perform(s, fired));
      && Reminds(r, FailureAt(|s.alerts|, i, time), i) && r.alerts[i].config == s.alerts[i].config
      && !DeliveredBy(r.log, i, time - 1)
  {
    var m := s.alerts[i].config.failureThreshold;
    var fired := FailuresAt(|s.alerts|, i, m, time);
    AfterFailuresAt(s, i, m, time);
    forall l | 0 <= l < |s.alerts| && l != i ensures !Perform(s, fired).alerts[l].triggered {
      OthersStayQuietAt(s, i, l, m, time);
    }
    MirrorAlways(s, fired);
    RestartedReminds(Perform(s, fired), i, time);
  }

  lemma RestartedReminds(s: State, i: nat, time: int)
    requires DistinctRows(s.alerts) && Validated(s) && Mirror(s) && i < |s.alerts| && s.alerts[i].triggered
    requires forall l :: 0 <= l < |s.alerts| && l != i ==> !s.alerts[l].triggered
    requires 0 < s.alerts[i].config.minimumReminderInterval <= time - ZERO_TIME
    ensures Reminds(Restarted(s), FailureAt(|s.alerts|, i, time), i)
    ensures Restarted(s).alerts[i].config == s.alerts[i].config && Restarted(s).log == s.log
  {
    assert RowMatchesAt(s, i);
    RestartRestoresTriggered(s);
    RestartedCounters(s);
    RestoreForgetsReminders(Fresh(s).(table := Pruned(s.table, EnabledChecksums(s.alerts))), |s.alerts|);
  }

  /** The reminders of an alert keep their interval in every run with restarts on a clock that never goes
      back exactly if the alert never sends any: it is disabled, or has no interval. */
  lemma RemindersAcrossRestartsAreSpacedIff(s: State, i: nat, t: int)
    requires Clean(s) && Validated(s) && DistinctRows(s.alerts) && i < |s.alerts|
    ensures (forall h: History<Action> :: ActionsFit(h, |s.alerts|) && ActionsTimed(t, h) ==>
               Spaced(Perform(s, h).log, i, s.alerts[i].config.minimumReminderInterval)) <==>
            !s.alerts[i].config.enabled || s.alerts[i].config.minimumReminderInterval <= 0
  {
    if !s.alerts[i].config.enabled || s.alerts[i].config.minimumReminderInterval <= 0 {
      forall h: History<Action> | ActionsFit(h, |s.alerts|) && ActionsTimed(t, h)
        ensures Spaced(Perform(s, h).log, i, s.alerts[i].config.minimumReminderInterval)
      {
        SpacedWithoutReminders(s, h, i);
      }
    } else {
      var h := RestartBreaksSpacing(s, i, t);
    }
  }
}
