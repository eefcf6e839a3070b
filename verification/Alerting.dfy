/**
  What one handled result does to an endpoint's alerts (app/watchdog/alerting.go), as a function
  from state to state, together with what a restart does (app/main.go) and what an external
  endpoint's throw-away conversion changes (app/config/endpoint/external_endpoint.go).
*/
module Alerting {
  import opened GoStrings
  import opened Histories

  /** The validated configuration of an alert. `checksum` stands for the text that identifies its
      row in the table of triggered alerts. */
  datatype AlertConfig = AlertConfig(
    enabled: bool,
    failureThreshold: int,
    successThreshold: int,
    minimumReminderInterval: int,
    sendOnResolved: bool,
    checksum: string)

  datatype Alert = Alert(config: AlertConfig, triggered: bool, resolveKey: string)

  /** What an alert's provider would do if it were asked to send: there is none, it fails, or it
      delivers and leaves a resolve key on the alert. */
  datatype Outcome = NoProvider | Fails | Delivers(resolveKey: string)

  /** The outcome for one alert in one step, and the clock readings around it: when the reminder
      interval is looked at, and when a delivery has been made. */
  datatype Attempt = Attempt(outcome: Outcome, checkedAt: int, sentAt: int)

  /** One handled result, with an attempt for each alert. */
  datatype Input = Input(success: bool, attempts: seq<Attempt>)

  /** A row of the table of triggered alerts. */
  datatype Row = Row(resolveKey: string, successes: int)

  datatype Kind = Initial | Reminder | Recovery

  /** What can be observed of an alert: a call of its provider, or its resolution. */
  datatype Entry =
    | Notified(alert: nat, kind: Kind, delivered: bool, checkedAt: int, sentAt: int)
    | Cleared(alert: nat)

  datatype State = State(
    failures: int,
    successes: int,
    lastReminderSent: int,
    alerts: seq<Alert>,
    table: map<string, Row>,
    log: History<Entry>)

  /** The zero `time.Time`, in nanoseconds since the Unix epoch. */
  const ZERO_TIME := -62_135_596_800_000_000_000

  // ---------------------------------------------------------------------------------
  // A failed result
  // ---------------------------------------------------------------------------------

  /** What, if anything, is due for an alert after a failure. */
  function Due(a: Alert, failures: int, lastReminderSent: int, checkedAt: int): Option<Kind> {
    if !a.config.enabled || a.config.failureThreshold > failures then None
    else if !a.triggered then Some(Initial)
    else if a.config.minimumReminderInterval > 0 &&
            checkedAt - lastReminderSent >= a.config.minimumReminderInterval then Some(Reminder)
    else None
  }

  /** One iteration of the loop of `handleAlertsToTrigger`. `reference` is the reminder time read
      before the loop. */
  function TriggerOne(s: State, i: nat, reference: int, att: Attempt): (s': State)
    requires i < |s.alerts|
    ensures |s'.alerts| == |s.alerts| && s'.failures == s.failures && s'.successes == s.successes
  {
    var due := Due(s.alerts[i], s.failures, reference, att.checkedAt);
    if due.None? || att.outcome.NoProvider? then s
    else
      var logged := s.(log := Then(s.log, Notified(i, due.value, att.outcome.Delivers?, att.checkedAt, att.sentAt)));
      if att.outcome.Fails? then logged
      else logged.(
          alerts := s.alerts[i := s.alerts[i].(triggered := true, resolveKey := att.outcome.resolveKey)],
          lastReminderSent := att.sentAt,
          table := s.table[s.alerts[i].config.checksum := Row(att.outcome.resolveKey, s.successes)])
  }

  /** The first n iterations. */
  function TriggerFirst(s: State, n: nat, attempts: seq<Attempt>): (s': State)
    requires n <= |s.alerts| == |attempts|
    ensures |s'.alerts| == |s.alerts| && s'.failures == s.failures && s'.successes == s.successes
  {
    if n == 0 then s
    else TriggerOne(TriggerFirst(s, n - 1, attempts), n - 1, s.lastReminderSent, attempts[n - 1])
  }

  // ---------------------------------------------------------------------------------
  // A successful result
  // ---------------------------------------------------------------------------------

  /** One iteration of the loop of `handleAlertsToResolve`. */
  function ResolveOne(s: State, i: nat, att: Attempt): (s': State)
    requires i < |s.alerts|
    ensures |s'.alerts| == |s.alerts| && s'.successes == s.successes
    ensures s'.failures == s.failures && s'.lastReminderSent == s.lastReminderSent
  {
    var a := s.alerts[i];
    if !a.config.enabled || !a.triggered then s
    else if a.config.successThreshold > s.successes then
      s.(table := s.table[a.config.checksum := Row(a.resolveKey, s.successes)])
    else
      var cleared := s.(alerts := s.alerts[i := a.(triggered := false)],
                        table := s.table - {a.config.checksum},
                        log := Then(s.log, Cleared(i)));
      if !a.config.sendOnResolved || att.outcome.NoProvider? then cleared
      else
        var logged := cleared.(log :=
          Then(cleared.log, Notified(i, Recovery, att.outcome.Delivers?, att.checkedAt, att.sentAt)));
        if att.outcome.Fails? then logged
        else logged.(alerts := s.alerts[i := a.(triggered := false, resolveKey := att.outcome.resolveKey)])
  }

  function ResolveFirst(s: State, n: nat, attempts: seq<Attempt>): (s': State)
    requires n <= |s.alerts| == |attempts|
    ensures |s'.alerts| == |s.alerts| && s'.successes == s.successes
    ensures s'.failures == s.failures && s'.lastReminderSent == s.lastReminderSent
  {
    if n == 0 then s
    else ResolveOne(ResolveFirst(s, n - 1, attempts), n - 1, attempts[n - 1])
  }

  // ---------------------------------------------------------------------------------
  // Steps and runs
  // ---------------------------------------------------------------------------------

  /** `HandleAlerting`. */
  function Step(s: State, input: Input): (s': State)
    requires |input.attempts| == |s.alerts|
    ensures |s'.alerts| == |s.alerts|
  {
    if input.success then
      ResolveFirst(s.(successes := s.successes + 1), |s.alerts|, input.attempts).(failures := 0)
    else
      TriggerFirst(s.(successes := 0, failures := s.failures + 1), |s.alerts|, input.attempts)
  }

  /** Every input has an attempt for each of n alerts. */
  predicate Fits(h: History<Input>, n: nat) {
    h.Then? ==> |h.last.attempts| == n && Fits(h.before, n)
  }

  function Run(s: State, h: History<Input>): (s': State)
    requires Fits(h, |s.alerts|)
    ensures |s'.alerts| == |s.alerts|
    decreases h
  {
    match h
    case Start => s
    case Then(before, input) => Step(Run(s, before), input)
  }

  /** A process that has handled nothing yet. */
  predicate Clean(s: State) {
    && s.failures == 0 && s.successes == 0 && s.lastReminderSent == ZERO_TIME
    && s.table == map[] && s.log.Start?
    && forall i :: 0 <= i < |s.alerts| ==> !s.alerts[i].triggered
  }

  /** `ValidateAndSetDefaults` of an alert leaves no threshold below one. */
  predicate Validated(s: State) {
    forall i :: 0 <= i < |s.alerts| ==>
      s.alerts[i].config.failureThreshold >= 1 && s.alerts[i].config.successThreshold >= 1
  }

  // ---------------------------------------------------------------------------------
  // What a step does to each alert on its own
  // ---------------------------------------------------------------------------------

  function AfterFailure(a: Alert, failures: int, reference: int, att: Attempt): Alert {
    if Due(a, failures, reference, att.checkedAt).Some? && att.outcome.Delivers?
    then a.(triggered := true, resolveKey := att.outcome.resolveKey)
    else a
  }

  predicate Resolves(a: Alert, successes: int) {
    a.config.enabled && a.triggered && a.config.successThreshold <= successes
  }

  function AfterSuccess(a: Alert, successes: int, att: Attempt): Alert {
    if !Resolves(a, successes) then a
    else if a.config.sendOnResolved && att.outcome.Delivers?
    then a.(triggered := false, resolveKey := att.outcome.resolveKey)
    else a.(triggered := false)
  }

  lemma {:induction false} TriggerFirstPerAlert(s: State, n: nat, attempts: seq<Attempt>, i: nat)
    requires n <= |s.alerts| == |attempts| && i < |s.alerts|
    ensures TriggerFirst(s, n, attempts).alerts[i] ==
            if i < n then AfterFailure(s.alerts[i], s.failures, s.lastReminderSent, attempts[i]) else s.alerts[i]
  {
    if n > 0 {
      TriggerFirstPerAlert(s, n - 1, attempts, i);
    }
  }

  lemma {:induction false} ResolveFirstPerAlert(s: State, n: nat, attempts: seq<Attempt>, i: nat)
    requires n <= |s.alerts| == |attempts| && i < |s.alerts|
    ensures ResolveFirst(s, n, attempts).alerts[i] ==
            if i < n then AfterSuccess(s.alerts[i], s.successes, attempts[i]) else s.alerts[i]
  {
    if n > 0 {
      ResolveFirstPerAlert(s, n - 1, attempts, i);
    }
  }

  /** Alerts share nothing but the counters and the reminder time read before the loop: what
      becomes of each depends on nothing else. */
  lemma StepPerAlert(s: State, input: Input, i: nat)
    requires |input.attempts| == |s.alerts| && i < |s.alerts|
    ensures Step(s, input).alerts[i] ==
            if input.success then AfterSuccess(s.alerts[i], s.successes + 1, input.attempts[i])
            else AfterFailure(s.alerts[i], s.failures + 1, s.lastReminderSent, input.attempts[i])
  {
    if input.success {
      ResolveFirstPerAlert(s.(successes := s.successes + 1), |s.alerts|, input.attempts, i);
    } else {
      TriggerFirstPerAlert(s.(successes := 0, failures := s.failures + 1), |s.alerts|, input.attempts, i);
    }
  }

  lemma StepCounters(s: State, input: Input)
    requires |input.attempts| == |s.alerts|
    ensures Step(s, input).failures == if input.success then 0 else s.failures + 1
    ensures Step(s, input).successes == if input.success then s.successes + 1 else 0
  {
  }

  lemma {:induction false} RunKeepsConfigs(s: State, h: History<Input>, i: nat)
    requires Fits(h, |s.alerts|) && i < |s.alerts|
    ensures Run(s, h).alerts[i].config == s.alerts[i].config
  {
    if h.Then? {
      RunKeepsConfigs(s, h.before, i);
      StepPerAlert(Run(s, h.before), h.last, i);
    }
  }

  // ---------------------------------------------------------------------------------
  // Per-alert view of the log
  // ---------------------------------------------------------------------------------

  /** Number of delivered initial notifications of alert i. */
  function Initials(log: History<Entry>, i: nat): nat {
    match log
    case Start => 0
    case Then(before, e) =>
      Initials(before, i) + if e.Notified? && e.alert == i && e.kind == Initial && e.delivered then 1 else 0
  }

  /** Number of resolutions of alert i. */
  function Resolutions(log: History<Entry>, i: nat): nat {
    match log
    case Start => 0
    case Then(before, e) => Resolutions(before, i) + if e == Cleared(i) then 1 else 0
  }

  /** An initial notification of alert a would be delivered after this failure. */
  predicate Initiates(a: Alert, failures: int, att: Attempt) {
    a.config.enabled && a.config.failureThreshold <= failures && !a.triggered && att.outcome.Delivers?
  }

  lemma {:induction false} TriggerFirstCounts(s: State, n: nat, attempts: seq<Attempt>, i: nat)
    requires n <= |s.alerts| == |attempts| && i < |s.alerts|
    ensures Initials(TriggerFirst(s, n, attempts).log, i) ==
            Initials(s.log, i) + if i < n && Initiates(s.alerts[i], s.failures, attempts[i]) then 1 else 0
    ensures Resolutions(TriggerFirst(s, n, attempts).log, i) == Resolutions(s.log, i)
  {
    if n > 0 {
      TriggerFirstCounts(s, n - 1, attempts, i);
      TriggerFirstPerAlert(s, n - 1, attempts, n - 1);
    }
  }

  lemma {:induction false} ResolveFirstCounts(s: State, n: nat, attempts: seq<Attempt>, i: nat)
    requires n <= |s.alerts| == |attempts| && i < |s.alerts|
    ensures Initials(ResolveFirst(s, n, attempts).log, i) == Initials(s.log, i)
    ensures Resolutions(ResolveFirst(s, n, attempts).log, i) ==
            Resolutions(s.log, i) + if i < n && Resolves(s.alerts[i], s.successes) then 1 else 0
  {
    if n > 0 {
      ResolveFirstCounts(s, n - 1, attempts, i);
      ResolveFirstPerAlert(s, n - 1, attempts, n - 1);
    }
  }

  lemma StepCounts(s: State, input: Input, i: nat)
    requires |input.attempts| == |s.alerts| && i < |s.alerts|
    ensures Initials(Step(s, input).log, i) ==
            Initials(s.log, i) +
              if !input.success && Initiates(s.alerts[i], s.failures + 1, input.attempts[i]) then 1 else 0
    ensures Resolutions(Step(s, input).log, i) ==
            Resolutions(s.log, i) + if input.success && Resolves(s.alerts[i], s.successes + 1) then 1 else 0
  {
    if input.success {
      ResolveFirstCounts(s.(successes := s.successes + 1), |s.alerts|, input.attempts, i);
    } else {
      TriggerFirstCounts(s.(successes := 0, failures := s.failures + 1), |s.alerts|, input.attempts, i);
    }
  }
}
