/**
  Reminders: how far apart they are, and why the order of an endpoint's alerts does not matter.
*/
module AlertReminders {
  import opened GoStrings
  import opened Histories
  import opened Alerting
  import opened AlertTable
  import AlertRuns

  // ---------------------------------------------------------------------------------
  // Spacing
  // ---------------------------------------------------------------------------------

  /** The clock readings of a step, from time t on, in the order in which they are taken. */
  predicate StepTimed(t: int, attempts: seq<Attempt>) {
    && (forall i :: 0 <= i < |attempts| ==> t <= attempts[i].checkedAt <= attempts[i].sentAt)
    && (forall i, j :: 0 <= i < j < |attempts| ==> attempts[i].sentAt <= attempts[j].checkedAt)
  }

  /** The last clock reading among the first n attempts of a step that started at t. */
  function StepEnd(t: int, attempts: seq<Attempt>, n: nat): int
    requires n <= |attempts|
  {
    if n == 0 then t else attempts[n - 1].sentAt
  }

  function RunEnd(t: int, h: History<Input>): int {
    match h
    case Start => t
    case Then(before, input) => StepEnd(RunEnd(t, before), input.attempts, |input.attempts|)
  }

  /** A clock that starts at t and never goes back. */
  predicate Timed(t: int, h: History<Input>) {
    h.Then? ==> Timed(t, h.before) && StepTimed(RunEnd(t, h.before), h.last.attempts)
  }

  /** A delivered initial notification or reminder of alert i. */
  predicate Alarms(e: Entry, i: nat) {
    e.Notified? && e.alert == i && e.delivered && e.kind != Recovery
  }

  /** Whatever was delivered for alert i on the trigger side was delivered by time t. */
  predicate DeliveredBy(log: History<Entry>, i: nat, t: int) {
    match log
    case Start => true
    case Then(before, e) => DeliveredBy(before, i, t) && (Alarms(e, i) ==> e.sentAt <= t)
  }

  /** Each reminder of alert i, delivered or not, is attempted at least `interval` after every
      earlier delivered initial notification or reminder of that alert. */
  predicate Spaced(log: History<Entry>, i: nat, interval: int) {
    match log
    case Start => true
    case Then(before, e) =>
      && Spaced(before, i, interval)
      && (e.Notified? && e.alert == i && e.kind == Reminder ==> DeliveredBy(before, i, e.checkedAt - interval))
  }

  lemma {:induction false} DeliveredByLater(log: History<Entry>, i: nat, t: int, t': int)
    requires DeliveredBy(log, i, t) && t <= t'
    ensures DeliveredBy(log, i, t')
  {
    if log.Then? {
      DeliveredByLater(log.before, i, t, t');
    }
  }

  lemma {:induction false} TriggerFirstSpacing(s: State, n: nat, attempts: seq<Attempt>, i: nat, t: int)
    requires n <= |s.alerts| == |attempts| && i < |s.alerts|
    requires StepTimed(t, attempts) && s.lastReminderSent <= t
    requires Spaced(s.log, i, s.alerts[i].config.minimumReminderInterval) && DeliveredBy(s.log, i, s.lastReminderSent)
    ensures var s' := TriggerFirst(s, n, attempts);
      && Spaced(s'.log, i, s.alerts[i].config.minimumReminderInterval)
      && DeliveredBy(s'.log, i, s'.lastReminderSent)
      && s'.lastReminderSent <= StepEnd(t, attempts, n)
      && (n <= i ==> DeliveredBy(s'.log, i, s.lastReminderSent))
  {
    if n > 0 {
      var before := TriggerFirst(s, n - 1, attempts);
      TriggerFirstSpacing(s, n - 1, attempts, i, t);
      TriggerFirstPerAlert(s, n - 1, attempts, n - 1);
      assert StepEnd(t, attempts, n - 1) <= attempts[n - 1].sentAt;
      DeliveredByLater(before.log, i, before.lastReminderSent, attempts[n - 1].sentAt);
      if n - 1 == i && Due(s.alerts[i], s.failures, s.lastReminderSent, attempts[i].checkedAt) == Some(Reminder) {
        DeliveredByLater(before.log, i, s.lastReminderSent,
                         attempts[i].checkedAt - s.alerts[i].config.minimumReminderInterval);
      }
    }
  }

  lemma {:induction false} ResolveFirstSpacing(s: State, n: nat, attempts: seq<Attempt>, i: nat, interval: int, t: int)
    requires n <= |s.alerts| == |attempts|
    requires Spaced(s.log, i, interval) && DeliveredBy(s.log, i, t)
    ensures Spaced(ResolveFirst(s, n, attempts).log, i, interval)
    ensures DeliveredBy(ResolveFirst(s, n, attempts).log, i, t)
  {
    if n > 0 {
      ResolveFirstSpacing(s, n - 1, attempts, i, interval, t);
    }
  }

  lemma {:induction false} RunSpacing(s: State, h: History<Input>, i: nat, t: int)
    requires Clean(s) && Fits(h, |s.alerts|) && i < |s.alerts| && ZERO_TIME <= t && Timed(t, h)
    ensures var s' := Run(s, h);
      && Spaced(s'.log, i, s.alerts[i].config.minimumReminderInterval)
      && DeliveredBy(s'.log, i, s'.lastReminderSent) && s'.lastReminderSent <= RunEnd(t, h)
  {
    if h.Then? {
      var before, input := Run(s, h.before), h.last;
      RunSpacing(s, h.before, i, t);
      RunKeepsConfigs(s, h.before, i);
      StepEndIsLater(RunEnd(t, h.before), input.attempts);
      if input.success {
        ResolveFirstSpacing(before.(successes := before.successes + 1), |s.alerts|, input.attempts, i,
                            s.alerts[i].config.minimumReminderInterval, before.lastReminderSent);
      } else {
        TriggerFirstSpacing(before.(successes := 0, failures := before.failures + 1), |s.alerts|, input.attempts, i,
                            RunEnd(t, h.before));
      }
    }
  }

  lemma StepEndIsLater(t: int, attempts: seq<Attempt>)
    requires StepTimed(t, attempts)
    ensures t <= StepEnd(t, attempts, |attempts|)
  {
  }

  /** On a clock that never goes back, the reminders of an alert of a regular endpoint keep their
      minimum interval, although all alerts of the endpoint share one reminder time. */
  lemma RemindersAreSpaced(s: State, h: History<Input>, i: nat, t: int)
    requires Clean(s) && Fits(h, |s.alerts|) && i < |s.alerts| && ZERO_TIME <= t && Timed(t, h)
    ensures Spaced(Run(s, h).log, i, s.alerts[i].config.minimumReminderInterval)
  {
    RunSpacing(s, h, i, t);
  }

  // ---------------------------------------------------------------------------------
  // When a reminder comes
  // ---------------------------------------------------------------------------------

  /** When an initial notification or a reminder of any alert was last delivered. */
  function LastDelivery(log: History<Entry>): int {
    match log
    case Start => ZERO_TIME
    case Then(before, e) =>
      if e.Notified? && e.delivered && e.kind != Recovery then e.sentAt else LastDelivery(before)
  }

  lemma {:induction false} TriggerFirstLastDelivery(s: State, n: nat, attempts: seq<Attempt>)
    requires n <= |s.alerts| == |attempts| && s.lastReminderSent == LastDelivery(s.log)
    ensures TriggerFirst(s, n, attempts).lastReminderSent == LastDelivery(TriggerFirst(s, n, attempts).log)
  {
    if n > 0 {
      TriggerFirstLastDelivery(s, n - 1, attempts);
    }
  }

  lemma {:induction false} ResolveFirstLastDelivery(s: State, n: nat, attempts: seq<Attempt>)
    requires n <= |s.alerts| == |attempts|
    ensures LastDelivery(ResolveFirst(s, n, attempts).log) == LastDelivery(s.log)
  {
    if n > 0 {
      ResolveFirstLastDelivery(s, n - 1, attempts);
    }
  }

  /** The reminder time of an endpoint is that of the last delivery for any of its alerts. */
  lemma {:induction false} ReminderTimeIsLastDelivery(s: State, h: History<Input>)
    requires Clean(s) && Fits(h, |s.alerts|)
    ensures Run(s, h).lastReminderSent == LastDelivery(Run(s, h).log)
  {
    if h.Then? {
      ReminderTimeIsLastDelivery(s, h.before);
      var before, input := Run(s, h.before), h.last;
      if input.success {
        ResolveFirstLastDelivery(before.(successes := before.successes + 1), |s.alerts|, input.attempts);
      } else {
        TriggerFirstLastDelivery(before.(successes := 0, failures := before.failures + 1), |s.alerts|, input.attempts);
      }
    }
  }

  /** Number of reminders of alert i, delivered or not. */
  function Reminders(log: History<Entry>, i: nat): nat {
    match log
    case Start => 0
    case Then(before, e) =>
      Reminders(before, i) + if e.Notified? && e.alert == i && e.kind == Reminder then 1 else 0
  }

  lemma {:induction false} TriggerFirstReminders(s: State, n: nat, attempts: seq<Attempt>, i: nat)
    requires n <= |s.alerts| == |attempts| && i < |s.alerts|
    ensures Reminders(TriggerFirst(s, n, attempts).log, i) == Reminders(s.log, i) +
      if i < n && Due(s.alerts[i], s.failures, s.lastReminderSent, attempts[i].checkedAt) == Some(Reminder)
         && !attempts[i].outcome.NoProvider? then 1 else 0
  {
    if n > 0 {
      TriggerFirstReminders(s, n - 1, attempts, i);
      TriggerFirstPerAlert(s, n - 1, attempts, n - 1);
    }
  }

  lemma {:induction false} ResolveFirstReminders(s: State, n: nat, attempts: seq<Attempt>, i: nat)
    requires n <= |s.alerts| == |attempts|
    ensures Reminders(ResolveFirst(s, n, attempts).log, i) == Reminders(s.log, i)
  {
    if n > 0 {
      ResolveFirstReminders(s, n - 1, attempts, i);
    }
  }

  /** After any run, the next result brings a reminder of alert i exactly if it is a failure, the
      alert is enabled, triggered and configured for reminders, the failures in a row have reached
      its threshold, it has a provider, and its interval has passed since the last delivery for any
      alert of the endpoint. */
  lemma RemindersComeWhenDue(s: State, h: History<Input>, i: nat)
    requires Clean(s) && h.Then? && Fits(h, |s.alerts|) && i < |s.alerts|
    ensures var before, config, att := Run(s, h.before), s.alerts[i].config, h.last.attempts[i];
      Reminders(Run(s, h).log, i) == Reminders(before.log, i) +
        if !h.last.success && config.enabled && before.alerts[i].triggered
           && AlertRuns.TrailingFailures(h) >= config.failureThreshold
           && config.minimumReminderInterval > 0
           && att.checkedAt - LastDelivery(before.log) >= config.minimumReminderInterval
           && !att.outcome.NoProvider?
        then 1 else 0
  {
    var before, input := Run(s, h.before), h.last;
    ReminderTimeIsLastDelivery(s, h.before);
    RunKeepsConfigs(s, h.before, i);
    AlertRuns.CountersAreTrailingRuns(s, h.before);
    if input.success {
      ResolveFirstReminders(before.(successes := before.successes + 1), |s.alerts|, input.attempts, i);
    } else {
      TriggerFirstReminders(before.(successes := 0, failures := before.failures + 1), |s.alerts|, input.attempts, i);
    }
  }

  // ---------------------------------------------------------------------------------
  // Order independence
  // ---------------------------------------------------------------------------------

  /** pi rearranges 0, ..., n - 1. */
  ghost predicate Rearranges(pi: seq<nat>, n: nat) {
    && |pi| == n
    && (forall k :: 0 <= k < n ==> pi[k] < n)
    && (forall k, l :: 0 <= k < l < n ==> pi[k] != pi[l])
    && (forall i :: 0 <= i < n ==> i in pi)
  }

  function Rearranged<T>(s: seq<T>, pi: seq<nat>): (r: seq<T>)
    requires forall k :: 0 <= k < |pi| ==> pi[k] < |s|
    ensures |r| == |pi| && forall k :: 0 <= k < |pi| ==> r[k] == s[pi[k]]
  {
    seq(|pi|, k requires 0 <= k < |pi| => s[pi[k]])
  }

  /** All clock readings of a step agree. */
  predicate AtOneTime(attempts: seq<Attempt>, now: int) {
    forall i :: 0 <= i < |attempts| ==> attempts[i].checkedAt == now && attempts[i].sentAt == now
  }

  /** What happened to alert i, whatever its position. */
  function OfAlert(log: History<Entry>, i: nat): History<Entry> {
    match log
    case Start => Start
    case Then(before, e) =>
      if e.alert == i then Then(OfAlert(before, i), e.(alert := 0)) else OfAlert(before, i)
  }

  /** The entries one alert adds to a log in one step. */
  function AddFailureEntry(log: History<Entry>, a: Alert, failures: int, reference: int, att: Attempt): History<Entry> {
    var due := Due(a, failures, reference, att.checkedAt);
    if due.None? || att.outcome.NoProvider? then log
    else Then(log, Notified(0, due.value, att.outcome.Delivers?, att.checkedAt, att.sentAt))
  }

  function AddSuccessEntries(log: History<Entry>, a: Alert, successes: int, att: Attempt): History<Entry> {
    if !Resolves(a, successes) then log
    else if !a.config.sendOnResolved || att.outcome.NoProvider? then Then(log, Cleared(0))
    else Then(Then(log, Cleared(0)), Notified(0, Recovery, att.outcome.Delivers?, att.checkedAt, att.sentAt))
  }

  lemma {:induction false} TriggerFirstOfAlert(s: State, n: nat, attempts: seq<Attempt>, i: nat)
    requires n <= |s.alerts| == |attempts| && i < |s.alerts|
    ensures OfAlert(TriggerFirst(s, n, attempts).log, i) ==
            if i < n then AddFailureEntry(OfAlert(s.log, i), s.alerts[i], s.failures, s.lastReminderSent, attempts[i])
            else OfAlert(s.log, i)
  {
    if n > 0 {
      TriggerFirstOfAlert(s, n - 1, attempts, i);
      TriggerFirstPerAlert(s, n - 1, attempts, n - 1);
    }
  }

  lemma {:induction false} ResolveFirstOfAlert(s: State, n: nat, attempts: seq<Attempt>, i: nat)
    requires n <= |s.alerts| == |attempts| && i < |s.alerts|
    ensures OfAlert(ResolveFirst(s, n, attempts).log, i) ==
            if i < n then AddSuccessEntries(OfAlert(s.log, i), s.alerts[i], s.successes, attempts[i])
            else OfAlert(s.log, i)
  {
    if n > 0 {
      ResolveFirstOfAlert(s, n - 1, attempts, i);
      ResolveFirstPerAlert(s, n - 1, attempts, n - 1);
    }
  }

  lemma StepOfAlert(s: State, input: Input, i: nat)
    requires |input.attempts| == |s.alerts| && i < |s.alerts|
    ensures OfAlert(Step(s, input).log, i) ==
            if input.success then AddSuccessEntries(OfAlert(s.log, i), s.alerts[i], s.successes + 1, input.attempts[i])
            else AddFailureEntry(OfAlert(s.log, i), s.alerts[i], s.failures + 1, s.lastReminderSent, input.attempts[i])
  {
    if input.success {
      ResolveFirstOfAlert(s.(successes := s.successes + 1), |s.alerts|, input.attempts, i);
    } else {
      TriggerFirstOfAlert(s.(successes := 0, failures := s.failures + 1), |s.alerts|, input.attempts, i);
    }
  }

  /** Whether anything is delivered for some alert before position n. */
  ghost predicate SomeDelivery(s: State, n: nat, attempts: seq<Attempt>)
    requires n <= |s.alerts| == |attempts|
  {
    exists i :: 0 <= i < n && DeliversAfterFailure(s.alerts[i], s.failures, s.lastReminderSent, attempts[i])
  }

  lemma {:induction false} TriggerFirstReminderTime(s: State, n: nat, attempts: seq<Attempt>, now: int)
    requires n <= |s.alerts| == |attempts| && AtOneTime(attempts, now)
    ensures TriggerFirst(s, n, attempts).lastReminderSent ==
            if SomeDelivery(s, n, attempts) then now else s.lastReminderSent
  {
    if n > 0 {
      TriggerFirstReminderTime(s, n - 1, attempts, now);
      TriggerFirstPerAlert(s, n - 1, attempts, n - 1);
      assert SomeDelivery(s, n, attempts) <==>
        SomeDelivery(s, n - 1, attempts)
        || DeliversAfterFailure(s.alerts[n - 1], s.failures, s.lastReminderSent, attempts[n - 1]);
    }
  }

  /** The same counters and the same alerts with the same past, listed in another order. */
  ghost predicate Shuffles(s: State, s': State, pi: seq<nat>) {
    && Rearranges(pi, |s.alerts|)
    && s'.alerts == Rearranged(s.alerts, pi)
    && s'.failures == s.failures && s'.successes == s.successes
    && s'.lastReminderSent == s.lastReminderSent
    && forall k :: 0 <= k < |pi| ==> OfAlert(s'.log, k) == OfAlert(s.log, pi[k])
  }

  lemma ShuffledDelivery(s: State, s': State, pi: seq<nat>, attempts: seq<Attempt>)
    requires Shuffles(s, s', pi) && |attempts| == |s.alerts|
    ensures SomeDelivery(s, |s.alerts|, attempts) <==> SomeDelivery(s', |s.alerts|, Rearranged(attempts, pi))
  {
    var attempts' := Rearranged(attempts, pi);
    if i :| 0 <= i < |s.alerts| && DeliversAfterFailure(s.alerts[i], s.failures, s.lastReminderSent, attempts[i]) {
      assert i in pi;
      var k :| 0 <= k < |pi| && pi[k] == i;
      assert DeliversAfterFailure(s'.alerts[k], s'.failures, s'.lastReminderSent, attempts'[k]);
    }
    if k :| 0 <= k < |pi| && DeliversAfterFailure(s'.alerts[k], s'.failures, s'.lastReminderSent, attempts'[k]) {
      assert DeliversAfterFailure(s.alerts[pi[k]], s.failures, s.lastReminderSent, attempts[pi[k]]);
    }
  }

  /** Alert i of one state and alert k of another face the same step. */
  predicate SameTurn(s: State, input: Input, i: nat, s': State, input': Input, k: nat) {
    && i < |s.alerts| == |input.attempts| && k < |s'.alerts| == |input'.attempts|
    && s'.alerts[k] == s.alerts[i] && input'.attempts[k] == input.attempts[i] && input'.success == input.success
    && s'.failures == s.failures && s'.successes == s.successes
    && s'.lastReminderSent == s.lastReminderSent
  }

  lemma SameTurnSameRow(s: State, input: Input, i: nat, s': State, input': Input, k: nat)
    requires SameTurn(s, input, i, s', input', k) && DistinctRows(s.alerts) && DistinctRows(s'.alerts)
    requires s'.table == s.table
    ensures var c := s.alerts[i].config.checksum; RowOf(Step(s', input').table, c) == RowOf(Step(s, input).table, c)
  {
    StepRow(s, input, i);
    StepRow(s', input', k);
  }

  lemma SameTurnSameAlert(s: State, input: Input, i: nat, s': State, input': Input, k: nat)
    requires SameTurn(s, input, i, s', input', k) && OfAlert(s'.log, k) == OfAlert(s.log, i)
    ensures Step(s', input').alerts[k] == Step(s, input).alerts[i]
    ensures OfAlert(Step(s', input').log, k) == OfAlert(Step(s, input).log, i)
  {
    StepPerAlert(s, input, i);
    StepPerAlert(s', input', k);
    StepOfAlert(s, input, i);
    StepOfAlert(s', input', k);
  }

  lemma ShuffledRow(s: State, s': State, pi: seq<nat>, input: Input, c: string)
    requires Shuffles(s, s', pi) && s'.table == s.table && |input.attempts| == |s.alerts|
    requires DistinctRows(s.alerts) && DistinctRows(s'.alerts)
    ensures RowOf(Step(s', Input(input.success, Rearranged(input.attempts, pi))).table, c) ==
            RowOf(Step(s, input).table, c)
  {
    if i :| 0 <= i < |s.alerts| && s.alerts[i].config.enabled && s.alerts[i].config.checksum == c {
      assert i in pi;
      var k :| 0 <= k < |pi| && pi[k] == i;
      SameTurnSameRow(s, input, i, s', Input(input.success, Rearranged(input.attempts, pi)), k);
    } else {
      StepOtherRow(s, input, c);
      StepOtherRow(s', Input(input.success, Rearranged(input.attempts, pi)), c);
    }
  }

  lemma ShuffledDistinctRows(s: State, s': State, pi: seq<nat>)
    requires Shuffles(s, s', pi) && DistinctRows(s.alerts)
    ensures DistinctRows(s'.alerts)
  {
  }

  lemma ShuffledRows(s: State, s': State, pi: seq<nat>, input: Input)
    requires Shuffles(s, s', pi) && s'.table == s.table && DistinctRows(s.alerts) && |input.attempts| == |s.alerts|
    ensures Step(s', Input(input.success, Rearranged(input.attempts, pi))).table == Step(s, input).table
  {
    ShuffledDistinctRows(s, s', pi);
    var t, t' := Step(s, input).table, Step(s', Input(input.success, Rearranged(input.attempts, pi))).table;
    forall c ensures RowOf(t', c) == RowOf(t, c) {
      ShuffledRow(s, s', pi, input, c);
    }
    SameRows(t, t');
  }

  lemma SameRows(t: map<string, Row>, t': map<string, Row>)
    requires forall c :: RowOf(t', c) == RowOf(t, c)
    ensures t' == t
  {
    forall c ensures c in t <==> c in t' {
      assert RowOf(t', c) == RowOf(t, c);
    }
    forall c | c in t ensures t[c] == t'[c] {
      assert RowOf(t', c) == RowOf(t, c);
    }
  }

  lemma ShuffledAlerts(s: State, s': State, pi: seq<nat>, input: Input)
    requires Shuffles(s, s', pi) && |input.attempts| == |s.alerts|
    ensures var r, r' := Step(s, input), Step(s', Input(input.success, Rearranged(input.attempts, pi)));
      && r'.alerts == Rearranged(r.alerts, pi)
      && forall k :: 0 <= k < |pi| ==> OfAlert(r'.log, k) == OfAlert(r.log, pi[k])
  {
    var input' := Input(input.success, Rearranged(input.attempts, pi));
    var r, r' := Step(s, input), Step(s', input');
    forall k | 0 <= k < |pi|
      ensures r'.alerts[k] == r.alerts[pi[k]] && OfAlert(r'.log, k) == OfAlert(r.log, pi[k])
    {
      SameTurnSameAlert(s, input, pi[k], s', input', k);
    }
  }

  lemma ShuffledReminderTime(s: State, s': State, pi: seq<nat>, attempts: seq<Attempt>, now: int)
    requires Shuffles(s, s', pi) && |attempts| == |s.alerts| && AtOneTime(attempts, now)
    ensures TriggerFirst(s, |s.alerts|, attempts).lastReminderSent
         == TriggerFirst(s', |s.alerts|, Rearranged(attempts, pi)).lastReminderSent
  {
    TriggerFirstReminderTime(s, |s.alerts|, attempts, now);
    TriggerFirstReminderTime(s', |s.alerts|, Rearranged(attempts, pi), now);
    ShuffledDelivery(s, s', pi, attempts);
  }

  /** If a step reads one time, rearranging the alerts of an endpoint, and with them the outcomes,
      changes neither what is sent for any alert nor its flag, the counters or the reminder time;
      nor the table, if no enabled alert shares its row. */
  lemma OrderIsIrrelevant(s: State, s': State, pi: seq<nat>, input: Input, now: int)
    requires Shuffles(s, s', pi)
    requires |input.attempts| == |s.alerts| && AtOneTime(input.attempts, now)
    ensures var r, r' := Step(s, input), Step(s', Input(input.success, Rearranged(input.attempts, pi)));
      && Shuffles(r, r', pi)
      && (s'.table == s.table && DistinctRows(s.alerts) ==> r'.table == r.table)
  {
    ShuffledAlerts(s, s', pi, input);
    if s'.table == s.table && DistinctRows(s.alerts) {
      ShuffledRows(s, s', pi, input);
    }
    StepCounters(s, input);
    StepCounters(s', Input(input.success, Rearranged(input.attempts, pi)));
    if !input.success {
      ShuffledReminderTime(s.(successes := 0, failures := s.failures + 1),
                           s'.(successes := 0, failures := s'.failures + 1), pi, input.attempts, now);
    }
  }
}
