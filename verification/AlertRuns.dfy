/**
  Properties of whole runs of the alerting state machine.
*/
module AlertRuns {
  import opened Histories
  import opened Alerting

  // ---------------------------------------------------------------------------------
  // Hysteresis
  // ---------------------------------------------------------------------------------

  /** Length of the run of failures a history ends with. */
  function TrailingFailures(h: History<Input>): nat {
    if h.Then? && !h.last.success then TrailingFailures(h.before) + 1 else 0
  }

  /** Length of the run of successes a history ends with. */
  function TrailingSuccesses(h: History<Input>): nat {
    if h.Then? && h.last.success then TrailingSuccesses(h.before) + 1 else 0
  }

  lemma {:induction false} CountersAreTrailingRuns(s: State, h: History<Input>)
    requires Clean(s) && Fits(h, |s.alerts|)
    ensures Run(s, h).failures == TrailingFailures(h)
    ensures Run(s, h).successes == TrailingSuccesses(h)
  {
    if h.Then? {
      CountersAreTrailingRuns(s, h.before);
      StepCounters(Run(s, h.before), h.last);
    }
  }

  /** The history ends in enough failures for the alert, and its provider delivers. */
  predicate Fires(h: History<Input>, config: AlertConfig, i: nat)
    requires h.Then? ==> i < |h.last.attempts|
  {
    && h.Then? && config.enabled
    && !h.last.success && TrailingFailures(h) >= config.failureThreshold
    && h.last.attempts[i].outcome.Delivers?
  }

  /** p is a moment of h at which the alert fires and after which no run of successes has been
      long enough to resolve it. */
  ghost predicate LatchedSince(h: History<Input>, p: History<Input>, config: AlertConfig, i: nat)
    requires p.Then? ==> i < |p.last.attempts|
  {
    h.Extends(p) && Fires(p, config, i) && QuietSince(h, p, config.successThreshold)
  }

  /** No prefix of h longer than p ends in `threshold` successes. */
  ghost predicate QuietSince(h: History<Input>, p: History<Input>, threshold: int) {
    forall q: History<Input> :: h.Extends(q) && q.Extends(p) && q != p ==> TrailingSuccesses(q) < threshold
  }

  lemma {:induction false} ExtendsFits(h: History<Input>, p: History<Input>, n: nat)
    requires h.Extends(p) && Fits(h, n)
    ensures Fits(p, n)
  {
    if h != p {
      ExtendsFits(h.before, p, n);
    }
  }

  /** An alert is triggered exactly when at some moment enough failures in a row met a delivering
      provider, and from then on there never were enough successes in a row. */
  lemma {:induction false} ExactHysteresis(s: State, h: History<Input>, i: nat)
    requires Clean(s) && Fits(h, |s.alerts|) && i < |s.alerts|
    requires s.alerts[i].config.successThreshold >= 1
    ensures Run(s, h).alerts[i].triggered <==>
      exists p: History<Input> :: Fits(p, |s.alerts|) && LatchedSince(h, p, s.alerts[i].config, i)
  {
    var config := s.alerts[i].config;
    if h.Then? {
      var before := Run(s, h.before);
      ExactHysteresis(s, h.before, i);
      CountersAreTrailingRuns(s, h);
      CountersAreTrailingRuns(s, h.before);
      StepPerAlert(before, h.last, i);
      RunKeepsConfigs(s, h.before, i);
      if Run(s, h).alerts[i].triggered {
        if before.alerts[i].triggered {
          var p: History<Input> :| Fits(p, |s.alerts|) && LatchedSince(h.before, p, config, i);
          StillLatched(h, p, config, i);
        } else {
          FiringLatches(h, config, i);
        }
      }
      forall p: History<Input> | Fits(p, |s.alerts|) && LatchedSince(h, p, config, i)
        ensures Run(s, h).alerts[i].triggered
      {
        if p != h {
          WasLatched(h, p, config, i);
        }
      }
    }
  }

  lemma FiringLatches(h: History<Input>, config: AlertConfig, i: nat)
    requires h.Then? ==> i < |h.last.attempts|
    requires Fires(h, config, i)
    ensures LatchedSince(h, h, config, i)
  {
    forall q: History<Input> | h.Extends(q) && q.Extends(h) ensures q == h {
      ExtendsShorter(h, q);
      ExtendsShorter(q, h);
    }
  }

  lemma StillLatched(h: History<Input>, p: History<Input>, config: AlertConfig, i: nat)
    requires h.Then? && (p.Then? ==> i < |p.last.attempts|)
    requires LatchedSince(h.before, p, config, i) && TrailingSuccesses(h) < config.successThreshold
    ensures LatchedSince(h, p, config, i)
  {
  }

  lemma WasLatched(h: History<Input>, p: History<Input>, config: AlertConfig, i: nat)
    requires h.Then? && (p.Then? ==> i < |p.last.attempts|)
    requires LatchedSince(h, p, config, i) && p != h
    ensures LatchedSince(h.before, p, config, i) && TrailingSuccesses(h) < config.successThreshold
  {
    assert h.Extends(h);
    forall q: History<Input> | h.before.Extends(q) && q.Extends(p) && q != p
      ensures TrailingSuccesses(q) < config.successThreshold
    {
      assert h.Extends(q);
    }
  }

  /** Every provider call made for alert i would succeed. */
  ghost predicate Reliable(h: History<Input>, i: nat) {
    h.Then? ==> i < |h.last.attempts| && h.last.attempts[i].outcome.Delivers? && Reliable(h.before, i)
  }

  lemma {:induction false} ExtendsReliable(h: History<Input>, p: History<Input>, i: nat)
    requires h.Extends(p) && Reliable(h, i)
    ensures Reliable(p, i)
  {
    if h != p {
      ExtendsReliable(h.before, p, i);
    }
  }

  /** With a reliable provider the outcomes drop out: an enabled alert is triggered iff some prefix
      ends in at least as many failures as its failure threshold, and no longer prefix ends in
      as many successes as its success threshold. */
  lemma ReliableHysteresis(s: State, h: History<Input>, i: nat)
    requires Clean(s) && Validated(s) && Fits(h, |s.alerts|) && i < |s.alerts|
    requires s.alerts[i].config.enabled && Reliable(h, i)
    ensures Run(s, h).alerts[i].triggered <==>
      exists p: History<Input> ::
        && h.Extends(p) && TrailingFailures(p) >= s.alerts[i].config.failureThreshold
        && QuietSince(h, p, s.alerts[i].config.successThreshold)
  {
    var config := s.alerts[i].config;
    ExactHysteresis(s, h, i);
    if Run(s, h).alerts[i].triggered {
      var p: History<Input> :| Fits(p, |s.alerts|) && LatchedSince(h, p, config, i);
      assert h.Extends(p) && TrailingFailures(p) >= config.failureThreshold &&
        QuietSince(h, p, config.successThreshold);
    }
    if p: History<Input> :| h.Extends(p) && TrailingFailures(p) >= config.failureThreshold
                            && QuietSince(h, p, config.successThreshold)
    {
      ExtendsFits(h, p, |s.alerts|);
      ExtendsReliable(h, p, i);
      assert LatchedSince(h, p, config, i);
    }
  }

  // ---------------------------------------------------------------------------------
  // How often an alert can notify
  // ---------------------------------------------------------------------------------

  /** What k notifications and the results since then cost. */
  ghost predicate Paid(k: nat, failureThreshold: int, successThreshold: int, triggered: bool, failures: int,
                       successes: int, n: nat) {
    if triggered then k >= 1 && k * failureThreshold + (k - 1) * successThreshold + successes <= n && successes >= 0
    else k * failureThreshold + k * successThreshold + failures <= n && failures >= 0
  }

  lemma PaidStep(k: nat, f: int, s: int, failures: int, n: nat)
    requires Paid(k, f, s, false, failures, 0, n) && f <= failures + 1
    ensures Paid(k + 1, f, s, true, failures + 1, 0, n + 1)
  {
    assert (k + 1) * f == k * f + f;
  }

  lemma PaidResolved(k: nat, f: int, s: int, successes: int, n: nat)
    requires Paid(k, f, s, true, 0, successes, n) && s <= successes + 1
    ensures Paid(k, f, s, false, 0, successes + 1, n + 1)
  {
    assert k * s == (k - 1) * s + s;
  }

  lemma {:induction false} NotificationsArePaid(s: State, h: History<Input>, i: nat)
    requires Clean(s) && Fits(h, |s.alerts|) && i < |s.alerts|
    ensures var r := Run(s, h);
      Paid(Initials(r.log, i), s.alerts[i].config.failureThreshold, s.alerts[i].config.successThreshold,
           r.alerts[i].triggered, r.failures, r.successes, h.Length())
  {
    if h.Then? {
      var f, st := s.alerts[i].config.failureThreshold, s.alerts[i].config.successThreshold;
      var before := Run(s, h.before);
      var k := Initials(before.log, i);
      NotificationsArePaid(s, h.before, i);
      RunKeepsConfigs(s, h.before, i);
      StepPerAlert(before, h.last, i);
      StepCounters(before, h.last);
      StepCounts(before, h.last, i);
      if !h.last.success && Initiates(before.alerts[i], before.failures + 1, h.last.attempts[i]) {
        PaidStep(k, f, st, before.failures, h.before.Length());
      } else if h.last.success && Resolves(before.alerts[i], before.successes + 1) {
        PaidResolved(k, f, st, before.successes, h.before.Length());
      }
    }
  }

  /** k delivered initial notifications take at least k full runs of failures and, between them,
      k - 1 full runs of successes, whatever else happened. */
  lemma NotificationBound(s: State, h: History<Input>, i: nat)
    requires Clean(s) && Validated(s) && Fits(h, |s.alerts|) && i < |s.alerts|
    ensures var k := Initials(Run(s, h).log, i);
      k * s.alerts[i].config.failureThreshold + (k - 1) * s.alerts[i].config.successThreshold <= h.Length()
  {
    NotificationsArePaid(s, h, i);
    var r := Run(s, h);
    PaidIsBounded(Initials(r.log, i), s.alerts[i].config.failureThreshold, s.alerts[i].config.successThreshold,
                  r.alerts[i].triggered, r.failures, r.successes, h.Length());
  }

  lemma PaidIsBounded(k: nat, f: int, s: int, triggered: bool, failures: int, successes: int, n: nat)
    requires Paid(k, f, s, triggered, failures, successes, n) && s >= 0
    ensures k * f + (k - 1) * s <= n
  {
    assert k * s == (k - 1) * s + s;
  }

  // ---------------------------------------------------------------------------------
  // Recoveries
  // ---------------------------------------------------------------------------------

  /** Number of recovery notifications of alert i, delivered or not. */
  function Recoveries(log: History<Entry>, i: nat): nat {
    match log
    case Start => 0
    case Then(before, e) =>
      Recoveries(before, i) + if e.Notified? && e.alert == i && e.kind == Recovery then 1 else 0
  }

  /** Alert i has a provider throughout. */
  ghost predicate Provided(h: History<Input>, i: nat) {
    h.Then? ==> i < |h.last.attempts| && !h.last.attempts[i].outcome.NoProvider? && Provided(h.before, i)
  }

  lemma {:induction false} TriggerFirstRecoveries(s: State, n: nat, attempts: seq<Attempt>, i: nat)
    requires n <= |s.alerts| == |attempts|
    ensures Recoveries(TriggerFirst(s, n, attempts).log, i) == Recoveries(s.log, i)
  {
    if n > 0 {
      TriggerFirstRecoveries(s, n - 1, attempts, i);
    }
  }

  lemma {:induction false} ResolveFirstRecoveries(s: State, n: nat, attempts: seq<Attempt>, i: nat)
    requires n <= |s.alerts| == |attempts| && i < |s.alerts|
    ensures Recoveries(ResolveFirst(s, n, attempts).log, i) == Recoveries(s.log, i) +
      if i < n && Resolves(s.alerts[i], s.successes) && s.alerts[i].config.sendOnResolved
         && !attempts[i].outcome.NoProvider? then 1 else 0
  {
    if n > 0 {
      ResolveFirstRecoveries(s, n - 1, attempts, i);
      ResolveFirstPerAlert(s, n - 1, attempts, n - 1);
    }
  }

  /** An alert that is not to be sent on resolution never sends a recovery; one that is, and has a
      provider, sends exactly one for each resolution, whether or not it gets through. */
  lemma {:induction false} OneRecoveryPerResolution(s: State, h: History<Input>, i: nat)
    requires Clean(s) && Fits(h, |s.alerts|) && i < |s.alerts|
    ensures var log, config := Run(s, h).log, s.alerts[i].config;
      && Recoveries(log, i) <= Resolutions(log, i)
      && (!config.sendOnResolved ==> Recoveries(log, i) == 0)
      && (config.sendOnResolved && Provided(h, i) ==> Recoveries(log, i) == Resolutions(log, i))
  {
    if h.Then? {
      OneRecoveryPerResolution(s, h.before, i);
      var before, input := Run(s, h.before), h.last;
      RunKeepsConfigs(s, h.before, i);
      StepCounts(before, input, i);
      if input.success {
        ResolveFirstRecoveries(before.(successes := before.successes + 1), |s.alerts|, input.attempts, i);
      } else {
        TriggerFirstRecoveries(before.(successes := 0, failures := before.failures + 1), |s.alerts|, input.attempts, i);
      }
    }
  }
}
