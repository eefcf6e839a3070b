/**
  Runs with restarts: which of the promises about whole runs survive them. Results are counted across
  restarts, as somebody would who watches the endpoint and not the process.
*/
module AlertRestartRuns {
  import opened GoStrings
  import opened Histories
  import opened Alerting
  import opened AlertTable
  import opened AlertRestarts

  // ---------------------------------------------------------------------------------
  // Counting across restarts
  // ---------------------------------------------------------------------------------

  /** Length of the run of failures that the handled results end with. */
  function FailuresInARow(h: History<Action>): nat {
    match h
    case Start => 0
    case Then(before, Restart) => FailuresInARow(before)
    case Then(before, Handle(input)) => if input.success then 0 else FailuresInARow(before) + 1
  }

  /** Length of the run of successes that the handled results end with. */
  function SuccessesInARow(h: History<Action>): nat {
    match h
    case Start => 0
    case Then(before, Restart) => SuccessesInARow(before)
    case Then(before, Handle(input)) => if input.success then SuccessesInARow(before) + 1 else 0
  }

  /** Number of handled results. */
  function HandledResults(h: History<Action>): nat {
    match h
    case Start => 0
    case Then(before, Restart) => HandledResults(before)
    case Then(before, Handle(_)) => HandledResults(before) + 1
  }

  /** More handled results after a history. */
  function Continued(h: History<Action>, g: History<Input>): History<Action> {
    match g
    case Start => h
    case Then(before, input) => Then(Continued(h, before), Handle(input))
  }

  lemma {:induction false} PerformContinued(s: State, h: History<Action>, g: History<Input>)
    requires ActionsFit(h, |s.alerts|) && Fits(g, |s.alerts|)
    ensures ActionsFit(Continued(h, g), |s.alerts|)
    ensures Perform(s, Continued(h, g)) == Run(Perform(s, h), g)
    ensures HandledResults(Continued(h, g)) == HandledResults(h) + g.Length()
  {
    if g.Then? {
      PerformContinued(s, h, g.before);
    }
  }

  lemma {:induction false} CountsContinued(h: History<Action>, success: bool, n: nat, m: nat)
    ensures var h' := Continued(h, Repeated(success, n, m));
      && (success ==> SuccessesInARow(h') == SuccessesInARow(h) + m)
      && (!success ==> FailuresInARow(h') == FailuresInARow(h) + m)
    ensures Repeated(success, n, m).Length() == m
  {
    if m > 0 {
      CountsContinued(h, success, n, m - 1);
    }
  }

  /** What holds of every state that a run with restarts leads to. */
  ghost predicate Sound(s: State) {
    DistinctRows(s.alerts) && Validated(s) && Mirror(s) && NonNegative(s)
  }

  lemma PerformIsSound(s: State, h: History<Action>)
    requires Clean(s) && Validated(s) && DistinctRows(s.alerts) && ActionsFit(h, |s.alerts|)
    ensures Sound(Perform(s, h))
  {
    MirrorAlways(s, h);
    PerformNonNegative(s, h);
  }

  // ---------------------------------------------------------------------------------
  // Early resolution
  // ---------------------------------------------------------------------------------

  /** The last action of h resolves alert i. */
  predicate ResolvesLast(s: State, h: History<Action>, i: nat)
    requires ActionsFit(h, |s.alerts|) && i < |s.alerts|
  {
    h.Then? && Perform(s, h.before).alerts[i].triggered && !Perform(s, h).alerts[i].triggered
  }

  /** The last action of h triggers alert i. */
  predicate TriggersLast(s: State, h: History<Action>, i: nat)
    requires ActionsFit(h, |s.alerts|) && i < |s.alerts|
  {
    h.Then? && !Perform(s, h.before).alerts[i].triggered && Perform(s, h).alerts[i].triggered
  }

  /** A restart neither triggers nor resolves. */
  lemma OnlyResultsFlip(s: State, h: History<Action>, i: nat)
    requires Clean(s) && Validated(s) && DistinctRows(s.alerts) && ActionsFit(h, |s.alerts|) && i < |s.alerts|
    ensures ResolvesLast(s, h, i) ==> h.last.Handle? && h.last.input.success && s.alerts[i].config.enabled
    ensures TriggersLast(s, h, i) ==> h.last.Handle? && !h.last.input.success && s.alerts[i].config.enabled
  {
    if h.Then? {
      var before := Perform(s, h.before);
      MirrorAlways(s, h.before);
      PerformKeepsConfigs(s, h.before, i);
      match h.last
      case Handle(input) => StepPerAlert(before, input, i);
      case Restart => RestartRestoresTriggered(before);
    }
  }

  /** Successes after a history leave an alert triggered until its threshold is reached. */
  lemma SuccessesAfter(s: State, h: History<Action>, i: nat, m: nat)
    requires ActionsFit(h, |s.alerts|) && i < |s.alerts|
    requires var r := Perform(s, h); r.alerts[i].config.enabled && r.alerts[i].triggered
    ensures var h' := Continued(h, Repeated(true, |s.alerts|, m));
      && ActionsFit(h', |s.alerts|)
      && (Perform(s, h').alerts[i].triggered <==>
            m == 0 || Perform(s, h).successes + m < Perform(s, h).alerts[i].config.successThreshold)
  {
    if m > 0 {
      AfterSuccesses(Perform(s, h), i, m);
      PerformContinued(s, h, Repeated(true, |s.alerts|, m));
    }
  }

  /** Failures after a history leave an alert alone until its threshold is reached. */
  lemma FailuresAfter(s: State, h: History<Action>, i: nat, m: nat)
    requires ActionsFit(h, |s.alerts|) && i < |s.alerts|
    requires var r := Perform(s, h); r.alerts[i].config.enabled && !r.alerts[i].triggered
    ensures var h' := Continued(h, Repeated(false, |s.alerts|, m));
      && ActionsFit(h', |s.alerts|)
      && (Perform(s, h').alerts[i].triggered <==>
            m > 0 && Perform(s, h).failures + m >= Perform(s, h).alerts[i].config.failureThreshold)
  {
    if m > 0 {
      AfterFailures(Perform(s, h), i, m);
      PerformContinued(s, h, Repeated(false, |s.alerts|, m));
    }
  }

  /** A restart after a run that leaves a stale row brings its success back. */
  lemma RememberedSuccess(s: State, i: nat)
    requires Clean(s) && Validated(s) && DistinctRows(s.alerts) && i < |s.alerts|
    requires s.alerts[i].config.enabled && s.alerts[i].config.successThreshold >= 2
    ensures var h := Then(StaleRun(|s.alerts|, i, s.alerts[i].config.failureThreshold), Restart);
      && ActionsFit(h, |s.alerts|)
      && Perform(s, h).successes == 1 && Perform(s, h).alerts[i].triggered
      && Perform(s, h).alerts[i].config == s.alerts[i].config
  {
    var stale := StaleRowIsReachable(s, i);
    PerformIsSound(s, stale);
    PerformKeepsConfigs(s, Then(stale, Restart), i);
    RestartRestoresTriggered(Perform(s, stale));
    RestartedCounters(Perform(s, stale));
    PerformKeepsConfigs(s, stale, i);
  }

  /** A run that ends by resolving alert i after one success too few: the row remembers a success from
      before the last failure, and a restart brings it back. */
  lemma EarlyResolution(s: State, i: nat) returns (h: History<Action>)
    requires Clean(s) && Validated(s) && DistinctRows(s.alerts) && i < |s.alerts|
    requires s.alerts[i].config.enabled && s.alerts[i].config.successThreshold >= 2
    ensures ActionsFit(h, |s.alerts|) && ResolvesLast(s, h, i)
    ensures SuccessesInARow(h) == s.alerts[i].config.successThreshold - 1
    ensures Latched(h, s.alerts[i].config, i)
  {
    var n, c := |s.alerts|, s.alerts[i].config;
    var base, m := Then(StaleRun(n, i, c.failureThreshold), Restart), c.successThreshold - 1;
    RememberedSuccess(s, i);
    h := Continued(base, Repeated(true, n, m));
    SuccessesAfter(s, base, i, m);
    SuccessesAfter(s, base, i, m - 1);
    CountsContinued(base, true, n, m);
    StaleRunLatches(n, c, i);
    StaysLatched(base, c, i, n, m);
  }

  /** Alert i resolves early in no run with restarts exactly if it is disabled or one success is enough
      for it anyway. */
  lemma NoEarlyResolutionIff(s: State, i: nat)
    requires Clean(s) && Validated(s) && DistinctRows(s.alerts) && i < |s.alerts|
    ensures (forall h: History<Action> :: ActionsFit(h, |s.alerts|) && ResolvesLast(s, h, i) ==>
               SuccessesInARow(h) >= s.alerts[i].config.successThreshold) <==>
            !s.alerts[i].config.enabled || s.alerts[i].config.successThreshold == 1
  {
    if !s.alerts[i].config.enabled || s.alerts[i].config.successThreshold == 1 {
      forall h: History<Action> | ActionsFit(h, |s.alerts|) && ResolvesLast(s, h, i)
        ensures SuccessesInARow(h) >= s.alerts[i].config.successThreshold
      {
        OnlyResultsFlip(s, h, i);
      }
    } else {
      var h := EarlyResolution(s, i);
    }
  }

  // ---------------------------------------------------------------------------------
  // Early firing
  // ---------------------------------------------------------------------------------

  /** A run that ends by triggering alert i after too few failures in a row: a restart after a success
      takes the threshold of alert j, which is still triggered, for failures. */
  lemma EarlyFiring(s: State, i: nat, j: nat) returns (h: History<Action>)
    requires Clean(s) && Validated(s) && DistinctRows(s.alerts) && i < |s.alerts| && j < |s.alerts| && i != j
    requires s.alerts[i].config.enabled && s.alerts[i].config.failureThreshold >= 2
    requires s.alerts[j].config.enabled && s.alerts[j].config.successThreshold >= 2
    ensures ActionsFit(h, |s.alerts|) && TriggersLast(s, h, i)
    ensures FailuresInARow(h) < s.alerts[i].config.failureThreshold
  {
    var n, f, lent := |s.alerts|, s.alerts[i].config.failureThreshold, s.alerts[j].config.failureThreshold;
    var base := Then(Then(OnlyDelivers(n, j, lent), Handle(Silent(true, n))), Restart);
    var m := if lent < f then f - lent else 1;
    LentFailures(s, i, j);
    h := Continued(base, Repeated(false, n, m));
    FailuresAfter(s, base, i, m);
    FailuresAfter(s, base, i, m - 1);
    CountsContinued(base, false, n, m);
  }

  lemma LentFailures(s: State, i: nat, j: nat)
    requires Clean(s) && Validated(s) && DistinctRows(s.alerts) && i < |s.alerts| && j < |s.alerts| && i != j
    requires s.alerts[j].config.enabled && s.alerts[j].config.successThreshold >= 2
    ensures var h := Then(Then(OnlyDelivers(|s.alerts|, j, s.alerts[j].config.failureThreshold),
                               Handle(Silent(true, |s.alerts|))), Restart);
      && ActionsFit(h, |s.alerts|)
      && Perform(s, h).failures == s.alerts[j].config.failureThreshold
      && Perform(s, h).alerts[i].config == s.alerts[i].config && !Perform(s, h).alerts[i].triggered
  {
    var n, lent, up := |s.alerts|, s.alerts[j].config.failureThreshold, Silent(true, |s.alerts|);
    var fired := OnlyDelivers(n, j, lent);
    var risen := Then(fired, Handle(up));
    OnlyDeliversRun(s, j, lent);
    StepPerAlert(Perform(s, fired), up, j);
    forall l | 0 <= l < n && l != j ensures !Perform(s, risen).alerts[l].triggered {
      OthersStayQuiet(s, j, l, lent);
      StepPerAlert(Perform(s, fired), up, l);
    }
    PerformIsSound(s, risen);
    PerformKeepsConfigs(s, risen, j);
    PerformKeepsConfigs(s, Then(risen, Restart), i);
    RestartedCounters(Perform(s, risen));
    RestartRestoresTriggered(Perform(s, risen));
  }

  /** As long as alert i is not triggered, neither the counter nor the threshold of a triggered alert
      claims more failures than there were in a row. */
  ghost predicate NothingIsLent(r: State, h: History<Action>, i: nat)
    requires i < |r.alerts|
  {
    !r.alerts[i].triggered ==>
      && r.failures <= FailuresInARow(h)
      && forall j :: 0 <= j < |r.alerts| && r.alerts[j].triggered ==>
           r.alerts[j].config.failureThreshold <= FailuresInARow(h)
  }

  /** Every enabled alert but i is resolved by the first success. */
  predicate OthersResolveAtOnce(s: State, i: nat) {
    forall j :: 0 <= j < |s.alerts| && j != i && s.alerts[j].config.enabled ==>
      s.alerts[j].config.successThreshold == 1
  }

  lemma {:induction false} NothingIsEverLent(s: State, h: History<Action>, i: nat)
    requires Clean(s) && Validated(s) && DistinctRows(s.alerts) && ActionsFit(h, |s.alerts|) && i < |s.alerts|
    requires OthersResolveAtOnce(s, i)
    ensures NothingIsLent(Perform(s, h), h, i)
  {
    if h.Then? {
      var before, r := Perform(s, h.before), Perform(s, h);
      NothingIsEverLent(s, h.before, i);
      PerformIsSound(s, h.before);
      match h.last
      case Handle(input) =>
        StepCounters(before, input);
        StepPerAlert(before, input, i);
        forall j | 0 <= j < |s.alerts| && r.alerts[j].triggered && !r.alerts[i].triggered
          ensures r.alerts[j].config.failureThreshold <= FailuresInARow(h)
        {
          StepPerAlert(before, input, j);
          PerformKeepsConfigs(s, h.before, j);
          assert RowMatchesAt(before, j);
        }
      case Restart =>
        RestartRestoresTriggered(before);
        RestartedCounters(before);
        forall j | 0 <= j < |s.alerts|
          ensures r.alerts[j].config == before.alerts[j].config && r.alerts[j].triggered == before.alerts[j].triggered
        {
          RestartedPerAlert(before, j);
        }
    }
  }

  /** Alert i fires early in no run with restarts exactly if it is disabled, one failure is enough for it
      anyway, or every other enabled alert is resolved by the first success. */
  lemma NoEarlyFiringIff(s: State, i: nat)
    requires Clean(s) && Validated(s) && DistinctRows(s.alerts) && i < |s.alerts|
    ensures (forall h: History<Action> :: ActionsFit(h, |s.alerts|) && TriggersLast(s, h, i) ==>
               FailuresInARow(h) >= s.alerts[i].config.failureThreshold) <==>
            !s.alerts[i].config.enabled || s.alerts[i].config.failureThreshold == 1 || OthersResolveAtOnce(s, i)
  {
    var c := s.alerts[i].config;
    if !c.enabled || c.failureThreshold == 1 || OthersResolveAtOnce(s, i) {
      forall h: History<Action> | ActionsFit(h, |s.alerts|) && TriggersLast(s, h, i)
        ensures FailuresInARow(h) >= c.failureThreshold
      {
        OnlyResultsFlip(s, h, i);
        if c.failureThreshold != 1 {
          NothingIsEverLent(s, h.before, i);
          PerformKeepsConfigs(s, h.before, i);
          StepPerAlert(Perform(s, h.before), h.last.input, i);
        }
      }
    } else {
      var j :| 0 <= j < |s.alerts| && j != i && s.alerts[j].config.enabled && s.alerts[j].config.successThreshold != 1;
      var h := EarlyFiring(s, i, j);
    }
  }

  // ---------------------------------------------------------------------------------
  // Hysteresis
  // ---------------------------------------------------------------------------------

  /** The last action is a failure that fires the alert, counting failures across restarts. */
  predicate FiresNow(h: History<Action>, c: AlertConfig, i: nat) {
    && h.Then? && h.last.Handle? && !h.last.input.success
    && c.enabled && FailuresInARow(h) >= c.failureThreshold
    && i < |h.last.input.attempts| && h.last.input.attempts[i].outcome.Delivers?
  }

  /** The alert fired at some moment, and never since were there enough successes in a row. */
  ghost predicate Latched(h: History<Action>, c: AlertConfig, i: nat) {
    exists p: History<Action> :: h.Extends(p) && FiresNow(p, c, i) && QuietAfter(h, p, c.successThreshold)
  }

  ghost predicate QuietAfter(h: History<Action>, p: History<Action>, threshold: int) {
    forall q: History<Action> :: h.Extends(q) && q.Extends(p) && q != p ==> SuccessesInARow(q) < threshold
  }

  lemma LatchedStep(h: History<Action>, c: AlertConfig, i: nat)
    requires h.Then?
    ensures Latched(h, c, i) <==>
      FiresNow(h, c, i) || (Latched(h.before, c, i) && SuccessesInARow(h) < c.successThreshold)
  {
    if FiresNow(h, c, i) {
      forall q: History<Action> | h.Extends(q) && q.Extends(h) ensures q == h {
        ExtendsShorter(h, q);
        ExtendsShorter(q, h);
      }
      assert h.Extends(h) && QuietAfter(h, h, c.successThreshold);
    }
    if Latched(h.before, c, i) && SuccessesInARow(h) < c.successThreshold {
      var p: History<Action> :|
        h.before.Extends(p) && FiresNow(p, c, i) && QuietAfter(h.before, p, c.successThreshold);
      assert h.Extends(p) && QuietAfter(h, p, c.successThreshold);
    }
    if Latched(h, c, i) {
      var p: History<Action> :| h.Extends(p) && FiresNow(p, c, i) && QuietAfter(h, p, c.successThreshold);
      assert h.Extends(h);
      assert p != h ==> h.before.Extends(p) && QuietAfter(h.before, p, c.successThreshold);
    }
  }

  lemma {:induction false} NothingLatchedAtStart(c: AlertConfig, i: nat)
    ensures !Latched(Start, c, i)
  {
  }

  lemma {:induction false} OnlyDeliversCounts(n: nat, i: nat, m: nat)
    ensures FailuresInARow(OnlyDelivers(n, i, m)) == m && SuccessesInARow(OnlyDelivers(n, i, m)) == 0
    ensures HandledResults(OnlyDelivers(n, i, m)) == m
  {
    if m > 0 {
      OnlyDeliversCounts(n, i, m - 1);
    }
  }

  lemma StaleRunLatches(n: nat, c: AlertConfig, i: nat)
    requires i < n && c.enabled && c.failureThreshold >= 1 && c.successThreshold >= 2
    ensures var base := Then(StaleRun(n, i, c.failureThreshold), Restart);
      Latched(base, c, i) && SuccessesInARow(base) == 0
  {
    var stale := StaleRun(n, i, c.failureThreshold);
    OnlyDeliversCounts(n, i, c.failureThreshold);
    LatchedStep(stale.before.before, c, i);
    LatchedStep(stale.before, c, i);
    LatchedStep(stale, c, i);
    LatchedStep(Then(stale, Restart), c, i);
  }

  lemma {:induction false} StaysLatched(h: History<Action>, c: AlertConfig, i: nat, n: nat, m: nat)
    requires Latched(h, c, i) && SuccessesInARow(h) + m < c.successThreshold
    ensures Latched(Continued(h, Repeated(true, n, m)), c, i)
  {
    if m > 0 {
      StaysLatched(h, c, i, n, m - 1);
      CountsContinued(h, true, n, m);
      LatchedStep(Continued(h, Repeated(true, n, m)), c, i);
    }
  }

  /** The state tells the history of alert i, counting across restarts. */
  ghost predicate ShowsHistory(s: State, h: History<Action>, i: nat)
    requires ActionsFit(h, |s.alerts|) && i < |s.alerts|
  {
    Perform(s, h).alerts[i].triggered <==> Latched(h, s.alerts[i].config, i)
  }

  lemma {:induction false} ShowsHistoryAlways(s: State, h: History<Action>, i: nat)
    requires Clean(s) && Validated(s) && DistinctRows(s.alerts) && ActionsFit(h, |s.alerts|) && i < |s.alerts|
    requires var c := s.alerts[i].config; c.enabled ==> c.failureThreshold == 1 && c.successThreshold == 1
    ensures ShowsHistory(s, h, i)
  {
    if h.Start? {
      NothingLatchedAtStart(s.alerts[i].config, i);
    } else {
      var before := Perform(s, h.before);
      ShowsHistoryAlways(s, h.before, i);
      LatchedStep(h, s.alerts[i].config, i);
      PerformIsSound(s, h.before);
      PerformKeepsConfigs(s, h.before, i);
      assert RowMatchesAt(before, i);
      match h.last
      case Handle(input) =>
        StepPerAlert(before, input, i);
      case Restart =>
        RestartRestoresTriggered(before);
        if Latched(h.before, s.alerts[i].config, i) {
          LatchedIsQuiet(h.before, s.alerts[i].config, i);
        }
    }
  }

  /** What is latched has not seen enough successes in a row. */
  lemma LatchedIsQuiet(h: History<Action>, c: AlertConfig, i: nat)
    requires Latched(h, c, i) && c.successThreshold >= 1
    ensures SuccessesInARow(h) < c.successThreshold
  {
    var p: History<Action> :| h.Extends(p) && FiresNow(p, c, i) && QuietAfter(h, p, c.successThreshold);
    assert h.Extends(h);
  }

  /** A run that ends with enough failures in a row and a delivering provider, but without firing alert i:
      a restart has forgotten the first of them. */
  lemma LateFiring(s: State, i: nat) returns (h: History<Action>)
    requires Clean(s) && Validated(s) && DistinctRows(s.alerts) && i < |s.alerts|
    requires s.alerts[i].config.enabled && s.alerts[i].config.failureThreshold >= 2
    ensures ActionsFit(h, |s.alerts|) && !ShowsHistory(s, h, i)
  {
    var n, c := |s.alerts|, s.alerts[i].config;
    var down := Silent(false, n);
    var failed := Then(Start, Handle(down));
    var base, m := Then(failed, Restart), c.failureThreshold - 1;
    assert Perform(s, Start) == s;
    forall j | 0 <= j < n ensures !Perform(s, failed).alerts[j].triggered {
      StepPerAlert(s, down, j);
    }
    PerformIsSound(s, failed);
    PerformKeepsConfigs(s, base, i);
    RestartedCounters(Perform(s, failed));
    RestartRestoresTriggered(Perform(s, failed));
    h := Continued(base, Repeated(false, n, m));
    FailuresAfter(s, base, i, m);
    assert FailuresInARow(Start) == 0;
    assert FailuresInARow(base) == 1;
    CountsContinued(base, false, n, m);
    LatchedStep(h, c, i);
  }

  /** Counting across restarts, the flag of an alert tells its history in every run exactly if the alert
      is disabled or both its thresholds are one. */
  lemma HysteresisAcrossRestartsIff(s: State, i: nat)
    requires Clean(s) && Validated(s) && DistinctRows(s.alerts) && i < |s.alerts|
    ensures (forall h: History<Action> :: ActionsFit(h, |s.alerts|) ==> ShowsHistory(s, h, i)) <==>
      (s.alerts[i].config.enabled ==>
         s.alerts[i].config.failureThreshold == 1 && s.alerts[i].config.successThreshold == 1)
  {
    var c := s.alerts[i].config;
    assert c.failureThreshold >= 1 && c.successThreshold >= 1;
    if c.enabled && c.successThreshold >= 2 {
      var h := EarlyResolution(s, i);
      assert !ShowsHistory(s, h, i);
    } else if c.enabled && c.failureThreshold >= 2 {
      var h := LateFiring(s, i);
    } else {
      forall h: History<Action> | ActionsFit(h, |s.alerts|) ensures ShowsHistory(s, h, i) {
        ShowsHistoryAlways(s, h, i);
      }
    }
  }
}
