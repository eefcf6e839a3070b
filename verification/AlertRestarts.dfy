/**
  What a restart loses. The counters that a restart puts in place need not be those of the process
  that ended; this says exactly when that ever shows.
*/
module AlertRestarts {
  import opened GoStrings
  import opened Histories
  import opened Alerting
  import opened AlertTable

  // ---------------------------------------------------------------------------------
  // When counters matter
  // ---------------------------------------------------------------------------------

  function Min(a: int, b: int): int {
    if a < b then a else b
  }

  /** The counters of the two states promise the same to alert i: if it is triggered, equally many
      successes are missing to resolve it; if not, equally many failures to trigger it. Beyond the
      last missing result the counters do not matter. */
  predicate SameProspects(s: State, r: State, i: nat)
    requires i < |s.alerts|
  {
    var c := s.alerts[i].config;
    c.enabled ==>
      if s.alerts[i].triggered then Min(s.successes, c.successThreshold - 1) == Min(r.successes, c.successThreshold - 1)
      else Min(s.failures, c.failureThreshold - 1) == Min(r.failures, c.failureThreshold - 1)
  }

  /** Alert i is the same alert in both states, and its flag is equal. */
  predicate Twins(s: State, r: State, i: nat) {
    && i < |s.alerts| == |r.alerts|
    && s.alerts[i].config == r.alerts[i].config && s.alerts[i].triggered == r.alerts[i].triggered
  }

  lemma StepKeepsProspects(s: State, r: State, input: Input, i: nat)
    requires Twins(s, r, i) && SameProspects(s, r, i) && |input.attempts| == |s.alerts|
    ensures Twins(Step(s, input), Step(r, input), i) && SameProspects(Step(s, input), Step(r, input), i)
  {
    StepPerAlert(s, input, i);
    StepPerAlert(r, input, i);
    StepCounters(s, input);
    StepCounters(r, input);
  }

  lemma {:induction false} RunKeepsProspects(s: State, r: State, h: History<Input>, i: nat)
    requires Twins(s, r, i) && SameProspects(s, r, i) && Fits(h, |s.alerts|)
    ensures Twins(Run(s, h), Run(r, h), i) && SameProspects(Run(s, h), Run(r, h), i)
  {
    if h.Then? {
      RunKeepsProspects(s, r, h.before, i);
      StepKeepsProspects(Run(s, h.before), Run(r, h.before), h.last, i);
    }
  }

  /** n equal results, during which every provider delivers. */
  function Repeated(success: bool, alerts: nat, n: nat): History<Input> {
    if n == 0 then Start
    else Then(Repeated(success, alerts, n - 1), Input(success, seq(alerts, _ => Attempt(Delivers(""), n, n))))
  }

  lemma {:induction false} AfterSuccesses(s: State, i: nat, n: nat)
    requires i < |s.alerts| && s.alerts[i].config.enabled && s.alerts[i].triggered && n >= 1
    ensures var h := Repeated(true, |s.alerts|, n);
      && Fits(h, |s.alerts|) && Run(s, h).successes == s.successes + n
      && Run(s, h).alerts[i].config == s.alerts[i].config
      && (Run(s, h).alerts[i].triggered <==> s.successes + n < s.alerts[i].config.successThreshold)
  {
    var h := Repeated(true, |s.alerts|, n);
    if n > 1 {
      AfterSuccesses(s, i, n - 1);
    } else {
      assert Repeated(true, |s.alerts|, 0) == Start;
    }
    StepPerAlert(Run(s, h.before), h.last, i);
    StepCounters(Run(s, h.before), h.last);
  }

  lemma {:induction false} AfterFailures(s: State, i: nat, n: nat)
    requires i < |s.alerts| && s.alerts[i].config.enabled && !s.alerts[i].triggered && n >= 1
    ensures var h := Repeated(false, |s.alerts|, n);
      && Fits(h, |s.alerts|) && Run(s, h).failures == s.failures + n
      && Run(s, h).alerts[i].config == s.alerts[i].config
      && (Run(s, h).alerts[i].triggered <==> s.failures + n >= s.alerts[i].config.failureThreshold)
  {
    var h := Repeated(false, |s.alerts|, n);
    if n > 1 {
      AfterFailures(s, i, n - 1);
    } else {
      assert Repeated(false, |s.alerts|, 0) == Start;
    }
    StepPerAlert(Run(s, h.before), h.last, i);
    StepCounters(Run(s, h.before), h.last);
  }

  /** The results and outcomes to come never tell the two states apart by the flag of alert i. */
  ghost predicate Indistinguishable(s: State, r: State, i: nat)
    requires Twins(s, r, i)
  {
    forall h: History<Input> :: Fits(h, |s.alerts|) ==> SameFlag(s, r, i, h)
  }

  ghost predicate SameFlag(s: State, r: State, i: nat, h: History<Input>)
    requires Twins(s, r, i) && Fits(h, |s.alerts|)
  {
    Run(s, h).alerts[i].triggered == Run(r, h).alerts[i].triggered
  }

  /** Two states are indistinguishable to an alert exactly if their counters promise it the same. */
  lemma IndistinguishableIff(s: State, r: State, i: nat)
    requires Twins(s, r, i)
    ensures Indistinguishable(s, r, i) <==> SameProspects(s, r, i)
  {
    if SameProspects(s, r, i) {
      forall h: History<Input> | Fits(h, |s.alerts|) ensures SameFlag(s, r, i, h) {
        RunKeepsProspects(s, r, h, i);
      }
    } else {
      var h := TellsApart(s, r, i);
      assert !SameFlag(s, r, i, h);
    }
  }

  lemma TellsApart(s: State, r: State, i: nat) returns (h: History<Input>)
    requires Twins(s, r, i) && !SameProspects(s, r, i)
    ensures Fits(h, |s.alerts|) && !SameFlag(s, r, i, h)
  {
    var c := s.alerts[i].config;
    if s.alerts[i].triggered {
      var most := if s.successes < r.successes then r.successes else s.successes;
      var n := if most < c.successThreshold then c.successThreshold - most else 1;
      AfterSuccesses(s, i, n);
      AfterSuccesses(r, i, n);
      h := Repeated(true, |s.alerts|, n);
    } else {
      var most := if s.failures < r.failures then r.failures else s.failures;
      var n := if most < c.failureThreshold then c.failureThreshold - most else 1;
      AfterFailures(s, i, n);
      AfterFailures(r, i, n);
      h := Repeated(false, |s.alerts|, n);
    }
  }

  // ---------------------------------------------------------------------------------
  // What a restart puts in place
  // ---------------------------------------------------------------------------------

  /** The last triggered alert among the first n. */
  function LastTriggered(alerts: seq<Alert>, n: nat): (r: Option<nat>)
    requires n <= |alerts|
    ensures r.Some? ==> r.value < n && alerts[r.value].triggered
    ensures r.Some? ==> forall j :: r.value < j < n ==> !alerts[j].triggered
    ensures r.None? ==> forall j :: 0 <= j < n ==> !alerts[j].triggered
  {
    if n == 0 then None else if alerts[n - 1].triggered then Some(n - 1) else LastTriggered(alerts, n - 1)
  }

  /** The threshold of the last triggered alert stands in for the failures in a row. */
  function FailuresKept(s: State): int {
    match LastTriggered(s.alerts, |s.alerts|)
    case None => 0
    case Some(l) => s.alerts[l].config.failureThreshold
  }

  /** The row of the last triggered alert tells the successes in a row. */
  function SuccessesKept(s: State): int {
    match LastTriggered(s.alerts, |s.alerts|)
    case None => 0
    case Some(l) =>
      match RowOf(s.table, s.alerts[l].config.checksum)
      case None => 0
      case Some(row) => row.successes
  }

  /** A row exists exactly for the triggered alerts, disabled ones included. */
  lemma RowIffTriggered(s: State, i: nat)
    requires DistinctRows(s.alerts) && Mirror(s) && i < |s.alerts|
    ensures s.alerts[i].config.checksum in s.table <==> s.alerts[i].triggered
  {
    var c := s.alerts[i].config.checksum;
    assert RowMatchesAt(s, i);
    assert c in s.table ==> IsEnabledChecksum(s.alerts, c);
  }

  lemma {:induction false} CountersFromRows(s: State, loaded: State, n: nat)
    requires n <= |s.alerts| == |loaded.alerts| && loaded.table == s.table
    requires forall i :: 0 <= i < n ==> loaded.alerts[i].config == s.alerts[i].config
    requires forall i :: 0 <= i < n ==> (s.alerts[i].config.checksum in s.table <==> s.alerts[i].triggered)
    ensures var r := RestoreFirst(loaded, n);
      match LastTriggered(s.alerts, n)
      case None => r.failures == loaded.failures && r.successes == loaded.successes
      case Some(l) =>
        && r.failures == s.alerts[l].config.failureThreshold
        && r.successes == s.table[s.alerts[l].config.checksum].successes
  {
    if n > 0 {
      CountersFromRows(s, loaded, n - 1);
      RestoreFirstPerAlert(loaded, n - 1, n - 1);
    }
  }

  /** A restart sets the counters from the last triggered alert alone: its threshold, and the
      successes in its row. Without one it sets both to zero. */
  lemma RestartedCounters(s: State)
    requires DistinctRows(s.alerts) && Validated(s) && Mirror(s)
    ensures Restarted(s).failures == FailuresKept(s) && Restarted(s).successes == SuccessesKept(s)
  {
    forall i | 0 <= i < |s.alerts| ensures s.alerts[i].config.checksum in s.table <==> s.alerts[i].triggered {
      RowIffTriggered(s, i);
    }
    assert Pruned(s.table, EnabledChecksums(s.alerts)) == s.table by { RestartedTable(s); }
    CountersFromRows(s, Fresh(s).(table := s.table), |s.alerts|);
  }

  lemma RestartedTable(s: State)
    requires Mirror(s)
    ensures Pruned(s.table, EnabledChecksums(s.alerts)) == s.table
  {
  }

  // ---------------------------------------------------------------------------------
  // When a restart shows
  // ---------------------------------------------------------------------------------

  /** Whatever follows, the flag of alert i is as it would have been without a restart now. */
  ghost predicate RestartIsInvisible(s: State, i: nat) {
    Twins(s, Restarted(s), i) && Indistinguishable(s, Restarted(s), i)
  }

  /** What a restart puts in place of the counters promises alert i what they did. */
  predicate NothingIsLost(s: State, i: nat)
    requires i < |s.alerts|
  {
    var c := s.alerts[i].config;
    c.enabled ==>
      if s.alerts[i].triggered then
        Min(s.successes, c.successThreshold - 1) == Min(SuccessesKept(s), c.successThreshold - 1)
      else Min(s.failures, c.failureThreshold - 1) == Min(FailuresKept(s), c.failureThreshold - 1)
  }

  /** A restart is invisible to an alert exactly if the last triggered alert leaves it as many missing
      results as the counters did: successes in the row of that alert if it is triggered itself, the
      threshold of that alert if it is not. Beyond the last missing result nothing can be lost. */
  lemma RestartIsInvisibleIff(s: State, i: nat)
    requires DistinctRows(s.alerts) && Validated(s) && Mirror(s) && i < |s.alerts|
    ensures RestartIsInvisible(s, i) <==> NothingIsLost(s, i)
  {
    RestartRestoresTriggered(s);
    RestartedPerAlert(s, i);
    RestartedCounters(s);
    IndistinguishableIff(s, Restarted(s), i);
  }

  // ---------------------------------------------------------------------------------
  // After a success
  // ---------------------------------------------------------------------------------

  /** A handled success brings the row of every triggered alert up to date. */
  lemma SuccessIsPersisted(s: State, input: Input, i: nat)
    requires |input.attempts| == |s.alerts| && DistinctRows(s.alerts) && Validated(s) && Mirror(s) && input.success
    requires i < |s.alerts| && Step(s, input).alerts[i].triggered
    ensures Step(s, input).alerts[i].config == s.alerts[i].config
    ensures var row := RowOf(Step(s, input).table, s.alerts[i].config.checksum);
      row.Some? && row.value.successes == Step(s, input).successes
  {
    assert RowMatchesAt(s, i);
    StepPerAlert(s, input, i);
    StepRow(s, input, i);
    StepCounters(s, input);
  }

  /** A restart right after a handled success resumes counting successes where it was left, if some
      alert is triggered. */
  lemma RestartResumesSuccesses(s: State, input: Input)
    requires |input.attempts| == |s.alerts| && DistinctRows(s.alerts) && Validated(s) && Mirror(s) && input.success
    requires exists i :: 0 <= i < |s.alerts| && Step(s, input).alerts[i].triggered
    ensures Restarted(Step(s, input)).successes == Step(s, input).successes
  {
    var s' := Step(s, input);
    StepKeepsMirror(s, input);
    RestartedCounters(s');
    SuccessIsPersisted(s, input, LastTriggered(s'.alerts, |s'.alerts|).value);
  }

  /** After a handled success a restart is invisible to every triggered alert, and to the others if no
      alert is triggered. Otherwise it shows to every enabled alert that is not triggered and needs
      more than one failure: the threshold of the triggered one counts as failures it never saw. */
  lemma RestartAfterSuccess(s: State, input: Input, i: nat)
    requires |input.attempts| == |s.alerts| && DistinctRows(s.alerts) && Validated(s) && Mirror(s) && input.success
    requires i < |s.alerts|
    ensures var s' := Step(s, input);
      RestartIsInvisible(s', i) <==>
        || s'.alerts[i].triggered || !s.alerts[i].config.enabled || s.alerts[i].config.failureThreshold == 1
        || (forall j :: 0 <= j < |s.alerts| ==> !s'.alerts[j].triggered)
  {
    var s' := Step(s, input);
    StepKeepsMirror(s, input);
    StepCounters(s, input);
    StepPerAlert(s, input, i);
    RestartIsInvisibleIff(s', i);
    var last := LastTriggered(s'.alerts, |s'.alerts|);
    if last.Some? {
      SuccessIsPersisted(s, input, last.value);
    }
  }

  /** After a failure a restart is invisible to a triggered alert exactly if the row of the last
      triggered alert stores no successes, or the alert needs only one anyway: the failure reset
      the counter, but no row. */
  lemma StaleSuccessesShow(s: State, i: nat)
    requires DistinctRows(s.alerts) && Validated(s) && Mirror(s) && i < |s.alerts|
    requires s.alerts[i].triggered && s.successes == 0
    ensures RestartIsInvisible(s, i) <==>
      SuccessesKept(s) == 0 || (SuccessesKept(s) > 0 && s.alerts[i].config.successThreshold == 1)
  {
    assert RowMatchesAt(s, i);
    RestartIsInvisibleIff(s, i);
  }

  // ---------------------------------------------------------------------------------
  // Over whole runs
  // ---------------------------------------------------------------------------------

  ghost predicate NonNegative(s: State) {
    s.failures >= 0 && s.successes >= 0 && forall c :: c in s.table ==> s.table[c].successes >= 0
  }

  lemma {:induction false} TriggerFirstNonNegative(s: State, n: nat, attempts: seq<Attempt>)
    requires n <= |s.alerts| == |attempts| && NonNegative(s)
    ensures NonNegative(TriggerFirst(s, n, attempts))
  {
    if n > 0 {
      TriggerFirstNonNegative(s, n - 1, attempts);
    }
  }

  lemma {:induction false} ResolveFirstNonNegative(s: State, n: nat, attempts: seq<Attempt>)
    requires n <= |s.alerts| == |attempts| && NonNegative(s)
    ensures NonNegative(ResolveFirst(s, n, attempts))
  {
    if n > 0 {
      ResolveFirstNonNegative(s, n - 1, attempts);
    }
  }

  lemma {:induction false} PerformNonNegative(s: State, h: History<Action>)
    requires Clean(s) && Validated(s) && DistinctRows(s.alerts) && ActionsFit(h, |s.alerts|)
    ensures NonNegative(Perform(s, h))
  {
    if h.Then? {
      var before := Perform(s, h.before);
      PerformNonNegative(s, h.before);
      match h.last
      case Handle(input) =>
        if input.success {
          ResolveFirstNonNegative(before.(successes := before.successes + 1), |s.alerts|, input.attempts);
        } else {
          TriggerFirstNonNegative(before.(successes := 0, failures := before.failures + 1), |s.alerts|, input.attempts);
        }
      case Restart =>
        MirrorAlways(s, h.before);
        RestartRestoresTriggered(before);
        RestartedCounters(before);
    }
  }

  lemma {:induction false} PerformKeepsConfigs(s: State, h: History<Action>, i: nat)
    requires ActionsFit(h, |s.alerts|) && i < |s.alerts|
    ensures Perform(s, h).alerts[i].config == s.alerts[i].config
  {
    if h.Then? {
      PerformKeepsConfigs(s, h.before, i);
      match h.last
      case Handle(input) => StepPerAlert(Perform(s, h.before), input, i);
      case Restart => RestartedPerAlert(Perform(s, h.before), i);
    }
  }

  /** A result during which nothing is delivered for any of n alerts. */
  function Silent(success: bool, n: nat): Input {
    Input(success, seq(n, _ => Attempt(Fails, 0, 0)))
  }

  /** Failures that fire alert i only, a success and a failure. */
  function StaleRun(n: nat, i: nat, failures: nat): History<Action> {
    Then(Then(OnlyDelivers(n, i, failures), Handle(Silent(true, n))), Handle(Silent(false, n)))
  }

  /** Stale rows do occur: after enough failures, a success and a failure, an alert that needs two
      successes or more has a row with one success, although the last result was a failure. */
  lemma StaleRowIsReachable(s: State, i: nat) returns (h: History<Action>)
    requires Clean(s) && Validated(s) && DistinctRows(s.alerts) && i < |s.alerts|
    requires s.alerts[i].config.enabled && s.alerts[i].config.successThreshold >= 2
    ensures ActionsFit(h, |s.alerts|) && h == StaleRun(|s.alerts|, i, s.alerts[i].config.failureThreshold)
    ensures var s' := Perform(s, h);
      && s'.successes == 0 && s'.alerts[i].triggered
      && (forall j :: 0 <= j < |s.alerts| && j != i ==> !s'.alerts[j].triggered)
      && RowOf(s'.table, s.alerts[i].config.checksum).Some?
      && RowOf(s'.table, s.alerts[i].config.checksum).value.successes == 1
  {
    var n := |s.alerts|;
    var fired := OnlyDelivers(n, i, s.alerts[i].config.failureThreshold);
    h := StaleRun(n, i, s.alerts[i].config.failureThreshold);
    OnlyDeliversRun(s, i, s.alerts[i].config.failureThreshold);
    forall j | 0 <= j < n && j != i ensures !Perform(s, h).alerts[j].triggered {
      OthersStayQuiet(s, i, j, s.alerts[i].config.failureThreshold);
      StepPerAlert(Perform(s, fired), Silent(true, n), j);
      StepPerAlert(Perform(s, h.before), Silent(false, n), j);
    }
    MirrorAlways(s, fired);
    MirrorAlways(s, h.before);
    SuccessThenFailure(Perform(s, fired), i);
  }

  lemma SuccessThenFailure(s: State, i: nat)
    requires DistinctRows(s.alerts) && Validated(s) && Mirror(s) && i < |s.alerts|
    requires s.successes == 0 && s.alerts[i].triggered && s.alerts[i].config.successThreshold >= 2
    ensures var s' := Step(Step(s, Silent(true, |s.alerts|)), Silent(false, |s.alerts|));
      && s'.successes == 0 && s'.alerts[i].triggered
      && RowOf(s'.table, s.alerts[i].config.checksum).Some?
      && RowOf(s'.table, s.alerts[i].config.checksum).value.successes == 1
  {
    var up, down := Silent(true, |s.alerts|), Silent(false, |s.alerts|);
    var s1 := Step(s, up);
    assert RowMatchesAt(s, i);
    StepKeepsMirror(s, up);
    StepCounters(s, up);
    StepPerAlert(s, up, i);
    SuccessIsPersisted(s, up, i);
    StepCounters(s1, down);
    StepPerAlert(s1, down, i);
    StepRow(s1, down, i);
  }

  /** The restart that follows shows. */
  lemma StaleRowShows(s: State, i: nat) returns (h: History<Action>)
    requires Clean(s) && Validated(s) && DistinctRows(s.alerts) && i < |s.alerts|
    requires s.alerts[i].config.enabled && s.alerts[i].config.successThreshold >= 2
    ensures ActionsFit(h, |s.alerts|) && !RestartIsInvisible(Perform(s, h), i)
  {
    h := StaleRowIsReachable(s, i);
    MirrorAlways(s, h);
    PerformKeepsConfigs(s, h, i);
    RestartIsInvisibleIff(Perform(s, h), i);
  }

  /** So does one after a single failure, if an alert needs two or more. */
  lemma LostFailureShows(s: State, i: nat) returns (h: History<Action>)
    requires Clean(s) && Validated(s) && DistinctRows(s.alerts) && i < |s.alerts|
    requires s.alerts[i].config.enabled && s.alerts[i].config.failureThreshold >= 2
    ensures ActionsFit(h, |s.alerts|) && !RestartIsInvisible(Perform(s, h), i)
  {
    var n := |s.alerts|;
    h := Then(Start, Handle(Silent(false, n)));
    var s' := Perform(s, h);
    assert Perform(s, Start) == s;
    forall j | 0 <= j < n ensures !s'.alerts[j].triggered && s'.alerts[j].config == s.alerts[j].config {
      StepPerAlert(s, Silent(false, n), j);
    }
    StepCounters(s, Silent(false, n));
    MirrorAlways(s, h);
    RestartIsInvisibleIff(s', i);
  }

  /** Restarts are never visible to an alert, at any moment of any run, exactly if it is disabled or
      both its thresholds are one. */
  lemma AllRestartsAreInvisibleIff(s: State, i: nat)
    requires Clean(s) && Validated(s) && DistinctRows(s.alerts) && i < |s.alerts|
    ensures (forall h: History<Action> :: ActionsFit(h, |s.alerts|) ==> RestartIsInvisible(Perform(s, h), i)) <==>
      (s.alerts[i].config.enabled ==>
         s.alerts[i].config.failureThreshold == 1 && s.alerts[i].config.successThreshold == 1)
  {
    var c := s.alerts[i].config;
    if !c.enabled || (c.failureThreshold == 1 && c.successThreshold == 1) {
      forall h: History<Action> | ActionsFit(h, |s.alerts|) ensures RestartIsInvisible(Perform(s, h), i) {
        MirrorAlways(s, h);
        PerformKeepsConfigs(s, h, i);
        PerformNonNegative(s, h);
        KeptIsNonNegative(Perform(s, h));
        RestartIsInvisibleIff(Perform(s, h), i);
      }
    } else if c.successThreshold >= 2 {
      var h := StaleRowShows(s, i);
    } else {
      assert Validated(s) ==> c.failureThreshold >= 1 && c.successThreshold >= 1;
      var h := LostFailureShows(s, i);
    }
  }

  lemma KeptIsNonNegative(s: State)
    requires Validated(s) && NonNegative(s)
    ensures FailuresKept(s) >= 0 && SuccessesKept(s) >= 0
  {
  }

  // ---------------------------------------------------------------------------------
  // Endpoints of suites
  // ---------------------------------------------------------------------------------
  //
  // The alerts of the endpoints of suites are not restored: after a restart such an endpoint is as
  // fresh as the configuration, and its rows stay where they are.

  lemma {:induction false} RunPhase(s: State, h: History<Input>, i: nat)
    requires Fits(h, |s.alerts|) && i < |s.alerts| && Phase(s.log, i) == Some(s.alerts[i].triggered)
    ensures Phase(Run(s, h).log, i) == Some(Run(s, h).alerts[i].triggered)
  {
    if h.Then? {
      RunPhase(s, h.before, i);
      StepPhase(Run(s, h.before), h.last, i);
    }
  }

  lemma {:induction false} DisabledFirstPhase(s: State, n: nat, attempts: seq<Attempt>, i: nat)
    requires n <= |s.alerts| == |attempts| && i < |s.alerts| && !s.alerts[i].config.enabled
    ensures Phase(TriggerFirst(s, n, attempts).log, i) == Phase(s.log, i)
    ensures Phase(ResolveFirst(s, n, attempts).log, i) == Phase(s.log, i)
  {
    if n > 0 {
      DisabledFirstPhase(s, n - 1, attempts, i);
      TriggerFirstPerAlert(s, n - 1, attempts, n - 1);
      ResolveFirstPerAlert(s, n - 1, attempts, n - 1);
    }
  }

  lemma {:induction false} DisabledPhase(s: State, h: History<Input>, i: nat)
    requires Fits(h, |s.alerts|) && i < |s.alerts| && !s.alerts[i].config.enabled
    ensures Phase(Run(s, h).log, i) == Phase(s.log, i)
  {
    if h.Then? {
      DisabledPhase(s, h.before, i);
      RunKeepsConfigs(s, h.before, i);
      var before := Run(s, h.before);
      DisabledFirstPhase(before.(successes := before.successes + 1), |s.alerts|, h.last.attempts, i);
      DisabledFirstPhase(before.(successes := 0, failures := before.failures + 1), |s.alerts|, h.last.attempts, i);
    }
  }

  /** The log has a notification that the alert does not know of, or no longer alternates. */
  predicate Ahead(s: State, i: nat)
    requires i < |s.alerts|
  {
    Phase(s.log, i) == None || (Phase(s.log, i) == Some(true) && !s.alerts[i].triggered)
  }

  lemma {:induction false} TriggerFirstAhead(s: State, n: nat, attempts: seq<Attempt>, i: nat)
    requires n <= |s.alerts| == |attempts| && i < |s.alerts| && Ahead(s, i)
    ensures Ahead(TriggerFirst(s, n, attempts), i)
  {
    if n > 0 {
      TriggerFirstAhead(s, n - 1, attempts, i);
    }
  }

  lemma {:induction false} FailuresKeepAhead(s: State, i: nat, m: nat)
    requires i < |s.alerts| && Ahead(s, i)
    ensures Fits(Repeated(false, |s.alerts|, m), |s.alerts|) && Ahead(Run(s, Repeated(false, |s.alerts|, m)), i)
  {
    if m > 0 {
      FailuresKeepAhead(s, i, m - 1);
      var h := Repeated(false, |s.alerts|, m);
      var before := Run(s, h.before);
      TriggerFirstAhead(before.(successes := 0, failures := before.failures + 1), |s.alerts|, h.last.attempts, i);
    }
  }

  /** The delivered initial notifications and the resolutions of an alert of a suite endpoint go on
      alternating after a restart, whatever follows, exactly if the alert was not triggered or is
      disabled. Otherwise a notification can go out a second time. */
  lemma ForgottenAlternatesIff(s: State, i: nat)
    requires i < |s.alerts| && Validated(s) && Phase(s.log, i) == Some(s.alerts[i].triggered)
    ensures (forall h: History<Input> :: Fits(h, |s.alerts|) ==> Phase(Run(Fresh(s), h).log, i).Some?) <==>
      !(s.alerts[i].config.enabled && s.alerts[i].triggered)
  {
    var c := s.alerts[i].config;
    if c.enabled && s.alerts[i].triggered {
      var h := Repeated(false, |s.alerts|, c.failureThreshold);
      AfterFailures(Fresh(s), i, c.failureThreshold);
      FailuresKeepAhead(Fresh(s), i, c.failureThreshold);
      assert Phase(Run(Fresh(s), h).log, i) == None;
    } else {
      forall h: History<Input> | Fits(h, |s.alerts|) ensures Phase(Run(Fresh(s), h).log, i).Some? {
        if c.enabled {
          RunPhase(Fresh(s), h, i);
        } else {
          DisabledPhase(Fresh(s), h, i);
        }
      }
    }
  }
}
