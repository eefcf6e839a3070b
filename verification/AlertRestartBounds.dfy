/**
  How often an alert can notify if the process is restarted in between.
*/
module AlertRestartBounds {
  import opened Collections
  import opened GoStrings
  import opened Histories
  import opened Alerting
  import opened AlertTable
  import opened AlertRestarts
  import opened AlertRestartRuns

  /** The bound on the delivered initial notifications of alert i in n handled results. */
  predicate Bounded(r: State, i: nat, n: nat)
    requires i < |r.alerts|
  {
    var k, c := Initials(r.log, i), r.alerts[i].config;
    k * c.failureThreshold + (k - 1) * c.successThreshold <= n
  }

  /** What the notifications and resolutions of alert i should have cost. */
  function Spent(r: State, i: nat): int
    requires i < |r.alerts|
  {
    var k, c := Initials(r.log, i), r.alerts[i].config;
    k * c.failureThreshold + (if r.alerts[i].triggered then k - 1 else k) * c.successThreshold
  }

  /** What a step adds to that. */
  function Price(r: State, input: Input, i: nat): int
    requires i < |r.alerts| == |input.attempts|
  {
    var a := r.alerts[i];
    if !input.success && Initiates(a, r.failures + 1, input.attempts[i]) then a.config.failureThreshold
    else if input.success && Resolves(a, r.successes + 1) then a.config.successThreshold
    else 0
  }

  lemma SpentStep(r: State, input: Input, i: nat)
    requires i < |r.alerts| == |input.attempts|
    ensures Spent(Step(r, input), i) == Spent(r, i) + Price(r, input, i)
  {
    StepCounts(r, input, i);
    StepPerAlert(r, input, i);
    var k, f, s := Initials(r.log, i), r.alerts[i].config.failureThreshold, r.alerts[i].config.successThreshold;
    assert (k + 1) * f == k * f + f;
    assert (k - 1) * s + s == k * s;
  }

  lemma SpentRestarted(r: State, i: nat)
    requires Sound(r) && i < |r.alerts|
    ensures Spent(Restarted(r), i) == Spent(r, i)
  {
    RestartRestoresTriggered(r);
    RestartedPerAlert(r, i);
  }

  lemma SpentIsEnough(r: State, i: nat, n: nat)
    requires i < |r.alerts| && Spent(r, i) <= n && r.alerts[i].config.successThreshold >= 0
    ensures Bounded(r, i, n)
  {
    var k, s := Initials(r.log, i), r.alerts[i].config.successThreshold;
    assert k * s == (k - 1) * s + s;
  }

  // ---------------------------------------------------------------------------------
  // When the bound survives restarts
  // ---------------------------------------------------------------------------------

  /** No other enabled alert needs more successes than alert i. */
  predicate OthersResolveNoLater(s: State, i: nat)
    requires i < |s.alerts|
  {
    forall j :: 0 <= j < |s.alerts| && j != i && s.alerts[j].config.enabled ==>
      s.alerts[j].config.successThreshold <= s.alerts[i].config.successThreshold
  }

  /** The successes that the row of an alert tells. */
  function Stored(r: State, b: nat): int
    requires b < |r.alerts|
  {
    match RowOf(r.table, r.alerts[b].config.checksum)
    case None => 0
    case Some(row) => row.successes
  }

  /** n handled results cover what has been spent, together with everything that a restart may lend: the
      successes in any row, and as long as alert i is not triggered, the threshold of any triggered
      alert. */
  ghost predicate Covers(n: int, spent: int, r: State, i: nat)
    requires i < |r.alerts|
  {
    if r.alerts[i].triggered then
      && spent + r.successes <= n
      && forall b :: 0 <= b < |r.alerts| && r.alerts[b].triggered ==> spent + Stored(r, b) <= n
    else
      && spent + r.failures <= n
      && (forall b :: 0 <= b < |r.alerts| && r.alerts[b].triggered ==>
            spent + r.failures + Stored(r, b) <= n && spent + r.alerts[b].config.failureThreshold + r.successes <= n)
      && (forall a, b ::
            0 <= a < |r.alerts| && r.alerts[a].triggered && 0 <= b < |r.alerts| && r.alerts[b].triggered ==>
            spent + r.alerts[a].config.failureThreshold + Stored(r, b) <= n)
  }

  /** What is triggered after a failure was so before, with the same row, or has a row without successes. */
  lemma AfterOneFailure(r: State, input: Input, b: nat)
    requires Sound(r) && b < |r.alerts| == |input.attempts| && !input.success
    ensures Step(r, input).alerts[b].config == r.alerts[b].config
    ensures r.alerts[b].triggered ==> Step(r, input).alerts[b].triggered
    ensures Step(r, input).alerts[b].triggered ==>
      && (r.alerts[b].triggered || r.alerts[b].config.failureThreshold <= r.failures + 1)
      && (Stored(Step(r, input), b) == 0 || (r.alerts[b].triggered && Stored(Step(r, input), b) == Stored(r, b)))
  {
    assert RowMatchesAt(r, b);
    StepPerAlert(r, input, b);
    StepRow(r, input, b);
  }

  /** What is triggered after a success was so before, needs more successes, and has them in its row. */
  lemma AfterOneSuccess(r: State, input: Input, b: nat)
    requires Sound(r) && b < |r.alerts| == |input.attempts| && input.success
    ensures Step(r, input).alerts[b].config == r.alerts[b].config
    ensures Step(r, input).alerts[b].triggered ==>
      && r.alerts[b].triggered && r.alerts[b].config.enabled
      && r.successes + 1 < r.alerts[b].config.successThreshold && Stored(Step(r, input), b) == r.successes + 1
  {
    assert RowMatchesAt(r, b);
    StepPerAlert(r, input, b);
    StepRow(r, input, b);
  }

  lemma StoredIsNonNegative(r: State, b: nat)
    requires Sound(r) && b < |r.alerts|
    ensures Stored(r, b) >= 0
  {
  }

  lemma FailureIsCovered(r: State, input: Input, i: nat, spent: int, n: int)
    requires Sound(r) && i < |r.alerts| == |input.attempts| && !input.success && Covers(n, spent, r, i)
    ensures Covers(n + 1, spent + Price(r, input, i), Step(r, input), i)
  {
    var r' := Step(r, input);
    StepCounters(r, input);
    StepPerAlert(r, input, i);
    forall b | 0 <= b < |r.alerts|
      ensures r'.alerts[b].config == r.alerts[b].config
      ensures r.alerts[b].triggered ==> r'.alerts[b].triggered
      ensures r'.alerts[b].triggered ==>
        && (r.alerts[b].triggered || r.alerts[b].config.failureThreshold <= r.failures + 1)
        && (Stored(r', b) == 0 || (r.alerts[b].triggered && Stored(r', b) == Stored(r, b)))
    {
      AfterOneFailure(r, input, b);
    }
  }

  lemma SuccessIsCovered(r: State, input: Input, i: nat, spent: int, n: int)
    requires Sound(r) && i < |r.alerts| == |input.attempts| && input.success && Covers(n, spent, r, i)
    requires r.alerts[i].config.enabled ==> OthersResolveNoLater(r, i)
    ensures Covers(n + 1, spent + Price(r, input, i), Step(r, input), i)
  {
    var r' := Step(r, input);
    StepCounters(r, input);
    StepPerAlert(r, input, i);
    forall b | 0 <= b < |r.alerts|
      ensures r'.alerts[b].config == r.alerts[b].config
      ensures r'.alerts[b].triggered ==>
        && r.alerts[b].triggered && r.alerts[b].config.enabled
        && r.successes + 1 < r.alerts[b].config.successThreshold && Stored(r', b) == r.successes + 1
    {
      AfterOneSuccess(r, input, b);
    }
  }

  /** Covering depends on counters, flags, thresholds and rows only; a restart takes the counters from the
      last triggered alert. */
  lemma LentIsCovered(r: State, r': State, i: nat, spent: int, n: int)
    requires NonNegative(r) && i < |r.alerts| == |r'.alerts| && Covers(n, spent, r, i)
    requires forall b :: 0 <= b < |r.alerts| ==> SameForCovering(r, r', b)
    requires match LastTriggered(r.alerts, |r.alerts|)
      case None => r'.failures == 0 && r'.successes == 0
      case Some(l) => r'.failures == r.alerts[l].config.failureThreshold && r'.successes == Stored(r, l)
    ensures Covers(n, spent, r', i)
  {
    forall b | 0 <= b < |r.alerts|
      ensures r'.alerts[b].config == r.alerts[b].config && r'.alerts[b].triggered == r.alerts[b].triggered
      ensures Stored(r', b) == Stored(r, b)
    {
      assert SameForCovering(r, r', b);
    }
  }

  predicate SameForCovering(r: State, r': State, b: nat)
    requires b < |r.alerts| == |r'.alerts|
  {
    && r'.alerts[b].config == r.alerts[b].config && r'.alerts[b].triggered == r.alerts[b].triggered
    && Stored(r', b) == Stored(r, b)
  }

  lemma RestartIsCovered(r: State, i: nat, spent: int, n: int)
    requires Sound(r) && i < |r.alerts| && Covers(n, spent, r, i)
    ensures Covers(n, spent, Restarted(r), i)
  {
    RestartRestoresTriggered(r);
    RestartedCounters(r);
    forall b | 0 <= b < |r.alerts| ensures SameForCovering(r, Restarted(r), b) {
      RestartedPerAlert(r, b);
    }
    LentIsCovered(r, Restarted(r), i, spent, n);
  }

  lemma {:induction false} RunIsCovered(s: State, h: History<Action>, i: nat)
    requires Clean(s) && Validated(s) && DistinctRows(s.alerts) && ActionsFit(h, |s.alerts|) && i < |s.alerts|
    requires s.alerts[i].config.enabled ==> OthersResolveNoLater(s, i)
    ensures Covers(HandledResults(h), Spent(Perform(s, h), i), Perform(s, h), i)
  {
    if h.Then? {
      var before := Perform(s, h.before);
      RunIsCovered(s, h.before, i);
      PerformIsSound(s, h.before);
      forall j | 0 <= j < |s.alerts| ensures before.alerts[j].config == s.alerts[j].config {
        PerformKeepsConfigs(s, h.before, j);
      }
      match h.last
      case Handle(input) =>
        SpentStep(before, input, i);
        if input.success {
          SuccessIsCovered(before, input, i, Spent(before, i), HandledResults(h.before));
        } else {
          FailureIsCovered(before, input, i, Spent(before, i), HandledResults(h.before));
        }
      case Restart =>
        SpentRestarted(before, i);
        RestartIsCovered(before, i, Spent(before, i), HandledResults(h.before));
    }
  }

  /** The notification bound holds in every run with restarts if the alert is disabled, if no other enabled
      alert needs more successes, in particular if there is no other, or if one failure and one
      success are enough for it. */
  lemma NotificationBoundAcrossRestarts(s: State, h: History<Action>, i: nat)
    requires Clean(s) && Validated(s) && DistinctRows(s.alerts) && ActionsFit(h, |s.alerts|) && i < |s.alerts|
    requires var c := s.alerts[i].config;
      !c.enabled || OthersResolveNoLater(s, i) || (c.failureThreshold == 1 && c.successThreshold == 1)
    ensures Bounded(Perform(s, h), i, HandledResults(h))
  {
    PerformIsSound(s, h);
    if !s.alerts[i].config.enabled || OthersResolveNoLater(s, i) {
      RunIsCovered(s, h, i);
    } else {
      StepsAreEnough(s, h, i);
    }
    SpentIsEnough(Perform(s, h), i, HandledResults(h));
  }

  lemma {:induction false} StepsAreEnough(s: State, h: History<Action>, i: nat)
    requires Clean(s) && Validated(s) && DistinctRows(s.alerts) && ActionsFit(h, |s.alerts|) && i < |s.alerts|
    requires s.alerts[i].config.failureThreshold == s.alerts[i].config.successThreshold == 1
    ensures Spent(Perform(s, h), i) <= HandledResults(h)
  {
    if h.Then? {
      StepsAreEnough(s, h.before, i);
      PerformIsSound(s, h.before);
      PerformKeepsConfigs(s, h.before, i);
      match h.last
      case Handle(input) => SpentStep(Perform(s, h.before), input, i);
      case Restart => SpentRestarted(Perform(s, h.before), i);
    }
  }

  // ---------------------------------------------------------------------------------
  // When it does not
  // ---------------------------------------------------------------------------------

  /** m failures during which only the provider of alert i delivers. */
  function OnlyFailures(n: nat, i: nat, m: nat): History<Input> {
    if m == 0 then Start
    else Then(OnlyFailures(n, i, m - 1),
              Input(false, seq(n, k => Attempt(if k == i then Delivers("") else Fails, m, m))))
  }

  lemma {:induction false} AfterOnlyFailures(r: State, i: nat, m: nat)
    requires i < |r.alerts| && r.alerts[i].config.enabled && !r.alerts[i].triggered
    ensures var g := OnlyFailures(|r.alerts|, i, m);
      && Fits(g, |r.alerts|) && g.Length() == m
      && Run(r, g).failures == r.failures + m && Run(r, g).alerts[i].config == r.alerts[i].config
      && (Run(r, g).alerts[i].triggered <==> m > 0 && r.failures + m >= r.alerts[i].config.failureThreshold)
      && Initials(Run(r, g).log, i) == Initials(r.log, i) + if Run(r, g).alerts[i].triggered then 1 else 0
  {
    if m > 0 {
      AfterOnlyFailures(r, i, m - 1);
      var g := OnlyFailures(|r.alerts|, i, m);
      var before := Run(r, g.before);
      StepCounters(before, g.last);
      StepPerAlert(before, g.last, i);
      StepCounts(before, g.last, i);
    }
  }

  lemma {:induction false} OnlyFailuresSpareOthers(r: State, i: nat, l: nat, m: nat)
    requires i < |r.alerts| && l < |r.alerts| && l != i
    ensures Fits(OnlyFailures(|r.alerts|, i, m), |r.alerts|)
    ensures Run(r, OnlyFailures(|r.alerts|, i, m)).alerts[l] == r.alerts[l]
    ensures m > 0 ==> Run(r, OnlyFailures(|r.alerts|, i, m)).successes == 0
  {
    if m > 0 {
      OnlyFailuresSpareOthers(r, i, l, m - 1);
      var g := OnlyFailures(|r.alerts|, i, m);
      StepPerAlert(Run(r, g.before), g.last, l);
      StepCounters(Run(r, g.before), g.last);
    }
  }

  lemma {:induction false} AfterManySuccesses(r: State, l: nat, m: nat)
    requires l < |r.alerts|
    ensures var g := Repeated(true, |r.alerts|, m);
      && Fits(g, |r.alerts|) && g.Length() == m
      && Run(r, g).successes == r.successes + m
      && Run(r, g).alerts[l].config == r.alerts[l].config
      && Initials(Run(r, g).log, l) == Initials(r.log, l)
      && (Run(r, g).alerts[l].triggered <==>
            && r.alerts[l].triggered
            && !(m > 0 && r.alerts[l].config.enabled && r.successes + m >= r.alerts[l].config.successThreshold))
  {
    if m > 0 {
      AfterManySuccesses(r, l, m - 1);
      var g := Repeated(true, |r.alerts|, m);
      StepCounters(Run(r, g.before), g.last);
      StepPerAlert(Run(r, g.before), g.last, l);
      StepCounts(Run(r, g.before), g.last, l);
    }
  }

  /** Alert j alone is triggered, and its threshold has just been lent to the others. */
  ghost predicate Lending(s: State, r: State, i: nat, j: nat)
    requires i < |s.alerts| && j < |s.alerts| && i != j
  {
    && |r.alerts| == |s.alerts| && r.failures == s.alerts[j].config.failureThreshold
    && (forall l :: 0 <= l < |s.alerts| ==> r.alerts[l].config == s.alerts[l].config)
    && (forall l :: 0 <= l < |s.alerts| ==> (r.alerts[l].triggered <==> l == j))
  }

  /** Failures that fire alert i, successes that resolve it but not alert j, and a restart. */
  function Cycle(h: History<Action>, n: nat, i: nat, failures: nat, successes: nat): History<Action> {
    Then(Continued(Continued(h, OnlyFailures(n, i, failures)), Repeated(true, n, successes)), Restart)
  }

  /** The failures that alert i is still missing when the threshold of alert j has been lent to it. */
  function Missing(s: State, i: nat, j: nat): int
    requires i < |s.alerts| && j < |s.alerts|
  {
    var f, lent := s.alerts[i].config.failureThreshold, s.alerts[j].config.failureThreshold;
    if lent < f then f - lent else 1
  }

  lemma CycleNotifies(s: State, h: History<Action>, i: nat, j: nat)
    requires Clean(s) && Validated(s) && DistinctRows(s.alerts) && ActionsFit(h, |s.alerts|)
    requires i < |s.alerts| && j < |s.alerts| && i != j && Lending(s, Perform(s, h), i, j)
    requires s.alerts[i].config.enabled && s.alerts[j].config.enabled
    requires s.alerts[j].config.successThreshold > s.alerts[i].config.successThreshold
    ensures var h' := Cycle(h, |s.alerts|, i, Missing(s, i, j), s.alerts[i].config.successThreshold);
      && ActionsFit(h', |s.alerts|) && Lending(s, Perform(s, h'), i, j)
      && Initials(Perform(s, h').log, i) == Initials(Perform(s, h).log, i) + 1
      && HandledResults(h') == HandledResults(h) + Missing(s, i, j) + s.alerts[i].config.successThreshold
  {
    var n, m, up := |s.alerts|, Missing(s, i, j), s.alerts[i].config.successThreshold;
    var down := Continued(h, OnlyFailures(n, i, m));
    var risen := Continued(down, Repeated(true, n, up));
    var r := Perform(s, h);
    AfterOnlyFailures(r, i, m);
    PerformContinued(s, h, OnlyFailures(n, i, m));
    AfterManySuccesses(Perform(s, down), i, up);
    PerformContinued(s, down, Repeated(true, n, up));
    OnlyFailuresSpareOthers(r, i, j, m);
    forall l | 0 <= l < n
      ensures Perform(s, risen).alerts[l].config == s.alerts[l].config
      ensures Perform(s, risen).alerts[l].triggered <==> l == j
    {
      if l != i {
        OnlyFailuresSpareOthers(r, i, l, m);
      }
      AfterManySuccesses(Perform(s, down), l, up);
    }
    CycleEnds(s, risen, i, j);
  }

  lemma CycleEnds(s: State, h: History<Action>, i: nat, j: nat)
    requires Clean(s) && Validated(s) && DistinctRows(s.alerts) && ActionsFit(h, |s.alerts|)
    requires i < |s.alerts| && j < |s.alerts| && i != j
    requires forall l :: 0 <= l < |s.alerts| ==> (Perform(s, h).alerts[l].triggered <==> l == j)
    ensures Lending(s, Perform(s, Then(h, Restart)), i, j)
    ensures Perform(s, Then(h, Restart)).log == Perform(s, h).log
  {
    PerformIsSound(s, h);
    RestartRestoresTriggered(Perform(s, h));
    RestartedCounters(Perform(s, h));
    forall l | 0 <= l < |s.alerts| ensures Perform(s, Then(h, Restart)).alerts[l].config == s.alerts[l].config {
      PerformKeepsConfigs(s, Then(h, Restart), l);
    }
    PerformKeepsConfigs(s, h, j);
  }

  lemma {:induction false} ManyCycles(s: State, i: nat, j: nat, q: nat) returns (h: History<Action>)
    requires Clean(s) && Validated(s) && DistinctRows(s.alerts)
    requires i < |s.alerts| && j < |s.alerts| && i != j
    requires s.alerts[i].config.enabled && s.alerts[j].config.enabled
    requires s.alerts[j].config.successThreshold > s.alerts[i].config.successThreshold
    ensures ActionsFit(h, |s.alerts|) && Lending(s, Perform(s, h), i, j)
    ensures Initials(Perform(s, h).log, i) >= q
    ensures HandledResults(h) == s.alerts[j].config.failureThreshold
              + q * (Missing(s, i, j) + s.alerts[i].config.successThreshold)
    decreases q
  {
    var n, lent := |s.alerts|, s.alerts[j].config.failureThreshold;
    if q == 0 {
      var fired := OnlyDelivers(n, j, lent);
      OnlyDeliversRun(s, j, lent);
      OnlyDeliversCounts(n, j, lent);
      forall l | 0 <= l < n ensures Perform(s, fired).alerts[l].triggered <==> l == j {
        if l != j {
          OthersStayQuiet(s, j, l, lent);
        }
      }
      CycleEnds(s, fired, i, j);
      h := Then(fired, Restart);
    } else {
      var before := ManyCycles(s, i, j, q - 1);
      CycleNotifies(s, before, i, j);
      h := Cycle(before, n, i, Missing(s, i, j), s.alerts[i].config.successThreshold);
      var cost := Missing(s, i, j) + s.alerts[i].config.successThreshold;
      assert q * cost == (q - 1) * cost + cost;
    }
  }

  lemma TooMany(k: int, q: int, f: int, st: int, m: int, n: int)
    requires k >= q >= 1 && f >= 2 && st >= 1 && 1 <= m < f && q > n + st
    ensures k * f + (k - 1) * st > n + q * (m + st)
  {
    MulMonotone(q, k, f);
    MulMonotone(q - 1, k - 1, st);
    MulMonotone(m + 1, f, q);
    assert (m + 1) * q == q * m + q && f * q == q * f;
    assert q * (m + st) == q * m + (q - 1) * st + st;
  }

  /** A run with restarts in which alert i notifies too often: each restart lends it failures that only
      alert j has seen. */
  lemma BoundIsBroken(s: State, i: nat, j: nat) returns (h: History<Action>)
    requires Clean(s) && Validated(s) && DistinctRows(s.alerts)
    requires i < |s.alerts| && j < |s.alerts| && i != j
    requires s.alerts[i].config.enabled && s.alerts[j].config.enabled
    requires s.alerts[i].config.failureThreshold >= 2
    requires s.alerts[j].config.successThreshold > s.alerts[i].config.successThreshold
    ensures ActionsFit(h, |s.alerts|) && !Bounded(Perform(s, h), i, HandledResults(h))
  {
    var c, lent := s.alerts[i].config, s.alerts[j].config.failureThreshold;
    var q := lent + c.successThreshold + 1;
    h := ManyCycles(s, i, j, q);
    TooMany(Initials(Perform(s, h).log, i), q, c.failureThreshold, c.successThreshold, Missing(s, i, j), lent);
  }

  /** For an alert that needs two failures or more the bound holds in every run with restarts exactly if it
      is disabled or no other enabled alert needs more successes. */
  lemma NotificationBoundIff(s: State, i: nat)
    requires Clean(s) && Validated(s) && DistinctRows(s.alerts) && i < |s.alerts|
    requires s.alerts[i].config.failureThreshold >= 2
    ensures (forall h: History<Action> :: ActionsFit(h, |s.alerts|) ==>
               Bounded(Perform(s, h), i, HandledResults(h))) <==>
            !s.alerts[i].config.enabled || OthersResolveNoLater(s, i)
  {
    if !s.alerts[i].config.enabled || OthersResolveNoLater(s, i) {
      forall h: History<Action> | ActionsFit(h, |s.alerts|) ensures Bounded(Perform(s, h), i, HandledResults(h)) {
        NotificationBoundAcrossRestarts(s, h, i);
      }
    } else {
      var j :| 0 <= j < |s.alerts| && j != i && s.alerts[j].config.enabled
               && s.alerts[j].config.successThreshold > s.alerts[i].config.successThreshold;
      var h := BoundIsBroken(s, i, j);
    }
  }

  // ---------------------------------------------------------------------------------
  // Any company
  // ---------------------------------------------------------------------------------

  /** s is an endpoint that has handled nothing yet and has c as its alert i. */
  ghost predicate Accompanied(c: AlertConfig, s: State, i: nat) {
    Clean(s) && Validated(s) && DistinctRows(s.alerts) && i < |s.alerts| && s.alerts[i].config == c
  }

  /** An alert that needs one failure and two successes more than another. */
  function Companion(c: AlertConfig): AlertConfig {
    AlertConfig(true, 1, c.successThreshold + 2, 0, false, c.checksum + "x")
  }

  /** An endpoint with an alert and its companion. */
  function Pair(c: AlertConfig): State {
    State(0, 0, ZERO_TIME, [Alert(c, false, ""), Alert(Companion(c), false, "")], map[], Start)
  }

  lemma PairIsClean(c: AlertConfig)
    requires c.failureThreshold >= 1 && c.successThreshold >= 1
    ensures Accompanied(c, Pair(c), 0)
  {
  }

  /** A failure that every provider delivers. */
  function Down(n: nat): Input {
    Input(false, seq(n, _ => Attempt(Delivers(""), 0, 0)))
  }

  /** Both alerts fire, the first is resolved by its successes, and the second is left with a row that tells
      as many. */
  lemma PairFires(c: AlertConfig)
    requires c.enabled && c.failureThreshold == 1 && c.successThreshold >= 2
    ensures var h := Then(Start, Handle(Down(2)));
      && ActionsFit(h, 2) && HandledResults(h) == 1
      && var r := Perform(Pair(c), h);
      && |r.alerts| == 2 && r.alerts[0].config == c && r.alerts[1].config == Companion(c)
      && r.alerts[0].triggered && r.alerts[1].triggered && r.successes == 0 && Initials(r.log, 0) == 1
  {
    var s := Pair(c);
    assert Perform(s, Start) == s && HandledResults(Start) == 0;
    StepCounters(s, Down(2));
    StepPerAlert(s, Down(2), 0);
    StepPerAlert(s, Down(2), 1);
    StepCounts(s, Down(2), 0);
  }

  lemma PairResolvesFirst(c: AlertConfig)
    requires c.enabled && c.failureThreshold == 1 && c.successThreshold >= 2
    ensures var h := Continued(Then(Start, Handle(Down(2))), Repeated(true, 2, c.successThreshold));
      && ActionsFit(h, 2) && HandledResults(h) == 1 + c.successThreshold
      && var r := Perform(Pair(c), h);
      && Sound(r) && r.alerts[0].config == c && r.alerts[1].config == Companion(c)
      && !r.alerts[0].triggered && r.alerts[1].triggered && Stored(r, 1) == c.successThreshold
      && Initials(r.log, 0) == 1
  {
    var s, m := Pair(c), c.successThreshold;
    var h1 := Then(Start, Handle(Down(2)));
    PairIsClean(c);
    PairFires(c);
    var r1 := Perform(s, h1);
    AfterManySuccesses(r1, 0, m);
    AfterManySuccesses(r1, 1, m);
    PerformContinued(s, h1, Repeated(true, 2, m));
    PerformIsSound(s, Continued(h1, Repeated(true, 2, m)));
    PerformContinued(s, h1, Repeated(true, 2, m - 1));
    PerformIsSound(s, Continued(h1, Repeated(true, 2, m - 1)));
    AfterManySuccesses(r1, 1, m - 1);
    AfterOneSuccess(Run(r1, Repeated(true, 2, m - 1)), Repeated(true, 2, m).last, 1);
  }

  /** A failure fires the first alert again, a restart lends it the successes in the row of the second, one
      success resolves it, and a failure fires it once more. */
  lemma PairNotifiesAgain(s: State, h: History<Action>, c: AlertConfig) returns (h': History<Action>)
    requires ActionsFit(h, 2) && |s.alerts| == 2 && c.enabled && c.failureThreshold == 1 && c.successThreshold >= 2
    requires var r := Perform(s, h);
      && Sound(r) && r.alerts[0].config == c && r.alerts[1].config == Companion(c)
      && !r.alerts[0].triggered && r.alerts[1].triggered && Stored(r, 1) == c.successThreshold
    ensures ActionsFit(h', 2) && HandledResults(h') == HandledResults(h) + 3
    ensures Initials(Perform(s, h').log, 0) == Initials(Perform(s, h).log, 0) + 2
    ensures Perform(s, h').alerts[0].config == c
  {
    h' := OnceMore(h);
    PerformOnceMore(s, h);
    FiresAgain(Perform(s, h), c);
    FiresOnceMore(Step(Perform(s, h), Down(2)), c);
  }

  /** A failure, a restart, a success and a failure. */
  function OnceMore(h: History<Action>): History<Action> {
    Then(Then(Then(Then(h, Handle(Down(2))), Restart), Handle(Silent(true, 2))), Handle(Down(2)))
  }

  lemma PerformOnceMore(s: State, h: History<Action>)
    requires ActionsFit(h, 2) && |s.alerts| == 2
    ensures ActionsFit(OnceMore(h), 2) && HandledResults(OnceMore(h)) == HandledResults(h) + 3
    ensures Perform(s, OnceMore(h)) == Step(Step(Restarted(Step(Perform(s, h), Down(2))), Silent(true, 2)), Down(2))
  {
    var h1 := Then(h, Handle(Down(2)));
    var h2 := Then(h1, Restart);
    var h3 := Then(h2, Handle(Silent(true, 2)));
    assert ActionsFit(h1, 2) && ActionsFit(h2, 2) && ActionsFit(h3, 2);
    assert HandledResults(h1) == HandledResults(h) + 1 && HandledResults(h2) == HandledResults(h1);
    assert HandledResults(h3) == HandledResults(h2) + 1 && HandledResults(OnceMore(h)) == HandledResults(h3) + 1;
    assert Perform(s, h1) == Step(Perform(s, h), Down(2)) && Perform(s, h2) == Restarted(Perform(s, h1));
    assert Perform(s, h3) == Step(Perform(s, h2), Silent(true, 2));
    assert Perform(s, OnceMore(h)) == Step(Perform(s, h3), Down(2));
  }

  lemma FiresOnceMore(r: State, c: AlertConfig)
    requires |r.alerts| == 2 && c.enabled && c.failureThreshold == 1 && c.successThreshold >= 2
    requires Sound(r) && r.alerts[0].config == c && r.alerts[0].triggered && SuccessesKept(r) == c.successThreshold
    ensures var r' := Step(Step(Restarted(r), Silent(true, 2)), Down(2));
      r'.alerts[0].config == c && Initials(r'.log, 0) == Initials(r.log, 0) + 1
  {
    RestartRestoresTriggered(r);
    RestartedCounters(r);
    RestartedPerAlert(r, 0);
    ResolvedThenFires(Restarted(r), c);
  }

  lemma ResolvedThenFires(r: State, c: AlertConfig)
    requires |r.alerts| == 2 && c.enabled && c.failureThreshold == 1
    requires r.alerts[0].config == c && r.alerts[0].triggered && r.successes >= c.successThreshold
    ensures var r' := Step(Step(r, Silent(true, 2)), Down(2));
      r'.alerts[0].config == c && Initials(r'.log, 0) == Initials(r.log, 0) + 1
  {
    var r1 := Step(r, Silent(true, 2));
    StepPerAlert(r, Silent(true, 2), 0);
    StepCounts(r, Silent(true, 2), 0);
    StepCounters(r, Silent(true, 2));
    StepCounts(r1, Down(2), 0);
    StepPerAlert(r1, Down(2), 0);
  }

  lemma FiresAgain(r: State, c: AlertConfig)
    requires |r.alerts| == 2 && c.enabled && c.failureThreshold == 1 && c.successThreshold >= 2
    requires Sound(r) && r.alerts[0].config == c && r.alerts[1].config == Companion(c)
    requires !r.alerts[0].triggered && r.alerts[1].triggered && Stored(r, 1) == c.successThreshold
    ensures var r1 := Step(r, Down(2));
      && Sound(r1) && r1.alerts[0].config == c && r1.alerts[1].config == Companion(c)
      && r1.alerts[0].triggered && r1.alerts[1].triggered && Stored(r1, 1) == c.successThreshold
      && SuccessesKept(r1) == c.successThreshold
      && Initials(r1.log, 0) == Initials(r.log, 0) + 1
  {
    var down := Down(2);
    StepKeepsMirror(r, down);
    TriggerFirstNonNegative(r.(successes := 0, failures := r.failures + 1), 2, down.attempts);
    StepPerAlert(r, down, 0);
    StepPerAlert(r, down, 1);
    StepCounts(r, down, 0);
    assert RowMatchesAt(r, 1);
    StepRow(r, down, 1);
  }

  /** In some company an alert that needs one failure and more than one success notifies too often. */
  lemma CompanyBreaksBound(c: AlertConfig) returns (h: History<Action>)
    requires c.enabled && c.failureThreshold == 1 && c.successThreshold >= 2
    ensures ActionsFit(h, 2) && !Bounded(Perform(Pair(c), h), 0, HandledResults(h))
  {
    PairResolvesFirst(c);
    h := PairNotifiesAgain(Pair(c), Continued(Then(Start, Handle(Down(2))), Repeated(true, 2, c.successThreshold)), c);
  }

  /** The thresholds of an alert guarantee the bound in every company and every run with restarts exactly if
      the alert is disabled or both are one. */
  lemma BoundInAnyCompanyIff(c: AlertConfig)
    requires c.failureThreshold >= 1 && c.successThreshold >= 1
    ensures (forall s, i, h: History<Action> :: Accompanied(c, s, i) && ActionsFit(h, |s.alerts|) ==>
               Bounded(Perform(s, h), i, HandledResults(h))) <==>
            !c.enabled || (c.failureThreshold == 1 && c.successThreshold == 1)
  {
    if !c.enabled || (c.failureThreshold == 1 && c.successThreshold == 1) {
      forall s, i, h: History<Action> | Accompanied(c, s, i) && ActionsFit(h, |s.alerts|)
        ensures Bounded(Perform(s, h), i, HandledResults(h))
      {
        NotificationBoundAcrossRestarts(s, h, i);
      }
    } else {
      PairIsClean(c);
      if c.failureThreshold >= 2 {
        var h := BoundIsBroken(Pair(c), 0, 1);
      } else {
        var h := CompanyBreaksBound(c);
      }
    }
  }
}
