/**
  The table of triggered alerts: it mirrors the triggered flags after every step, and a restart
  (`initializeStorage` in app/main.go) restores them from it.
*/
module AlertTable {
  import opened GoStrings
  import opened Histories
  import opened Alerting

  /** The row of an enabled alert is not shared with any other alert. */
  ghost predicate DistinctRows(alerts: seq<Alert>) {
    forall i, j :: 0 <= i < |alerts| && 0 <= j < |alerts| && i != j && alerts[i].config.enabled ==>
      alerts[i].config.checksum != alerts[j].config.checksum
  }

  function RowOf(table: map<string, Row>, checksum: string): Option<Row> {
    if checksum in table then Some(table[checksum]) else None
  }

  // ---------------------------------------------------------------------------------
  // What a step does to each row
  // ---------------------------------------------------------------------------------

  /** Whether something is delivered for an alert after a failure. */
  predicate DeliversAfterFailure(a: Alert, failures: int, reference: int, att: Attempt) {
    Due(a, failures, reference, att.checkedAt).Some? && att.outcome.Delivers?
  }

  function RowAfterFailure(a: Alert, failures: int, successes: int, reference: int, att: Attempt,
                           row: Option<Row>): Option<Row> {
    if DeliversAfterFailure(a, failures, reference, att) then Some(Row(att.outcome.resolveKey, successes)) else row
  }

  function RowAfterSuccess(a: Alert, successes: int, row: Option<Row>): Option<Row> {
    if !a.config.enabled || !a.triggered then row
    else if a.config.successThreshold > successes then Some(Row(a.resolveKey, successes))
    else None
  }

  lemma {:induction false} TriggerFirstRow(s: State, n: nat, attempts: seq<Attempt>, i: nat)
    requires n <= |s.alerts| == |attempts| && i < |s.alerts| && DistinctRows(s.alerts)
    ensures RowOf(TriggerFirst(s, n, attempts).table, s.alerts[i].config.checksum) ==
            if i < n then RowAfterFailure(s.alerts[i], s.failures, s.successes, s.lastReminderSent, attempts[i],
                                          RowOf(s.table, s.alerts[i].config.checksum))
            else RowOf(s.table, s.alerts[i].config.checksum)
  {
    if n > 0 {
      TriggerFirstRow(s, n - 1, attempts, i);
      TriggerFirstPerAlert(s, n - 1, attempts, n - 1);
    }
  }

  lemma {:induction false} TriggerFirstOtherRow(s: State, n: nat, attempts: seq<Attempt>, checksum: string)
    requires n <= |s.alerts| == |attempts|
    requires forall i :: 0 <= i < |s.alerts| && s.alerts[i].config.enabled ==> s.alerts[i].config.checksum != checksum
    ensures RowOf(TriggerFirst(s, n, attempts).table, checksum) == RowOf(s.table, checksum)
  {
    if n > 0 {
      TriggerFirstOtherRow(s, n - 1, attempts, checksum);
      TriggerFirstPerAlert(s, n - 1, attempts, n - 1);
    }
  }

  lemma {:induction false} ResolveFirstRow(s: State, n: nat, attempts: seq<Attempt>, i: nat)
    requires n <= |s.alerts| == |attempts| && i < |s.alerts| && DistinctRows(s.alerts)
    ensures RowOf(ResolveFirst(s, n, attempts).table, s.alerts[i].config.checksum) ==
            if i < n then RowAfterSuccess(s.alerts[i], s.successes, RowOf(s.table, s.alerts[i].config.checksum))
            else RowOf(s.table, s.alerts[i].config.checksum)
  {
    if n > 0 {
      ResolveFirstRow(s, n - 1, attempts, i);
      ResolveFirstPerAlert(s, n - 1, attempts, n - 1);
    }
  }

  lemma {:induction false} ResolveFirstOtherRow(s: State, n: nat, attempts: seq<Attempt>, checksum: string)
    requires n <= |s.alerts| == |attempts|
    requires forall i :: 0 <= i < |s.alerts| && s.alerts[i].config.enabled ==> s.alerts[i].config.checksum != checksum
    ensures RowOf(ResolveFirst(s, n, attempts).table, checksum) == RowOf(s.table, checksum)
  {
    if n > 0 {
      ResolveFirstOtherRow(s, n - 1, attempts, checksum);
      ResolveFirstPerAlert(s, n - 1, attempts, n - 1);
    }
  }

  lemma StepRow(s: State, input: Input, i: nat)
    requires |input.attempts| == |s.alerts| && i < |s.alerts| && DistinctRows(s.alerts)
    ensures var row := RowOf(s.table, s.alerts[i].config.checksum);
      RowOf(Step(s, input).table, s.alerts[i].config.checksum) ==
        if input.success then RowAfterSuccess(s.alerts[i], s.successes + 1, row)
        else RowAfterFailure(s.alerts[i], s.failures + 1, 0, s.lastReminderSent, input.attempts[i], row)
  {
    if input.success {
      ResolveFirstRow(s.(successes := s.successes + 1), |s.alerts|, input.attempts, i);
    } else {
      TriggerFirstRow(s.(successes := 0, failures := s.failures + 1), |s.alerts|, input.attempts, i);
    }
  }

  lemma StepOtherRow(s: State, input: Input, checksum: string)
    requires |input.attempts| == |s.alerts|
    requires forall i :: 0 <= i < |s.alerts| && s.alerts[i].config.enabled ==> s.alerts[i].config.checksum != checksum
    ensures RowOf(Step(s, input).table, checksum) == RowOf(s.table, checksum)
  {
    if input.success {
      ResolveFirstOtherRow(s.(successes := s.successes + 1), |s.alerts|, input.attempts, checksum);
    } else {
      TriggerFirstOtherRow(s.(successes := 0, failures := s.failures + 1), |s.alerts|, input.attempts, checksum);
    }
  }

  // ---------------------------------------------------------------------------------
  // Restart
  // ---------------------------------------------------------------------------------

  ghost predicate IsEnabledChecksum(alerts: seq<Alert>, checksum: string) {
    exists i :: 0 <= i < |alerts| && alerts[i].config.enabled && alerts[i].config.checksum == checksum
  }

  /** The checksums of the enabled alerts, as collected before the table is pruned. */
  function EnabledChecksums(alerts: seq<Alert>): (checksums: set<string>)
    ensures forall c :: c in checksums <==> IsEnabledChecksum(alerts, c)
  {
    set i | 0 <= i < |alerts| && alerts[i].config.enabled :: alerts[i].config.checksum
  }

  lemma EnabledChecksumsGrow(alerts: seq<Alert>, i: nat)
    requires i < |alerts|
    ensures EnabledChecksums(alerts[..i + 1]) ==
            EnabledChecksums(alerts[..i]) + if alerts[i].config.enabled then {alerts[i].config.checksum} else {}
  {
    var shorter, longer := alerts[..i], alerts[..i + 1];
    forall c ensures IsEnabledChecksum(longer, c) <==>
      IsEnabledChecksum(shorter, c) || (alerts[i].config.enabled && c == alerts[i].config.checksum)
    {
      if k :| 0 <= k < |shorter| && shorter[k].config.enabled && shorter[k].config.checksum == c {
        assert longer[k] == shorter[k];
      }
      assert longer[i] == alerts[i];
    }
  }

  /** One iteration of the loop that loads triggered alerts. */
  function RestoreOne(s: State, i: nat): (s': State)
    requires i < |s.alerts|
    ensures |s'.alerts| == |s.alerts| && s'.table == s.table
  {
    var a := s.alerts[i];
    if a.config.checksum !in s.table then s
    else
      var row := s.table[a.config.checksum];
      s.(alerts := s.alerts[i := a.(triggered := true, resolveKey := row.resolveKey)],
         successes := row.successes, failures := a.config.failureThreshold)
  }

  function RestoreFirst(s: State, n: nat): (s': State)
    requires n <= |s.alerts|
    ensures |s'.alerts| == |s.alerts| && s'.table == s.table
  {
    if n == 0 then s else RestoreOne(RestoreFirst(s, n - 1), n - 1)
  }

  /** What the configuration file says of an alert. */
  function Reloaded(a: Alert): Alert {
    Alert(a.config, false, "")
  }

  /** A process that has just loaded the same configuration; only the table survives. */
  function Fresh(s: State): (s': State)
    ensures |s'.alerts| == |s.alerts|
    ensures forall i :: 0 <= i < |s.alerts| ==> s'.alerts[i] == Reloaded(s.alerts[i])
  {
    s.(failures := 0, successes := 0, lastReminderSent := ZERO_TIME,
       alerts := seq(|s.alerts|, i requires 0 <= i < |s.alerts| => Reloaded(s.alerts[i])))
  }

  function Pruned(table: map<string, Row>, checksums: set<string>): map<string, Row> {
    map c | c in table && c in checksums :: table[c]
  }

  /** `initializeStorage`, for one endpoint. */
  function Restarted(s: State): (s': State)
    ensures |s'.alerts| == |s.alerts|
  {
    RestoreFirst(Fresh(s).(table := Pruned(s.table, EnabledChecksums(s.alerts))), |s.alerts|)
  }

  function Restored(a: Alert, table: map<string, Row>): Alert {
    if a.config.checksum in table then a.(triggered := true, resolveKey := table[a.config.checksum].resolveKey) else a
  }

  lemma {:induction false} RestoreFirstPerAlert(s: State, n: nat, i: nat)
    requires n <= |s.alerts| && i < |s.alerts|
    ensures RestoreFirst(s, n).alerts[i] == if i < n then Restored(s.alerts[i], s.table) else s.alerts[i]
    ensures RestoreFirst(s, n).log == s.log
  {
    if n > 0 {
      RestoreFirstPerAlert(s, n - 1, i);
      RestoreFirstPerAlert(s, n - 1, n - 1);
    }
  }

  lemma RestartedPerAlert(s: State, i: nat)
    requires i < |s.alerts|
    ensures Restarted(s).alerts[i] == Restored(Reloaded(s.alerts[i]), Pruned(s.table, EnabledChecksums(s.alerts)))
    ensures Restarted(s).table == Pruned(s.table, EnabledChecksums(s.alerts))
    ensures Restarted(s).log == s.log
  {
    RestoreFirstPerAlert(Fresh(s).(table := Pruned(s.table, EnabledChecksums(s.alerts))), |s.alerts|, i);
  }

  /** Whatever the table held, after a restart it holds exactly the rows of enabled alerts, as they were. */
  lemma RestartPrunes(s: State, c: string)
    ensures RowOf(Restarted(s).table, c) == if IsEnabledChecksum(s.alerts, c) then RowOf(s.table, c) else None
  {
  }

  // ---------------------------------------------------------------------------------
  // Restart with another configuration
  // ---------------------------------------------------------------------------------

  /** A process that has just loaded another configuration. */
  function Loaded(s: State, configs: seq<AlertConfig>): (s': State)
    ensures |s'.alerts| == |configs|
    ensures forall i :: 0 <= i < |configs| ==> s'.alerts[i] == Alert(configs[i], false, "")
  {
    var alerts := seq(|configs|, i requires 0 <= i < |configs| => Alert(configs[i], false, ""));
    State(0, 0, ZERO_TIME, alerts, s.table, s.log)
  }

  /** `initializeStorage` after the configuration of the endpoint has been edited. */
  function Reconfigured(s: State, configs: seq<AlertConfig>): (s': State)
    ensures |s'.alerts| == |configs|
  {
    Restarted(Loaded(s, configs))
  }

  /** An enabled alert of the configuration has the checksum. */
  ghost predicate IsConfigured(configs: seq<AlertConfig>, c: string) {
    exists i :: 0 <= i < |configs| && configs[i].enabled && configs[i].checksum == c
  }

  lemma LoadedChecksums(s: State, configs: seq<AlertConfig>, c: string)
    ensures IsEnabledChecksum(Loaded(s, configs).alerts, c) <==> IsConfigured(configs, c)
  {
    var loaded := Loaded(s, configs);
    if i :| 0 <= i < |configs| && configs[i].enabled && configs[i].checksum == c {
      assert loaded.alerts[i].config == configs[i];
    }
    if i :| 0 <= i < |configs| && loaded.alerts[i].config.enabled && loaded.alerts[i].config.checksum == c {
      assert loaded.alerts[i].config == configs[i];
    }
  }

  /** How an alert starts: triggered exactly if there is a row for an enabled alert with its checksum, with
      the resolve key of the row. */
  ghost function Started(s: State, configs: seq<AlertConfig>, i: nat): Alert
    requires i < |configs|
  {
    var row := if IsConfigured(configs, configs[i].checksum) then RowOf(s.table, configs[i].checksum) else None;
    Alert(configs[i], row.Some?, if row.Some? then row.value.resolveKey else "")
  }

  /** Rows of definitions that have been dropped, edited or disabled go; the others stay as they are. An
      alert starts triggered exactly if it has such a row, with the resolve key that the row tells. */
  lemma ReconfiguredIs(s: State, configs: seq<AlertConfig>)
    ensures forall c ::
      RowOf(Reconfigured(s, configs).table, c) == (if IsConfigured(configs, c) then RowOf(s.table, c) else None)
    ensures Reconfigured(s, configs).log == s.log
    ensures forall i :: 0 <= i < |configs| ==> Reconfigured(s, configs).alerts[i] == Started(s, configs, i)
  {
    var loaded := Loaded(s, configs);
    RestoreFirstKeepsLog(Fresh(loaded).(table := Pruned(s.table, EnabledChecksums(loaded.alerts))), |configs|);
    forall c ensures RowOf(Reconfigured(s, configs).table, c) ==
      if IsConfigured(configs, c) then RowOf(s.table, c) else None
    {
      RestartPrunes(loaded, c);
      LoadedChecksums(s, configs, c);
    }
    forall i | 0 <= i < |configs|
      ensures Reconfigured(s, configs).alerts[i] == Started(s, configs, i)
    {
      RestartedPerAlert(loaded, i);
      LoadedChecksums(s, configs, configs[i].checksum);
    }
  }

  /** An alert whose definition is new starts untriggered, if the table mirrored the flags before. */
  lemma NewDefinitionStartsUntriggered(s: State, configs: seq<AlertConfig>, i: nat)
    requires Mirror(s) && i < |configs| && !IsEnabledChecksum(s.alerts, configs[i].checksum)
    ensures !Reconfigured(s, configs).alerts[i].triggered
  {
    ReconfiguredIs(s, configs);
  }

  /** A definition that has been dropped for a while and is put back is not restored, whatever the table
      held before it was dropped. */
  lemma DroppedIsForgotten(s: State, without: seq<AlertConfig>, again: seq<AlertConfig>, i: nat)
    requires i < |again| && !IsConfigured(without, again[i].checksum)
    ensures !Reconfigured(Reconfigured(s, without), again).alerts[i].triggered
    ensures again[i].checksum !in Reconfigured(Reconfigured(s, without), again).table
  {
    ReconfiguredIs(s, without);
    ReconfiguredIs(Reconfigured(s, without), again);
    assert RowOf(Reconfigured(s, without).table, again[i].checksum) == None;
    assert RowOf(Reconfigured(Reconfigured(s, without), again).table, again[i].checksum) == None;
  }

  // ---------------------------------------------------------------------------------
  // The mirror
  // ---------------------------------------------------------------------------------

  /** Alert a and its row agree. */
  predicate RowMatches(a: Alert, row: Option<Row>) {
    if a.config.enabled then
      && (a.triggered <==> row.Some?)
      && (row.Some? ==> row.value.resolveKey == a.resolveKey && row.value.successes < a.config.successThreshold)
    else
      !a.triggered
  }

  ghost predicate RowMatchesAt(s: State, i: nat)
    requires i < |s.alerts|
  {
    RowMatches(s.alerts[i], RowOf(s.table, s.alerts[i].config.checksum))
  }

  /** A row exists exactly for each enabled, triggered alert, with its resolve key and a number of
      successes still short of its threshold. */
  ghost predicate Mirror(s: State) {
    && (forall i :: 0 <= i < |s.alerts| ==> RowMatchesAt(s, i))
    && (forall c :: c in s.table ==> IsEnabledChecksum(s.alerts, c))
  }

  lemma StepKeepsMirror(s: State, input: Input)
    requires |input.attempts| == |s.alerts| && DistinctRows(s.alerts) && Validated(s) && Mirror(s)
    ensures Mirror(Step(s, input)) && DistinctRows(Step(s, input).alerts) && Validated(Step(s, input))
  {
    var s' := Step(s, input);
    forall i | 0 <= i < |s.alerts|
      ensures s'.alerts[i].config == s.alerts[i].config && RowMatchesAt(s', i)
    {
      assert RowMatchesAt(s, i);
      StepPerAlert(s, input, i);
      StepRow(s, input, i);
    }
    forall c | c in s'.table ensures IsEnabledChecksum(s'.alerts, c) {
      if !IsEnabledChecksum(s.alerts, c) {
        StepOtherRow(s, input, c);
      } else {
        var i :| 0 <= i < |s.alerts| && s.alerts[i].config.enabled && s.alerts[i].config.checksum == c;
        assert s'.alerts[i].config.checksum == c;
      }
    }
  }

  /** A restart reproduces every triggered flag, and the resolve key of every triggered alert. */
  lemma RestartRestoresTriggered(s: State)
    requires DistinctRows(s.alerts) && Validated(s) && Mirror(s)
    ensures Mirror(Restarted(s)) && DistinctRows(Restarted(s).alerts) && Validated(Restarted(s))
    ensures Restarted(s).table == s.table && Restarted(s).log == s.log
    ensures forall i :: 0 <= i < |s.alerts| ==>
      && Restarted(s).alerts[i].triggered == s.alerts[i].triggered
      && (s.alerts[i].triggered ==> Restarted(s).alerts[i] == s.alerts[i])
  {
    var s' := Restarted(s);
    assert Pruned(s.table, EnabledChecksums(s.alerts)) == s.table;
    RestoreFirstKeepsLog(Fresh(s).(table := s.table), |s.alerts|);
    forall i | 0 <= i < |s.alerts|
      ensures s'.alerts[i].config == s.alerts[i].config
      ensures s'.alerts[i].triggered == s.alerts[i].triggered
      ensures s.alerts[i].triggered ==> s'.alerts[i] == s.alerts[i]
      ensures RowMatchesAt(s', i)
    {
      assert RowMatchesAt(s, i);
      RestartedPerAlert(s, i);
    }
    forall c | c in s'.table ensures IsEnabledChecksum(s'.alerts, c) {
      var i :| 0 <= i < |s.alerts| && s.alerts[i].config.enabled && s.alerts[i].config.checksum == c;
      assert s'.alerts[i].config.checksum == c;
    }
  }

  lemma {:induction false} RestoreFirstKeepsLog(s: State, n: nat)
    requires n <= |s.alerts|
    ensures RestoreFirst(s, n).log == s.log
  {
    if n > 0 {
      RestoreFirstKeepsLog(s, n - 1);
    }
  }

  /** A checksum tells the success threshold, in the configuration as in the state. */
  ghost predicate SameChecksumSameThreshold(s: State, configs: seq<AlertConfig>) {
    forall i, j :: 0 <= i < |s.alerts| && 0 <= j < |configs| && s.alerts[i].config.checksum == configs[j].checksum ==>
      s.alerts[i].config.successThreshold == configs[j].successThreshold
  }

  /** After a restart with another configuration the table mirrors the flags of the new alerts, if no
      enabled one shares its checksum, and exactly the enabled alerts that were triggered under the
      same definition are. */
  lemma ReconfiguredKeepsMirror(s: State, configs: seq<AlertConfig>)
    requires Mirror(s) && SameChecksumSameThreshold(s, configs) && DistinctRows(Loaded(s, configs).alerts)
    ensures Mirror(Reconfigured(s, configs)) && DistinctRows(Reconfigured(s, configs).alerts)
    ensures forall j :: 0 <= j < |configs| ==>
      (Reconfigured(s, configs).alerts[j].triggered <==> configs[j].enabled && WasTriggered(s, configs[j].checksum))
  {
    var r := Reconfigured(s, configs);
    ReconfiguredIs(s, configs);
    forall j | 0 <= j < |configs|
      ensures r.alerts[j].config == configs[j] && RowMatchesAt(r, j)
      ensures r.alerts[j].triggered <==> configs[j].enabled && WasTriggered(s, configs[j].checksum)
    {
      assert Loaded(s, configs).alerts[j].config == configs[j];
      RowIsOfTriggered(s, configs[j].checksum);
      OnlyEnabledIsConfigured(s, configs, j);
    }
    forall c | c in r.table ensures IsEnabledChecksum(r.alerts, c) {
      assert RowOf(r.table, c).Some?;
      var j :| 0 <= j < |configs| && configs[j].enabled && configs[j].checksum == c;
      assert r.alerts[j].config == configs[j];
    }
  }

  /** An enabled, triggered alert has the checksum. */
  ghost predicate WasTriggered(s: State, c: string) {
    exists i :: 0 <= i < |s.alerts| && s.alerts[i].config.enabled && s.alerts[i].config.checksum == c
                && s.alerts[i].triggered
  }

  lemma RowIsOfTriggered(s: State, c: string)
    requires Mirror(s)
    ensures c in s.table <==> WasTriggered(s, c)
    ensures c in s.table ==>
      exists i :: 0 <= i < |s.alerts| && s.alerts[i].config.checksum == c
                  && s.table[c].successes < s.alerts[i].config.successThreshold
  {
    if c in s.table {
      var i :| 0 <= i < |s.alerts| && s.alerts[i].config.enabled && s.alerts[i].config.checksum == c;
      assert RowMatchesAt(s, i);
    }
    if i :| 0 <= i < |s.alerts| && s.alerts[i].config.enabled && s.alerts[i].config.checksum == c
            && s.alerts[i].triggered {
      assert RowMatchesAt(s, i);
    }
  }

  lemma OnlyEnabledIsConfigured(s: State, configs: seq<AlertConfig>, j: nat)
    requires DistinctRows(Loaded(s, configs).alerts) && j < |configs|
    ensures IsConfigured(configs, configs[j].checksum) <==> configs[j].enabled
  {
    if i :| 0 <= i < |configs| && configs[i].enabled && configs[i].checksum == configs[j].checksum {
      assert Loaded(s, configs).alerts[i].config == configs[i] && Loaded(s, configs).alerts[j].config == configs[j];
    }
  }

  // ---------------------------------------------------------------------------------
  // Runs with restarts
  // ---------------------------------------------------------------------------------

  datatype Action = Handle(input: Input) | Restart

  predicate ActionsFit(h: History<Action>, n: nat) {
    h.Then? ==> (h.last.Handle? ==> |h.last.input.attempts| == n) && ActionsFit(h.before, n)
  }

  function Perform(s: State, h: History<Action>): (s': State)
    requires ActionsFit(h, |s.alerts|)
    ensures |s'.alerts| == |s.alerts|
    decreases h
  {
    match h
    case Start => s
    case Then(before, Handle(input)) => Step(Perform(s, before), input)
    case Then(before, Restart) => Restarted(Perform(s, before))
  }

  /** Where a log leaves alert i if its delivered initial notifications and its resolutions strictly
      alternate, starting with a notification; None if they do not. */
  function Phase(log: History<Entry>, i: nat): Option<bool> {
    match log
    case Start => Some(false)
    case Then(before, e) =>
      if e.Notified? && e.alert == i && e.kind == Initial && e.delivered then
        if Phase(before, i) == Some(false) then Some(true) else None
      else if e == Cleared(i) then
        if Phase(before, i) == Some(true) then Some(false) else None
      else Phase(before, i)
  }

  lemma {:induction false} TriggerFirstPhase(s: State, n: nat, attempts: seq<Attempt>, i: nat)
    requires n <= |s.alerts| == |attempts| && i < |s.alerts|
    requires Phase(s.log, i) == Some(s.alerts[i].triggered)
    ensures Phase(TriggerFirst(s, n, attempts).log, i) == Some(TriggerFirst(s, n, attempts).alerts[i].triggered)
  {
    if n > 0 {
      TriggerFirstPhase(s, n - 1, attempts, i);
    }
  }

  lemma {:induction false} ResolveFirstPhase(s: State, n: nat, attempts: seq<Attempt>, i: nat)
    requires n <= |s.alerts| == |attempts| && i < |s.alerts|
    requires Phase(s.log, i) == Some(s.alerts[i].triggered)
    ensures Phase(ResolveFirst(s, n, attempts).log, i) == Some(ResolveFirst(s, n, attempts).alerts[i].triggered)
  {
    if n > 0 {
      ResolveFirstPhase(s, n - 1, attempts, i);
    }
  }

  lemma StepPhase(s: State, input: Input, i: nat)
    requires |input.attempts| == |s.alerts| && i < |s.alerts|
    requires Phase(s.log, i) == Some(s.alerts[i].triggered)
    ensures Phase(Step(s, input).log, i) == Some(Step(s, input).alerts[i].triggered)
  {
    if input.success {
      ResolveFirstPhase(s.(successes := s.successes + 1), |s.alerts|, input.attempts, i);
    } else {
      TriggerFirstPhase(s.(successes := 0, failures := s.failures + 1), |s.alerts|, input.attempts, i);
    }
  }

  /** After any sequence of handled results and restarts the table mirrors the triggered flags, and
      the delivered initial notifications and resolutions of each alert strictly alternate. */
  lemma {:induction false} MirrorAlways(s: State, h: History<Action>)
    requires Clean(s) && Validated(s) && DistinctRows(s.alerts) && ActionsFit(h, |s.alerts|)
    ensures Mirror(Perform(s, h)) && DistinctRows(Perform(s, h).alerts) && Validated(Perform(s, h))
    ensures forall i :: 0 <= i < |s.alerts| ==> Phase(Perform(s, h).log, i) == Some(Perform(s, h).alerts[i].triggered)
  {
    if h.Start? {
      assert forall i :: 0 <= i < |s.alerts| ==> RowMatchesAt(s, i);
    } else {
      var before := Perform(s, h.before);
      MirrorAlways(s, h.before);
      match h.last
      case Handle(input) =>
        StepKeepsMirror(before, input);
        forall i | 0 <= i < |s.alerts|
          ensures Phase(Perform(s, h).log, i) == Some(Perform(s, h).alerts[i].triggered)
        {
          StepPhase(before, input, i);
        }
      case Restart =>
        RestartRestoresTriggered(before);
    }
  }

  // ---------------------------------------------------------------------------------
  // Shared checksums
  // ---------------------------------------------------------------------------------

  /** m failed results during which only the provider of alert i delivers. */
  function OnlyDelivers(n: nat, i: nat, m: nat): History<Action> {
    if m == 0 then Start
    else Then(OnlyDelivers(n, i, m - 1),
              Handle(Input(false, seq(n, k => Attempt(if k == i then Delivers("") else Fails, m, m)))))
  }

  lemma {:induction false} OnlyDeliversRun(s: State, i: nat, m: nat)
    requires Clean(s) && i < |s.alerts| && s.alerts[i].config.enabled
    ensures ActionsFit(OnlyDelivers(|s.alerts|, i, m), |s.alerts|)
    ensures var s' := Perform(s, OnlyDelivers(|s.alerts|, i, m));
      && s'.failures == m && s'.successes == 0 && s'.alerts[i].config == s.alerts[i].config
      && (s'.alerts[i].triggered <==> m >= 1 && m >= s.alerts[i].config.failureThreshold)
      && (s'.alerts[i].triggered ==> s.alerts[i].config.checksum in s'.table)
  {
    if m > 0 {
      OnlyDeliversRun(s, i, m - 1);
      var h := OnlyDelivers(|s.alerts|, i, m);
      var before := Perform(s, h.before);
      StepPerAlert(before, h.last.input, i);
      StepCounters(before, h.last.input);
      TriggerFirstRows(before.(successes := 0, failures := before.failures + 1), |s.alerts|, h.last.input.attempts, i);
    }
  }

  lemma {:induction false} OthersStayQuiet(s: State, i: nat, j: nat, m: nat)
    requires Clean(s) && i < |s.alerts| && j < |s.alerts| && i != j && s.alerts[i].config.enabled
    ensures ActionsFit(OnlyDelivers(|s.alerts|, i, m), |s.alerts|)
    ensures var s' := Perform(s, OnlyDelivers(|s.alerts|, i, m));
      s'.alerts[j].config == s.alerts[j].config && !s'.alerts[j].triggered
  {
    OnlyDeliversRun(s, i, m);
    if m > 0 {
      OthersStayQuiet(s, i, j, m - 1);
      var h := OnlyDelivers(|s.alerts|, i, m);
      StepPerAlert(Perform(s, h.before), h.last.input, j);
    }
  }

  /** A failure never removes a row, and adds that of every alert something is delivered for. */
  lemma {:induction false} TriggerFirstRows(s: State, n: nat, attempts: seq<Attempt>, i: nat)
    requires n <= |s.alerts| == |attempts| && i < |s.alerts|
    ensures s.table.Keys <= TriggerFirst(s, n, attempts).table.Keys
    ensures i < n && DeliversAfterFailure(s.alerts[i], s.failures, s.lastReminderSent, attempts[i]) ==>
      s.alerts[i].config.checksum in TriggerFirst(s, n, attempts).table
  {
    if n > 0 {
      TriggerFirstRows(s, n - 1, attempts, i);
      TriggerFirstPerAlert(s, n - 1, attempts, n - 1);
    }
  }

  /** If an enabled alert shares its checksum, the mirror breaks: when only that alert's
      notification gets through, either the other alert has a row it should not have, or it is
      disabled and the next restart triggers it all the same. (With the checksums of module
      AlertChecksums the other alert is enabled too.) */
  lemma SharedChecksumBreaksMirror(s: State, i: nat, j: nat) returns (h: History<Action>)
    requires Clean(s) && Validated(s) && i < |s.alerts| && j < |s.alerts| && i != j
    requires s.alerts[i].config.enabled && s.alerts[i].config.checksum == s.alerts[j].config.checksum
    ensures ActionsFit(h, |s.alerts|) && !Mirror(Perform(s, h))
  {
    var m := s.alerts[i].config.failureThreshold;
    OnlyDeliversRun(s, i, m);
    OthersStayQuiet(s, i, j, m);
    h := OnlyDelivers(|s.alerts|, i, m);
    var s' := Perform(s, h);
    if s.alerts[j].config.enabled {
      assert !RowMatchesAt(s', j);
    } else {
      h := Then(h, Restart);
      assert IsEnabledChecksum(s'.alerts, s.alerts[i].config.checksum);
      RestartedPerAlert(s', j);
      assert !RowMatchesAt(Perform(s, h), j);
    }
  }

  /** The mirror holds throughout every run exactly when no enabled alert shares its checksum. */
  lemma MirrorIffDistinctRows(s: State)
    requires Clean(s) && Validated(s)
    ensures (forall h: History<Action> :: ActionsFit(h, |s.alerts|) ==> Mirror(Perform(s, h))) <==>
            DistinctRows(s.alerts)
  {
    if DistinctRows(s.alerts) {
      forall h: History<Action> | ActionsFit(h, |s.alerts|) ensures Mirror(Perform(s, h)) {
        MirrorAlways(s, h);
      }
    } else {
      var i, j :| 0 <= i < |s.alerts| && 0 <= j < |s.alerts| && i != j && s.alerts[i].config.enabled
                  && s.alerts[i].config.checksum == s.alerts[j].config.checksum;
      var h := SharedChecksumBreaksMirror(s, i, j);
    }
  }
}
