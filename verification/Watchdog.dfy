/**
  The mutable objects behind the alerting state machine: alerts (app/alerting/alert/alert.go),
  endpoints (app/watchdog/alerting.go, app/main.go) and external endpoints
  (app/config/endpoint/external_endpoint.go, app/api/external_endpoint.go,
  app/watchdog/external_endpoint.go). Every method is tied to the function of module Alerting
  or AlertTable that says what it does.
*/
module Watchdog {
  import opened GoStrings
  import opened Histories
  import A = Alerting
  import AlertTable
  import AlertChecksums
  import opened ExternalRuns

  class Alert {
    var Type: string
    var Enabled: Option<bool>
    var FailureThreshold: int
    var SuccessThreshold: int
    var MinimumReminderInterval: int
    var Description: Option<string>
    var SendOnResolved: Option<bool>
    var ResolveKey: string
    var Triggered: bool

    function IsEnabled(): (r: bool)
      reads this
      ensures !r <==> Enabled == Some(false)
    {
      if Enabled.None? then true else Enabled.value
    }

    function IsSendingOnResolved(): (r: bool)
      reads this
      ensures r <==> SendOnResolved == Some(true)
    {
      if SendOnResolved.None? then false else SendOnResolved.value
    }

    function GetDescription(): (r: string)
      reads this
      ensures Description == None ==> r == ""
      ensures Description.Some? ==> r == Description.value
    {
      if Description.None? then "" else Description.value
    }

    function Definition(): AlertChecksums.Definition
      reads this
    {
      AlertChecksums.Definition(Type, IsEnabled(), IsSendingOnResolved(), SuccessThreshold, FailureThreshold,
                                GetDescription(), MinimumReminderInterval)
    }

    /** The text that the original hashes. */
    function Checksum(): string
      reads this
    {
      Definition().Checksum()
    }

    function Config(): A.AlertConfig
      reads this
    {
      Definition().Config()
    }

    function View(): A.Alert
      reads this
    {
      A.Alert(Config(), Triggered, ResolveKey)
    }

    /** Records on the alert what a delivered notification, a resolution or a restart leaves there. */
    method Record(triggered: bool, resolveKey: string)
      modifies this`Triggered, this`ResolveKey
      ensures View() == A.Alert(old(View()).config, triggered, resolveKey)
    {
      Triggered, ResolveKey := triggered, resolveKey;
    }

    /** Leaves both thresholds at least one, and valid thresholds alone; refuses descriptions with a
        quote or a backslash. */
    method ValidateAndSetDefaults() returns (ok: bool)
      modifies this`FailureThreshold, this`SuccessThreshold
      ensures FailureThreshold >= 1 && SuccessThreshold >= 1
      ensures FailureThreshold == if old(FailureThreshold) >= 1 then old(FailureThreshold) else 3
      ensures SuccessThreshold == if old(SuccessThreshold) >= 1 then old(SuccessThreshold) else 2
      ensures ok <==> '"' !in GetDescription() && '\\' !in GetDescription()
    {
      if FailureThreshold <= 0 {
        FailureThreshold := 3;
      }
      if SuccessThreshold <= 0 {
        SuccessThreshold := 2;
      }
      ok := '"' !in GetDescription() && '\\' !in GetDescription();
    }
  }

  /** What the alerts of one endpoint act upon: its rows in the table of triggered alerts, and the
      record of what providers were asked to send. */
  class Outside {
    var table: map<string, A.Row>
    var log: History<A.Entry>

    constructor ()
      ensures table == map[] && log == Start
    {
      table, log := map[], Start;
    }

    method Send(i: nat, kind: A.Kind, att: A.Attempt)
      modifies this`log
      ensures log == Then(old(log), A.Notified(i, kind, att.outcome.Delivers?, att.checkedAt, att.sentAt))
    {
      log := Then(log, A.Notified(i, kind, att.outcome.Delivers?, att.checkedAt, att.sentAt));
    }
  }

  class Endpoint {
    var Alerts: seq<Alert>
    var NumberOfFailuresInARow: int
    var NumberOfSuccessesInARow: int
    var LastReminderSent: int

    /** The alerts as values. */
    ghost var Views: seq<A.Alert>

    constructor (alerts: seq<Alert>, failures: int, successes: int, ghost views: seq<A.Alert>)
      ensures Alerts == alerts && NumberOfFailuresInARow == failures && NumberOfSuccessesInARow == successes
      ensures LastReminderSent == A.ZERO_TIME && Views == views
    {
      Alerts, NumberOfFailuresInARow, NumberOfSuccessesInARow := alerts, failures, successes;
      LastReminderSent := A.ZERO_TIME;
      Views := views;
    }

    ghost predicate Valid()
      reads this, Alerts
    {
      Shown(Alerts, Views)
    }

    ghost function View(o: Outside): A.State
      reads this, o
    {
      A.State(NumberOfFailuresInARow, NumberOfSuccessesInARow, LastReminderSent, Views, o.table, o.log)
    }

    /** `HandleAlerting`. Without an alerting configuration nothing happens at all. */
    method HandleAlerting(success: bool, attempts: seq<A.Attempt>, configured: bool, o: Outside)
      requires Valid() && |attempts| == |Alerts|
      modifies this, Alerts, o
      ensures Valid() && Alerts == old(Alerts)
      ensures View(o) == if configured then A.Step(old(View(o)), A.Input(success, attempts)) else old(View(o))
    {
      if !configured {
        return;
      }
      if success {
        HandleAlertsToResolve(attempts, o);
      } else {
        HandleAlertsToTrigger(attempts, o);
      }
    }

    method HandleAlertsToTrigger(attempts: seq<A.Attempt>, o: Outside)
      requires Valid() && |attempts| == |Alerts|
      modifies this, Alerts, o
      ensures Valid() && Alerts == old(Alerts)
      ensures View(o) == A.Step(old(View(o)), A.Input(false, attempts))
    {
      NumberOfSuccessesInARow := 0;
      NumberOfFailuresInARow := NumberOfFailuresInARow + 1;
      TriggerAll(LastReminderSent, attempts, o);
    }

    /** The loop of `handleAlertsToTrigger`; the reminder time is read once, before it. */
    method TriggerAll(lastReminderSent: int, attempts: seq<A.Attempt>, o: Outside)
      requires Valid() && |attempts| == |Alerts| && lastReminderSent == LastReminderSent
      modifies this`LastReminderSent, this`Views, Alerts, o
      ensures Valid() && View(o) == A.TriggerFirst(old(View(o)), |Alerts|, attempts)
    {
      ghost var start := View(o);
      for i := 0 to |Alerts|
        invariant Valid() && View(o) == A.TriggerFirst(start, i, attempts)
      {
        assert Alerts[i] in Alerts;
        TriggerAlert(i, lastReminderSent, attempts[i], o);
      }
    }

    /** The body of the loop of `handleAlertsToTrigger`. */
    method TriggerAlert(i: nat, lastReminderSent: int, att: A.Attempt, o: Outside)
      requires Valid() && i < |Alerts|
      modifies this`LastReminderSent, this`Views, Alerts[i], o
      ensures Valid() && View(o) == A.TriggerOne(old(View(o)), i, lastReminderSent, att)
    {
      var endpointAlert := Alerts[i];
      if !endpointAlert.IsEnabled() || endpointAlert.FailureThreshold > NumberOfFailuresInARow {
        return;
      }
      var sendInitialAlert := !endpointAlert.Triggered;
      var sendReminder := endpointAlert.Triggered && endpointAlert.MinimumReminderInterval > 0
        && att.checkedAt - lastReminderSent >= endpointAlert.MinimumReminderInterval;
      if !sendInitialAlert && !sendReminder {
        return;
      }
      if !att.outcome.NoProvider? {
        o.Send(i, if sendInitialAlert then A.Initial else A.Reminder, att);
        match att.outcome
        case Delivers(resolveKey) =>
          endpointAlert.Record(sendInitialAlert || endpointAlert.Triggered, resolveKey);
          Views := Views[i := endpointAlert.View()];
          LastReminderSent := att.sentAt;
          o.table := o.table[endpointAlert.Checksum() := A.Row(endpointAlert.ResolveKey, NumberOfSuccessesInARow)];
        case _ =>
      }
    }

    method HandleAlertsToResolve(attempts: seq<A.Attempt>, o: Outside)
      requires Valid() && |attempts| == |Alerts|
      modifies this, Alerts, o
      ensures Valid() && Alerts == old(Alerts)
      ensures View(o) == A.Step(old(View(o)), A.Input(true, attempts))
    {
      NumberOfSuccessesInARow := NumberOfSuccessesInARow + 1;
      ResolveAll(attempts, o);
      NumberOfFailuresInARow := 0;
    }

    method ResolveAll(attempts: seq<A.Attempt>, o: Outside)
      requires Valid() && |attempts| == |Alerts|
      modifies this`Views, Alerts, o
      ensures Valid() && View(o) == A.ResolveFirst(old(View(o)), |Alerts|, attempts)
    {
      ghost var start := View(o);
      for i := 0 to |Alerts|
        invariant Valid() && View(o) == A.ResolveFirst(start, i, attempts)
      {
        assert Alerts[i] in Alerts;
        ResolveAlert(i, attempts[i], o);
      }
    }

    /** The body of the loop of `handleAlertsToResolve`. */
    method ResolveAlert(i: nat, att: A.Attempt, o: Outside)
      requires Valid() && i < |Alerts|
      modifies this`Views, Alerts[i], o
      ensures Valid() && View(o) == A.ResolveOne(old(View(o)), i, att)
    {
      var endpointAlert := Alerts[i];
      var isStillBelowSuccessThreshold := endpointAlert.SuccessThreshold > NumberOfSuccessesInARow;
      if isStillBelowSuccessThreshold && endpointAlert.IsEnabled() && endpointAlert.Triggered {
        o.table := o.table[endpointAlert.Checksum() := A.Row(endpointAlert.ResolveKey, NumberOfSuccessesInARow)];
      }
      if !endpointAlert.IsEnabled() || !endpointAlert.Triggered || isStillBelowSuccessThreshold {
        return;
      }
      Resolve(i, att, o);
    }

    /** What happens to an alert whose success threshold has been reached. It stays resolved even if
        its provider fails. */
    method Resolve(i: nat, att: A.Attempt, o: Outside)
      requires Valid() && i < |Alerts| && A.Resolves(Views[i], NumberOfSuccessesInARow)
      modifies this`Views, Alerts[i], o
      ensures Valid() && View(o) == A.ResolveOne(old(View(o)), i, att)
    {
      var endpointAlert := Alerts[i];
      assert endpointAlert.View() == Views[i];
      Settle(endpointAlert, i, att, o);
      forall k | 0 <= k < |Alerts| && k != i ensures Alerts[k].View() == Views[k] {
        assert Alerts[k] != endpointAlert;
      }
      Views := Views[i := endpointAlert.View()];
    }

    /** What happens to the objects: the flag and the row go first, then the notification is sent, if
        there is to be one. */
    static method Settle(endpointAlert: Alert, i: nat, att: A.Attempt, o: Outside)
      modifies endpointAlert`ResolveKey, endpointAlert`Triggered, o
      ensures var before, cleared := old(endpointAlert.View()), Then(old(o.log), A.Cleared(i));
        var sends := before.config.sendOnResolved && !att.outcome.NoProvider?;
        && o.table == old(o.table) - {before.config.checksum}
        && o.log == (if sends
             then Then(cleared, A.Notified(i, A.Recovery, att.outcome.Delivers?, att.checkedAt, att.sentAt))
             else cleared)
        && endpointAlert.View() == (if sends && att.outcome.Delivers?
             then before.(triggered := false, resolveKey := att.outcome.resolveKey)
             else before.(triggered := false))
    {
      o.table := o.table - {endpointAlert.Checksum()};
      endpointAlert.Record(false, endpointAlert.ResolveKey);
      o.log := Then(o.log, A.Cleared(i));
      if endpointAlert.IsSendingOnResolved() && !att.outcome.NoProvider? {
        o.Send(i, A.Recovery, att);
        if att.outcome.Delivers? {
          endpointAlert.Record(false, att.outcome.resolveKey);
        }
      }
    }

    /** The part of `initializeStorage` that prunes the rows of one freshly loaded endpoint and
        restores its triggered alerts from the rest. */
    method Restore(o: Outside)
      requires Valid()
      modifies this, Alerts, o
      ensures Valid() && Alerts == old(Alerts)
      ensures View(o) == AlertTable.RestoreFirst(
        old(View(o)).(table :=
          AlertTable.Pruned(old(o.table), AlertTable.EnabledChecksums(old(View(o)).alerts))), |Alerts|)
      ensures forall c ::
        AlertTable.RowOf(o.table, c)
        == (if AlertTable.IsEnabledChecksum(old(Views), c) then AlertTable.RowOf(old(o.table), c) else None)
    {
      var checksums := EnabledChecksums();
      o.table := AlertTable.Pruned(o.table, checksums);
      RestoreAll(o);
    }

    method RestoreAll(o: Outside)
      requires Valid()
      modifies this`NumberOfFailuresInARow, this`NumberOfSuccessesInARow, this`Views, Alerts
      ensures Valid() && View(o) == AlertTable.RestoreFirst(old(View(o)), |Alerts|)
    {
      ghost var start := View(o);
      for i := 0 to |Alerts|
        invariant Valid() && View(o) == AlertTable.RestoreFirst(start, i)
      {
        assert Alerts[i] in Alerts;
        RestoreAlert(i, o);
      }
    }

    /** The loop that collects the checksums of the enabled alerts. */
    method EnabledChecksums() returns (checksums: set<string>)
      requires Valid()
      ensures checksums == AlertTable.EnabledChecksums(Views)
    {
      checksums := {};
      for i := 0 to |Alerts|
        invariant checksums == AlertTable.EnabledChecksums(Views[..i])
      {
        AlertTable.EnabledChecksumsGrow(Views, i);
        assert Alerts[i].View() == Views[i];
        if Alerts[i].IsEnabled() {
          checksums := checksums + {Alerts[i].Checksum()};
        }
      }
      assert Views[..|Alerts|] == Views;
    }

    /** The body of the loop that loads triggered alerts. */
    method RestoreAlert(i: nat, o: Outside)
      requires Valid() && i < |Alerts|
      modifies this`NumberOfFailuresInARow, this`NumberOfSuccessesInARow, this`Views, Alerts[i]
      ensures Valid() && View(o) == AlertTable.RestoreOne(old(View(o)), i)
    {
      var alert := Alerts[i];
      if alert.Checksum() in o.table {
        var row := o.table[alert.Checksum()];
        alert.Record(true, row.resolveKey);
        Views := Views[i := alert.View()];
        NumberOfSuccessesInARow, NumberOfFailuresInARow := row.successes, alert.FailureThreshold;
      }
    }
  }

  /** No alert is listed twice, and each is as `views` says. */
  ghost predicate Shown(alerts: seq<Alert>, views: seq<A.Alert>)
    reads alerts
  {
    && |views| == |alerts|
    && (forall i :: 0 <= i < |alerts| ==> alerts[i].View() == views[i])
    && (forall i, j :: 0 <= i < j < |alerts| ==> alerts[i] != alerts[j])
  }

  class ExternalEndpoint {
    var Alerts: seq<Alert>
    var NumberOfFailuresInARow: int
    var NumberOfSuccessesInARow: int

    ghost var Views: seq<A.Alert>

    ghost predicate Valid()
      reads this, Alerts
    {
      Shown(Alerts, Views)
    }

    /** Seen as the state of an endpoint that has never sent a reminder. */
    ghost function View(o: Outside): A.State
      reads this, o
    {
      A.State(NumberOfFailuresInARow, NumberOfSuccessesInARow, A.ZERO_TIME, Views, o.table, o.log)
    }

    /** `ToEndpoint`: a new endpoint that shares the alert objects but not the counters. */
    method ToEndpoint() returns (ep: Endpoint)
      ensures fresh(ep) && ep.Alerts == Alerts && ep.LastReminderSent == A.ZERO_TIME && ep.Views == Views
      ensures ep.NumberOfFailuresInARow == NumberOfFailuresInARow
      ensures ep.NumberOfSuccessesInARow == NumberOfSuccessesInARow
    {
      ep := new Endpoint(Alerts, NumberOfFailuresInARow, NumberOfSuccessesInARow, Views);
    }

    /** The convert, handle and copy-back part of a pushed result or of a missed heartbeat; during
        maintenance the result is not handled. */
    method HandleResult(success: bool, attempts: seq<A.Attempt>, configured: bool, underMaintenance: bool, o: Outside)
      requires Valid() && |attempts| == |Alerts|
      modifies this, Alerts, o
      ensures Valid() && Alerts == old(Alerts)
      ensures View(o) ==
        if configured && !underMaintenance then ExternalStep(old(View(o)), A.Input(success, attempts)) else old(View(o))
    {
      var convertedEndpoint := ToEndpoint();
      if !underMaintenance {
        assert convertedEndpoint.View(o) == old(View(o));
        convertedEndpoint.HandleAlerting(success, attempts, configured, o);
        NumberOfSuccessesInARow := convertedEndpoint.NumberOfSuccessesInARow;
        NumberOfFailuresInARow := convertedEndpoint.NumberOfFailuresInARow;
        Views := convertedEndpoint.Views;
      }
    }
  }
}
