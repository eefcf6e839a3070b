/**
  Alerting for the endpoints of a suite (app/watchdog/suite.go): the i-th endpoint is handled with
  the i-th result of the execution.
*/
module SuiteAlerting {
  import opened Gontexts
  import A = Alerting
  import Watchdog
  import opened Suites

  /** An endpoint of the suite, with what its alerts act upon. */
  datatype Watched = Watched(endpoint: Watchdog.Endpoint, outside: Watchdog.Outside)

  /** The endpoints share neither alerts nor what those act upon. */
  ghost predicate Apart(ws: seq<Watched>, objects: seq<set<object>>) {
    |objects| == |ws| && forall i, j :: 0 <= i < j < |ws| ==> objects[i] !! objects[j]
  }

  ghost function Union(objects: seq<set<object>>): set<object> {
    set i, o | 0 <= i < |objects| && o in objects[i] :: o
  }

  /** The endpoint is valid, stays within its objects, and is in the given state. */
  ghost predicate Watches(w: Watched, objects: set<object>, s: A.State)
    reads objects
  {
    && w.endpoint in objects && w.outside in objects
    && (forall a :: a in w.endpoint.Alerts ==> a in objects)
    && w.endpoint.Valid() && w.endpoint.View(w.outside) == s
  }

  /** What handling makes of the state of endpoint i, which may be under maintenance. */
  function Handled(s: A.State, i: nat, results: seq<EndpointResult>, attempts: seq<A.Attempt>, alerting: bool,
                   silenced: bool): A.State
    requires |attempts| == |s.alerts|
  {
    if i < |results| && alerting && !silenced then A.Step(s, A.Input(results[i].success, attempts)) else s
  }

  /** The loop of `executeSuite`. `silenced` tells which endpoints are under maintenance. */
  method HandleResults(ws: seq<Watched>, results: seq<EndpointResult>, attempts: seq<seq<A.Attempt>>, alerting: bool,
                       silenced: seq<bool>, ghost objects: seq<set<object>>, ghost before: seq<A.State>)
    requires |attempts| == |silenced| == |before| == |ws| && Apart(ws, objects)
    requires forall i :: 0 <= i < |ws| ==> Watches(ws[i], objects[i], before[i]) && |attempts[i]| == |before[i].alerts|
    modifies Union(objects)
    ensures forall i :: 0 <= i < |ws| ==>
      Watches(ws[i], objects[i], Handled(before[i], i, results, attempts[i], alerting, silenced[i]))
  {
    ghost var states := before;
    for i := 0 to |ws|
      invariant |states| == |ws| && forall j :: 0 <= j < |ws| ==> Watches(ws[j], objects[j], states[j])
      invariant forall j :: i <= j < |ws| ==> states[j] == before[j]
      invariant forall j :: 0 <= j < i ==>
        states[j] == Handled(before[j], j, results, attempts[j], alerting, silenced[j])
    {
      HandleOne(ws[i], i, results, attempts[i], alerting, silenced[i], objects[i], before[i]);
      states := states[i := Handled(before[i], i, results, attempts[i], alerting, silenced[i])];
    }
  }

  method HandleOne(w: Watched, i: nat, results: seq<EndpointResult>, attempts: seq<A.Attempt>, alerting: bool,
                   silenced: bool,
                   ghost objects: set<object>, ghost before: A.State)
    requires Watches(w, objects, before) && |attempts| == |before.alerts|
    modifies objects
    ensures Watches(w, objects, Handled(before, i, results, attempts, alerting, silenced))
  {
    if i < |results| {
      if alerting && !silenced {
        w.endpoint.HandleAlerting(results[i].success, attempts, true, w.outside);
      }
    }
  }

  /** After an execution, the i-th endpoint takes a step with the outcome of the endpoint whose result
      sits at position i: its own exactly if no endpoint up to and including i was skipped, and
      otherwise that of a later one. */
  lemma HandledWith(context: Shape, endpoints: seq<Endpoint>, oracle: Oracle, i: nat, s: A.State,
                                       attempts: seq<A.Attempt>)
    requires Orders(endpoints, oracle) && context.Dict? && i < |endpoints| && |attempts| == |s.alerts|
    ensures var p := ExecuteFirst(context, |endpoints|, endpoints, oracle);
      |p.indices| == |p.results| &&
      if i < |p.indices| then
        && Handled(s, i, p.results, attempts, true, false)
           == A.Step(s, A.Input(oracle.evaluate(p.indices[i]).success, attempts))
        && p.indices[i] >= i
        && (p.indices[i] == i <==> forall j :: 0 <= j <= i ==> Executed(j, |endpoints|, endpoints, oracle))
      else
        Handled(s, i, p.results, attempts, true, false) == s
    ensures forall alerting, silenced :: !alerting || silenced ==>
      Handled(s, i, ExecuteFirst(context, |endpoints|, endpoints, oracle).results, attempts, alerting, silenced) == s
  {
    ExecutedExactly(context, endpoints, oracle);
    PairedWithOwnResult(context, endpoints, oracle, i);
    var p := ExecuteFirst(context, |endpoints|, endpoints, oracle);
    if i < |p.indices| {
      assert Belongs(p, i, |endpoints|, endpoints, oracle);
    }
  }
}
