/**
  The text whose hash identifies the row of an alert in the table of triggered alerts
  (`Checksum` in app/alerting/alert/alert.go). The hash itself is taken to be injective.
*/
module AlertChecksums {
  import opened GoStrings
  import opened Histories
  import opened Alerting
  import opened AlertTable

  function FormatBool(b: bool): string {
    if b then "true" else "false"
  }

  /** Texts joined by underscores. */
  datatype Fields = Last(text: string) | Field(text: string, rest: Fields) {

    function Joined(): string {
      match this
      case Last(text) => text
      case Field(text, rest) => text + "_" + rest.Joined()
    }

    function Count(): nat {
      match this
      case Last(_) => 1
      case Field(_, rest) => rest.Count() + 1
    }

    /** No text but the last contains an underscore. */
    predicate Separable() {
      Field? ==> '_' !in text && rest.Separable()
    }
  }

  function FieldsOf(kind: string, enabled: bool, sendOnResolved: bool, successThreshold: int, failureThreshold: int,
                    description: string): Fields {
    Field(kind, Field(FormatBool(enabled), Field(FormatBool(sendOnResolved),
      Field(Itoa(successThreshold), Field(Itoa(failureThreshold), Last(description))))))
  }

  /** What the configuration says of an alert. */
  datatype Definition = Definition(
    kind: string,
    enabled: bool,
    sendOnResolved: bool,
    successThreshold: int,
    failureThreshold: int,
    description: string,
    minimumReminderInterval: int)
  {
    function Fields(): Fields {
      FieldsOf(kind, enabled, sendOnResolved, successThreshold, failureThreshold, description)
    }

    /** The hashed text. */
    function Checksum(): string {
      Fields().Joined()
    }

    function Config(): AlertConfig {
      AlertConfig(enabled, failureThreshold, successThreshold, minimumReminderInterval, sendOnResolved, Checksum())
    }
  }

  lemma {:induction false} JoinedInjective(f: Fields, f': Fields)
    requires f.Separable() && f'.Separable() && f.Count() == f'.Count() && f.Joined() == f'.Joined()
    ensures f == f'
  {
    if f.Field? {
      FirstUnderscore(f.text, f.rest.Joined(), f'.text, f'.rest.Joined());
      JoinedInjective(f.rest, f'.rest);
    }
  }

  lemma ItoaHasNoUnderscore(n: int)
    ensures '_' !in Itoa(n)
  {
  }

  lemma FieldsAreSeparable(enabled: bool, sendOnResolved: bool, s: int, f: int, description: string)
    ensures var fields := FieldsOf("", enabled, sendOnResolved, s, f, description).rest;
      fields.Separable() && fields.Count() == 5
  {
    ItoaHasNoUnderscore(s);
    ItoaHasNoUnderscore(f);
    var f0 := Field(Itoa(f), Last(description));
    assert f0.Separable() && f0.Count() == 2;
    var f1 := Field(Itoa(s), f0);
    assert f1.Separable() && f1.Count() == 3;
    var f2 := Field(FormatBool(sendOnResolved), f1);
    assert f2.Separable() && f2.Count() == 4;
  }

  /** A text is cut in one way only at an underscore that is preceded by a given number of others. */
  lemma SameUnderscore(a: string, x: string, a': string, x': string)
    requires multiset(a)['_'] == multiset(a')['_']
    requires a + "_" + x == a' + "_" + x'
    ensures a == a' && x == x'
  {
    if |a| < |a'| {
      ShorterHasFewer(a, x, a', x');
    } else if |a'| < |a| {
      ShorterHasFewer(a', x', a, x);
    } else {
      var k := a + "_" + x;
      assert k[..|a|] == a && k[..|a'|] == a';
      assert k[|a| + 1..] == x && k[|a'| + 1..] == x';
    }
  }

  lemma ShorterHasFewer(a: string, x: string, a': string, x': string)
    requires a + "_" + x == a' + "_" + x' && |a| < |a'|
    ensures multiset(a)['_'] < multiset(a')['_']
  {
    var k := a + "_" + x;
    var between := a'[|a| + 1..];
    assert k[..|a|] == a && k[|a|] == '_' && k[..|a'|] == a';
    assert a' == a + ['_'] + between;
  }

  /** Two alerts whose types have equally many underscores have the same row exactly when they agree in
      type, enabled flag, send-on-resolved flag, both thresholds and description: neither the
      reminder interval nor a provider override tells rows apart. */
  lemma RowsEqualIff(d: Definition, d': Definition)
    requires multiset(d.kind)['_'] == multiset(d'.kind)['_']
    ensures d.Checksum() == d'.Checksum() <==> d.(minimumReminderInterval := 0) == d'.(minimumReminderInterval := 0)
  {
    if d.Checksum() == d'.Checksum() {
      var fields, fields' := d.Fields().rest, d'.Fields().rest;
      SameUnderscore(d.kind, fields.Joined(), d'.kind, fields'.Joined());
      FieldsAreSeparable(d.enabled, d.sendOnResolved, d.successThreshold, d.failureThreshold, d.description);
      FieldsAreSeparable(d'.enabled, d'.sendOnResolved, d'.successThreshold, d'.failureThreshold, d'.description);
      JoinedInjective(fields, fields');
      ItoaInjective(d.successThreshold, d'.successThreshold);
      ItoaInjective(d.failureThreshold, d'.failureThreshold);
    }
  }

  /** Types with different numbers of underscores may share a row. */
  lemma UnderscoresMayCollide() returns (d: Definition, d': Definition)
    ensures d.kind != d'.kind && d.Checksum() == d'.Checksum()
  {
    var middle := Middle(true, true, 1, 1);
    d := Definition("k", true, true, 1, 1, middle + "_" + "z", 0);
    d' := Definition("k" + "_" + middle, true, true, 1, 1, "z", 0);
    TextAround(d);
    TextAround(d');
    Regrouped("k", middle, "z");
  }

  /** What lies between the type and the description: the two flags and the two thresholds. */
  function Middle(enabled: bool, sendOnResolved: bool, successThreshold: int, failureThreshold: int): string {
    (if enabled then "true" else "false") + "_" +
    ((if sendOnResolved then "true" else "false") + "_" + (Itoa(successThreshold) + "_" + Itoa(failureThreshold)))
  }

  lemma TextAround(d: Definition)
    ensures var middle := Middle(d.enabled, d.sendOnResolved, d.successThreshold, d.failureThreshold);
      d.Checksum() == d.kind + "_" + (middle + "_" + d.description)
  {
    var f0 := Field(Itoa(d.failureThreshold), Last(d.description));
    var f1 := Field(Itoa(d.successThreshold), f0);
    var f2 := Field(FormatBool(d.sendOnResolved), f1);
    var f3 := Field(FormatBool(d.enabled), f2);
    assert d.Checksum() == d.kind + "_" + f3.Joined();
    assert f3.Joined() == FormatBool(d.enabled) + "_" + f2.Joined();
    assert f0.Joined() == Itoa(d.failureThreshold) + "_" + d.description;
    assert f1.Joined() == Itoa(d.successThreshold) + "_" + f0.Joined();
    assert f2.Joined() == FormatBool(d.sendOnResolved) + "_" + f1.Joined();
    Nested(Itoa(d.successThreshold), Itoa(d.failureThreshold), d.description);
    Nested(FormatBool(d.sendOnResolved), Itoa(d.successThreshold) + "_" + Itoa(d.failureThreshold), d.description);
    Nested(FormatBool(d.enabled),
           FormatBool(d.sendOnResolved) + "_" + (Itoa(d.successThreshold) + "_" + Itoa(d.failureThreshold)),
           d.description);
  }

  lemma Nested(a: string, b: string, c: string)
    ensures a + "_" + (b + "_" + c) == (a + "_" + b) + "_" + c
  {
  }

  lemma Regrouped(kind: string, middle: string, last: string)
    ensures kind + "_" + (middle + "_" + (middle + "_" + last)) == (kind + "_" + middle) + "_" + (middle + "_" + last)
  {
  }

  // ---------------------------------------------------------------------------------
  // Which configurations keep the table a mirror
  // ---------------------------------------------------------------------------------

  /** The alerts of the state are those of the definitions. */
  predicate Defines(defs: seq<Definition>, alerts: seq<Alert>) {
    |defs| == |alerts| && forall i :: 0 <= i < |defs| ==> alerts[i].config == defs[i].Config()
  }

  /** No two enabled alerts agree in everything but the reminder interval. */
  ghost predicate DistinctDefinitions(defs: seq<Definition>) {
    forall i, j :: 0 <= i < j < |defs| && defs[i].enabled ==>
      defs[i].(minimumReminderInterval := 0) != defs[j].(minimumReminderInterval := 0)
  }

  /** The types have equally many underscores, as those of the program do: none has any. */
  predicate SeparableTypes(defs: seq<Definition>) {
    forall i, j :: 0 <= i < |defs| && 0 <= j < |defs| ==> multiset(defs[i].kind)['_'] == multiset(defs[j].kind)['_']
  }

  lemma DistinctDefinitionsIff(defs: seq<Definition>, alerts: seq<Alert>)
    requires Defines(defs, alerts)
    requires SeparableTypes(defs)
    ensures DistinctRows(alerts) <==> DistinctDefinitions(defs)
  {
    forall i, j | 0 <= i < |defs| && 0 <= j < |defs|
      ensures alerts[i].config.checksum == alerts[j].config.checksum <==>
        defs[i].(minimumReminderInterval := 0) == defs[j].(minimumReminderInterval := 0)
    {
      RowsEqualIff(defs[i], defs[j]);
    }
  }

  /** In every run with restarts the table mirrors the triggered flags exactly if no two enabled alerts
      of the endpoint agree in type, send-on-resolved flag, thresholds and description. */
  lemma MirrorIffDistinctDefinitions(s: State, defs: seq<Definition>)
    requires Clean(s) && Validated(s) && Defines(defs, s.alerts) && SeparableTypes(defs)
    ensures (forall h: History<Action> :: ActionsFit(h, |s.alerts|) ==> Mirror(Perform(s, h))) <==>
            DistinctDefinitions(defs)
  {
    DistinctDefinitionsIff(defs, s.alerts);
    MirrorIffDistinctRows(s);
  }
}
