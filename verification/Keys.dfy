/**
  Store keys (app/config/key/key.go) and the configuration check that keeps them apart
  (app/config/config.go).
*/
module Keys {
  import opened GoStrings

  function Sanitize(s: string): string {
    var s1 := TrimSpace(ToLower(s));
    var s2 := ReplaceChar(s1, '/', '-');
    var s3 := ReplaceChar(s2, '_', '-');
    var s4 := ReplaceChar(s3, '.', '-');
    var s5 := ReplaceChar(s4, ',', '-');
    var s6 := ReplaceChar(s5, ' ', '-');
    ReplaceChar(s6, '#', '-')
  }

  function Key(group: string, name: string): string {
    Sanitize(group) + "_" + Sanitize(name)
  }

  /** A key is the sanitized group, an underscore and the sanitized name. */
  lemma KeyParts(group: string, name: string)
    ensures var k, n := Key(group, name), |Sanitize(group)|;
      |k| == n + 1 + |Sanitize(name)| && k[..n] == Sanitize(group) && k[n] == '_' && k[n + 1..] == Sanitize(name)
  {
  }

  lemma SanitizedHasNoUnderscore(s: string)
    ensures '_' !in Sanitize(s)
  {
    var s1 := TrimSpace(ToLower(s));
    var s3 := ReplaceChar(ReplaceChar(s1, '/', '-'), '_', '-');
    assert '_' !in s3;
    var s5 := ReplaceChar(ReplaceChar(s3, '.', '-'), ',', '-');
    assert '_' !in s5;
  }

  /** Sanitizing works character by character on the trimmed text: letters become small, and the six
      special characters become dashes. */
  lemma SanitizedCharacters(s: string)
    ensures var trimmed, r := TrimSpace(ToLower(s)), Sanitize(s);
      && |r| == |trimmed|
      && forall i :: 0 <= i < |r| ==>
           r[i] == if trimmed[i] in {'/', '_', '.', ',', ' ', '#'} then '-' else trimmed[i]
  {
    var s1 := TrimSpace(ToLower(s));
    var s3 := ReplaceChar(ReplaceChar(s1, '/', '-'), '_', '-');
    var s5 := ReplaceChar(ReplaceChar(s3, '.', '-'), ',', '-');
    assert forall i :: 0 <= i < |s1| ==> s3[i] == if s1[i] in {'/', '_'} then '-' else s1[i];
    assert forall i :: 0 <= i < |s1| ==> s5[i] == if s3[i] in {'.', ','} then '-' else s3[i];
  }

  /** Lower-casing turns each capital letter into its small one and leaves the rest. */
  lemma LoweredCharacters(s: string, i: nat)
    requires i < |s|
    ensures !('A' <= s[i] <= 'Z') ==> ToLower(s)[i] == s[i]
    ensures 'A' <= s[i] <= 'Z' ==> 'a' <= ToLower(s)[i] <= 'z' && ToLower(s)[i] - 'a' == s[i] - 'A'
  {
  }

  /** The underscore of a key is its only separator, so a key determines both sanitized parts. */
  lemma KeysEqualIff(group: string, name: string, group': string, name': string)
    ensures Key(group, name) == Key(group', name') <==>
      Sanitize(group) == Sanitize(group') && Sanitize(name) == Sanitize(name')
  {
    SanitizedHasNoUnderscore(group);
    SanitizedHasNoUnderscore(group');
    if Key(group, name) == Key(group', name') {
      FirstUnderscore(Sanitize(group), Sanitize(name), Sanitize(group'), Sanitize(name'));
    }
  }

  datatype Name = Name(group: string, name: string)

  datatype Suite = Suite(id: Name, endpoints: seq<string>)

  datatype Config = Config(endpoints: seq<Name>, externalEndpoints: seq<Name>, suites: seq<Suite>)

  function NameKeys(names: seq<Name>): (keys: seq<string>)
    ensures |keys| == |names|
    ensures forall i :: 0 <= i < |names| ==> keys[i] == Key(names[i].group, names[i].name)
  {
    seq(|names|, i requires 0 <= i < |names| => Key(names[i].group, names[i].name))
  }

  /** The names of a suite and of its endpoints, which inherit its group. */
  function SuiteNames(s: Suite): seq<Name> {
    [s.id] + seq(|s.endpoints|, i requires 0 <= i < |s.endpoints| => Name(s.id.group, s.endpoints[i]))
  }

  /** The names of the suites from number i on. */
  function SuitesNames(suites: seq<Suite>, i: nat): seq<Name>
    requires i <= |suites|
    decreases |suites| - i
  {
    if i == |suites| then [] else SuiteNames(suites[i]) + SuitesNames(suites, i + 1)
  }

  /** Everything in the configuration that owns a key, in the order in which it is checked. */
  function AllNames(c: Config): seq<Name> {
    c.endpoints + c.externalEndpoints + SuitesNames(c.suites, 0)
  }

  /** Every endpoint, every external endpoint, every suite and, in the group of its suite, every endpoint of
      a suite owns a key, and nothing else does. */
  lemma NamesAre(c: Config, n: Name)
    ensures n in AllNames(c) <==>
      || n in c.endpoints || n in c.externalEndpoints
      || (exists i :: 0 <= i < |c.suites| && OwnedBy(c.suites[i], n))
  {
    SuitesNamesAre(c.suites, 0, n);
  }

  ghost predicate OwnedBy(suite: Suite, n: Name) {
    n == suite.id || (n.group == suite.id.group && n.name in suite.endpoints)
  }

  lemma {:induction false} SuitesNamesAre(suites: seq<Suite>, from: nat, n: Name)
    requires from <= |suites|
    ensures n in SuitesNames(suites, from) <==> exists i :: from <= i < |suites| && OwnedBy(suites[i], n)
    decreases |suites| - from
  {
    if from < |suites| {
      SuitesNamesAre(suites, from + 1, n);
      SuiteNamesAre(suites[from], n);
      InConcat(SuiteNames(suites[from]), SuitesNames(suites, from + 1), n);
    }
  }

  lemma InConcat<T>(a: seq<T>, b: seq<T>, x: T)
    ensures x in a + b <==> x in a || x in b
  {
  }

  lemma SuiteNamesAre(suite: Suite, n: Name)
    ensures n in SuiteNames(suite) <==> OwnedBy(suite, n)
  {
    var names := SuiteNames(suite);
    assert names[0] == suite.id;
    assert forall i :: 0 <= i < |suite.endpoints| ==> names[i + 1] == Name(suite.id.group, suite.endpoints[i]);
    if n.group == suite.id.group && n.name in suite.endpoints {
      var i :| 0 <= i < |suite.endpoints| && suite.endpoints[i] == n.name;
      assert names[i + 1] == n;
    }
  }

  /** No name is left out of the count: there are as many as the configuration lists. */
  lemma {:induction false} NumberOfNames(suites: seq<Suite>, from: nat)
    requires from <= |suites|
    ensures |SuitesNames(suites, from)| == SumOfSizes(suites, from)
    decreases |suites| - from
  {
    if from < |suites| {
      NumberOfNames(suites, from + 1);
    }
  }

  function SumOfSizes(suites: seq<Suite>, from: nat): nat
    requires from <= |suites|
    decreases |suites| - from
  {
    if from == |suites| then 0 else 1 + |suites[from].endpoints| + SumOfSizes(suites, from + 1)
  }

  ghost predicate NoDuplicates(keys: seq<string>) {
    forall i, j :: 0 <= i < j < |keys| ==> keys[i] != keys[j]
  }

  /** The store rows of the i-th and the j-th name coincide: both sanitized parts are equal. */
  ghost predicate SameRow(a: Name, b: Name) {
    Sanitize(a.group) == Sanitize(b.group) && Sanitize(a.name) == Sanitize(b.name)
  }

  ghost predicate DistinctRows(names: seq<Name>) {
    forall i, j :: 0 <= i < j < |names| ==> !SameRow(names[i], names[j])
  }

  lemma DistinctRowsHaveDistinctKeys(names: seq<Name>)
    ensures DistinctRows(names) <==> NoDuplicates(NameKeys(names))
  {
    var keys := NameKeys(names);
    forall i, j | 0 <= i < j < |names| ensures keys[i] == keys[j] <==> SameRow(names[i], names[j]) {
      KeysEqualIff(names[i].group, names[i].name, names[j].group, names[j].name);
    }
  }

  lemma NameKeysConcat(a: seq<Name>, b: seq<Name>)
    ensures NameKeys(a + b) == NameKeys(a) + NameKeys(b)
  {
  }

  lemma DuplicateRemains(a: seq<string>, b: seq<string>)
    requires !NoDuplicates(a)
    ensures !NoDuplicates(a + b)
  {
    var i, j :| 0 <= i < j < |a| && a[i] == a[j];
    assert (a + b)[i] == a[i] && (a + b)[j] == a[j];
  }

  lemma OneMoreKey(keys: seq<string>, k: string)
    requires NoDuplicates(keys)
    ensures NoDuplicates(keys + [k]) <==> k !in keys
  {
    if k in keys {
      var i :| 0 <= i < |keys| && keys[i] == k;
      assert (keys + [k])[i] == (keys + [k])[|keys|];
    }
  }

  /** Adds keys to those seen so far; stops at the first duplicate. */
  method AddAll(keyMap: set<string>, ghost before: seq<string>, keys: seq<string>)
      returns (ok: bool, keyMap': set<string>)
    requires NoDuplicates(before) && forall k :: k in keyMap <==> k in before
    ensures ok <==> NoDuplicates(before + keys)
    ensures ok ==> forall k :: k in keyMap' <==> k in before + keys
  {
    keyMap' := keyMap;
    ghost var seen := before;
    for i := 0 to |keys|
      invariant seen == before + keys[..i]
      invariant NoDuplicates(seen) && forall k :: k in keyMap' <==> k in seen
    {
      OneMoreKey(seen, keys[i]);
      assert before + keys == seen + [keys[i]] + keys[i + 1..];
      if keys[i] in keyMap' {
        DuplicateRemains(seen + [keys[i]], keys[i + 1..]);
        return false, keyMap';
      }
      seen := seen + [keys[i]];
      keyMap' := keyMap' + {keys[i]};
    }
    assert keys[..|keys|] == keys;
    ok := true;
  }

  /** The loop over the suites. */
  method AddSuites(keyMap: set<string>, ghost before: seq<string>, suites: seq<Suite>) returns (ok: bool)
    requires NoDuplicates(before) && forall k :: k in keyMap <==> k in before
    ensures ok <==> NoDuplicates(before + NameKeys(SuitesNames(suites, 0)))
  {
    var keyMap' := keyMap;
    ghost var seen, all := before, before + NameKeys(SuitesNames(suites, 0));
    for i := 0 to |suites|
      invariant all == seen + NameKeys(SuitesNames(suites, i))
      invariant NoDuplicates(seen) && forall k :: k in keyMap' <==> k in seen
    {
      var keys := NameKeys(SuiteNames(suites[i]));
      ghost var rest := NameKeys(SuitesNames(suites, i + 1));
      NameKeysConcat(SuiteNames(suites[i]), SuitesNames(suites, i + 1));
      assert all == seen + keys + rest;
      ok, keyMap' := AddAll(keyMap', seen, keys);
      seen := seen + keys;
      if !ok {
        DuplicateRemains(seen, rest);
        return;
      }
    }
    assert all == seen;
    ok := true;
  }

  /** `validateUniqueKeys` accepts a configuration exactly when no two of its endpoints, external
      endpoints, suites and suite endpoints have the same sanitized group and name, that is, when
      all of them have store rows of their own. */
  method ValidateUniqueKeys(c: Config) returns (ok: bool)
    ensures ok <==> DistinctRows(AllNames(c))
  {
    ghost var first, second, third :=
      NameKeys(c.endpoints), NameKeys(c.externalEndpoints), NameKeys(SuitesNames(c.suites, 0));
    NameKeysConcat(c.endpoints, c.externalEndpoints);
    NameKeysConcat(c.endpoints + c.externalEndpoints, SuitesNames(c.suites, 0));
    DistinctRowsHaveDistinctKeys(AllNames(c));
    var keyMap;
    ok, keyMap := AddAll({}, [], NameKeys(c.endpoints));
    assert [] + first == first;
    if !ok {
      DuplicateRemains(first, second);
      DuplicateRemains(first + second, third);
      return;
    }
    ok, keyMap := AddAll(keyMap, first, NameKeys(c.externalEndpoints));
    if !ok {
      DuplicateRemains(first + second, third);
      return;
    }
    ok := AddSuites(keyMap, first + second, c.suites);
  }
}
