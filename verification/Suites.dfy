/**
  Sequential execution of the endpoints of a suite with a shared context (app/config/suite), and
  the position of its results, which decides what alerting pairs them with (app/watchdog/suite.go).

  What evaluating an endpoint returns, what a placeholder resolves to, in which order a map is
  iterated and when the suite timer fires are given by an oracle.
*/
module Suites {
  import opened Collections
  import opened GoStrings
  import opened Gontexts

  datatype EndpointResult = EndpointResult(success: bool, body: string, errors: seq<string>)

  datatype Endpoint = Endpoint(name: string, alwaysRun: bool, store: map<string, string>)

  datatype Oracle = Oracle(
    /* what evaluating the i-th endpoint returns when its turn comes, with the context it then finds */
    evaluate: nat -> EndpointResult,
    /* extractValueForStorage; None is an error */
    extract: (string, EndpointResult) -> Option<Scalar>,
    /* the order in which the store mappings of the i-th endpoint are iterated */
    order: nat -> seq<string>,
    /* whether the timer of the suite has fired by the time the i-th endpoint is reached */
    timerFired: nat -> bool)

  // ---------------------------------------------------------------------------------
  // Storing values of a result
  // ---------------------------------------------------------------------------------

  /** What storing under one key of the mappings makes of the context. */
  function StoreKey(s: Shape, key: string, mappings: map<string, string>, result: EndpointResult,
                    extract: (string, EndpointResult) -> Option<Scalar>): (r: Shape)
    requires s.Dict? && key in mappings
    ensures r.Dict?
  {
    match extract(mappings[key], result)
    case None => s
    case Some(v) => Put(s, PathOf(key), Atom(v))
  }

  /** Storing under several keys, one after the other. */
  function StoreKeys(s: Shape, keys: seq<string>, mappings: map<string, string>, result: EndpointResult,
                     extract: (string, EndpointResult) -> Option<Scalar>): (r: Shape)
    requires s.Dict? && forall k :: k in keys ==> k in mappings
    ensures r.Dict?
    decreases keys
  {
    if keys == [] then s
    else StoreKeys(StoreKey(s, keys[0], mappings, result, extract), keys[1..], mappings, result, extract)
  }

  /** A sequence that a map iteration may yield: every key once. */
  ghost predicate Enumerates(keys: seq<string>, mappings: map<string, string>) {
    && (forall k :: k in keys <==> k in mappings)
    && (forall i, j :: 0 <= i < j < |keys| ==> keys[i] != keys[j])
  }

  ghost predicate SomeExtractionFails(mappings: map<string, string>, result: EndpointResult,
                                      extract: (string, EndpointResult) -> Option<Scalar>) {
    exists k :: k in mappings && extract(mappings[k], result).None?
  }

  /** `StoreResultValues`: a value that cannot be extracted is reported, the others are stored. The
      values that are returned have None where the original has the text of an error. */
  method StoreResultValues(ctx: Gontext, mappings: map<string, string>, keys: seq<string>, result: EndpointResult,
                           extract: (string, EndpointResult) -> Option<Scalar>)
      returns (storedValues: map<string, Option<Scalar>>, failed: bool)
    requires ctx.Valid() && Enumerates(keys, mappings)
    modifies ctx`tree, ctx.tree.objects
    ensures ctx.Valid() && ctx.Contents() == StoreKeys(old(ctx.Contents()), keys, mappings, result, extract)
    ensures HoldsValues(old(ctx.Contents()), ctx.Contents(), mappings, result, extract)
    ensures failed <==> SomeExtractionFails(mappings, result, extract)
    ensures forall k :: k in storedValues <==> k in mappings
    ensures forall k :: k in storedValues ==> storedValues[k] == extract(mappings[k], result)
    ensures fresh(ctx.tree.objects - old(ctx.tree.objects))
  {
    StoredValues(ctx.Contents(), keys, mappings, result, extract);
    storedValues, failed := StoreEach(ctx, mappings, keys, result, extract);
    forall k | k in mappings ensures k in storedValues {
      assert k in keys;
    }
  }

  /** The loop of `StoreResultValues`. */
  method StoreEach(ctx: Gontext, mappings: map<string, string>, keys: seq<string>, result: EndpointResult,
                   extract: (string, EndpointResult) -> Option<Scalar>)
      returns (storedValues: map<string, Option<Scalar>>, failed: bool)
    requires ctx.Valid() && forall k :: k in keys ==> k in mappings
    modifies ctx`tree, ctx.tree.objects
    ensures ctx.Valid() && ctx.Contents() == StoreKeys(old(ctx.Contents()), keys, mappings, result, extract)
    ensures Recorded(storedValues, failed, mappings, result, extract)
    ensures forall j :: 0 <= j < |keys| ==> keys[j] in storedValues
    ensures fresh(ctx.tree.objects - old(ctx.tree.objects))
  {
    storedValues, failed := map[], false;
    ghost var final := StoreKeys(ctx.Contents(), keys, mappings, result, extract);
    assert keys[0..] == keys;
    for i := 0 to |keys|
      invariant ctx.Valid() && fresh(ctx.tree.objects - old(ctx.tree.objects))
      invariant StoreKeys(ctx.Contents(), keys[i..], mappings, result, extract) == final
      invariant Recorded(storedValues, failed, mappings, result, extract)
      invariant forall j :: 0 <= j < i ==> keys[j] in storedValues
    {
      StoreNext(ctx.Contents(), keys, i, mappings, result, extract);
      var value := StoreResultValue(ctx, keys[i], mappings, result, extract);
      storedValues, failed := Recording(storedValues, failed, keys[i], value, mappings, result, extract);
    }
  }

  lemma StoreNext(s: Shape, keys: seq<string>, i: nat, mappings: map<string, string>, result: EndpointResult,
                  extract: (string, EndpointResult) -> Option<Scalar>)
    requires s.Dict? && i < |keys| && forall k :: k in keys ==> k in mappings
    ensures StoreKeys(s, keys[i..], mappings, result, extract)
         == StoreKeys(StoreKey(s, keys[i], mappings, result, extract), keys[i + 1..], mappings, result, extract)
  {
    assert keys[i..][1..] == keys[i + 1..];
  }

  /** The values recorded so far are what extraction gives, and a failure is known if there is one. */
  ghost predicate Recorded(storedValues: map<string, Option<Scalar>>, failed: bool, mappings: map<string, string>,
                           result: EndpointResult, extract: (string, EndpointResult) -> Option<Scalar>) {
    && (forall k :: k in storedValues ==> k in mappings && storedValues[k] == extract(mappings[k], result))
    && (failed <==> exists k :: k in storedValues && storedValues[k].None?)
  }

  method Recording(storedValues: map<string, Option<Scalar>>, failed: bool, key: string, value: Option<Scalar>,
                   ghost mappings: map<string, string>, ghost result: EndpointResult,
                   ghost extract: (string, EndpointResult) -> Option<Scalar>)
      returns (storedValues': map<string, Option<Scalar>>, failed': bool)
    requires Recorded(storedValues, failed, mappings, result, extract)
    requires key in mappings && value == extract(mappings[key], result)
    ensures Recorded(storedValues', failed', mappings, result, extract)
    ensures forall k :: k in storedValues' <==> k in storedValues || k == key
  {
    storedValues', failed' := storedValues[key := value], failed || value.None?;
    assert storedValues'[key] == value;
    assert forall k :: k in storedValues ==> k in storedValues' && storedValues'[k] == storedValues[k];
  }

  /** One iteration of the loop of `StoreResultValues`. */
  method StoreResultValue(ctx: Gontext, contextKey: string, mappings: map<string, string>, result: EndpointResult,
                          extract: (string, EndpointResult) -> Option<Scalar>) returns (value: Option<Scalar>)
    requires ctx.Valid() && contextKey in mappings
    modifies ctx`tree, ctx.tree.objects
    ensures ctx.Valid() && ctx.Contents() == StoreKey(old(ctx.Contents()), contextKey, mappings, result, extract)
    ensures value == extract(mappings[contextKey], result)
    ensures value.Some? ==> Lookup(ctx.Contents(), PathOf(contextKey)) == Some(Atom(value.value))
    ensures value.None? ==> ctx.Contents() == old(ctx.Contents())
    ensures fresh(ctx.tree.objects - old(ctx.tree.objects))
  {
    value := extract(mappings[contextKey], result);
    if value.Some? {
      ctx.Set(contextKey, Plain(value.value), Leaf(value.value));
    }
  }

  // ---------------------------------------------------------------------------------
  // Iteration order
  // ---------------------------------------------------------------------------------

  /** Something is stored under the key. */
  predicate Stored(key: string, mappings: map<string, string>, result: EndpointResult,
                   extract: (string, EndpointResult) -> Option<Scalar>) {
    key in mappings && extract(mappings[key], result).Some?
  }

  /** No two keys under which something is stored lie on one path. */
  ghost predicate ConflictFree(mappings: map<string, string>, result: EndpointResult,
                               extract: (string, EndpointResult) -> Option<Scalar>) {
    forall k, l :: Stored(k, mappings, result, extract) && Stored(l, mappings, result, extract) && k != l ==>
      Independent(PathOf(k), PathOf(l))
  }

  /** Storing under the two keys in either order has the same effect, whatever the context. */
  lemma StoresCommute(s: Shape, k: string, l: string, mappings: map<string, string>, result: EndpointResult,
                      extract: (string, EndpointResult) -> Option<Scalar>)
    requires s.Dict? && k in mappings && l in mappings && k != l && ConflictFree(mappings, result, extract)
    ensures StoreKey(StoreKey(s, k, mappings, result, extract), l, mappings, result, extract) ==
            StoreKey(StoreKey(s, l, mappings, result, extract), k, mappings, result, extract)
  {
    match (extract(mappings[k], result), extract(mappings[l], result))
    case (Some(v), Some(w)) => PutsCommute(s, PathOf(k), Atom(v), PathOf(l), Atom(w));
    case _ =>
  }

  /** A key may as well be stored first. */
  lemma {:induction false} StoreFirst(s: Shape, before: seq<string>, key: string, after: seq<string>,
                                      mappings: map<string, string>, result: EndpointResult,
                                      extract: (string, EndpointResult) -> Option<Scalar>)
    requires s.Dict? && key in mappings && key !in before && ConflictFree(mappings, result, extract)
    requires forall k :: k in before || k in after ==> k in mappings
    ensures StoreKeys(s, before + [key] + after, mappings, result, extract) ==
            StoreKeys(StoreKey(s, key, mappings, result, extract), before + after, mappings, result, extract)
    decreases before
  {
    if before == [] {
      assert before + [key] + after == [key] + after && ([key] + after)[1..] == after && before + after == after;
    } else {
      assert (before + [key] + after)[1..] == before[1..] + [key] + after;
      assert (before + after)[1..] == before[1..] + after;
      var s1 := StoreKey(s, before[0], mappings, result, extract);
      StoreFirst(s1, before[1..], key, after, mappings, result, extract);
      StoresCommute(s, before[0], key, mappings, result, extract);
    }
  }

  /** Two sequences without repetitions that have the same elements. */
  ghost predicate SameKeys(a: seq<string>, b: seq<string>) {
    && (forall k :: k in a <==> k in b)
    && (forall i, j :: 0 <= i < j < |a| ==> a[i] != a[j])
    && (forall i, j :: 0 <= i < j < |b| ==> b[i] != b[j])
  }

  lemma HasFirst(b: seq<string>)
    requires b != []
    ensures exists k :: k in b
  {
    assert b[0] in b;
  }

  lemma {:induction false} OrderIsIrrelevant(s: Shape, a: seq<string>, b: seq<string>, mappings: map<string, string>,
                                             result: EndpointResult,
                                             extract: (string, EndpointResult) -> Option<Scalar>)
    requires s.Dict? && SameKeys(a, b) && ConflictFree(mappings, result, extract)
    requires forall k :: k in a ==> k in mappings
    ensures StoreKeys(s, a, mappings, result, extract) == StoreKeys(s, b, mappings, result, extract)
    decreases a
  {
    if a == [] {
      if b != [] {
        HasFirst(b);
      }
    } else {
      var key := a[0];
      assert key in b;
      var i :| 0 <= i < |b| && b[i] == key;
      var before, after := b[..i], b[i + 1..];
      assert b == before + [key] + after;
      StoreFirst(s, before, key, after, mappings, result, extract);
      SameKeysTails(a, b, i);
      OrderIsIrrelevant(StoreKey(s, key, mappings, result, extract), a[1..], before + after, mappings, result, extract);
    }
  }

  lemma SameKeysTails(a: seq<string>, b: seq<string>, i: nat)
    requires SameKeys(a, b) && a != [] && i < |b| && b[i] == a[0]
    ensures SameKeys(a[1..], b[..i] + b[i + 1..])
    ensures a[0] !in b[..i]
  {
    var rest := b[..i] + b[i + 1..];
    forall k ensures k in a[1..] <==> k in rest {
      if k in a[1..] {
        var j :| 0 <= j < |a[1..]| && a[1..][j] == k;
        assert k == a[j + 1] && k != a[0] && k in b;
        var l :| 0 <= l < |b| && b[l] == k;
        assert if l < i then rest[l] == k else rest[l - 1] == k;
      }
      if k in rest {
        assert k in b;
        assert k != a[0];
        var j :| 0 <= j < |a| && a[j] == k;
        assert a[1..][j - 1] == k;
      }
    }
  }

  lemma DifferentKeysDifferentPaths(k: string, l: string)
    requires k != l
    ensures PathOf(k) != PathOf(l)
  {
    JoinOfSplit(k, ".");
    JoinOfSplit(l, ".");
  }

  /** Keys without dots, the documented form, never conflict. */
  lemma DotFreeKeysAreConflictFree(mappings: map<string, string>, result: EndpointResult,
                                   extract: (string, EndpointResult) -> Option<Scalar>)
    requires forall k :: k in mappings ==> '.' !in k
    ensures ConflictFree(mappings, result, extract)
  {
    forall k, l | k in mappings && l in mappings && k != l ensures Independent(PathOf(k), PathOf(l)) {
      DotsLeadOn(k, "");
      DotsLeadOn(l, "");
      assert [k][0] != [l][0];
    }
  }

  /** All keys but two, in some order. */
  lemma EnumerationEndingIn(mappings: map<string, string>, k: string, l: string) returns (keys: seq<string>)
    requires k in mappings && l in mappings && k != l
    ensures Enumerates(keys + [k, l], mappings) && Enumerates(keys + [l, k], mappings)
  {
    keys := ListOf(mappings.Keys - {k, l});
  }

  lemma {:induction false} ListOf<T>(s: set<T>) returns (list: seq<T>)
    ensures forall x :: x in list <==> x in s
    ensures forall i, j :: 0 <= i < j < |list| ==> list[i] != list[j]
    decreases s
  {
    if s == {} {
      list := [];
    } else {
      var x :| x in s;
      var rest := ListOf(s - {x});
      list := [x] + rest;
    }
  }

  lemma {:induction false} StoreKeysConcat(s: Shape, a: seq<string>, b: seq<string>, mappings: map<string, string>,
                                           result: EndpointResult, extract: (string, EndpointResult) -> Option<Scalar>)
    requires s.Dict? && forall k :: k in a || k in b ==> k in mappings
    ensures StoreKeys(s, a + b, mappings, result, extract) ==
            StoreKeys(StoreKeys(s, a, mappings, result, extract), b, mappings, result, extract)
    decreases a
  {
    if a == [] {
      assert a + b == b;
    } else {
      assert (a + b)[1..] == a[1..] + b;
      StoreKeysConcat(StoreKey(s, a[0], mappings, result, extract), a[1..], b, mappings, result, extract);
    }
  }

  ghost predicate OrderFree(s: Shape, mappings: map<string, string>, result: EndpointResult,
                            extract: (string, EndpointResult) -> Option<Scalar>)
    requires s.Dict?
  {
    forall a, b :: Enumerates(a, mappings) && Enumerates(b, mappings) ==>
      StoreKeys(s, a, mappings, result, extract) == StoreKeys(s, b, mappings, result, extract)
  }

  lemma ConflictFreeIsOrderFree(s: Shape, mappings: map<string, string>, result: EndpointResult,
                                extract: (string, EndpointResult) -> Option<Scalar>)
    requires s.Dict? && ConflictFree(mappings, result, extract)
    ensures OrderFree(s, mappings, result, extract)
  {
    forall a, b | Enumerates(a, mappings) && Enumerates(b, mappings)
      ensures StoreKeys(s, a, mappings, result, extract) == StoreKeys(s, b, mappings, result, extract)
    {
      OrderIsIrrelevant(s, a, b, mappings, result, extract);
    }
  }

  /** The context a result leaves behind is independent of map iteration order exactly when no two
      stored keys lie on one path. */
  lemma OrderFreeIffConflictFree(s: Shape, mappings: map<string, string>, result: EndpointResult,
                                 extract: (string, EndpointResult) -> Option<Scalar>)
    requires s.Dict?
    ensures OrderFree(s, mappings, result, extract) <==> ConflictFree(mappings, result, extract)
  {
    if ConflictFree(mappings, result, extract) {
      ConflictFreeIsOrderFree(s, mappings, result, extract);
    } else {
      var k, l := SomeConflict(mappings, result, extract);
      ConflictBreaksOrder(s, k, l, mappings, result, extract);
    }
  }

  lemma SomeConflict(mappings: map<string, string>, result: EndpointResult,
                     extract: (string, EndpointResult) -> Option<Scalar>) returns (k: string, l: string)
    requires !ConflictFree(mappings, result, extract)
    ensures Stored(k, mappings, result, extract) && Stored(l, mappings, result, extract)
    ensures k != l && !Independent(PathOf(k), PathOf(l))
  {
    k, l :| Stored(k, mappings, result, extract) && Stored(l, mappings, result, extract) && k != l
      && !Independent(PathOf(k), PathOf(l));
  }

  lemma ConflictBreaksOrder(s: Shape, k: string, l: string, mappings: map<string, string>, result: EndpointResult,
                            extract: (string, EndpointResult) -> Option<Scalar>)
    requires s.Dict? && Stored(k, mappings, result, extract) && Stored(l, mappings, result, extract)
    requires k != l && !Independent(PathOf(k), PathOf(l))
    ensures !OrderFree(s, mappings, result, extract)
  {
    var keys := EnumerationEndingIn(mappings, k, l);
    ConflictShows(s, keys, k, l, mappings, result, extract);
  }

  lemma ConflictShows(s: Shape, keys: seq<string>, k: string, l: string, mappings: map<string, string>,
                      result: EndpointResult, extract: (string, EndpointResult) -> Option<Scalar>)
    requires s.Dict? && k != l && k in mappings && l in mappings && forall x :: x in keys ==> x in mappings
    requires extract(mappings[k], result).Some? && extract(mappings[l], result).Some?
    requires !Independent(PathOf(k), PathOf(l))
    ensures StoreKeys(s, keys + [k, l], mappings, result, extract) !=
            StoreKeys(s, keys + [l, k], mappings, result, extract)
  {
    var s' := StoreKeys(s, keys, mappings, result, extract);
    StoreKeysConcat(s, keys, [k, l], mappings, result, extract);
    StoreKeysConcat(s, keys, [l, k], mappings, result, extract);
    TwoKeys(s', k, l, mappings, result, extract);
    TwoKeys(s', l, k, mappings, result, extract);
    DifferentKeysDifferentPaths(k, l);
    var v, w := Atom(extract(mappings[k], result).value), Atom(extract(mappings[l], result).value);
    PutsCommuteIff(s', PathOf(k), v, PathOf(l), w);
    assert StoreKeys(s, keys + [k, l], mappings, result, extract) == StoreKeys(s', [k, l], mappings, result, extract);
    assert StoreKeys(s, keys + [l, k], mappings, result, extract) == StoreKeys(s', [l, k], mappings, result, extract);
    assert StoreKey(StoreKey(s', k, mappings, result, extract), l, mappings, result, extract) ==
           Put(Put(s', PathOf(k), v), PathOf(l), w);
    assert StoreKey(StoreKey(s', l, mappings, result, extract), k, mappings, result, extract) ==
           Put(Put(s', PathOf(l), w), PathOf(k), v);
  }

  lemma TwoKeys(s: Shape, k: string, l: string, mappings: map<string, string>, result: EndpointResult,
                extract: (string, EndpointResult) -> Option<Scalar>)
    requires s.Dict? && k in mappings && l in mappings
    ensures StoreKeys(s, [k, l], mappings, result, extract) ==
            StoreKey(StoreKey(s, k, mappings, result, extract), l, mappings, result, extract)
  {
    var s1 := StoreKey(s, k, mappings, result, extract);
    assert [k, l][1..] == [l] && [l][1..] == [];
    assert StoreKeys(s, [k, l], mappings, result, extract) == StoreKeys(s1, [l], mappings, result, extract);
    assert StoreKeys(s1, [l], mappings, result, extract) ==
           StoreKeys(StoreKey(s1, l, mappings, result, extract), [], mappings, result, extract);
  }

  // ---------------------------------------------------------------------------------
  // What is stored
  // ---------------------------------------------------------------------------------

  /** The paths on which something is stored for the result. */
  ghost function StoredPaths(mappings: map<string, string>, result: EndpointResult,
                             extract: (string, EndpointResult) -> Option<Scalar>): set<Path> {
    set k | k in mappings && Stored(k, mappings, result, extract) :: PathOf(k)
  }

  /** None of the paths concerns q. */
  ghost predicate LeaveAlone(paths: set<Path>, q: Path) {
    forall p :: p in paths ==> Independent(p, q)
  }

  lemma {:induction false} StoredElsewhere(s: Shape, keys: seq<string>, q: Path, mappings: map<string, string>,
                                           result: EndpointResult,
                                           extract: (string, EndpointResult) -> Option<Scalar>)
    requires s.Dict? && forall k :: k in keys ==> k in mappings
    requires forall k :: k in keys && Stored(k, mappings, result, extract) ==> Independent(PathOf(k), q)
    ensures Lookup(StoreKeys(s, keys, mappings, result, extract), q) == Lookup(s, q)
    decreases keys
  {
    if keys != [] {
      var s1 := StoreKey(s, keys[0], mappings, result, extract);
      assert keys[0] in keys;
      if Stored(keys[0], mappings, result, extract) {
        PutElsewhere(s, PathOf(keys[0]), Atom(extract(mappings[keys[0]], result).value), q);
      }
      StoredElsewhere(s1, keys[1..], q, mappings, result, extract);
    }
  }

  /** Under each key of a result without conflicting keys is found the value that was extracted for it. */
  lemma {:induction false} StoredIsFound(s: Shape, keys: seq<string>, k: string, mappings: map<string, string>,
                                         result: EndpointResult,
                                         extract: (string, EndpointResult) -> Option<Scalar>)
    requires s.Dict? && ConflictFree(mappings, result, extract) && (forall x :: x in keys ==> x in mappings)
    requires forall i, j :: 0 <= i < j < |keys| ==> keys[i] != keys[j]
    requires k in keys && Stored(k, mappings, result, extract)
    ensures Lookup(StoreKeys(s, keys, mappings, result, extract), PathOf(k))
         == Some(Atom(extract(mappings[k], result).value))
    decreases keys
  {
    var s1 := StoreKey(s, keys[0], mappings, result, extract);
    if keys[0] == k {
      PutLaws(s, PathOf(k), Atom(extract(mappings[k], result).value));
      StoredElsewhere(s1, keys[1..], PathOf(k), mappings, result, extract);
    } else {
      StoredIsFound(s1, keys[1..], k, mappings, result, extract);
    }
  }

  /** What storing the values of a result makes of the context: each value is found under its key, and what
      no key concerns is as it was. */
  lemma StoredValues(s: Shape, keys: seq<string>, mappings: map<string, string>, result: EndpointResult,
                     extract: (string, EndpointResult) -> Option<Scalar>)
    requires s.Dict? && Enumerates(keys, mappings)
    ensures HoldsValues(s, StoreKeys(s, keys, mappings, result, extract), mappings, result, extract)
  {
    var after := StoreKeys(s, keys, mappings, result, extract);
    if ConflictFree(mappings, result, extract) {
      forall k | Stored(k, mappings, result, extract)
        ensures Lookup(after, PathOf(k)) == Some(Atom(extract(mappings[k], result).value))
      {
        StoredIsFound(s, keys, k, mappings, result, extract);
      }
    }
    forall q | LeaveAlone(StoredPaths(mappings, result, extract), q) ensures Lookup(after, q) == Lookup(s, q) {
      forall k | k in keys && Stored(k, mappings, result, extract) ensures Independent(PathOf(k), q) {
        assert PathOf(k) in StoredPaths(mappings, result, extract);
      }
      StoredElsewhere(s, keys, q, mappings, result, extract);
    }
  }

  ghost predicate HoldsValues(before: Shape, after: Shape, mappings: map<string, string>, result: EndpointResult,
                              extract: (string, EndpointResult) -> Option<Scalar>) {
    && (ConflictFree(mappings, result, extract) ==>
          forall k :: Stored(k, mappings, result, extract) ==>
            Lookup(after, PathOf(k)) == Some(Atom(extract(mappings[k], result).value)))
    && forall q :: LeaveAlone(StoredPaths(mappings, result, extract), q) ==> Lookup(after, q) == Lookup(before, q)
  }

  // ---------------------------------------------------------------------------------
  // Execution
  // ---------------------------------------------------------------------------------

  /** How far an execution has come. `indices` tells which endpoint each result belongs to. */
  datatype Progress = Progress(
    failed: bool,
    timedOut: bool,
    context: Shape,
    results: seq<EndpointResult>,
    indices: seq<nat>)

  /** The oracle iterates each endpoint's mappings in some order. */
  ghost predicate Orders(endpoints: seq<Endpoint>, oracle: Oracle) {
    forall i :: 0 <= i < |endpoints| ==> Enumerates(oracle.order(i), endpoints[i].store)
  }

  /** Stands for the text that lists what could not be stored. */
  const STORE_ERROR := "failed to store values"

  /** The result that is kept: storing problems are added to its errors, but do not fail it. */
  ghost function Reported(endpoint: Endpoint, result: EndpointResult, oracle: Oracle): (r: EndpointResult)
    ensures r.success == result.success && r.body == result.body
    ensures STORE_ERROR in r.errors <==>
      STORE_ERROR in result.errors || SomeExtractionFails(endpoint.store, result, oracle.extract)
    ensures forall e :: e != STORE_ERROR ==> (e in r.errors <==> e in result.errors)
  {
    if SomeExtractionFails(endpoint.store, result, oracle.extract)
    then result.(errors := AppendNew(result.errors, STORE_ERROR))
    else result
  }

  /** One iteration of the loop of `Execute`. */
  ghost function ExecuteOne(p: Progress, i: nat, endpoints: seq<Endpoint>, oracle: Oracle): (p': Progress)
    requires i < |endpoints| && Orders(endpoints, oracle) && p.context.Dict?
    ensures p'.context.Dict?
  {
    if p.failed && !endpoints[i].alwaysRun then p
    else
      var result := oracle.evaluate(i);
      Progress(
        p.failed || !result.success,
        p.timedOut || oracle.timerFired(i),
        StoreKeys(p.context, oracle.order(i), endpoints[i].store, result, oracle.extract),
        p.results + [Reported(endpoints[i], result, oracle)],
        p.indices + [i])
  }

  ghost function ExecuteFirst(context: Shape, n: nat, endpoints: seq<Endpoint>, oracle: Oracle): (p: Progress)
    requires n <= |endpoints| && Orders(endpoints, oracle) && context.Dict?
    ensures p.context.Dict?
  {
    if n == 0 then Progress(false, false, context, [], [])
    else ExecuteOne(ExecuteFirst(context, n - 1, endpoints, oracle), n - 1, endpoints, oracle)
  }

  ghost predicate AllPassed(results: seq<EndpointResult>) {
    forall j :: 0 <= j < |results| ==> results[j].success
  }

  /** `CalculateSuccess`. */
  method CalculateSuccess(results: seq<EndpointResult>, errors: seq<string>) returns (success: bool)
    ensures success <==> AllPassed(results) && errors == []
  {
    success := true;
    for i := 0 to |results|
      invariant success && forall j :: 0 <= j < i ==> results[j].success
    {
      if !results[i].success {
        success := false;
        break;
      }
    }
    if |errors| > 0 {
      success := false;
    }
  }

  /** Evaluates one endpoint and stores what its result has to offer, even if it failed. */
  method Evaluate(ctx: Gontext, ep: Endpoint, i: nat, oracle: Oracle) returns (epResult: EndpointResult)
    requires ctx.Valid() && Enumerates(oracle.order(i), ep.store)
    modifies ctx`tree, ctx.tree.objects
    ensures ctx.Valid() && fresh(ctx.tree.objects - old(ctx.tree.objects))
    ensures ctx.Contents() ==
            StoreKeys(old(ctx.Contents()), oracle.order(i), ep.store, oracle.evaluate(i), oracle.extract)
    ensures epResult == Reported(ep, oracle.evaluate(i), oracle)
  {
    epResult := oracle.evaluate(i);
    var _, failed := StoreResultValues(ctx, ep.store, oracle.order(i), epResult, oracle.extract);
    if failed {
      epResult := epResult.(errors := AppendNew(epResult.errors, STORE_ERROR));
    }
  }

  /** `Execute`. The timer delivers one message at most, and all it does is add an error: execution
      goes on. */
  method Execute(endpoints: seq<Endpoint>, initialContext: Option<MapNode>, ghost t: Tree, oracle: Oracle)
      returns (results: seq<EndpointResult>, errors: seq<string>, success: bool, context: MapNode,
               ghost final: Tree, ghost indices: seq<nat>)
    requires Orders(endpoints, oracle)
    requires initialContext.Some? ==> t.Node? && t.obj == initialContext.value && Holds(t)
    ensures var start := if initialContext.Some? then Erase(t) else Dict(map[]);
      var p := ExecuteFirst(start, |endpoints|, endpoints, oracle);
      && results == p.results && indices == p.indices && (errors == [] <==> !p.timedOut)
      && final.Node? && final.obj == context && Holds(final) && Erase(final) == p.context
    ensures LeavesValues(if initialContext.Some? then Erase(t) else Dict(map[]), Erase(final), indices, endpoints,
                         oracle)
    ensures success <==> AllPassed(results) && errors == []
  {
    var ctx := new Gontext(initialContext, t);
    ExecutionLeavesValues(ctx.Contents(), endpoints, oracle);
    var suiteHasFailed;
    results, errors, suiteHasFailed, indices := ExecuteAll(ctx, endpoints, oracle);
    context, final := ctx.GetAll();
    success := CalculateSuccess(results, errors);
  }

  /** The loop of `Execute`. */
  method ExecuteAll(ctx: Gontext, endpoints: seq<Endpoint>, oracle: Oracle)
      returns (results: seq<EndpointResult>, errors: seq<string>, suiteHasFailed: bool, ghost indices: seq<nat>)
    requires ctx.Valid() && Orders(endpoints, oracle)
    modifies ctx`tree, ctx.tree.objects
    ensures ctx.Valid()
    ensures Progress(suiteHasFailed, errors != [], ctx.Contents(), results, indices) ==
            ExecuteFirst(old(ctx.Contents()), |endpoints|, endpoints, oracle)
  {
    results, errors, indices := [], [], [];
    suiteHasFailed := false;
    var timerPending := true;
    ghost var p := Progress(false, false, ctx.Contents(), [], []);
    for i := 0 to |endpoints|
      invariant ctx.Valid() && fresh(ctx.tree.objects - old(ctx.tree.objects))
      invariant errors == [] <==> timerPending
      invariant p == Progress(suiteHasFailed, !timerPending, ctx.Contents(), results, indices)
      invariant p == ExecuteFirst(old(ctx.Contents()), i, endpoints, oracle)
    {
      p := ExecuteOne(p, i, endpoints, oracle);
      var ep := endpoints[i];
      if suiteHasFailed && !ep.alwaysRun {
        continue;
      }
      if timerPending && oracle.timerFired(i) {
        errors := errors + ["suite execution timed out"];
        timerPending := false;
      }
      var epResult := Evaluate(ctx, ep, i, oracle);
      results, indices := results + [epResult], indices + [i];
      if !epResult.success {
        suiteHasFailed := true;
      }
    }
  }

  /** What each endpoint returns is what `behave` makes of the context its turn finds. */
  ghost predicate Follows(context: Shape, endpoints: seq<Endpoint>, oracle: Oracle,
                          behave: (nat, Shape) -> EndpointResult)
    requires Orders(endpoints, oracle) && context.Dict?
  {
    forall i :: 0 <= i < |endpoints| ==> FollowsAt(context, i, endpoints, oracle, behave)
  }

  ghost predicate FollowsAt(context: Shape, i: nat, endpoints: seq<Endpoint>, oracle: Oracle,
                            behave: (nat, Shape) -> EndpointResult)
    requires i < |endpoints| && Orders(endpoints, oracle) && context.Dict?
  {
    oracle.evaluate(i) == behave(i, ExecuteFirst(context, i, endpoints, oracle).context)
  }

  /** Two executions of the same suite that may differ in the orders in which mappings are iterated
      are the same if no result has conflicting store keys, although what an endpoint returns may
      depend on everything that is in the context. */
  lemma {:induction false} ExecutionIsOrderFree(context: Shape, n: nat, endpoints: seq<Endpoint>,
                                                oracle: Oracle, oracle': Oracle,
                                                behave: (nat, Shape) -> EndpointResult)
    requires n <= |endpoints| && Orders(endpoints, oracle) && Orders(endpoints, oracle') && context.Dict?
    requires Follows(context, endpoints, oracle, behave) && Follows(context, endpoints, oracle', behave)
    requires oracle'.extract == oracle.extract && oracle'.timerFired == oracle.timerFired
    requires forall i :: 0 <= i < |endpoints| ==> ConflictFree(endpoints[i].store, oracle.evaluate(i), oracle.extract)
    ensures ExecuteFirst(context, n, endpoints, oracle') == ExecuteFirst(context, n, endpoints, oracle)
  {
    if n > 0 {
      ExecutionIsOrderFree(context, n - 1, endpoints, oracle, oracle', behave);
      assert FollowsAt(context, n - 1, endpoints, oracle, behave) &&
        FollowsAt(context, n - 1, endpoints, oracle', behave);
      SameTurn(ExecuteFirst(context, n - 1, endpoints, oracle), n - 1, endpoints, oracle, oracle');
      NextProgress(context, n, endpoints, oracle);
      NextProgress(context, n, endpoints, oracle');
    }
  }

  lemma NextProgress(context: Shape, n: nat, endpoints: seq<Endpoint>, oracle: Oracle)
    requires 0 < n <= |endpoints| && Orders(endpoints, oracle) && context.Dict?
    ensures ExecuteFirst(context, n, endpoints, oracle)
         == ExecuteOne(ExecuteFirst(context, n - 1, endpoints, oracle), n - 1, endpoints, oracle)
  {
  }

  lemma SameTurn(p: Progress, i: nat, endpoints: seq<Endpoint>, oracle: Oracle, oracle': Oracle)
    requires i < |endpoints| && Orders(endpoints, oracle) && Orders(endpoints, oracle') && p.context.Dict?
    requires oracle'.evaluate(i) == oracle.evaluate(i)
    requires oracle'.extract == oracle.extract && oracle'.timerFired == oracle.timerFired
    requires ConflictFree(endpoints[i].store, oracle.evaluate(i), oracle.extract)
    ensures ExecuteOne(p, i, endpoints, oracle') == ExecuteOne(p, i, endpoints, oracle)
  {
    OrderIsIrrelevant(p.context, oracle.order(i), oracle'.order(i), endpoints[i].store, oracle.evaluate(i),
                      oracle.extract);
  }

  // ---------------------------------------------------------------------------------
  // Which endpoints are executed
  // ---------------------------------------------------------------------------------

  /** The first of the first n endpoints to fail; n if none of them does. Up to there nothing is
      skipped, so whether an endpoint is the first to fail does not depend on skipping. */
  ghost function FirstFailure(n: nat, oracle: Oracle): (f: nat)
    ensures f <= n
  {
    if n == 0 then 0
    else
      var f := FirstFailure(n - 1, oracle);
      if f < n - 1 || !oracle.evaluate(n - 1).success then f else n
  }

  ghost predicate Executed(i: nat, n: nat, endpoints: seq<Endpoint>, oracle: Oracle)
    requires i < n <= |endpoints|
  {
    i <= FirstFailure(n, oracle) || endpoints[i].alwaysRun
  }

  ghost predicate Increasing(indices: seq<nat>) {
    forall j, k :: 0 <= j < k < |indices| ==> indices[j] < indices[k]
  }

  /** The j-th result is that of the endpoint it claims to belong to. */
  ghost predicate Belongs(p: Progress, j: nat, n: nat, endpoints: seq<Endpoint>, oracle: Oracle)
    requires n <= |endpoints| && j < |p.indices| == |p.results|
  {
    p.indices[j] < n && p.results[j] == Reported(endpoints[p.indices[j]], oracle.evaluate(p.indices[j]), oracle)
  }

  lemma {:induction false} IndicesInOrder(context: Shape, n: nat, endpoints: seq<Endpoint>, oracle: Oracle)
    requires n <= |endpoints| && Orders(endpoints, oracle) && context.Dict?
    ensures InOrder(ExecuteFirst(context, n, endpoints, oracle), n)
  {
    if n > 0 {
      IndicesInOrder(context, n - 1, endpoints, oracle);
      NextInOrder(ExecuteFirst(context, n - 1, endpoints, oracle), n - 1, endpoints, oracle);
      NextProgress(context, n, endpoints, oracle);
    }
  }

  /** There is a result for each index, and the indices increase and are below n. */
  ghost predicate InOrder(p: Progress, n: nat) {
    |p.results| == |p.indices| && Increasing(p.indices) && forall j :: 0 <= j < |p.indices| ==> p.indices[j] < n
  }

  lemma NextInOrder(p: Progress, i: nat, endpoints: seq<Endpoint>, oracle: Oracle)
    requires i < |endpoints| && Orders(endpoints, oracle) && p.context.Dict? && InOrder(p, i)
    ensures InOrder(ExecuteOne(p, i, endpoints, oracle), i + 1)
  {
  }

  lemma {:induction false} ResultsInOrder(context: Shape, n: nat, endpoints: seq<Endpoint>, oracle: Oracle)
    requires n <= |endpoints| && Orders(endpoints, oracle) && context.Dict?
    ensures var p := ExecuteFirst(context, n, endpoints, oracle);
      && |p.results| == |p.indices| && Increasing(p.indices)
      && forall j :: 0 <= j < |p.indices| ==> Belongs(p, j, n, endpoints, oracle)
  {
    IndicesInOrder(context, n, endpoints, oracle);
    if n > 0 {
      IndicesInOrder(context, n - 1, endpoints, oracle);
      ResultsInOrder(context, n - 1, endpoints, oracle);
      var before, p := ExecuteFirst(context, n - 1, endpoints, oracle), ExecuteFirst(context, n, endpoints, oracle);
      forall j | 0 <= j < |p.indices| ensures Belongs(p, j, n, endpoints, oracle) {
        if j < |before.indices| {
          assert Belongs(before, j, n - 1, endpoints, oracle);
        }
      }
    }
  }

  lemma {:induction false} ExecutedMembers(context: Shape, n: nat, endpoints: seq<Endpoint>, oracle: Oracle, i: nat)
    requires i < n <= |endpoints| && Orders(endpoints, oracle) && context.Dict?
    ensures i in ExecuteFirst(context, n, endpoints, oracle).indices <==> Executed(i, n, endpoints, oracle)
  {
    FailedIff(context, n - 1, endpoints, oracle);
    if i < n - 1 {
      ExecutedMembers(context, n - 1, endpoints, oracle, i);
    } else {
      IndicesInOrder(context, n - 1, endpoints, oracle);
    }
  }

  lemma {:induction false} FailedIff(context: Shape, n: nat, endpoints: seq<Endpoint>, oracle: Oracle)
    requires n <= |endpoints| && Orders(endpoints, oracle) && context.Dict?
    ensures ExecuteFirst(context, n, endpoints, oracle).failed <==> FirstFailure(n, oracle) < n
  {
    if n > 0 {
      FailedIff(context, n - 1, endpoints, oracle);
    }
  }

  /** Everything up to and including the first failure is executed, and after it what always runs, in
      order; each result is that of its endpoint. */
  lemma ExecutedExactly(context: Shape, endpoints: seq<Endpoint>, oracle: Oracle)
    requires Orders(endpoints, oracle) && context.Dict?
    ensures var p := ExecuteFirst(context, |endpoints|, endpoints, oracle);
      && |p.results| == |p.indices| && Increasing(p.indices)
      && (forall j :: 0 <= j < |p.indices| ==> Belongs(p, j, |endpoints|, endpoints, oracle))
      && (forall i :: 0 <= i < |endpoints| ==> (i in p.indices <==> Executed(i, |endpoints|, endpoints, oracle)))
  {
    ResultsInOrder(context, |endpoints|, endpoints, oracle);
    forall i | 0 <= i < |endpoints|
      ensures i in ExecuteFirst(context, |endpoints|, endpoints, oracle).indices <==>
              Executed(i, |endpoints|, endpoints, oracle)
    {
      ExecutedMembers(context, |endpoints|, endpoints, oracle, i);
    }
  }

  /** Skipping hides no failure: all results passed exactly when every endpoint, executed or not,
      would have passed when its turn came. */
  lemma AllPassedIff(context: Shape, endpoints: seq<Endpoint>, oracle: Oracle)
    requires Orders(endpoints, oracle) && context.Dict?
    ensures AllPassed(ExecuteFirst(context, |endpoints|, endpoints, oracle).results) <==>
      forall i :: 0 <= i < |endpoints| ==> oracle.evaluate(i).success
  {
    var n := |endpoints|;
    var p, f := ExecuteFirst(context, n, endpoints, oracle), FirstFailure(n, oracle);
    ExecutedExactly(context, endpoints, oracle);
    FirstFailureFails(n, oracle);
    if f < n {
      assert Executed(f, n, endpoints, oracle);
      var j :| 0 <= j < |p.indices| && p.indices[j] == f;
      assert Belongs(p, j, n, endpoints, oracle);
      assert !p.results[j].success;
    } else {
      forall j | 0 <= j < |p.results| ensures p.results[j].success {
        assert Belongs(p, j, n, endpoints, oracle);
      }
    }
  }

  lemma {:induction false} FirstFailureFails(n: nat, oracle: Oracle)
    ensures var f := FirstFailure(n, oracle);
      && (forall i :: 0 <= i < f ==> oracle.evaluate(i).success)
      && (f < n ==> !oracle.evaluate(f).success)
  {
    if n > 0 {
      FirstFailureFails(n - 1, oracle);
    }
  }

  // ---------------------------------------------------------------------------------
  // What an execution leaves in the context
  // ---------------------------------------------------------------------------------

  /** The endpoints executed in the first n turns. */
  ghost function ExecutedBy(n: nat, context: Shape, endpoints: seq<Endpoint>, oracle: Oracle): seq<nat>
    requires n <= |endpoints| && Orders(endpoints, oracle) && context.Dict?
  {
    ExecuteFirst(context, n, endpoints, oracle).indices
  }

  /** What a path leads to after n turns. */
  ghost function SeenAfter(n: nat, context: Shape, endpoints: seq<Endpoint>, oracle: Oracle, q: Path): Option<Shape>
    requires n <= |endpoints| && Orders(endpoints, oracle) && context.Dict?
  {
    Lookup(ExecuteFirst(context, n, endpoints, oracle).context, q)
  }

  /** None of the given endpoints, from first on, stores anything that concerns the path. */
  ghost predicate UndisturbedFrom(first: nat, q: Path, indices: seq<nat>, endpoints: seq<Endpoint>, oracle: Oracle) {
    forall j :: first <= j < |endpoints| && j in indices ==>
      LeaveAlone(StoredPaths(endpoints[j].store, oracle.evaluate(j), oracle.extract), q)
  }

  /** The endpoint at n is executed in its turn or not at all; for the others nothing changes. */
  lemma NextExecuted(n: nat, context: Shape, endpoints: seq<Endpoint>, oracle: Oracle)
    requires n < |endpoints| && Orders(endpoints, oracle) && context.Dict?
    ensures
      var before := ExecutedBy(n, context, endpoints, oracle);
      var after := ExecutedBy(n + 1, context, endpoints, oracle);
      && n !in before && (forall j :: j != n ==> (j in after <==> j in before))
      && (n !in after ==>
            forall q :: SeenAfter(n + 1, context, endpoints, oracle, q) == SeenAfter(n, context, endpoints, oracle, q))
  {
    IndicesInOrder(context, n, endpoints, oracle);
  }

  /** A turn in which the endpoint is executed stores its values. */
  lemma TurnStores(n: nat, context: Shape, endpoints: seq<Endpoint>, oracle: Oracle)
    requires n < |endpoints| && Orders(endpoints, oracle) && context.Dict?
    requires n in ExecutedBy(n + 1, context, endpoints, oracle)
    ensures HoldsValues(ExecuteFirst(context, n, endpoints, oracle).context,
                        ExecuteFirst(context, n + 1, endpoints, oracle).context,
                        endpoints[n].store, oracle.evaluate(n), oracle.extract)
  {
    var before := ExecuteFirst(context, n, endpoints, oracle);
    IndicesInOrder(context, n, endpoints, oracle);
    StoredValues(before.context, oracle.order(n), endpoints[n].store, oracle.evaluate(n), oracle.extract);
  }

  lemma TurnLeavesAlone(n: nat, context: Shape, endpoints: seq<Endpoint>, oracle: Oracle, q: Path)
    requires n < |endpoints| && Orders(endpoints, oracle) && context.Dict?
    requires n in ExecutedBy(n + 1, context, endpoints, oracle) ==>
      LeaveAlone(StoredPaths(endpoints[n].store, oracle.evaluate(n), oracle.extract), q)
    ensures SeenAfter(n + 1, context, endpoints, oracle, q) == SeenAfter(n, context, endpoints, oracle, q)
  {
    NextExecuted(n, context, endpoints, oracle);
    if n in ExecutedBy(n + 1, context, endpoints, oracle) {
      TurnStores(n, context, endpoints, oracle);
    }
  }

  /** Whether an endpoint is executed is decided when its turn comes. */
  lemma {:induction false} ExecutedInTurn(n: nat, context: Shape, endpoints: seq<Endpoint>, oracle: Oracle, i: nat)
    requires i < n <= |endpoints| && Orders(endpoints, oracle) && context.Dict?
    ensures i in ExecutedBy(n, context, endpoints, oracle) <==> i in ExecutedBy(i + 1, context, endpoints, oracle)
    decreases n
  {
    if i + 1 < n {
      NextExecuted(n - 1, context, endpoints, oracle);
      ExecutedInTurn(n - 1, context, endpoints, oracle, i);
    }
  }

  /** What no endpoint executed from the m-th turn on has stored on is as it was before that. */
  lemma {:induction false} LeftAlone(m: nat, n: nat, context: Shape, endpoints: seq<Endpoint>, oracle: Oracle, q: Path)
    requires m <= n <= |endpoints| && Orders(endpoints, oracle) && context.Dict?
    requires UndisturbedFrom(m, q, ExecutedBy(|endpoints|, context, endpoints, oracle), endpoints, oracle)
    ensures SeenAfter(n, context, endpoints, oracle, q) == SeenAfter(m, context, endpoints, oracle, q)
    decreases n
  {
    if m < n {
      ExecutedInTurn(|endpoints|, context, endpoints, oracle, n - 1);
      TurnLeavesAlone(n - 1, context, endpoints, oracle, q);
      LeftAlone(m, n - 1, context, endpoints, oracle, q);
    }
  }

  /** The i-th endpoint stores v under the key, and nothing else on its path. */
  ghost predicate Stores(i: nat, k: string, v: Scalar, endpoints: seq<Endpoint>, oracle: Oracle)
    requires i < |endpoints|
  {
    && k in endpoints[i].store && oracle.extract(endpoints[i].store[k], oracle.evaluate(i)) == Some(v)
    && ConflictFree(endpoints[i].store, oracle.evaluate(i), oracle.extract)
  }

  lemma JustStored(i: nat, context: Shape, endpoints: seq<Endpoint>, oracle: Oracle, k: string, v: Scalar)
    requires i < |endpoints| && Orders(endpoints, oracle) && context.Dict?
    requires i in ExecutedBy(i + 1, context, endpoints, oracle) && Stores(i, k, v, endpoints, oracle)
    ensures SeenAfter(i + 1, context, endpoints, oracle, PathOf(k)) == Some(Atom(v))
  {
    TurnStores(i, context, endpoints, oracle);
  }

  /** Under a key is found the value that the last executed endpoint to store on its path has extracted. */
  lemma LastStoreIsFound(context: Shape, endpoints: seq<Endpoint>, oracle: Oracle, i: nat, k: string, v: Scalar)
    requires i < |endpoints| && Orders(endpoints, oracle) && context.Dict? && Stores(i, k, v, endpoints, oracle)
    requires i in ExecutedBy(|endpoints|, context, endpoints, oracle)
    requires UndisturbedFrom(i + 1, PathOf(k), ExecutedBy(|endpoints|, context, endpoints, oracle), endpoints, oracle)
    ensures SeenAfter(|endpoints|, context, endpoints, oracle, PathOf(k)) == Some(Atom(v))
  {
    ExecutedInTurn(|endpoints|, context, endpoints, oracle, i);
    JustStored(i, context, endpoints, oracle, k, v);
    LeftAlone(i + 1, |endpoints|, context, endpoints, oracle, PathOf(k));
  }

  /** What a whole execution leaves: under each key the value of the last endpoint that was executed and
      stored on its path, and everywhere else what was there in the beginning. */
  ghost predicate LeavesValues(start: Shape, final: Shape, indices: seq<nat>, endpoints: seq<Endpoint>,
                               oracle: Oracle) {
    && (forall i, k, v | 0 <= i < |endpoints| && i in indices ::
          Stores(i, k, v, endpoints, oracle) && UndisturbedFrom(i + 1, PathOf(k), indices, endpoints, oracle)
          ==> Lookup(final, PathOf(k)) == Some(Atom(v)))
    && forall q :: UndisturbedFrom(0, q, indices, endpoints, oracle) ==> Lookup(final, q) == Lookup(start, q)
  }

  lemma ExecutionLeavesValues(start: Shape, endpoints: seq<Endpoint>, oracle: Oracle)
    requires Orders(endpoints, oracle) && start.Dict?
    ensures var p := ExecuteFirst(start, |endpoints|, endpoints, oracle);
      LeavesValues(start, p.context, p.indices, endpoints, oracle)
  {
    var n := |endpoints|;
    var p := ExecuteFirst(start, n, endpoints, oracle);
    forall i, k, v | 0 <= i < n && i in p.indices && Stores(i, k, v, endpoints, oracle)
                     && UndisturbedFrom(i + 1, PathOf(k), p.indices, endpoints, oracle)
      ensures Lookup(p.context, PathOf(k)) == Some(Atom(v))
    {
      LastStoreIsFound(start, endpoints, oracle, i, k, v);
    }
    forall q | UndisturbedFrom(0, q, p.indices, endpoints, oracle) ensures Lookup(p.context, q) == Lookup(start, q) {
      LeftAlone(0, n, start, endpoints, oracle, q);
    }
  }

  // ---------------------------------------------------------------------------------
  // The timeout
  // ---------------------------------------------------------------------------------

  /** The timer decides nothing but whether a timeout is reported: what is executed, its results and
      the context are the same whenever it fires. */
  lemma {:induction false} TimerOnlyReports(context: Shape, n: nat, endpoints: seq<Endpoint>, oracle: Oracle,
                                            oracle': Oracle)
    requires n <= |endpoints| && Orders(endpoints, oracle) && Orders(endpoints, oracle') && context.Dict?
    requires oracle' == oracle.(timerFired := oracle'.timerFired)
    ensures var p, p' := ExecuteFirst(context, n, endpoints, oracle), ExecuteFirst(context, n, endpoints, oracle');
      p' == p.(timedOut := p'.timedOut)
  {
    if n > 0 {
      TimerOnlyReports(context, n - 1, endpoints, oracle, oracle');
      var before := ExecuteFirst(context, n - 1, endpoints, oracle);
      var before' := ExecuteFirst(context, n - 1, endpoints, oracle');
      TimerOnlyMarks(before, before', n - 1, endpoints, oracle, oracle');
      NextProgress(context, n, endpoints, oracle);
      NextProgress(context, n, endpoints, oracle');
    }
  }

  lemma TimerOnlyMarks(p: Progress, p': Progress, i: nat, endpoints: seq<Endpoint>, oracle: Oracle, oracle': Oracle)
    requires i < |endpoints| && Orders(endpoints, oracle) && Orders(endpoints, oracle') && p.context.Dict?
    requires oracle' == oracle.(timerFired := oracle'.timerFired) && p' == p.(timedOut := p'.timedOut)
    ensures var q, q' := ExecuteOne(p, i, endpoints, oracle), ExecuteOne(p', i, endpoints, oracle');
      q' == q.(timedOut := q'.timedOut)
  {
  }

  /** A timeout is reported exactly if the timer had fired when some executed endpoint was reached. */
  lemma {:induction false} TimedOutIff(context: Shape, n: nat, endpoints: seq<Endpoint>, oracle: Oracle)
    requires n <= |endpoints| && Orders(endpoints, oracle) && context.Dict?
    ensures var p := ExecuteFirst(context, n, endpoints, oracle);
      p.timedOut <==> exists j :: 0 <= j < |p.indices| && oracle.timerFired(p.indices[j])
  {
    if n > 0 {
      TimedOutIff(context, n - 1, endpoints, oracle);
      var before, p := ExecuteFirst(context, n - 1, endpoints, oracle), ExecuteFirst(context, n, endpoints, oracle);
      if p != before {
        assert forall j :: 0 <= j < |before.indices| ==> p.indices[j] == before.indices[j];
        assert p.indices[|before.indices|] == n - 1;
      }
    }
  }

  /** A timer that has fired stays fired. */
  ghost predicate StaysFired(oracle: Oracle) {
    forall i: nat, j: nat :: i <= j && oracle.timerFired(i) ==> oracle.timerFired(j)
  }

  /** So the moment that counts is when the last executed endpoint is reached. If the timer fires later,
      while that endpoint is being evaluated, no timeout is reported. */
  lemma LastExecutedDecides(context: Shape, endpoints: seq<Endpoint>, oracle: Oracle)
    requires Orders(endpoints, oracle) && context.Dict? && StaysFired(oracle)
    ensures var p := ExecuteFirst(context, |endpoints|, endpoints, oracle);
      p.timedOut <==> p.indices != [] && oracle.timerFired(p.indices[|p.indices| - 1])
  {
    TimedOutIff(context, |endpoints|, endpoints, oracle);
    IndicesInOrder(context, |endpoints|, endpoints, oracle);
  }

  // ---------------------------------------------------------------------------------
  // Positions of results
  // ---------------------------------------------------------------------------------

  lemma {:induction false} IndexAtLeast(indices: seq<nat>, i: nat)
    requires Increasing(indices) && i < |indices|
    ensures indices[i] >= i
  {
    if i > 0 {
      IndexAtLeast(indices, i - 1);
    }
  }

  lemma {:induction false} InPlaceIff(indices: seq<nat>, i: nat)
    requires Increasing(indices)
    ensures (i < |indices| && indices[i] == i) <==> forall j :: 0 <= j <= i ==> j in indices
  {
    if i < |indices| && indices[i] == i {
      forall j | 0 <= j <= i ensures j in indices {
        BelowInPlace(indices, i, j);
      }
    }
    if forall j :: 0 <= j <= i ==> j in indices {
      if i > 0 {
        InPlaceIff(indices, i - 1);
      }
      assert i in indices;
      var k :| 0 <= k < |indices| && indices[k] == i;
      IndexAtLeast(indices, k);
    }
  }

  lemma {:induction false} BelowInPlace(indices: seq<nat>, i: nat, j: nat)
    requires Increasing(indices) && j <= i < |indices| && indices[i] == i
    ensures indices[j] == j
    decreases i - j
  {
    if j < i {
      BelowInPlace(indices, i, j + 1);
      IndexAtLeast(indices, j);
    }
  }

  /** The i-th result is that of endpoint i exactly when no endpoint up to and including i has been
      skipped; otherwise it is that of a later endpoint, or there is none. */
  lemma PairedWithOwnResult(context: Shape, endpoints: seq<Endpoint>, oracle: Oracle, i: nat)
    requires Orders(endpoints, oracle) && context.Dict? && i < |endpoints|
    ensures var p := ExecuteFirst(context, |endpoints|, endpoints, oracle);
      && ((i < |p.indices| && p.indices[i] == i) <==>
            forall j :: 0 <= j <= i ==> Executed(j, |endpoints|, endpoints, oracle))
      && (i < |p.indices| ==> p.indices[i] >= i)
  {
    ExecutedExactly(context, endpoints, oracle);
    var p := ExecuteFirst(context, |endpoints|, endpoints, oracle);
    InPlaceIff(p.indices, i);
    if i < |p.indices| {
      IndexAtLeast(p.indices, i);
    }
  }
}
