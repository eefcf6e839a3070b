/**
  Conditions (app/config/endpoint/condition.go): the choice of an operator, the cut into operands,
  and the comparison.

  How a placeholder resolves, how text is read as a number, and whether a pattern matches are
  given by an `Oracle`.
*/
module Conditions {
  import opened Collections
  import opened GoStrings

  datatype Operator = Eq | Ne | Le | Ge | Gt | Lt

  datatype Resolved = Value(text: string) | Failure(error: string)

  datatype Oracle = Oracle(
    resolve: string -> Resolved,          // ResolvePlaceholder
    number: string -> int,                // a duration, an integer or a float, else 0
    integer: string -> Option<int>,       // strconv.ParseInt(_, 0, 64)
    matches: (string, string) -> bool     // pattern.Match
  )

  // ---------------------------------------------------------------------------------
  // Choosing the operator
  // ---------------------------------------------------------------------------------

  function Word(op: Operator): string {
    match op
    case Eq => "=="
    case Ne => "!="
    case Le => "<="
    case Ge => ">="
    case Gt => ">"
    case Lt => "<"
  }

  function Spaced(word: string): string {
    " " + word + " "
  }

  function Symbol(op: Operator): string {
    Spaced(Word(op))
  }

  function Rank(op: Operator): nat {
    match op case Eq => 0 case Ne => 1 case Le => 2 case Ge => 3 case Gt => 4 case Lt => 5
  }

  /** The chain of tests of `evaluate`. */
  function Choose(condition: string): (r: Option<Operator>)
    ensures r.Some? ==> Contains(condition, Symbol(r.value))
  {
    if Contains(condition, Symbol(Eq)) then Some(Eq)
    else if Contains(condition, Symbol(Ne)) then Some(Ne)
    else if Contains(condition, Symbol(Le)) then Some(Le)
    else if Contains(condition, Symbol(Ge)) then Some(Ge)
    else if Contains(condition, Symbol(Gt)) then Some(Gt)
    else if Contains(condition, Symbol(Lt)) then Some(Lt)
    else None
  }

  /** The operators as they are written, in the order in which they are looked for. */
  lemma OperatorsInOrder(condition: string)
    ensures Choose(condition)
         == if Contains(condition, " == ") then Some(Eq)
            else if Contains(condition, " != ") then Some(Ne)
            else if Contains(condition, " <= ") then Some(Le)
            else if Contains(condition, " >= ") then Some(Ge)
            else if Contains(condition, " > ") then Some(Gt)
            else if Contains(condition, " < ") then Some(Lt)
            else None
  {
    SymbolsAre();
  }

  lemma SymbolsAre()
    ensures Symbol(Eq) == " == " && Symbol(Ne) == " != " && Symbol(Le) == " <= " && Symbol(Ge) == " >= "
    ensures Symbol(Gt) == " > " && Symbol(Lt) == " < "
  {
  }

  lemma ChooseIff(condition: string, op: Operator)
    ensures Choose(condition) == Some(op) <==>
      && Contains(condition, Symbol(op))
      && forall other :: Rank(other) < Rank(op) ==> !Contains(condition, Symbol(other))
  {
  }

  // ---------------------------------------------------------------------------------
  // Reading a condition back
  // ---------------------------------------------------------------------------------

  function Written(left: string, op: Operator, right: string): string {
    left + Symbol(op) + right
  }

  ghost predicate IsWord(word: string) {
    word != "" && ' ' !in word
  }

  lemma WordsDiffer(a: Operator, b: Operator)
    ensures IsWord(Word(a)) && (Word(a) == Word(b) ==> a == b)
  {
  }

  lemma SpacedOccurrence(s: string, word: string, i: nat)
    requires IsWord(word) && OccursAt(s, Spaced(word), i)
    ensures i + |word| + 2 <= |s| && s[i] == s[i + |word| + 1] == ' '
    ensures forall k :: i < k <= i + |word| ==> s[k] != ' '
    ensures s[i + 1..i + 1 + |word|] == word
  {
    var part := s[i..i + |word| + 2];
    assert part == Spaced(word);
    assert s[i] == part[0] && s[i + |word| + 1] == part[|word| + 1];
    forall k | i < k <= i + |word| ensures s[k] == word[k - i - 1] != ' ' {
      assert s[k] == part[k - i] && word[k - i - 1] in word;
    }
  }

  /** An occurrence within s is one within any text around s. */
  lemma OccursWithin(a: string, s: string, b: string, sep: string, i: nat)
    requires i + |sep| <= |s|
    ensures OccursAt(a + s + b, sep, |a| + i) <==> OccursAt(s, sep, i)
  {
    assert (a + s + b)[|a| + i..|a| + i + |sep|] == s[i..i + |sep|];
  }

  /** Two spaced words that occur less than the length of either apart are the same, in the same
      place. */
  lemma SpacedWordsDoNotOverlap(s: string, u: string, i: nat, v: string, j: nat)
    requires IsWord(u) && IsWord(v) && OccursAt(s, Spaced(u), i) && OccursAt(s, Spaced(v), j)
    requires i <= j < i + |u| + 1
    ensures i == j && u == v
  {
    SpacedOccurrence(s, u, i);
    SpacedOccurrence(s, v, j);
    assert s[j] == ' ';
    assert s[i + |u| + 1] == ' ' && s[j + |v| + 1] == ' ';
  }

  lemma Regrouped(left: string, word: string, right: string)
    ensures left + Spaced(word) + right == "" + (left + " ") + (word + " " + right)
    ensures left + Spaced(word) + right == (left + " " + word) + (" " + right) + ""
  {
  }

  /** Occurrences in the left operand with the space after it. */
  lemma OccursLeft(left: string, word: string, right: string, sep: string, i: nat)
    requires i + |sep| <= |left| + 1
    ensures OccursAt(left + Spaced(word) + right, sep, i) <==> OccursAt(left + " ", sep, i)
  {
    Regrouped(left, word, right);
    OccursWithin("", left + " ", word + " " + right, sep, i);
  }

  /** Occurrences in the right operand with the space before it. */
  lemma OccursRight(left: string, word: string, right: string, sep: string, i: nat)
    requires i + |sep| <= |right| + 1
    ensures OccursAt(left + Spaced(word) + right, sep, |left| + 1 + |word| + i) <==> OccursAt(" " + right, sep, i)
  {
    Regrouped(left, word, right);
    OccursWithin(left + " " + word, " " + right, "", sep, i);
  }

  lemma OccursItself(left: string, word: string, right: string)
    ensures OccursAt(left + Spaced(word) + right, Spaced(word), |left|)
  {
    OccursWithin(left, Spaced(word), right, Spaced(word), 0);
    assert Spaced(word)[0..|Spaced(word)|] == Spaced(word);
  }

  /** A spaced word occurs within the left operand and the space after it, within the right operand
      and the space before it, or is the one that was written. */
  lemma WhereWordsOccur(left: string, u: string, right: string, v: string, i: nat)
    requires IsWord(u) && IsWord(v) && OccursAt(left + Spaced(u) + right, Spaced(v), i)
    ensures || OccursAt(left + " ", Spaced(v), i)
            || (i == |left| && u == v)
            || (i >= |left| + |u| + 1 && OccursAt(" " + right, Spaced(v), i - |left| - |u| - 1))
  {
    OccursItself(left, u, right);
    if i + |v| + 2 <= |left| + 1 {
      OccursLeft(left, u, right, Spaced(v), i);
    } else if i >= |left| + |u| + 1 {
      OccursRight(left, u, right, Spaced(v), i - |left| - |u| - 1);
    } else if i <= |left| {
      SpacedWordsDoNotOverlap(left + Spaced(u) + right, v, i, u, |left|);
    } else {
      SpacedWordsDoNotOverlap(left + Spaced(u) + right, u, |left|, v, i);
      assert false;
    }
  }

  lemma WhereOperatorsOccur(left: string, op: Operator, right: string, other: Operator, i: nat)
    requires OccursAt(Written(left, op, right), Symbol(other), i)
    ensures || OccursAt(left + " ", Symbol(other), i)
            || (i == |left| && other == op)
            || (i >= |left| + |Word(op)| + 1 && OccursAt(" " + right, Symbol(other), i - |left| - |Word(op)| - 1))
  {
    WordsDiffer(op, other);
    WordsDiffer(other, op);
    WhereWordsOccur(left, Word(op), right, Word(other), i);
  }

  /** When a written condition is read back: no operator that is tested earlier occurs in an
      operand, the written one does not occur in the left operand, where the space after it counts,
      nor in the right one. */
  ghost predicate Unambiguous(left: string, op: Operator, right: string) {
    && (forall other :: Rank(other) < Rank(op) ==>
          !Contains(left + " ", Symbol(other)) && !Contains(" " + right, Symbol(other)))
    && !Contains(left + " ", Symbol(op))
    && !Contains(right, Symbol(op))
  }

  lemma ContainsAt(s: string, sep: string, i: nat)
    requires OccursAt(s, sep, i)
    ensures Contains(s, sep)
    ensures IndexFrom(s, sep, 0).Some? && IndexFrom(s, sep, 0).value <= i
  {
  }

  lemma OccursInWritten(left: string, op: Operator, right: string, sep: string)
    ensures Contains(left + " ", sep) ==>
      OccursAt(Written(left, op, right), sep, IndexFrom(left + " ", sep, 0).value)
    ensures Contains(" " + right, sep) ==> Contains(Written(left, op, right), sep)
    ensures OccursAt(Written(left, op, right), Symbol(op), |left|)
  {
    OccursAround(left, Word(op), right, sep);
    OccursItself(left, Word(op), right);
  }

  lemma OccursAround(left: string, word: string, right: string, sep: string)
    ensures Contains(left + " ", sep) ==>
      OccursAt(left + Spaced(word) + right, sep, IndexFrom(left + " ", sep, 0).value)
    ensures Contains(" " + right, sep) ==> Contains(left + Spaced(word) + right, sep)
  {
    if Contains(left + " ", sep) {
      OccursLeft(left, word, right, sep, IndexFrom(left + " ", sep, 0).value);
    }
    if Contains(" " + right, sep) {
      var i := IndexFrom(" " + right, sep, 0).value;
      OccursRight(left, word, right, sep, i);
      ContainsAt(left + Spaced(word) + right, sep, |left| + 1 + |word| + i);
    }
  }

  /** The first cut is at the written operator exactly if that does not occur in the left operand. */
  lemma FirstCut(left: string, op: Operator, right: string)
    ensures IndexFrom(Written(left, op, right), Symbol(op), 0) == Some(|left|) <==> !Contains(left + " ", Symbol(op))
  {
    var w := Written(left, op, right);
    OccursInWritten(left, op, right, Symbol(op));
    ContainsAt(w, Symbol(op), |left|);
    var i := IndexFrom(w, Symbol(op), 0).value;
    if i < |left| {
      WhereOperatorsOccur(left, op, right, op, i);
      ContainsAt(left + " ", Symbol(op), i);
    }
  }

  lemma SplitOnce(s: string, sep: string)
    requires sep != ""
    ensures |Split(s, sep)| == 1 <==> !Contains(s, sep)
    ensures !Contains(s, sep) ==> Split(s, sep) == [s]
  {
  }

  lemma SplitWritten(left: string, op: Operator, right: string)
    ensures Split(Written(left, op, right), Symbol(op)) == [left, right] <==>
      !Contains(left + " ", Symbol(op)) && !Contains(right, Symbol(op))
  {
    var w, sym := Written(left, op, right), Symbol(op);
    FirstCut(left, op, right);
    SplitOnce(right, sym);
    OccursInWritten(left, op, right, sym);
    ContainsAt(w, sym, |left|);
    var i := IndexFrom(w, sym, 0).value;
    if i == |left| {
      assert w[..|left|] == left;
      assert w[|left| + |sym|..] == right;
      assert Split(w, sym) == [left] + Split(right, sym);
      if Split(w, sym) == [left, right] {
        assert |Split(right, sym)| == 1;
      }
    } else {
      assert |w[..i]| == i && Split(w, sym)[0] == w[..i];
    }
  }

  /** The written operator is chosen exactly if none that is tested earlier occurs in an operand. */
  lemma ChooseWritten(left: string, op: Operator, right: string)
    ensures Choose(Written(left, op, right)) == Some(op) <==>
      forall other :: Rank(other) < Rank(op) ==>
        !Contains(left + " ", Symbol(other)) && !Contains(" " + right, Symbol(other))
  {
    var w := Written(left, op, right);
    ChooseIff(w, op);
    OccursItself(left, Word(op), right);
    ContainsAt(w, Symbol(op), |left|);
    forall other | Rank(other) < Rank(op)
      ensures Contains(w, Symbol(other)) <==>
              Contains(left + " ", Symbol(other)) || Contains(" " + right, Symbol(other))
    {
      OtherOperator(left, op, right, other);
    }
  }

  /** A written condition is read back as written exactly if it is unambiguous. */
  lemma ReadBackIff(left: string, op: Operator, right: string)
    ensures var w := Written(left, op, right);
      (Choose(w) == Some(op) && Split(w, Symbol(op)) == [left, right]) <==> Unambiguous(left, op, right)
  {
    ChooseWritten(left, op, right);
    SplitWritten(left, op, right);
  }

  lemma OtherOperator(left: string, op: Operator, right: string, other: Operator)
    requires other != op
    ensures Contains(Written(left, op, right), Symbol(other)) <==>
            Contains(left + " ", Symbol(other)) || Contains(" " + right, Symbol(other))
  {
    var w, sym := Written(left, op, right), Symbol(other);
    OccursInWritten(left, op, right, sym);
    if Contains(w, sym) {
      var i := IndexFrom(w, sym, 0).value;
      WhereOperatorsOccur(left, op, right, other, i);
      if OccursAt(left + " ", sym, i) {
        ContainsAt(left + " ", sym, i);
      } else {
        ContainsAt(" " + right, sym, i - |left| - |Word(op)| - 1);
      }
    }
    if Contains(left + " ", sym) {
      ContainsAt(w, sym, IndexFrom(left + " ", sym, 0).value);
    }
  }

  /** A word of s: a part with a space or an end of s on both sides. */
  ghost predicate HasWord(s: string, word: string) {
    exists i: nat :: OccursAt(s, word, i)
      && (i == 0 || s[i - 1] == ' ') && (i + |word| == |s| || s[i + |word|] == ' ')
  }

  /** Operands without an operator among their words are always read back. */
  lemma OperatorFreeIsUnambiguous(left: string, op: Operator, right: string)
    requires forall other :: !HasWord(left, Word(other)) && !HasWord(right, Word(other))
    ensures Unambiguous(left, op, right)
  {
    forall other
      ensures !Contains(left + " ", Symbol(other)) && !Contains(" " + right, Symbol(other)) &&
              !Contains(right, Symbol(other))
    {
      WordOfOccurrence("", left, " ", other);
      WordOfOccurrence(" ", right, "", other);
      WordOfOccurrence("", right, "", other);
      assert "" + left + " " == left + " " && " " + right + "" == " " + right && "" + right + "" == right;
    }
  }

  lemma WordOfOccurrence(before: string, s: string, after: string, op: Operator)
    requires before in {"", " "} && after in {"", " "}
    ensures Contains(before + s + after, Symbol(op)) ==> HasWord(s, Word(op))
  {
    var t, word, sym := before + s + after, Word(op), Symbol(op);
    if Contains(t, sym) {
      var i := IndexFrom(t, sym, 0).value;
      WordsDiffer(op, op);
      WordBounds(before, s, after, word, i);
      var j := i + 1 - |before|;
      OccursWithin(before, s, after, word, j);
      assert j == 0 || s[j - 1] == t[i];
      assert j + |word| == |s| || s[j + |word|] == t[i + |word| + 1];
    }
  }

  lemma WordBounds(before: string, s: string, after: string, word: string, i: nat)
    requires before in {"", " "} && after in {"", " "} && IsWord(word)
    requires OccursAt(before + s + after, Spaced(word), i)
    ensures i + 1 >= |before| && i + 1 - |before| + |word| <= |s|
    ensures var t := before + s + after; t[i] == ' ' && t[i + |word| + 1] == ' '
    ensures OccursAt(before + s + after, word, i + 1)
  {
    SpacedOccurrence(before + s + after, word, i);
  }

  // ---------------------------------------------------------------------------------
  // Equality
  // ---------------------------------------------------------------------------------

  const PATTERN_PREFIX := "pat("
  const ANY_PREFIX := "any("
  const FUNCTION_SUFFIX := ")"

  function TrimPrefix(s: string, p: string): string {
    if HasPrefix(s, p) then s[|p|..] else s
  }

  function TrimSuffix(s: string, p: string): string {
    if HasSuffix(s, p) then s[..|s| - |p|] else s
  }

  function Inner(s: string, prefix: string): string {
    TrimSuffix(TrimPrefix(s, prefix), FUNCTION_SUFFIX)
  }

  ghost predicate SomeOption(options: seq<string>, text: string) {
    exists i :: 0 <= i < |options| && TrimSpace(options[i]) == text
  }

  function Plain(first: string, second: string, o: Oracle): bool {
    if o.integer(first).Some? && o.integer(second).Some? then o.integer(first) == o.integer(second)
    else first == second
  }

  /** What `isEqual` computes, with the two suffix tests as they were made on the whole texts. */
  ghost function EqualAny(first: string, firstEnds: bool, second: string, secondEnds: bool, o: Oracle): bool {
    var isFirstAny := HasPrefix(first, ANY_PREFIX) && firstEnds;
    var isSecondAny := HasPrefix(second, ANY_PREFIX) && secondEnds;
    var a := if isFirstAny then Inner(first, ANY_PREFIX) else first;
    var b := if isSecondAny then Inner(second, ANY_PREFIX) else second;
    if isFirstAny && !isSecondAny then SomeOption(Split(a, ","), b)
    else if !isFirstAny && isSecondAny then SomeOption(Split(b, ","), a)
    else Plain(a, b, o)
  }

  ghost function Equal(first: string, second: string, o: Oracle): bool {
    var firstEnds, secondEnds := HasSuffix(first, FUNCTION_SUFFIX), HasSuffix(second, FUNCTION_SUFFIX);
    var isFirstPattern := HasPrefix(first, PATTERN_PREFIX) && firstEnds;
    var isSecondPattern := HasPrefix(second, PATTERN_PREFIX) && secondEnds;
    var a := if isFirstPattern then Inner(first, PATTERN_PREFIX) else first;
    var b := if isSecondPattern then Inner(second, PATTERN_PREFIX) else second;
    if isFirstPattern && !isSecondPattern then o.matches(a, b)
    else if !isFirstPattern && isSecondPattern then o.matches(b, a)
    else EqualAny(a, firstEnds, b, secondEnds, o)
  }

  method AnyOption(options: seq<string>, text: string) returns (found: bool)
    ensures found <==> SomeOption(options, text)
  {
    for i := 0 to |options|
      invariant forall j :: 0 <= j < i ==> TrimSpace(options[j]) != text
    {
      if TrimSpace(options[i]) == text {
        return true;
      }
    }
    return false;
  }

  method IsEqual(first: string, second: string, o: Oracle) returns (r: bool)
    ensures r == Equal(first, second, o)
  {
    var a, b := first, second;
    var firstHasFunctionSuffix := HasSuffix(a, FUNCTION_SUFFIX);
    var secondHasFunctionSuffix := HasSuffix(b, FUNCTION_SUFFIX);
    if firstHasFunctionSuffix || secondHasFunctionSuffix {
      var isFirstPattern, isSecondPattern := false, false;
      if HasPrefix(a, PATTERN_PREFIX) && firstHasFunctionSuffix {
        isFirstPattern := true;
        a := TrimSuffix(TrimPrefix(a, PATTERN_PREFIX), FUNCTION_SUFFIX);
      }
      if HasPrefix(b, PATTERN_PREFIX) && secondHasFunctionSuffix {
        isSecondPattern := true;
        b := TrimSuffix(TrimPrefix(b, PATTERN_PREFIX), FUNCTION_SUFFIX);
      }
      if isFirstPattern && !isSecondPattern {
        return o.matches(a, b);
      } else if !isFirstPattern && isSecondPattern {
        return o.matches(b, a);
      }
      var isFirstAny, isSecondAny := false, false;
      if HasPrefix(a, ANY_PREFIX) && firstHasFunctionSuffix {
        isFirstAny := true;
        a := TrimSuffix(TrimPrefix(a, ANY_PREFIX), FUNCTION_SUFFIX);
      }
      if HasPrefix(b, ANY_PREFIX) && secondHasFunctionSuffix {
        isSecondAny := true;
        b := TrimSuffix(TrimPrefix(b, ANY_PREFIX), FUNCTION_SUFFIX);
      }
      if isFirstAny && !isSecondAny {
        r := AnyOption(Split(a, ","), b);
        return;
      } else if !isFirstAny && isSecondAny {
        r := AnyOption(Split(b, ","), a);
        return;
      }
    }
    var firstInt, secondInt := o.integer(a), o.integer(b);
    if firstInt.Some? && secondInt.Some? {
      return firstInt == secondInt;
    }
    return a == b;
  }

  /** The order of the operands does not matter, functions included. */
  lemma EqualIsSymmetric(first: string, second: string, o: Oracle)
    ensures Equal(first, second, o) == Equal(second, first, o)
  {
    var firstEnds, secondEnds := HasSuffix(first, FUNCTION_SUFFIX), HasSuffix(second, FUNCTION_SUFFIX);
    var a := if HasPrefix(first, PATTERN_PREFIX) && firstEnds then Inner(first, PATTERN_PREFIX) else first;
    var b := if HasPrefix(second, PATTERN_PREFIX) && secondEnds then Inner(second, PATTERN_PREFIX) else second;
    assert EqualAny(a, firstEnds, b, secondEnds, o) == EqualAny(b, secondEnds, a, firstEnds, o);
  }

  predicate IsFunction(s: string) {
    HasSuffix(s, FUNCTION_SUFFIX) && (HasPrefix(s, PATTERN_PREFIX) || HasPrefix(s, ANY_PREFIX))
  }

  function AnyOf(options: seq<string>): string
    requires options != []
  {
    "any(" + Join(options, ", ") + ")"
  }

  /** A list of options holds of exactly its members. */
  lemma AnyOfIsMembership(options: seq<string>, text: string, o: Oracle)
    requires options != [] && forall i :: 0 <= i < |options| ==> Trimmed(options[i]) && ',' !in options[i]
    requires !IsFunction(text)
    ensures Equal(AnyOf(options), text, o) <==> text in options
  {
    var s, joined := AnyOf(options), Join(options, ", ");
    assert s[..4] == ANY_PREFIX && s[|s| - 1..] == FUNCTION_SUFFIX;
    assert ANY_PREFIX[0] != PATTERN_PREFIX[0];
    assert TrimPrefix(s, ANY_PREFIX) == joined + ")";
    assert (joined + ")")[|joined|..] == ")" && (joined + ")")[..|joined|] == joined;
    assert Inner(s, ANY_PREFIX) == joined;
    OptionsOfJoin(options, "");
    assert "" + joined == joined;
    var parts := Split(joined, ",");
    assert Equal(s, text, o) == SomeOption(parts, text);
    if text in options {
      var i :| 0 <= i < |options| && options[i] == text;
      assert TrimSpace(parts[i]) == text;
    }
  }

  /** Splitting the joined options at commas gives them back, up to white space. */
  lemma {:induction false} OptionsOfJoin(options: seq<string>, lead: string)
    requires options != [] && forall i :: 0 <= i < |options| ==> Trimmed(options[i]) && ',' !in options[i]
    requires lead in {"", " "}
    ensures var parts := Split(lead + Join(options, ", "), ",");
      |parts| == |options| && forall i :: 0 <= i < |parts| ==> TrimSpace(parts[i]) == options[i]
  {
    TrimLead(lead, options[0]);
    if |options| == 1 {
      NoComma(lead + options[0]);
    } else {
      OptionsOfJoin(options[1..], " ");
      SplitJoin(lead, options);
    }
  }

  lemma SplitJoin(lead: string, options: seq<string>)
    requires |options| > 1 && ',' !in lead && ',' !in options[0]
    ensures Split(lead + Join(options, ", "), ",")
         == [lead + options[0]] + Split(" " + Join(options[1..], ", "), ",")
  {
    var rest := Join(options[1..], ", ");
    Regroup(lead, options[0], rest);
    CutAtComma(lead + options[0], " " + rest);
  }

  lemma Regroup(lead: string, s: string, rest: string)
    ensures lead + (s + ", " + rest) == lead + s + "," + (" " + rest)
  {
  }

  lemma TrimLead(lead: string, s: string)
    requires lead in {"", " "} && Trimmed(s)
    ensures TrimSpace(lead + s) == s
  {
    if lead == " " {
      assert (lead + s)[1..] == s;
    } else {
      assert lead + s == s;
    }
  }

  lemma CommaAt(s: string, i: nat)
    ensures OccursAt(s, ",", i) <==> i < |s| && s[i] == ','
  {
    if i < |s| {
      assert s[i..i + 1] == [s[i]];
    }
  }

  lemma NoComma(s: string)
    requires ',' !in s
    ensures Split(s, ",") == [s]
  {
    if Contains(s, ",") {
      CommaAt(s, IndexFrom(s, ",", 0).value);
      assert false;
    }
  }

  lemma CutAtComma(a: string, b: string)
    requires ',' !in a
    ensures Split(a + "," + b, ",") == [a] + Split(b, ",")
  {
    var s := a + "," + b;
    CommaAt(s, |a|);
    ContainsAt(s, ",", |a|);
    forall k | 0 <= k < |a| ensures !OccursAt(s, ",", k) {
      CommaAt(s, k);
      assert s[k] == a[k] && a[k] in a;
    }
    assert s[..|a|] == a && s[|a| + 1..] == b;
  }

  // ---------------------------------------------------------------------------------
  // Evaluation
  // ---------------------------------------------------------------------------------

  const INVALID_SUFFIX := "(INVALID)"

  /** The value of an operand without white space around it. */
  function Resolution(operand: string, o: Oracle): string {
    match o.resolve(operand)
    case Value(text) => text
    case Failure(_) => operand + " " + INVALID_SUFFIX
  }

  /** What an element of a condition resolves to. */
  function Operand(element: string, o: Oracle): string {
    Resolution(TrimSpace(element), o)
  }

  /** The errors after those of resolving some elements, each kept once (`AddError` of
      app/config/endpoint/result.go). */
  function WithFailures(errors: seq<string>, elements: seq<string>, o: Oracle): seq<string> {
    if elements == [] then errors
    else
      var before := WithFailures(errors, elements[..|elements| - 1], o);
      match o.resolve(TrimSpace(elements[|elements| - 1]))
      case Value(_) => before
      case Failure(e) => AppendNew(before, e)
  }

  /** The errors that were there stay, and those of the failures come after them, each once. */
  lemma {:induction false} FailuresAreKept(errors: seq<string>, elements: seq<string>, o: Oracle)
    ensures errors <= WithFailures(errors, elements, o)
    ensures forall e :: e in WithFailures(errors, elements, o) <==>
      e in errors || exists i :: 0 <= i < |elements| && o.resolve(TrimSpace(elements[i])) == Failure(e)
    ensures forall i, j :: |errors| <= j < |WithFailures(errors, elements, o)| && 0 <= i < j ==>
      WithFailures(errors, elements, o)[i] != WithFailures(errors, elements, o)[j]
  {
    if elements != [] {
      var last := |elements| - 1;
      var before := elements[..last];
      FailuresAreKept(errors, before, o);
      forall e
        ensures e in WithFailures(errors, elements, o) <==>
          e in errors || exists i :: 0 <= i < |elements| && o.resolve(TrimSpace(elements[i])) == Failure(e)
      {
        if i :| 0 <= i < last && o.resolve(TrimSpace(elements[i])) == Failure(e) {
          assert before[i] == elements[i];
        }
        if i :| 0 <= i < last && o.resolve(TrimSpace(before[i])) == Failure(e) {
          assert before[i] == elements[i];
        }
      }
    }
  }

  ghost function Compare(op: Operator, left: string, right: string, o: Oracle): bool {
    match op
    case Eq => Equal(left, right, o)
    case Ne => !Equal(left, right, o)
    case Le => o.number(left) <= o.number(right)
    case Ge => o.number(left) >= o.number(right)
    case Gt => o.number(left) > o.number(right)
    case Lt => o.number(left) < o.number(right)
  }

  /** The verdict on a condition, or nothing if no operator occurs. */
  ghost function Verdict(condition: string, o: Oracle): Option<bool> {
    match Choose(condition)
    case None => None
    case Some(op) =>
      var parts := Split(condition, Symbol(op));
      SplitOnce(condition, Symbol(op));
      Some(Compare(op, Operand(parts[0], o), Operand(parts[1], o), o))
  }

  /** An unambiguous condition compares the values of the operands that were written. */
  lemma VerdictOfWritten(left: string, op: Operator, right: string, o: Oracle)
    requires Trimmed(left) && Trimmed(right) && Unambiguous(left, op, right)
    ensures Verdict(Written(left, op, right), o)
         == Some(Compare(op, Resolution(left, o), Resolution(right, o), o))
  {
    ReadBackIff(left, op, right);
  }

  /** What the verdict on an unambiguous condition means. The numbers of the operands decide the four
      comparisons. Two texts that are no functions are equal if they are the same text or the same
      integer, and different otherwise. */
  lemma VerdictMeans(left: string, op: Operator, right: string, o: Oracle)
    requires Trimmed(left) && Trimmed(right) && Unambiguous(left, op, right)
    ensures Written(left, op, right)
         == left + (match op
                    case Eq => " == " case Ne => " != " case Le => " <= "
                    case Ge => " >= " case Gt => " > " case Lt => " < ")
            + right
    ensures var verdict, l, r := Verdict(Written(left, op, right), o), Resolution(left, o), Resolution(right, o);
      && verdict.Some?
      && (op == Lt ==> (verdict.value <==> o.number(l) < o.number(r)))
      && (op == Ge ==> (verdict.value <==> !(o.number(l) < o.number(r))))
      && (op == Le ==> (verdict.value <==> o.number(l) < o.number(r) || o.number(l) == o.number(r)))
      && (op == Gt ==> (verdict.value <==> !(o.number(l) < o.number(r) || o.number(l) == o.number(r))))
      && (!IsFunction(l) && !IsFunction(r) ==>
            && (op == Eq ==> (verdict.value <==> SameText(l, r, o)))
            && (op == Ne ==> (verdict.value <==> !SameText(l, r, o))))
  {
    SymbolsAre();
    VerdictOfWritten(left, op, right, o);
    if !IsFunction(Resolution(left, o)) && !IsFunction(Resolution(right, o)) {
      PlainEquality(Resolution(left, o), Resolution(right, o), o);
    }
  }

  /** Both are integers, and the same one, or they are not both integers and the same text. */
  predicate SameText(l: string, r: string, o: Oracle) {
    match (o.integer(l), o.integer(r))
    case (Some(m), Some(n)) => m == n
    case _ => l == r
  }

  lemma PlainEquality(l: string, r: string, o: Oracle)
    requires !IsFunction(l) && !IsFunction(r)
    ensures Equal(l, r, o) <==> SameText(l, r, o)
  {
  }

  /** A pattern equals whatever matches it, unless that is a pattern as well. */
  lemma PatternDecides(pattern: string, text: string, o: Oracle)
    requires !(HasPrefix(text, PATTERN_PREFIX) && HasSuffix(text, FUNCTION_SUFFIX))
    ensures Equal("pat(" + pattern + ")", text, o) <==> o.matches(pattern, text)
    ensures Equal(text, "pat(" + pattern + ")", o) <==> o.matches(pattern, text)
  {
    InsideFunction(pattern);
  }

  /** Two lists, or two patterns that do not hold lists, are equal if their insides are. */
  lemma SameFunctions(a: string, b: string, o: Oracle)
    ensures Equal("any(" + a + ")", "any(" + b + ")", o) <==> SameText(a, b, o)
    ensures !HasPrefix(a, ANY_PREFIX) && !HasPrefix(b, ANY_PREFIX) ==>
      (Equal("pat(" + a + ")", "pat(" + b + ")", o) <==> SameText(a, b, o))
  {
    InsideFunction(a);
    InsideFunction(b);
  }

  lemma InsideFunction(a: string)
    ensures var s := "any(" + a + ")";
      && HasPrefix(s, ANY_PREFIX) && !HasPrefix(s, PATTERN_PREFIX) && HasSuffix(s, FUNCTION_SUFFIX)
      && Inner(s, ANY_PREFIX) == a
    ensures var s := "pat(" + a + ")";
      HasPrefix(s, PATTERN_PREFIX) && HasSuffix(s, FUNCTION_SUFFIX) && Inner(s, PATTERN_PREFIX) == a
  {
    var inside := a + ")";
    assert inside[|a|..] == ")" && inside[..|a|] == a;
    var s := "any(" + a + ")";
    assert s[..4] == ANY_PREFIX && s[|s| - 1..] == FUNCTION_SUFFIX && s[4..] == inside;
    assert ANY_PREFIX[0] != PATTERN_PREFIX[0];
    var p := "pat(" + a + ")";
    assert p[..4] == PATTERN_PREFIX && p[|p| - 1..] == FUNCTION_SUFFIX && p[4..] == inside;
  }

  function Opposite(op: Operator): Operator {
    match op case Eq => Ne case Ne => Eq case Lt => Ge case Ge => Lt case Gt => Le case Le => Gt
  }

  /** The opposite operator gives the opposite verdict, whatever the operands. */
  lemma OppositeVerdict(left: string, op: Operator, right: string, o: Oracle)
    requires Trimmed(left) && Trimmed(right)
    requires Unambiguous(left, op, right) && Unambiguous(left, Opposite(op), right)
    ensures Verdict(Written(left, op, right), o).Some?
    ensures Verdict(Written(left, Opposite(op), right), o) == Some(!Verdict(Written(left, op, right), o).value)
  {
    VerdictOfWritten(left, op, right, o);
    VerdictOfWritten(left, Opposite(op), right, o);
  }

  function Flip(op: Operator): Operator {
    match op case Eq => Eq case Ne => Ne case Le => Ge case Ge => Le case Gt => Lt case Lt => Gt
  }

  lemma FlippedCompare(op: Operator, left: string, right: string, o: Oracle)
    ensures Compare(op, left, right, o) == Compare(Flip(op), right, left, o)
  {
    if op in {Eq, Ne} {
      EqualIsSymmetric(left, right, o);
    }
  }

  /** Writing a condition the other way round does not change the verdict. */
  lemma FlippedVerdict(left: string, op: Operator, right: string, o: Oracle)
    requires Trimmed(left) && Trimmed(right)
    requires Unambiguous(left, op, right) && Unambiguous(right, Flip(op), left)
    ensures Verdict(Written(left, op, right), o) == Verdict(Written(right, Flip(op), left), o)
  {
    VerdictOfWritten(left, op, right, o);
    VerdictOfWritten(right, Flip(op), left, o);
    FlippedCompare(op, Resolution(left, o), Resolution(right, o), o);
  }

  class Result {
    var errors: seq<string>
    var conditionResults: seq<bool>

    constructor ()
      ensures errors == [] && conditionResults == []
    {
      errors, conditionResults := [], [];
    }

    /** `AddError`: the loop that looks for the error, and the append. */
    method AddError(error: string)
      modifies this`errors
      ensures errors == AppendNew(old(errors), error)
    {
      for i := 0 to |errors|
        invariant errors == old(errors) && error !in errors[..i]
      {
        if errors[i] == error {
          return;
        }
      }
      errors := errors + [error];
    }

    /** `sanitizeAndResolveWithContext`. */
    method SanitizeAndResolve(elements: seq<string>, o: Oracle) returns (parameters: seq<string>, resolved: seq<string>)
      modifies this`errors
      ensures |parameters| == |resolved| == |elements|
      ensures forall i :: 0 <= i < |elements| ==>
        parameters[i] == TrimSpace(elements[i]) && resolved[i] == Operand(elements[i], o)
      ensures forall i :: 0 <= i < |elements| ==>
        match o.resolve(parameters[i])
        case Value(text) => resolved[i] == text
        case Failure(_) => resolved[i] == parameters[i] + " (INVALID)"
      ensures errors == WithFailures(old(errors), elements, o)
    {
      parameters, resolved := [], [];
      for i := 0 to |elements|
        invariant |parameters| == |resolved| == i
        invariant forall j :: 0 <= j < i ==>
          parameters[j] == TrimSpace(elements[j]) && resolved[j] == Operand(elements[j], o)
        invariant errors == WithFailures(old(errors), elements[..i], o)
      {
        assert elements[..i + 1][..i] == elements[..i];
        var element := TrimSpace(elements[i]);
        parameters := parameters + [element];
        match o.resolve(element) {
          case Failure(error) =>
            AddError(error);
            resolved := resolved + [element + " " + INVALID_SUFFIX];
          case Value(text) =>
            resolved := resolved + [text];
        }
      }
      assert elements[..|elements|] == elements;
    }

    /** `evaluate`, without the text that is displayed for a failed condition. */
    method Evaluate(condition: string, o: Oracle) returns (success: bool)
      modifies this
      ensures match Verdict(condition, o)
        case None =>
          !success && errors == AppendNew(old(errors), "invalid condition: " + condition) &&
          conditionResults == old(conditionResults)
        case Some(verdict) =>
          && success == verdict && conditionResults == old(conditionResults) + [verdict]
          && errors == WithFailures(old(errors), Split(condition, Symbol(Choose(condition).value)), o)
    {
      var operator := Choose(condition);
      if operator.None? {
        AddError("invalid condition: " + condition);
        return false;
      }
      SplitOnce(condition, Symbol(operator.value));
      var parameters, resolved := SanitizeAndResolve(Split(condition, Symbol(operator.value)), o);
      match operator.value {
        case Eq => success := IsEqual(resolved[0], resolved[1], o);
        case Ne =>
          var equal := IsEqual(resolved[0], resolved[1], o);
          success := !equal;
        case Le => success := o.number(resolved[0]) <= o.number(resolved[1]);
        case Ge => success := o.number(resolved[0]) >= o.number(resolved[1]);
        case Gt => success := o.number(resolved[0]) > o.number(resolved[1]);
        case Lt => success := o.number(resolved[0]) < o.number(resolved[1]);
      }
      conditionResults := conditionResults + [success];
    }
  }
}
