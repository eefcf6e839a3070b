/**
  The JSON path evaluator (app/jsonpath/jsonpath.go): a splitter that knows brackets, and a walk
  that rewrites its own path string.

  Values are given as trees; how the value that is found is printed is not modelled. A type
  assertion or an index that would panic is an outcome of its own.
*/
module JsonPaths {
  import opened GoStrings

  datatype Json =
    | Null
    | Bool(b: bool)
    | Number(text: string)
    | Str(s: string)
    | Arr(items: seq<Json>)
    | Obj(fields: map<string, Json>)

  datatype Walked = Found(value: Json) | NotFound | Panics

  // ---------------------------------------------------------------------------------
  // Splitting
  // ---------------------------------------------------------------------------------

  function Depth(depth: int, c: char): int {
    if c == '[' then depth + 1 else if c == ']' then depth - 1 else depth
  }

  /** Position of the first dot outside brackets at or after i. */
  function NextDot(path: string, i: nat, depth: int): (r: Option<nat>)
    requires i <= |path|
    ensures r.Some? ==> i <= r.value < |path| && path[r.value] == '.'
    decreases |path| - i
  {
    if i == |path| then None
    else if path[i] == '.' && depth == 0 then Some(i)
    else NextDot(path, i + 1, Depth(depth, path[i]))
  }

  /** The keys of a path: cut at dots outside brackets. */
  function Keys(path: string): (keys: seq<string>)
    ensures keys != []
    decreases |path|
  {
    match NextDot(path, 0, 0)
    case None => [path]
    case Some(i) => [path[..i]] + Keys(path[i + 1..])
  }

  /** The keys with dots between them. */
  function Dotted(keys: seq<string>): string
    requires keys != []
  {
    if |keys| == 1 then keys[0] else keys[0] + "." + Dotted(keys[1..])
  }

  /** Cutting a path loses nothing. */
  lemma {:induction false} DottedKeys(path: string)
    ensures Dotted(Keys(path)) == path
    decreases |path|
  {
    match NextDot(path, 0, 0)
    case None =>
    case Some(i) =>
      DottedKeys(path[i + 1..]);
      assert Keys(path)[1..] == Keys(path[i + 1..]);
      assert path == path[..i] + [path[i]] + path[i + 1..];
  }

  lemma CutAtDot(path: string, start: nat, i: nat)
    requires start <= i < |path| && path[i] == '.'
    requires NextDot(path[start..], 0, 0) == NextDot(path[start..], i - start, 0)
    ensures Keys(path[start..]) == [path[start..i]] + Keys(path[i + 1..])
  {
    var rest := path[start..];
    assert rest[..i - start] == path[start..i];
    assert rest[i - start + 1..] == path[i + 1..];
  }

  lemma NextDotStep(path: string, start: nat, i: nat, depth: int)
    requires start <= i < |path| && !(path[i] == '.' && depth == 0)
    ensures NextDot(path[start..], i - start, depth)
         == NextDot(path[start..], i + 1 - start, Depth(depth, path[i]))
  {
  }

  /** What the scan still appends, from position i of a key that started at `start`. */
  function Remaining(path: string, start: nat, i: nat, depth: int): seq<string>
    requires start <= i <= |path|
    decreases |path| - i
  {
    if i == |path| then [path[start..]]
    else if path[i] == '.' && depth == 0 then [path[start..i]] + Remaining(path, i + 1, i + 1, 0)
    else Remaining(path, start, i + 1, Depth(depth, path[i]))
  }

  lemma {:induction false} RemainingIsKeys(path: string, start: nat, i: nat, depth: int)
    requires start <= i <= |path|
    requires NextDot(path[start..], 0, 0) == NextDot(path[start..], i - start, depth)
    ensures Remaining(path, start, i, depth) == Keys(path[start..])
    decreases |path| - i
  {
    if i == |path| {
      NoMoreDots(path[start..], depth);
    } else if path[i] == '.' && depth == 0 {
      CutAtDot(path, start, i);
      RemainingIsKeys(path, i + 1, i + 1, 0);
    } else {
      NextDotStep(path, start, i, depth);
      RemainingIsKeys(path, start, i + 1, Depth(depth, path[i]));
    }
  }

  lemma NoMoreDots(path: string, depth: int)
    requires NextDot(path, 0, 0) == NextDot(path, |path|, depth)
    ensures Keys(path) == [path]
  {
  }

  /** The scan of `walk`: keeps the bracket depth and where the current key started. */
  method SplitKeys(path: string) returns (keys: seq<string>)
    ensures keys == Keys(path)
  {
    keys := [];
    var startOfCurrentKey, bracketDepth := 0, 0;
    for i := 0 to |path|
      invariant 0 <= startOfCurrentKey <= i
      invariant keys + Remaining(path, startOfCurrentKey, i, bracketDepth) == Remaining(path, 0, 0, 0)
    {
      if path[i] == '[' {
        bracketDepth := bracketDepth + 1;
      } else if path[i] == ']' {
        bracketDepth := bracketDepth - 1;
      }
      if path[i] == '.' && bracketDepth == 0 {
        keys := keys + [path[startOfCurrentKey..i]];
        startOfCurrentKey := i + 1;
      }
    }
    if startOfCurrentKey <= |path| {
      keys := keys + [path[startOfCurrentKey..]];
    }
    RemainingIsKeys(path, 0, 0, 0);
    assert path[0..] == path;
  }

  /** What rewriting the path does: replacing the first occurrence of the first key and a dot by
      nothing drops exactly the first key, and changes nothing if there is no other key. */
  lemma RewriteDropsFirstKey(path: string)
    ensures var keys := Keys(path);
      if |keys| == 1 then
        RemoveFirst(path, keys[0] + ".") == path
      else
        && RemoveFirst(path, keys[0] + ".") == path[|keys[0]| + 1..]
        && Keys(RemoveFirst(path, keys[0] + ".")) == keys[1..]
        && |RemoveFirst(path, keys[0] + ".")| < |path|
  {
    var keys := Keys(path);
    match NextDot(path, 0, 0)
    case None =>
    case Some(i) =>
      assert keys[0] == path[..i];
      assert OccursAt(path, keys[0] + ".", 0) by {
        assert path[0..i + 1] == path[..i] + [path[i]];
      }
      assert path[..0] + path[i + 1..] == path[i + 1..];
  }

  // ---------------------------------------------------------------------------------
  // Extracting
  // ---------------------------------------------------------------------------------

  datatype Extracted = Extracted(value: Json) | Panicked

  function Find(s: string, c: char, from: nat): (r: Option<nat>)
    ensures r.Some? ==> from <= r.value < |s| && s[r.value] == c
    ensures r.Some? ==> forall i :: from <= i < r.value ==> s[i] != c
    ensures r.None? ==> forall i :: from <= i < |s| ==> s[i] != c
    decreases |s| - from
  {
    if from >= |s| then None else if s[from] == c then Some(from) else Find(s, c, from + 1)
  }

  /** The brackets of the first index of a key; there is none if a second bracket opens before
      the first one closes. */
  function FirstIndex(key: string): (r: Option<(nat, nat)>)
    ensures r.Some? ==> r.value.0 < r.value.1 < |key| && key[r.value.1] == ']'
  {
    match Find(key, '[', 0)
    case None => None
    case Some(open) =>
      match Find(key, ']', open + 1)
      case None => None
      case Some(close) =>
        match Find(key, '[', open + 1)
        case Some(next) => if next < close then None else Some((open, close))
        case None => Some((open, close))
  }

  /** The key ends in a closing bracket and contains an opening one. */
  predicate IsIndexed(key: string) {
    key != "" && key[|key| - 1] == ']' && '[' in key
  }

  /** The first index of a key lies between its first opening bracket and the next closing one, if no other
      bracket opens in between. */
  lemma FirstIndexIff(key: string, open: nat, close: nat)
    ensures FirstIndex(key) == Some((open, close)) <==>
      && open < close < |key| && key[open] == '[' && key[close] == ']'
      && (forall i :: 0 <= i < open ==> key[i] != '[')
      && (forall i :: open < i < close ==> key[i] != '[' && key[i] != ']')
  {
  }

  /** What Go's `value.([]interface{})` with an ignored failure yields. */
  function ItemsOf(value: Json): seq<Json> {
    if value.Arr? then value.items else []
  }

  /** Reading a field of a map: nil when it is missing. */
  function FieldOf(fields: map<string, Json>, name: string): Json {
    if name in fields then fields[name] else Null
  }

  /** The value of one key, which may end in indices. */
  function Extract(key: string, value: Json): Extracted
    decreases |key|
  {
    if !IsIndexed(key) then Extracted(if value.Obj? then FieldOf(value.fields, key) else value)
    else
      match FirstIndex(key)
      case None => Extracted(Null)
      case Some((open, close)) =>
        match Atoi(key[open + 1..close])
        case None => Extracted(Null)
        case Some(index) =>
          if key[..open] == "" then ExtractItem(key, close, ItemsOf(value), index)
          else if value.Null? then Extracted(Null)
          else if !value.Obj? then Panicked
          else if FieldOf(value.fields, key[..open]).Null? then Extracted(Null)
          else ExtractItem(key, close, ItemsOf(FieldOf(value.fields, key[..open])), index)
  }

  function ExtractItem(key: string, close: nat, items: seq<Json>, index: int): Extracted
    requires close < |key|
    decreases |key|, 0
  {
    if |items| <= index then Extracted(Null)
    else if index < 0 then Panicked
    else if close + 1 < |key| && key[close + 1] == '[' then Extract(key[close + 1..], items[index])
    else Extracted(items[index])
  }

  /** An indexed key without a well-formed first index, or with one that is no number, yields null. */
  lemma MalformedIsNull(key: string, value: Json)
    requires IsIndexed(key)
    requires match FirstIndex(key)
      case None => true
      case Some((open, close)) => Atoi(key[open + 1..close]) == None
    ensures Extract(key, value) == Extracted(Null)
  {
  }

  /** A negative index of an array panics. */
  lemma NegativeIndexPanics(index: int, items: seq<Json>)
    requires MIN_INT <= index < 0
    ensures Extract("[" + Itoa(index) + "]", Arr(items)) == Panicked
  {
    var digits := Itoa(index);
    var key := "[" + digits + "]";
    assert key[1..|digits| + 1] == digits && key[..0] == "";
    assert forall i :: 0 < i <= |digits| ==> key[i] == digits[i - 1] != '[' && key[i] != ']';
    FirstIndexIff(key, 0, |digits| + 1);
    AtoiReads(index);
    assert key[0] in key;
  }

  /** The scan of `extractValue` for its first index. */
  method ScanIndex(key: string) returns (startOfBracket: nat, endOfBracket: nat, index: string, isNestedArray: bool)
    ensures FirstIndex(key).None? ==> index == ""
    ensures FirstIndex(key).Some? ==>
      && FirstIndex(key).value == (startOfBracket, endOfBracket)
      && index == key[startOfBracket + 1..endOfBracket]
      && (isNestedArray <==> endOfBracket + 1 < |key| && key[endOfBracket + 1] == '[')
  {
    startOfBracket, endOfBracket, index, isNestedArray := 0, 0, "", false;
    var bracketDepth := 0;
    for i := 0 to |key|
      invariant 0 <= bracketDepth && index == ""
      invariant bracketDepth == 0 ==> Find(key, '[', 0) == Find(key, '[', i)
      invariant bracketDepth > 0 ==>
        && Find(key, '[', 0).Some? && Find(key, '[', 0).value < i
        && (bracketDepth > 1 ==> FirstIndex(key).None?)
      invariant bracketDepth == 1 ==>
        && Find(key, '[', 0) == Some(startOfBracket)
        && (forall j :: startOfBracket < j < i ==> key[j] != ']' && key[j] != '[')
    {
      if key[i] == '[' {
        startOfBracket := i;
        bracketDepth := bracketDepth + 1;
      } else if key[i] == ']' && bracketDepth == 1 {
        bracketDepth := bracketDepth - 1;
        endOfBracket := i;
        index := key[startOfBracket + 1..i];
        if |key| > i + 1 && key[i + 1] == '[' {
          isNestedArray := true;
        }
        return;
      }
    }
  }

  method ExtractValue(key: string, value: Json) returns (r: Extracted)
    ensures r == Extract(key, value)
    decreases |key|
  {
    if IsIndexed(key) {
      var startOfBracket, endOfBracket, index, isNestedArray := ScanIndex(key);
      var arrayIndex := Atoi(index);
      if arrayIndex.None? {
        return Extracted(Null);
      }
      var keyWithoutIndex := key[..startOfBracket];
      var items: seq<Json>;
      if |keyWithoutIndex| == 0 {
        items := ItemsOf(value);
      } else {
        if value.Null? {
          return Extracted(Null);
        }
        if !value.Obj? {
          return Panicked;
        }
        var field := FieldOf(value.fields, keyWithoutIndex);
        if field.Null? {
          return Extracted(Null);
        }
        items := ItemsOf(field);
      }
      if |items| > arrayIndex.value {
        if arrayIndex.value < 0 {
          return Panicked;
        }
        if isNestedArray {
          r := ExtractValue(key[endOfBracket + 1..], items[arrayIndex.value]);
          return;
        }
        return Extracted(items[arrayIndex.value]);
      }
      return Extracted(Null);
    }
    match value {
      case Arr(_) => return Extracted(value);
      case Obj(fields) => return Extracted(FieldOf(fields, key));
      case _ => return Extracted(value);
    }
  }

  // ---------------------------------------------------------------------------------
  // Walking
  // ---------------------------------------------------------------------------------

  /** The walk as a fold of `Extract` over the keys. It goes on only from an object; an array or a
      scalar ends it, whatever is left of the path, except that a string must be the last. */
  function Fold(keys: seq<string>, value: Json): Walked
    requires keys != []
    decreases |keys|, 0
  {
    match Extract(keys[0], value)
    case Panicked => Panics
    case Extracted(v) => Arrive(v, keys[1..])
  }

  function Arrive(v: Json, rest: seq<string>): Walked
    decreases |rest|, 1
  {
    match v
    case Null => NotFound
    case Str(_) => if rest == [] then Found(v) else NotFound
    case Obj(_) => if rest == [] then Found(v) else Fold(rest, v)
    case _ => Found(v)
  }

  method Walk(path: string, value: Json) returns (r: Walked)
    ensures r == Fold(Keys(path), value)
    decreases |path|
  {
    var keys := SplitKeys(path);
    var currentKey := keys[0];
    var extracted := ExtractValue(currentKey, value);
    if extracted.Panicked? {
      return Panics;
    }
    match extracted.value {
      case Obj(_) =>
        RewriteDropsFirstKey(path);
        var newPath := RemoveFirst(path, currentKey + ".");
        if path == newPath {
          return Found(extracted.value);
        }
        r := Walk(newPath, extracted.value);
      case Str(_) =>
        if |keys| > 1 {
          return NotFound;
        }
        return Found(extracted.value);
      case Arr(_) => return Found(extracted.value);
      case Null => return NotFound;
      case _ => return Found(extracted.value);
    }
  }

  datatype Evaluated = Raw | Invalid | Result(walked: Walked)

  /** `Eval`: `parsed` is what parsing the body gives. */
  method Eval(path: string, body: string, parsed: Option<Json>) returns (r: Evaluated)
    ensures path == "" && !(HasPrefix(body, "[") && HasSuffix(body, "]")) ==> r == Raw
    ensures !(path == "" && !(HasPrefix(body, "[") && HasSuffix(body, "]"))) ==>
      r == if parsed.None? then Invalid else Result(Fold(Keys(path), parsed.value))
  {
    if |path| == 0 && !(|body| != 0 && body[0] == '[' && body[|body| - 1] == ']') {
      return Raw;
    }
    if parsed.None? {
      return Invalid;
    }
    var walked := Walk(path, parsed.value);
    return Result(walked);
  }

  // ---------------------------------------------------------------------------------
  // Agreement with structural navigation
  // ---------------------------------------------------------------------------------

  datatype Access = Field(name: string) | Item(index: nat)

  /** Plain navigation: a field of an object or an item of an array, or nothing. */
  function Navigate(steps: seq<Access>, value: Json): Option<Json> {
    if steps == [] then Some(value)
    else
      match Step(steps[0], value)
      case None => None
      case Some(v) => Navigate(steps[1..], v)
  }

  function Step(step: Access, value: Json): Option<Json> {
    match step
    case Field(name) => if value.Obj? && name in value.fields then Some(value.fields[name]) else None
    case Item(index) => if value.Arr? && index < |value.items| then Some(value.items[index]) else None
  }

  /** One key of an access path: a field name, empty for an array at the root, and indices. */
  datatype Segment = Segment(name: string, indices: seq<nat>)

  predicate IsPlain(name: string) {
    '.' !in name && '[' !in name && ']' !in name
  }

  predicate ValidSegment(seg: Segment, first: bool) {
    && IsPlain(seg.name)
    && (forall i :: 0 <= i < |seg.indices| ==> seg.indices[i] <= MAX_INT)
    && (seg.name != "" || (first && seg.indices != []))
  }

  predicate ValidPath(segs: seq<Segment>, first: bool) {
    forall i :: 0 <= i < |segs| ==> ValidSegment(segs[i], first && i == 0)
  }

  function RenderIndices(indices: seq<nat>): string {
    if indices == [] then "" else "[" + Itoa(indices[0]) + "]" + RenderIndices(indices[1..])
  }

  function RenderSegment(seg: Segment): string {
    seg.name + RenderIndices(seg.indices)
  }

  /** The path as it is written: `k[i][j].l`. */
  function Render(segs: seq<Segment>): string
    requires segs != []
  {
    if |segs| == 1 then RenderSegment(segs[0])
    else RenderSegment(segs[0]) + "." + Render(segs[1..])
  }

  function Rendered(segs: seq<Segment>): (keys: seq<string>)
    ensures |keys| == |segs|
  {
    if segs == [] then [] else [RenderSegment(segs[0])] + Rendered(segs[1..])
  }

  function Items(indices: seq<nat>): seq<Access> {
    if indices == [] then [] else [Item(indices[0])] + Items(indices[1..])
  }

  function SegmentSteps(seg: Segment): seq<Access> {
    (if seg.name == "" then [] else [Field(seg.name)]) + Items(seg.indices)
  }

  function Steps(segs: seq<Segment>): seq<Access> {
    if segs == [] then [] else SegmentSteps(segs[0]) + Steps(segs[1..])
  }

  // Rendering and splitting

  function Level(s: string): int {
    if s == "" then 0 else Depth(Level(s[..|s| - 1]), s[|s| - 1])
  }

  /** Text without dots only moves the bracket depth. */
  lemma {:induction false} SkipDotless(a: string, b: string)
    requires '.' !in a
    ensures NextDot(a + b, 0, 0) == NextDot(a + b, |a|, Level(a))
  {
    if a != "" {
      var init, last := a[..|a| - 1], a[|a| - 1];
      assert a + b == init + ([last] + b);
      SkipDotless(init, [last] + b);
      assert last in a;
    }
  }

  lemma {:induction false} LevelOfConcat(a: string, b: string)
    ensures Level(a + b) == Level(a) + Level(b)
  {
    if b == "" {
      assert a + b == a;
    } else {
      assert (a + b)[..|a + b| - 1] == a + b[..|b| - 1];
      LevelOfConcat(a, b[..|b| - 1]);
    }
  }

  lemma {:induction false} LevelOfText(s: string)
    requires '[' !in s && ']' !in s
    ensures Level(s) == 0
  {
    if s != "" {
      assert s[|s| - 1] in s;
      LevelOfText(s[..|s| - 1]);
    }
  }

  lemma {:induction false} IndicesAreBalanced(indices: seq<nat>)
    ensures '.' !in RenderIndices(indices) && Level(RenderIndices(indices)) == 0
  {
    if indices != [] {
      var d, rest := Itoa(indices[0]), RenderIndices(indices[1..]);
      IndicesAreBalanced(indices[1..]);
      LevelOfConcat("[" + d + "]", rest);
      LevelOfConcat("[" + d, "]");
      LevelOfConcat("[", d);
      LevelOfText(d);
      assert Level("[") == 1 by { assert "["[..0] == ""; }
      assert Level("]") == -1 by { assert "]"[..0] == ""; }
    }
  }

  lemma SegmentIsBalanced(seg: Segment)
    requires IsPlain(seg.name)
    ensures '.' !in RenderSegment(seg) && Level(RenderSegment(seg)) == 0
  {
    IndicesAreBalanced(seg.indices);
    LevelOfConcat(seg.name, RenderIndices(seg.indices));
    LevelOfText(seg.name);
  }

  lemma CutKey(key: string, rest: string)
    requires '.' !in key && Level(key) == 0
    ensures Keys(key + "." + rest) == [key] + Keys(rest)
  {
    var path := key + "." + rest;
    SkipDotless(key, "." + rest);
    assert path == key + ("." + rest);
    assert NextDot(path, 0, 0) == Some(|key|);
    assert path[..|key|] == key;
    assert path[|key| + 1..] == rest;
  }

  lemma LastKey(key: string)
    requires '.' !in key && Level(key) == 0
    ensures Keys(key) == [key]
  {
    SkipDotless(key, "");
    assert key + "" == key;
  }

  /** A rendered path splits into its rendered keys. */
  lemma {:induction false} KeysOfRender(segs: seq<Segment>)
    requires segs != [] && forall i :: 0 <= i < |segs| ==> IsPlain(segs[i].name)
    ensures Keys(Render(segs)) == Rendered(segs)
  {
    SegmentIsBalanced(segs[0]);
    if |segs| == 1 {
      LastKey(RenderSegment(segs[0]));
      assert Rendered(segs[1..]) == [];
    } else {
      KeysOfRender(segs[1..]);
      CutKey(RenderSegment(segs[0]), Render(segs[1..]));
    }
  }

  // Extracting a rendered key

  /** What a key selects, without its text. */
  function Pick(seg: Segment, value: Json): Extracted {
    if seg.indices == [] then Extracted(if value.Obj? then FieldOf(value.fields, seg.name) else value)
    else if seg.name == "" then PickItem(seg.indices, value)
    else if value.Null? then Extracted(Null)
    else if !value.Obj? then Panicked
    else PickItem(seg.indices, FieldOf(value.fields, seg.name))
  }

  function PickItem(indices: seq<nat>, value: Json): Extracted
  {
    if indices == [] then Extracted(value)
    else if |ItemsOf(value)| <= indices[0] then Extracted(Null)
    else PickItem(indices[1..], value.items[indices[0]])
  }

  lemma {:induction false} IndicesEndInBracket(indices: seq<nat>)
    requires indices != []
    ensures var r := RenderIndices(indices); r != "" && r[0] == '[' && r[|r| - 1] == ']'
  {
    if |indices| > 1 {
      IndicesEndInBracket(indices[1..]);
    }
  }

  lemma IsIndexedIff(seg: Segment)
    requires IsPlain(seg.name)
    ensures IsIndexed(RenderSegment(seg)) <==> seg.indices != []
  {
    if seg.indices == [] {
      assert RenderSegment(seg) == seg.name;
    } else {
      IndicesEndInBracket(seg.indices);
      assert RenderSegment(seg)[|seg.name|] == '[';
    }
  }

  lemma FirstIndexAt(key: string, open: nat, close: nat)
    requires open < close < |key| && key[open] == '[' && key[close] == ']'
    requires forall i :: 0 <= i < close && i != open ==> key[i] != '[' && key[i] != ']'
    ensures FirstIndex(key) == Some((open, close))
  {
  }

  lemma FirstIndexOf(key: string, name: string, digits: string, tail: string)
    requires IsPlain(name) && '[' !in digits && ']' !in digits
    requires key == name + ("[" + digits + "]" + tail)
    ensures FirstIndex(key) == Some((|name|, |name| + 1 + |digits|))
    ensures key[..|name|] == name
    ensures key[|name| + 1..|name| + 1 + |digits|] == digits
    ensures key[|name| + 1 + |digits| + 1..] == tail
  {
    var open, close := |name|, |name| + 1 + |digits|;
    forall i | 0 <= i < close && i != open ensures key[i] != '[' && key[i] != ']' {
      assert if i < open then key[i] == name[i] && key[i] in name
             else key[i] == digits[i - open - 1] && key[i] in digits;
    }
    FirstIndexAt(key, open, close);
  }

  lemma ExtractIndexed(key: string, open: nat, close: nat, index: nat, value: Json)
    requires IsIndexed(key) && open < close < |key| && FirstIndex(key) == Some((open, close))
    requires Atoi(key[open + 1..close]) == Some(index)
    ensures Extract(key, value)
         == if open == 0 then ExtractItem(key, close, ItemsOf(value), index)
            else if value.Null? then Extracted(Null)
            else if !value.Obj? then Panicked
            else if FieldOf(value.fields, key[..open]).Null? then Extracted(Null)
            else ExtractItem(key, close, ItemsOf(FieldOf(value.fields, key[..open])), index)
  {
  }

  /** The position of the bracket that closes the first index of a rendered key. */
  function Close(seg: Segment): nat
    requires seg.indices != []
  {
    |seg.name| + 1 + |Itoa(seg.indices[0])|
  }

  /** An indexed key, cut at its first index. */
  lemma CutIndexed(seg: Segment)
    requires IsPlain(seg.name) && seg.indices != []
    ensures var key := RenderSegment(seg);
      && Close(seg) < |key| && FirstIndex(key) == Some((|seg.name|, Close(seg)))
      && key[..|seg.name|] == seg.name
      && key[|seg.name| + 1..Close(seg)] == Itoa(seg.indices[0])
      && key[Close(seg) + 1..] == RenderIndices(seg.indices[1..])
  {
    ItoaIsPlain(seg.indices[0]);
    FirstIndexOf(RenderSegment(seg), seg.name, Itoa(seg.indices[0]), RenderIndices(seg.indices[1..]));
  }

  lemma ItoaIsPlain(n: nat)
    ensures IsPlain(Itoa(n))
  {
  }

  /** What the text of a key extracts. */
  function ReadKey(seg: Segment, value: Json): Extracted {
    Extract(RenderSegment(seg), value)
  }

  /** What the text of its indices extracts. */
  function ReadItem(seg: Segment, holder: Json): Extracted
    requires seg.indices != [] && Close(seg) < |RenderSegment(seg)|
  {
    ExtractItem(RenderSegment(seg), Close(seg), ItemsOf(holder), seg.indices[0])
  }

  /** What the indices of a key apply to. */
  function Holder(seg: Segment, value: Json): Json {
    if seg.name == "" then value else if value.Obj? then FieldOf(value.fields, seg.name) else Null
  }

  /** The name is looked up first: where there is nothing to index, the indices do not matter. */
  predicate Indexable(seg: Segment, value: Json) {
    seg.name == "" || (value.Obj? && !FieldOf(value.fields, seg.name).Null?)
  }

  lemma ReadHead(seg: Segment, value: Json)
    requires IsPlain(seg.name) && seg.indices != [] && seg.indices[0] <= MAX_INT
    ensures Close(seg) < |RenderSegment(seg)|
    ensures RenderSegment(seg)[Close(seg) + 1..] == RenderIndices(seg.indices[1..])
    ensures ReadKey(seg, value)
         == if Indexable(seg, value) then ReadItem(seg, Holder(seg, value))
            else if value.Null? || value.Obj? then Extracted(Null)
            else Panicked
  {
    IsIndexedIff(seg);
    CutIndexed(seg);
    AtoiOfItoa(seg.indices[0]);
    ExtractIndexed(RenderSegment(seg), |seg.name|, Close(seg), seg.indices[0], value);
  }

  lemma PickHead(seg: Segment, value: Json)
    requires seg.indices != []
    ensures Pick(seg, value)
         == if Indexable(seg, value) then PickItem(seg.indices, Holder(seg, value))
            else if value.Null? || value.Obj? then Extracted(Null)
            else Panicked
  {
  }

  lemma ReadUnindexed(seg: Segment, value: Json)
    requires IsPlain(seg.name) && seg.indices == []
    ensures ReadKey(seg, value) == Pick(seg, value)
  {
    IsIndexedIff(seg);
    assert RenderSegment(seg) == seg.name;
  }

  /** The text of a key is read back to its name and its indices. */
  lemma {:induction false} ExtractOfRender(seg: Segment, value: Json)
    requires IsPlain(seg.name)
    requires forall i :: 0 <= i < |seg.indices| ==> seg.indices[i] <= MAX_INT
    ensures ReadKey(seg, value) == Pick(seg, value)
    decreases |seg.indices|
  {
    if seg.indices == [] {
      ReadUnindexed(seg, value);
    } else {
      ReadHead(seg, value);
      PickHead(seg, value);
      ReadItemOfRender(seg, Holder(seg, value));
    }
  }

  lemma {:induction false} ReadItemOfRender(seg: Segment, holder: Json)
    requires seg.indices != [] && Close(seg) < |RenderSegment(seg)|
    requires RenderSegment(seg)[Close(seg) + 1..] == RenderIndices(seg.indices[1..])
    requires forall i :: 0 <= i < |seg.indices| ==> seg.indices[i] <= MAX_INT
    ensures ReadItem(seg, holder) == PickItem(seg.indices, holder)
    decreases |seg.indices|, 0
  {
    var rest := seg.indices[1..];
    if rest != [] {
      IndicesEndInBracket(rest);
      assert RenderSegment(seg)[Close(seg) + 1] == RenderIndices(rest)[0] == '[';
      if seg.indices[0] < |ItemsOf(holder)| {
        ExtractOfRender(Segment("", rest), holder.items[seg.indices[0]]);
        assert RenderSegment(Segment("", rest)) == RenderSegment(seg)[Close(seg) + 1..];
      }
    }
  }

  /** The walk on structured keys. */
  function WalkSegments(segs: seq<Segment>, value: Json): Walked
    requires segs != []
  {
    match Pick(segs[0], value)
    case Panicked => Panics
    case Extracted(v) =>
      if v.Null? || (v.Str? && |segs| > 1) then NotFound
      else if v.Obj? && |segs| > 1 then WalkSegments(segs[1..], v)
      else Found(v)
  }

  /** Printing a valid path and walking the text is walking its structure, on every tree. */
  lemma WalkOfRender(segs: seq<Segment>, value: Json, first: bool)
    requires segs != [] && ValidPath(segs, first)
    ensures Fold(Keys(Render(segs)), value) == WalkSegments(segs, value)
  {
    KeysOfRender(segs);
    FoldOfRendered(segs, value, first);
  }

  lemma FoldStep(key: string, rest: seq<string>, value: Json)
    ensures Fold([key] + rest, value)
         == match Extract(key, value) case Panicked => Panics case Extracted(v) => Arrive(v, rest)
  {
    assert ([key] + rest)[1..] == rest;
  }

  lemma FoldFirst(seg: Segment, rest: seq<string>, value: Json)
    requires IsPlain(seg.name) && forall i :: 0 <= i < |seg.indices| ==> seg.indices[i] <= MAX_INT
    ensures Fold([RenderSegment(seg)] + rest, value)
         == match Pick(seg, value) case Panicked => Panics case Extracted(v) => Arrive(v, rest)
  {
    FoldStep(RenderSegment(seg), rest, value);
    ExtractOfRender(seg, value);
  }

  lemma Tail(segs: seq<Segment>, first: bool)
    requires segs != [] && ValidPath(segs, first)
    ensures ValidPath(segs[1..], false)
  {
    forall i | 0 <= i < |segs| - 1 ensures ValidSegment(segs[1..][i], false) {
      assert ValidSegment(segs[i + 1], first && i + 1 == 0);
    }
  }

  lemma {:induction false} FoldOfRendered(segs: seq<Segment>, value: Json, first: bool)
    requires segs != [] && ValidPath(segs, first)
    ensures Fold(Rendered(segs), value) == WalkSegments(segs, value)
  {
    assert ValidSegment(segs[0], first);
    Tail(segs, first);
    FoldFirst(segs[0], Rendered(segs[1..]), value);
    if |segs| > 1 && Pick(segs[0], value).Extracted? {
      FoldOfRendered(segs[1..], Pick(segs[0], value).value, false);
    }
  }

  // Navigation

  lemma {:induction false} NavigateConcat(a: seq<Access>, b: seq<Access>, value: Json)
    ensures Navigate(a + b, value)
         == match Navigate(a, value) case None => None case Some(v) => Navigate(b, v)
  {
    if a == [] {
      assert a + b == b;
    } else {
      assert (a + b)[1..] == a[1..] + b;
      match Step(a[0], value)
      case None =>
      case Some(v) => NavigateConcat(a[1..], b, v);
    }
  }

  lemma {:induction false} ItemsNavigate(indices: seq<nat>, value: Json)
    ensures match Navigate(Items(indices), value)
      case Some(v) => PickItem(indices, value) == Extracted(v)
      case None => PickItem(indices, value) == Extracted(Null)
  {
    if indices != [] && indices[0] < |ItemsOf(value)| {
      ItemsNavigate(indices[1..], value.items[indices[0]]);
    }
  }

  /** A key selects what navigation selects. Where there is nothing to navigate to it yields null,
      or panics, or, without indices and on something that is not an object, the value itself. */
  lemma PickNavigates(seg: Segment, value: Json, first: bool)
    requires ValidSegment(seg, first)
    ensures match Navigate(SegmentSteps(seg), value)
      case Some(v) => Pick(seg, value) == Extracted(v) && (seg.indices == [] ==> value.Obj?)
      case None =>
        if seg.indices == [] && !value.Obj? then Pick(seg, value) == Extracted(value)
        else Pick(seg, value) in {Panicked, Extracted(Null)}
  {
    if seg.name == "" {
      assert SegmentSteps(seg) == Items(seg.indices);
      ItemsNavigate(seg.indices, value);
    } else {
      assert SegmentSteps(seg)[1..] == Items(seg.indices);
      if value.Obj? {
        ItemsNavigate(seg.indices, FieldOf(value.fields, seg.name));
      }
    }
  }

  /** The value after the first k keys of an access path. */
  function Reached(segs: seq<Segment>, k: nat, value: Json): Option<Json>
    requires k <= |segs|
  {
    Navigate(Steps(segs[..k]), value)
  }

  lemma ReachedStep(segs: seq<Segment>, k: nat, value: Json)
    requires 0 < k <= |segs|
    ensures Reached(segs, k, value)
         == match Navigate(SegmentSteps(segs[0]), value)
            case None => None
            case Some(v) => Reached(segs[1..], k - 1, v)
  {
    assert segs[..k][1..] == segs[1..][..k - 1];
    NavigateConcat(SegmentSteps(segs[0]), Steps(segs[1..][..k - 1]), value);
  }

  /** x ends the walk after k keys: at the end of the path, or earlier at an array, a number or a
      boolean, or at the root when that is not an object and the first key has no index. */
  predicate EndsAt(segs: seq<Segment>, k: nat, value: Json, x: Json)
    requires k <= |segs|
  {
    && Reached(segs, k, value) == Some(x) && !x.Null?
    && (k < |segs| ==> !x.Obj? && (x.Str? ==> k == 0 && |segs| == 1))
    && (k == 0 ==> segs != [] && segs[0].indices == [])
  }

  /** Walking the text of a valid path finds exactly the values where navigation may end. */
  lemma FoundIff(segs: seq<Segment>, value: Json, x: Json)
    requires segs != [] && ValidPath(segs, true)
    ensures Fold(Keys(Render(segs)), value) == Found(x) <==>
            exists k: nat :: k <= |segs| && EndsAt(segs, k, value, x)
  {
    WalkOfRender(segs, value, true);
    EndOfWalk(segs, value, true, x);
    if k: nat :| k <= |segs| && EndsAt(segs, k, value, x) {
      WalkToEnd(segs, k, value, true, x);
    }
  }

  lemma {:induction false} EndOfWalk(segs: seq<Segment>, value: Json, first: bool, x: Json)
    requires segs != [] && ValidPath(segs, first)
    ensures WalkSegments(segs, value) == Found(x) ==> exists k: nat :: k <= |segs| && EndsAt(segs, k, value, x)
  {
    assert ValidSegment(segs[0], first);
    PickNavigates(segs[0], value, first);
    if WalkSegments(segs, value) == Found(x) {
      assert Reached(segs, 0, value) == Some(value) by { assert segs[..0] == []; }
      var v := Pick(segs[0], value).value;
      match Navigate(SegmentSteps(segs[0]), value)
      case None =>
        assert EndsAt(segs, 0, value, x);
      case Some(_) =>
        ReachedStep(segs, 1, value);
        assert Reached(segs[1..], 0, v) == Some(v) by { assert segs[1..][..0] == []; }
        if v.Obj? && |segs| > 1 {
          assert ValidPath(segs[1..], false) by { Tail(segs, first); }
          EndOfWalk(segs[1..], v, false, x);
          var k: nat :| k <= |segs| - 1 && EndsAt(segs[1..], k, v, x);
          ReachedStep(segs, k + 1, value);
          assert EndsAt(segs, k + 1, value, x);
        } else {
          assert EndsAt(segs, 1, value, x);
        }
    }
  }

  lemma {:induction false} WalkToEnd(segs: seq<Segment>, k: nat, value: Json, first: bool, x: Json)
    requires segs != [] && ValidPath(segs, first) && k <= |segs| && EndsAt(segs, k, value, x)
    ensures WalkSegments(segs, value) == Found(x)
  {
    assert ValidSegment(segs[0], first);
    PickNavigates(segs[0], value, first);
    if k == 0 {
      assert segs[..0] == [];
      assert x == value;
    } else {
      ReachedStep(segs, k, value);
      var v := Navigate(SegmentSteps(segs[0]), value).value;
      if k == 1 {
        assert segs[1..][..0] == [];
      } else {
        Tail(segs, first);
        NavigatedIsObject(segs[1..], k - 1, v);
        WalkToEnd(segs[1..], k - 1, v, false, x);
      }
    }
  }

  lemma NavigatedIsObject(segs: seq<Segment>, k: nat, value: Json)
    requires 0 < k <= |segs| && ValidPath(segs, false) && Reached(segs, k, value).Some?
    ensures value.Obj?
  {
    assert ValidSegment(segs[0], false);
    ReachedStep(segs, k, value);
    assert SegmentSteps(segs[0])[0] == Field(segs[0].name);
  }

  /** Walking the text of a valid path panics exactly if the first key has both a name and an index, and
      the root is neither an object nor null. */
  lemma PanicsIff(segs: seq<Segment>, value: Json)
    requires segs != [] && ValidPath(segs, true)
    ensures Fold(Keys(Render(segs)), value) == Panics <==>
            !value.Null? && !value.Obj? && segs[0].name != "" && segs[0].indices != []
  {
    WalkOfRender(segs, value, true);
    PanicsAtRoot(segs, value, true);
  }

  lemma {:induction false} PickItemNeverPanics(indices: seq<nat>, value: Json)
    ensures PickItem(indices, value).Extracted?
  {
    if indices != [] && indices[0] < |ItemsOf(value)| {
      PickItemNeverPanics(indices[1..], value.items[indices[0]]);
    }
  }

  lemma {:induction false} PanicsAtRoot(segs: seq<Segment>, value: Json, first: bool)
    requires segs != [] && ValidPath(segs, first)
    ensures WalkSegments(segs, value) == Panics <==>
            !value.Null? && !value.Obj? && segs[0].name != "" && segs[0].indices != []
  {
    PickItemNeverPanics(segs[0].indices, value);
    if value.Obj? {
      PickItemNeverPanics(segs[0].indices, FieldOf(value.fields, segs[0].name));
    }
    match Pick(segs[0], value)
    case Panicked =>
    case Extracted(v) =>
      if v.Obj? && |segs| > 1 {
        Tail(segs, first);
        PanicsAtRoot(segs[1..], v, false);
      }
  }

  /** Whatever plain navigation selects, walking the text of the path finds; a null is reported as
      not found. */
  lemma RoundTrip(segs: seq<Segment>, value: Json)
    requires segs != [] && ValidPath(segs, true)
    requires Navigate(Steps(segs), value).Some?
    ensures var x := Navigate(Steps(segs), value).value;
      Fold(Keys(Render(segs)), value) == if x.Null? then NotFound else Found(x)
  {
    WalkOfRender(segs, value, true);
    WalkSelects(segs, value, true);
  }

  lemma {:induction false} WalkSelects(segs: seq<Segment>, value: Json, first: bool)
    requires segs != [] && ValidPath(segs, first) && Navigate(Steps(segs), value).Some?
    ensures var x := Navigate(Steps(segs), value).value;
      WalkSegments(segs, value) == if x.Null? then NotFound else Found(x)
  {
    assert ValidSegment(segs[0], first);
    PickNavigates(segs[0], value, first);
    assert segs[..|segs|] == segs && segs[1..][..|segs| - 1] == segs[1..];
    ReachedStep(segs, |segs|, value);
    if |segs| > 1 {
      var v := Navigate(SegmentSteps(segs[0]), value).value;
      Tail(segs, first);
      NavigatedIsObject(segs[1..], |segs| - 1, v);
      WalkSelects(segs[1..], v, false);
    } else {
      assert Steps(segs[1..]) == [];
    }
  }
}
