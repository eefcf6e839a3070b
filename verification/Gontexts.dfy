/**
  The context shared by the endpoints of a suite (app/config/gontext/gontext.go): a mutable tree of
  maps with dotted paths.

  A value on the heap is described by a ghost tree whose nodes name the heap objects they stand
  for. A tree without repeated objects owns its part of the heap; its shape is what remains when
  the objects are forgotten.
*/
module Gontexts {
  import opened Collections
  import opened GoStrings

  datatype Scalar = Nil | Text(s: string) | Number(n: int) | Fraction(r: real) | Truth(b: bool)

  /** Go's `interface{}`: maps and slices are references. */
  datatype Value = Plain(scalar: Scalar) | Slice(elems: array<Value>) | Map(node: MapNode)

  class MapNode {
    var entries: map<string, Value>

    constructor ()
      ensures entries == map[]
    {
      entries := map[];
    }

    method Put(key: string, v: Value)
      modifies this
      ensures entries == old(entries)[key := v]
    {
      entries := entries[key := v];
    }
  }

  // ---------------------------------------------------------------------------------
  // Trees and shapes
  // ---------------------------------------------------------------------------------

  /** Each inner node carries the objects its part of the heap consists of. */
  datatype Tree =
    | Leaf(scalar: Scalar)
    | Array(arr: array<Value>, items: seq<Tree>, objects: set<object>)
    | Node(obj: MapNode, children: map<string, Tree>, objects: set<object>)

  datatype Shape = Atom(scalar: Scalar) | List(items: seq<Shape>) | Dict(children: map<string, Shape>)

  ghost function ValueOf(t: Tree): Value {
    match t
    case Leaf(s) => Plain(s)
    case Array(arr, _, _) => Slice(arr)
    case Node(obj, _, _) => Map(obj)
  }

  ghost function Footprint(t: Tree): set<object> {
    if t.Leaf? then {} else t.objects
  }

  ghost function Erase(t: Tree): Shape {
    match t
    case Leaf(s) => Atom(s)
    case Array(_, items, _) => List(seq(|items|, i requires 0 <= i < |items| => Erase(items[i])))
    case Node(_, children, _) => Dict(map k | k in children :: Erase(children[k]))
  }

  /** The heap is as the tree says. */
  ghost predicate Holds(t: Tree)
    reads Footprint(t)
  {
    match t
    case Leaf(_) => true
    case Array(arr, items, objects) =>
      && arr in objects && arr.Length == |items|
      && forall i :: 0 <= i < |items| ==>
           arr[i] == ValueOf(items[i]) && Footprint(items[i]) <= objects && Holds(items[i])
    case Node(obj, children, objects) =>
      && obj in objects && obj.entries.Keys == children.Keys
      && forall k :: k in children ==>
           obj.entries[k] == ValueOf(children[k]) && Footprint(children[k]) <= objects && Holds(children[k])
  }

  /** Distinct parts of the tree stand for distinct objects. */
  ghost predicate Separate(t: Tree) {
    match t
    case Leaf(_) => true
    case Array(arr, items, objects) =>
      && (forall i :: 0 <= i < |items| ==>
            arr !in Footprint(items[i]) && Footprint(items[i]) <= objects && Separate(items[i]))
      && (forall i, j :: 0 <= i < j < |items| ==> Footprint(items[i]) !! Footprint(items[j]))
    case Node(obj, children, objects) =>
      && obj in objects
      && (forall k :: k in children ==>
            obj !in Footprint(children[k]) && Footprint(children[k]) <= objects && Separate(children[k]))
      && (forall k, l :: k in children && l in children && k != l ==> Footprint(children[k]) !! Footprint(children[l]))
  }

  // ---------------------------------------------------------------------------------
  // Deep copies
  // ---------------------------------------------------------------------------------

  /** `deepCopyValue`. The source may share objects; the copy does not. */
  method DeepCopyValue(v: Value, ghost t: Tree) returns (r: Value, ghost copy: Tree)
    requires v == ValueOf(t) && Holds(t)
    ensures r == ValueOf(copy) && Erase(copy) == Erase(t)
    ensures Holds(copy) && Separate(copy) && fresh(Footprint(copy))
    decreases t, 2
  {
    match v
    case Plain(_) =>
      r, copy := v, t;
    case Slice(_) =>
      r, copy := DeepCopySlice(v.elems, t);
    case Map(_) =>
      r, copy := DeepCopyMap(v.node, t);
  }

  lemma SameErasure(a: Tree, b: Tree)
    requires (a.Node? && b.Node?) || (a.Array? && b.Array?)
    requires a.Node? ==> a.children.Keys == b.children.Keys
    requires a.Node? ==> forall k :: k in a.children ==> Erase(a.children[k]) == Erase(b.children[k])
    requires a.Array? ==> |a.items| == |b.items|
    requires a.Array? ==> forall i :: 0 <= i < |a.items| ==> Erase(a.items[i]) == Erase(b.items[i])
    ensures Erase(a) == Erase(b)
  {
    if a.Node? {
      assert Erase(a).children == Erase(b).children;
    } else {
      assert Erase(a).items == Erase(b).items;
    }
  }

  /** Writes a new entry into the root of a tree. */
  method AddChild(node: MapNode, key: string, v: Value, ghost t: Tree, ghost child: Tree) returns (ghost t': Tree)
    requires t.Node? && t.obj == node && key !in t.children && Holds(t) && Separate(t)
    requires v == ValueOf(child) && Holds(child) && Separate(child) && Footprint(child) !! t.objects
    modifies node
    ensures t' == Node(node, t.children[key := child], t.objects + Footprint(child))
    ensures Holds(t') && Separate(t')
  {
    node.Put(key, v);
    t' := Node(node, t.children[key := child], t.objects + Footprint(child));
  }

  method DeepCopyMap(node: MapNode, ghost t: Tree) returns (r: Value, ghost copy: Tree)
    requires t.Node? && t.obj == node && Holds(t)
    ensures copy.Node? && r == ValueOf(copy) && Erase(copy) == Erase(t)
    ensures Holds(copy) && Separate(copy) && fresh(Footprint(copy))
    decreases t, 1
  {
    var newMap := new MapNode();
    copy := Node(newMap, map[], {newMap});
    var pending := node.entries.Keys;
    while pending != {}
      invariant pending <= t.children.Keys
      invariant copy.Node? && copy.obj == newMap
      invariant forall k :: k in copy.children <==> k in t.children && k !in pending
      invariant Holds(copy) && Separate(copy) && fresh(copy.objects)
      invariant forall k :: k in copy.children ==> Erase(copy.children[k]) == Erase(t.children[k])
      decreases pending
    {
      var k := Pick(pending);
      pending := pending - {k};
      copy := CopyEntry(node, k, newMap, t, copy);
    }
    r := Map(newMap);
    SameErasure(copy, t);
  }

  /** One iteration of the loop over the entries of a map. */
  method CopyEntry(node: MapNode, key: string, newMap: MapNode, ghost t: Tree, ghost copy: Tree)
      returns (ghost copy': Tree)
    requires t.Node? && t.obj == node && Holds(t) && key in t.children
    requires copy.Node? && copy.obj == newMap && key !in copy.children && Holds(copy) && Separate(copy)
    modifies newMap
    ensures copy'.Node? && copy'.obj == newMap
    ensures forall k :: k in copy'.children <==> k in copy.children || k == key
    ensures forall k :: k in copy.children ==> copy'.children[k] == copy.children[k]
    ensures Erase(copy'.children[key]) == Erase(t.children[key])
    ensures Holds(copy') && Separate(copy') && fresh(copy'.objects - copy.objects)
    decreases t, 0
  {
    var v;
    ghost var child;
    v, child := DeepCopyValue(node.entries[key], t.children[key]);
    copy' := AddChild(newMap, key, v, copy, child);
  }

  method DeepCopySlice(elems: array<Value>, ghost t: Tree) returns (r: Value, ghost copy: Tree)
    requires t.Array? && t.arr == elems && Holds(t)
    ensures copy.Array? && r == ValueOf(copy) && Erase(copy) == Erase(t)
    ensures Holds(copy) && Separate(copy) && fresh(Footprint(copy))
    decreases t, 0
  {
    var newSlice := new Value[elems.Length](_ => Plain(Nil));
    ghost var copies: seq<Tree>, objects: set<object> := [], {newSlice};
    for i := 0 to elems.Length
      invariant |copies| == i && newSlice in objects && fresh(objects)
      invariant forall j :: 0 <= j < i ==>
        newSlice[j] == ValueOf(copies[j]) && Holds(copies[j]) && Separate(copies[j])
        && Footprint(copies[j]) <= objects && newSlice !in Footprint(copies[j]) && Erase(copies[j]) == Erase(t.items[j])
      invariant forall j, k :: 0 <= j < k < i ==> Footprint(copies[j]) !! Footprint(copies[k])
    {
      ghost var child;
      var v;
      v, child := DeepCopyValue(elems[i], t.items[i]);
      newSlice[i] := v;
      copies, objects := copies + [child], objects + Footprint(child);
    }
    r, copy := Slice(newSlice), Array(newSlice, copies, objects);
    SameErasure(copy, t);
  }

  // ---------------------------------------------------------------------------------
  // Paths through shapes
  // ---------------------------------------------------------------------------------

  type Path = seq<string>

  function PathOf(path: string): (p: Path)
    ensures p != []
  {
    Split(path, ".")
  }

  /** A dot leads on into a map: the path before the first dot is the first key, and the rest of the text
      is the rest of the path. Text without dots is one key. */
  lemma DotsLeadOn(key: string, rest: string)
    requires '.' !in key
    ensures PathOf(key) == [key] && PathOf(key + "." + rest) == [key] + PathOf(rest)
  {
    var s := key + "." + rest;
    forall i: nat ensures OccursAt(key, ".", i) <==> i < |key| && key[i] == '.'
                  ensures OccursAt(s, ".", i) <==> i < |s| && s[i] == '.' {
      assert i < |key| ==> key[i..i + 1] == [key[i]];
      assert i < |s| ==> s[i..i + 1] == [s[i]];
    }
    assert OccursAt(s, ".", |key|);
    forall i: nat | i < |key| ensures !OccursAt(s, ".", i) {
      assert s[i] == key[i] && key[i] in key;
    }
    assert s[..|key|] == key && s[|key| + 1..] == rest;
  }

  function Lookup(s: Shape, p: Path): Option<Shape> {
    if p == [] then Some(s)
    else if s.Dict? && p[0] in s.children then Lookup(s.children[p[0]], p[1..])
    else None
  }

  /** The map under a key, or an empty one where there is no map. */
  function DictAt(s: Shape, key: string): (d: Shape)
    requires s.Dict?
    ensures d.Dict?
  {
    if key in s.children && s.children[key].Dict? then s.children[key] else Dict(map[])
  }

  /** Storing v under a path, making maps along the way. */
  function Put(s: Shape, p: Path, v: Shape): (r: Shape)
    requires s.Dict? && p != []
    ensures r.Dict?
    decreases p
  {
    Dict(s.children[p[0] := if |p| == 1 then v else Put(DictAt(s, p[0]), p[1..], v)])
  }

  /** Neither path continues the other. */
  predicate Independent(p: Path, q: Path) {
    !(p <= q) && !(q <= p)
  }

  /** What is stored under a path, and below it, is what is found there. */
  lemma {:induction false} PutThenLookup(s: Shape, p: Path, v: Shape, below: Path)
    requires s.Dict? && p != []
    ensures Lookup(Put(s, p, v), p + below) == Lookup(v, below)
    decreases p
  {
    assert (p + below)[1..] == p[1..] + below;
    if |p| == 1 {
      assert p[1..] + below == below;
    } else {
      PutThenLookup(DictAt(s, p[0]), p[1..], v, below);
    }
  }

  /** An independent path leads where it led before, even if maps were made in place of other
      values; a failure to lead anywhere is preserved as well. */
  lemma {:induction false} PutElsewhere(s: Shape, p: Path, v: Shape, q: Path)
    requires s.Dict? && p != [] && Independent(p, q)
    ensures Lookup(Put(s, p, v), q) == Lookup(s, q)
    decreases p
  {
    if p[0] == q[0] {
      IndependentTails(p, q);
      PutElsewhere(DictAt(s, p[0]), p[1..], v, q[1..]);
      assert q[1..] != [];
    }
  }

  lemma IndependentTails(p: Path, q: Path)
    requires p != [] && q != [] && p[0] == q[0] && Independent(p, q)
    ensures p[1..] != [] && q[1..] != [] && Independent(p[1..], q[1..])
  {
    assert p == [p[0]] + p[1..] && q == [q[0]] + q[1..];
  }

  /** On the way to the stored value there are maps, changed only by that value. */
  lemma {:induction false} PutAbove(s: Shape, p: Path, v: Shape, q: Path)
    requires s.Dict? && q < p
    ensures Lookup(Put(s, p, v), q) ==
      var there := Lookup(s, q);
      Some(Put(if there.Some? && there.value.Dict? then there.value else Dict(map[]), p[|q|..], v))
    decreases p
  {
    if q != [] {
      assert p == q + p[|q|..] && q[1..] < p[1..] && p[1..][|q[1..]|..] == p[|q|..];
      PutAbove(DictAt(s, p[0]), p[1..], v, q[1..]);
      if !(p[0] in s.children && s.children[p[0]].Dict?) {
        EmptyLookup(q[1..]);
        if p[0] in s.children {
          AtomLookup(s.children[p[0]], q[1..]);
        }
      }
    }
  }

  lemma EmptyLookup(q: Path)
    ensures Lookup(Dict(map[]), q) == if q == [] then Some(Dict(map[])) else None
  {
  }

  lemma AtomLookup(s: Shape, q: Path)
    requires !s.Dict?
    ensures Lookup(s, q) == if q == [] then Some(s) else None
  {
  }

  /** Making an empty map first changes nothing about what a longer path stores. */
  lemma {:induction false} PutThrough(s: Shape, p: Path, rest: Path, v: Shape)
    requires s.Dict? && p != [] && rest != []
    requires var there := Lookup(s, p); !(there.Some? && there.value.Dict?)
    ensures Put(Put(s, p, Dict(map[])), p + rest, v) == Put(s, p + rest, v)
    decreases p
  {
    var made := Put(s, p, Dict(map[]));
    assert (p + rest)[1..] == p[1..] + rest;
    if |p| == 1 {
      assert p[1..] + rest == rest;
      assert Lookup(s, p) == if p[0] in s.children then Some(s.children[p[0]]) else None;
    } else {
      if !(p[0] in s.children && s.children[p[0]].Dict?) {
        EmptyLookup(p[1..]);
      }
      PutThrough(DictAt(s, p[0]), p[1..], rest, v);
    }
  }

  /** Two stores under different paths commute exactly when the paths are independent. */
  lemma PutsCommuteIff(s: Shape, p: Path, v: Shape, q: Path, w: Shape)
    requires s.Dict? && p != [] && q != [] && p != q && !v.Dict? && !w.Dict?
    ensures Put(Put(s, p, v), q, w) == Put(Put(s, q, w), p, v) <==> Independent(p, q)
  {
    if Independent(p, q) {
      PutsCommute(s, p, v, q, w);
    } else if p <= q {
      LaterWins(s, p, v, q, w);
    } else {
      LaterWins(s, q, w, p, v);
    }
  }

  lemma {:induction false} PutsCommute(s: Shape, p: Path, v: Shape, q: Path, w: Shape)
    requires s.Dict? && p != [] && q != [] && Independent(p, q)
    ensures Put(Put(s, p, v), q, w) == Put(Put(s, q, w), p, v)
    decreases p
  {
    if p[0] == q[0] {
      IndependentTails(p, q);
      var d := DictAt(s, p[0]);
      PutsCommute(d, p[1..], v, q[1..], w);
      SameKey(s, p, v, q, w);
      SameKey(s, q, w, p, v);
    } else {
      OtherKey(s, p, v, q);
      OtherKey(s, q, w, p);
      DifferentKeys(s, p, v, q, w);
    }
  }

  lemma SameKey(s: Shape, p: Path, v: Shape, q: Path, w: Shape)
    requires s.Dict? && |p| > 1 && |q| > 1 && p[0] == q[0]
    ensures Put(Put(s, p, v), q, w) ==
            Dict(s.children[p[0] := Put(Put(DictAt(s, p[0]), p[1..], v), q[1..], w)])
  {
  }

  lemma DifferentKeys(s: Shape, p: Path, v: Shape, q: Path, w: Shape)
    requires s.Dict? && p != [] && q != [] && p[0] != q[0]
    requires DictAt(Put(s, p, v), q[0]) == DictAt(s, q[0])
    requires DictAt(Put(s, q, w), p[0]) == DictAt(s, p[0])
    ensures Put(Put(s, p, v), q, w) == Put(Put(s, q, w), p, v)
  {
    var x := if |p| == 1 then v else Put(DictAt(s, p[0]), p[1..], v);
    var y := if |q| == 1 then w else Put(DictAt(s, q[0]), q[1..], w);
    assert Put(s, p, v) == Dict(s.children[p[0] := x]) && Put(s, q, w) == Dict(s.children[q[0] := y]);
    assert Put(Put(s, p, v), q, w) == Dict(s.children[p[0] := x][q[0] := y]);
    assert Put(Put(s, q, w), p, v) == Dict(s.children[q[0] := y][p[0] := x]);
    UpdatesCommute(s.children, p[0], x, q[0], y);
  }

  lemma UpdatesCommute<K, V>(m: map<K, V>, a: K, x: V, b: K, y: V)
    requires a != b
    ensures m[a := x][b := y] == m[b := y][a := x]
  {
  }

  lemma OtherKey(s: Shape, p: Path, v: Shape, q: Path)
    requires s.Dict? && p != [] && q != [] && p[0] != q[0]
    ensures DictAt(Put(s, p, v), q[0]) == DictAt(s, q[0])
  {
  }

  /** If q continues p, storing under q last leaves a map at p, storing under p last does not. */
  lemma LaterWins(s: Shape, p: Path, v: Shape, q: Path, w: Shape)
    requires s.Dict? && p != [] && p < q && !v.Dict?
    ensures Put(Put(s, p, v), q, w) != Put(Put(s, q, w), p, v)
  {
    assert p + [] == p;
    PutThenLookup(Put(s, q, w), p, v, []);
    PutAbove(Put(s, p, v), q, w, p);
  }

  // ---------------------------------------------------------------------------------
  // Paths through trees
  // ---------------------------------------------------------------------------------

  ghost function Find(t: Tree, p: Path): Option<Tree> {
    if p == [] then Some(t)
    else if t.Node? && p[0] in t.children then Find(t.children[p[0]], p[1..])
    else None
  }

  lemma {:induction false} FindIsLookup(t: Tree, p: Path)
    ensures Lookup(Erase(t), p) == match Find(t, p) case None => None case Some(u) => Some(Erase(u))
    decreases p
  {
    if p != [] && t.Node? && p[0] in t.children {
      FindIsLookup(t.children[p[0]], p[1..]);
    }
  }

  /** There is a map for the last key of p to be written into. */
  ghost predicate HasParent(t: Tree, p: Path) {
    p != [] && t.Node? && (|p| > 1 ==> p[0] in t.children && HasParent(t.children[p[0]], p[1..]))
  }

  /** That map. */
  ghost function Parent(t: Tree, p: Path): (u: Tree)
    requires HasParent(t, p)
    ensures u.Node?
  {
    if |p| == 1 then t else Parent(t.children[p[0]], p[1..])
  }

  /** The tree after writing a subtree under the last key of p. */
  ghost function Write(t: Tree, p: Path, sub: Tree): (r: Tree)
    requires HasParent(t, p)
    ensures r.Node? && r.obj == t.obj && r.objects == t.objects + Footprint(sub)
  {
    Node(t.obj, t.children[p[0] := if |p| == 1 then sub else Write(t.children[p[0]], p[1..], sub)],
         t.objects + Footprint(sub))
  }

  lemma {:induction false} WriteIsPut(t: Tree, p: Path, sub: Tree)
    requires HasParent(t, p)
    ensures Erase(Write(t, p, sub)) == Put(Erase(t), p, Erase(sub))
    decreases p
  {
    if |p| > 1 {
      WriteIsPut(t.children[p[0]], p[1..], sub);
    }
    assert Erase(Write(t, p, sub)).children == Put(Erase(t), p, Erase(sub)).children;
  }

  /** Where the next key leads from the parent of p. */
  lemma {:induction false} ParentOfLonger(t: Tree, p: Path, key: string)
    requires HasParent(t, p)
    ensures var u := Parent(t, p);
      var last := p[|p| - 1];
      && Find(t, p) == (if last in u.children then Some(u.children[last]) else None)
      && (HasParent(t, p + [key]) <==> last in u.children && u.children[last].Node?)
      && (HasParent(t, p + [key]) ==> Parent(t, p + [key]) == u.children[last])
    decreases p
  {
    assert (p + [key])[1..] == p[1..] + [key];
    if |p| > 1 {
      ParentOfLonger(t.children[p[0]], p[1..], key);
    } else {
      assert p[1..] == [];
    }
  }

  lemma {:induction false} ParentAfterWrite(t: Tree, p: Path, sub: Tree, key: string)
    requires HasParent(t, p) && sub.Node?
    ensures HasParent(Write(t, p, sub), p + [key]) && Parent(Write(t, p, sub), p + [key]) == sub
    decreases p
  {
    assert (p + [key])[1..] == p[1..] + [key];
    if |p| > 1 {
      ParentAfterWrite(t.children[p[0]], p[1..], sub, key);
    } else {
      assert p[1..] == [];
    }
  }

  lemma {:induction false} ParentHolds(t: Tree, p: Path)
    requires HasParent(t, p) && Holds(t)
    ensures Parent(t, p).objects <= t.objects && Holds(Parent(t, p))
    decreases p
  {
    if |p| > 1 {
      ParentHolds(t.children[p[0]], p[1..]);
    }
  }

  lemma {:induction false} FindHolds(t: Tree, p: Path)
    requires Holds(t) && Find(t, p).Some?
    ensures Holds(Find(t, p).value) && Footprint(Find(t, p).value) <= Footprint(t)
    decreases p
  {
    if p != [] {
      FindHolds(t.children[p[0]], p[1..]);
    }
  }

  lemma {:induction false} WriteSeparate(t: Tree, p: Path, sub: Tree)
    requires HasParent(t, p) && Separate(t) && Separate(sub) && Footprint(sub) !! t.objects
    ensures Separate(Write(t, p, sub))
    decreases p
  {
    if |p| > 1 {
      WriteSeparate(t.children[p[0]], p[1..], sub);
    }
  }

  lemma {:induction false} ParentInFootprint(t: Tree, p: Path)
    requires HasParent(t, p) && Separate(t)
    ensures Parent(t, p).obj in t.objects
    ensures |p| > 1 ==> Parent(t, p).obj in Footprint(t.children[p[0]])
    decreases p
  {
    if |p| > 1 {
      ParentInFootprint(t.children[p[0]], p[1..]);
    }
  }

  /** A tree whose objects have not changed still describes the heap. */
  twostate lemma StillHolds(t: Tree)
    requires old(Holds(t)) && forall o :: o in Footprint(t) ==> unchanged(o)
    ensures Holds(t)
  {
  }

  /** What happens in the root and under one of its keys does not concern the other keys. */
  twostate lemma SiblingsHold(t: Tree, new key: string, new changed: set<object>)
    requires t.Node? && old(Holds(t)) && Separate(t)
    requires forall o :: o in t.objects && o !in changed ==> unchanged(o)
    requires changed <= {t.obj} + if key in t.children then Footprint(t.children[key]) else {}
    ensures forall k :: k in t.children && k != key ==> Holds(t.children[k])
  {
    forall k | k in t.children && k != key
      ensures Holds(t.children[k])
    {
      StillHolds(t.children[k]);
    }
  }

  /** A root with one entry replaced. */
  lemma ReplacedHolds(t: Tree, key: string, sub: Tree, objects: set<object>)
    requires t.Node? && t.obj in t.objects && objects == t.objects + Footprint(sub) && Holds(sub)
    requires t.obj.entries.Keys == t.children.Keys + {key} && t.obj.entries[key] == ValueOf(sub)
    requires forall k :: k in t.children && k != key ==>
      t.obj.entries[k] == ValueOf(t.children[k]) && Footprint(t.children[k]) <= t.objects && Holds(t.children[k])
    ensures Holds(Node(t.obj, t.children[key := sub], objects))
  {
  }

  /** If nothing but the written map has changed on the heap, the heap is as the written tree says. */
  twostate lemma {:induction false} WriteHolds(t: Tree, new p: Path, new sub: Tree)
    requires HasParent(t, p) && old(Holds(t)) && Separate(t) && Holds(sub)
    requires var parent := Parent(t, p).obj;
      && parent.entries == old(parent.entries)[p[|p| - 1] := ValueOf(sub)]
      && forall o :: o in t.objects && o != parent ==> unchanged(o)
    ensures Holds(Write(t, p, sub))
    decreases p
  {
    ParentInFootprint(t, p);
    SiblingsHold(t, p[0], {Parent(t, p).obj});
    if |p| > 1 {
      WriteHolds(t.children[p[0]], p[1..], sub);
      assert t.objects + Footprint(Write(t.children[p[0]], p[1..], sub)) == t.objects + Footprint(sub);
      ReplacedHolds(t, p[0], Write(t.children[p[0]], p[1..], sub), t.objects + Footprint(sub));
    } else {
      ReplacedHolds(t, p[0], sub, t.objects + Footprint(sub));
    }
  }

  // ---------------------------------------------------------------------------------
  // The context
  // ---------------------------------------------------------------------------------

  lemma PutLaws(s: Shape, p: Path, v: Shape)
    requires s.Dict? && p != []
    ensures Lookup(Put(s, p, v), p) == Some(v)
    ensures forall q :: Independent(p, q) ==> Lookup(Put(s, p, v), q) == Lookup(s, q)
  {
    assert p + [] == p;
    PutThenLookup(s, p, v, []);
    forall q | Independent(p, q) ensures Lookup(Put(s, p, v), q) == Lookup(s, q) {
      PutElsewhere(s, p, v, q);
    }
  }

  lemma PathSplits(p: Path, i: nat)
    requires i < |p|
    ensures p[..i] + p[i..] == p && p[..i] + [p[i..][0]] == p[..i + 1]
  {
  }

  class Gontext {
    var values: MapNode
    ghost var tree: Tree

    /** The context owns its tree: nothing in it is shared. */
    ghost predicate Valid()
      reads this, Footprint(tree)
    {
      && tree.Node? && tree.obj == values && this !in tree.objects
      && Holds(tree) && Separate(tree)
    }

    ghost function Contents(): Shape
      reads this
    {
      Erase(tree)
    }

    /** `New`: a deep copy of the initial values, which may share maps and slices among themselves. */
    constructor (initial: Option<MapNode>, ghost t: Tree)
      requires initial.Some? ==> t.Node? && t.obj == initial.value && Holds(t)
      ensures Valid() && fresh(tree.objects)
      ensures Contents() == if initial.Some? then Erase(t) else Dict(map[])
    {
      var copied;
      ghost var copy;
      if initial.Some? {
        copied, copy := DeepCopyMap(initial.value, t);
        values := copied.node;
      } else {
        var empty := new MapNode();
        copy := Node(empty, map[], {empty});
        values := empty;
      }
      tree := copy;
      new;
      assert initial.None? ==> Erase(tree).children == map[];
    }

    /** `Get`: what the path leads to, if it leads anywhere. */
    method Get(path: string) returns (r: Option<Value>)
      requires Valid()
      ensures r == match Find(tree, PathOf(path)) case None => None case Some(u) => Some(ValueOf(u))
      ensures Lookup(Contents(), PathOf(path)) ==
        match Find(tree, PathOf(path)) case None => None case Some(u) => Some(Erase(u))
    {
      FindIsLookup(tree, PathOf(path));
      var parts := PathOf(path);
      var current := Map(values);
      ghost var u := tree;
      assert parts[0..] == parts;
      for i := 0 to |parts|
        invariant current == ValueOf(u) && Holds(u)
        invariant Find(tree, parts) == Find(u, parts[i..])
      {
        match current
        case Map(node) =>
          if parts[i] !in node.entries {
            return None;
          }
          current := node.entries[parts[i]];
          u := u.children[parts[i]];
        case _ =>
          return None;
      }
      r := Some(current);
    }

    /** `Set`: stores a value that shares nothing with the context. */
    method Set(path: string, value: Value, ghost vt: Tree)
      requires Valid() && value == ValueOf(vt) && Holds(vt) && Separate(vt) && Footprint(vt) !! tree.objects
      requires this !in Footprint(vt)
      modifies this`tree, tree.objects
      ensures Valid() && Contents() == Put(old(Contents()), PathOf(path), Erase(vt))
      ensures Lookup(Contents(), PathOf(path)) == Some(Erase(vt))
      ensures forall q :: Independent(PathOf(path), q) ==> Lookup(Contents(), q) == Lookup(old(Contents()), q)
      ensures fresh(tree.objects - old(tree.objects) - Footprint(vt))
    {
      var parts := PathOf(path);
      PutLaws(Contents(), parts, Erase(vt));
      var current := Navigate(parts, vt);
      ParentInFootprint(tree, parts);
      PutAt(current, parts[|parts| - 1], value, parts, vt);
    }

    /** The loop of `Set`: moves to the map that is to hold the last part of the path, making maps
        where there are none. */
    method Navigate(parts: Path, ghost vt: Tree) returns (current: MapNode)
      requires Valid() && parts != [] && Holds(vt) && Footprint(vt) !! tree.objects && this !in Footprint(vt)
      modifies this`tree, tree.objects
      ensures Valid() && HasParent(tree, parts) && current == Parent(tree, parts).obj
      ensures Put(Contents(), parts, Erase(vt)) == Put(old(Contents()), parts, Erase(vt))
      ensures Holds(vt) && Footprint(vt) !! tree.objects && fresh(tree.objects - old(tree.objects))
    {
      current := values;
      for i := 0 to |parts| - 1
        invariant Valid() && HasParent(tree, parts[..i + 1]) && current == Parent(tree, parts[..i + 1]).obj
        invariant Put(Contents(), parts, Erase(vt)) == Put(old(Contents()), parts, Erase(vt))
        invariant Holds(vt) && Footprint(vt) !! tree.objects && fresh(tree.objects - old(tree.objects))
      {
        PathSplits(parts, i + 1);
        label before:
        current := Child(current, parts[i], parts[..i + 1], parts[i + 1..], Erase(vt));
        StillHolds@before(vt);
      }
      assert parts[..|parts|] == parts;
    }

    /** One iteration of that loop. */
    method Child(current: MapNode, part: string, ghost p: Path, ghost rest: Path, ghost v: Shape)
        returns (next: MapNode)
      requires Valid() && HasParent(tree, p) && current == Parent(tree, p).obj && part == p[|p| - 1] && rest != []
      modifies this`tree, tree.objects
      ensures Valid() && HasParent(tree, p + [rest[0]]) && next == Parent(tree, p + [rest[0]]).obj
      ensures fresh(tree.objects - old(tree.objects))
      ensures Put(Contents(), p + rest, v) == Put(old(Contents()), p + rest, v)
    {
      ParentHolds(tree, p);
      ParentOfLonger(tree, p, rest[0]);
      if part in current.entries && current.entries[part].Map? {
        next := current.entries[part].node;
      } else {
        next := new MapNode();
        ghost var sub := Node(next, map[], {next});
        ParentAfterWrite(tree, p, sub, rest[0]);
        FindIsLookup(tree, p);
        PutThrough(Contents(), p, rest, v);
        assert Erase(sub).children == map[];
        PutAt(current, part, Map(next), p, sub);
      }
    }

    /** The assignment `current[part] = value`. */
    method PutAt(current: MapNode, part: string, value: Value, ghost p: Path, ghost sub: Tree)
      requires Valid() && HasParent(tree, p) && current == Parent(tree, p).obj && part == p[|p| - 1]
      requires value == ValueOf(sub) && Holds(sub) && Separate(sub) && Footprint(sub) !! tree.objects
      requires this !in Footprint(sub)
      modifies this`tree, current
      ensures Valid() && tree == Write(old(tree), p, sub)
      ensures Contents() == Put(old(Contents()), p, Erase(sub))
    {
      WriteIsPut(tree, p, sub);
      WriteSeparate(tree, p, sub);
      ParentInFootprint(tree, p);
      current.Put(part, value);
      StillHolds(sub);
      WriteHolds(tree, p, sub);
      tree := Write(tree, p, sub);
    }

    /** `GetAll`: a deep copy of everything. */
    method GetAll() returns (all: MapNode, ghost copy: Tree)
      requires Valid()
      ensures copy.Node? && copy.obj == all && Holds(copy) && Separate(copy) && fresh(copy.objects)
      ensures Erase(copy) == Contents()
    {
      var r;
      r, copy := DeepCopyMap(values, tree);
      all := r.node;
    }

    /** Whatever happens outside its own part of the heap, the context stays as it is. */
    twostate lemma Undisturbed()
      requires old(Valid()) && unchanged(this) && forall o :: o in tree.objects ==> unchanged(o)
      ensures Valid() && Contents() == old(Contents())
    {
      StillHolds(tree);
    }
  }

  // ---------------------------------------------------------------------------------
  // Independence of copies
  // ---------------------------------------------------------------------------------

  /** What may happen after a copy has been taken: the context stores a scalar, or somebody writes one
      into a map of the copy that a path leads to. */
  datatype Use = Store(path: string, scalar: Scalar) | Edit(keys: Path, scalar: Scalar)

  /** There is a map for the last key of p. */
  predicate HasPlace(s: Shape, p: Path) {
    p != [] && s.Dict? && (|p| > 1 ==> p[0] in s.children && HasPlace(s.children[p[0]], p[1..]))
  }

  lemma {:induction false} HasParentIff(t: Tree, p: Path)
    ensures HasParent(t, p) <==> HasPlace(Erase(t), p)
    decreases p
  {
    if |p| > 1 && t.Node? && p[0] in t.children {
      HasParentIff(t.children[p[0]], p[1..]);
    }
  }

  /** The context after the first n uses: only the stores count. */
  function AfterStores(s: Shape, uses: seq<Use>, n: nat): (r: Shape)
    requires s.Dict? && n <= |uses|
    ensures r.Dict?
  {
    if n == 0 then s
    else
      var before := AfterStores(s, uses, n - 1);
      match uses[n - 1]
      case Store(path, scalar) => Put(before, PathOf(path), Atom(scalar))
      case Edit(_, _) => before
  }

  /** The copy after the first n uses: only the edits count. */
  function AfterEdits(s: Shape, uses: seq<Use>, n: nat): (r: Shape)
    requires s.Dict? && n <= |uses|
    ensures r.Dict?
  {
    if n == 0 then s
    else
      var before := AfterEdits(s, uses, n - 1);
      match uses[n - 1]
      case Store(_, _) => before
      case Edit(keys, scalar) => if HasPlace(before, keys) then Put(before, keys, Atom(scalar)) else before
  }

  /** Writes a scalar into the map that the keys lead to, if they lead to one. */
  method WriteInto(all: MapNode, keys: Path, scalar: Scalar, ghost copy: Tree) returns (ghost copy': Tree)
    requires copy.Node? && copy.obj == all && Holds(copy) && Separate(copy)
    modifies copy.objects
    ensures copy'.Node? && copy'.obj == all && copy'.objects == copy.objects && Holds(copy') && Separate(copy')
    ensures Erase(copy') == if HasPlace(Erase(copy), keys) then Put(Erase(copy), keys, Atom(scalar)) else Erase(copy)
  {
    copy' := copy;
    HasParentIff(copy, keys);
    if |keys| == 0 {
      return;
    }
    var current := all;
    ghost var u := copy;
    assert keys[0..] == keys;
    for i := 0 to |keys| - 1
      invariant u.Node? && u.obj == current && Holds(u)
      invariant HasParent(copy, keys) <==> HasParent(u, keys[i..])
      invariant HasParent(copy, keys) ==> Parent(copy, keys) == Parent(u, keys[i..])
    {
      assert keys[i..][1..] == keys[i + 1..];
      if keys[i] !in current.entries || !current.entries[keys[i]].Map? {
        return;
      }
      current := current.entries[keys[i]].node;
      u := u.children[keys[i]];
    }
    WriteSeparate(copy, keys, Leaf(scalar));
    WriteIsPut(copy, keys, Leaf(scalar));
    ParentInFootprint(copy, keys);
    current.Put(keys[|keys| - 1], Plain(scalar));
    WriteHolds(copy, keys, Leaf(scalar));
    copy' := Write(copy, keys, Leaf(scalar));
  }

  /** The context and a copy of it, each in its own part of the heap. */
  ghost predicate Apart(g: Gontext, copy: Tree)
    reads g, Footprint(g.tree), Footprint(copy)
  {
    && g.Valid() && copy.Node? && Holds(copy) && Separate(copy)
    && g !in copy.objects && copy.objects !! g.tree.objects
  }

  method StoreOne(g: Gontext, path: string, scalar: Scalar, ghost copy: Tree)
    requires Apart(g, copy)
    modifies g`tree, g.tree.objects
    ensures Apart(g, copy) && fresh(g.tree.objects - old(g.tree.objects))
    ensures g.Contents() == Put(old(g.Contents()), PathOf(path), Atom(scalar))
  {
    g.Set(path, Plain(scalar), Leaf(scalar));
    StillHolds(copy);
  }

  method EditOne(g: Gontext, all: MapNode, keys: Path, scalar: Scalar, ghost copy: Tree) returns (ghost copy': Tree)
    requires Apart(g, copy) && copy.obj == all
    modifies copy.objects
    ensures Apart(g, copy') && copy'.obj == all && copy'.objects == copy.objects && g.Contents() == old(g.Contents())
    ensures Erase(copy') == if HasPlace(Erase(copy), keys) then Put(Erase(copy), keys, Atom(scalar)) else Erase(copy)
  {
    copy' := WriteInto(all, keys, scalar, copy);
    g.Undisturbed();
  }

  /** A copy taken by `GetAll` and the context go their own ways: whatever is stored in the one and
      written into the other, in any order, each shows its own part of it and nothing else. */
  method CopyIsIndependent(g: Gontext, uses: seq<Use>) returns (all: MapNode, ghost copy: Tree)
    requires g.Valid()
    modifies g`tree, g.tree.objects
    ensures copy.Node? && copy.obj == all && Apart(g, copy)
    ensures Erase(copy) == AfterEdits(old(g.Contents()), uses, |uses|)
    ensures g.Contents() == AfterStores(old(g.Contents()), uses, |uses|)
  {
    all, copy := g.GetAll();
    for i := 0 to |uses|
      invariant Apart(g, copy) && copy.obj == all && fresh(copy.objects)
      invariant fresh(g.tree.objects - old(g.tree.objects))
      invariant Erase(copy) == AfterEdits(old(g.Contents()), uses, i)
      invariant g.Contents() == AfterStores(old(g.Contents()), uses, i)
    {
      match uses[i]
      case Store(path, scalar) =>
        StoreOne(g, path, scalar, copy);
      case Edit(keys, scalar) =>
        copy := EditOne(g, all, keys, scalar, copy);
    }
  }

  /** What may happen outside the context in between: anybody may write anything into a map or a slice
      that the context does not own. */
  datatype Event =
    | Storing(path: string, scalar: Scalar)
    | Writing(node: MapNode, key: string, value: Value)
    | Replacing(arr: array<Value>, index: nat, value: Value)

  /** The context after the first n events: only what was stored counts. */
  ghost function ContextAfter(s: Shape, events: seq<Event>, n: nat): (r: Shape)
    requires s.Dict? && n <= |events|
    ensures r.Dict?
  {
    if n == 0 then s
    else
      var before := ContextAfter(s, events, n - 1);
      match events[n - 1]
      case Storing(path, scalar) => Put(before, PathOf(path), Atom(scalar))
      case _ => before
  }

  /** The entries of a map after the first n events: only what was written into it counts. */
  ghost function EntriesAfter(entries: map<string, Value>, node: MapNode, events: seq<Event>, n: nat)
    : map<string, Value>
    requires n <= |events|
  {
    if n == 0 then entries
    else
      var before := EntriesAfter(entries, node, events, n - 1);
      match events[n - 1]
      case Writing(o, key, value) => if o == node then before[key := value] else before
      case _ => before
  }

  /** The items of a slice after the first n events: only what was replaced in it counts. */
  ghost function ItemsAfter(items: seq<Value>, arr: array<Value>, events: seq<Event>, n: nat): (r: seq<Value>)
    requires n <= |events|
    ensures |r| == |items|
  {
    if n == 0 then items
    else
      var before := ItemsAfter(items, arr, events, n - 1);
      match events[n - 1]
      case Replacing(o, index, value) => if o == arr && index < |items| then before[index := value] else before
      case _ => before
  }

  /** Everything that is written to is outside the context. */
  ghost predicate HappensOutside(e: Event, outside: set<object>) {
    match e
    case Storing(_, _) => true
    case Writing(node, _, _) => node in outside
    case Replacing(arr, index, _) => arr in outside && index < arr.Length
  }

  method Happen(g: Gontext, e: Event, ghost outside: set<object>)
    requires g.Valid() && g !in outside && outside !! g.tree.objects && HappensOutside(e, outside)
    modifies g`tree, g.tree.objects, outside
    ensures g.Valid() && outside !! g.tree.objects && fresh(g.tree.objects - old(g.tree.objects))
    ensures g.Contents() ==
      match e
      case Storing(path, scalar) => Put(old(g.Contents()), PathOf(path), Atom(scalar))
      case _ => old(g.Contents())
    ensures forall node: MapNode :: node in outside ==>
      node.entries
      == if e.Writing? && e.node == node then old(node.entries)[e.key := e.value] else old(node.entries)
    ensures forall arr: array<Value> :: arr in outside ==>
      arr[..]
      == if e.Replacing? && e.arr == arr && e.index < arr.Length then old(arr[..])[e.index := e.value] else old(arr[..])
  {
    match e
    case Storing(path, scalar) =>
      g.Set(path, Plain(scalar), Leaf(scalar));
    case Writing(node, key, value) =>
      node.Put(key, value);
      g.Undisturbed();
    case Replacing(arr, index, value) =>
      arr[index] := value;
      g.Undisturbed();
  }

  /** The context and whatever it does not own, the copies it has given out as well as the values it was
      made from, go their own ways: after any events in any order, the context shows what was stored
      in it, and every map and every slice outside shows what was written into it. */
  method GoTheirOwnWays(g: Gontext, events: seq<Event>, ghost outside: set<object>)
    requires g.Valid() && g !in outside && outside !! g.tree.objects
    requires forall i :: 0 <= i < |events| ==> HappensOutside(events[i], outside)
    modifies g`tree, g.tree.objects, outside
    ensures g.Valid() && g.Contents() == ContextAfter(old(g.Contents()), events, |events|)
    ensures forall node: MapNode :: node in outside ==>
      node.entries == EntriesAfter(old(node.entries), node, events, |events|)
    ensures forall arr: array<Value> :: arr in outside ==>
      arr[..] == ItemsAfter(old(arr[..]), arr, events, |events|)
  {
    for i := 0 to |events|
      invariant g.Valid() && outside !! g.tree.objects && fresh(g.tree.objects - old(g.tree.objects))
      invariant g.Contents() == ContextAfter(old(g.Contents()), events, i)
      invariant forall node: MapNode :: node in outside ==>
        node.entries == EntriesAfter(old(node.entries), node, events, i)
      invariant forall arr: array<Value> :: arr in outside ==>
        arr[..] == ItemsAfter(old(arr[..]), arr, events, i)
    {
      Happen(g, events[i], outside);
    }
  }

  /** In particular a context made by `New` does not notice what happens to its initial values later, nor
      the other way round. */
  method NewIsIndependent(initial: MapNode, events: seq<Event>, ghost t: Tree) returns (g: Gontext)
    requires t.Node? && t.obj == initial && Holds(t)
    requires forall i :: 0 <= i < |events| ==> HappensOutside(events[i], t.objects)
    modifies t.objects
    ensures fresh(g) && g.Valid() && g.Contents() == ContextAfter(Erase(t), events, |events|)
    ensures forall node: MapNode :: node in t.objects ==>
      node.entries == EntriesAfter(old(node.entries), node, events, |events|)
    ensures forall arr: array<Value> :: arr in t.objects ==>
      arr[..] == ItemsAfter(old(arr[..]), arr, events, |events|)
  {
    g := new Gontext(Some(initial), t);
    GoTheirOwnWays(g, events, t.objects);
  }
}
