/**
 The nested dicts and lists of a config, as objects on the heap and as ghost
 shapes: a shape says which object is where, so both the JSON content and the
 identity of the objects that others refer to can be read off it.
 */
module ConfigTree {
  datatype Scalar = Null | Bool(b: bool) | Integer(n: int) | Float(r: real) | Text(s: string)

  datatype Json = Obj(members: map<string, Json>) | Arr(elements: seq<Json>) | Prim(s: Scalar)

  /** A value as a dict or list stores it: a reference, or an immutable. */
  datatype Node = DictRef(d: Dict) | ListRef(l: List) | Leaf(s: Scalar)

  class Dict {
    var entries: map<string, Node>

    constructor (entries: map<string, Node>)
      ensures this.entries == entries
    {
      this.entries := entries;
    }
  }

  class List {
    var items: seq<Node>

    constructor (items: seq<Node>)
      ensures this.items == items
    {
      this.items := items;
    }
  }

  /** The region of a dict or list holds every object at or below it. */
  datatype Shape =
    | TDict(d: Dict, kids: map<string, Shape>, region: set<object>)
    | TList(l: List, elems: seq<Shape>, region: set<object>)
    | TLeaf(s: Scalar)

  type Path = seq<string>

  function Root(t: Shape): Node {
    match t
    case TDict(d, _, _) => DictRef(d)
    case TList(l, _, _) => ListRef(l)
    case TLeaf(s) => Leaf(s)
  }

  function Region(t: Shape): set<object> {
    if t.TLeaf? then {} else t.region
  }

  /** The heap has this shape. */
  ghost predicate Holds(t: Shape)
    reads Region(t)
    decreases t
  {
    match t
    case TDict(d, kids, region) =>
      && d in region && d.entries.Keys == kids.Keys
      && forall k :: k in kids ==> Region(kids[k]) <= region && d.entries[k] == Root(kids[k]) && Holds(kids[k])
    case TList(l, elems, region) =>
      && l in region && |l.items| == |elems|
      && forall i :: 0 <= i < |elems| ==> Region(elems[i]) <= region && l.items[i] == Root(elems[i]) && Holds(elems[i])
    case TLeaf(_) => true
  }

  /** No object occurs twice: below a dict or list the regions are disjoint. */
  ghost predicate IsTree(t: Shape) {
    match t
    case TDict(d, kids, region) =>
      && d in region
      && (forall k :: k in kids ==> IsTree(kids[k]) && Region(kids[k]) <= region - {d})
      && (forall j, k :: j in kids && k in kids && j != k ==> Region(kids[j]) !! Region(kids[k]))
    case TList(l, elems, region) =>
      && l in region
      && (forall i :: 0 <= i < |elems| ==> IsTree(elems[i]) && Region(elems[i]) <= region - {l})
      && (forall i, j :: 0 <= i < j < |elems| ==> Region(elems[i]) !! Region(elems[j]))
    case TLeaf(_) => true
  }

  function Content(t: Shape): Json {
    match t
    case TDict(_, kids, _) => Obj(map k | k in kids :: Content(kids[k]))
    case TList(_, elems, _) => Arr(seq(|elems|, i requires 0 <= i < |elems| => Content(elems[i])))
    case TLeaf(s) => Prim(s)
  }

  // ---------------------------------------------------------------- lookups by path

  /** The result of a lookup: the place it ends at, a missing key, or a key used
      on something that is not a dict. */
  datatype Walked = At(t: Shape) | NoKey | NotADict

  function Walk(t: Shape, path: Path): Walked {
    if path == [] then At(t)
    else if !t.TDict? then NotADict
    else if path[0] !in t.kids then NoKey
    else Walk(t.kids[path[0]], path[1..])
  }

  lemma {:induction false} WalkConcat(t: Shape, p: Path, q: Path)
    ensures Walk(t, p + q) == match Walk(t, p) { case At(s) => Walk(s, q) case other => other }
  {
    if p == [] {
      assert p + q == q;
    } else if t.TDict? && p[0] in t.kids {
      assert (p + q)[1..] == p[1..] + q;
      WalkConcat(t.kids[p[0]], p[1..], q);
    }
  }

  /** Key by key: a lookup begins at the root, a key leads on from a dict that has
      it, is missing in one that has not, and is a type error on anything else.
      What has failed once stays failed. */
  lemma WalkByKeys(t: Shape, path: Path, key: string)
    ensures Walk(t, []) == At(t)
    ensures Walk(t, path).At? && Walk(t, path).t.TDict? && key in Walk(t, path).t.kids ==>
      Walk(t, path + [key]) == At(Walk(t, path).t.kids[key])
    ensures Walk(t, path).At? && Walk(t, path).t.TDict? && key !in Walk(t, path).t.kids ==> Walk(t, path + [key]) == NoKey
    ensures Walk(t, path).At? && !Walk(t, path).t.TDict? ==> Walk(t, path + [key]) == NotADict
    ensures !Walk(t, path).At? ==> Walk(t, path + [key]) == Walk(t, path)
  {
    WalkConcat(t, path, [key]);
  }

  lemma {:induction false} WalkStays(t: Shape, path: Path)
    requires Walk(t, path).At? && IsTree(t)
    ensures Region(Walk(t, path).t) <= Region(t) && IsTree(Walk(t, path).t)
  {
    if path != [] {
      WalkStays(t.kids[path[0]], path[1..]);
    }
  }

  // ---------------------------------------------------------------- replacing the content

  /** The shape after the old structure took over the content of the new one. */
  function Replaced(ot: Shape, nt: Shape): Shape
    decreases nt
  {
    if ot.TDict? && nt.TDict? then
      TDict(ot.d, map k | k in nt.kids :: if k in ot.kids then Replaced(ot.kids[k], nt.kids[k]) else nt.kids[k],
            ot.region + nt.region)
    else if ot.TList? && nt.TList? then TList(ot.l, nt.elems, ot.region + nt.region)
    else nt
  }

  /** The content afterwards is the new content, for any two structures. */
  lemma {:induction false} ReplacedContent(ot: Shape, nt: Shape)
    ensures Content(Replaced(ot, nt)) == Content(nt)
    decreases nt
  {
    if ot.TDict? && nt.TDict? {
      forall k | k in nt.kids && k in ot.kids ensures Content(Replaced(ot.kids[k], nt.kids[k])) == Content(nt.kids[k]) {
        ReplacedContent(ot.kids[k], nt.kids[k]);
      }
    }
  }

  /** Both places hold a dict, or both hold a list. */
  predicate SameKind(a: Walked, b: Walked) {
    a.At? && b.At? && ((a.t.TDict? && b.t.TDict?) || (a.t.TList? && b.t.TList?))
  }

  /** Every path that holds a dict on both sides, or a list on both sides, holds
      the old object afterwards; every other place holds what the new structure has. */
  lemma {:induction false} ReplacedIdentity(ot: Shape, nt: Shape, path: Path)
    ensures Walk(Replaced(ot, nt), path).At? <==> Walk(nt, path).At?
    ensures Walk(nt, path).At? ==>
      Root(Walk(Replaced(ot, nt), path).t) ==
      if SameKind(Walk(ot, path), Walk(nt, path)) then Root(Walk(ot, path).t) else Root(Walk(nt, path).t)
    decreases path
  {
    if path != [] && ot.TDict? && nt.TDict? && path[0] in nt.kids && path[0] in ot.kids {
      ReplacedIdentity(ot.kids[path[0]], nt.kids[path[0]], path[1..]);
    }
  }

  lemma {:induction false} ReplacedIsTree(ot: Shape, nt: Shape)
    requires IsTree(ot) && IsTree(nt) && Region(ot) !! Region(nt)
    ensures Region(Replaced(ot, nt)) <= Region(ot) + Region(nt)
    ensures IsTree(Replaced(ot, nt))
    decreases nt
  {
    if ot.TDict? && nt.TDict? {
      var rt := Replaced(ot, nt);
      forall k | k in nt.kids
        ensures IsTree(rt.kids[k])
        ensures Region(rt.kids[k]) <= Region(nt.kids[k]) + if k in ot.kids then Region(ot.kids[k]) else {}
      {
        if k in ot.kids { ReplacedIsTree(ot.kids[k], nt.kids[k]); }
      }
    }
  }
}
