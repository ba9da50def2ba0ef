/**
 The config object: lookups, assignments, creation of paths and validation on
 the nested dicts themselves.
 */
module ConfigStore {
  import opened ConfigTree
  import opened ConfigPaths
  import opened ConfigReplace

  datatype Error = KeyError | TypeError | AttributeError | IndexError

  /** What a lookup returns or raises. */
  datatype Got = Value(node: Node) | Failed(error: Error)

  /** How a change ends. */
  datatype Done = Ok | Existed | Raised(error: Error)

  function Looked(walked: Walked): Got {
    match walked
    case At(s) => Value(Root(s))
    case NoKey => Failed(KeyError)
    case NotADict => Failed(TypeError)
  }

  /** _get_by_path: one item access per key. */
  method GetIn(source: Dict, path: Path, ghost t: Shape) returns (got: Got)
    requires t.TDict? && t.d == source && Holds(t)
    ensures got == Looked(Walk(t, path))
  {
    var node := DictRef(source);
    ghost var here := t;
    var i := 0;
    while i < |path|
      invariant 0 <= i <= |path| && node == Root(here) && Holds(here)
      invariant Walk(t, path) == Walk(here, path[i..])
    {
      assert path[i..][1..] == path[i + 1..];
      if !node.DictRef? {
        return Failed(TypeError);
      }
      if path[i] !in node.d.entries {
        return Failed(KeyError);
      }
      node := node.d.entries[path[i]];
      here := here.kids[path[i]];
      i := i + 1;
    }
    return Value(node);
  }

  /** The dict above the last key. */
  ghost function Above(t: Shape, path: Path): (above: Shape)
    requires path != [] && CanPut(t, path)
    ensures above.TDict?
  {
    if |path| == 1 then t else Above(t.kids[path[0]], path[1..])
  }

  lemma {:induction false} AboveIsInside(t: Shape, path: Path)
    requires path != [] && CanPut(t, path) && IsTree(t)
    ensures Above(t, path).d in Region(t)
    ensures Walk(t, path[..|path| - 1]) == At(Above(t, path))
    ensures |path| > 1 ==>
      Above(t, path).d != t.d && forall k :: k in t.kids && k != path[0] ==> Above(t, path).d !in Region(t.kids[k])
  {
    if |path| > 1 {
      assert path[..|path| - 1][1..] == path[1..][..|path| - 2];
      AboveIsInside(t.kids[path[0]], path[1..]);
    } else {
      assert path[..0] == [];
    }
  }

  /** Everything but the entries of the dict above the last key has its shape. */
  ghost predicate Around(t: Shape, path: Path)
    requires path != [] && CanPut(t, path) && IsTree(t)
    reads Region(t) - {Above(t, path).d}
    decreases path
  {
    AboveIsInside(t, path);
    && (forall k :: k in t.kids && k != path[0] ==> Holds(t.kids[k]))
    && (|path| > 1 ==> Stores(t.d, t.kids) && Around(t.kids[path[0]], path[1..]))
  }

  lemma {:induction false} HoldsAround(t: Shape, path: Path)
    requires path != [] && CanPut(t, path) && IsTree(t) && Holds(t)
    ensures Around(t, path)
    ensures Stores(Above(t, path).d, Above(t, path).kids)
    decreases path
  {
    if |path| > 1 {
      HoldsAround(t.kids[path[0]], path[1..]);
    }
  }

  /** Storing one entry in the dict above the last key puts the value at the path. */
  lemma {:induction false} AroundHolds(t: Shape, path: Path, v: Shape)
    requires path != [] && CanPut(t, path) && IsTree(t) && Around(t, path) && Holds(v)
    requires Stores(Above(t, path).d, Above(t, path).kids[path[|path| - 1] := v])
    ensures Holds(Put(t, path, v))
    decreases path
  {
    if |path| > 1 {
      AroundHolds(t.kids[path[0]], path[1..], v);
    }
    PutRegion(t, path, v);
  }

  lemma {:induction false} AroundCut(t: Shape, path: Path)
    requires CanCut(t, path) && CanPut(t, path) && IsTree(t) && Around(t, path)
    requires Stores(Above(t, path).d, Above(t, path).kids - {path[|path| - 1]})
    ensures Holds(Cut(t, path))
    decreases path
  {
    if |path| > 1 {
      CanCutAt(t.kids[path[0]], path[1..]);
      AroundCut(t.kids[path[0]], path[1..]);
      CutIsTree(t.kids[path[0]], path[1..]);
      KidReplaced(t, path[0], Cut(t.kids[path[0]], path[1..]));
    }
  }

  /** One subtree was replaced by another one around the same object. */
  lemma KidReplaced(t: Shape, k: string, kid: Shape)
    requires t.TDict? && k in t.kids && Stores(t.d, t.kids) && t.d in t.region && IsTree(t)
    requires Holds(kid) && Root(kid) == Root(t.kids[k]) && Region(kid) <= t.region
    requires forall j :: j in t.kids && j != k ==> Holds(t.kids[j])
    ensures Holds(TDict(t.d, t.kids[k := kid], t.region))
  {
  }

  lemma {:induction false} PutRegion(t: Shape, path: Path, v: Shape)
    requires path != [] && CanPut(t, path) && IsTree(t)
    ensures Put(t, path, v).TDict? && Put(t, path, v).d == t.d && Put(t, path, v).region == t.region + Region(v)
    ensures forall k :: k in Put(t, path, v).kids ==> Region(Put(t, path, v).kids[k]) <= t.region + Region(v)
  {
    if |path| > 1 {
      PutRegion(t.kids[path[0]], path[1..], v);
    }
  }

  /** Storing a value under the last key of a path whose other keys lead to a dict. */
  method StoreEntry(above: Dict, path: Path, value: Node, ghost t: Shape, ghost v: Shape)
    requires path != [] && CanPut(t, path) && above == Above(t, path).d
    requires Holds(t) && IsTree(t) && value == Root(v) && Holds(v) && above !in Region(v)
    modifies above
    ensures Holds(Put(t, path, v))
  {
    HoldsAround(t, path);
    ghost var kids := Above(t, path).kids;
    above.entries := above.entries[path[|path| - 1] := value];
    assert Stores(above, kids[path[|path| - 1] := v]);
    AroundHolds(t, path, v);
  }

  /** Everything below a place that exists. */
  ghost function RegionAt(t: Shape, path: Path): set<object> {
    if Walk(t, path).At? then Region(Walk(t, path).t) else {}
  }

  /** The old objects that storing at a path may write to: only the dict above
      the last key, if that exists. */
  ghost function Written(t: Shape, path: Path): (written: set<object>)
    requires IsTree(t)
    ensures written <= Region(t)
  {
    if path != [] && CanPut(t, path) then AboveIsInside(t, path); {Above(t, path).d} else Region(t)
  }

  lemma NextPrefix(path: Path, i: nat)
    requires i < |path|
    ensures path[..i + 1] == path[..i] + [path[i]]
  {
  }

  /** What storing or validating an existing entry may write to. */
  ghost function Entry(t: Shape, path: Path): set<object>
    requires path != [] && CanPut(t, path)
  {
    {Above(t, path).d} + RegionAt(t, path)
  }

  /** If the dict above the last key exists, a prefix that does not exist is the whole path. */
  lemma OnlyTheLastIsMissing(t: Shape, path: Path, i: nat)
    requires path != [] && CanPut(t, path) && IsTree(t) && i < |path| && Walk(t, path[..i]).At?
    requires !Walk(t, path[..i + 1]).At?
    ensures i + 1 == |path| && Root(Walk(t, path[..i]).t) == DictRef(Above(t, path).d)
  {
    AboveIsInside(t, path);
    if i + 1 < |path| {
      var above := path[..|path| - 1];
      assert above[..i + 1] == path[..i + 1];
      if i + 1 < |above| { WalkOn(t, above, i + 1); }
    }
  }

  /** How ensure_path ends, by what the path leads to beforehand. */
  function EnsureEnds(walked: Walked): Done {
    match walked
    case At(_) => Existed
    case NotADict => Raised(AttributeError)
    case NoKey => Ok
  }

  class Config {
    var config: Dict
    var defaults: Dict
    ghost var tree: Shape
    ghost var fallback: Shape

    ghost predicate Valid()
      reads this, Region(tree), Region(fallback)
    {
      && this !in Region(tree) && this !in Region(fallback) && Region(tree) !! Region(fallback)
      && tree.TDict? && tree.d == config && Holds(tree) && IsTree(tree)
      && fallback.TDict? && fallback.d == defaults && Holds(fallback) && IsTree(fallback)
    }

    constructor ()
      ensures Valid() && fresh(Region(tree)) && fresh(Region(fallback))
      ensures tree.kids == map[] && fallback.kids == map[]
    {
      var c := new Dict(map[]);
      var d := new Dict(map[]);
      config, defaults := c, d;
      tree, fallback := TDict(c, map[], {c}), TDict(d, map[], {d});
    }

    /** _update_deep with an already parsed dict. */
    method UpdateDeep(loaded: Dict, ghost nt: Shape)
      requires Valid()
      requires nt.TDict? && nt.d == loaded && Holds(nt) && IsTree(nt)
      requires Region(nt) !! Region(tree) + Region(fallback) + {this}
      modifies this`tree, Region(tree)
      ensures Valid() && config == old(config) && tree == Replaced(old(tree), nt)
      ensures fallback == old(fallback) && Content(tree) == Content(nt)
    {
      ReplacedIsTree(tree, nt);
      ReplacedContent(tree, nt);
      DeepReplace(config, loaded, tree, nt);
      tree := Replaced(tree, nt);
    }

    /** get_by_path: a missing key falls back to the defaults, a wrong type does not. */
    method GetByPath(path: Path, useFallback: bool) returns (got: Got)
      requires Valid()
      ensures Walk(tree, path).At? ==> got == Value(Root(Walk(tree, path).t))
      ensures Walk(tree, path) == NotADict ==> got == Failed(TypeError)
      ensures Walk(tree, path) == NoKey && (!useFallback || Walk(fallback, path) == NoKey) ==> got == Failed(KeyError)
      ensures Walk(tree, path) == NoKey && useFallback && Walk(fallback, path).At? ==> got == Value(Root(Walk(fallback, path).t))
      ensures got == if Walk(tree, path) == NoKey && useFallback then Looked(Walk(fallback, path)) else Looked(Walk(tree, path))
    {
      got := GetIn(config, path, tree);
      if got == Failed(KeyError) && useFallback {
        got := GetIn(defaults, path, fallback);
      }
    }

    /** exists, without the defaults. */
    method Exists(path: Path) returns (found: bool)
      requires Valid()
      ensures found <==> Walk(tree, path).At?
    {
      var got := GetByPath(path, false);
      found := got.Value?;
    }

    method StoreAt(above: Dict, path: Path, value: Node, ghost v: Shape)
      requires Valid() && path != [] && CanPut(tree, path) && above == Above(tree, path).d
      requires value == Root(v) && Holds(v) && IsTree(v) && Region(v) !! Region(tree) + Region(fallback) + {this}
      modifies this`tree, above
      ensures Valid() && config == old(config) && fallback == old(fallback) && tree == Put(old(tree), path, v)
    {
      AboveIsInside(tree, path);
      PutRegion(tree, path, v);
      PutIsTree(tree, path, v);
      StoreEntry(above, path, value, tree, v);
      tree := Put(tree, path, v);
    }

    /** setdefault with an empty dict, on the dict above the last key of a path. */
    method SetDefault(base: Dict, path: Path) returns (node: Node, ghost placed: Shape)
      requires Valid() && path != [] && CanPut(tree, path) && base == Above(tree, path).d
      modifies this`tree, if Walk(tree, path).At? then {} else {base}
      ensures Valid() && config == old(config) && fallback == old(fallback)
      ensures node == Root(placed)
      ensures old(Walk(tree, path)).At? ==> tree == old(tree) && old(Walk(tree, path)) == At(placed)
      ensures !old(Walk(tree, path)).At? ==>
        && placed.TDict? && placed == TDict(placed.d, map[], {placed.d}) && fresh(placed.d)
        && tree == Put(old(tree), path, placed)
    {
      var key := path[|path| - 1];
      AboveIsInside(tree, path);
      HoldsAround(tree, path);
      assert path == path[..|path| - 1] + [key];
      WalkConcat(tree, path[..|path| - 1], [key]);
      if key in base.entries {
        node, placed := base.entries[key], Above(tree, path).kids[key];
      } else {
        var d := new Dict(map[]);
        node, placed := DictRef(d), TDict(d, map[], {d});
        StoreAt(base, path, node, placed);
      }
    }

    /** The state of ensure_path after the first keys of the path. */
    ghost predicate Growing(t: Shape, path: Path, base: Node, created: bool)
      reads this
    {
      && Walk(tree, path).At? && base == Root(Walk(tree, path).t)
      && if created then Walk(t, path) == NoKey && Grew(t, tree, path) else tree == t
    }

    /** One key of ensure_path. */
    method GrowOne(base: Dict, path: Path, key: string, ghost t: Shape, ghost created: bool) returns (node: Node, ghost creates: bool)
      requires Valid() && Growing(t, path, DictRef(base), created)
      modifies this`tree, if Walk(tree, path + [key]).At? then {} else {base}
      ensures Valid() && config == old(config) && fallback == old(fallback)
      ensures forall o :: o in Region(tree) ==> o in old(Region(tree)) || fresh(o)
      ensures Growing(t, path + [key], node, creates)
    {
      var longer := path + [key];
      assert longer[..|longer| - 1] == path;
      CanPutAbove(tree, longer);
      AboveIsInside(tree, longer);
      WalkConcat(t, path, [key]);
      WalkConcat(tree, path, [key]);
      ghost var before, placed := tree, TLeaf(Null);
      if !created { GrewSelf(t, path); }
      node, placed := SetDefault(base, longer);
      creates := created || !Walk(before, longer).At?;
      if !Walk(before, longer).At? {
        GrowMore(t, before, path, key, placed.d);
        PutWalk(before, longer, placed, longer);
        PutIsTree(before, longer, placed);
      }
    }

    /** ensure_path on the config: it raises exactly when the path leads through
        something that is not a dict, and then it has changed nothing. */
    method EnsurePath(path: Path) returns (done: Done)
      requires Valid()
      modifies this`tree, Written(tree, path)
      ensures Valid() && config == old(config) && fallback == old(fallback)
      ensures forall o :: o in Region(tree) ==> o in old(Region(tree)) || fresh(o)
      ensures done == EnsureEnds(old(Walk(tree, path)))
      ensures (done == Existed <==> old(Walk(tree, path)).At?) && (done == Raised(AttributeError) <==> old(Walk(tree, path)) == NotADict)
      ensures done != Ok ==> tree == old(tree)
      ensures done == Ok ==> Grew(old(tree), tree, path)
    {
      var got := GetIn(config, path, tree);
      if got.Value? {
        return Existed;
      }
      done := GrowAlong(path);
    }

    /** The loop of ensure_path. */
    method GrowAlong(path: Path) returns (done: Done)
      requires Valid() && !Walk(tree, path).At?
      modifies this`tree, Written(tree, path)
      ensures Valid() && config == old(config) && fallback == old(fallback)
      ensures forall o :: o in Region(tree) ==> o in old(Region(tree)) || fresh(o)
      ensures done == EnsureEnds(old(Walk(tree, path)))
      ensures done != Ok ==> tree == old(tree)
      ensures done == Ok ==> Grew(old(tree), tree, path)
    {
      ghost var t, start := tree, Region(tree);
      var base := DictRef(config);
      ghost var created := false;
      var i := 0;
      while i < |path|
        invariant 0 <= i <= |path|
        invariant Valid() && config == old(config) && fallback == old(fallback)
        invariant forall o :: o in Region(tree) ==> o in start || fresh(o)
        invariant Growing(t, path[..i], base, created)
      {
        StuckOrGrowing(t, path, i, base, created);
        if !base.DictRef? {
          return Raised(AttributeError);
        }
        NextPrefix(path, i);
        if !Walk(tree, path[..i + 1]).At? {
          GrowsWhereAllowed(path, i, base.d, t, created);
        }
        base, created := GrowOne(base.d, path[..i], path[i], t, created);
        i := i + 1;
      }
      assert path[..i] == path;
      done := Ok;
    }

    /** On the way a value that is no dict is one that was there, and decides the end. */
    lemma StuckOrGrowing(t: Shape, path: Path, i: nat, base: Node, created: bool)
      requires i < |path| && Growing(t, path[..i], base, created)
      ensures !base.DictRef? ==> !created && Walk(t, path) == NotADict
    {
      WalkOn(t, path, i);
    }

    /** A dict that gets a new entry is one that may be written, or was just created. */
    lemma GrowsWhereAllowed(path: Path, i: nat, base: Dict, t: Shape, created: bool)
      requires Valid() && IsTree(t) && i < |path| && Growing(t, path[..i], DictRef(base), created)
      requires !Walk(tree, path[..i + 1]).At?
      ensures base in Region(tree)
      ensures path != [] && CanPut(t, path) ==> base == Above(t, path).d
    {
      WalkStays(tree, path[..i]);
      if path != [] && CanPut(t, path) {
        AboveIsInside(t, path);
        var above := path[..|path| - 1];
        assert above[..i] == path[..i];
        if i < |above| { WalkOn(t, above, i); }
        OnlyTheLastIsMissing(t, path, i);
      }
    }

    /** The last part of set_by_path, on the dict found above the last key. */
    method AssignAt(above: Dict, path: Path, value: Node, ghost t: Shape, ghost v: Shape)
      requires Valid() && path != [] && (tree == t || Grew(t, tree, path))
      requires CanPut(tree, path) && above == Above(tree, path).d
      requires value == Root(v) && Holds(v) && IsTree(v) && Region(v) !! Region(tree) + Region(fallback) + {this}
      modifies this`tree, above
      ensures Valid() && config == old(config) && fallback == old(fallback)
      ensures Region(tree) <= old(Region(tree)) + Region(v)
      ensures Assigned(t, tree, path, v)
    {
      PutIsTree(tree, path, v);
      if tree == t { PutAssigned(tree, path, v); } else { GrewAssigned(t, tree, path, v); }
      StoreAt(above, path, value, v);
    }

    /** set_by_path. */
    method SetByPath(path: Path, value: Node, create: bool, ghost v: Shape) returns (done: Done)
      requires Valid()
      requires value == Root(v) && Holds(v) && IsTree(v) && Region(v) !! Region(tree) + Region(fallback) + {this}
      modifies this`tree, Written(tree, path)
      ensures Valid() && config == old(config) && fallback == old(fallback)
      ensures forall o :: o in Region(tree) ==> o in old(Region(tree)) || o in Region(v) || fresh(o)
      ensures done == SetEnds(old(tree), path, create)
      ensures create && path != [] ==> done == if old(Walk(tree, path)) == NotADict then Raised(AttributeError) else Ok
      ensures !create && path != [] ==> var above := old(Walk(tree, path[..|path| - 1]));
        (done == Ok <==> above.At? && above.t.TDict?) && (done == Raised(KeyError) <==> above == NoKey) && done !in {Existed, Raised(IndexError)}
      ensures path == [] ==> done == Raised(IndexError)
      ensures done != Ok ==> tree == old(tree)
      ensures done == Ok ==> Assigned(old(tree), tree, path, v)
    {
      ghost var t := tree;
      if create {
        done := EnsurePath(path);
        if done.Raised? {
          return;
        }
      }
      if path == [] {
        return Raised(IndexError);
      }
      SetReaches(t, tree, path, create);
      SetsWhereAllowed(t, tree, path);
      done := AssignAbove(path, value, t, v);
    }

    /** The assignment, once the path was ensured if that was asked for. */
    method AssignAbove(path: Path, value: Node, ghost t: Shape, ghost v: Shape) returns (done: Done)
      requires Valid() && path != [] && (tree == t || Grew(t, tree, path))
      requires value == Root(v) && Holds(v) && IsTree(v) && Region(v) !! Region(tree) + Region(fallback) + {this}
      modifies this`tree, if CanPut(tree, path) then {Above(tree, path).d} else {}
      ensures Valid() && config == old(config) && fallback == old(fallback)
      ensures Region(tree) <= old(Region(tree)) + Region(v)
      ensures done == SetEnds(old(tree), path, false)
      ensures done != Ok ==> tree == old(tree)
      ensures done == Ok ==> Assigned(t, tree, path, v)
    {
      var got := GetByPath(path[..|path| - 1], false);
      if got.Failed? {
        return Raised(got.error);
      }
      if !got.node.DictRef? {
        return Raised(TypeError);
      }
      CanPutAbove(tree, path);
      AboveIsInside(tree, path);
      AssignAt(got.node.d, path, value, t, v);
      done := Ok;
    }

    method CutAt(above: Dict, path: Path)
      requires Valid() && CanCut(tree, path) && CanPut(tree, path) && above == Above(tree, path).d
      modifies this`tree, above
      ensures Valid() && config == old(config) && fallback == old(fallback) && tree == Cut(old(tree), path)
    {
      AboveIsInside(tree, path);
      CutIsTree(tree, path);
      PopEntry(above, path, tree);
      tree := Cut(tree, path);
    }

    /** pop_by_path. */
    method PopByPath(path: Path) returns (got: Got)
      requires Valid()
      modifies this`tree, Region(tree)
      ensures Valid() && config == old(config) && fallback == old(fallback)
      ensures got == PopEnds(old(tree), path)
      ensures got.Value? <==> path != [] && old(Walk(tree, path)).At?
      ensures got.Value? ==> got.node == Root(old(Walk(tree, path)).t)
      ensures got == Failed(KeyError) <==> path != [] && old(Walk(tree, path)) == NoKey
      ensures path == [] ==> got == Failed(IndexError)
      ensures path != [] ==> var above := old(Walk(tree, path[..|path| - 1]));
        (got == Failed(TypeError) <==> above == NotADict || (above.At? && above.t.TList?)) && got != Failed(IndexError)
      ensures if got.Value? then CanCut(old(tree), path) && tree == Cut(old(tree), path) else tree == old(tree)
    {
      if path == [] {
        return Failed(IndexError);
      }
      var key := path[|path| - 1];
      WalkOn(tree, path, |path| - 1);
      got := GetByPath(path[..|path| - 1], false);
      if got.Failed? {
        return;
      }
      if !got.node.DictRef? {
        return Failed(if got.node.ListRef? then TypeError else AttributeError);
      }
      var above := got.node.d;
      PopReaches(tree, path);
      AboveIsInside(tree, path);
      HoldsAround(tree, path);
      if key !in above.entries {
        return Failed(KeyError);
      }
      got := Value(above.entries[key]);
      CutAt(above, path);
    }

    /** Either the source is apart from the config, or the config has all that it
        asks for, as after an earlier validation that stored parts of it. */
    ghost predicate Validates(path: Path, st: Shape, typed: bool)
      reads this
    {
      this !in Region(st) &&
      if typed then
        && Walk(tree, path).At? && IsInstance(Walk(tree, path).t, st)
        && (st.TDict? ==> forall q: Path :: TypedAs(Walk(tree, path).t, st, q))
      else Region(st) !! Region(tree) + Region(fallback)
    }

    /** One entry of validate; its path includes the key. */
    method ValidateEntry(value: Node, path: Path, ghost st: Shape, ghost typed: bool)
      requires Valid() && path != [] && CanPut(tree, path)
      requires value == Root(st) && Holds(st) && IsTree(st) && Validates(path, st, typed)
      modifies if typed then {} else {this} + Entry(tree, path)
      ensures Valid() && config == old(config) && defaults == old(defaults) && fallback == old(fallback)
      ensures forall o :: o in Region(tree) ==> o in old(Region(tree)) || o in Region(st) || fresh(o)
      ensures Becomes(old(tree), tree, path, EntryTarget(old(Walk(tree, path)), st))
      decreases st, 1
    {
      var found := Exists(path);
      if !found {
        StoreEntryAt(path, value, st);
        return;
      }
      ghost var here := Walk(tree, path).t;
      var got := GetByPath(path, true);
      if !NodeInstance(got.node, value) {
        StoreEntryAt(path, value, st);
      } else if value.DictRef? && value.d.entries != map[] {
        ValidateDict(value.d, path, st, typed);
      } else {
        forall r: Path ensures SpotAt(EntryTarget(At(here), st), r) == SpotAt(here, r) {
          if st.TDict? { assert st.kids.Keys == {}; NothingValidated(here, st, r); }
        }
        SameBecomes(tree, path, EntryTarget(At(here), st));
      }
    }

    /** set_by_path for an entry whose dict exists. */
    method StoreEntryAt(path: Path, value: Node, ghost st: Shape)
      requires Valid() && path != [] && CanPut(tree, path)
      requires value == Root(st) && Holds(st) && IsTree(st) && Region(st) !! Region(tree) + Region(fallback) + {this}
      modifies this`tree, Above(tree, path).d
      ensures Valid() && config == old(config) && defaults == old(defaults) && fallback == old(fallback)
      ensures forall o :: o in Region(tree) ==> o in old(Region(tree)) || o in Region(st) || fresh(o)
      ensures Becomes(old(tree), tree, path, st)
    {
      ghost var t := tree;
      CanPutAbove(t, path);
      WalkOn(t, path, |path| - 1);
      assert path == path[..|path| - 1] + [path[|path| - 1]];
      WalkConcat(t, path[..|path| - 1], [path[|path| - 1]]);
      var done := SetByPath(path, value, true, st);
      AssignedBecomes(t, tree, path, st);
    }

    /** The source entries that validate still has to look at. */
    ghost predicate Remaining(t: Shape, path: Path, st: Shape, todo: set<string>, typed: bool)
      requires st.TDict? && todo <= st.kids.Keys
      reads this
    {
      forall k :: k in todo ==>
        Validates(path + [k], st.kids[k], typed) && Walk(tree, path + [k]) == Walk(t, path + [k])
    }

    /** validate splits into its entries. */
    lemma AllRemain(path: Path, st: Shape, typed: bool)
      requires Walk(tree, path).At? && Walk(tree, path).t.TDict?
      requires st.TDict? && IsTree(st) && Validates(path, st, typed)
      ensures Remaining(tree, path, st, st.kids.Keys, typed)
    {
      var sub := Walk(tree, path).t;
      forall k | k in st.kids ensures Validates(path + [k], st.kids[k], typed) {
        if typed {
          WalkConcat(tree, path, [k]);
          assert Walk(st.kids[k], []) == Walk(st, [k]) && TypedAs(sub, st, [k]);
          assert Walk(sub.kids[k], []) == Walk(sub, [k]);
          forall q: Path | st.kids[k].TDict? ensures TypedAs(sub.kids[k], st.kids[k], q) {
            assert ([k] + q)[1..] == q && TypedAs(sub, st, [k] + q);
          }
        }
      }
    }

    /** One entry of validate; nothing of the source is written. */
    method ValidateKey(source: Dict, path: Path, key: string, ghost t: Shape, ghost st: Shape, ghost todo: set<string>, ghost typed: bool)
      requires Valid() && st.TDict? && st.d == source && Holds(st) && IsTree(st)
      requires todo <= st.kids.Keys && key in todo && Remaining(t, path, st, todo, typed)
      requires CanPut(tree, path + [key]) && (typed || Region(st) !! {this} + Entry(tree, path + [key]))
      modifies if typed then {} else {this} + Entry(tree, path + [key])
      ensures Valid() && config == old(config) && defaults == old(defaults) && fallback == old(fallback)
      ensures forall o :: o in Region(tree) ==> o in old(Region(tree)) || o in Region(st.kids[key]) || fresh(o)
      ensures Becomes(old(tree), tree, path + [key], EntryTarget(Walk(t, path + [key]), st.kids[key]))
      ensures Remaining(t, path, st, todo - {key}, typed) && Holds(st)
      decreases st, 0, 0
    {
      ghost var before := tree;
      ValidateEntry(source.entries[key], path + [key], st.kids[key], typed);
      BecomesApart(before, tree, path, key, EntryTarget(Walk(t, path + [key]), st.kids[key]));
    }

    /** validate, for the dict at a path. */
    method ValidateDict(source: Dict, path: Path, ghost st: Shape, ghost typed: bool)
      requires Valid() && Walk(tree, path).At? && Walk(tree, path).t.TDict?
      requires st.TDict? && st.d == source && Holds(st) && IsTree(st) && Validates(path, st, typed)
      modifies if typed then {} else {this} + Region(Walk(tree, path).t)
      ensures Valid() && config == old(config) && defaults == old(defaults) && fallback == old(fallback)
      ensures forall o :: o in Region(tree) ==> o in old(Region(tree)) || o in Region(st) || fresh(o)
      ensures Becomes(old(tree), tree, path, Validated(old(Walk(tree, path)).t, st, st.kids.Keys))
      ensures Holds(st)
      decreases st, 0, 1
    {
      ghost var t, sub, start := tree, Walk(tree, path).t, Region(tree);
      var todo := source.entries.Keys;
      BeginValidated(t, path, st);
      OneLess(st.kids.Keys, todo, "");
      AllRemain(path, st, typed);
      WalkStays(t, path);
      while todo != {}
        invariant todo <= st.kids.Keys
        invariant Valid() && config == old(config) && fallback == old(fallback)
        invariant forall o :: o in Region(tree) ==> o in start || o in Region(st) || fresh(o)
        invariant Becomes(t, tree, path, Validated(sub, st, st.kids.Keys - todo))
        invariant Remaining(t, path, st, todo, typed) && Holds(st)
      {
        var key :| key in todo;
        KeyIsPlaced(t, tree, path, st, st.kids.Keys - todo, key);
        EntryIsInside(t, tree, path, st, st.kids.Keys - todo, key);
        ghost var before := tree;
        ValidateKey(source, path, key, t, st, todo, typed);
        OneLess(st.kids.Keys, todo, key);
        BecomesNext(t, before, tree, path, sub, st, st.kids.Keys - todo, st.kids.Keys - (todo - {key}), key);
        todo := todo - {key};
      }
      OneLess(st.kids.Keys, todo, "");
    }

    /** validate on the whole config.  Every path of the source then resolves to a
        value of the type the source has there, and a path with the right types
        all the way resolves, or fails, as before.  The source is not changed,
        though the config may now share parts of it.  If nothing was missing,
        nothing is written. */
    method Validate(source: Dict, ghost st: Shape, ghost typed: bool)
      requires Valid() && st.TDict? && st.d == source && Holds(st) && IsTree(st) && Validates([], st, typed)
      modifies if typed then {} else {this} + Region(tree)
      ensures Valid() && config == old(config) && defaults == old(defaults) && fallback == old(fallback)
      ensures Holds(st) && forall q: Path :: TypedAs(tree, st, q)
      ensures forall q: Path :: Walk(st, q).At? && Walk(st, q).t.TLeaf? ==>
        && Walk(tree, q).At? && Walk(tree, q).t.TLeaf?
        && var a, b := Walk(tree, q).t.s, Walk(st, q).t.s;
           && (b.Null? ==> a.Null?) && (b.Bool? ==> a.Bool?) && (b.Integer? ==> a.Integer? || a.Bool?)
           && (b.Float? ==> a.Float?) && (b.Text? ==> a.Text?)
      ensures forall q: Path :: Walk(st, q).At? ==>
        SpotAt(tree, q) == Stored(Expected(old(Walk(tree, q)), Root(Walk(st, q).t)))
      ensures forall q: Path :: (forall p: Path :: p <= q ==> TypedAs(old(tree), st, p)) ==> SpotAt(tree, q) == SpotAt(old(tree), q)
    {
      ghost var t := tree;
      ValidateDict(source, [], st, typed);
      ValidatedKinds(t, tree, st);
      ValidatedSpots(t, tree, st);
    }

    /** Two validations with the same source: the second one writes to no object. */
    method ValidateTwice(source: Dict, ghost st: Shape) returns (ghost once: Shape)
      requires Valid() && st.TDict? && st.d == source && Holds(st) && IsTree(st) && Validates([], st, false)
      modifies this, Region(tree)
      ensures Valid() && config == old(config) && tree == once && Holds(st)
      ensures forall q: Path :: TypedAs(once, st, q)
      ensures forall q: Path :: (forall p: Path :: p <= q ==> TypedAs(old(tree), st, p)) ==> SpotAt(once, q) == SpotAt(old(tree), q)
    {
      Validate(source, st, false);
      once := tree;
      label Once:
      Validate(source, st, true);
      assert unchanged@Once(this, Region(once), Region(st));
    }
  }

  method PopEntry(above: Dict, path: Path, ghost t: Shape)
    requires CanCut(t, path) && CanPut(t, path) && Holds(t) && IsTree(t) && above == Above(t, path).d
    modifies above
    ensures Holds(Cut(t, path))
  {
    var key := path[|path| - 1];
    ghost var kids := Above(t, path).kids;
    HoldsAround(t, path);
    assert Around(t, path) && Stores(above, kids);
    above.entries := above.entries - {key};
    assert Around(t, path);
    assert Stores(above, kids - {key});
    AroundCut(t, path);
  }

  /** How set_by_path ends, by what the config is beforehand. */
  function SetEnds(t: Shape, path: Path, create: bool): Done {
    if create && Walk(t, path) == NotADict then Raised(AttributeError)
    else if path == [] then Raised(IndexError)
    else if create then Ok
    else match Walk(t, path[..|path| - 1])
      case At(s) => if s.TDict? then Ok else Raised(TypeError)
      case NoKey => Raised(KeyError)
      case NotADict => Raised(TypeError)
  }

  /** What pop_by_path returns or raises. */
  function PopEnds(t: Shape, path: Path): Got {
    if path == [] then Failed(IndexError)
    else match Walk(t, path[..|path| - 1])
      case NoKey => Failed(KeyError)
      case NotADict => Failed(TypeError)
      case At(s) =>
        if s.TDict? then Looked(Walk(t, path))
        else if s.TList? then Failed(TypeError)
        else Failed(AttributeError)
  }

  /** With the path ensured, the place above the last key is a dict. */
  lemma SetReaches(t: Shape, now: Shape, path: Path, create: bool)
    requires path != []
    requires if create then Walk(t, path) != NotADict && (if Walk(t, path).At? then now == t else Grew(t, now, path)) else now == t
    ensures create ==> Walk(now, path[..|path| - 1]).At? && Walk(now, path[..|path| - 1]).t.TDict?
    ensures now == t || Grew(t, now, path)
  {
    if create && Walk(t, path).At? {
      PrefixOfPut(t, path, path[..|path| - 1]);
    }
  }

  /** What the assignment writes to is what it may write to. */
  lemma SetsWhereAllowed(t: Shape, now: Shape, path: Path)
    requires path != [] && IsTree(t) && IsTree(now) && (now == t || Grew(t, now, path))
    ensures CanPut(now, path) ==> Above(now, path).d in Region(now) && (CanPut(t, path) ==> Above(now, path).d == Above(t, path).d)
  {
    if CanPut(now, path) { AboveIsInside(now, path); }
    if CanPut(t, path) { AboveIsInside(t, path); }
  }

  lemma PopReaches(t: Shape, path: Path)
    requires path != [] && Walk(t, path[..|path| - 1]).At? && Walk(t, path[..|path| - 1]).t.TDict?
    ensures CanPut(t, path)
    ensures
      var kids, key := Walk(t, path[..|path| - 1]).t.kids, path[|path| - 1];
      if key in kids then CanCut(t, path) && Walk(t, path) == At(kids[key]) else Walk(t, path) == NoKey
  {
    assert path == path[..|path| - 1] + [path[|path| - 1]];
    WalkConcat(t, path[..|path| - 1], [path[|path| - 1]]);
    CanPutAbove(t, path);
    CanCutAt(t, path);
  }

  lemma ValidatedTypes(t: Shape, now: Shape, st: Shape, q: Path)
    requires t.TDict? && st.TDict? && Becomes(t, now, [], Validated(t, st, st.kids.Keys))
    ensures TypedAs(now, st, q)
  {
    assert q[0..] == q && SpotAt(now, q) == SpotAt(Validated(t, st, st.kids.Keys), q);
    ValidatedIsTyped(t, st, q);
  }

  lemma ValidatedExpected(t: Shape, now: Shape, st: Shape, q: Path)
    requires t.TDict? && st.TDict? && Becomes(t, now, [], Validated(t, st, st.kids.Keys)) && Walk(st, q).At?
    ensures SpotAt(now, q) == Stored(Expected(Walk(t, q), Root(Walk(st, q).t)))
  {
    assert q[0..] == q && SpotAt(now, q) == SpotAt(Validated(t, st, st.kids.Keys), q);
    ValidatedHolds(t, st, q);
  }

  lemma LeafKinds(t: Shape, now: Shape, st: Shape, q: Path)
    requires t.TDict? && st.TDict? && Becomes(t, now, [], Validated(t, st, st.kids.Keys))
    requires Walk(st, q).At? && Walk(st, q).t.TLeaf?
    ensures Walk(now, q).At? && Walk(now, q).t.TLeaf?
    ensures var a, b := Walk(now, q).t.s, Walk(st, q).t.s;
      && (b.Null? ==> a.Null?) && (b.Bool? ==> a.Bool?) && (b.Integer? ==> a.Integer? || a.Bool?)
      && (b.Float? ==> a.Float?) && (b.Text? ==> a.Text?)
  {
    ValidatedExpected(t, now, st, q);
  }

  lemma ValidatedKinds(t: Shape, now: Shape, st: Shape)
    requires t.TDict? && st.TDict? && Becomes(t, now, [], Validated(t, st, st.kids.Keys))
    ensures forall q: Path :: TypedAs(now, st, q)
    ensures forall q: Path :: Walk(st, q).At? && Walk(st, q).t.TLeaf? ==>
      && Walk(now, q).At? && Walk(now, q).t.TLeaf?
      && var a, b := Walk(now, q).t.s, Walk(st, q).t.s;
         && (b.Null? ==> a.Null?) && (b.Bool? ==> a.Bool?) && (b.Integer? ==> a.Integer? || a.Bool?)
         && (b.Float? ==> a.Float?) && (b.Text? ==> a.Text?)
  {
    forall q: Path ensures TypedAs(now, st, q) {
      ValidatedTypes(t, now, st, q);
    }
    forall q: Path | Walk(st, q).At? && Walk(st, q).t.TLeaf?
      ensures && Walk(now, q).At? && Walk(now, q).t.TLeaf?
              && var a, b := Walk(now, q).t.s, Walk(st, q).t.s;
                 && (b.Null? ==> a.Null?) && (b.Bool? ==> a.Bool?) && (b.Integer? ==> a.Integer? || a.Bool?)
                 && (b.Float? ==> a.Float?) && (b.Text? ==> a.Text?)
    {
      LeafKinds(t, now, st, q);
    }
  }

  lemma ValidatedSpots(t: Shape, now: Shape, st: Shape)
    requires t.TDict? && st.TDict? && Becomes(t, now, [], Validated(t, st, st.kids.Keys))
    ensures forall q: Path :: Walk(st, q).At? ==> SpotAt(now, q) == Stored(Expected(Walk(t, q), Root(Walk(st, q).t)))
    ensures forall q: Path :: (forall p: Path :: p <= q ==> TypedAs(t, st, p)) ==> SpotAt(now, q) == SpotAt(t, q)
  {
    forall q: Path | Walk(st, q).At? ensures SpotAt(now, q) == Stored(Expected(Walk(t, q), Root(Walk(st, q).t))) {
      ValidatedExpected(t, now, st, q);
    }
    forall q: Path | forall p: Path :: p <= q ==> TypedAs(t, st, p) ensures SpotAt(now, q) == SpotAt(t, q) {
      assert q[0..] == q;
      ValidatedStays(t, st, q);
    }
  }

  lemma BeginValidated(t: Shape, path: Path, st: Shape)
    requires Walk(t, path).At? && Walk(t, path).t.TDict? && st.TDict?
    ensures Becomes(t, t, path, Validated(Walk(t, path).t, st, {}))
  {
    var sub := Walk(t, path).t;
    forall r: Path ensures SpotAt(Validated(sub, st, {}), r) == SpotAt(sub, r) { NothingValidated(sub, st, r); }
    SameBecomes(t, path, Validated(sub, st, {}));
  }

  lemma KeyIsPlaced(t: Shape, now: Shape, path: Path, st: Shape, seen: set<string>, key: string)
    requires Walk(t, path).At? && Walk(t, path).t.TDict? && st.TDict? && seen <= st.kids.Keys
    requires Becomes(t, now, path, Validated(Walk(t, path).t, st, seen))
    ensures CanPut(now, path + [key])
    ensures
      var sub := Walk(t, path).t;
      Walk(t, path + [key]) == if key in sub.kids then At(sub.kids[key]) else NoKey
  {
    var longer := path + [key];
    assert longer[..|longer| - 1] == path && path[|path|..] == [];
    assert SpotAt(now, path) == SpotAt(Validated(Walk(t, path).t, st, seen), []);
    CanPutAbove(now, longer);
    WalkConcat(t, path, [key]);
  }

  /** What validating an entry may write to lies below the dict at the path. */
  lemma EntryIsInside(t: Shape, now: Shape, path: Path, st: Shape, seen: set<string>, key: string)
    requires IsTree(t) && IsTree(now) && Walk(t, path).At? && Walk(t, path).t.TDict? && st.TDict? && seen <= st.kids.Keys
    requires Becomes(t, now, path, Validated(Walk(t, path).t, st, seen))
    requires CanPut(now, path + [key]) && Walk(now, path + [key]) == Walk(t, path + [key])
    ensures Entry(now, path + [key]) <= Region(Walk(t, path).t)
  {
    var longer := path + [key];
    assert longer[..|longer| - 1] == path && path[|path|..] == [];
    WalkStays(t, path);
    WalkConcat(t, path, [key]);
    AboveIsInside(now, longer);
    assert SpotAt(now, path) == SpotAt(Validated(Walk(t, path).t, st, seen), []);
  }

  lemma OneLess(keys: set<string>, todo: set<string>, key: string)
    ensures key in todo && todo <= keys ==> keys - (todo - {key}) == (keys - todo) + {key}
    ensures todo == {} ==> keys - todo == keys
    ensures todo == keys ==> keys - todo == {}
  {
  }
}
