/**
 What an assignment at a path, the creation of a path, and the validation
 against a source structure do to a config, stated on shapes.
 */
module ConfigPaths {
  import opened ConfigTree

  /** The place above the last key is a dict. */
  predicate CanPut(t: Shape, path: Path) {
    path == [] ||
    (t.TDict? && (|path| == 1 || (path[0] in t.kids && CanPut(t.kids[path[0]], path[1..]))))
  }

  /** The shape once v is stored at the path. */
  function Put(t: Shape, path: Path, v: Shape): Shape
    requires CanPut(t, path)
  {
    if path == [] then v
    else
      var kid := if |path| == 1 then v else Put(t.kids[path[0]], path[1..], v);
      TDict(t.d, t.kids[path[0] := kid], t.region + Region(v))
  }

  /** Neither path leads through the place of the other. */
  predicate Unrelated(p: Path, q: Path) {
    !(p <= q) && !(q <= p)
  }

  lemma {:induction false} CanPutAbove(t: Shape, path: Path)
    requires path != []
    ensures CanPut(t, path) <==> var above := Walk(t, path[..|path| - 1]); above.At? && above.t.TDict?
  {
    if |path| > 1 {
      assert path[..|path| - 1][1..] == path[1..][..|path| - 2];
      if t.TDict? && path[0] in t.kids { CanPutAbove(t.kids[path[0]], path[1..]); }
    } else {
      assert path[..0] == [];
    }
  }

  /** What is stored at a path is found there, and every unrelated path
      resolves, or fails, as before. */
  lemma {:induction false} PutWalk(t: Shape, path: Path, v: Shape, q: Path)
    requires CanPut(t, path)
    ensures Walk(Put(t, path, v), path) == At(v)
    ensures Unrelated(path, q) ==> Walk(Put(t, path, v), q) == Walk(t, q)
    ensures path <= q ==> Walk(Put(t, path, v), q) == Walk(v, q[|path|..])
    ensures q <= path && q != path ==>
      Walk(t, q).At? && Walk(Put(t, path, v), q).At? && Root(Walk(Put(t, path, v), q).t) == Root(Walk(t, q).t)
  {
    if path != [] {
      var k := path[0];
      if |path| > 1 {
        PutWalk(t.kids[k], path[1..], v, if q != [] && q[0] == k then q[1..] else []);
      }
      if q != [] && q[0] == k { PrefixesBelow(path, q); }
    }
  }

  /** Prefixes are decided below a common first key. */
  lemma PrefixesBelow(path: Path, q: Path)
    requires path != [] && q != [] && path[0] == q[0]
    ensures path <= q <==> path[1..] <= q[1..]
    ensures q <= path <==> q[1..] <= path[1..]
    ensures path == q <==> path[1..] == q[1..]
    ensures path <= q ==> q[1..][|path[1..]|..] == q[|path|..]
  {
    assert path == [path[0]] + path[1..] && q == [q[0]] + q[1..];
  }

  lemma {:induction false} PutIsTree(t: Shape, path: Path, v: Shape)
    requires CanPut(t, path) && IsTree(t) && IsTree(v) && Region(t) !! Region(v)
    ensures IsTree(Put(t, path, v)) && Region(Put(t, path, v)) <= Region(t) + Region(v)
  {
    if |path| > 1 {
      PutIsTree(t.kids[path[0]], path[1..], v);
    }
  }

  // ---------------------------------------------------------------- creating a path

  /** Only prefixes of the path were created: all of them are dicts now, what
      existed is the same object, and every other path resolves, or fails, as before. */
  ghost predicate Grew(t: Shape, grown: Shape, path: Path) {
    forall q: Path ::
      if q <= path then
        && Walk(grown, q).At? && Walk(grown, q).t.TDict?
        && (Walk(t, q).At? ==> Root(Walk(grown, q).t) == Root(Walk(t, q).t))
      else Walk(grown, q) == Walk(t, q)
  }

  /** A fresh dict below the last dict of a grown path grows it by one key. */
  lemma GrowMore(t: Shape, grown: Shape, path: Path, key: string, d: Dict)
    requires Grew(t, grown, path) && Walk(t, path + [key]) == NoKey
    ensures CanPut(grown, path + [key])
    ensures Grew(t, Put(grown, path + [key], TDict(d, map[], {d})), path + [key])
  {
    var longer := path + [key];
    assert longer[..|longer| - 1] == path;
    CanPutAbove(grown, longer);
    var v := TDict(d, map[], {d});
    var next := Put(grown, longer, v);
    forall q: Path
      ensures if q <= longer then
          && Walk(next, q).At? && Walk(next, q).t.TDict?
          && (Walk(t, q).At? ==> Root(Walk(next, q).t) == Root(Walk(t, q).t))
        else Walk(next, q) == Walk(t, q)
    {
      PutWalk(grown, longer, v, q);
      if q <= longer && q != longer {
        assert q <= path;
      } else if longer <= q && q != longer {
        WalkConcat(t, longer, q[|longer|..]);
        assert q == longer + q[|longer|..];
      }
    }
  }

  /** A path that leads to a dict already needs no growth. */
  lemma GrewSelf(t: Shape, path: Path)
    requires Walk(t, path).At? && Walk(t, path).t.TDict?
    ensures Grew(t, t, path)
  {
    forall q: Path | q <= path ensures Walk(t, q).At? && Walk(t, q).t.TDict? {
      assert path == q + path[|q|..];
      WalkConcat(t, q, path[|q|..]);
    }
  }

  /** What the start of a path decides about the whole path. */
  lemma WalkOn(t: Shape, path: Path, i: nat)
    requires i < |path|
    ensures Walk(t, path[..i]).At? && !Walk(t, path[..i]).t.TDict? ==> Walk(t, path) == NotADict
    ensures !Walk(t, path[..i]).At? ==> Walk(t, path) == Walk(t, path[..i])
  {
    assert path == path[..i] + path[i..];
    WalkConcat(t, path[..i], path[i..]);
  }

  /** An assignment: the value and everything below it is found at the path, its
      prefixes are dicts and the same objects as before if they existed, and
      every unrelated path resolves, or fails, as before. */
  ghost predicate Assigned(before: Shape, after: Shape, path: Path, v: Shape) {
    forall q: Path ::
      if path <= q then Walk(after, q) == Walk(v, q[|path|..])
      else if q <= path then
        && Walk(after, q).At? && Walk(after, q).t.TDict?
        && (Walk(before, q).At? ==> Root(Walk(after, q).t) == Root(Walk(before, q).t))
      else Walk(after, q) == Walk(before, q)
  }

  lemma PutAssigned(t: Shape, path: Path, v: Shape)
    requires CanPut(t, path)
    ensures Assigned(t, Put(t, path, v), path, v)
  {
    forall q: Path
      ensures if path <= q then Walk(Put(t, path, v), q) == Walk(v, q[|path|..])
        else if q <= path then
          && Walk(Put(t, path, v), q).At? && Walk(Put(t, path, v), q).t.TDict?
          && (Walk(t, q).At? ==> Root(Walk(Put(t, path, v), q).t) == Root(Walk(t, q).t))
        else Walk(Put(t, path, v), q) == Walk(t, q)
    {
      PutWalk(t, path, v, q);
      if q <= path && q != path {
        PrefixOfPut(Put(t, path, v), path, q);
      }
    }
  }

  /** A proper prefix of a path that resolves leads to a dict. */
  lemma PrefixOfPut(t: Shape, path: Path, q: Path)
    requires Walk(t, path).At? && q <= path && q != path
    ensures Walk(t, q).At? && Walk(t, q).t.TDict?
  {
    assert path[..|q|] == q;
    WalkOn(t, path, |q|);
  }

  lemma GrewAssigned(t: Shape, grown: Shape, path: Path, v: Shape)
    requires path != [] && Grew(t, grown, path)
    ensures CanPut(grown, path) && Assigned(t, Put(grown, path, v), path, v)
  {
    CanPutAbove(grown, path);
    assert path[..|path| - 1] <= path;
    PutAssigned(grown, path, v);
    assert Assigned(grown, Put(grown, path, v), path, v);
  }

  // ---------------------------------------------------------------- removing an entry

  predicate CanCut(t: Shape, path: Path) {
    path != [] && t.TDict? && path[0] in t.kids && (|path| > 1 ==> CanCut(t.kids[path[0]], path[1..]))
  }

  /** The shape once the entry at the path is popped. */
  function Cut(t: Shape, path: Path): Shape
    requires CanCut(t, path)
  {
    TDict(t.d,
          if |path| == 1 then t.kids - {path[0]} else t.kids[path[0] := Cut(t.kids[path[0]], path[1..])],
          t.region)
  }

  lemma {:induction false} CanCutAt(t: Shape, path: Path)
    ensures CanCut(t, path) <==> path != [] && Walk(t, path).At?
    ensures CanCut(t, path) ==> CanPut(t, path)
  {
    if path != [] && t.TDict? && path[0] in t.kids && |path| > 1 {
      CanCutAt(t.kids[path[0]], path[1..]);
    }
  }

  /** The entry and everything below it is gone, and nothing else has changed. */
  lemma {:induction false} CutWalk(t: Shape, path: Path, q: Path)
    requires CanCut(t, path)
    ensures path <= q ==> Walk(Cut(t, path), q) == NoKey
    ensures Unrelated(path, q) ==> Walk(Cut(t, path), q) == Walk(t, q)
    ensures q <= path && q != path ==>
      Walk(t, q).At? && Walk(Cut(t, path), q).At? && Root(Walk(Cut(t, path), q).t) == Root(Walk(t, q).t)
  {
    var k := path[0];
    if |path| > 1 {
      CutWalk(t.kids[k], path[1..], if q != [] && q[0] == k then q[1..] else []);
    }
    if q != [] && q[0] == k { PrefixesBelow(path, q); }
  }

  lemma {:induction false} CutIsTree(t: Shape, path: Path)
    requires CanCut(t, path) && IsTree(t)
    ensures IsTree(Cut(t, path)) && Region(Cut(t, path)) == Region(t)
  {
    if |path| > 1 {
      CutIsTree(t.kids[path[0]], path[1..]);
    }
  }

  // ---------------------------------------------------------------- validating against a source

  /** isinstance on the values of a config: a bool is an int too. */
  predicate NodeInstance(a: Node, b: Node) {
    match (a, b)
    case (DictRef(_), DictRef(_)) => true
    case (ListRef(_), ListRef(_)) => true
    case (Leaf(x), Leaf(y)) =>
      || (x.Null? && y.Null?) || (x.Bool? && y.Bool?) || ((x.Integer? || x.Bool?) && y.Integer?)
      || (x.Float? && y.Float?) || (x.Text? && y.Text?)
    case _ => false
  }

  predicate IsInstance(a: Shape, b: Shape) {
    NodeInstance(Root(a), Root(b))
  }

  /** What an entry of the right name becomes. */
  function Corrected(a: Shape, b: Shape): Shape
    decreases b, 1
  {
    if !IsInstance(a, b) then b
    else if b.TDict? then Validated(a, b, b.kids.Keys)
    else a
  }

  /** The dict after the given keys of the source were validated. */
  function Validated(t: Shape, source: Shape, keys: set<string>): Shape
    requires t.TDict? && source.TDict? && keys <= source.kids.Keys
    decreases source, 0
  {
    TDict(t.d,
          map k | k in t.kids.Keys + keys ::
            if k !in keys then t.kids[k]
            else if k !in t.kids then source.kids[k]
            else Corrected(t.kids[k], source.kids[k]),
          t.region + source.region)
  }

  /** What a lookup yields: the value stored there, or why there is none. */
  datatype Spot = Stored(node: Node) | Missing | Blocked

  function SpotAt(t: Shape, path: Path): Spot {
    match Walk(t, path)
    case At(s) => Stored(Root(s))
    case NoKey => Missing
    case NotADict => Blocked
  }

  /** A path that resolves to something of the type the source has there. */
  predicate TypedAs(t: Shape, source: Shape, path: Path) {
    Walk(source, path).At? ==> Walk(t, path).At? && IsInstance(Walk(t, path).t, Walk(source, path).t)
  }

  lemma SelfInstance(a: Shape)
    ensures IsInstance(a, a)
  {
  }

  /** Every path of the source resolves to a value of the type the source has there. */
  lemma {:induction false} ValidatedIsTyped(t: Shape, source: Shape, path: Path)
    requires t.TDict? && source.TDict?
    ensures TypedAs(Validated(t, source, source.kids.Keys), source, path)
    decreases path
  {
    if path != [] && path[0] in source.kids {
      var k := path[0];
      if k in t.kids && IsInstance(t.kids[k], source.kids[k]) {
        if source.kids[k].TDict? {
          ValidatedIsTyped(t.kids[k], source.kids[k], path[1..]);
        } else if path[1..] == [] {
          assert Corrected(t.kids[k], source.kids[k]) == t.kids[k];
          assert Walk(Validated(t, source, source.kids.Keys), path) == At(t.kids[k]) && Walk(source, path) == At(source.kids[k]);
        } else {
          assert Walk(source, path) == Walk(source.kids[k], path[1..]) == NotADict;
        }
      } else {
        SelfWalk(source.kids[k], path[1..]);
      }
    }
  }

  lemma SelfWalk(source: Shape, path: Path)
    ensures TypedAs(source, source, path)
  {
    if Walk(source, path).At? { SelfInstance(Walk(source, path).t); }
  }

  /** A value that may stand where the source has another one: a dict for a dict,
      a list for a list, and a scalar of the same kind, or a bool for an int. */
  predicate MayStand(a: Node, b: Node) {
    && (b.DictRef? ==> a.DictRef?)
    && (b.ListRef? ==> a.ListRef?)
    && (b.Leaf? && b.s.Null? ==> a.Leaf? && a.s.Null?)
    && (b.Leaf? && b.s.Bool? ==> a.Leaf? && a.s.Bool?)
    && (b.Leaf? && b.s.Integer? ==> a.Leaf? && (a.s.Integer? || a.s.Bool?))
    && (b.Leaf? && b.s.Float? ==> a.Leaf? && a.s.Float?)
    && (b.Leaf? && b.s.Text? ==> a.Leaf? && a.s.Text?)
  }

  /** What is found at a path of the source after validation: the old value if
      it may stand there, and else the value of the source. */
  function Expected(walked: Walked, b: Node): Node {
    if walked.At? && MayStand(Root(walked.t), b) then Root(walked.t) else b
  }

  lemma InstancesMayStand(a: Node, b: Node)
    ensures NodeInstance(a, b) <==> MayStand(a, b)
  {
    match (a, b) {
      case (Leaf(x), Leaf(y)) =>
      case _ =>
    }
  }

  /** Each path of the source holds the old value or the source's, as it should. */
  lemma {:induction false} ValidatedHolds(t: Shape, source: Shape, path: Path)
    requires t.TDict? && source.TDict? && Walk(source, path).At?
    ensures Walk(Validated(t, source, source.kids.Keys), path).At?
    ensures Root(Walk(Validated(t, source, source.kids.Keys), path).t) == Expected(Walk(t, path), Root(Walk(source, path).t))
    decreases path
  {
    if path != [] {
      var k := path[0];
      if k in t.kids {
        InstancesMayStand(Root(t.kids[k]), Root(source.kids[k]));
        if IsInstance(t.kids[k], source.kids[k]) && source.kids[k].TDict? {
          ValidatedHolds(t.kids[k], source.kids[k], path[1..]);
        }
      }
    }
  }

  /** A value whose type was right on the whole way stays the same value. */
  lemma {:induction false} ValidatedKeeps(t: Shape, source: Shape, path: Path)
    requires t.TDict? && source.TDict? && Walk(t, path).At?
    requires forall q: Path :: q <= path ==> TypedAs(t, source, q)
    ensures SpotAt(Validated(t, source, source.kids.Keys), path) == SpotAt(t, path)
    decreases path
  {
    if path != [] && path[0] in source.kids {
      var k := path[0];
      assert Walk(source.kids[k], []) == Walk(source, [k]);
      assert [k] <= path && TypedAs(t, source, [k]);
      assert Walk(t.kids[k], []) == Walk(t, [k]);
      if source.kids[k].TDict? {
        forall q: Path | q <= path[1..] ensures TypedAs(t.kids[k], source.kids[k], q) {
          assert [k] + q <= path && ([k] + q)[1..] == q;
          assert TypedAs(t, source, [k] + q);
        }
        ValidatedKeeps(t.kids[k], source.kids[k], path[1..]);
      }
    }
  }

  /** Paths that the source does not have resolve, or fail, as before, unless
      they lead through a value that was replaced for its type. */
  lemma {:induction false} ValidatedOutside(t: Shape, source: Shape, path: Path)
    requires t.TDict? && source.TDict? && !Walk(source, path).At?
    requires forall q: Path :: q <= path ==> TypedAs(t, source, q)
    ensures SpotAt(Validated(t, source, source.kids.Keys), path) == SpotAt(t, path)
    decreases path
  {
    assert Walk(source, []) == At(source);
    var k := path[0];
    if k in source.kids {
      assert Walk(source.kids[k], []) == Walk(source, [k]);
      assert [k] <= path && TypedAs(t, source, [k]);
      assert Walk(t.kids[k], []) == Walk(t, [k]);
      if source.kids[k].TDict? {
        forall q: Path | q <= path[1..] ensures TypedAs(t.kids[k], source.kids[k], q) {
          assert [k] + q <= path && ([k] + q)[1..] == q;
          assert TypedAs(t, source, [k] + q);
        }
        ValidatedOutside(t.kids[k], source.kids[k], path[1..]);
      }
    }
  }

  /** With the right types on the whole way, a path resolves, or fails, as before. */
  lemma ValidatedStays(t: Shape, source: Shape, path: Path)
    requires t.TDict? && source.TDict?
    requires forall q: Path :: q <= path ==> TypedAs(t, source, q)
    ensures SpotAt(Validated(t, source, source.kids.Keys), path) == SpotAt(t, path)
  {
    if Walk(t, path).At? {
      ValidatedKeeps(t, source, path);
    } else {
      assert TypedAs(t, source, path);
      ValidatedOutside(t, source, path);
    }
  }

  /** Validating again with the same source finds nothing to change. */
  lemma {:induction false} ValidatedTwice(t: Shape, source: Shape, path: Path)
    requires t.TDict? && source.TDict?
    ensures
      var once := Validated(t, source, source.kids.Keys);
      SpotAt(Validated(once, source, source.kids.Keys), path) == SpotAt(once, path)
  {
    var once := Validated(t, source, source.kids.Keys);
    forall q: Path | q <= path ensures TypedAs(once, source, q) {
      ValidatedIsTyped(t, source, q);
    }
    ValidatedStays(once, source, path);
  }

  /** Below the path the config looks like the target, above it the objects are
      the same, and everywhere else nothing has changed. */
  ghost predicate Becomes(before: Shape, after: Shape, path: Path, target: Shape) {
    forall q: Path ::
      if path <= q then SpotAt(after, q) == SpotAt(target, q[|path|..])
      else if q <= path then SpotAt(after, q) == SpotAt(before, q)
      else Walk(after, q) == Walk(before, q)
  }

  /** What validation makes of the entry at a path. */
  function EntryTarget(walked: Walked, source: Shape): Shape {
    if walked.At? then Corrected(walked.t, source) else source
  }

  lemma AssignedBecomes(before: Shape, after: Shape, path: Path, v: Shape)
    requires path != [] && CanPut(before, path) && Assigned(before, after, path, v)
    ensures Becomes(before, after, path, v)
  {
    CanPutAbove(before, path);
    forall q: Path | q <= path && q != path ensures SpotAt(after, q) == SpotAt(before, q) {
      var above := path[..|path| - 1];
      assert q <= above;
      if q != above { PrefixOfPut(before, above, q); }
    }
  }

  lemma SameBecomes(t: Shape, path: Path, target: Shape)
    requires Walk(t, path).At?
    requires forall r: Path :: SpotAt(target, r) == SpotAt(Walk(t, path).t, r)
    ensures Becomes(t, t, path, target)
  {
    forall q: Path | path <= q ensures SpotAt(t, q) == SpotAt(target, q[|path|..]) {
      assert q == path + q[|path|..];
      WalkConcat(t, path, q[|path|..]);
    }
  }

  lemma NothingValidated(t: Shape, source: Shape, r: Path)
    requires t.TDict? && source.TDict?
    ensures SpotAt(Validated(t, source, {}), r) == SpotAt(t, r)
  {
    assert Validated(t, source, {}).kids == t.kids;
  }

  /** The entries of a dict under other keys are untouched. */
  lemma BecomesApart(before: Shape, after: Shape, path: Path, key: string, target: Shape)
    requires Becomes(before, after, path + [key], target)
    ensures forall k :: k != key ==> Walk(after, path + [k]) == Walk(before, path + [k])
  {
    forall k | k != key ensures Walk(after, path + [k]) == Walk(before, path + [k]) {
      assert (path + [k])[|path|] == k && (path + [key])[|path|] == key;
      assert !(path + [key] <= path + [k]) && !(path + [k] <= path + [key]);
    }
  }

  /** One more key of the source leaves the other entries as they were targeted. */
  lemma OtherSpotsStay(sub: Shape, source: Shape, keys: set<string>, more: set<string>, k: string, r: Path)
    requires sub.TDict? && source.TDict? && keys <= source.kids.Keys && k in source.kids && more == keys + {k}
    requires r == [] || r[0] != k
    ensures SpotAt(Validated(sub, source, more), r) == SpotAt(Validated(sub, source, keys), r)
  {
    var new_, old_ := Validated(sub, source, more), Validated(sub, source, keys);
    assert r != [] ==> (r[0] in new_.kids <==> r[0] in old_.kids) && (r[0] in old_.kids ==> new_.kids[r[0]] == old_.kids[r[0]]);
  }

  lemma OneSpotChanges(sub: Shape, source: Shape, more: set<string>, k: string, r: Path)
    requires sub.TDict? && source.TDict? && more <= source.kids.Keys && k in more
    ensures SpotAt(Validated(sub, source, more), [k] + r) == SpotAt(if k in sub.kids then Corrected(sub.kids[k], source.kids[k]) else source.kids[k], r)
  {
    assert ([k] + r)[1..] == r;
  }

  /** One more key of the source: the steps for the keys compose. */
  lemma BecomesNext(t: Shape, t1: Shape, t2: Shape, path: Path, sub: Shape, source: Shape, keys: set<string>, more: set<string>, k: string)
    requires sub.TDict? && source.TDict? && keys <= source.kids.Keys && k in source.kids && k !in keys && more == keys + {k}
    requires Becomes(t, t1, path, Validated(sub, source, keys))
    requires Becomes(t1, t2, path + [k], if k in sub.kids then Corrected(sub.kids[k], source.kids[k]) else source.kids[k])
    ensures Becomes(t, t2, path, Validated(sub, source, more))
  {
    forall q: Path
      ensures if path <= q then SpotAt(t2, q) == SpotAt(Validated(sub, source, more), q[|path|..])
        else if q <= path then SpotAt(t2, q) == SpotAt(t, q)
        else Walk(t2, q) == Walk(t, q)
    {
      PrefixesOfLonger(path, k, q);
      if path + [k] <= q {
        OneSpotChanges(sub, source, more, k, q[|path| + 1..]);
      } else if path <= q {
        OtherSpotsStay(sub, source, keys, more, k, q[|path|..]);
      }
    }
  }

  lemma PrefixesOfLonger(path: Path, k: string, q: Path)
    ensures var longer := path + [k];
      && (longer <= q ==> path <= q && q[|path|..] == [k] + q[|path| + 1..] && q[|longer|..] == q[|path| + 1..])
      && (path <= q && !(longer <= q) ==> (q[|path|..] == [] || q[|path|..][0] != k) && (q <= longer ==> q == path) && (q == path ==> q <= longer))
      && (!(path <= q) ==> !(longer <= q) && (q <= path <==> q <= longer))
  {
    var longer := path + [k];
    if path <= q && |q| > |path| {
      assert q[|path|..][0] == q[|path|];
      if q[|path|] == k { assert q[..|longer|] == longer; }
    }
    if q <= longer && |q| <= |path| { assert longer[..|q|] == path[..|q|]; }
  }
}
