/**
 Reloading a config in place: the content becomes the one that was read, while
 the dicts and lists that other code refers to stay the objects they are.
 */
module ConfigReplace {
  import opened ConfigTree

  /** The dict stores exactly the roots of these subtrees. */
  ghost predicate Stores(d: Dict, kids: map<string, Shape>)
    reads d
  {
    d.entries.Keys == kids.Keys && forall k :: k in kids ==> d.entries[k] == Root(kids[k])
  }

  /** The keys of update: deleted entries are discarded, new ones inserted. */
  method ReplaceKeys(current: Dict, update: Dict, ghost ok: map<string, Shape>, ghost nk: map<string, Shape>)
    requires Stores(current, ok) && Stores(update, nk) && current != update
    modifies current
    ensures Stores(current, map k | k in nk :: if k in ok then ok[k] else nk[k])
  {
    var currentKeys, updateKeys := current.entries.Keys, update.entries.Keys;
    current.entries := current.entries - (currentKeys - updateKeys);
    var missing := updateKeys - currentKeys;
    current.entries := current.entries + map k | k in missing :: update.entries[k];
  }

  /** Both are lists: the old list object stays and swaps its content. */
  method ReplaceList(current: List, update: List, ghost ot: Shape, ghost nt: Shape)
    requires ot.TList? && ot.l == current && nt.TList? && nt.l == update
    requires Holds(nt) && current in ot.region && current !in nt.region
    modifies current
    ensures Holds(Replaced(ot, nt))
  {
    current.items := [];
    current.items := current.items + update.items;
  }

  /** Subtrees that all have their shape; named, so that one frame covers them together. */
  ghost predicate AllHold(kids: map<string, Shape>)
    reads set k, o | k in kids && o in Region(kids[k]) :: o
  {
    forall k :: k in kids ==> Holds(kids[k])
  }

  ghost predicate Intact(t: Shape)
    reads Region(t)
  {
    Holds(t)
  }

  ghost predicate Apart(kids: map<string, Shape>, changing: set<object>) {
    forall k :: k in kids ==> Region(kids[k]) !! changing
  }

  /** One entry that exists on both sides; the rest and the whole new structure are not touched. */
  method ReplaceEntry(current: Dict, key: string, newValue: Node, ghost ot: Shape, ghost nt: Shape,
                      ghost rest: map<string, Shape>, ghost whole: Shape)
    requires key in current.entries && current.entries[key] == Root(ot) && newValue == Root(nt)
    requires Holds(ot) && IsTree(ot) && Holds(nt) && IsTree(nt)
    requires Region(ot) !! Region(nt) && current !in Region(ot) && current !in Region(nt)
    requires Apart(rest, {current} + Region(ot)) && AllHold(rest)
    requires Region(whole) !! {current} + Region(ot) && Intact(whole)
    modifies current, Region(ot)
    ensures current.entries == old(current.entries)[key := Root(Replaced(ot, nt))]
    ensures Holds(Replaced(ot, nt))
    ensures AllHold(rest) && Intact(whole)
    decreases nt, 1
  {
    var oldValue := current.entries[key];
    if oldValue.DictRef? && newValue.DictRef? {
      DeepReplace(oldValue.d, newValue.d, ot, nt);
    } else if oldValue.ListRef? && newValue.ListRef? {
      ReplaceList(oldValue.l, newValue.l, ot, nt);
    } else {
      current.entries := current.entries[key := newValue];
    }
  }

  /** What is stored under the keys of nt while those in todo are not yet replaced. */
  ghost function Partly(ot: Shape, nt: Shape, todo: set<string>): map<string, Shape>
    requires ot.TDict? && nt.TDict? && todo <= ot.kids.Keys
  {
    map k | k in nt.kids :: if k in todo then ot.kids[k] else Replaced(ot, nt).kids[k]
  }

  lemma PartlyApart(ot: Shape, nt: Shape, todo: set<string>, key: string)
    requires ot.TDict? && nt.TDict? && todo <= ot.kids.Keys && key in ot.kids && key in nt.kids
    requires IsTree(ot) && IsTree(nt) && Region(ot) !! Region(nt)
    ensures Apart(Partly(ot, nt, todo) - {key}, {ot.d} + Region(ot.kids[key]))
    ensures {ot.d} + Region(ot.kids[key]) <= ot.region && ot.d !in Region(ot.kids[key])
    ensures Region(nt) !! {ot.d} + Region(ot.kids[key]) && Region(nt.kids[key]) <= Region(nt)
  {
    forall j | j in nt.kids && j != key
      ensures Region(Partly(ot, nt, todo)[j]) !! {ot.d} + Region(ot.kids[key])
    {
      if j in ot.kids { ReplacedIsTree(ot.kids[j], nt.kids[j]); }
    }
  }

  lemma PartlySteps(ot: Shape, nt: Shape)
    requires ot.TDict? && nt.TDict?
    ensures Partly(ot, nt, ot.kids.Keys * nt.kids.Keys) == map k | k in nt.kids :: if k in ot.kids then ot.kids[k] else nt.kids[k]
    ensures Partly(ot, nt, {}) == Replaced(ot, nt).kids
    ensures forall todo: set<string>, key :: todo <= ot.kids.Keys * nt.kids.Keys && key in todo ==>
      Partly(ot, nt, todo - {key}) == Partly(ot, nt, todo)[key := Replaced(ot.kids[key], nt.kids[key])]
  {
  }

  lemma Without(kids: map<string, Shape>, key: string)
    requires AllHold(kids)
    ensures AllHold(kids - {key})
  {
  }

  lemma With(kids: map<string, Shape>, key: string, t: Shape)
    requires AllHold(kids - {key}) && Holds(t)
    ensures AllHold(kids[key := t])
  {
    forall k | k in kids && k != key ensures Holds(kids[k]) {
      assert k in kids - {key};
    }
  }

  lemma Assembled(ot: Shape, nt: Shape)
    requires ot.TDict? && nt.TDict? && IsTree(ot) && IsTree(nt) && Region(ot) !! Region(nt)
    requires Stores(ot.d, Replaced(ot, nt).kids) && AllHold(Replaced(ot, nt).kids)
    ensures Holds(Replaced(ot, nt))
  {
    ReplacedIsTree(ot, nt);
  }

  /** The keys of update are in place; nothing below a common key is replaced yet. */
  method Begin(current: Dict, update: Dict, ghost ot: Shape, ghost nt: Shape)
    requires ot.TDict? && ot.d == current && Holds(ot) && IsTree(ot)
    requires nt.TDict? && nt.d == update && Holds(nt) && IsTree(nt)
    requires Region(ot) !! Region(nt)
    modifies current
    ensures var now := Partly(ot, nt, ot.kids.Keys * nt.kids.Keys); Stores(current, now) && AllHold(now)
    ensures Intact(nt)
  {
    PartlySteps(ot, nt);
    ghost var now := Partly(ot, nt, ot.kids.Keys * nt.kids.Keys);
    assert AllHold(now) && forall k :: k in now ==> current !in Region(now[k]);
    assert Intact(nt);
    ReplaceKeys(current, update, ot.kids, nt.kids);
  }

  /** The entry under a common key is replaced in a dict that stores the given subtrees. */
  method ReplaceCommon(current: Dict, key: string, newValue: Node, ghost nt: Shape, ghost now: map<string, Shape>, ghost whole: Shape)
    requires key in now && newValue == Root(nt)
    requires IsTree(now[key]) && Holds(nt) && IsTree(nt)
    requires Region(now[key]) !! Region(nt) && current !in Region(now[key]) && current !in Region(nt)
    requires Stores(current, now) && AllHold(now) && Intact(whole)
    requires Apart(now - {key}, {current} + Region(now[key])) && Region(whole) !! {current} + Region(now[key])
    modifies current, Region(now[key])
    ensures var next := now[key := Replaced(now[key], nt)]; Stores(current, next) && AllHold(next)
    ensures Intact(whole)
    decreases nt, 2
  {
    Without(now, key);
    ReplaceEntry(current, key, newValue, now[key], nt, now - {key}, whole);
    With(now, key, Replaced(now[key], nt));
  }

  /** _deep_replace: current takes over the content of update. */
  method DeepReplace(current: Dict, update: Dict, ghost ot: Shape, ghost nt: Shape)
    requires ot.TDict? && ot.d == current && Holds(ot) && IsTree(ot)
    requires nt.TDict? && nt.d == update && Holds(nt) && IsTree(nt)
    requires Region(ot) !! Region(nt)
    modifies Region(ot)
    ensures Holds(Replaced(ot, nt))
    decreases nt, 0
  {
    var todo := current.entries.Keys * update.entries.Keys;
    Begin(current, update, ot, nt);
    PartlySteps(ot, nt);
    ghost var now := Partly(ot, nt, todo);
    while todo != {}
      invariant todo <= ot.kids.Keys * nt.kids.Keys
      invariant now == Partly(ot, nt, todo)
      invariant Stores(current, now) && AllHold(now) && Intact(nt)
    {
      var key :| key in todo;
      PartlyApart(ot, nt, todo, key);
      ReplaceCommon(current, key, update.entries[key], nt.kids[key], now, nt);
      now := now[key := Replaced(ot.kids[key], nt.kids[key])];
      todo := todo - {key};
    }
    Assembled(ot, nt);
  }
}
