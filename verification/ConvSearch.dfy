/**
 The evaluator of the conversation memory: it works with two dictionaries which
 it swaps and aliases, and computes a conjunction of disjunctions.
 */
module ConvSearch {
  import opened Wrappers
  import opened ConvQuery

  // ---------------------------------------------------------------- what a query means

  /** The outcome of a filter function for the term at a position: None where it raises. */
  type Check<!D> = (nat, Filter, string, string, D) -> Option<bool>

  /** The term opens a new group. */
  predicate Opening(terms: seq<Term>, g: int) {
    0 <= g < |terms| && terms[g].filter.Some? && terms[g].op == And
  }

  /** Groups are numbered by their first term, the one at the start by -1. */
  predicate IsGroup(terms: seq<Term>, g: int) {
    g == -1 || Opening(terms, g)
  }

  predicate Accepts<D>(check: Check<D>, t: Term, i: nat, id: string, data: D) {
    t.filter.Some? && (t.query == [] || check(i, t.filter.value, t.query, id, data) == Some(true))
  }

  /** Some term of the group accepts the conversation. */
  ghost predicate GroupHolds<D(!new)>(check: Check<D>, terms: seq<Term>, g: int, id: string, data: D) {
    exists i: nat :: g <= i < |terms| && Accepts(check, terms[i], i, id, data)
      && forall j :: g < j <= i ==> !Opening(terms, j)
  }

  /** The conjunction of the groups. */
  ghost predicate Satisfies<D(!new)>(check: Check<D>, terms: seq<Term>, id: string, data: D) {
    forall g :: IsGroup(terms, g) ==> GroupHolds(check, terms, g, id, data)
  }

  /** From g on, before the next valid and-term, there is a valid term whose
      query is blank or whose filter accepts the conversation. */
  ghost predicate AcceptedFrom<D(!new)>(check: Check<D>, terms: seq<Term>, g: int, id: string, data: D) {
    exists i: nat :: g <= i < |terms| && terms[i].filter.Some?
      && (terms[i].query == "" || check(i, terms[i].filter.value, terms[i].query, id, data) == Some(true))
      && NoAndBetween(terms, g, i)
  }

  predicate NoAndBetween(terms: seq<Term>, g: int, i: int) {
    forall j :: g < j <= i && 0 <= j < |terms| ==> !(terms[j].filter.Some? && terms[j].op == And)
  }

  lemma GroupInWords<D(!new)>(check: Check<D>, terms: seq<Term>, g: int, id: string, data: D)
    requires g >= -1
    ensures GroupHolds(check, terms, g, id, data) <==> AcceptedFrom(check, terms, g, id, data)
  {
    if GroupHolds(check, terms, g, id, data) {
      var i: nat :| g <= i < |terms| && Accepts(check, terms[i], i, id, data) && forall j :: g < j <= i ==> !Opening(terms, j);
      forall j | g < j <= i && 0 <= j < |terms| ensures !(terms[j].filter.Some? && terms[j].op == And) {
        assert !Opening(terms, j);
      }
      assert NoAndBetween(terms, g, i);
    }
  }

  /** What satisfies a query, written out: it is accepted from the start on, and
      from every valid and-term on. */
  lemma SatisfiesInWords<D(!new)>(check: Check<D>, terms: seq<Term>, id: string, data: D)
    ensures Satisfies(check, terms, id, data) <==>
      AcceptedFrom(check, terms, -1, id, data)
      && forall g :: 0 <= g < |terms| && terms[g].filter.Some? && terms[g].op == And ==> AcceptedFrom(check, terms, g, id, data)
  {
    GroupInWords(check, terms, -1, id, data);
    forall g | Opening(terms, g) ensures GroupHolds(check, terms, g, id, data) <==> AcceptedFrom(check, terms, g, id, data) {
      GroupInWords(check, terms, g, id, data);
    }
    assert IsGroup(terms, -1);
    forall g ensures Opening(terms, g) <==> 0 <= g < |terms| && terms[g].filter.Some? && terms[g].op == And {}
  }

  /** The conversation is still among those looked at when the term at i has its turn. */
  ghost predicate Reaches<D(!new)>(check: Check<D>, terms: seq<Term>, i: nat, id: string, data: D) {
    forall g, e :: IsGroup(terms, g) && Opening(terms, e) && g < e <= i ==> GroupHolds(check, terms, g, id, data)
  }

  /** The group that the terms before position i end with. */
  ghost predicate Current(terms: seq<Term>, g: int, i: nat) {
    g < i && IsGroup(terms, g) && forall j :: g < j < i ==> !Opening(terms, j)
  }

  /** All groups before this one hold. */
  ghost predicate Left<D(!new)>(check: Check<D>, terms: seq<Term>, g: int, id: string, data: D) {
    forall h :: IsGroup(terms, h) && h < g ==> GroupHolds(check, terms, h, id, data)
  }

  /** Some term of the group, up to a position, accepts the conversation. */
  ghost predicate HeldSoFar<D(!new)>(check: Check<D>, terms: seq<Term>, g: int, n: nat, id: string, data: D)
    requires n <= |terms|
  {
    exists i: nat :: g <= i < n && Accepts(check, terms[i], i, id, data)
  }

  predicate SubMap<D(==)>(m: map<string, D>, n: map<string, D>) {
    forall id :: id in m ==> id in n && m[id] == n[id]
  }

  /** A filter function raises on a conversation it is asked about. */
  ghost predicate Raises<D(!new)>(check: Check<D>, terms: seq<Term>, i: nat, id: string, data: D) {
    && i < |terms| && terms[i].filter.Some? && terms[i].query != []
    && Reaches(check, terms, i, id, data)
    && check(i, terms[i].filter.value, terms[i].query, id, data).None?
  }

  /** Some filter function raises on some conversation. */
  ghost predicate AnyRaises<D(!new)>(check: Check<D>, terms: seq<Term>, all: map<string, D>) {
    exists i: nat, id :: id in all && Raises(check, terms, i, id, all[id])
  }

  /** The conversations that satisfy the query, with their entries. */
  ghost predicate Selects<D(!new)>(check: Check<D>, terms: seq<Term>, all: map<string, D>, found: map<string, D>) {
    SubMap(found, all) && forall id :: id in found <==> id in all && Satisfies(check, terms, id, all[id])
  }

  // ---------------------------------------------------------------- the evaluator

  /** A dict of conversations that several names may refer to. */
  class Dict<D> {
    var entries: map<string, D>

    constructor (entries: map<string, D>)
      ensures this.entries == entries
    {
      this.entries := entries;
    }
  }

  /** The inner loop: the filter function over the items of the source. */
  method Match<D(!new)>(check: Check<D>, t: Term, i: nat, source: Dict<D>, matched: Dict<D>) returns (raised: bool)
    requires t.filter.Some? && t.query != [] && (matched == source || matched.entries.Keys <= source.entries.Keys)
    requires forall id :: id in matched.entries && id in source.entries ==> matched.entries[id] == source.entries[id]
    modifies matched
    ensures source.entries == old(source.entries)
    ensures raised <==> exists id :: id in source.entries && check(i, t.filter.value, t.query, id, source.entries[id]).None?
    ensures !raised ==> forall id :: id in matched.entries <==>
      id in old(matched.entries) || (id in source.entries && Accepts(check, t, i, id, source.entries[id]))
    ensures matched.entries.Keys <= old(source.entries.Keys)
    ensures forall id :: id in matched.entries ==> matched.entries[id] == source.entries[id]
  {
    var items := source.entries;
    var todo := items.Keys;
    while todo != {}
      invariant todo <= items.Keys && source.entries == items && matched.entries.Keys <= items.Keys
      invariant forall id :: id in matched.entries ==> matched.entries[id] == items[id]
      invariant forall id :: id in items && id !in todo ==> check(i, t.filter.value, t.query, id, items[id]).Some?
      invariant forall id :: id in matched.entries <==>
        id in old(matched.entries) || (id in items && id !in todo && Accepts(check, t, i, id, items[id]))
    {
      var id :| id in todo;
      var outcome := check(i, t.filter.value, t.query, id, items[id]);
      if outcome.None? {
        return true;
      }
      if outcome.value {
        matched.entries := matched.entries[id := items[id]];
        assert matched == source ==> matched.entries == items;
      }
      todo := todo - {id};
    }
    raised := false;
  }

  // ---------------------------------------------------------------- what the evaluator keeps

  /** No filter function raised in the turn of a term before i. */
  ghost predicate NoneRaised<D(!new)>(check: Check<D>, terms: seq<Term>, all: map<string, D>, i: nat) {
    forall k: nat, id :: k < i && id in all ==> !Raises(check, terms, k, id, all[id])
  }

  /** The first dictionary holds what the groups before g left. */
  ghost predicate SourceIs<D(!new)>(check: Check<D>, terms: seq<Term>, all: map<string, D>, g: int, source: map<string, D>) {
    forall id :: id in all ==> (id in source <==> Left(check, terms, g, id, all[id]))
  }

  /** The second one holds what the terms of g before i matched. */
  ghost predicate MatchedIs<D(!new)>(check: Check<D>, terms: seq<Term>, all: map<string, D>, g: int, i: nat,
                                     source: map<string, D>, matched: map<string, D>)
    requires i <= |terms| && SubMap(source, all)
  {
    forall id :: id in source ==> (id in matched <==> HeldSoFar(check, terms, g, i, id, all[id]))
  }

  /** Before the term at i: the source holds what the closed groups left, the
      other dictionary what the terms of the open group matched so far. */
  ghost predicate At<D(!new)>(check: Check<D>, terms: seq<Term>, all: map<string, D>, g: int, i: nat,
                              source: map<string, D>, matched: map<string, D>) {
    && i <= |terms| && Current(terms, g, i)
    && SubMap(matched, source) && SubMap(source, all)
    && SourceIs(check, terms, all, g, source) && MatchedIs(check, terms, all, g, i, source, matched)
    && NoneRaised(check, terms, all, i)
  }

  /** As above, with a valid term at i that has joined or opened the group. */
  ghost predicate InTurn<D(!new)>(check: Check<D>, terms: seq<Term>, all: map<string, D>, g: int, i: nat,
                                  source: map<string, D>, matched: map<string, D>) {
    && i < |terms| && terms[i].filter.Some? && Current(terms, g, i + 1)
    && SubMap(matched, source) && SubMap(source, all)
    && SourceIs(check, terms, all, g, source) && MatchedIs(check, terms, all, g, i, source, matched)
    && NoneRaised(check, terms, all, i)
  }

  /** What a term leaves in the second dictionary. */
  ghost predicate MatchedBy<D(!new)>(check: Check<D>, t: Term, i: nat, source: map<string, D>, was: map<string, D>, now: map<string, D>) {
    && SubMap(now, source)
    && forall id :: id in source ==> (id in now <==> id in was || Accepts(check, t, i, id, source[id]))
  }

  lemma InvalidTerm<D(!new)>(check: Check<D>, terms: seq<Term>, all: map<string, D>, g: int, i: nat,
                             source: map<string, D>, matched: map<string, D>)
    requires At(check, terms, all, g, i, source, matched) && i < |terms| && terms[i].filter.None?
    ensures At(check, terms, all, g, i + 1, source, matched)
  {
    forall id | id in source ensures HeldSoFar(check, terms, g, i + 1, id, all[id]) <==> HeldSoFar(check, terms, g, i, id, all[id]) {}
  }

  /** The open group is decided once its last term had its turn. */
  lemma GroupIsDecided<D(!new)>(check: Check<D>, terms: seq<Term>, g: int, i: nat, id: string, data: D)
    requires i <= |terms| && Current(terms, g, i) && (i < |terms| ==> Opening(terms, i))
    ensures HeldSoFar(check, terms, g, i, id, data) <==> GroupHolds(check, terms, g, id, data)
  {
    if GroupHolds(check, terms, g, id, data) {
      var k: nat :| g <= k < |terms| && Accepts(check, terms[k], k, id, data) && forall j :: g < j <= k ==> !Opening(terms, j);
      assert k < i;
    }
  }

  lemma OneMoreGroupLeft<D(!new)>(check: Check<D>, terms: seq<Term>, g: int, i: nat, id: string, data: D)
    requires Current(terms, g, i) && Opening(terms, i)
    ensures Left(check, terms, i, id, data) <==> Left(check, terms, g, id, data) && HeldSoFar(check, terms, g, i, id, data)
  {
    GroupIsDecided(check, terms, g, i, id, data);
    assert forall h :: IsGroup(terms, h) && h < i ==> h <= g;
  }

  lemma NextSource<D(!new)>(check: Check<D>, terms: seq<Term>, all: map<string, D>, g: int, i: nat,
                            source: map<string, D>, matched: map<string, D>)
    requires Current(terms, g, i) && Opening(terms, i) && SubMap(matched, source) && SubMap(source, all)
    requires SourceIs(check, terms, all, g, source) && MatchedIs(check, terms, all, g, i, source, matched)
    ensures SourceIs(check, terms, all, i, matched)
  {
    forall id | id in all ensures id in matched <==> Left(check, terms, i, id, all[id]) {
      OneMoreGroupLeft(check, terms, g, i, id, all[id]);
    }
  }

  lemma NothingMatched<D(!new)>(check: Check<D>, terms: seq<Term>, all: map<string, D>, g: int, i: nat, source: map<string, D>)
    requires i <= |terms| && SubMap(source, all) && (i <= g || i == 0)
    ensures MatchedIs(check, terms, all, g, i, source, map[])
  {
    forall id | id in source ensures !HeldSoFar(check, terms, g, i, id, all[id]) {}
  }

  lemma OpenGroup<D(!new)>(check: Check<D>, terms: seq<Term>, all: map<string, D>, g: int, i: nat,
                           source: map<string, D>, matched: map<string, D>)
    requires At(check, terms, all, g, i, source, matched) && Opening(terms, i)
    ensures InTurn(check, terms, all, i, i, matched, map[])
  {
    NextSource(check, terms, all, g, i, source, matched);
    NothingMatched(check, terms, all, i, i, matched);
  }

  lemma BeginsAt<D(!new)>(check: Check<D>, terms: seq<Term>, all: map<string, D>)
    ensures At(check, terms, all, -1, 0, all, map[])
  {
    NothingMatched(check, terms, all, -1, 0, all);
    forall id | id in all ensures Left(check, terms, -1, id, all[id]) {}
  }

  lemma StayInGroup<D(!new)>(check: Check<D>, terms: seq<Term>, all: map<string, D>, g: int, i: nat,
                             source: map<string, D>, matched: map<string, D>)
    requires At(check, terms, all, g, i, source, matched) && i < |terms| && terms[i].filter.Some? && terms[i].op != And
    ensures InTurn(check, terms, all, g, i, source, matched)
  {
  }

  /** In the turn of a term, the source is what its filter is asked about. */
  lemma SourceIsReached<D(!new)>(check: Check<D>, terms: seq<Term>, all: map<string, D>, g: int, i: nat,
                                 source: map<string, D>, matched: map<string, D>, id: string)
    requires InTurn(check, terms, all, g, i, source, matched) && id in all
    ensures id in source <==> Reaches(check, terms, i, id, all[id])
  {
    if Reaches(check, terms, i, id, all[id]) {
      forall h | IsGroup(terms, h) && h < g ensures GroupHolds(check, terms, h, id, all[id]) {
        assert Opening(terms, g);
      }
    }
  }

  lemma TermHadItsTurn<D(!new)>(check: Check<D>, terms: seq<Term>, all: map<string, D>, g: int, i: nat,
                                source: map<string, D>, matched: map<string, D>, now: map<string, D>)
    requires InTurn(check, terms, all, g, i, source, matched)
    requires MatchedBy(check, terms[i], i, source, matched, now)
    requires terms[i].query != [] ==>
      forall id :: id in source ==> check(i, terms[i].filter.value, terms[i].query, id, source[id]).Some?
    ensures At(check, terms, all, g, i + 1, source, now)
  {
    forall id | id in source ensures id in now <==> HeldSoFar(check, terms, g, i + 1, id, all[id]) {
      assert Accepts(check, terms[i], i, id, all[id]) ==> HeldSoFar(check, terms, g, i + 1, id, all[id]);
    }
    NobodyRaised(check, terms, all, g, i, source, matched);
  }

  lemma NobodyRaised<D(!new)>(check: Check<D>, terms: seq<Term>, all: map<string, D>, g: int, i: nat,
                              source: map<string, D>, matched: map<string, D>)
    requires InTurn(check, terms, all, g, i, source, matched)
    requires terms[i].query != [] ==>
      forall id :: id in source ==> check(i, terms[i].filter.value, terms[i].query, id, source[id]).Some?
    ensures NoneRaised(check, terms, all, i + 1)
  {
    forall id | id in all ensures !Raises(check, terms, i, id, all[id]) {
      SourceIsReached(check, terms, all, g, i, source, matched, id);
    }
  }

  lemma TermRaised<D(!new)>(check: Check<D>, terms: seq<Term>, all: map<string, D>, g: int, i: nat,
                            source: map<string, D>, matched: map<string, D>)
    requires InTurn(check, terms, all, g, i, source, matched) && terms[i].query != []
    requires exists id :: id in source && check(i, terms[i].filter.value, terms[i].query, id, source[id]).None?
    ensures AnyRaises(check, terms, all)
  {
    var id :| id in source && check(i, terms[i].filter.value, terms[i].query, id, source[id]).None?;
    SourceIsReached(check, terms, all, g, i, source, matched, id);
    assert Raises(check, terms, i, id, all[id]);
  }

  lemma AllTermsHadTheirTurn<D(!new)>(check: Check<D>, terms: seq<Term>, all: map<string, D>, g: int,
                                      source: map<string, D>, matched: map<string, D>)
    requires At(check, terms, all, g, |terms|, source, matched)
    ensures Selects(check, terms, all, matched) && !AnyRaises(check, terms, all)
  {
    forall id | id in all ensures id in matched <==> Satisfies(check, terms, id, all[id]) {
      GroupIsDecided(check, terms, g, |terms|, id, all[id]);
      assert forall h :: IsGroup(terms, h) ==> h <= g;
      if id in matched {
        assert Left(check, terms, g, id, all[id]);
      }
    }
  }

  /** One term's turn: a blank query makes the second name refer to the source. */
  method Turn<D(!new)>(check: Check<D>, terms: seq<Term>, ghost all: map<string, D>, ghost g: int, i: nat,
                       source: Dict<D>, matched: Dict<D>)
    returns (raised: bool, now: Dict<D>)
    requires InTurn(check, terms, all, g, i, source.entries, matched.entries)
    modifies matched
    ensures now == matched || now == source
    ensures source.entries == old(source.entries)
    ensures raised ==> AnyRaises(check, terms, all)
    ensures !raised ==> At(check, terms, all, g, i + 1, source.entries, now.entries)
  {
    ghost var items, was := source.entries, matched.entries;
    if terms[i].query == [] {
      TermHadItsTurn(check, terms, all, g, i, items, was, items);
      return false, source;
    }
    raised := Match(check, terms[i], i, source, matched);
    now := matched;
    if raised {
      TermRaised(check, terms, all, g, i, items, was);
    } else {
      TermHadItsTurn(check, terms, all, g, i, items, was, matched.entries);
    }
  }

  /** The loop over the terms returns the conversations that satisfy the
      conjunction of the groups, in a dict of its own. It fails exactly if a
      filter function raises on a conversation that the earlier groups left in. */
  method Get<D(!new)>(check: Check<D>, catalog: Dict<D>, terms: seq<Term>) returns (r: Option<Dict<D>>)
    ensures unchanged(catalog)
    ensures r.None? <==> AnyRaises(check, terms, catalog.entries)
    ensures r.Some? ==> fresh(r.value) && Selects(check, terms, catalog.entries, r.value.entries)
  {
    ghost var all := catalog.entries;
    var source := new Dict(catalog.entries);
    var matched := new Dict<D>(map[]);
    ghost var group := -1;
    BeginsAt(check, terms, all);
    for i := 0 to |terms|
      invariant fresh(source) && fresh(matched) && unchanged(catalog)
      invariant At(check, terms, all, group, i, source.entries, matched.entries)
    {
      if terms[i].filter.None? {
        InvalidTerm(check, terms, all, group, i, source.entries, matched.entries);
        continue;
      }
      if terms[i].op == And {
        OpenGroup(check, terms, all, group, i, source.entries, matched.entries);
        source := matched;
        matched := new Dict<D>(map[]);
        group := i;
      } else {
        StayInGroup(check, terms, all, group, i, source.entries, matched.entries);
      }
      var raised;
      raised, matched := Turn(check, terms, all, group, i, source, matched);
      if raised {
        return None;
      }
    }
    AllTermsHadTheirTurn(check, terms, all, group, source.entries, matched.entries);
    r := Some(matched);
  }

  datatype SearchResult<!D> = Found(dict: Dict<D>) | InvalidOperator | FilterError

  /** The whole of get. */
  method Search<D(!new)>(check: Check<D>, catalog: Dict<D>, search: string) returns (r: SearchResult<D>)
    ensures unchanged(catalog)
    ensures r.InvalidOperator? <==> Read(search).None?
    ensures r.FilterError? <==> Read(search).Some? && AnyRaises(check, Read(search).value, catalog.entries)
    ensures r.Found? ==> fresh(r.dict) && Selects(check, Read(search).value, catalog.entries, r.dict.entries)
  {
    var raw := ParseRequest(search);
    if raw.None? {
      return InvalidOperator;
    }
    var terms := InterpretAll(raw.value);
    var found := Get(check, catalog, terms);
    r := if found.None? then FilterError else Found(found.value);
  }
}
