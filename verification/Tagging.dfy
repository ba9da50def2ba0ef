/**
 The tag index: for users and for conversations a dict from ids to tags and one
 from tags to ids, kept up to date with the tags stored in the bot's memory.
 */
module Tagging {
  import opened Wrappers

  type Table = map<string, seq<string>>

  /** A key of a table holds a value. */
  predicate Has(m: Table, key: string, value: string) {
    key in m && value in m[key]
  }

  predicate Distinct(s: seq<string>) {
    forall i, j :: 0 <= i < j < |s| ==> s[i] != s[j]
  }

  /** No value is listed twice under a key. */
  predicate NoDuplicates(m: Table) {
    forall k :: k in m ==> Distinct(m[k])
  }

  /** No duplicates and no empty buckets. */
  predicate Clean(m: Table) {
    NoDuplicates(m) && forall k :: k in m ==> m[k] != []
  }

  /** The two directions of an index are inverse relations. */
  ghost predicate Mirrors(byObject: Table, byTag: Table) {
    forall id, tag :: Has(byObject, id, tag) <==> Has(byTag, tag, id)
  }

  // ---------------------------------------------------------------- one table

  /** Appends a value under a key, unless it is listed there. */
  function Added(m: Table, key: string, value: string): Table {
    if key !in m then m[key := [value]]
    else if value in m[key] then m
    else m[key := m[key] + [value]]
  }

  /** list.remove: drops the first occurrence. */
  function Dropped(s: seq<string>, value: string): seq<string> {
    if s == [] then [] else if s[0] == value then s[1..] else [s[0]] + Dropped(s[1..], value)
  }

  /** Removes a value under a key, and the key once nothing is listed under it. */
  function Removed(m: Table, key: string, value: string): Table {
    if !Has(m, key, value) then m
    else if Dropped(m[key], value) == [] then m - {key}
    else m[key := Dropped(m[key], value)]
  }

  lemma AddedHas(m: Table, key: string, value: string)
    requires NoDuplicates(m)
    ensures forall k, v :: Has(Added(m, key, value), k, v) <==> Has(m, k, v) || (k == key && v == value)
    ensures NoDuplicates(Added(m, key, value)) && (Clean(m) ==> Clean(Added(m, key, value)))
  {
  }

  lemma {:induction false} DroppedHas(s: seq<string>, value: string)
    requires Distinct(s)
    ensures forall v :: v in Dropped(s, value) <==> v in s && v != value
    ensures Distinct(Dropped(s, value))
  {
    if s != [] {
      DroppedHas(s[1..], value);
      assert s == [s[0]] + s[1..];
      if s[0] == value {
        assert s[0] !in s[1..];
      } else {
        assert s[0] !in Dropped(s[1..], value);
      }
    }
  }

  lemma RemovedHas(m: Table, key: string, value: string)
    requires NoDuplicates(m)
    ensures forall k, v :: Has(Removed(m, key, value), k, v) <==> Has(m, k, v) && !(k == key && v == value)
    ensures NoDuplicates(Removed(m, key, value)) && (Clean(m) ==> Clean(Removed(m, key, value)))
  {
    if key in m { DroppedHas(m[key], value); }
  }

  // ---------------------------------------------------------------- memory and ids

  /** The tags in memory: of users, of conversations, and of users in single conversations. */
  datatype Memory = Memory(users: Table, convs: Table, convUsers: map<string, Table>)

  /** The index key of a user in one conversation. */
  function ConvUser(conv: string, user: string): string {
    conv + "|" + user
  }

  predicate Plain(id: string) {
    '|' !in id
  }

  predicate NoBars(mem: Memory) {
    && (forall id :: id in mem.users ==> Plain(id))
    && (forall id :: id in mem.convUsers ==> Plain(id) && forall user :: user in mem.convUsers[id] ==> Plain(user))
  }

  predicate MemoryDistinct(mem: Memory) {
    && NoDuplicates(mem.users) && NoDuplicates(mem.convs)
    && forall c :: c in mem.convUsers ==> NoDuplicates(mem.convUsers[c])
  }

  /** What the user index should relate, read off the memory. */
  ghost predicate UserTagged(mem: Memory, key: string, tag: string) {
    Has(mem.users, key, tag)
    || exists c, u :: c in mem.convUsers && Has(mem.convUsers[c], u, tag) && key == ConvUser(c, u)
  }

  /** split("|", maxsplit=1), if there is a bar. */
  function Split(id: string): (parts: Option<(string, string)>)
    ensures parts.None? <==> Plain(id)
    ensures parts.Some? ==> Plain(parts.value.0) && id == ConvUser(parts.value.0, parts.value.1)
  {
    if id == [] then None
    else if id[0] == '|' then Some(([], id[1..]))
    else match Split(id[1..])
      case None => None
      case Some((conv, user)) =>
        assert id == ConvUser([id[0]] + conv, user);
        Some(([id[0]] + conv, user))
  }

  /** A key with a bar is read in one way only. */
  lemma {:induction false} KeysAreUnique(c1: string, u1: string, c2: string, u2: string)
    requires Plain(c1) && Plain(c2)
    ensures ConvUser(c1, u1) == ConvUser(c2, u2) <==> c1 == c2 && u1 == u2
    ensures !Plain(ConvUser(c1, u1))
  {
    var key1, key2 := ConvUser(c1, u1), ConvUser(c2, u2);
    assert key1[|c1|] == '|' && key2[|c2|] == '|';
    assert |c1| < |c2| ==> key2[|c1|] == c2[|c1|];
    assert |c2| < |c1| ==> key1[|c2|] == c1[|c2|];
    if key1 == key2 {
      assert c1 == key1[..|c1|] && c2 == key2[..|c2|];
      assert u1 == key1[|c1| + 1..] && u2 == key2[|c2| + 1..];
    }
  }

  // ---------------------------------------------------------------- the index

  datatype Indices = Indices(userTags: Table, tagUsers: Table, convTags: Table, tagConvs: Table)

  datatype Kind = User | Conv

  function AddedTo(ix: Indices, kind: Kind, tag: string, id: string): Indices {
    match kind
    case User => ix.(tagUsers := Added(ix.tagUsers, tag, id), userTags := Added(ix.userTags, id, tag))
    case Conv => ix.(tagConvs := Added(ix.tagConvs, tag, id), convTags := Added(ix.convTags, id, tag))
  }

  function RemovedFrom(ix: Indices, kind: Kind, tag: string, id: string): Indices {
    match kind
    case User => ix.(tagUsers := Removed(ix.tagUsers, tag, id), userTags := Removed(ix.userTags, id, tag))
    case Conv => ix.(tagConvs := Removed(ix.tagConvs, tag, id), convTags := Removed(ix.convTags, id, tag))
  }

  /** Clean tables whose two directions agree. */
  ghost predicate WellKept(ix: Indices) {
    && Clean(ix.userTags) && Clean(ix.tagUsers) && Mirrors(ix.userTags, ix.tagUsers)
    && Clean(ix.convTags) && Clean(ix.tagConvs) && Mirrors(ix.convTags, ix.tagConvs)
  }

  /** The index relates exactly what the memory does. */
  ghost predicate Agrees(ix: Indices, mem: Memory) {
    && (forall key, tag :: Has(ix.userTags, key, tag) <==> UserTagged(mem, key, tag))
    && (forall id, tag :: Has(ix.convTags, id, tag) <==> Has(mem.convs, id, tag))
  }

  lemma AddedToKeeps(ix: Indices, kind: Kind, tag: string, id: string)
    requires WellKept(ix)
    ensures WellKept(AddedTo(ix, kind, tag, id))
    ensures forall k, t :: Has(AddedTo(ix, kind, tag, id).userTags, k, t) <==> Has(ix.userTags, k, t) || (kind == User && k == id && t == tag)
    ensures forall k, t :: Has(AddedTo(ix, kind, tag, id).convTags, k, t) <==> Has(ix.convTags, k, t) || (kind == Conv && k == id && t == tag)
  {
    match kind {
      case User => AddedHas(ix.tagUsers, tag, id); AddedHas(ix.userTags, id, tag);
      case Conv => AddedHas(ix.tagConvs, tag, id); AddedHas(ix.convTags, id, tag);
    }
  }

  lemma RemovedFromKeeps(ix: Indices, kind: Kind, tag: string, id: string)
    requires WellKept(ix)
    ensures WellKept(RemovedFrom(ix, kind, tag, id))
    ensures forall k, t :: Has(RemovedFrom(ix, kind, tag, id).userTags, k, t) <==> Has(ix.userTags, k, t) && !(kind == User && k == id && t == tag)
    ensures forall k, t :: Has(RemovedFrom(ix, kind, tag, id).convTags, k, t) <==> Has(ix.convTags, k, t) && !(kind == Conv && k == id && t == tag)
  {
    match kind {
      case User => RemovedHas(ix.tagUsers, tag, id); RemovedHas(ix.userTags, id, tag);
      case Conv => RemovedHas(ix.tagConvs, tag, id); RemovedHas(ix.convTags, id, tag);
    }
  }

  // ---------------------------------------------------------------- writing tags to memory

  datatype TagType = TConv | TUser | TConvUser

  function KindOf(tagType: TagType): Kind {
    if tagType == TConv then Conv else User
  }

  function TagsAt(m: Table, id: string): seq<string> {
    if id in m then m[id] else []
  }

  function TableOf(mem: Memory, conv: string): Table {
    if conv in mem.convUsers then mem.convUsers[conv] else map[]
  }

  /** An id that names what its type says. */
  predicate GoodId(tagType: TagType, id: string) {
    match tagType
    case TConv => true
    case TUser => Plain(id)
    case TConvUser => Split(id).Some? && Plain(Split(id).value.1)
  }

  function TagsOf(mem: Memory, tagType: TagType, id: string): seq<string>
    requires GoodId(tagType, id)
  {
    match tagType
    case TConv => TagsAt(mem.convs, id)
    case TUser => TagsAt(mem.users, id)
    case TConvUser => TagsAt(TableOf(mem, Split(id).value.0), Split(id).value.1)
  }

  function WithTags(mem: Memory, tagType: TagType, id: string, tags: seq<string>): Memory
    requires GoodId(tagType, id)
  {
    match tagType
    case TConv => mem.(convs := mem.convs[id := tags])
    case TUser => mem.(users := mem.users[id := tags])
    case TConvUser =>
      var (conv, user) := Split(id).value;
      mem.(convUsers := mem.convUsers[conv := TableOf(mem, conv)[user := tags]])
  }

  /** The memory relates a key and a tag of this kind. */
  ghost predicate Tagged(mem: Memory, kind: Kind, key: string, tag: string) {
    if kind == Conv then Has(mem.convs, key, tag) else UserTagged(mem, key, tag)
  }

  lemma TagsOfTagged(mem: Memory, tagType: TagType, id: string, tag: string)
    requires GoodId(tagType, id) && NoBars(mem)
    ensures Tagged(mem, KindOf(tagType), id, tag) <==> tag in TagsOf(mem, tagType, id)
  {
    if tagType == TConvUser {
      var (conv, user) := Split(id).value;
      forall c, u | c in mem.convUsers && Has(mem.convUsers[c], u, tag) && id == ConvUser(c, u) ensures c == conv && u == user {
        KeysAreUnique(c, u, conv, user);
      }
      KeysAreUnique(conv, user, conv, user);
      if tag in TagsOf(mem, tagType, id) { assert conv in mem.convUsers && Has(mem.convUsers[conv], user, tag); }
    } else if tagType == TUser {
      forall c, u | c in mem.convUsers && Has(mem.convUsers[c], u, tag) ensures id != ConvUser(c, u) {
        KeysAreUnique(c, u, c, u);
      }
    }
  }

  /** Writing the tags of an id changes the relation for that id only. */
  lemma WithTagsTagged(mem: Memory, tagType: TagType, id: string, tags: seq<string>, kind: Kind, key: string, tag: string)
    requires GoodId(tagType, id) && NoBars(mem)
    ensures NoBars(WithTags(mem, tagType, id, tags))
    ensures Tagged(WithTags(mem, tagType, id, tags), kind, key, tag) <==>
      if kind == KindOf(tagType) && key == id then tag in tags else Tagged(mem, kind, key, tag)
  {
    var mem' := WithTags(mem, tagType, id, tags);
    if kind == User && tagType == TConvUser {
      var (conv, user) := Split(id).value;
      if key == id {
        TagsOfTagged(mem', tagType, id, tag);
      } else {
        forall c, u | c in mem'.convUsers && Has(mem'.convUsers[c], u, tag) && key == ConvUser(c, u)
          ensures c in mem.convUsers && Has(mem.convUsers[c], u, tag)
        {
          assert !(c == conv && u == user);
        }
        forall c, u | c in mem.convUsers && Has(mem.convUsers[c], u, tag) && key == ConvUser(c, u)
          ensures c in mem'.convUsers && Has(mem'.convUsers[c], u, tag)
        {
          assert !(c == conv && u == user);
        }
      }
    } else if kind == User && tagType == TUser && key == id {
      TagsOfTagged(mem', tagType, id, tag);
    }
  }

  lemma WithTagsDistinct(mem: Memory, tagType: TagType, id: string, tags: seq<string>)
    requires GoodId(tagType, id) && MemoryDistinct(mem) && Distinct(tags)
    ensures MemoryDistinct(WithTags(mem, tagType, id, tags))
  {
  }

  lemma TagsOfDistinct(mem: Memory, tagType: TagType, id: string)
    requires GoodId(tagType, id) && MemoryDistinct(mem)
    ensures Distinct(TagsOf(mem, tagType, id))
  {
  }

  /** The memory gained or lost one pair, and nothing else. */
  ghost predicate Rewrites(was: Memory, now: Memory, kind: Kind, id: string, tag: string, present: bool) {
    forall k, key, t :: Tagged(now, k, key, t) <==>
      if k == kind && key == id && t == tag then present else Tagged(was, k, key, t)
  }

  /** The tag list that update stores when it changes something. */
  function Rewritten(tags: seq<string>, tag: string, present: bool): seq<string> {
    if present then tags + [tag] else Dropped(tags, tag)
  }

  /** Storing the new list adds or drops the one pair. */
  lemma WriteRewrites(mem: Memory, tagType: TagType, id: string, tag: string, present: bool)
    requires GoodId(tagType, id) && NoBars(mem) && MemoryDistinct(mem)
    requires (tag in TagsOf(mem, tagType, id)) != present
    ensures var mem' := WithTags(mem, tagType, id, Rewritten(TagsOf(mem, tagType, id), tag, present));
      NoBars(mem') && MemoryDistinct(mem') && Rewrites(mem, mem', KindOf(tagType), id, tag, present)
  {
    var tags := TagsOf(mem, tagType, id);
    var tags' := Rewritten(tags, tag, present);
    TagsOfDistinct(mem, tagType, id);
    DroppedHas(tags, tag);
    WithTagsDistinct(mem, tagType, id, tags');
    WithTagsTagged(mem, tagType, id, tags', Conv, id, tag);
    forall k, key, t ensures Tagged(WithTags(mem, tagType, id, tags'), k, key, t) <==>
      if k == KindOf(tagType) && key == id && t == tag then present else Tagged(mem, k, key, t)
    {
      WithTagsTagged(mem, tagType, id, tags', k, key, t);
      TagsOfTagged(mem, tagType, id, t);
    }
  }

  lemma IndexFollows(mem: Memory, mem': Memory, ix: Indices, kind: Kind, id: string, tag: string, present: bool)
    requires WellKept(ix) && Agrees(ix, mem) && Rewrites(mem, mem', kind, id, tag, present)
    ensures var ix' := if present then AddedTo(ix, kind, tag, id) else RemovedFrom(ix, kind, tag, id);
      WellKept(ix') && Agrees(ix', mem')
  {
    AddedToKeeps(ix, kind, tag, id);
    RemovedFromKeeps(ix, kind, tag, id);
    forall key, t ensures UserTagged(mem', key, t) <==> Tagged(mem', User, key, t) {}
    forall key, t ensures Has(mem'.convs, key, t) <==> Tagged(mem', Conv, key, t) {}
  }

  /** Memory and index stay in agreement when both get or lose the same pair. */
  lemma WriteKeeps(mem: Memory, ix: Indices, tagType: TagType, id: string, tag: string, present: bool)
    requires GoodId(tagType, id) && NoBars(mem) && MemoryDistinct(mem) && WellKept(ix) && Agrees(ix, mem)
    requires (tag in TagsOf(mem, tagType, id)) != present
    ensures var mem' := WithTags(mem, tagType, id, Rewritten(TagsOf(mem, tagType, id), tag, present));
      var ix' := if present then AddedTo(ix, KindOf(tagType), tag, id) else RemovedFrom(ix, KindOf(tagType), tag, id);
      NoBars(mem') && MemoryDistinct(mem') && WellKept(ix') && Agrees(ix', mem')
      && Rewrites(mem, mem', KindOf(tagType), id, tag, present)
  {
    WriteRewrites(mem, tagType, id, tag, present);
    var mem' := WithTags(mem, tagType, id, Rewritten(TagsOf(mem, tagType, id), tag, present));
    IndexFollows(mem, mem', ix, KindOf(tagType), id, tag, present);
  }

  // ---------------------------------------------------------------- purging an id

  predicate EndsWith(s: string, suffix: string) {
    |suffix| <= |s| && s[|s| - |suffix|..] == suffix
  }

  /** The index keys that purging an id is about. */
  predicate Matches(tagType: TagType, id: string, key: string) {
    match tagType
    case TUser => key == id || EndsWith(key, "|" + id)
    case TConvUser => EndsWith(key, "|" + id)
    case TConv => key == id
  }

  function PurgeType(tagType: TagType, id: string, key: string): TagType {
    match tagType
    case TConv => TConv
    case TConvUser => TConvUser
    case TUser => if key == id then TUser else TConvUser
  }

  /** Purging a user matches the user's own key and the user's key in any
      conversation, purging a user's overrides only the latter. */
  lemma MatchesInWords(id: string, c: string, u: string)
    requires Plain(id) && Plain(c) && Plain(u)
    ensures Matches(TUser, id, c + "|" + u) <==> u == id
    ensures Matches(TConvUser, id, c + "|" + u) <==> u == id
    ensures Matches(TUser, id, u) <==> u == id
    ensures !Matches(TConvUser, id, u)
  {
    var key, suffix := c + "|" + u, "|" + id;
    assert key == ConvUser(c, u) && key[|c|] == '|' && key[|c| + 1..] == u && key[|c|..] == "|" + u;
    KeysAreUnique(c, u, c, u);
    forall k | 0 <= k < |key| ensures key[k] == '|' <==> k == |c| {
      assert key[k] == if k < |c| then c[k] else if k == |c| then '|' else u[k - |c| - 1];
    }
    if EndsWith(key, suffix) {
      assert key[|key| - |suffix|..][0] == key[|key| - |suffix|];
      assert suffix[1..] == id && ("|" + u)[1..] == u;
    }
    var tail := if |suffix| <= |u| then u[|u| - |suffix|..] else [];
    assert tail != [] ==> tail[0] in u;
  }

  /** All pairs of a key and a tag that a purge has to remove. */
  function Doomed(table: Table, tagType: TagType, id: string): set<(string, string)> {
    set k, t | k in table && t in table[k] && Matches(tagType, id, k) :: (k, t)
  }

  predicate DistinctPairs(pairs: seq<(string, string)>) {
    forall i, j :: 0 <= i < j < |pairs| ==> pairs[i] != pairs[j]
  }

  lemma {:induction false} CountPairs(pairs: seq<(string, string)>)
    requires DistinctPairs(pairs)
    ensures |set p | p in pairs| == |pairs|
  {
    if pairs != [] {
      var init, last := pairs[..|pairs| - 1], pairs[|pairs| - 1];
      CountPairs(init);
      assert pairs == init + [last];
      assert last !in init;
      assert (set p | p in pairs) == (set p | p in init) + {last};
    }
  }

  /** The first loops of purge. */
  method Collect(table: Table, tagType: TagType, id: string) returns (remove: seq<(string, string)>)
    requires NoDuplicates(table)
    ensures DistinctPairs(remove)
    ensures forall p :: p in remove <==> p in Doomed(table, tagType, id)
  {
    remove := [];
    var todo := table.Keys;
    while todo != {}
      invariant todo <= table.Keys && DistinctPairs(remove)
      invariant forall p :: p in remove <==> p in Doomed(table, tagType, id) && p.0 !in todo
    {
      var key :| key in todo;
      if Matches(tagType, id, key) {
        for i := 0 to |table[key]|
          invariant DistinctPairs(remove)
          invariant forall p :: p in remove <==> p in Doomed(table, tagType, id) && (p.0 !in todo || (p.0 == key && p.1 in table[key][..i]))
        {
          assert (key, table[key][i]) !in remove;
          remove := remove + [(key, table[key][i])];
        }
      }
      todo := todo - {key};
    }
  }

  // ---------------------------------------------------------------- the object

  const GROUP := "GROUP"
  const ONE_TO_ONE := "ONE_TO_ONE"
  const WILDCARD := "*"

  datatype Action = Set | Remove

  /** What update returns, or that it raised a ValueError. */
  datatype Outcome = Updated(changed: bool) | ValueError

  /** What purge returns, or that a removal raised a ValueError. */
  datatype PurgeOutcome = Purged(records: nat) | Aborted

  /** The memory lost these pairs, and nothing else. */
  ghost predicate Without(was: Memory, now: Memory, kind: Kind, pairs: seq<(string, string)>) {
    forall k, key, t :: Tagged(now, k, key, t) <==> Tagged(was, k, key, t) && !(k == kind && (key, t) in pairs)
  }

  /** The keys of all pairs still name something. */
  predicate AllNamed(convs: set<string>, users: set<string>, tagType: TagType, id: string, pairs: seq<(string, string)>) {
    forall p :: p in pairs ==> Names(convs, users, PurgeType(tagType, id, p.0), p.0)
  }

  lemma NamedMore(convs: set<string>, users: set<string>, tagType: TagType, id: string, pairs: seq<(string, string)>, i: nat)
    requires i < |pairs|
    ensures AllNamed(convs, users, tagType, id, pairs[..i + 1]) <==>
      AllNamed(convs, users, tagType, id, pairs[..i]) && Names(convs, users, PurgeType(tagType, id, pairs[i].0), pairs[i].0)
    ensures AllNamed(convs, users, tagType, id, pairs) ==> Names(convs, users, PurgeType(tagType, id, pairs[i].0), pairs[i].0)
  {
    PrefixGrows(pairs, i);
    assert pairs[i] in pairs && pairs[i] in pairs[..i + 1];
  }

  lemma PrefixGrows(pairs: seq<(string, string)>, i: nat)
    requires i < |pairs|
    ensures pairs[..i + 1] == pairs[..i] + [pairs[i]]
  {
  }

  lemma WithoutOneMore(was: Memory, mid: Memory, now: Memory, kind: Kind, pairs: seq<(string, string)>, key: string, tag: string)
    requires Without(was, mid, kind, pairs) && Rewrites(mid, now, kind, key, tag, false)
    ensures Without(was, now, kind, pairs + [(key, tag)])
  {
  }

  method AppendUnder(m: Table, key: string, value: string) returns (m': Table)
    ensures m' == Added(m, key, value)
  {
    m' := m;
    if key !in m' {
      m' := m'[key := []];
    }
    if value !in m'[key] {
      assert [] + [value] == [value];
      m' := m'[key := m'[key] + [value]];
    }
  }

  method RemoveUnder(m: Table, key: string, value: string) returns (m': Table)
    ensures m' == Removed(m, key, value)
  {
    m' := m;
    if key in m' {
      if value in m'[key] {
        m' := m'[key := Dropped(m'[key], value)];
        if m'[key] == [] {
          m' := m' - {key};
        }
      }
    }
  }

  /** An id names conversations and users that exist, or wildcards. */
  predicate Names(convs: set<string>, users: set<string>, tagType: TagType, id: string) {
    match tagType
    case TConv => id in convs || id in {GROUP, ONE_TO_ONE, WILDCARD}
    case TUser => id in users || id == WILDCARD
    case TConvUser =>
      match Split(id)
      case None => false
      case Some((conv, user)) =>
        (conv in convs || conv in {GROUP, ONE_TO_ONE}) && (user in users || user == WILDCARD)
  }

  lemma NamesInWords(convs: set<string>, users: set<string>, c: string, u: string)
    requires Plain(c)
    ensures Names(convs, users, TConvUser, c + "|" + u) <==>
      (c in convs || c == "GROUP" || c == "ONE_TO_ONE") && (u in users || u == "*")
  {
    var key := ConvUser(c, u);
    KeysAreUnique(c, u, c, u);
    var (conv, user) := Split(key).value;
    KeysAreUnique(c, u, conv, user);
  }

  /** What an id of each type refers to. */
  ghost predicate Refers(convs: set<string>, users: set<string>, tagType: TagType, id: string) {
    match tagType
    case TConv => id in convs || id == "GROUP" || id == "ONE_TO_ONE" || id == "*"
    case TUser => id in users || id == "*"
    case TConvUser => exists c, u :: (
      && Plain(c) && id == c + "|" + u
      && (c in convs || c == "GROUP" || c == "ONE_TO_ONE") && (u in users || u == "*"))
  }

  lemma NamesRefer(convs: set<string>, users: set<string>, tagType: TagType, id: string)
    ensures Names(convs, users, tagType, id) <==> Refers(convs, users, tagType, id)
  {
    if tagType == TConvUser {
      forall c, u | Plain(c) && id == c + "|" + u ensures Names(convs, users, tagType, id) <==>
        (c in convs || c == "GROUP" || c == "ONE_TO_ONE") && (u in users || u == "*")
      {
        NamesInWords(convs, users, c, u);
      }
      if Split(id).Some? {
        var (conv, user) := Split(id).value;
        assert Plain(conv) && id == conv + "|" + user;
      }
    }
  }

  /** A purge of one user, or of one user's overrides, in terms of users and conversations. */
  ghost predicate PurgedUser(was: Memory, now: Memory, id: string, everywhere: bool) {
    && (forall u, t :: Plain(u) ==> (UserTagged(now, u, t) <==> UserTagged(was, u, t) && !(everywhere && u == id)))
    && (forall c, u, t :: Plain(c) && Plain(u) ==>
          (UserTagged(now, c + "|" + u, t) <==> UserTagged(was, c + "|" + u, t) && u != id))
    && (forall c, t :: Has(now.convs, c, t) <==> Has(was.convs, c, t))
  }

  lemma PurgedInWords(was: Memory, now: Memory, tagType: TagType, id: string)
    requires tagType != TConv && Plain(id)
    requires forall kind, k, t :: Tagged(now, kind, k, t) <==> Tagged(was, kind, k, t) && !(kind == KindOf(tagType) && Matches(tagType, id, k))
    ensures PurgedUser(was, now, id, tagType == TUser)
  {
    forall u, t | Plain(u) ensures UserTagged(now, u, t) <==> UserTagged(was, u, t) && !(tagType == TUser && u == id) {
      MatchesInWords(id, "", u);
      assert Tagged(now, User, u, t) <==> Tagged(was, User, u, t) && !Matches(tagType, id, u);
    }
    forall c, u, t | Plain(c) && Plain(u) ensures UserTagged(now, c + "|" + u, t) <==> UserTagged(was, c + "|" + u, t) && u != id {
      MatchesInWords(id, c, u);
      assert Tagged(now, User, c + "|" + u, t) <==> Tagged(was, User, c + "|" + u, t) && !Matches(tagType, id, c + "|" + u);
    }
    forall c, t ensures Has(now.convs, c, t) <==> Has(was.convs, c, t) {
      assert Tagged(now, Conv, c, t) <==> Tagged(was, Conv, c, t);
    }
  }

  // ---------------------------------------------------------------- the cascading lookup

  const MERGE := "tagging-merge"

  /** The first of the keys that is listed. */
  ghost predicate FirstListed(m: Table, keys: seq<string>, j: int) {
    0 <= j < |keys| && keys[j] in m && forall i :: 0 <= i < j ==> keys[i] !in m
  }

  /** The closed form: the first listed key decides alone, unless it asks to merge. */
  ghost predicate LooksUp(m: Table, keys: seq<string>, tag: string) {
    exists i :: 0 <= i < |keys| && Has(m, keys[i], tag)
      && (FirstListed(m, keys, i) || exists j :: FirstListed(m, keys, j) && Has(m, keys[j], MERGE))
  }

  /** The loop shared by convactive and useractive. */
  method Cascade(m: Table, keys: seq<string>) returns (tags: set<string>)
    requires forall k :: k in m ==> m[k] != []
    ensures forall tag :: tag in tags <==> LooksUp(m, keys, tag)
  {
    tags := {};
    ghost var first := 0;
    for n := 0 to |keys|
      invariant 0 <= first <= n && (forall i :: 0 <= i < first ==> keys[i] !in m)
      invariant first < n ==> FirstListed(m, keys, first) && Has(m, keys[first], MERGE)
      invariant forall tag :: tag in tags <==> exists i :: 0 <= i < n && Has(m, keys[i], tag)
    {
      ghost var before := tags;
      if keys[n] in m {
        tags := tags + set tag | tag in m[keys[n]];
        assert forall tag :: tag in tags <==> tag in before || Has(m, keys[n], tag);
        if MERGE !in tags {
          assert first == n && FirstListed(m, keys, n);
          forall j | FirstListed(m, keys, j) ensures j == n {}
          return;
        }
        if first == n {
          assert FirstListed(m, keys, n);
        }
      } else if first == n {
        first := n + 1;
      }
    }
    forall tag | tag in tags ensures LooksUp(m, keys, tag) {
      assert first < |keys|;
    }
  }

  /** Some tag is stored for the key. */
  ghost predicate Speaks(mem: Memory, kind: Kind, key: string) {
    exists tag :: Tagged(mem, kind, key, tag)
  }

  /** The first of the keys with tags. */
  ghost predicate Decides(mem: Memory, kind: Kind, keys: seq<string>, j: int) {
    0 <= j < |keys| && Speaks(mem, kind, keys[j]) && forall i :: 0 <= i < j ==> !Speaks(mem, kind, keys[i])
  }

  /** The cascade as a statement about memory alone. */
  ghost predicate Active(mem: Memory, kind: Kind, keys: seq<string>, tag: string) {
    exists i :: 0 <= i < |keys| && Tagged(mem, kind, keys[i], tag)
      && (Decides(mem, kind, keys, i) || exists j :: Decides(mem, kind, keys, j) && Tagged(mem, kind, keys[j], "tagging-merge"))
  }

  /** The tags of a key are there and do not ask to merge. */
  ghost predicate Settles(mem: Memory, kind: Kind, key: string) {
    (exists tag :: Tagged(mem, kind, key, tag)) && !Tagged(mem, kind, key, "tagging-merge")
  }

  /** Then they are the result, if the key comes first. */
  lemma FirstSettles(mem: Memory, kind: Kind, keys: seq<string>)
    requires keys != [] && Settles(mem, kind, keys[0])
    ensures forall tag :: Active(mem, kind, keys, tag) <==> Tagged(mem, kind, keys[0], tag)
  {
    assert Decides(mem, kind, keys, 0);
    forall j | Decides(mem, kind, keys, j) ensures j == 0 {}
  }

  /** A table without empty buckets answers for the memory it relates. */
  lemma CascadeReadsMemory(m: Table, mem: Memory, kind: Kind, keys: seq<string>, tag: string)
    requires Clean(m) && forall k, t :: Has(m, k, t) <==> Tagged(mem, kind, k, t)
    ensures LooksUp(m, keys, tag) <==> Active(mem, kind, keys, tag)
  {
    forall k ensures k in m <==> Speaks(mem, kind, k) {
      if k in m { assert Has(m, k, m[k][0]); }
    }
    forall j ensures FirstListed(m, keys, j) <==> Decides(mem, kind, keys, j) {}
  }

  class Tags {
    const allowed: string -> bool
    var conversations: map<string, string>
    var memory: Memory
    var indices: Indices

    ghost predicate Valid()
      reads this
    {
      && NoBars(memory) && MemoryDistinct(memory)
      && WellKept(indices) && Agrees(indices, memory)
    }

    constructor (allowed: string -> bool, conversations: map<string, string>, memory: Memory)
      requires NoBars(memory) && MemoryDistinct(memory)
      ensures Valid() && this.memory == memory && this.conversations == conversations && this.allowed == allowed
    {
      this.allowed := allowed;
      this.conversations := conversations;
      this.memory := memory;
      new;
      RefreshIndices();
    }

    /** add_to_index */
    method AddToIndex(kind: Kind, tag: string, id: string)
      modifies this`indices
      ensures indices == AddedTo(old(indices), kind, tag, id)
    {
      match kind {
        case User =>
          var tagUsers := AppendUnder(indices.tagUsers, tag, id);
          var userTags := AppendUnder(indices.userTags, id, tag);
          indices := indices.(tagUsers := tagUsers, userTags := userTags);
        case Conv =>
          var tagConvs := AppendUnder(indices.tagConvs, tag, id);
          var convTags := AppendUnder(indices.convTags, id, tag);
          indices := indices.(tagConvs := tagConvs, convTags := convTags);
      }
    }

    /** remove_from_index */
    method RemoveFromIndex(kind: Kind, tag: string, id: string)
      modifies this`indices
      ensures indices == RemovedFrom(old(indices), kind, tag, id)
    {
      match kind {
        case User =>
          var tagUsers := RemoveUnder(indices.tagUsers, tag, id);
          var userTags := RemoveUnder(indices.userTags, id, tag);
          indices := indices.(tagUsers := tagUsers, userTags := userTags);
        case Conv =>
          var tagConvs := RemoveUnder(indices.tagConvs, tag, id);
          var convTags := RemoveUnder(indices.convTags, id, tag);
          indices := indices.(tagConvs := tagConvs, convTags := convTags);
      }
    }

    function KeyFor(conv: Option<string>, id: string): string {
      if conv.None? then id else ConvUser(conv.value, id)
    }

    /** The tags of one table go into the index, under the ids or under pairs with a conversation. */
    method LoadTable(kind: Kind, table: Table, conv: Option<string>)
      requires WellKept(indices)
      modifies this`indices
      ensures WellKept(indices)
      ensures forall k, t :: Has(indices.userTags, k, t) <==>
        Has(old(indices).userTags, k, t) || (kind == User && exists id :: Has(table, id, t) && k == KeyFor(conv, id))
      ensures forall k, t :: Has(indices.convTags, k, t) <==>
        Has(old(indices).convTags, k, t) || (kind == Conv && exists id :: Has(table, id, t) && k == KeyFor(conv, id))
    {
      ghost var start := indices;
      var todo := table.Keys;
      while todo != {}
        invariant todo <= table.Keys && WellKept(indices)
        invariant forall k, t :: Has(indices.userTags, k, t) <==>
          Has(start.userTags, k, t) || (kind == User && exists id :: id !in todo && Has(table, id, t) && k == KeyFor(conv, id))
        invariant forall k, t :: Has(indices.convTags, k, t) <==>
          Has(start.convTags, k, t) || (kind == Conv && exists id :: id !in todo && Has(table, id, t) && k == KeyFor(conv, id))
      {
        var id :| id in todo;
        LoadTags(kind, table[id], KeyFor(conv, id));
        todo := todo - {id};
      }
    }

    method LoadTags(kind: Kind, tags: seq<string>, key: string)
      requires WellKept(indices)
      modifies this`indices
      ensures WellKept(indices)
      ensures forall k, t :: Has(indices.userTags, k, t) <==> Has(old(indices).userTags, k, t) || (kind == User && k == key && t in tags)
      ensures forall k, t :: Has(indices.convTags, k, t) <==> Has(old(indices).convTags, k, t) || (kind == Conv && k == key && t in tags)
    {
      ghost var start := indices;
      for i := 0 to |tags|
        invariant WellKept(indices)
        invariant forall k, t :: Has(indices.userTags, k, t) <==> Has(start.userTags, k, t) || (kind == User && k == key && t in tags[..i])
        invariant forall k, t :: Has(indices.convTags, k, t) <==> Has(start.convTags, k, t) || (kind == Conv && k == key && t in tags[..i])
      {
        AddedToKeeps(indices, kind, tags[i], key);
        AddToIndex(kind, tags[i], key);
      }
    }

    /** refresh_indices: whatever the index was, it now agrees with the memory. */
    method RefreshIndices()
      modifies this`indices
      ensures WellKept(indices) && Agrees(indices, memory)
    {
      indices := Indices(map[], map[], map[], map[]);
      LoadTable(User, memory.users, None);
      LoadTable(Conv, memory.convs, None);
      var todo := memory.convUsers.Keys;
      while todo != {}
        invariant todo <= memory.convUsers.Keys && WellKept(indices)
        invariant forall k, t :: Has(indices.convTags, k, t) <==> Has(memory.convs, k, t)
        invariant forall k, t :: Has(indices.userTags, k, t) <==>
          Has(memory.users, k, t)
          || exists c, u :: c in memory.convUsers && c !in todo && Has(memory.convUsers[c], u, t) && k == ConvUser(c, u)
      {
        var conv :| conv in todo;
        LoadTable(User, memory.convUsers[conv], Some(conv));
        todo := todo - {conv};
      }
    }

    /** Whether update finds the conversation and the user that an id names. */
    predicate Known(tagType: TagType, id: string)
      reads this
    {
      Names(conversations.Keys, memory.users.Keys, tagType, id)
    }

    /** update: memory and index change together, by the one pair that was
        asked for, and the result says whether they did. */
    method Update(tagType: TagType, id: string, action: Action, tag: string) returns (r: Outcome)
      requires Valid()
      modifies this`memory, this`indices
      ensures Valid()
      ensures r.ValueError? <==> !old(Known(tagType, id)) || (action == Set && !allowed(tag))
      ensures r.ValueError? <==> !Refers(conversations.Keys, old(memory).users.Keys, tagType, id) || (action == Set && !allowed(tag))
      ensures r != Updated(true) ==> memory == old(memory) && indices == old(indices)
      ensures r.Updated? ==> (r.changed <==> (old(Tagged(memory, KindOf(tagType), id, tag)) <==> action == Remove))
      ensures r.Updated? ==> Rewrites(old(memory), memory, KindOf(tagType), id, tag, action == Set)
      ensures action == Remove ==> memory.users.Keys == old(memory).users.Keys
    {
      NamesRefer(conversations.Keys, memory.users.Keys, tagType, id);
      if !Known(tagType, id) {
        return ValueError;
      }
      var tags := TagsOf(memory, tagType, id);
      TagsOfTagged(memory, tagType, id, tag);
      TagsOfDistinct(memory, tagType, id);
      if action == Set && !allowed(tag) {
        return ValueError;
      }
      if (tag in tags) == (action == Set) {
        return Updated(false);
      }
      WriteKeeps(memory, indices, tagType, id, tag, action == Set);
      match action {
        case Set =>
          tags := tags + [tag];
          AddToIndex(KindOf(tagType), tag, id);
        case Remove =>
          tags := Dropped(tags, tag);
          RemoveFromIndex(KindOf(tagType), tag, id);
      }
      memory := WithTags(memory, tagType, id, tags);
      r := Updated(true);
    }

    /** The table that purge walks over. */
    function PurgeTable(tagType: TagType): Table
      reads this
    {
      if tagType == TConv then indices.convTags else indices.userTags
    }

    /** Every key that a purge would touch still names something. */
    ghost predicate AllKnown(tagType: TagType, id: string)
      reads this
    {
      forall p :: p in Doomed(PurgeTable(tagType), tagType, id) ==> Known(PurgeType(tagType, id, p.0), p.0)
    }

    /** One turn of the last loop of purge. */
    method RemovePair(tagType: TagType, id: string, remove: seq<(string, string)>, i: nat, ghost was: Memory) returns (removed: Outcome)
      requires Valid() && i < |remove| && remove[i] !in remove[..i]
      requires Without(was, memory, KindOf(tagType), remove[..i]) && Tagged(was, KindOf(tagType), remove[i].0, remove[i].1)
      modifies this`memory, this`indices
      ensures Valid() && memory.users.Keys == old(memory).users.Keys
      ensures removed == (if old(Known(PurgeType(tagType, id, remove[i].0), remove[i].0)) then Updated(true) else ValueError)
      ensures removed.ValueError? ==> memory == old(memory)
      ensures removed.Updated? ==> Without(was, memory, KindOf(tagType), remove[..i + 1])
    {
      var (key, tag) := remove[i];
      ghost var mid := memory;
      assert Tagged(mid, KindOf(tagType), key, tag);
      removed := Update(PurgeType(tagType, id, key), key, Remove, tag);
      if removed.Updated? {
        PrefixGrows(remove, i);
        WithoutOneMore(was, mid, memory, KindOf(tagType), remove[..i], key, tag);
      }
    }

    /** The last loop of purge, over the pairs that the first ones collected. */
    method RemovePairs(tagType: TagType, id: string, remove: seq<(string, string)>)
      returns (r: PurgeOutcome, ghost done: nat)
      requires Valid() && DistinctPairs(remove)
      requires forall p :: p in remove ==> Tagged(memory, KindOf(tagType), p.0, p.1)
      modifies this`memory, this`indices
      ensures Valid()
      ensures r.Purged? <==> AllNamed(conversations.Keys, old(memory).users.Keys, tagType, id, remove)
      ensures r.Purged? ==> r.records == |remove|
      ensures done <= |remove| && (r.Purged? ==> done == |remove|)
      ensures Without(old(memory), memory, KindOf(tagType), remove[..done])
    {
      ghost var was := memory;
      var records := 0;
      for i := 0 to |remove|
        invariant Valid() && records == i && memory.users.Keys == was.users.Keys
        invariant Without(was, memory, KindOf(tagType), remove[..i])
        invariant AllNamed(conversations.Keys, was.users.Keys, tagType, id, remove[..i])
      {
        assert remove[i] in remove && remove[i] !in remove[..i];
        NamedMore(conversations.Keys, was.users.Keys, tagType, id, remove, i);
        var removed := RemovePair(tagType, id, remove, i, was);
        if removed.ValueError? {
          return Aborted, i;
        }
        if removed.changed {
          records := records + 1;
        }
      }
      assert remove[..|remove|] == remove;
      r, done := Purged(records), |remove|;
    }

    /** When a purge of a user completes, in terms of users and conversations. */
    lemma CompletesInWords(id: string)
      requires Valid() && Plain(id)
      ensures AllKnown(TConvUser, id) <==> forall c, t :: Plain(c) && UserTagged(memory, c + "|" + id, t) ==>
        (c in conversations || c == "GROUP" || c == "ONE_TO_ONE") && (id in memory.users || id == "*")
      ensures AllKnown(TUser, id) <==> AllKnown(TConvUser, id) && forall t :: UserTagged(memory, id, t) ==> id in memory.users || id == "*"
    {
      OverridesKnown(id);
      UserKnown(id);
    }

    lemma OverridesKnown(id: string)
      requires Valid() && Plain(id)
      ensures AllKnown(TConvUser, id) <==> forall c, t :: Plain(c) && UserTagged(memory, c + "|" + id, t) ==>
        (c in conversations || c == "GROUP" || c == "ONE_TO_ONE") && (id in memory.users || id == "*")
    {
      forall c | Plain(c) ensures Known(TConvUser, c + "|" + id) <==>
        (c in conversations || c == "GROUP" || c == "ONE_TO_ONE") && (id in memory.users || id == "*")
      {
        NamesInWords(conversations.Keys, memory.users.Keys, c, id);
      }
      forall c, t | Plain(c) && UserTagged(memory, c + "|" + id, t) ensures (c + "|" + id, t) in Doomed(indices.userTags, TConvUser, id) {
        assert Has(indices.userTags, c + "|" + id, t);
        MatchesInWords(id, c, id);
      }
      forall p | p in Doomed(indices.userTags, TConvUser, id)
        ensures exists c :: Plain(c) && p.0 == c + "|" + id && UserTagged(memory, c + "|" + id, p.1)
      {
        var c := OverrideKey(id, p.0, p.1);
      }
    }

    /** A key that matches as an override is one of the user in a conversation. */
    lemma OverrideKey(id: string, key: string, tag: string) returns (c: string)
      requires Valid() && Plain(id) && Has(indices.userTags, key, tag) && Matches(TConvUser, id, key)
      ensures Plain(c) && key == c + "|" + id && UserTagged(memory, key, tag)
    {
      assert UserTagged(memory, key, tag);
      if Has(memory.users, key, tag) {
        MatchesInWords(id, "", key);
      }
      var conv, u :| conv in memory.convUsers && Has(memory.convUsers[conv], u, tag) && key == ConvUser(conv, u);
      MatchesInWords(id, conv, u);
      c := conv;
    }

    lemma UserKnown(id: string)
      requires Valid() && Plain(id)
      ensures AllKnown(TUser, id) <==> AllKnown(TConvUser, id) && forall t :: UserTagged(memory, id, t) ==> id in memory.users || id == "*"
    {
      MatchesInWords(id, "", id);
      forall p ensures p in Doomed(indices.userTags, TUser, id) <==>
        p in Doomed(indices.userTags, TConvUser, id) || (p.0 == id && Has(indices.userTags, id, p.1)) {}
      forall t ensures Has(indices.userTags, id, t) <==> UserTagged(memory, id, t) {}
      forall p | p in Doomed(indices.userTags, TConvUser, id) ensures p.0 != id {}
      forall t | Has(indices.userTags, id, t) ensures (id, t) in Doomed(indices.userTags, TUser, id) {}
    }

    /** purge of one conversation or user: it ends normally exactly if every
        matching key still names something, has then removed the matching
        pairs and no other, and returns their number. */
    method Purge(tagType: TagType, id: string) returns (r: PurgeOutcome)
      requires Valid() && id != "ALL"
      modifies this`memory, this`indices
      ensures Valid()
      ensures r.Purged? <==> old(AllKnown(tagType, id))
      ensures r.Purged? ==> r.records == |Doomed(old(PurgeTable(tagType)), tagType, id)|
      ensures r.Purged? ==> forall kind, k, t :: Tagged(memory, kind, k, t) <==>
        Tagged(old(memory), kind, k, t) && !(kind == KindOf(tagType) && Matches(tagType, id, k))
      ensures r.Purged? && tagType != TConv && Plain(id) ==> PurgedUser(old(memory), memory, id, tagType == TUser)
      ensures r.Purged? && tagType == TConv ==> forall c, t :: Has(memory.convs, c, t) <==> Has(old(memory).convs, c, t) && c != id
      ensures forall kind, k, t :: Tagged(memory, kind, k, t) ==> Tagged(old(memory), kind, k, t)
      ensures forall kind, k, t :: Tagged(old(memory), kind, k, t) && !(kind == KindOf(tagType) && Matches(tagType, id, k)) ==>
        Tagged(memory, kind, k, t)
    {
      var table := PurgeTable(tagType);
      var remove := Collect(table, tagType, id);
      ghost var was := memory;
      forall k, t ensures Has(table, k, t) <==> Tagged(was, KindOf(tagType), k, t) {}
      CountPairs(remove);
      assert (set p | p in remove) == Doomed(table, tagType, id);
      forall p | p in remove ensures Tagged(memory, KindOf(tagType), p.0, p.1) && Matches(tagType, id, p.0) {
        assert Has(table, p.0, p.1);
      }
      ghost var done;
      r, done := RemovePairs(tagType, id, remove);
      if r.Purged? {
        assert remove[..done] == remove;
        forall k, t | Tagged(was, KindOf(tagType), k, t) && Matches(tagType, id, k) ensures (k, t) in remove {
          assert Has(table, k, t);
        }
        if tagType == TConv {
          forall c, t ensures Has(memory.convs, c, t) <==> Has(was.convs, c, t) && c != id {
            assert Tagged(memory, Conv, c, t) <==> Tagged(was, Conv, c, t) && !Matches(tagType, id, c);
          }
        } else if Plain(id) {
          PurgedInWords(was, memory, tagType, id);
        }
      }
    }

    /** convactive, in terms of the tags in memory: first those of the
        conversation, then of its type, then of all conversations. */
    method ConvActive(conv: string) returns (tags: set<string>)
      requires Valid()
      ensures conv !in conversations ==> tags == {}
      ensures conv in conversations && conversations[conv] in {"GROUP", "ONE_TO_ONE"} ==>
        forall tag :: tag in tags <==> Active(memory, Conv, [conv, conversations[conv], "*"], tag)
      ensures conv in conversations && conversations[conv] !in {"GROUP", "ONE_TO_ONE"} ==>
        forall tag :: tag in tags <==> Active(memory, Conv, [conv, "*"], tag)
      ensures conv in conversations && Settles(memory, Conv, conv) ==> forall tag :: tag in tags <==> Has(memory.convs, conv, tag)
    {
      var keys := [];
      if conv in conversations {
        keys := keys + [conv];
        if conversations[conv] == GROUP {
          keys := keys + [GROUP];
        } else if conversations[conv] == ONE_TO_ONE {
          keys := keys + [ONE_TO_ONE];
        }
        keys := keys + [WILDCARD];
        assert keys == if conversations[conv] in {"GROUP", "ONE_TO_ONE"} then [conv, conversations[conv], "*"] else [conv, "*"];
      }
      tags := Cascade(indices.convTags, keys);
      forall tag ensures LooksUp(indices.convTags, keys, tag) <==> Active(memory, Conv, keys, tag) {
        CascadeReadsMemory(indices.convTags, memory, Conv, keys, tag);
      }
      if keys != [] && Settles(memory, Conv, conv) { FirstSettles(memory, Conv, keys); }
    }

    /** useractive, in terms of the tags in memory: in a known conversation first
        those of the user there, then of all users there, then the same for its
        type, and then those of the user anywhere and of all users. */
    method UserActive(user: string, conv: Option<string>) returns (tags: set<string>)
      requires Valid()
      ensures user == "sync" || user !in memory.users ==> tags == {}
      ensures user != "sync" && user in memory.users && (conv.None? || conv.value !in conversations) ==>
        forall tag :: tag in tags <==> Active(memory, User, [user, "*"], tag)
      ensures user != "sync" && user in memory.users && conv.Some? && conv.value in conversations ==>
        var kind := if conversations[conv.value] == "GROUP" then "GROUP" else "ONE_TO_ONE";
        forall tag :: tag in tags <==> Active(memory, User,
          [conv.value + "|" + user, conv.value + "|" + "*", kind + "|" + user, kind + "|" + "*", user, "*"], tag)
      ensures user != "sync" && user in memory.users && conv.None? && Settles(memory, User, user) ==>
        forall tag :: tag in tags <==> UserTagged(memory, user, tag)
      ensures user != "sync" && user in memory.users && conv.Some? && conv.value in conversations ==>
        Settles(memory, User, conv.value + "|" + user) ==>
        forall tag :: tag in tags <==> UserTagged(memory, conv.value + "|" + user, tag)
    {
      if user == "sync" || user !in memory.users {
        return {};
      }
      var keys := [];
      if conv.Some? && conv.value in conversations {
        keys := [ConvUser(conv.value, user), ConvUser(conv.value, WILDCARD)];
        if conversations[conv.value] == GROUP {
          keys := keys + [ConvUser(GROUP, user), ConvUser(GROUP, WILDCARD)];
        } else {
          keys := keys + [ConvUser(ONE_TO_ONE, user), ConvUser(ONE_TO_ONE, WILDCARD)];
        }
      }
      keys := keys + [user, WILDCARD];
      assert conv.None? || conv.value !in conversations ==> keys == [user, "*"];
      assert conv.Some? && conv.value in conversations ==>
        var kind := if conversations[conv.value] == "GROUP" then "GROUP" else "ONE_TO_ONE";
        keys == [conv.value + "|" + user, conv.value + "|" + "*", kind + "|" + user, kind + "|" + "*", user, "*"];
      tags := Cascade(indices.userTags, keys);
      forall tag ensures LooksUp(indices.userTags, keys, tag) <==> Active(memory, User, keys, tag) {
        CascadeReadsMemory(indices.userTags, memory, User, keys, tag);
      }
      if Settles(memory, User, keys[0]) { FirstSettles(memory, User, keys); }
    }
  }
}
