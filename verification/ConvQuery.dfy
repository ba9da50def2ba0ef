/**
 The query language of the conversation memory: its parser, and what the parser
 makes of a text.
 */
module ConvQuery {
  import opened Wrappers

  datatype Op = Start | And | Or

  // ---------------------------------------------------------------- characters

  /** str.isspace, and \s of a regular expression over str. */
  predicate IsSpace(c: char) {
    var u := c as int;
    || 0x09 <= u <= 0x0D || 0x1C <= u <= 0x20 || u == 0x85 || u == 0xA0 || u == 0x1680
    || 0x2000 <= u <= 0x200A || u in {0x2028, 0x2029, 0x202F, 0x205F, 0x3000}
  }

  lemma SpaceCharacters(c: char)
    ensures IsSpace(c) <==> c as int in {
      9, 10, 11, 12, 13, 28, 29, 30, 31, 32, 133, 160, 5760,
      8192, 8193, 8194, 8195, 8196, 8197, 8198, 8199, 8200, 8201, 8202, 8232, 8233, 8239, 8287, 12288}
  {
  }

  /** The first position from i on that holds no space. */
  function SkipSpace(s: string, i: nat): (j: nat)
    requires i <= |s|
    ensures i <= j <= |s| && (j < |s| ==> !IsSpace(s[j])) && forall k :: i <= k < j ==> IsSpace(s[k])
    decreases |s| - i
  {
    if i < |s| && IsSpace(s[i]) then SkipSpace(s, i + 1) else i
  }

  function TrimEnd(s: string): (r: string)
    ensures r <= s && (r != [] ==> !IsSpace(r[|r| - 1])) && forall k :: |r| <= k < |s| ==> IsSpace(s[k])
  {
    if s != [] && IsSpace(s[|s| - 1]) then TrimEnd(s[..|s| - 1]) else s
  }

  /** str.strip */
  function Strip(s: string): (r: string)
    ensures |r| <= |s| && (r != [] ==> !IsSpace(r[0]) && !IsSpace(r[|r| - 1]))
  {
    TrimEnd(s[SkipSpace(s, 0)..])
  }

  /** Stripping takes away spaces at the ends, and only those. */
  lemma StripTakesSpaces(s: string) returns (front: string, back: string)
    ensures s == front + Strip(s) + back
    ensures forall k :: 0 <= k < |front| ==> IsSpace(front[k])
    ensures forall k :: 0 <= k < |back| ==> IsSpace(back[k])
  {
    var i := SkipSpace(s, 0);
    front := s[..i];
    back := TrimmedOff(s[i..]);
    SkippedAndRest(s, i);
  }

  lemma TrimmedOff(s: string) returns (back: string)
    ensures s == TrimEnd(s) + back && forall k :: 0 <= k < |back| ==> IsSpace(back[k])
  {
    var r := TrimEnd(s);
    back := s[|r|..];
    assert s[..|r|] == r;
  }

  lemma SkippedAndRest(s: string, i: nat)
    requires i <= |s|
    ensures s == s[..i] + s[i..]
  {
  }

  function IndexOf(s: string, c: char): (r: Option<nat>)
    ensures r.None? <==> c !in s
    ensures r.Some? ==> r.value < |s| && s[r.value] == c && forall k :: 0 <= k < r.value ==> s[k] != c
  {
    if s == [] then None
    else if s[0] == c then Some(0)
    else match IndexOf(s[1..], c)
      case None => None
      case Some(i) =>
        Some(i + 1)
  }

  // ---------------------------------------------------------------- the closing bracket

  /** How many backslashes follow from position p on. */
  function Backslashes(s: string, p: nat): (n: nat)
    requires p <= |s|
    ensures p + n <= |s| && (forall i :: p <= i < p + n ==> s[i] == '\\') && (p + n < |s| ==> s[p + n] != '\\')
    decreases |s| - p
  {
    if p < |s| && s[p] == '\\' then 1 + Backslashes(s, p + 1) else 0
  }

  /** The regular expression for an unescaped closing bracket matches at p: an
      even run of backslashes that starts here, and the bracket. */
  predicate Closes(s: string, p: nat) {
    && p <= |s| && (p == 0 || s[p - 1] != '\\')
    && Backslashes(s, p) % 2 == 0
    && p + Backslashes(s, p) < |s| && s[p + Backslashes(s, p)] == ')'
  }

  /** The leftmost match from p on. */
  function FirstClose(s: string, p: nat): (r: Option<nat>)
    requires p <= |s|
    ensures r.None? ==> forall q :: p <= q <= |s| ==> !Closes(s, q)
    ensures r.Some? ==> p <= r.value && Closes(s, r.value) && forall q :: p <= q < r.value ==> !Closes(s, q)
    decreases |s| - p
  {
    if Closes(s, p) then Some(p) else if p < |s| then FirstClose(s, p + 1) else None
  }

  /** What follows the match at p. */
  function After(s: string, p: nat): string
    requires Closes(s, p)
  {
    s[p + Backslashes(s, p) + 1..]
  }

  // ---------------------------------------------------------------- the connective

  /** A lower-case word stands at i, whatever its case. */
  predicate WordAt(s: string, i: nat, word: string) {
    && i + |word| <= |s|
    && forall k :: 0 <= k < |word| && 'a' <= word[k] <= 'z' ==> s[i + k] == word[k] || s[i + k] == word[k] - 32 as char
  }

  /** The position of the bracket after spaces, the word and spaces. */
  function BracketAfter(s: string, word: string): (r: Option<nat>)
    ensures r.Some? ==> |word| <= r.value < |s| && s[r.value] == '('
  {
    var i := SkipSpace(s, 0);
    if !WordAt(s, i, word) then None
    else
      var j := SkipSpace(s, i + |word|);
      if j < |s| && s[j] == '(' then Some(j) else None
  }

  /** The operator that a remaining text starts with, and the text from its bracket on. */
  function Connective(s: string): (r: Option<(Op, string)>)
    ensures r.Some? ==> 0 < |r.value.1| < |s| && r.value.1[0] == '('
  {
    match BracketAfter(s, "and")
    case Some(j) => StripKeepsBracket(s[j..]); Some((And, Strip(s[j..])))
    case None =>
      match BracketAfter(s, "or")
      case Some(j) => StripKeepsBracket(s[j..]); Some((Or, Strip(s[j..])))
      case None => None
  }

  lemma StripKeepsBracket(s: string)
    requires s != [] && s[0] == '('
    ensures Strip(s) != [] && Strip(s)[0] == '('
  {
    assert s[0..] == s;
    assert Strip(s) == TrimEnd(s);
    assert TrimEnd(s) != [];
  }

  // ---------------------------------------------------------------- the parser

  type RawTerm = (Op, string)

  predicate Opens(s: string) {
    s != [] && s[0] == '('
  }

  /** The terms of a text that opens with a bracket; None where a ValueError is raised. */
  function ParseFrom(op: Op, raw: string): Option<seq<RawTerm>>
    requires Opens(raw)
    decreases |raw|
  {
    match FirstClose(raw, 0)
    case None => Some([(op, raw[1..]), (op, raw)])
    case Some(p) =>
      var rest := After(raw, p);
      if rest == [] then Some([(op, raw[1..p])])
      else match Connective(rest)
        case None => None
        case Some((next, text)) => Onto([(op, raw[1..p])], ParseFrom(next, text))
  }

  /** Terms in front of those still to come. */
  function Onto(terms: seq<RawTerm>, more: Option<seq<RawTerm>>): Option<seq<RawTerm>> {
    if more.None? then None else Some(terms + more.value)
  }

  function Parse(search: string): Option<seq<RawTerm>> {
    var raw := Strip(search);
    if Opens(raw) then ParseFrom(Start, raw) else Some([(Start, raw)])
  }

  /** One bracketed term is taken off the text. */
  lemma OneTermFurther(terms: seq<RawTerm>, op: Op, raw: string, p: nat)
    requires Opens(raw) && FirstClose(raw, 0) == Some(p)
    ensures var more := terms + [(op, raw[1..p])];
      Onto(terms, ParseFrom(op, raw)) ==
        if After(raw, p) == [] then Some(more)
        else match Connective(After(raw, p))
          case None => None
          case Some((next, text)) => Onto(more, ParseFrom(next, text))
  {
    var rest := After(raw, p);
    if rest != [] && Connective(rest).Some? {
      var (next, text) := Connective(rest).value;
      OntoTwice(terms, [(op, raw[1..p])], ParseFrom(next, text));
    }
  }

  lemma OntoTwice(first: seq<RawTerm>, second: seq<RawTerm>, more: Option<seq<RawTerm>>)
    ensures Onto(first, Onto(second, more)) == Onto(first + second, more)
    ensures Onto([], more) == more
  {
    if more.Some? {
      assert first + (second + more.value) == first + second + more.value;
      assert [] + more.value == more.value;
    }
  }

  /** The loop of parse_request. */
  method ParseRequest(search: string) returns (r: Option<seq<RawTerm>>)
    ensures r == Parse(search)
  {
    var raw := Strip(search);
    var terms: seq<RawTerm> := [];
    var op := Start;
    OntoTwice([], [], Parse(search));
    while Opens(raw)
      invariant Opens(raw) ==> Parse(search) == Onto(terms, ParseFrom(op, raw))
      invariant !Opens(raw) && terms == [] ==> Parse(search) == Some([(op, raw)])
      invariant !Opens(raw) && terms != [] ==> Parse(search) == Some(terms) && raw == []
      decreases |raw|
    {
      var close := FirstClose(raw, 0);
      if close.None? {
        assert terms + [(op, raw[1..]), (op, raw)] == terms + [(op, raw[1..])] + [(op, raw)];
        terms := terms + [(op, raw[1..])];
        break;
      }
      OneTermFurther(terms, op, raw, close.value);
      terms := terms + [(op, raw[1..close.value])];
      raw := After(raw, close.value);
      if raw != [] {
        var next := Connective(raw);
        if next.None? {
          return None;
        }
        op, raw := next.value.0, next.value.1;
      }
    }
    if raw != [] || terms == [] {
      // a text without brackets, or a second time what an open bracket left over
      terms := terms + [(op, raw)];
    }
    r := Some(terms);
  }

  // ---------------------------------------------------------------- printing and parsing

  /** Nothing in the term closes a bracket early or hides the one that follows. */
  ghost predicate Sealed(t: string) {
    (t == [] || t[|t| - 1] != '\\') && forall q :: 0 <= q <= |t| ==> !Closes(t, q)
  }

  /** Terms free of brackets and backslashes are the simplest case. */
  lemma PlainIsSealed(t: string)
    requires ')' !in t && '\\' !in t
    ensures Sealed(t)
  {
  }

  /** A run of backslashes that ends inside a text is not changed by what surrounds the text. */
  lemma {:induction false} RunsAreLocal(t: string, q: nat, rest: string)
    requires q < |t| && t[|t| - 1] != '\\'
    ensures Backslashes("(" + t + rest, q + 1) == Backslashes(t, q)
    decreases |t| - q
  {
    var s := "(" + t + rest;
    assert s[q + 1] == t[q];
    if t[q] == '\\' { RunsAreLocal(t, q + 1, rest); }
  }

  lemma MatchesAreLocal(t: string, q: nat, rest: string)
    requires q < |t| && t[|t| - 1] != '\\'
    ensures Closes("(" + t + rest, q + 1) <==> Closes(t, q)
  {
    var s := "(" + t + rest;
    RunsAreLocal(t, q, rest);
    assert q > 0 ==> s[q] == t[q - 1];
    var n := Backslashes(t, q);
    assert q + n < |t|;
    assert s[q + 1 + n] == t[q + n];
  }

  /** The backslashes before k start at j. */
  predicate RunAt(t: string, j: int, k: int) {
    0 <= j <= k < |t| && (j == 0 || t[j - 1] != '\\') && forall i :: j <= i < k ==> t[i] == '\\'
  }

  /** An odd number of backslashes stands before k, so they escape what follows. */
  ghost predicate EscapedAt(t: string, k: int) {
    exists j :: RunAt(t, j, k) && (k - j) % 2 == 1
  }

  lemma {:induction false} RunStarts(t: string, k: nat) returns (j: nat)
    requires k < |t|
    ensures RunAt(t, j, k)
    decreases k
  {
    if k == 0 || t[k - 1] != '\\' { j := k; } else { j := RunStarts(t, k - 1); }
  }

  lemma RunsAreUnique(t: string, i: int, j: int, k: int)
    requires RunAt(t, i, k) && RunAt(t, j, k)
    ensures i == j
  {
    assert forall x :: i <= x < k ==> t[x] == '\\';
    assert forall x :: j <= x < k ==> t[x] == '\\';
  }

  /** A closing bracket is escaped, or the run before it is where a match begins. */
  lemma EscapedOrClosing(t: string, j: int, k: int)
    requires RunAt(t, j, k) && t[k] == ')'
    ensures EscapedAt(t, k) <==> !Closes(t, j)
  {
    assert Backslashes(t, j) == k - j;
    if EscapedAt(t, k) {
      var i :| RunAt(t, i, k) && (k - i) % 2 == 1;
      RunsAreUnique(t, i, j, k);
    }
  }

  /** A term is sealed exactly if each of its closing brackets is escaped and it
      does not end with a backslash. */
  lemma SealedInWords(t: string)
    ensures Sealed(t) <==>
      (t == [] || t[|t| - 1] != '\\') && forall k :: 0 <= k < |t| && t[k] == ')' ==> EscapedAt(t, k)
  {
    if Sealed(t) {
      forall k | 0 <= k < |t| && t[k] == ')' ensures EscapedAt(t, k) {
        var j := RunStarts(t, k);
        EscapedOrClosing(t, j, k);
      }
    }
    if forall k :: 0 <= k < |t| && t[k] == ')' ==> EscapedAt(t, k) {
      forall q | 0 <= q <= |t| ensures !Closes(t, q) {
        var k := q + Backslashes(t, q);
        if k < |t| && t[k] == ')' && RunAt(t, q, k) { EscapedOrClosing(t, q, k); }
      }
    }
  }

  /** An even run of backslashes before the bracket belongs to the match. */
  lemma ClosesAfterRun(s: string, p: nat, n: nat)
    requires 0 < p && p + n < |s| && n % 2 == 0 && s[p - 1] != '\\' && s[p + n] == ')'
    requires forall i :: p <= i < p + n ==> s[i] == '\\'
    ensures Closes(s, p) && Backslashes(s, p) == n
  {
  }

  lemma NoMatchInside(t: string, rest: string)
    requires Sealed(t)
    ensures forall q :: 0 <= q <= |t| ==> !Closes("(" + t + rest, q)
  {
    var s := "(" + t + rest;
    assert s[0] == '(' && !Closes(s, 0);
    forall q: nat | 0 < q <= |t| ensures !Closes(s, q) {
      MatchesAreLocal(t, q - 1, rest);
    }
  }

  lemma FirstMatch(s: string, p: nat)
    requires Closes(s, p) && forall q :: 0 <= q < p ==> !Closes(s, q)
    ensures FirstClose(s, 0) == Some(p)
  {
  }

  /** Such a run is dropped. */
  lemma EvenRunsAreDropped(op: Op, t: string, run: string)
    requires Sealed(t) && |run| % 2 == 0 && forall i :: 0 <= i < |run| ==> run[i] == '\\'
    ensures ParseFrom(op, "(" + t + (run + ")")) == Some([(op, t)])
  {
    var s, p := "(" + t + (run + ")"), |t| + 1;
    assert s[p - 1] != '\\' && s[p + |run|] == ')' && forall i :: p <= i < p + |run| ==> s[i] == '\\' by {
      assert s[p - 1] == if t == [] then '(' else t[|t| - 1];
      assert forall i :: p <= i < p + |run| ==> s[i] == run[i - p];
    }
    ClosesAfterRun(s, p, |run|);
    NoMatchInside(t, run + ")");
    FirstMatch(s, p);
    assert s[1..p] == t && After(s, p) == [];
  }

  /** The bracket of a printed term is the first match exactly if the term is sealed. */
  lemma ClosesAtTheEnd(t: string, rest: string)
    ensures var s := "(" + t + ")" + rest;
      Sealed(t) <==> FirstClose(s, 0) == Some(|t| + 1)
    ensures var s := "(" + t + ")" + rest;
      FirstClose(s, 0) == Some(|t| + 1) ==> s[1..|t| + 1] == t && After(s, |t| + 1) == rest
  {
    var s := "(" + t + ")" + rest;
    assert s == "(" + t + (")" + rest);
    assert s[|t| + 1] == ')' && s[1..|t| + 1] == t && s[|t| + 2..] == rest;
    assert t != [] ==> s[|t|] == t[|t| - 1];
    assert !Closes(s, 0);
    if t == [] || t[|t| - 1] != '\\' {
      assert Closes(s, |t| + 1);
      forall q: nat | q < |t| ensures Closes(s, q + 1) <==> Closes(t, q) {
        MatchesAreLocal(t, q, ")" + rest);
      }
      forall q: nat | 0 < q <= |t| ensures Closes(s, q) <==> Closes(t, q - 1) {}
    }
  }

  /** The first operator is the start, the others are not. */
  predicate Printable(terms: seq<RawTerm>) {
    terms != [] && terms[0].0 == Start && forall i :: 0 < i < |terms| ==> terms[i].0 != Start
  }

  function Word(op: Op): string {
    if op == And then " and " else " or "
  }

  /** Bracketed terms, joined by their operators. */
  function Joined(terms: seq<RawTerm>): (s: string)
    requires terms != []
    ensures |s| >= 2 && Opens(s) && s[|s| - 1] == ')'
  {
    "(" + terms[0].1 + ")" + if |terms| == 1 then "" else Word(terms[1].0) + Joined(terms[1..])
  }

  lemma StripsToItself(s: string)
    requires Opens(s) && s[|s| - 1] == ')'
    ensures Strip(s) == s
  {
    assert s[0..] == s;
  }

  predicate AllSpaces(s: string) {
    forall k :: 0 <= k < |s| ==> IsSpace(s[k])
  }

  /** The operator that a word stands for, in any case. */
  predicate Spells(word: string, op: Op) {
    match op
    case Start => false
    case And => |word| == 3 && word[0] in "aA" && word[1] in "nN" && word[2] in "dD"
    case Or => |word| == 2 && word[0] in "oO" && word[1] in "rR"
  }

  lemma SkipsSpaces(front: string, spaces: string, rest: string)
    requires AllSpaces(spaces) && rest != [] && !IsSpace(rest[0])
    ensures SkipSpace(front + spaces + rest, |front|) == |front| + |spaces|
  {
    var t := front + spaces + rest;
    assert forall k :: 0 <= k < |spaces| ==> t[|front| + k] == spaces[k];
    assert t[|front| + |spaces|] == rest[0];
  }

  lemma BracketFound(spaces: string, word: string, more: string, s: string, lower: string)
    requires AllSpaces(spaces) && AllSpaces(more) && Opens(s) && |lower| == |word| > 0 && !IsSpace(word[0])
    requires forall k :: 0 <= k < |lower| ==> 'a' <= lower[k] <= 'z' && (word[k] == lower[k] || word[k] == lower[k] - 32 as char)
    ensures BracketAfter(spaces + word + more + s, lower) == Some(|spaces| + |word| + |more|)
  {
    var t := spaces + word + more + s;
    assert t == [] + spaces + (word + more + s) && t == (spaces + word) + more + s;
    SkipsSpaces([], spaces, word + more + s);
    SkipsSpaces(spaces + word, more, s);
    assert forall k :: 0 <= k < |word| ==> t[|spaces| + k] == word[k];
  }

  lemma BracketNotFound(spaces: string, word: string, more: string, s: string)
    requires AllSpaces(spaces) && word != [] && word[0] in "oO"
    ensures BracketAfter(spaces + word + more + s, "and") == None
  {
    var t := spaces + word + more + s;
    assert t == [] + spaces + (word + more + s);
    SkipsSpaces([], spaces, word + more + s);
    assert t[|spaces| + 0] == word[0] && "and"[0] == 'a';
  }

  /** The words and and or are read in any case, with any spaces around them or none. */
  lemma ConnectivesAreRead(op: Op, spaces: string, word: string, more: string, s: string)
    requires Spells(word, op) && AllSpaces(spaces) && AllSpaces(more) && Opens(s) && s[|s| - 1] == ')'
    ensures Connective(spaces + word + more + s) == Some((op, s))
  {
    var t := spaces + word + more + s;
    StripsToItself(s);
    assert t[|spaces| + |word| + |more|..] == s;
    if op == And {
      BracketFound(spaces, word, more, s, "and");
    } else {
      BracketFound(spaces, word, more, s, "or");
      BracketNotFound(spaces, word, more, s);
    }
  }

  lemma ReadsConnective(op: Op, s: string)
    requires op != Start && Opens(s) && s[|s| - 1] == ')'
    ensures Connective(Word(op) + s) == Some((op, s))
  {
    var word := if op == And then "and" else "or";
    assert Word(op) + s == " " + word + " " + s;
    ConnectivesAreRead(op, " ", word, " ", s);
  }

  /** A term that is not sealed is not what the parser reads first. */
  lemma UnsealedIsLost(op: Op, t: string, rest: string)
    requires !Sealed(t)
    ensures var r := ParseFrom(op, "(" + t + ")" + rest); r.Some? ==> r.value[0].1 != t
  {
    var s := "(" + t + ")" + rest;
    ClosesAtTheEnd(t, rest);
    match FirstClose(s, 0) {
      case None =>
        assert |s[1..]| > |t|;
      case Some(p) =>
        OneTermFurther([], op, s, p);
        assert |s[1..p]| != |t|;
    }
  }

  /** A sealed term is read first, and then what follows its operator. */
  lemma SealedIsRead(op: Op, t: string, next: Op, rest: string)
    requires Sealed(t) && next != Start && Opens(rest) && rest[|rest| - 1] == ')'
    ensures ParseFrom(op, "(" + t + ")" + (Word(next) + rest)) == Onto([(op, t)], ParseFrom(next, rest))
  {
    ClosesAtTheEnd(t, Word(next) + rest);
    ReadsConnective(next, rest);
  }

  lemma SealedIsReadAlone(op: Op, t: string)
    requires Sealed(t)
    ensures ParseFrom(op, "(" + t + ")" + "") == Some([(op, t)])
  {
    ClosesAtTheEnd(t, "");
  }

  lemma OntoIsInjective(t: RawTerm, more: Option<seq<RawTerm>>, terms: seq<RawTerm>)
    ensures Onto([t], more) == Some([t] + terms) <==> more == Some(terms)
  {
    assert more.Some? ==> ([t] + more.value)[1..] == more.value;
    assert ([t] + terms)[1..] == terms;
  }

  ghost predicate AllSealed(terms: seq<RawTerm>) {
    forall i :: 0 <= i < |terms| ==> Sealed(terms[i].1)
  }

  lemma AllSealedStep(t: RawTerm, terms: seq<RawTerm>)
    ensures AllSealed([t] + terms) <==> Sealed(t.1) && AllSealed(terms)
  {
    var all := [t] + terms;
    assert all[0] == t && forall i :: 0 <= i < |terms| ==> all[i + 1] == terms[i];
  }

  lemma {:induction false} ParsesFrom(terms: seq<RawTerm>)
    requires terms != [] && forall i :: 0 < i < |terms| ==> terms[i].0 != Start
    ensures ParseFrom(terms[0].0, Joined(terms)) == Some(terms) <==> AllSealed(terms)
    decreases |terms|
  {
    var (op, t) := terms[0];
    var rest := terms[1..];
    assert terms == [(op, t)] + rest;
    AllSealedStep((op, t), rest);
    if !Sealed(t) {
      UnsealedIsLost(op, t, if rest == [] then "" else Word(rest[0].0) + Joined(rest));
    } else if rest == [] {
      SealedIsReadAlone(op, t);
      assert terms == [(op, t)];
    } else {
      SealedIsRead(op, t, rest[0].0, Joined(rest));
      ParsesFrom(rest);
      OntoIsInjective((op, t), ParseFrom(rest[0].0, Joined(rest)), rest);
    }
  }

  /** Printing terms and parsing the text gives them back, exactly if no term
      holds or hides a closing bracket. */
  lemma PrintThenParse(terms: seq<RawTerm>)
    requires Printable(terms)
    ensures Parse(Joined(terms)) == Some(terms) <==> AllSealed(terms)
  {
    StripsToItself(Joined(terms));
    ParsesFrom(terms);
  }

  lemma SealedThen(op: Op, t: string, rest: string, next: Op, text: string)
    requires Sealed(t) && rest != [] && Connective(rest) == Some((next, text))
    ensures Opens(text) && ParseFrom(op, "(" + t + ")" + rest) == Onto([(op, t)], ParseFrom(next, text))
  {
    ClosesAtTheEnd(t, rest);
  }

  lemma ParsesStripped(raw: string)
    requires Opens(raw) && raw[|raw| - 1] == ')'
    ensures Parse(raw) == ParseFrom(Start, raw)
  {
    StripsToItself(raw);
  }

  /** Two terms joined by a word in any case, with any spaces. */
  lemma TwoTermsAreRead(a: string, spaces: string, word: string, more: string, b: string, op: Op)
    requires Sealed(a) && Sealed(b) && Spells(word, op) && AllSpaces(spaces) && AllSpaces(more)
    ensures Parse("(" + a + ")" + (spaces + word + more + ("(" + b + ")" + ""))) == Some([(Start, a), (op, b)])
  {
    var second := "(" + b + ")" + "";
    var rest := spaces + word + more + second;
    var raw := "(" + a + ")" + rest;
    assert rest != [] && rest[|rest| - 1] == ')' by { LastIsBracket(spaces + word + more, second); }
    assert Opens(raw) && raw[|raw| - 1] == ')' by { LastIsBracket("(" + a + ")", rest); }
    assert Connective(rest) == Some((op, second)) by { ConnectivesAreRead(op, spaces, word, more, second); }
    assert ParseFrom(op, second) == Some([(op, b)]) by { SealedIsReadAlone(op, b); }
    assert Parse(raw) == Onto([(Start, a)], Some([(op, b)])) by { ThenAnother(a, rest, op, second, raw); }
    TwoInOrder((Start, a), (op, b));
  }

  lemma LastIsBracket(front: string, s: string)
    requires s != [] && s[|s| - 1] == ')'
    ensures front + s != [] && (front + s)[|front + s| - 1] == ')'
  {
  }

  lemma TwoInOrder(x: RawTerm, y: RawTerm)
    ensures Onto([x], Some([y])) == Some([x, y])
  {
    assert [x] + [y] == [x, y];
  }

  lemma ThenAnother(a: string, rest: string, op: Op, second: string, raw: string)
    requires Sealed(a) && rest != [] && rest[|rest| - 1] == ')' && Connective(rest) == Some((op, second))
    requires raw == "(" + a + ")" + rest && Opens(raw) && raw[|raw| - 1] == ')'
    ensures Opens(second) && Parse(raw) == Onto([(Start, a)], ParseFrom(op, second))
  {
    assert Opens(second) && ParseFrom(Start, raw) == Onto([(Start, a)], ParseFrom(op, second)) by { SealedThen(Start, a, rest, op, second); }
    assert Parse(raw) == ParseFrom(Start, raw) by { ParsesStripped(raw); }
  }

  /** Without a closing bracket the term is read twice: without its bracket, and with it. */
  lemma UnclosedIsReadTwice(t: string)
    requires ')' !in t && (t == [] || !IsSpace(t[|t| - 1]))
    ensures Parse("(" + t) == Some([(Start, t), (Start, "(" + t)])
  {
    var raw := "(" + t;
    assert raw[0..] == raw && Strip(raw) == raw;
    assert forall k :: 0 <= k < |raw| ==> raw[k] != ')';
    assert FirstClose(raw, 0).None?;
    assert raw[1..] == t;
  }

  /** A text that does not open with a bracket is one term, even if it is blank. */
  lemma OtherTexts(t: string)
    requires t == [] || (t[0] != '(' && !IsSpace(t[0]) && !IsSpace(t[|t| - 1]))
    ensures Parse(t) == Some([(Start, t)])
  {
    assert t[0..] == t;
    assert Strip(t) == t;
  }

  /** A bracket that is followed by anything but a connective is an error. */
  lemma WrongConnectives(a: string, rest: string)
    requires Sealed(a) && rest != [] && rest[0] !in "aAoO" && !IsSpace(rest[0]) && !IsSpace(rest[|rest| - 1])
    ensures Parse("(" + a + ")" + rest) == None
  {
    var raw := "(" + a + ")" + rest;
    assert Strip(raw) == raw by { assert raw[0..] == raw && raw[|raw| - 1] == rest[|rest| - 1]; }
    ClosesAtTheEnd(a, rest);
    NoConnective(rest);
  }

  lemma NoConnective(rest: string)
    requires rest != [] && rest[0] !in "aAoO" && !IsSpace(rest[0])
    ensures Connective(rest) == None
  {
    OtherWord(rest, "and");
    OtherWord(rest, "or");
  }

  lemma OtherWord(rest: string, word: string)
    requires rest != [] && word != [] && 'a' <= word[0] <= 'z' && !IsSpace(rest[0])
    requires rest[0] != word[0] && rest[0] != word[0] - 32 as char
    ensures BracketAfter(rest, word) == None
  {
    assert SkipSpace(rest, 0) == 0;
    assert rest[0 + 0] == rest[0];
  }

  // ---------------------------------------------------------------- filters

  datatype Filter = Text | Id | ChatId | Type | MinUsers | MaxUsers | Random | Tag

  function Named(name: string): Option<Filter> {
    if name == "text" then Some(Text)
    else if name == "id" then Some(Id)
    else if name == "chat_id" then Some(ChatId)
    else if name == "type" then Some(Type)
    else if name == "minusers" then Some(MinUsers)
    else if name == "maxusers" then Some(MaxUsers)
    else if name == "random" then Some(Random)
    else if name == "tag" then Some(Tag)
    else None
  }

  /** A term as the evaluator sees it; no filter for an unknown name. */
  datatype Term = Term(op: Op, query: string, filter: Option<Filter>)

  function Interpreted(t: RawTerm): Term {
    match IndexOf(t.1, ':')
    case None => Term(t.0, t.1, Some(Id))
    case Some(i) => Term(t.0, t.1[i + 1..], Named(t.1[..i]))
  }

  function InterpretedAll(raw: seq<RawTerm>): seq<Term> {
    seq(|raw|, i requires 0 <= i < |raw| => Interpreted(raw[i]))
  }

  method InterpretAll(raw: seq<RawTerm>) returns (terms: seq<Term>)
    ensures terms == InterpretedAll(raw)
  {
    terms := [];
    for i := 0 to |raw|
      invariant |terms| == i && forall k :: 0 <= k < i ==> terms[k] == Interpreted(raw[k])
    {
      terms := terms + [Interpreted(raw[i])];
    }
  }

  /** What a search text asks for; None where a ValueError is raised. */
  function Read(search: string): Option<seq<Term>> {
    match Parse(search)
    case None => None
    case Some(raw) => Some(InterpretedAll(raw))
  }

  /** A name without a colon is read back, whatever the query holds. */
  lemma NamesAreRead(op: Op, name: string, query: string)
    requires ':' !in name
    ensures Interpreted((op, name + ":" + query)) == Term(op, query, Named(name))
  {
    var t := name + ":" + query;
    var i := IndexOf(t, ':').value;
    assert t[|name|] == ':';
    assert forall k :: 0 <= k < |name| ==> t[k] == name[k];
    assert t[..i] == name && t[i + 1..] == query;
  }

  /** The names of the filters. */
  lemma FiltersByName(op: Op, name: string, filter: Filter, query: string)
    requires
      || (name == "text" && filter == Text) || (name == "id" && filter == Id) || (name == "chat_id" && filter == ChatId)
      || (name == "type" && filter == Type) || (name == "minusers" && filter == MinUsers) || (name == "maxusers" && filter == MaxUsers)
      || (name == "random" && filter == Random) || (name == "tag" && filter == Tag)
    ensures Interpreted((op, name + ":" + query)) == Term(op, query, Some(filter))
  {
    NamesAreRead(op, name, query);
  }

  /** A term without a colon is an id. */
  lemma BareTermsAreIds(op: Op, text: string)
    ensures Interpreted((op, text)) == Term(op, text, Some(Id)) <== ':' !in text
  {
  }

  lemma UnknownNames(op: Op, name: string, query: string)
    requires ':' !in name && name !in {"text", "id", "chat_id", "type", "minusers", "maxusers", "random", "tag"}
    ensures Interpreted((op, name + ":" + query)) == Term(op, query, None)
  {
    NamesAreRead(op, name, query);
  }

  function Name(filter: Filter): string {
    match filter
    case Text => "text" case Id => "id" case ChatId => "chat_id" case Type => "type"
    case MinUsers => "minusers" case MaxUsers => "maxusers" case Random => "random" case Tag => "tag"
  }

  /** A valid term as a user writes it between brackets. */
  function Written(t: Term): RawTerm
    requires t.filter.Some?
  {
    (t.op, Name(t.filter.value) + ":" + t.query)
  }

  function WrittenAll(terms: seq<Term>): seq<RawTerm>
    requires forall i :: 0 <= i < |terms| ==> terms[i].filter.Some?
  {
    seq(|terms|, i requires 0 <= i < |terms| => Written(terms[i]))
  }

  lemma WritingKeepsTerm(op: Op, query: string, filter: Filter)
    ensures Interpreted((op, Name(filter) + ":" + query)) == Term(op, query, Some(filter))
  {
    assert ':' !in Name(filter) && Named(Name(filter)) == Some(filter) by {
      match filter {
        case Text => case Id => case ChatId => case Type =>
        case MinUsers => case MaxUsers => case Random => case Tag =>
      }
    }
    NamesAreRead(op, Name(filter), query);
  }

  lemma WritingKeepsTerms(terms: seq<Term>)
    requires forall i :: 0 <= i < |terms| ==> terms[i].filter.Some?
    ensures InterpretedAll(WrittenAll(terms)) == terms
  {
    forall i | 0 <= i < |terms| ensures Interpreted(Written(terms[i])) == terms[i] {
      WritingKeepsTerm(terms[i].op, terms[i].query, terms[i].filter.value);
    }
  }

  /** A query that is written out is read as it was meant. */
  lemma QueriesAreRead(terms: seq<Term>)
    requires forall i :: 0 <= i < |terms| ==> terms[i].filter.Some?
    requires Printable(WrittenAll(terms)) && AllSealed(WrittenAll(terms))
    ensures Read(Joined(WrittenAll(terms))) == Some(terms)
  {
    PrintThenParse(WrittenAll(terms));
    WritingKeepsTerms(terms);
  }
}
