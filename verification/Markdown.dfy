/** The escaping of markdown in relayed texts and links. */
module Markdown {
  /** The characters that start a markdown token. */
  predicate Special(c: char) {
    c == '*' || c == '_' || c == '~' || c == '`' || c == '=' || c == '\\' || c == '['
  }

  function EscapeMarkdown(text: string): string {
    if text == [] then []
    else (if Special(text[0]) then ['\\', text[0]] else [text[0]]) + EscapeMarkdown(text[1..])
  }

  /** Matches of a backslash and a special character, from the left and without overlaps. */
  function UnescapeMarkdown(text: string): string {
    if text == [] then []
    else if |text| > 1 && text[0] == '\\' && Special(text[1]) then [text[1]] + UnescapeMarkdown(text[2..])
    else [text[0]] + UnescapeMarkdown(text[1..])
  }

  /** The special characters, and what becomes of single ones. */
  lemma SpecialCharacters(c: char)
    ensures EscapeMarkdown([c]) == if c in "*_~`=\\[" then ['\\', c] else [c]
    ensures ReplaceMarkdown([c]) == if c in "*_~`=\\[" then Encoded(c) else [c]
  {
    assert [c][1..] == [];
    assert c in "*_~`=\\[" <==> c in ['*', '_', '~', '`', '=', '\\', '['];
  }

  /** No special character is left in a replaced link. */
  lemma {:induction false} NothingSpecialIsLeft(text: string)
    ensures forall c :: c in ReplaceMarkdown(text) ==> c !in "*_~`=\\["
  {
    if text != [] {
      NothingSpecialIsLeft(text[1..]);
      SpecialCharacters(text[0]);
    }
  }

  /** A text that was escaped is read back. */
  lemma {:induction false} EscapeThenUnescape(text: string)
    ensures UnescapeMarkdown(EscapeMarkdown(text)) == text
  {
    if text != [] {
      var rest := EscapeMarkdown(text[1..]);
      EscapeThenUnescape(text[1..]);
      assert text == [text[0]] + text[1..];
      if Special(text[0]) {
        assert (['\\', text[0]] + rest)[2..] == rest;
      } else {
        assert ([text[0]] + rest)[1..] == rest;
      }
    }
  }

  /** Unescaping leaves exactly the texts alone in which no backslash precedes a special character. */
  lemma {:induction false} UnescapeIsIdentityIff(text: string)
    ensures |UnescapeMarkdown(text)| <= |text|
    ensures UnescapeMarkdown(text) == text <==> forall i :: 0 <= i < |text| - 1 ==> !(text[i] == '\\' && Special(text[i + 1]))
    decreases |text|
  {
    if text != [] {
      if |text| > 1 && text[0] == '\\' && Special(text[1]) {
        UnescapeIsIdentityIff(text[2..]);
      } else {
        var rest := text[1..];
        UnescapeIsIdentityIff(rest);
        assert text == [text[0]] + rest;
        assert ([text[0]] + UnescapeMarkdown(rest))[1..] == UnescapeMarkdown(rest);
        assert forall i :: 0 <= i < |rest| ==> rest[i] == text[i + 1];
        assert forall i :: 0 < i < |text| ==> text[i] == rest[i - 1];
      }
    }
  }

  // ---------------------------------------------------------------- links

  /** The percent-encoding of a special character. */
  function Encoded(c: char): string {
    if c == '_' then "%5F" else if c == '*' then "%2A" else if c == '~' then "%7E" else if c == '=' then "%3D"
    else if c == '[' then "%5B" else if c == '`' then "%60" else "%5C"
  }

  function ReplaceMarkdown(text: string): string {
    if text == [] then []
    else (if Special(text[0]) then Encoded(text[0]) else [text[0]]) + ReplaceMarkdown(text[1..])
  }

  function HexValue(c: char): int {
    if '0' <= c <= '9' then c as int - '0' as int
    else if 'A' <= c <= 'F' then c as int - 'A' as int + 10
    else if 'a' <= c <= 'f' then c as int - 'a' as int + 10
    else -1
  }

  /** A percent sign and two hexadecimal digits, as in section 2.1 of RFC 3986. */
  predicate Triplet(text: string) {
    |text| > 2 && text[0] == '%' && HexValue(text[1]) >= 0 && HexValue(text[2]) >= 0
  }

  /** What a receiver makes of a link; other percent signs stand for themselves. */
  function Decoded(text: string): string {
    if text == [] then []
    else if Triplet(text) then [(16 * HexValue(text[1]) + HexValue(text[2])) as char] + Decoded(text[3..])
    else [text[0]] + Decoded(text[1..])
  }

  /** Replacing changes no hexadecimal digit at the front, and puts none there. */
  lemma DigitsStay(text: string)
    ensures var r := ReplaceMarkdown(text);
      if text == [] then r == [] else r != [] && if HexValue(text[0]) >= 0 then r[0] == text[0] && r[1..] == ReplaceMarkdown(text[1..]) else HexValue(r[0]) < 0
  {
    if text != [] && !Special(text[0]) {
      assert ReplaceMarkdown(text)[1..] == ReplaceMarkdown(text[1..]);
    }
  }

  /** Replacing neither makes nor breaks a triplet. */
  lemma TripletsStay(text: string)
    requires text != [] && text[0] == '%'
    ensures Triplet(ReplaceMarkdown(text)) <==> Triplet(text)
    ensures Triplet(text) ==> ReplaceMarkdown(text)[..3] == text[..3] && ReplaceMarkdown(text)[3..] == ReplaceMarkdown(text[3..])
  {
    var r := ReplaceMarkdown(text);
    assert r[1..] == ReplaceMarkdown(text[1..]);
    DigitsStay(text[1..]);
    if |text| > 1 && HexValue(text[1]) >= 0 {
      assert text[1..][1..] == text[2..] && r[1..][1..] == r[2..];
      DigitsStay(text[2..]);
      if |text| > 2 && HexValue(text[2]) >= 0 {
        assert text[2..][1..] == text[3..];
        assert r[2..][1..] == r[3..];
        assert r[0] == text[0] && r[1] == text[1] && r[2] == text[2];
      }
    }
  }

  lemma EncodedIsDecoded(c: char, rest: string)
    requires Special(c)
    ensures Decoded(Encoded(c) + rest) == [c] + Decoded(rest)
  {
    assert (Encoded(c) + rest)[3..] == rest;
  }

  /** A link with its markdown replaced leads to the same place. */
  lemma {:induction false} ReplacingKeepsLinks(text: string)
    ensures Decoded(ReplaceMarkdown(text)) == Decoded(text)
    decreases |text|
  {
    if text != [] {
      if Special(text[0]) {
        ReplacingKeepsLinks(text[1..]);
        EncodedIsDecoded(text[0], ReplaceMarkdown(text[1..]));
      } else {
        if text[0] == '%' { TripletsStay(text); }
        if Triplet(text) {
          ReplacingKeepsLinks(text[3..]);
        } else {
          ReplacingKeepsLinks(text[1..]);
          assert ReplaceMarkdown(text)[1..] == ReplaceMarkdown(text[1..]);
        }
      }
    }
  }
}
