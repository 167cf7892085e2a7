/** The quoting functions of art/generateDS/generateDS.py: `quote_xml` and `quote_attrib` of the template, and
  `escape_string`. Each is a chain of whole-string replaces. */
module XmlQuoting {
  import opened Helpers
  import opened Decimal

  /** `s.replace(c, text)`. */
  function Replace(s: string, c: char, text: string): string {
    if s == "" then "" else (if s[0] == c then text else [s[0]]) + Replace(s[1..], c, text)
  }

  /** The three replaces that `quote_xml` and `quote_attrib` share. */
  function EscapeMarkup(s: string): string {
    Replace(Replace(Replace(s, '&', "&amp;"), '<', "&lt;"), '>', "&gt;")
  }

  function QuoteXml(s: string): string { if s == "" then "" else EscapeMarkup(s) }

  function QuoteAttrib(s: string): string {
    var t := EscapeMarkup(s);
    if '"' in t then
      if '\'' in t then "\"" + Replace(t, '"', "&quot;") + "\""
      else "'" + t + "'"
    else "\"" + t + "\""
  }

  function EscapeString(s: string): string { Replace(Replace(s, '\\', "\\\\"), '\'', "\\'") }

  // ---------- Readers, written from the XML and Python rules and not from the code above ----------

  datatype Token = Token(value: string, rest: string)

  /** The predefined entities of XML 1.0, section 4.6: the character and the length of the reference. */
  function Entity(t: string): Option<(char, nat)> {
    if "&amp;" <= t then Some(('&', 5))
    else if "&lt;" <= t then Some(('<', 4))
    else if "&gt;" <= t then Some(('>', 4))
    else if "&quot;" <= t then Some(('"', 6))
    else if "&apos;" <= t then Some(('\'', 6))
    else None
  }

  function Prepend(c: char, t: Option<Token>): Option<Token> {
    if t.None? then None else Some(Token([c] + t.value.value, t.value.rest))
  }

  /** Character data up to `stop`, which stays in the rest: `<` and a bare `&` are errors (XML 1.0, section 2.4). */
  function ReadText(t: string, stop: char): Option<Token>
    decreases |t|
  {
    if t == "" then None
    else if t[0] == stop then Some(Token("", t))
    else if t[0] == '<' then None
    else if t[0] == '&' then
      var e := Entity(t);
      if e.None? then None else Prepend(e.value.0, ReadText(t[e.value.1..], stop))
    else Prepend(t[0], ReadText(t[1..], stop))
  }

  /** An attribute value with its delimiters (XML 1.0, section 2.3, AttValue). */
  function ReadAttrib(t: string): Option<Token> {
    if t == "" || (t[0] != '"' && t[0] != '\'') then None
    else
      var r := ReadText(t[1..], t[0]);
      if r.None? || r.value.rest == "" then None else Some(Token(r.value.value, r.value.rest[1..]))
  }

  /** The inside of a Python literal in single quotes, and what follows the closing quote. */
  function ReadLiteral(t: string): Option<Token> {
    if t == "" then None
    else if t[0] == '\'' then Some(Token("", t[1..]))
    else if t[0] == '\\' then
      if |t| >= 2 && (t[1] == '\\' || t[1] == '\'') then Prepend(t[1], ReadLiteral(t[2..])) else None
    else Prepend(t[0], ReadLiteral(t[1..]))
  }

  // ---------- The replaces, character by character ----------

  /** What becomes of one character; `quotes` tells whether `"` is replaced as well. */
  function MarkupOf(c: char, quotes: bool): string {
    if c == '&' then "&amp;" else if c == '<' then "&lt;" else if c == '>' then "&gt;"
    else if quotes && c == '"' then "&quot;" else [c]
  }

  function Markup(s: string, quotes: bool): string {
    if s == "" then "" else MarkupOf(s[0], quotes) + Markup(s[1..], quotes)
  }

  lemma {:induction false} ReplaceConcat(a: string, b: string, c: char, text: string)
    ensures Replace(a + b, c, text) == Replace(a, c, text) + Replace(b, c, text)
  {
    if a == "" {
      assert a + b == b;
    } else {
      assert (a + b)[0] == a[0] && (a + b)[1..] == a[1..] + b;
      ReplaceConcat(a[1..], b, c, text);
    }
  }

  lemma {:induction false} ReplaceAbsent(s: string, c: char, text: string)
    requires c !in s
    ensures Replace(s, c, text) == s
  {
    if s != "" {
      ReplaceAbsent(s[1..], c, text);
      assert s == [s[0]] + s[1..];
    }
  }

  /** A replace leaves alone a text that has only the other characters. */
  lemma ReplaceChar(c: char, d: char, text: string)
    ensures Replace([c], d, text) == if c == d then text else [c]
  {
    assert Replace([c][1..], d, text) == "";
  }

  lemma EscapeAmp(c: char, amp: string)
    requires c == '&' && amp == "&amp;"
    ensures EscapeMarkup([c]) == amp
  {
    ReplaceChar(c, '&', "&amp;");
    ReplaceAbsent(amp, '<', "&lt;");
    ReplaceAbsent(amp, '>', "&gt;");
  }

  lemma EscapeOther(c: char)
    requires c != '&'
    ensures EscapeMarkup([c]) == MarkupOf(c, false)
  {
    ReplaceChar(c, '&', "&amp;");
    ReplaceChar(c, '<', "&lt;");
    if c == '<' {
      ReplaceAbsent("&lt;", '>', "&gt;");
    } else {
      ReplaceChar(c, '>', "&gt;");
    }
  }

  lemma EscapeOneChar(c: char)
    ensures EscapeMarkup([c]) == MarkupOf(c, false)
  {
    if c == '&' {
      EscapeAmp(c, "&amp;");
    } else {
      EscapeOther(c);
    }
  }

  lemma QuoteOneChar(c: char)
    ensures Replace(MarkupOf(c, false), '"', "&quot;") == MarkupOf(c, true)
  {
    if |MarkupOf(c, false)| == 1 {
      ReplaceChar(c, '"', "&quot;");
    } else {
      ReplaceAbsent(MarkupOf(c, false), '"', "&quot;");
    }
  }

  /** The sequential replaces are one substitution, character by character. */
  lemma {:induction false} ReplacesAreOneSubstitution(s: string)
    ensures EscapeMarkup(s) == Markup(s, false)
    ensures Replace(EscapeMarkup(s), '"', "&quot;") == Markup(s, true)
  {
    if s != "" {
      var c, rest := [s[0]], s[1..];
      assert s == c + rest;
      ReplacesAreOneSubstitution(rest);
      EscapeOneChar(s[0]);
      QuoteOneChar(s[0]);
      ReplaceConcat(c, rest, '&', "&amp;");
      var c1, r1 := Replace(c, '&', "&amp;"), Replace(rest, '&', "&amp;");
      ReplaceConcat(c1, r1, '<', "&lt;");
      var c2, r2 := Replace(c1, '<', "&lt;"), Replace(r1, '<', "&lt;");
      ReplaceConcat(c2, r2, '>', "&gt;");
      ReplaceConcat(EscapeMarkup(c), EscapeMarkup(rest), '"', "&quot;");
    }
  }

  lemma {:induction false} MarkupKeepsQuotes(s: string, c: char)
    requires c == '"' || c == '\''
    ensures c in Markup(s, false) <==> c in s
  {
    if s != "" {
      MarkupKeepsQuotes(s[1..], c);
      assert c in MarkupOf(s[0], false) <==> c == s[0];
      assert s == [s[0]] + s[1..];
    }
  }

  // ---------- The readers invert the quoting ----------

  /** The characters that `MarkupOf` may leave as they are in front of a `stop`. */
  predicate Clear(c: char, quotes: bool, stop: char) {
    c != stop || c == '<' || (quotes && c == '"')
  }

  lemma ReadOneChar(c: char, quotes: bool, stop: char, tail: string)
    requires stop != '&' && stop != '>' && Clear(c, quotes, stop)
    ensures ReadText(MarkupOf(c, quotes) + tail, stop) == Prepend(c, ReadText(tail, stop))
  {
    var m := MarkupOf(c, quotes);
    assert (m + tail)[|m|..] == tail;
    assert (m + tail)[0] == m[0];
    if |m| > 1 {
      assert m <= m + tail;
      assert forall i :: 0 <= i < |m| ==> (m + tail)[i] == m[i];
      assert (m + tail)[1] == m[1];
      assert c == '<' || c == '>' ==> (m + tail)[1] == m[1];
      assert Entity(m + tail) == Some((c, |m|));
    }
  }

  lemma {:induction false} ReadMarkup(s: string, quotes: bool, stop: char, rest: string)
    requires stop != '&' && stop != '>' && forall i :: 0 <= i < |s| ==> Clear(s[i], quotes, stop)
    ensures ReadText(Markup(s, quotes) + [stop] + rest, stop) == Some(Token(s, [stop] + rest))
  {
    if s == "" {
      assert Markup(s, quotes) + [stop] + rest == [stop] + rest;
    } else {
      var tail := Markup(s[1..], quotes) + [stop] + rest;
      assert Markup(s, quotes) + [stop] + rest == MarkupOf(s[0], quotes) + tail;
      ReadMarkup(s[1..], quotes, stop, rest);
      ReadOneChar(s[0], quotes, stop, tail);
      assert s == [s[0]] + s[1..];
    }
  }

  /** Element content: an XML reader takes the quoted text up to the next tag and gets the original back. */
  lemma QuoteXmlReadBack(s: string, rest: string)
    ensures ReadText(QuoteXml(s) + "<" + rest, '<') == Some(Token(s, "<" + rest))
  {
    ReplacesAreOneSubstitution(s);
    ReadMarkup(s, false, '<', rest);
  }

  lemma {:induction false} NoBareMarkup(s: string, quotes: bool)
    ensures '<' !in Markup(s, quotes) && (quotes ==> '"' !in Markup(s, quotes))
  {
    if s != "" {
      NoBareMarkup(s[1..], quotes);
      assert '<' !in MarkupOf(s[0], quotes) && (quotes ==> '"' !in MarkupOf(s[0], quotes));
    }
  }

  function Delimiter(s: string): char { if '"' in s && '\'' !in s then '\'' else '"' }

  predicate HasBoth(s: string) { '"' in s && '\'' in s }

  lemma QuoteAttribShape(s: string)
    ensures QuoteAttrib(s) == [Delimiter(s)] + Markup(s, HasBoth(s)) + [Delimiter(s)]
  {
    ReplacesAreOneSubstitution(s);
    MarkupKeepsQuotes(s, '"');
    MarkupKeepsQuotes(s, '\'');
  }

  lemma ReadDelimited(stop: char, body: string, value: string, rest: string)
    requires stop == '"' || stop == '\''
    requires ReadText(body + [stop] + rest, stop) == Some(Token(value, [stop] + rest))
    ensures ReadAttrib([stop] + body + [stop] + rest) == Some(Token(value, rest))
  {
    var t := [stop] + body + [stop] + rest;
    assert t[1..] == body + [stop] + rest;
  }

  /** Attribute values: the reader stops at the closing delimiter, never before it, and gets the original back. */
  lemma QuoteAttribReadBack(s: string, rest: string)
    ensures ReadAttrib(QuoteAttrib(s) + rest) == Some(Token(s, rest))
  {
    QuoteAttribShape(s);
    ReadMarkup(s, HasBoth(s), Delimiter(s), rest);
    ReadDelimited(Delimiter(s), Markup(s, HasBoth(s)), s, rest);
  }

  /** The body between the delimiters holds neither the delimiter nor `<`. */
  lemma AttribBodyIsClean(s: string)
    ensures var t := QuoteAttrib(s);
            && |t| >= 2 && t[0] == t[|t| - 1] && (t[0] == '"' || t[0] == '\'')
            && t[0] !in t[1..|t| - 1] && '<' !in t[1..|t| - 1]
  {
    QuoteAttribShape(s);
    if HasBoth(s) {
      NoBareMarkup(s, true);
    } else {
      NoBareMarkup(s, false);
      MarkupKeepsQuotes(s, Delimiter(s));
    }
    var t := QuoteAttrib(s);
    assert t[1..|t| - 1] == Markup(s, HasBoth(s));
  }

  // ---------- Nothing else is replaced ----------

  lemma {:induction false} MarkupPlain(s: string, quotes: bool)
    requires forall c :: c in s ==> c != '&' && c != '<' && c != '>' && (quotes ==> c != '"')
    ensures Markup(s, quotes) == s
  {
    if s != "" {
      assert s[0] in s && forall c :: c in s[1..] ==> c in s;
      MarkupPlain(s[1..], quotes);
      assert s == [s[0]] + s[1..];
    }
  }

  lemma {:induction false} NoGreater(s: string, quotes: bool)
    ensures '>' !in Markup(s, quotes)
  {
    if s != "" {
      NoGreater(s[1..], quotes);
      assert '>' !in MarkupOf(s[0], quotes);
    }
  }

  /** Quoted content holds neither `<` nor `>`, and text without markup stays as it is. */
  lemma QuoteXmlExactly(s: string)
    ensures '<' !in QuoteXml(s) && '>' !in QuoteXml(s)
    ensures (forall c :: c in s ==> c != '&' && c != '<' && c != '>') ==> QuoteXml(s) == s
  {
    ReplacesAreOneSubstitution(s);
    NoBareMarkup(s, false);
    NoGreater(s, false);
    if forall c :: c in s ==> c != '&' && c != '<' && c != '>' {
      MarkupPlain(s, false);
    }
  }

  /** The delimiter is the double quote unless the value holds one and no single quote; double quotes are replaced only in a value
    that holds both; text without markup stays as it is. */
  lemma QuoteAttribExactly(s: string)
    ensures var t := QuoteAttrib(s);
            && |t| >= 2 && t[0] == (if '"' in s && '\'' !in s then '\'' else '"') && '<' !in t && '>' !in t
            && ((forall c :: c in s ==> c != '&' && c != '<' && c != '>') && !HasBoth(s) ==> t[1..|t| - 1] == s)
  {
    QuoteAttribShape(s);
    NoBareMarkup(s, HasBoth(s));
    NoGreater(s, HasBoth(s));
    var t, m := QuoteAttrib(s), Markup(s, HasBoth(s));
    assert t[1..|t| - 1] == m;
    assert forall c :: c in t ==> c == t[0] || c in m;
    if (forall c :: c in s ==> c != '&' && c != '<' && c != '>') && !HasBoth(s) {
      MarkupPlain(s, false);
    }
  }

  // ---------- escape_string ----------

  function LiteralOf(c: char): string { if c == '\\' then "\\\\" else if c == '\'' then "\\'" else [c] }

  lemma EscapeStringOneChar(c: char)
    ensures EscapeString([c]) == LiteralOf(c)
  {
    ReplaceChar(c, '\\', "\\\\");
    if c == '\\' {
      ReplaceAbsent("\\\\", '\'', "\\'");
    } else {
      ReplaceChar(c, '\'', "\\'");
    }
  }

  lemma EscapeStringStep(s: string)
    requires s != ""
    ensures EscapeString(s) == LiteralOf(s[0]) + EscapeString(s[1..])
  {
    var c, rest := [s[0]], s[1..];
    assert s == c + rest;
    EscapeStringOneChar(s[0]);
    ReplaceConcat(c, rest, '\\', "\\\\");
    ReplaceConcat(Replace(c, '\\', "\\\\"), Replace(rest, '\\', "\\\\"), '\'', "\\'");
  }

  lemma ReadOneLiteral(c: char, tail: string)
    ensures ReadLiteral(LiteralOf(c) + tail) == Prepend(c, ReadLiteral(tail))
  {
    var m := LiteralOf(c);
    assert (m + tail)[|m|..] == tail && (m + tail)[0] == m[0];
    assert |m| == 2 ==> (m + tail)[1] == m[1];
  }

  lemma CloseLiteral(m: string, e: string, rest: string)
    ensures m + e + "'" + rest == m + (e + "'" + rest)
  {
  }

  /** Text without quotes and backslashes stays as it is. */
  lemma EscapeStringPlain(s: string)
    requires '\\' !in s && '\'' !in s
    ensures EscapeString(s) == s
  {
    ReplaceAbsent(s, '\\', "\\\\");
    ReplaceAbsent(s, '\'', "\\'");
  }

  /** Between single quotes, the escaped text is one whole Python literal with the original as its value. */
  lemma {:induction false} EscapeStringReadBack(s: string, rest: string)
    ensures ReadLiteral(EscapeString(s) + "'" + rest) == Some(Token(s, rest))
  {
    if s == "" {
      assert EscapeString(s) + "'" + rest == "'" + rest;
    } else {
      EscapeStringReadBack(s[1..], rest);
      EscapeStringStep(s);
      ReadOneLiteral(s[0], EscapeString(s[1..]) + "'" + rest);
      CloseLiteral(LiteralOf(s[0]), EscapeString(s[1..]), rest);
      assert s == [s[0]] + s[1..];
    }
  }
}
