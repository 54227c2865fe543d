/**
 * Escaping the copy text for the JavaScript template literal of the copy
 * button: `text.replace('\\', '\\\\').replace('`', '\\`').replace('$', '\\$')`.
 */
module JsEscape {
  import opened Wrappers

  /** `s.replace(c, rep)` for a one-character pattern. */
  function ReplaceChar(s: string, c: char, rep: string): (r: string)
    ensures c !in rep ==> c !in r
  {
    if s == [] then []
    else (if s[0] == c then rep else [s[0]]) + ReplaceChar(s[1..], c, rep)
  }

  lemma {:induction false} ReplaceCharAppend(a: string, b: string, c: char, rep: string)
    ensures ReplaceChar(a + b, c, rep) == ReplaceChar(a, c, rep) + ReplaceChar(b, c, rep)
  {
    if a != [] {
      var head := if a[0] == c then rep else [a[0]];
      assert (a + b)[0] == a[0] && (a + b)[1..] == a[1..] + b;
      assert ReplaceChar(a + b, c, rep) == head + ReplaceChar(a[1..] + b, c, rep);
      ReplaceCharAppend(a[1..], b, c, rep);
      assert ReplaceChar(a, c, rep) == head + ReplaceChar(a[1..], c, rep);
    } else {
      assert a + b == b;
    }
  }

  /** The three replacements, in the order the code applies them. */
  function EscapeTemplate(text: string): string
  {
    ReplaceChar(ReplaceChar(ReplaceChar(text, '\\', "\\\\"), '`', "\\`"), '$', "\\$")
  }

  /** The escape of one character: a backslash in front of `\`, `` ` `` and `$`. */
  function EscapeChar(c: char): string
  {
    if c == '\\' || c == '`' || c == '$' then ['\\', c] else [c]
  }

  /** A one-pass reference definition: escape each character on its own. */
  function EscapeEach(text: string): string
  {
    if text == [] then [] else EscapeChar(text[0]) + EscapeEach(text[1..])
  }

  lemma EscapeTemplateChar(c: char)
    ensures EscapeTemplate([c]) == EscapeChar(c)
  {
    assert [c][1..] == [];
    if c == '\\' {
      assert ReplaceChar([c], '\\', "\\\\") == "\\\\";
      assert ReplaceChar("\\\\", '`', "\\`") == "\\\\";
    } else if c == '`' {
      assert ReplaceChar([c], '\\', "\\\\") == [c];
      assert ReplaceChar([c], '`', "\\`") == "\\`";
      assert ReplaceChar("\\`", '$', "\\$") == "\\`";
    } else {
      assert ReplaceChar([c], '\\', "\\\\") == [c];
      assert ReplaceChar([c], '`', "\\`") == [c];
    }
  }

  /** Because backslashes are doubled first, the later passes never touch what an
      earlier pass inserted: the three passes escape each character on its own. */
  lemma {:induction false} EscapeTemplateIsEscapeEach(text: string)
    ensures EscapeTemplate(text) == EscapeEach(text)
  {
    if text != [] {
      var c, rest := text[0], text[1..];
      assert text == [c] + rest;
      var p1 := ReplaceChar([c], '\\', "\\\\");
      var q1 := ReplaceChar(rest, '\\', "\\\\");
      ReplaceCharAppend([c], rest, '\\', "\\\\");
      var p2 := ReplaceChar(p1, '`', "\\`");
      var q2 := ReplaceChar(q1, '`', "\\`");
      ReplaceCharAppend(p1, q1, '`', "\\`");
      ReplaceCharAppend(p2, q2, '$', "\\$");
      EscapeTemplateChar(c);
      EscapeTemplateIsEscapeEach(rest);
    }
  }

  /** The string value JavaScript gives a template literal body, for the escapes
      `\\`, `` \` `` and `\$`; a carriage return, alone or before a line feed, reads
      as a line feed. `None` for a body JavaScript would end early (a bare
      backtick), read as a substitution (`${`), or whose escape this model does not
      cover. */
  function TemplateValue(body: string): (r: Option<string>)
    decreases |body|
  {
    if body == [] then Some([])
    else if body[0] == '\\' then
      if |body| >= 2 && (body[1] == '\\' || body[1] == '`' || body[1] == '$') then
        match TemplateValue(body[2..])
        case Some(v) => Some([body[1]] + v)
        case None => None
      else None
    else if body[0] == '`' then None
    else if body[0] == '$' && |body| >= 2 && body[1] == '{' then None
    else if body[0] == '\r' then
      var rest := if |body| >= 2 && body[1] == '\n' then body[2..] else body[1..];
      match TemplateValue(rest)
      case Some(v) => Some(['\n'] + v)
      case None => None
    else
      match TemplateValue(body[1..])
      case Some(v) => Some([body[0]] + v)
      case None => None
  }

  /** The escaped text, placed between backticks, reads back as the original text
      whenever it holds no carriage return. */
  lemma {:induction false} TemplateValueOfEscape(text: string)
    requires '\r' !in text
    ensures TemplateValue(EscapeTemplate(text)) == Some(text)
  {
    EscapeTemplateIsEscapeEach(text);
    EscapeEachRoundTrip(text);
  }

  lemma {:induction false} EscapeEachRoundTrip(text: string)
    requires '\r' !in text
    ensures TemplateValue(EscapeEach(text)) == Some(text)
  {
    if text != [] {
      var c, rest := text[0], text[1..];
      assert '\r' !in rest;
      EscapeEachRoundTrip(rest);
      var e := EscapeEach(text);
      assert e == EscapeChar(c) + EscapeEach(rest);
      if c == '\\' || c == '`' || c == '$' {
        assert e[2..] == EscapeEach(rest);
      } else {
        assert e[1..] == EscapeEach(rest);
      }
      assert text == [c] + rest;
    }
  }
}
