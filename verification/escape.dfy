/**
 The two text escapers of the bot: Python's `html.escape` (quote=True), applied to
 every field of a rendered item, and `escape_md`, the Markdown escaper.
 */
module Escape {
  import opened Strings

  /** The entity `html.escape` substitutes for one character. */
  function EscapeChar(c: char): string {
    if c == '&' then "&amp;"
    else if c == '<' then "&lt;"
    else if c == '>' then "&gt;"
    else if c == '"' then "&quot;"
    else if c == '\'' then "&#x27;"
    else [c]
  }

  /**
   `html.escape(s)` as CPython writes it: five successive `str.replace` calls,
   ampersand first.
   */
  function HtmlEscape(s: string): string {
    var s1 := ReplaceAll(s, "&", "&amp;");
    var s2 := ReplaceAll(s1, "<", "&lt;");
    var s3 := ReplaceAll(s2, ">", "&gt;");
    var s4 := ReplaceAll(s3, "\"", "&quot;");
    ReplaceAll(s4, "'", "&#x27;")
  }

  /** Reference definition: every character replaced by its own entity, independently. */
  function EscapeEach(s: string): string
    decreases |s|
  {
    if |s| == 0 then "" else EscapeChar(s[0]) + EscapeEach(s[1..])
  }

  lemma HtmlEscapeAppend(a: string, b: string)
    ensures HtmlEscape(a + b) == HtmlEscape(a) + HtmlEscape(b)
  {
    ReplaceCharAppend(a, b, '&', "&amp;");
    var a1, b1 := ReplaceAll(a, "&", "&amp;"), ReplaceAll(b, "&", "&amp;");
    ReplaceCharAppend(a1, b1, '<', "&lt;");
    var a2, b2 := ReplaceAll(a1, "<", "&lt;"), ReplaceAll(b1, "<", "&lt;");
    ReplaceCharAppend(a2, b2, '>', "&gt;");
    var a3, b3 := ReplaceAll(a2, ">", "&gt;"), ReplaceAll(b2, ">", "&gt;");
    ReplaceCharAppend(a3, b3, '"', "&quot;");
    var a4, b4 := ReplaceAll(a3, "\"", "&quot;"), ReplaceAll(b3, "\"", "&quot;");
    ReplaceCharAppend(a4, b4, '\'', "&#x27;");
  }

  lemma ReplaceSingle(c: char, rep: string)
    ensures ReplaceAll([c], [c], rep) == rep
  {
    ReplaceAllHead("", [c], rep);
    assert [c] + "" == [c];
    assert rep + "" == rep;
  }

  /** `HtmlEscape` spelled out as its five steps, each given as a hypothesis. */
  lemma Steps(s: string, s1: string, s2: string, s3: string, s4: string, s5: string)
    requires s1 == ReplaceAll(s, "&", "&amp;")
    requires s2 == ReplaceAll(s1, "<", "&lt;")
    requires s3 == ReplaceAll(s2, ">", "&gt;")
    requires s4 == ReplaceAll(s3, "\"", "&quot;")
    requires s5 == ReplaceAll(s4, "'", "&#x27;")
    ensures HtmlEscape(s) == s5
  {
  }

  lemma EscapeAmp()
    ensures HtmlEscape("&") == "&amp;"
  {
    var e := "&amp;";
    ReplaceSingle('&', e);
    ReplaceAllNone(e, "<", "&lt;");
    ReplaceAllNone(e, ">", "&gt;");
    ReplaceAllNone(e, "\"", "&quot;");
    ReplaceAllNone(e, "'", "&#x27;");
    Steps("&", e, e, e, e, e);
  }

  lemma EscapeLt()
    ensures HtmlEscape("<") == "&lt;"
  {
    var e := "&lt;";
    ReplaceAllNone("<", "&", "&amp;");
    ReplaceSingle('<', e);
    ReplaceAllNone(e, ">", "&gt;");
    ReplaceAllNone(e, "\"", "&quot;");
    ReplaceAllNone(e, "'", "&#x27;");
    Steps("<", "<", e, e, e, e);
  }

  lemma EscapeGt()
    ensures HtmlEscape(">") == "&gt;"
  {
    var e := "&gt;";
    ReplaceAllNone(">", "&", "&amp;");
    ReplaceAllNone(">", "<", "&lt;");
    ReplaceSingle('>', e);
    ReplaceAllNone(e, "\"", "&quot;");
    ReplaceAllNone(e, "'", "&#x27;");
    Steps(">", ">", ">", e, e, e);
  }

  lemma EscapeQuot()
    ensures HtmlEscape("\"") == "&quot;"
  {
    var e := "&quot;";
    ReplaceAllNone("\"", "&", "&amp;");
    ReplaceAllNone("\"", "<", "&lt;");
    ReplaceAllNone("\"", ">", "&gt;");
    ReplaceSingle('"', e);
    ReplaceAllNone(e, "'", "&#x27;");
    Steps("\"", "\"", "\"", "\"", e, e);
  }

  lemma EscapeApos()
    ensures HtmlEscape("'") == "&#x27;"
  {
    ReplaceAllNone("'", "&", "&amp;");
    ReplaceAllNone("'", "<", "&lt;");
    ReplaceAllNone("'", ">", "&gt;");
    ReplaceAllNone("'", "\"", "&quot;");
    ReplaceSingle('\'', "&#x27;");
    Steps("'", "'", "'", "'", "'", "&#x27;");
  }

  lemma EscapePlain(c: char)
    requires c != '&' && !IsMarkup(c)
    ensures HtmlEscape([c]) == [c]
  {
    ReplaceAllNone([c], "&", "&amp;");
    ReplaceAllNone([c], "<", "&lt;");
    ReplaceAllNone([c], ">", "&gt;");
    ReplaceAllNone([c], "\"", "&quot;");
    ReplaceAllNone([c], "'", "&#x27;");
    Steps([c], [c], [c], [c], [c], [c]);
  }

  lemma HtmlEscapeOneChar(c: char)
    ensures HtmlEscape([c]) == EscapeChar(c)
  {
    if c == '&' {
      EscapeAmp();
    } else if c == '<' {
      EscapeLt();
    } else if c == '>' {
      EscapeGt();
    } else if c == '"' {
      EscapeQuot();
    } else if c == '\'' {
      EscapeApos();
    } else {
      EscapePlain(c);
    }
  }

  /** The five sequential replacements act exactly as a per-character substitution. */
  lemma {:induction false} HtmlEscapeIsPerChar(s: string)
    ensures HtmlEscape(s) == EscapeEach(s)
    decreases |s|
  {
    if |s| == 0 {
      assert ReplaceAll(s, "&", "&amp;") == "";
    } else {
      assert s == [s[0]] + s[1..];
      HtmlEscapeAppend([s[0]], s[1..]);
      HtmlEscapeOneChar(s[0]);
      HtmlEscapeIsPerChar(s[1..]);
    }
  }

  /** Characters that are markup-significant inside an HTML message. */
  predicate IsMarkup(c: char) {
    c == '<' || c == '>' || c == '"' || c == '\''
  }

  lemma {:induction false} EscapeEachNoMarkup(s: string)
    ensures forall i :: 0 <= i < |EscapeEach(s)| ==> !IsMarkup(EscapeEach(s)[i])
    decreases |s|
  {
    if |s| > 0 {
      EscapeEachNoMarkup(s[1..]);
      var e, r := EscapeChar(s[0]), EscapeEach(s[1..]);
      assert EscapeEach(s) == e + r;
      forall i | 0 <= i < |e + r|
        ensures !IsMarkup((e + r)[i])
      {
        if i >= |e| {
          assert (e + r)[i] == r[i - |e|];
        }
      }
    }
  }

  /** Escaped text carries no `<`, `>`, `"` or `'`, so it cannot open or close a tag. */
  lemma HtmlEscapeNoMarkup(s: string)
    ensures forall i :: 0 <= i < |HtmlEscape(s)| ==> !IsMarkup(HtmlEscape(s)[i])
  {
    HtmlEscapeIsPerChar(s);
    EscapeEachNoMarkup(s);
  }

  /** The inverse of `html.escape` on the five entities it produces. */
  function HtmlUnescape(s: string): string
    decreases |s|
  {
    if |s| == 0 then ""
    else if "&amp;" <= s then "&" + HtmlUnescape(s[5..])
    else if "&lt;" <= s then "<" + HtmlUnescape(s[4..])
    else if "&gt;" <= s then ">" + HtmlUnescape(s[4..])
    else if "&quot;" <= s then "\"" + HtmlUnescape(s[6..])
    else if "&#x27;" <= s then "'" + HtmlUnescape(s[6..])
    else [s[0]] + HtmlUnescape(s[1..])
  }

  lemma UnescapeOneChar(c: char, rest: string)
    ensures HtmlUnescape(EscapeChar(c) + rest) == [c] + HtmlUnescape(rest)
  {
    var e := EscapeChar(c);
    var s := e + rest;
    assert s[..|e|] == e;
    assert s[|e|..] == rest;
    if c == '&' {
      assert "&amp;" <= s;
    } else if c == '<' {
      assert !("&amp;" <= s) by { assert s[1] == 'l'; }
      assert "&lt;" <= s;
    } else if c == '>' {
      assert !("&amp;" <= s) && !("&lt;" <= s) by { assert s[1] == 'g'; }
      assert "&gt;" <= s;
    } else if c == '"' {
      assert !("&amp;" <= s) && !("&lt;" <= s) && !("&gt;" <= s) by { assert s[1] == 'q'; }
      assert "&quot;" <= s;
    } else if c == '\'' {
      assert !("&amp;" <= s) && !("&lt;" <= s) && !("&gt;" <= s) && !("&quot;" <= s) by { assert s[1] == '#'; }
      assert "&#x27;" <= s;
    } else {
      assert s[0] == c;
      assert s[1..] == rest;
    }
  }

  lemma {:induction false} UnescapeEach(s: string)
    ensures HtmlUnescape(EscapeEach(s)) == s
    decreases |s|
  {
    if |s| > 0 {
      UnescapeOneChar(s[0], EscapeEach(s[1..]));
      UnescapeEach(s[1..]);
      assert s == [s[0]] + s[1..];
    }
  }

  /** `html.escape` loses nothing: unescaping gives the original text back. */
  lemma HtmlEscapeRoundTrip(s: string)
    ensures HtmlUnescape(HtmlEscape(s)) == s
  {
    HtmlEscapeIsPerChar(s);
    UnescapeEach(s);
  }

  /** The characters `escape_md` prefixes with a backslash. */
  const MdSpecial: string := "\\_*[]()~`>#+-=|{}.!"

  function EscapeMdChars(s: string): string
    decreases |s|
  {
    if |s| == 0 then ""
    else (if s[0] in MdSpecial then ['\\', s[0]] else [s[0]]) + EscapeMdChars(s[1..])
  }

  /** `escape_md(text)` on a string: empty text gives "", else each special char is backslashed. */
  function EscapeMd(text: string): string {
    if text == "" then "" else EscapeMdChars(text)
  }

  /** The number of characters of `s` that `escape_md` prefixes. */
  function CountSpecial(s: string): nat
    decreases |s|
  {
    if |s| == 0 then 0 else (if s[0] in MdSpecial then 1 else 0) + CountSpecial(s[1..])
  }

  /** Drops the backslash in front of each escaped character. */
  function UnescapeMd(s: string): string
    decreases |s|
  {
    if |s| == 0 then ""
    else if s[0] == '\\' && |s| >= 2 then [s[1]] + UnescapeMd(s[2..])
    else [s[0]] + UnescapeMd(s[1..])
  }

  lemma {:induction false} EscapeMdCharsFacts(s: string)
    ensures UnescapeMd(EscapeMdChars(s)) == s
    ensures |EscapeMdChars(s)| == |s| + CountSpecial(s)
    decreases |s|
  {
    if |s| > 0 {
      EscapeMdCharsFacts(s[1..]);
      var e, r := (if s[0] in MdSpecial then ['\\', s[0]] else [s[0]]), EscapeMdChars(s[1..]);
      assert EscapeMdChars(s) == e + r;
      if s[0] in MdSpecial {
        assert (e + r)[2..] == r;
      } else {
        assert s[0] != '\\';
        assert (e + r)[1..] == r;
      }
      assert s == [s[0]] + s[1..];
    }
  }

  /** `escape_md` is undone by `UnescapeMd` and adds one character per special character. */
  lemma EscapeMdRoundTrip(text: string)
    ensures UnescapeMd(EscapeMd(text)) == text
    ensures |EscapeMd(text)| == |text| + CountSpecial(text)
  {
    EscapeMdCharsFacts(text);
  }
}
