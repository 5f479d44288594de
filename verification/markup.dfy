/**
 The bold tags of a rendered message and their removal on the plain-text fallback
 path of the sender.
 */
module Markup {
  import opened Strings

  /** The fallback text of a piece: `chunk.replace('<b>', '').replace('</b>', '')`. */
  function StripBold(chunk: string): string {
    ReplaceAll(ReplaceAll(chunk, "<b>", ""), "</b>", "")
  }

  lemma OpenTagAfter(pre: string, rest: string)
    requires '<' !in pre
    ensures ReplaceAll(pre + ("<b>" + rest), "<b>", "") == pre + ReplaceAll(rest, "<b>", "")
  {
    ReplaceAllSkip(pre, "<b>" + rest, "<b>", "");
    ReplaceAllHead(rest, "<b>", "");
  }

  lemma CloseTagKept(rest: string)
    requires '<' !in rest
    ensures ReplaceAll("</b>" + rest, "<b>", "") == "</b>" + rest
  {
    var t := "</b>" + rest;
    assert !("<b>" <= t) by { assert t[1] == '/'; }
    assert t[1..] == "/b>" + rest;
    ReplaceAllNone("/b>" + rest, "<b>", "");
  }

  lemma CloseTagRemoved(rest: string)
    requires '<' !in rest
    ensures ReplaceAll("</b>" + rest, "</b>", "") == rest
  {
    ReplaceAllHead(rest, "</b>", "");
    ReplaceAllNone(rest, "</b>", "");
  }

  lemma FirstPass(pre: string, x: string, rest: string)
    requires '<' !in pre && '<' !in x && '<' !in rest
    ensures ReplaceAll(pre + ("<b>" + (x + ("</b>" + rest))), "<b>", "") == pre + (x + ("</b>" + rest))
  {
    OpenTagAfter(pre, x + ("</b>" + rest));
    CloseTagKept(rest);
    ReplaceAllSkip(x, "</b>" + rest, "<b>", "");
  }

  lemma SecondPass(pre: string, x: string, rest: string)
    requires '<' !in pre && '<' !in x && '<' !in rest
    ensures ReplaceAll(pre + (x + ("</b>" + rest)), "</b>", "") == pre + (x + rest)
  {
    ReplaceAllSkip(pre, x + ("</b>" + rest), "</b>", "");
    ReplaceAllSkip(x, "</b>" + rest, "</b>", "");
    CloseTagRemoved(rest);
  }

  /** Stripping the bold tags around a `<`-free name inside `<`-free text leaves the text without them. */
  lemma StripBoldEmphasis(pre: string, x: string, rest: string)
    requires '<' !in pre && '<' !in x && '<' !in rest
    ensures StripBold(pre + ("<b>" + (x + ("</b>" + rest)))) == pre + (x + rest)
  {
    FirstPass(pre, x, rest);
    SecondPass(pre, x, rest);
  }

  /** A `<`-free prefix passes through the fallback unchanged. */
  lemma StripBoldSkip(a: string, b: string)
    requires '<' !in a
    ensures StripBold(a + b) == a + StripBold(b)
  {
    ReplaceAllSkip(a, b, "<b>", "");
    ReplaceAllSkip(a, ReplaceAll(b, "<b>", ""), "</b>", "");
  }

  lemma CloseTagPassesFirst(rest: string)
    ensures ReplaceAll("</b>" + rest, "<b>", "") == "</b>" + ReplaceAll(rest, "<b>", "")
  {
    var t := "</b>" + rest;
    assert !("<b>" <= t) by { assert t[1] == '/'; }
    assert t[1..] == "/b>" + rest;
    ReplaceAllSkip("/b>", rest, "<b>", "");
  }

  /** One emphasised name at the front: its tags go, and the fallback goes on over what follows. */
  lemma StripBoldBlock(pre: string, x: string, rest: string)
    requires '<' !in pre && '<' !in x
    ensures StripBold(pre + ("<b>" + (x + ("</b>" + rest)))) == pre + (x + StripBold(rest))
  {
    var r := ReplaceAll(rest, "<b>", "");
    OpenTagAfter(pre, x + ("</b>" + rest));
    ReplaceAllSkip(x, "</b>" + rest, "<b>", "");
    CloseTagPassesFirst(rest);
    ReplaceAllSkip(pre, x + ("</b>" + r), "</b>", "");
    ReplaceAllSkip(x, "</b>" + r, "</b>", "");
    ReplaceAllHead(r, "</b>", "");
  }

  /** An emphasised block, a separator, then more text: the block loses its tags and the fallback goes on. */
  lemma StripBoldBlockThen(pre: string, x: string, body: string, sep: string, more: string)
    requires '<' !in pre && '<' !in x && '<' !in body && '<' !in sep
    ensures StripBold(pre + ("<b>" + (x + ("</b>" + body))) + sep + more)
         == pre + (x + body) + sep + StripBold(more)
  {
    assert pre + ("<b>" + (x + ("</b>" + body))) + sep + more
        == pre + ("<b>" + (x + ("</b>" + (body + sep + more))));
    StripBoldBlock(pre, x, body + sep + more);
    StripBoldSkip(body + sep, more);
    assert pre + (x + (body + sep + StripBold(more))) == pre + (x + body) + sep + StripBold(more);
  }
}
