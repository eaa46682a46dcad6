/** `escapeHtml`: the replace chain that makes dish, stage and note text safe
    to splice into markup. The ampersand is replaced first, so the entities
    introduced by the later replacements are not escaped a second time. */
module Escape {

  /** `s.replaceAll(c, rep)` for a one-character pattern. */
  function ReplaceAll(s: string, c: char, rep: string): (r: string)
    ensures c !in s ==> r == s
  {
    if s == [] then [] else (if s[0] == c then rep else [s[0]]) + ReplaceAll(s[1..], c, rep)
  }

  /** `escapeHtml(str)`, in the order the chain applies the replacements. */
  function EscapeHtml(s: string): (r: string)
    ensures (forall k :: 0 <= k < |s| ==> s[k] !in "&<>\"'") ==> r == s
  {
    var amp := ReplaceAll(s, '&', "&amp;");
    var lt := ReplaceAll(amp, '<', "&lt;");
    var gt := ReplaceAll(lt, '>', "&gt;");
    var quot := ReplaceAll(gt, '"', "&quot;");
    ReplaceAll(quot, '\'', "&#039;")
  }

  /** The characters that would end an attribute value or open a tag. */
  predicate IsMarkup(c: char)
  {
    c == '<' || c == '>' || c == '"' || c == '\''
  }

  /** The entity each character becomes, taken one character at a time. */
  function EscapeChar(c: char): (r: string)
    ensures forall k :: 0 <= k < |r| ==> !IsMarkup(r[k])
  {
    if c == '&' then "&amp;"
    else if c == '<' then "&lt;"
    else if c == '>' then "&gt;"
    else if c == '"' then "&quot;"
    else if c == '\'' then "&#039;"
    else [c]
  }

  function EscapeEach(s: string): (r: string)
    ensures forall k :: 0 <= k < |r| ==> !IsMarkup(r[k])
  {
    if s == [] then [] else EscapeChar(s[0]) + EscapeEach(s[1..])
  }

  /** How a browser reads the escaped text back: each of the five entities
      stands for its character, anything else for itself. */
  function Unescape(s: string): string
    decreases |s|
  {
    if s == [] then []
    else if "&amp;" <= s then "&" + Unescape(s[5..])
    else if "&lt;" <= s then "<" + Unescape(s[4..])
    else if "&gt;" <= s then ">" + Unescape(s[4..])
    else if "&quot;" <= s then "\"" + Unescape(s[6..])
    else if "&#039;" <= s then "'" + Unescape(s[6..])
    else [s[0]] + Unescape(s[1..])
  }

  lemma {:induction false} ReplaceAllAppend(a: string, b: string, c: char, rep: string)
    ensures ReplaceAll(a + b, c, rep) == ReplaceAll(a, c, rep) + ReplaceAll(b, c, rep)
    decreases |a|
  {
    if a == [] {
      assert a + b == b;
    } else {
      assert (a + b)[0] == a[0] && (a + b)[1..] == a[1..] + b;
      ReplaceAllAppend(a[1..], b, c, rep);
    }
  }

  lemma EscapeHtmlAppend(a: string, b: string)
    ensures EscapeHtml(a + b) == EscapeHtml(a) + EscapeHtml(b)
  {
    var a1, b1 := ReplaceAll(a, '&', "&amp;"), ReplaceAll(b, '&', "&amp;");
    ReplaceAllAppend(a, b, '&', "&amp;");
    var a2, b2 := ReplaceAll(a1, '<', "&lt;"), ReplaceAll(b1, '<', "&lt;");
    ReplaceAllAppend(a1, b1, '<', "&lt;");
    var a3, b3 := ReplaceAll(a2, '>', "&gt;"), ReplaceAll(b2, '>', "&gt;");
    ReplaceAllAppend(a2, b2, '>', "&gt;");
    var a4, b4 := ReplaceAll(a3, '"', "&quot;"), ReplaceAll(b3, '"', "&quot;");
    ReplaceAllAppend(a3, b3, '"', "&quot;");
    ReplaceAllAppend(a4, b4, '\'', "&#039;");
  }

  lemma ReplaceAllSingle(c: char, p: char, rep: string)
    ensures ReplaceAll([c], p, rep) == if c == p then rep else [c]
  {
    assert [c][1..] == [];
  }

  /** The tail of the chain after the ampersand step. */
  function EscapeRest(s: string): string
  {
    ReplaceAll(ReplaceAll(ReplaceAll(ReplaceAll(s, '<', "&lt;"), '>', "&gt;"), '"', "&quot;"), '\'', "&#039;")
  }

  lemma EscapeRestPlain(s: string)
    requires '<' !in s && '>' !in s && '"' !in s && '\'' !in s
    ensures EscapeRest(s) == s
  {
  }

  lemma AfterLtPlain(s: string)
    requires '>' !in s && '"' !in s && '\'' !in s
    ensures ReplaceAll(ReplaceAll(ReplaceAll(s, '>', "&gt;"), '"', "&quot;"), '\'', "&#039;") == s
  {
  }

  lemma AfterGtPlain(s: string)
    requires '"' !in s && '\'' !in s
    ensures ReplaceAll(ReplaceAll(s, '"', "&quot;"), '\'', "&#039;") == s
  {
  }

  lemma EscapeAmp()
    ensures EscapeHtml("&") == "&amp;"
  {
    ReplaceAllSingle('&', '&', "&amp;");
    EscapeRestPlain("&amp;");
  }

  lemma EscapeLt()
    ensures EscapeHtml("<") == "&lt;"
  {
    ReplaceAllSingle('<', '&', "&amp;");
    ReplaceAllSingle('<', '<', "&lt;");
    var lt := ReplaceAll(ReplaceAll("<", '&', "&amp;"), '<', "&lt;");
    assert lt == "&lt;";
    AfterLtPlain(lt);
  }

  lemma EscapeGt()
    ensures EscapeHtml(">") == "&gt;"
  {
    ReplaceAllSingle('>', '&', "&amp;");
    ReplaceAllSingle('>', '<', "&lt;");
    ReplaceAllSingle('>', '>', "&gt;");
    var gt := ReplaceAll(ReplaceAll(ReplaceAll(">", '&', "&amp;"), '<', "&lt;"), '>', "&gt;");
    assert gt == "&gt;";
    AfterGtPlain(gt);
  }

  lemma EscapeQuot()
    ensures EscapeHtml("\"") == "&quot;"
  {
    ReplaceAllSingle('"', '&', "&amp;");
    ReplaceAllSingle('"', '<', "&lt;");
    ReplaceAllSingle('"', '>', "&gt;");
    ReplaceAllSingle('"', '"', "&quot;");
    assert '\'' !in "&quot;";
  }

  lemma EscapeApos()
    ensures EscapeHtml("'") == "&#039;"
  {
    ReplaceAllSingle('\'', '&', "&amp;");
    ReplaceAllSingle('\'', '<', "&lt;");
    ReplaceAllSingle('\'', '>', "&gt;");
    ReplaceAllSingle('\'', '"', "&quot;");
    ReplaceAllSingle('\'', '\'', "&#039;");
  }

  lemma EscapeHtmlChar(c: char)
    ensures EscapeHtml([c]) == EscapeChar(c)
  {
    if c == '&' {
      EscapeAmp();
    } else if c == '<' {
      EscapeLt();
    } else if c == '>' {
      EscapeGt();
    } else if c == '"' {
      EscapeQuot();
    } else if c == '\'' {
      EscapeApos();
    } else {
      assert '&' !in [c];
      EscapeRestPlain([c]);
    }
  }

  /** The replace chain escapes each character on its own: because `&` goes
      first, no entity produced by a later step is escaped again. */
  lemma {:induction false} EscapeHtmlPerChar(s: string)
    ensures EscapeHtml(s) == EscapeEach(s)
    decreases |s|
  {
    if s == [] {
      assert EscapeHtml(s) == [];
    } else {
      assert s == [s[0]] + s[1..];
      EscapeHtmlAppend([s[0]], s[1..]);
      EscapeHtmlChar(s[0]);
      EscapeHtmlPerChar(s[1..]);
    }
  }

  lemma UnescapeStep(c: char, rest: string)
    ensures Unescape(EscapeChar(c) + rest) == [c] + Unescape(rest)
  {
    if c == '&' {
      UnescapeEntity("&amp;", rest);
    } else if c == '<' {
      UnescapeEntity("&lt;", rest);
    } else if c == '>' {
      UnescapeEntity("&gt;", rest);
    } else if c == '"' {
      UnescapeEntity("&quot;", rest);
    } else if c == '\'' {
      UnescapeEntity("&#039;", rest);
    } else {
      var e := [c] + rest;
      assert e[0] == c && e[1..] == rest;
      assert !("&amp;" <= e) && !("&lt;" <= e) && !("&gt;" <= e) && !("&quot;" <= e) && !("&#039;" <= e) by {
        if c != '&' { assert e[0] != '&'; }
      }
    }
  }

  /** An entity followed by more text reads back as its character. */
  lemma UnescapeEntity(ent: string, rest: string)
    requires ent in ["&amp;", "&lt;", "&gt;", "&quot;", "&#039;"]
    ensures Unescape(ent + rest) == [Unescaped(ent)] + Unescape(rest)
  {
    var e := ent + rest;
    assert e[..|ent|] == ent && e[|ent|..] == rest;
    assert e[1] == ent[1];
  }

  /** The character each of the five entities stands for. */
  function Unescaped(ent: string): char
  {
    if ent == "&amp;" then '&'
    else if ent == "&lt;" then '<'
    else if ent == "&gt;" then '>'
    else if ent == "&quot;" then '"'
    else '\''
  }

  /** Reading the escaped text back gives the original text: nothing is lost
      or doubled by the escaping. */
  lemma {:induction false} UnescapeEscapeHtml(s: string)
    ensures Unescape(EscapeHtml(s)) == s
    decreases |s|
  {
    EscapeHtmlPerChar(s);
    if s != [] {
      UnescapeStep(s[0], EscapeEach(s[1..]));
      EscapeHtmlPerChar(s[1..]);
      UnescapeEscapeHtml(s[1..]);
    }
  }

  /** The escaped text has no markup characters left in it. */
  lemma EscapeHtmlNoMarkup(s: string)
    ensures forall k :: 0 <= k < |EscapeHtml(s)| ==> !IsMarkup(EscapeHtml(s)[k])
  {
    EscapeHtmlPerChar(s);
  }
}
