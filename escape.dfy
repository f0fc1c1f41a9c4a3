/** `escapeHtml`: the sanitizer applied to every heading, method and path before
    it is spliced into the sidebar's markup. */
module Escape {

  /** The five characters that are significant in markup. */
  predicate IsMarkupSignificant(c: char) {
    c == '&' || c == '<' || c == '>' || c == '"' || c == '\''
  }

  /** The replacement the lookup table of `escapeHtml` gives one character;
      a character the pattern does not match stands for itself. */
  function Entity(c: char): (r: string)
    ensures IsMarkupSignificant(c) ==> |r| >= 4 && r[0] == '&'
    ensures !IsMarkupSignificant(c) ==> r == [c]
  {
    match c
    case '&' => "&amp;"
    case '<' => "&lt;"
    case '>' => "&gt;"
    case '"' => "&quot;"
    case '\'' => "&#39;"
    case _ => [c]
  }

  /** `escapeHtml`: every character replaced by its entity.  The result never
      holds a raw `<`, `>`, `"` or `'`. */
  function EscapeHtml(s: string): (r: string)
    ensures |r| >= |s|
    ensures forall i :: 0 <= i < |r| ==> r[i] != '<' && r[i] != '>' && r[i] != '"' && r[i] != '\''
  {
    if s == [] then [] else Entity(s[0]) + EscapeHtml(s[1..])
  }

  /** Escaping works character by character: escaping a concatenation is
      concatenating the escapes. */
  lemma {:induction false} EscapeHtmlAppend(a: string, b: string)
    ensures EscapeHtml(a + b) == EscapeHtml(a) + EscapeHtml(b)
  {
    if a != [] {
      assert (a + b)[1..] == a[1..] + b;
      EscapeHtmlAppend(a[1..], b);
    } else {
      assert a + b == b;
    }
  }

  /** A string with none of the five significant characters comes back unchanged. */
  lemma {:induction false} EscapeHtmlIdentity(s: string)
    requires forall i :: 0 <= i < |s| ==> !IsMarkupSignificant(s[i])
    ensures EscapeHtml(s) == s
  {
    if s != [] {
      EscapeHtmlIdentity(s[1..]);
    }
  }

  predicate StartsWith(s: string, p: string) {
    |p| <= |s| && s[..|p|] == p
  }

  /** A decoder for the five entities `escapeHtml` produces, scanning left to
      right; every other character, and an `&` that starts none of them, is copied. */
  function Unescape(s: string): string
    decreases |s|
  {
    if s == [] then []
    else if s[0] != '&' then [s[0]] + Unescape(s[1..])
    else if StartsWith(s, "&amp;") then "&" + Unescape(s[5..])
    else if StartsWith(s, "&lt;") then "<" + Unescape(s[4..])
    else if StartsWith(s, "&gt;") then ">" + Unescape(s[4..])
    else if StartsWith(s, "&quot;") then "\"" + Unescape(s[6..])
    else if StartsWith(s, "&#39;") then "'" + Unescape(s[5..])
    else "&" + Unescape(s[1..])
  }

  lemma UnescapeAmp(t: string)
    ensures Unescape("&amp;" + t) == "&" + Unescape(t)
  {
    var e := "&amp;" + t;
    assert StartsWith(e, "&amp;") && e[5..] == t;
  }

  lemma UnescapeLt(t: string)
    ensures Unescape("&lt;" + t) == "<" + Unescape(t)
  {
    var e := "&lt;" + t;
    assert !StartsWith(e, "&amp;") by { assert e[1] == 'l'; }
    assert StartsWith(e, "&lt;") && e[4..] == t;
  }

  lemma UnescapeGt(t: string)
    ensures Unescape("&gt;" + t) == ">" + Unescape(t)
  {
    var e := "&gt;" + t;
    assert !StartsWith(e, "&amp;") by { assert e[1] == 'g'; }
    assert !StartsWith(e, "&lt;") by { assert e[1] == 'g'; }
    assert StartsWith(e, "&gt;") && e[4..] == t;
  }

  lemma UnescapeQuot(t: string)
    ensures Unescape("&quot;" + t) == "\"" + Unescape(t)
  {
    var e := "&quot;" + t;
    assert !StartsWith(e, "&amp;") by { assert e[1] == 'q'; }
    assert !StartsWith(e, "&lt;") by { assert e[1] == 'q'; }
    assert !StartsWith(e, "&gt;") by { assert e[1] == 'q'; }
    assert StartsWith(e, "&quot;") && e[6..] == t;
  }

  lemma UnescapeApos(t: string)
    ensures Unescape("&#39;" + t) == "'" + Unescape(t)
  {
    var e := "&#39;" + t;
    assert !StartsWith(e, "&amp;") by { assert e[1] == '#'; }
    assert !StartsWith(e, "&lt;") by { assert e[1] == '#'; }
    assert !StartsWith(e, "&gt;") by { assert e[1] == '#'; }
    assert !StartsWith(e, "&quot;") by { assert e[1] == '#'; }
    assert StartsWith(e, "&#39;") && e[5..] == t;
  }

  /** Decoding undoes the entity of any one character. */
  lemma UnescapeEntity(c: char, t: string)
    ensures Unescape(Entity(c) + t) == [c] + Unescape(t)
  {
    match c
    case '&' => UnescapeAmp(t);
    case '<' => UnescapeLt(t);
    case '>' => UnescapeGt(t);
    case '"' => UnescapeQuot(t);
    case '\'' => UnescapeApos(t);
    case _ => assert ([c] + t)[1..] == t;
  }

  /** Decoding the escaped text gives back the original text: escaping loses nothing. */
  lemma {:induction false} UnescapeEscapeHtml(s: string)
    ensures Unescape(EscapeHtml(s)) == s
  {
    if s != [] {
      UnescapeEntity(s[0], EscapeHtml(s[1..]));
      UnescapeEscapeHtml(s[1..]);
    }
  }

  /** Escaping is one-to-one: two texts that escape alike are the same text. */
  lemma EscapeHtmlInjective(s: string, t: string)
    requires EscapeHtml(s) == EscapeHtml(t)
    ensures s == t
  {
    UnescapeEscapeHtml(s);
    UnescapeEscapeHtml(t);
  }
}
