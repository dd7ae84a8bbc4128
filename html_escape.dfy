/**
 * `escapeHtml` and `unescapeHtml` from frontend/script.js: a global regular-expression
 * replacement of the five HTML-special characters by their entities, and back.
 */
module HtmlEscape {

  /** The characters `escapeHtml` rewrites. */
  predicate IsSpecial(c: char) {
    c == '&' || c == '<' || c == '>' || c == '"' || c == '\''
  }

  /** The characters that may not appear raw in escaped text (everything special but `&`). */
  predicate IsMarkup(c: char) {
    c == '<' || c == '>' || c == '"' || c == '\''
  }

  /** The replacement table of `escapeHtml`. */
  function Entity(c: char): (r: string)
    requires IsSpecial(c)
  {
    match c
    case '&' => "&amp;"
    case '<' => "&lt;"
    case '>' => "&gt;"
    case '"' => "&quot;"
    case _ => "&#039;"
  }

  /** `t` begins with one of the five entities of the table. */
  predicate StartsWithEntity(t: string) {
    "&amp;" <= t || "&lt;" <= t || "&gt;" <= t || "&quot;" <= t || "&#039;" <= t
  }

  function EscapeChar(c: char): (r: string)
    ensures |r| > 0 && (r[0] == '&' ==> StartsWithEntity(r))
    ensures forall k :: 0 < k < |r| ==> r[k] != '&'
    ensures forall k :: 0 <= k < |r| ==> !IsMarkup(r[k])
  {
    if IsSpecial(c) then Entity(c) else [c]
  }

  /** `escapeHtml(text)`: each special character replaced, every other character kept. */
  function Escape(s: string): (r: string)
    ensures |r| >= |s|
    ensures forall k :: 0 <= k < |r| ==> !IsMarkup(r[k])
    decreases |s|
  {
    if s == [] then [] else EscapeChar(s[0]) + Escape(s[1..])
  }

  /**
   * `unescapeHtml(text)`: the regular expression `&amp;|&lt;|&gt;|&quot;|&#039;` scans from
   * the left; at a match the entity is replaced and the scan resumes after it, otherwise one
   * character is kept.
   */
  function Unescape(t: string): (r: string)
    ensures |r| <= |t|
    ensures (forall k :: 0 <= k < |t| ==> t[k] != '&') ==> r == t
    decreases |t|
  {
    if t == [] then []
    else if "&amp;" <= t then assert t[0] == "&amp;"[0]; "&" + Unescape(t[5..])
    else if "&lt;" <= t then assert t[0] == "&lt;"[0]; "<" + Unescape(t[4..])
    else if "&gt;" <= t then assert t[0] == "&gt;"[0]; ">" + Unescape(t[4..])
    else if "&quot;" <= t then assert t[0] == "&quot;"[0]; "\"" + Unescape(t[6..])
    else if "&#039;" <= t then assert t[0] == "&#039;"[0]; "'" + Unescape(t[6..])
    else [t[0]] + Unescape(t[1..])
  }

  /** Every `&` in escaped text is the start of one of the five entities. */
  lemma {:induction false} EscapeAmpersandsBeginEntities(s: string)
    ensures forall k :: 0 <= k < |Escape(s)| && Escape(s)[k] == '&' ==> StartsWithEntity(Escape(s)[k..])
    decreases |s|
  {
    if s != [] {
      var head, tail := EscapeChar(s[0]), Escape(s[1..]);
      EscapeAmpersandsBeginEntities(s[1..]);
      assert Escape(s) == head + tail;
      forall k | 0 <= k < |head + tail| && (head + tail)[k] == '&'
        ensures StartsWithEntity((head + tail)[k..])
      {
        if k < |head| {
          assert k == 0;
          assert head <= head + tail;
        } else {
          assert (head + tail)[k..] == tail[k - |head|..];
        }
      }
    }
  }

  /** Text with no special character passes through `escapeHtml` unchanged. */
  lemma {:induction false} EscapePlainUnchanged(s: string)
    requires forall k :: 0 <= k < |s| ==> !IsSpecial(s[k])
    ensures Escape(s) == s
    decreases |s|
  {
    if s != [] {
      EscapePlainUnchanged(s[1..]);
      assert s == [s[0]] + s[1..];
    }
  }

  /** The scan replaces an entity at the front of the text and resumes right after it. */
  lemma UnescapeAmp(t: string)
    ensures Unescape("&amp;" + t) == "&" + Unescape(t)
  {
    assert ("&amp;" + t)[5..] == t;
  }

  lemma UnescapeLt(t: string)
    ensures Unescape("&lt;" + t) == "<" + Unescape(t)
  {
    var e := "&lt;" + t;
    assert e[1] == 'l' && e[4..] == t;
  }

  lemma UnescapeGt(t: string)
    ensures Unescape("&gt;" + t) == ">" + Unescape(t)
  {
    var e := "&gt;" + t;
    assert e[1] == 'g' && e[4..] == t;
  }

  lemma UnescapeQuot(t: string)
    ensures Unescape("&quot;" + t) == "\"" + Unescape(t)
  {
    var e := "&quot;" + t;
    assert e[1] == 'q' && e[6..] == t;
  }

  lemma UnescapeApos(t: string)
    ensures Unescape("&#039;" + t) == "'" + Unescape(t)
  {
    var e := "&#039;" + t;
    assert e[1] == '#' && e[6..] == t;
  }

  /** Unescaping one escaped character recovers it and leaves the rest of the scan untouched. */
  lemma UnescapeEscapedChar(c: char, t: string)
    ensures Unescape(EscapeChar(c) + t) == [c] + Unescape(t)
  {
    if c == '&' {
      UnescapeAmp(t);
    } else if c == '<' {
      UnescapeLt(t);
    } else if c == '>' {
      UnescapeGt(t);
    } else if c == '"' {
      UnescapeQuot(t);
    } else if c == '\'' {
      UnescapeApos(t);
    } else {
      var e := [c] + t;
      assert e[0] == c && e[1..] == t;
    }
  }

  /** `unescapeHtml(escapeHtml(s)) == s` for every string: the two tables are inverse. */
  lemma {:induction false} UnescapeEscape(s: string)
    ensures Unescape(Escape(s)) == s
    decreases |s|
  {
    if s != [] {
      UnescapeEscapedChar(s[0], Escape(s[1..]));
      UnescapeEscape(s[1..]);
      assert s == [s[0]] + s[1..];
    }
  }

  /** Hence `escapeHtml` never maps two different texts to the same markup. */
  lemma EscapeInjective(s: string, s': string)
    requires Escape(s) == Escape(s')
    ensures s == s'
  {
    UnescapeEscape(s);
    UnescapeEscape(s');
  }
}
