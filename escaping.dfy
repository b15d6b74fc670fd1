/**
 * HTML escaping as performed by lodash's `escape` (re-exported by
 * `@microsoft/sp-lodash-subset`) and its inverse `unescape`.
 *
 * The library code itself is not part of this model: `Escape` below is this
 * model's definition of it, following lodash's documented table
 * `& < > " '` -> `&amp; &lt; &gt; &quot; &#39;`.
 */
module Escaping {

  /** Characters that open or close a tag or end an attribute value. */
  predicate IsMarkup(c: char) {
    c == '<' || c == '>' || c == '"' || c == '\''
  }

  /** Characters `escape` replaces: the markup characters and `&`. */
  predicate IsSpecial(c: char) {
    IsMarkup(c) || c == '&'
  }

  /** True when `s` has no character `escape` would replace. */
  predicate Plain(s: string) {
    forall i :: 0 <= i < |s| ==> !IsSpecial(s[i])
  }

  /** True when no character of `s` is a markup character. */
  predicate Inert(s: string) {
    forall i :: 0 <= i < |s| ==> !IsMarkup(s[i])
  }

  /** The entity `escape` writes in place of a special character. */
  function Entity(c: char): (e: string)
    requires IsSpecial(c)
    ensures 4 <= |e| <= 6 && e[0] == '&' && e[|e| - 1] == ';'
    ensures Inert(e)
  {
    if c == '&' then "&amp;"
    else if c == '<' then "&lt;"
    else if c == '>' then "&gt;"
    else if c == '"' then "&quot;"
    else "&#39;"
  }

  /** lodash `escape`: every special character replaced by its entity. */
  function Escape(s: string): (r: string)
    ensures Inert(r)
    ensures |s| <= |r| <= 6 * |s|
  {
    if s == [] then []
    else (if IsSpecial(s[0]) then Entity(s[0]) else [s[0]]) + Escape(s[1..])
  }

  /** Plain text is left as it is. */
  lemma {:induction false} EscapePlain(s: string)
    requires Plain(s)
    ensures Escape(s) == s
  {
    if s != [] {
      EscapePlain(s[1..]);
    }
  }

  /** Escaping works character by character, so it distributes over concatenation. */
  lemma {:induction false} EscapeAppend(a: string, b: string)
    ensures Escape(a + b) == Escape(a) + Escape(b)
  {
    if a == [] {
      assert a + b == b;
    } else {
      assert (a + b)[0] == a[0] && (a + b)[1..] == a[1..] + b;
      EscapeAppend(a[1..], b);
    }
  }

  lemma EscapeOpenTag(w: string)
    requires Plain(w)
    ensures Escape("<" + w + ">") == "&lt;" + w + "&gt;"
  {
    EscapePlain(w);
    EscapeAppend("<", w);
    assert Escape("<" + w) == "&lt;" + w;
    EscapeAppend("<" + w, ">");
  }

  lemma EscapeCloseTag(w: string)
    requires Plain(w)
    ensures Escape("</" + w + ">") == "&lt;/" + w + "&gt;"
  {
    EscapePlain(w);
    assert Escape("</") == "&lt;/" by {
      EscapeAppend("<", "/");
    }
    EscapeAppend("</", w);
    assert Escape("</" + w) == "&lt;/" + w;
    EscapeAppend("</" + w, ">");
  }

  /**
   * An element written as text, `<w>body</w>`, escapes to its entity form:
   * the tags become visible characters instead of markup.
   */
  lemma EscapeElement(w: string, body: string)
    requires Plain(w) && Plain(body)
    ensures Escape("<" + w + ">" + body + "</" + w + ">")
         == "&lt;" + w + "&gt;" + body + "&lt;/" + w + "&gt;"
  {
    var open, close := "<" + w + ">", "</" + w + ">";
    EscapeOpenTag(w);
    EscapeCloseTag(w);
    EscapePlain(body);
    EscapeAppend(open, body);
    EscapeAppend(open + body, close);
    assert "<" + w + ">" + body + "</" + w + ">" == open + body + close;
    assert "&lt;" + w + "&gt;" + body + "&lt;/" + w + "&gt;" == Escape(open) + Escape(body) + Escape(close);
  }

  /** lodash `unescape`: each of the five entities turned back into its character. */
  function Unescape(s: string): (r: string)
    ensures |r| <= |s|
  {
    if s == [] then []
    else if "&amp;" <= s then "&" + Unescape(s[5..])
    else if "&lt;" <= s then "<" + Unescape(s[4..])
    else if "&gt;" <= s then ">" + Unescape(s[4..])
    else if "&quot;" <= s then "\"" + Unescape(s[6..])
    else if "&#39;" <= s then "'" + Unescape(s[5..])
    else [s[0]] + Unescape(s[1..])
  }

  /** Unescaping one escaped character in front of any text gives the character back. */
  lemma UnescapeOne(c: char, rest: string)
    ensures Unescape((if IsSpecial(c) then Entity(c) else [c]) + rest) == [c] + Unescape(rest)
  {
    if IsSpecial(c) {
      var e := Entity(c);
      var s := e + rest;
      assert s[..|e|] == e && s[|e|..] == rest;
      assert s[1] == e[1];
      if c != '&' {
        assert s[1] != 'a';
      }
    } else {
      var s := [c] + rest;
      assert s[0] == c && s[1..] == rest;
    }
  }

  /** Escaping loses nothing: `unescape(escape(s)) == s`. */
  lemma {:induction false} UnescapeEscape(s: string)
    ensures Unescape(Escape(s)) == s
  {
    if s != [] {
      UnescapeOne(s[0], Escape(s[1..]));
      UnescapeEscape(s[1..]);
      assert [s[0]] + s[1..] == s;
    }
  }

  /** Different texts never escape to the same markup. */
  lemma EscapeInjective(s: string, t: string)
    requires Escape(s) == Escape(t)
    ensures s == t
  {
    UnescapeEscape(s);
    UnescapeEscape(t);
  }

}
