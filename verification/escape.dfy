/** The client's `escapeHtml`: every character of a fixed set of five is
    replaced by its HTML entity, every other character is copied. */
module HtmlEscape {

  /** The five characters the replacement pattern `[&<>"']` matches. */
  predicate Special(c: char) {
    c == '&' || c == '<' || c == '>' || c == '"' || c == '\''
  }

  /** The replacement table, extended with the identity on other characters. */
  function Entity(c: char): (r: string)
    ensures Special(c) ==> |r| > 1 && r[0] == '&' && r[|r| - 1] == ';'
    ensures !Special(c) ==> r == [c]
  {
    match c
    case '&' => "&amp;"
    case '<' => "&lt;"
    case '>' => "&gt;"
    case '"' => "&quot;"
    case '\'' => "&#039;"
    case _ => [c]
  }

  /** No character that could open a tag or close an attribute value. */
  predicate Inert(t: string) {
    forall i :: 0 <= i < |t| ==> t[i] != '<' && t[i] != '>' && t[i] != '"' && t[i] != '\''
  }

  /** What one character contributes to the escaped text's length and content. */
  lemma EntityShape(c: char)
    ensures Inert(Entity(c))
    ensures |Entity(c)| == 1 + (if c == '&' then 4 else 0) + (if c == '<' || c == '>' then 3 else 0)
                             + (if c == '"' || c == '\'' then 5 else 0)
  {
  }

  /** Number of occurrences of `c` in `s`. */
  function Count(s: string, c: char): nat {
    if |s| == 0 then 0 else (if s[0] == c then 1 else 0) + Count(s[1..], c)
  }

  /** The escaped text: markup-significant quotes and brackets never survive,
      each special character lengthens the text by its entity's extra
      characters, and text without special characters comes back as it was. */
  function Escape(s: string): (r: string)
    ensures Inert(r)
    ensures |r| == |s| + 4 * Count(s, '&') + 3 * (Count(s, '<') + Count(s, '>'))
                       + 5 * (Count(s, '"') + Count(s, '\''))
    ensures (forall i :: 0 <= i < |s| ==> !Special(s[i])) ==> r == s
  {
    if |s| == 0 then ""
    else
      var head, tail := Entity(s[0]), Escape(s[1..]);
      EntityShape(s[0]);
      assert forall i :: 0 <= i < |s| - 1 ==> s[1..][i] == s[i + 1];
      assert forall i :: 0 <= i < |head + tail| ==>
        (head + tail)[i] == if i < |head| then head[i] else tail[i - |head|];
      head + tail
  }

  /** Each character is replaced independently of its neighbours. */
  lemma {:induction false} EscapeAppend(a: string, b: string)
    ensures Escape(a + b) == Escape(a) + Escape(b)
  {
    if |a| == 0 {
      assert a + b == b;
    } else {
      assert (a + b)[1..] == a[1..] + b;
      EscapeAppend(a[1..], b);
    }
  }

  /** `t` begins with `p`. */
  predicate StartsWith(t: string, p: string) {
    |p| <= |t| && forall i :: 0 <= i < |p| ==> t[i] == p[i]
  }

  /** Decodes the five entities `Escape` produces and copies everything else. */
  function Unescape(t: string): (r: string)
    ensures |r| <= |t|
    decreases |t|
  {
    if |t| == 0 then ""
    else if StartsWith(t, "&amp;") then "&" + Unescape(t[5..])
    else if StartsWith(t, "&lt;") then "<" + Unescape(t[4..])
    else if StartsWith(t, "&gt;") then ">" + Unescape(t[4..])
    else if StartsWith(t, "&quot;") then "\"" + Unescape(t[6..])
    else if StartsWith(t, "&#039;") then "'" + Unescape(t[6..])
    else [t[0]] + Unescape(t[1..])
  }

  /** Decoding undoes the replacement of one character. */
  lemma UnescapeEntity(c: char, rest: string)
    ensures Unescape(Entity(c) + rest) == [c] + Unescape(rest)
  {
    var e := Entity(c);
    var t := e + rest;
    assert t[|e|..] == rest;
    assert forall i :: 0 <= i < |e| ==> t[i] == e[i];
    if !Special(c) {
      assert t[0] == c != '&';
    } else if c == '&' {
      assert StartsWith(t, "&amp;");
    } else if c == '<' {
      assert t[1] == 'l' && StartsWith(t, "&lt;");
    } else if c == '>' {
      assert t[1] == 'g' && StartsWith(t, "&gt;");
    } else if c == '"' {
      assert t[1] == 'q' && StartsWith(t, "&quot;");
    } else {
      assert t[1] == '#' && StartsWith(t, "&#039;");
    }
  }

  /** Escaping loses nothing: decoding the output gives back the input,
      so distinct texts escape to distinct markup. */
  lemma {:induction false} EscapeRoundTrip(s: string)
    ensures Unescape(Escape(s)) == s
  {
    if |s| > 0 {
      UnescapeEntity(s[0], Escape(s[1..]));
      EscapeRoundTrip(s[1..]);
      assert s == [s[0]] + s[1..];
    }
  }
}
