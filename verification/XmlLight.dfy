/** `xmlValueEncodeLight`: four replacements of the whole string, one after the other. */
module XmlLight {

  /** `strings.Replace(s, pat, with, -1)` for a pattern of one character. */
  function Replace(s: string, pat: char, with: string): string {
    if s == "" then ""
    else (if s[0] == pat then with else [s[0]]) + Replace(s[1..], pat, with)
  }

  function EncodeLight(s: string): string {
    Replace(Replace(Replace(Replace(s, '&', "&amp;"), '"', "&quot;"), '<', "&lt;"), '>', "&gt;")
  }

  /** What one character should become: sections 2.4 and 4.6 of XML 1.0. */
  function Escape(c: char): string {
    if c == '&' then "&amp;"
    else if c == '"' then "&quot;"
    else if c == '<' then "&lt;"
    else if c == '>' then "&gt;"
    else [c]
  }

  function EscapeAll(s: string): string {
    if s == "" then "" else Escape(s[0]) + EscapeAll(s[1..])
  }

  const ENTITIES := ["&amp;", "&quot;", "&lt;", "&gt;"]

  predicate StartsEntity(s: string) {
    exists i | 0 <= i < |ENTITIES| :: ENTITIES[i] <= s
  }

  /** No raw quote or angle bracket, and every ampersand starts an entity. */
  ghost predicate Escaped(s: string) {
    && '"' !in s && '<' !in s && '>' !in s
    && forall i :: 0 <= i < |s| && s[i] == '&' ==> StartsEntity(s[i..])
  }

  /** What a reader of the value gets back: entities are replaced in one pass. */
  function Unescape(s: string): string
    decreases |s|
  {
    if s == "" then ""
    else if "&amp;" <= s then "&" + Unescape(s[5..])
    else if "&quot;" <= s then "\"" + Unescape(s[6..])
    else if "&lt;" <= s then "<" + Unescape(s[4..])
    else if "&gt;" <= s then ">" + Unescape(s[4..])
    else [s[0]] + Unescape(s[1..])
  }

  lemma {:induction false} ReplaceAppend(s: string, t: string, pat: char, with: string)
    ensures Replace(s + t, pat, with) == Replace(s, pat, with) + Replace(t, pat, with)
    decreases |s|
  {
    if s == "" {
      assert s + t == t;
    } else {
      assert (s + t)[1..] == s[1..] + t;
      ReplaceAppend(s[1..], t, pat, with);
    }
  }

  lemma {:induction false} ReplaceNone(s: string, pat: char, with: string)
    requires pat !in s
    ensures Replace(s, pat, with) == s
    decreases |s|
  {
    if s != "" {
      ReplaceNone(s[1..], pat, with);
      assert s == [s[0]] + s[1..];
    }
  }

  lemma ReplaceChar(c: char, pat: char, with: string)
    ensures Replace([c], pat, with) == if c == pat then with else [c]
  {
    assert [c][1..] == "";
  }

  lemma EncodeAppend(s: string, t: string)
    ensures EncodeLight(s + t) == EncodeLight(s) + EncodeLight(t)
  {
    ReplaceAppend(s, t, '&', "&amp;");
    var s1, t1 := Replace(s, '&', "&amp;"), Replace(t, '&', "&amp;");
    ReplaceAppend(s1, t1, '"', "&quot;");
    var s2, t2 := Replace(s1, '"', "&quot;"), Replace(t1, '"', "&quot;");
    ReplaceAppend(s2, t2, '<', "&lt;");
    ReplaceAppend(Replace(s2, '<', "&lt;"), Replace(t2, '<', "&lt;"), '>', "&gt;");
  }

  /** Later replacements leave the entities of earlier ones alone. */
  lemma EncodeOne(c: char)
    ensures EncodeLight([c]) == Escape(c)
  {
    hide Replace;
    ReplaceChar(c, '&', "&amp;");
    ReplaceChar(c, '"', "&quot;");
    ReplaceChar(c, '<', "&lt;");
    ReplaceChar(c, '>', "&gt;");
    ReplaceNone("&amp;", '"', "&quot;");
    ReplaceNone("&amp;", '<', "&lt;");
    ReplaceNone("&amp;", '>', "&gt;");
    ReplaceNone("&quot;", '<', "&lt;");
    ReplaceNone("&quot;", '>', "&gt;");
    ReplaceNone("&lt;", '>', "&gt;");
  }

  /** The four replacements in this order escape each character once. */
  lemma {:induction false} EncodeIsEscape(s: string)
    ensures EncodeLight(s) == EscapeAll(s)
    decreases |s|
  {
    if s != "" {
      assert s == [s[0]] + s[1..];
      EncodeAppend([s[0]], s[1..]);
      EncodeOne(s[0]);
      EncodeIsEscape(s[1..]);
    }
  }

  lemma EscapeIsEscaped(c: char, rest: string)
    requires Escaped(rest)
    ensures Escaped(Escape(c) + rest)
  {
    var e := Escape(c);
    var s := e + rest;
    forall i | 0 <= i < |s| && s[i] == '&' ensures StartsEntity(s[i..]) {
      if i < |e| {
        assert i == 0 && e in ENTITIES && e <= s[i..];
      } else {
        assert s[i..] == rest[i - |e|..];
      }
    }
  }

  lemma {:induction false} EscapeAllIsEscaped(s: string)
    ensures Escaped(EscapeAll(s))
    decreases |s|
  {
    if s != "" {
      EscapeAllIsEscaped(s[1..]);
      EscapeIsEscaped(s[0], EscapeAll(s[1..]));
    }
  }

  lemma {:induction false} UnescapeOne(c: char, rest: string)
    ensures Unescape(Escape(c) + rest) == [c] + Unescape(rest)
  {
    var s := Escape(c) + rest;
    assert s[|Escape(c)|..] == rest;
    if c != '&' && c != '"' && c != '<' && c != '>' {
      assert s[0] != "&amp;"[0] && s[0] != "&quot;"[0] && s[0] != "&lt;"[0] && s[0] != "&gt;"[0];
    } else {
      assert s[1] == Escape(c)[1];
      assert c == '>' ==> s[2] == 't' && "&quot;"[1] == 'q' && "&amp;"[1] == 'a' && "&lt;"[1] == 'l';
    }
  }

  lemma {:induction false} UnescapeAll(s: string)
    ensures Unescape(EscapeAll(s)) == s
    decreases |s|
  {
    if s != "" {
      UnescapeAll(s[1..]);
      UnescapeOne(s[0], EscapeAll(s[1..]));
      assert s == [s[0]] + s[1..];
    }
  }

  /** The encoded value is safe to put between tags or quotes, and reads back as the original. */
  lemma EncodeRoundTrip(s: string)
    ensures Escaped(EncodeLight(s)) && Unescape(EncodeLight(s)) == s
  {
    EncodeIsEscape(s);
    EscapeAllIsEscaped(s);
    UnescapeAll(s);
  }

  /** Each special character becomes its own entity, and a string is encoded piece by piece. */
  lemma EntityOfEach(s: string, t: string)
    ensures EncodeLight("&") == "&amp;" && EncodeLight("\"") == "&quot;"
    ensures EncodeLight("<") == "&lt;" && EncodeLight(">") == "&gt;"
    ensures EncodeLight(s + t) == EncodeLight(s) + EncodeLight(t)
  {
    EncodeOne('&');
    EncodeOne('"');
    EncodeOne('<');
    EncodeOne('>');
    EncodeAppend(s, t);
  }
}
