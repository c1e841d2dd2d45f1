/** `escapeHtml` of lib/spec-to-rss-html.ts: four replacement passes, undone by a reader of
    character references. */
module HtmlEscape {
  function ReplaceChar(s: string, c: char, r: string): string {
    if s == "" then "" else (if s[0] == c then r else [s[0]]) + ReplaceChar(s[1..], c, r)
  }

  function EscapeHtml(s: string): string {
    ReplaceChar(ReplaceChar(ReplaceChar(ReplaceChar(s, '&', "&amp;"), '<', "&lt;"), '>', "&gt;"), '"', "&quot;")
  }

  /** The reference a character is written as. */
  function Reference(c: char): string {
    if c == '&' then "&amp;"
    else if c == '<' then "&lt;"
    else if c == '>' then "&gt;"
    else if c == '"' then "&quot;"
    else [c]
  }

  /** Read the four named references; any other character stands for itself. */
  function Unescape(s: string): string
    decreases |s|
  {
    if s == "" then ""
    else if "&amp;" <= s then "&" + Unescape(s[5..])
    else if "&lt;" <= s then "<" + Unescape(s[4..])
    else if "&gt;" <= s then ">" + Unescape(s[4..])
    else if "&quot;" <= s then "\"" + Unescape(s[6..])
    else [s[0]] + Unescape(s[1..])
  }

  lemma {:induction false} ReplaceAppend(a: string, b: string, c: char, r: string)
    ensures ReplaceChar(a + b, c, r) == ReplaceChar(a, c, r) + ReplaceChar(b, c, r)
    decreases |a|
  {
    if a == "" {
      assert a + b == b;
    } else {
      assert (a + b)[1..] == a[1..] + b;
      ReplaceAppend(a[1..], b, c, r);
    }
  }

  lemma {:induction false} ReplaceAbsent(s: string, c: char, r: string)
    requires c !in s
    ensures ReplaceChar(s, c, r) == s
    decreases |s|
  {
    if s != "" { ReplaceAbsent(s[1..], c, r); }
  }

  lemma ReplaceOne(c: char, d: char, r: string)
    ensures ReplaceChar([c], d, r) == if c == d then r else [c]
  {
    assert [c][1..] == "";
  }

  lemma EscapeOther(c: char)
    requires c != '&' && c != '<' && c != '>' && c != '"'
    ensures EscapeHtml([c]) == [c]
  {
    ReplaceAbsent([c], '&', "&amp;");
    ReplaceAbsent([c], '<', "&lt;");
    ReplaceAbsent([c], '>', "&gt;");
    ReplaceAbsent([c], '"', "&quot;");
  }

  lemma EscapeOne(c: char)
    ensures EscapeHtml([c]) == Reference(c)
  {
    ReplaceOne(c, '&', "&amp;");
    ReplaceOne(c, '<', "&lt;");
    ReplaceOne(c, '>', "&gt;");
    ReplaceOne(c, '"', "&quot;");
    if c == '&' {
      EscapedStays("&amp;");
    } else if c == '<' {
      EscapedStays("&lt;");
    } else if c == '>' {
      EscapedStays("&gt;");
    } else if c != '"' {
      EscapeOther(c);
    }
  }

  /** The later passes leave a reference alone. */
  lemma EscapedStays(r: string)
    requires '<' !in r && '>' !in r && '"' !in r
    ensures ReplaceChar(r, '<', "&lt;") == ReplaceChar(r, '>', "&gt;") == ReplaceChar(r, '"', "&quot;") == r
  {
    ReplaceAbsent(r, '<', "&lt;");
    ReplaceAbsent(r, '>', "&gt;");
    ReplaceAbsent(r, '"', "&quot;");
  }

  lemma EscapeAppend(a: string, b: string)
    ensures EscapeHtml(a + b) == EscapeHtml(a) + EscapeHtml(b)
  {
    var a1, b1 := ReplaceChar(a, '&', "&amp;"), ReplaceChar(b, '&', "&amp;");
    var a2, b2 := ReplaceChar(a1, '<', "&lt;"), ReplaceChar(b1, '<', "&lt;");
    var a3, b3 := ReplaceChar(a2, '>', "&gt;"), ReplaceChar(b2, '>', "&gt;");
    ReplaceAppend(a, b, '&', "&amp;");
    ReplaceAppend(a1, b1, '<', "&lt;");
    ReplaceAppend(a2, b2, '>', "&gt;");
    ReplaceAppend(a3, b3, '"', "&quot;");
  }

  lemma UnescapeReference(c: char, tail: string)
    ensures Unescape(Reference(c) + tail) == [c] + Unescape(tail)
  {
    var s := Reference(c) + tail;
    assert s[|Reference(c)|..] == tail;
    assert s[..|Reference(c)|] == Reference(c);
    assert "&lt;"[1] != "&gt;"[1] && "&lt;"[1] != "&amp;"[1] && "&lt;"[1] != "&quot;"[1];
    assert "&gt;"[1] != "&amp;"[1] && "&gt;"[1] != "&quot;"[1] && "&amp;"[1] != "&quot;"[1];
    if |Reference(c)| > 1 { assert s[1] == Reference(c)[1]; } else { assert s[0] == c; }
  }

  lemma ReferencePlain(c: char)
    ensures '<' !in Reference(c) && '>' !in Reference(c) && '"' !in Reference(c)
  {
  }

  lemma EscapeStep(s: string)
    requires s != ""
    ensures EscapeHtml(s) == Reference(s[0]) + EscapeHtml(s[1..])
  {
    assert [s[0]] + s[1..] == s;
    EscapeAppend([s[0]], s[1..]);
    EscapeOne(s[0]);
  }

  /** Every text comes back from its escaped form, which holds no "<", ">" or quote. */
  lemma {:induction false} EscapeRoundTrip(s: string)
    ensures Unescape(EscapeHtml(s)) == s
    ensures '<' !in EscapeHtml(s) && '>' !in EscapeHtml(s) && '"' !in EscapeHtml(s)
    decreases |s|
  {
    if s == "" {
      assert EscapeHtml(s) == "";
    } else {
      EscapeStep(s);
      EscapeRoundTrip(s[1..]);
      UnescapeReference(s[0], EscapeHtml(s[1..]));
      ReferencePlain(s[0]);
    }
  }
}
