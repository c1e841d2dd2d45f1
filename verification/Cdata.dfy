/** The CDATA writer of lib/spec-to-rss-html.ts and the reader of section 2.7 of XML 1.0: a section
    runs from "<![CDATA[" to the first "]]>" after it. */
module Cdata {
  import opened Wrappers

  const OPEN := "<![CDATA["
  const CLOSE := "]]>"
  const SPLICE := "]]" + CLOSE + OPEN + ">"

  /** A "]]>" begins at position `i`. */
  predicate ClosesAt(s: string, i: int) {
    0 <= i < |s| - 2 && s[i] == ']' && s[i + 1] == ']' && s[i + 2] == '>'
  }

  ghost predicate HasClose(s: string) {
    exists i :: ClosesAt(s, i)
  }

  /** The replacement of every "]]>", left to right, without overlap. */
  function ReplaceClose(s: string): string
    decreases |s|
  {
    if s == "" then ""
    else if ClosesAt(s, 0) then SPLICE + ReplaceClose(s[3..])
    else [s[0]] + ReplaceClose(s[1..])
  }

  function WrapCdata(html: string): string { OPEN + ReplaceClose(html) + CLOSE }

  /** Where the first "]]>" of a string begins. */
  function FirstClose(s: string): (i: Option<nat>)
    ensures i.None? ==> !HasClose(s)
    ensures i.Some? ==> ClosesAt(s, i.value) && forall j :: ClosesAt(s, j) ==> i.value <= j
    decreases |s|
  {
    if s == "" then None
    else if ClosesAt(s, 0) then Some(0)
    else
      assert forall j :: ClosesAt(s, j) ==> ClosesAt(s[1..], j - 1);
      match FirstClose(s[1..])
      case None => None
      case Some(i) => Some(i + 1)
  }

  /** Read a sequence of CDATA sections and nothing else. */
  function ReadSections(s: string): Option<seq<string>>
    decreases |s|
  {
    if s == "" then Some([])
    else if !("<![CDATA[" <= s) then None
    else
      var body := s[9..];
      match FirstClose(body)
      case None => None
      case Some(i) =>
        match ReadSections(body[i + 3..])
        case None => None
        case Some(rest) => Some([body[..i]] + rest)
  }

  function Concat(parts: seq<string>): string {
    if parts == [] then "" else parts[0] + Concat(parts[1..])
  }

  lemma {:induction false} ReplaceNothing(s: string)
    requires !HasClose(s)
    ensures ReplaceClose(s) == s
    decreases |s|
  {
    if s != "" {
      assert forall j :: ClosesAt(s[1..], j) ==> ClosesAt(s, j + 1);
      ReplaceNothing(s[1..]);
    }
  }

  /** Up to the first "]]>" the writer copies; there it splices. */
  lemma {:induction false} ReplaceFirst(s: string, i: nat)
    requires ClosesAt(s, i) && forall j :: ClosesAt(s, j) ==> i <= j
    ensures ReplaceClose(s) == s[..i] + SPLICE + ReplaceClose(s[i + 3..])
    decreases |s|
  {
    if i > 0 {
      var tail := s[1..];
      assert forall j :: ClosesAt(tail, j) ==> ClosesAt(s, j + 1);
      ReplaceFirst(tail, i - 1);
      assert tail[i + 2..] == s[i + 3..];
      assert s[..i] == [s[0]] + tail[..i - 1];
      ConsFirst([s[0]], tail[..i - 1], SPLICE, ReplaceClose(s[i + 3..]));
    }
  }

  lemma ConsFirst(a: string, b: string, c: string, d: string)
    ensures a + (b + c + d) == (a + b) + c + d
  {
  }

  lemma Regroup(a: string, b: string, c: string)
    ensures OPEN + (a + SPLICE + b) + c == OPEN + (a + "]]") + CLOSE + (OPEN + (">" + b) + c)
  {
  }

  /** The writer closes the section inside the first "]]>" and starts over behind the brackets. */
  lemma WrapStep(s: string, i: nat)
    requires ClosesAt(s, i) && forall j :: ClosesAt(s, j) ==> i <= j
    ensures WrapCdata(s) == OPEN + s[..i + 2] + CLOSE + WrapCdata(s[i + 2..])
  {
    ReplaceFirst(s, i);
    var rest := s[i + 2..];
    assert rest[0] == '>' && rest[1..] == s[i + 3..];
    assert s[..i + 2] == s[..i] + "]]";
    assert ReplaceClose(rest) == ">" + ReplaceClose(s[i + 3..]);
    Regroup(s[..i], ReplaceClose(s[i + 3..]), CLOSE);
  }

  /** A section's first "]]>" is its own, when its content holds none. */
  lemma CloseOfSection(content: string, rest: string)
    requires !HasClose(content)
    ensures FirstClose(content + CLOSE + rest) == Some(|content|)
  {
    var body := content + CLOSE + rest;
    assert ClosesAt(body, |content|);
    var i := FirstClose(body).value;
    assert i < |content| - 2 ==> ClosesAt(content, i);
  }

  /** Content without "]]>" is read back whole, whatever follows its section. */
  lemma ReadSection(content: string, rest: string)
    requires !HasClose(content)
    ensures ReadSections(OPEN + content + CLOSE + rest) ==
              match ReadSections(rest) case None => None case Some(parts) => Some([content] + parts)
  {
    var s := OPEN + content + CLOSE + rest;
    var body := content + CLOSE + rest;
    CloseOfSection(content, rest);
    assert s == "<![CDATA[" + body;
    assert body[..|content|] == content && body[|content| + 3..] == rest;
  }

  /** The first section holds everything up to and with the brackets of the first "]]>". */
  lemma FirstSection(s: string, i: nat)
    requires ClosesAt(s, i) && forall j :: ClosesAt(s, j) ==> i <= j
    ensures !HasClose(s[..i + 2])
    ensures ReadSections(WrapCdata(s)) ==
              match ReadSections(WrapCdata(s[i + 2..])) case None => None case Some(parts) => Some([s[..i + 2]] + parts)
  {
    var head := s[..i + 2];
    assert forall j :: ClosesAt(head, j) ==> ClosesAt(s, j);
    WrapStep(s, i);
    ReadSection(head, WrapCdata(s[i + 2..]));
  }

  lemma OnlySection(s: string)
    requires !HasClose(s)
    ensures ReadSections(WrapCdata(s)) == Some([s])
  {
    ReplaceNothing(s);
    ReadSection(s, "");
    assert WrapCdata(s) == OPEN + s + CLOSE + "";
    assert [s] + [] == [s];
  }

  lemma ConcatCons(head: string, parts: seq<string>)
    ensures Concat([head] + parts) == head + Concat(parts)
  {
    assert ([head] + parts)[1..] == parts;
  }

  /** Every string comes back from its CDATA sections, and no section's content holds a "]]>". */
  lemma {:induction false} CdataRoundTrip(s: string)
    ensures var parts := ReadSections(WrapCdata(s));
            && parts.Some? && Concat(parts.value) == s
            && forall k :: 0 <= k < |parts.value| ==> !HasClose(parts.value[k])
    decreases |s|
  {
    match FirstClose(s)
    case None =>
      OnlySection(s);
      ConcatCons(s, []);
      assert [s] + [] == [s];
    case Some(i) =>
      FirstSection(s, i);
      CdataRoundTrip(s[i + 2..]);
      ConcatCons(s[..i + 2], ReadSections(WrapCdata(s[i + 2..])).value);
      assert s == s[..i + 2] + s[i + 2..];
  }
}
