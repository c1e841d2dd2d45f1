/** Reading undoes printing, for every value and for both ways of escaping strings. */
module JsonRoundTrip {
  import opened Json
  import opened Wrappers

  lemma DigitRoundTrip(n: int)
    requires 0 <= n < 16
    ensures HexValue(HexDigit(n)) == Some(n)
  {
  }

  lemma HexSum(u: Unit)
    requires 0 <= u < 0x1_0000
    ensures u == 4096 * (u / 16 / 16 / 16 % 16) + 256 * (u / 16 / 16 % 16) + 16 * (u / 16 % 16) + u % 16
  {
    var q1 := u / 16;
    var q2 := q1 / 16;
    var q3 := q2 / 16;
    assert q3 % 16 == q3;
  }

  lemma HexRoundTrip(u: Unit, tail: Text)
    requires 0 <= u < 0x1_0000
    ensures ReadUnit(Hex(u) + tail) == Some(Read(u, tail))
  {
    var s := Hex(u) + tail;
    DigitRoundTrip(u / 16 / 16 / 16 % 16);
    DigitRoundTrip(u / 16 / 16 % 16);
    DigitRoundTrip(u / 16 % 16);
    DigitRoundTrip(u % 16);
    HexSum(u);
    assert s[6..] == tail;
    assert s[2..][0] == s[2] && s[2..][1] == s[3] && s[2..][2] == s[4] && s[2..][3] == s[5];
  }

  lemma EscapeRoundTrip(u: Unit, safe: bool, tail: Text)
    requires 0 <= u < 0x1_0000
    ensures ReadUnit(Escape(u, safe) + tail) == Some(Read(u, tail))
    ensures Escape(u, safe)[0] != QUOTE
  {
    var s := Escape(u, safe) + tail;
    if |Escape(u, safe)| == 6 {
      HexRoundTrip(u, tail);
    } else if |Escape(u, safe)| == 2 {
      assert s[2..] == tail;
    } else {
      assert s[1..] == tail;
    }
  }

  /** One unit in front of a string that reads back. */
  lemma ReadStringStep(u: Unit, s: Text, tail: Text, text: Text, rest: Text)
    requires ReadUnit(s) == Some(Read(u, tail)) && s != [] && s[0] != QUOTE
    requires ReadString(tail) == Some(Read(text, rest))
    ensures ReadString(s) == Some(Read([u] + text, rest))
  {
  }

  lemma PairAssoc(u: Unit, w: Unit, b: Text, c: Text)
    ensures [u, w] + b + c == [u] + ([w] + (b + c))
  {
  }

  lemma EscapeAllStep(text: Text, safe: bool, close: Text)
    requires text != []
    ensures EscapeAll(text, safe) + close ==
              if StartsWithPair(text) then [text[0]] + ([text[1]] + (EscapeAll(text[2..], safe) + close))
              else Escape(text[0], safe) + (EscapeAll(text[1..], safe) + close)
  {
    if StartsWithPair(text) {
      PairAssoc(text[0], text[1], EscapeAll(text[2..], safe), close);
    } else {
      Assoc(Escape(text[0], safe), EscapeAll(text[1..], safe), close);
    }
  }

  lemma ReadRaw(u: Unit, tail: Text)
    requires u >= 32 && u != QUOTE && u != BACKSLASH
    ensures ReadUnit([u] + tail) == Some(Read(u, tail))
  {
    assert ([u] + tail)[1..] == tail;
  }

  /** A string reads back if its tail behind the first unit, or behind the first pair, does. */
  lemma SingleRoundTrip(text: Text, safe: bool, rest: Text)
    requires Units(text) && text != [] && !StartsWithPair(text)
    requires ReadString(EscapeAll(text[1..], safe) + ([QUOTE] + rest)) == Some(Read(text[1..], rest))
    ensures ReadString(EscapeAll(text, safe) + ([QUOTE] + rest)) == Some(Read(text, rest))
  {
    var tail := EscapeAll(text[1..], safe) + ([QUOTE] + rest);
    EscapeAllStep(text, safe, [QUOTE] + rest);
    EscapeRoundTrip(text[0], safe, tail);
    ReadStringStep(text[0], Escape(text[0], safe) + tail, tail, text[1..], rest);
    assert [text[0]] + text[1..] == text;
  }

  lemma ReadRawStep(u: Unit, tail: Text, text: Text, rest: Text)
    requires u >= 32 && u != QUOTE && u != BACKSLASH && ReadString(tail) == Some(Read(text, rest))
    ensures ReadString([u] + tail) == Some(Read([u] + text, rest))
  {
    ReadRaw(u, tail);
    ReadStringStep(u, [u] + tail, tail, text, rest);
  }

  lemma ReadPair(hi: Unit, lo: Unit, tail: Text, text: Text, rest: Text)
    requires hi >= 32 && hi != QUOTE && hi != BACKSLASH && lo >= 32 && lo != QUOTE && lo != BACKSLASH
    requires ReadString(tail) == Some(Read(text, rest))
    ensures ReadString([hi] + ([lo] + tail)) == Some(Read([hi] + ([lo] + text), rest))
  {
    ReadRawStep(lo, tail, text, rest);
    ReadRawStep(hi, [lo] + tail, [lo] + text, rest);
  }

  lemma PairSplit(text: Text)
    requires |text| >= 2
    ensures [text[0]] + ([text[1]] + text[2..]) == text
  {
  }

  lemma PairRoundTrip(text: Text, safe: bool, rest: Text)
    requires Units(text) && StartsWithPair(text)
    requires ReadString(EscapeAll(text[2..], safe) + ([QUOTE] + rest)) == Some(Read(text[2..], rest))
    ensures ReadString(EscapeAll(text, safe) + ([QUOTE] + rest)) == Some(Read(text, rest))
  {
    EscapeAllStep(text, safe, [QUOTE] + rest);
    ReadPair(text[0], text[1], EscapeAll(text[2..], safe) + ([QUOTE] + rest), text[2..], rest);
    PairSplit(text);
  }

  lemma EmptyStringRoundTrip(safe: bool, rest: Text)
    ensures ReadString(EscapeAll([], safe) + ([QUOTE] + rest)) == Some(Read([], rest))
  {
    var close := [QUOTE] + rest;
    assert EscapeAll([], safe) + close == close && close[1..] == rest;
  }

  lemma {:induction false} StringRoundTrip(text: Text, safe: bool, rest: Text)
    requires Units(text)
    ensures ReadString(EscapeAll(text, safe) + ([QUOTE] + rest)) == Some(Read(text, rest))
    decreases |text|
  {
    if text == [] {
      EmptyStringRoundTrip(safe, rest);
    } else if StartsWithPair(text) {
      StringRoundTrip(text[2..], safe, rest);
      PairRoundTrip(text, safe, rest);
    } else {
      StringRoundTrip(text[1..], safe, rest);
      SingleRoundTrip(text, safe, rest);
    }
  }

  lemma BehindQuote(e: Text, rest: Text)
    ensures ([QUOTE] + e + [QUOTE] + rest)[1..] == e + ([QUOTE] + rest)
  {
  }

  lemma QuoteRoundTrip(text: Text, safe: bool, rest: Text)
    requires Units(text)
    ensures var s := Quote(text, safe) + rest; s[0] == QUOTE && ReadString(s[1..]) == Some(Read(text, rest))
  {
    StringRoundTrip(text, safe, rest);
    BehindQuote(EscapeAll(text, safe), rest);
  }

  lemma {:induction false} NumberRoundTrip(token: Text, rest: Text)
    requires forall i :: 0 <= i < |token| ==> NumberUnit(token[i])
    requires rest == [] || !NumberUnit(rest[0])
    ensures NumberLength(token + rest) == |token|
    decreases |token|
  {
    if token == [] {
      assert token + rest == rest;
    } else {
      assert (token + rest)[1..] == token[1..] + rest;
      NumberRoundTrip(token[1..], rest);
    }
  }

  /** The first unit of a printed value: never a bracket or brace that closes. */
  lemma FirstUnit(v: Value, safe: bool)
    requires WellFormed(v)
    ensures Print(v, safe) != [] && Print(v, safe)[0] != CLOSE_ARRAY && Print(v, safe)[0] != CLOSE_OBJECT
  {
  }

  /** What may follow a value: nothing that would prolong a number. */
  predicate Ends(rest: Text) {
    rest == [] || !NumberUnit(rest[0])
  }

  lemma LiteralRoundTrip(v: Value, safe: bool, rest: Text)
    requires v.Null? || v.Bool?
    ensures ReadValue(Print(v, safe) + rest) == Some(Read(v, rest))
  {
    var s := Print(v, safe) + rest;
    assert s[..|Print(v, safe)|] == Print(v, safe);
    assert s[|Print(v, safe)|..] == rest;
  }

  lemma NumRoundTrip(v: Value, safe: bool, rest: Text)
    requires v.Num? && WellFormed(v) && Ends(rest)
    ensures ReadValue(Print(v, safe) + rest) == Some(Read(v, rest))
  {
    NumberRoundTrip(v.token, rest);
    assert (v.token + rest)[..|v.token|] == v.token && (v.token + rest)[|v.token|..] == rest;
  }

  // ---- the reader, one bracket at a time ----

  lemma ReadLastItem(s: Text, v: Value, rest: Text)
    requires ReadValue(s) == Some(Read(v, [CLOSE_ARRAY] + rest))
    ensures ReadItems(s) == Some(Read([v], rest))
  {
    assert ([CLOSE_ARRAY] + rest)[1..] == rest;
  }

  lemma ReadMoreItems(s: Text, v: Value, tail: Text, items: seq<Value>, rest: Text)
    requires ReadValue(s) == Some(Read(v, [COMMA] + tail)) && ReadItems(tail) == Some(Read(items, rest))
    ensures ReadItems(s) == Some(Read([v] + items, rest))
  {
    assert ([COMMA] + tail)[1..] == tail;
  }

  lemma ReadLastMember(s: Text, m: Member, rest: Text)
    requires ReadMember(s) == Some(Read(m, [CLOSE_OBJECT] + rest))
    ensures ReadMembers(s) == Some(Read([m], rest))
  {
    assert ([CLOSE_OBJECT] + rest)[1..] == rest;
  }

  lemma ReadMoreMembers(s: Text, m: Member, tail: Text, members: seq<Member>, rest: Text)
    requires ReadMember(s) == Some(Read(m, [COMMA] + tail)) && ReadMembers(tail) == Some(Read(members, rest))
    ensures ReadMembers(s) == Some(Read([m] + members, rest))
  {
    assert ([COMMA] + tail)[1..] == tail;
  }

  lemma ReadArray(body: Text, items: seq<Value>, rest: Text)
    requires body != [] && body[0] != CLOSE_ARRAY && ReadItems(body) == Some(Read(items, rest))
    ensures ReadValue([OPEN_ARRAY] + body) == Some(Read(Arr(items), rest))
  {
    assert ([OPEN_ARRAY] + body)[1..] == body;
  }

  lemma ReadObject(body: Text, members: seq<Member>, rest: Text)
    requires body != [] && body[0] != CLOSE_OBJECT && ReadMembers(body) == Some(Read(members, rest))
    ensures ReadValue([OPEN_OBJECT] + body) == Some(Read(Obj(members), rest))
  {
    assert ([OPEN_OBJECT] + body)[1..] == body;
  }

  lemma EmptyRoundTrip(v: Value, safe: bool, rest: Text)
    requires v == Arr([]) || v == Obj([])
    ensures ReadValue(Print(v, safe) + rest) == Some(Read(v, rest))
  {
    assert (Print(v, safe) + rest)[2..] == rest;
  }

  lemma StrRoundTrip(text: Text, safe: bool, rest: Text)
    requires Units(text)
    ensures ReadValue(Print(Str(text), safe) + rest) == Some(Read(Str(text), rest))
  {
    QuoteRoundTrip(text, safe, rest);
  }

  // ---- the printer, in the same pieces ----

  lemma PrintedItems(items: seq<Value>, safe: bool, rest: Text)
    requires items != []
    ensures PrintItems(items, safe) + rest ==
              Print(items[0], safe) + if |items| == 1 then [CLOSE_ARRAY] + rest
                                      else [COMMA] + (PrintItems(items[1..], safe) + rest)
  {
  }

  lemma PrintedMembers(members: seq<Member>, safe: bool, rest: Text)
    requires members != []
    ensures PrintMembers(members, safe) + rest ==
              PrintMember(members[0], safe) + if |members| == 1 then [CLOSE_OBJECT] + rest
                                              else [COMMA] + (PrintMembers(members[1..], safe) + rest)
  {
  }

  lemma PrintedFirst(v: Value, safe: bool, rest: Text)
    requires WellFormed(v) && (v.Arr? ==> v.items != []) && (v.Obj? ==> v.members != [])
    ensures v.Arr? ==> var body := PrintItems(v.items, safe) + rest;
              body != [] && body[0] != CLOSE_ARRAY && Print(v, safe) + rest == [OPEN_ARRAY] + body
    ensures v.Obj? ==> var body := PrintMembers(v.members, safe) + rest;
              body != [] && body[0] != CLOSE_OBJECT && Print(v, safe) + rest == [OPEN_OBJECT] + body
  {
    if v.Arr? {
      FirstUnit(v.items[0], safe);
      Assoc([OPEN_ARRAY], PrintItems(v.items, safe), rest);
    } else if v.Obj? {
      Assoc([OPEN_OBJECT], PrintMembers(v.members, safe), rest);
    }
  }

  /** The reader gives back the printed value and the text behind it. */
  lemma {:induction false} ValueRoundTrip(v: Value, safe: bool, rest: Text)
    requires WellFormed(v) && Ends(rest)
    ensures ReadValue(Print(v, safe) + rest) == Some(Read(v, rest))
    decreases v, 1
  {
    match v
    case Null => LiteralRoundTrip(v, safe, rest);
    case Bool(b) => LiteralRoundTrip(v, safe, rest);
    case Num(token) => NumRoundTrip(v, safe, rest);
    case Str(text) => StrRoundTrip(text, safe, rest);
    case Arr(items) =>
      if items == [] {
        EmptyRoundTrip(v, safe, rest);
      } else {
        PrintedFirst(v, safe, rest);
        ItemsRoundTrip(items, safe, rest);
        ReadArray(PrintItems(items, safe) + rest, items, rest);
      }
    case Obj(members) =>
      if members == [] {
        EmptyRoundTrip(v, safe, rest);
      } else {
        PrintedFirst(v, safe, rest);
        MembersRoundTrip(members, safe, rest);
        ReadObject(PrintMembers(members, safe) + rest, members, rest);
      }
  }

  lemma ConsItems(items: seq<Value>, s: Text, tail: Text, rest: Text)
    requires |items| > 1 && ReadValue(s) == Some(Read(items[0], [COMMA] + tail))
    requires ReadItems(tail) == Some(Read(items[1..], rest))
    ensures ReadItems(s) == Some(Read(items, rest))
  {
    ReadMoreItems(s, items[0], tail, items[1..], rest);
    assert [items[0]] + items[1..] == items;
  }

  lemma OneItem(items: seq<Value>, s: Text, rest: Text)
    requires |items| == 1 && ReadValue(s) == Some(Read(items[0], [CLOSE_ARRAY] + rest))
    ensures ReadItems(s) == Some(Read(items, rest))
  {
    ReadLastItem(s, items[0], rest);
    assert [items[0]] == items;
  }

  lemma {:induction false} ItemsRoundTrip(items: seq<Value>, safe: bool, rest: Text)
    requires items != [] && WellFormedItems(items)
    ensures ReadItems(PrintItems(items, safe) + rest) == Some(Read(items, rest))
    decreases items, 0
  {
    var s := PrintItems(items, safe) + rest;
    PrintedItems(items, safe, rest);
    if |items| == 1 {
      ValueRoundTrip(items[0], safe, [CLOSE_ARRAY] + rest);
      OneItem(items, s, rest);
    } else {
      var tail := PrintItems(items[1..], safe) + rest;
      ValueRoundTrip(items[0], safe, [COMMA] + tail);
      ItemsRoundTrip(items[1..], safe, rest);
      ConsItems(items, s, tail, rest);
    }
  }

  lemma {:induction false} MemberRoundTrip(m: Member, safe: bool, rest: Text)
    requires Units(m.key) && WellFormed(m.value) && Ends(rest)
    ensures ReadMember(PrintMember(m, safe) + rest) == Some(Read(m, rest))
    decreases m, 0
  {
    var tail := [COLON] + (Print(m.value, safe) + rest);
    assert PrintMember(m, safe) + rest == Quote(m.key, safe) + tail;
    QuoteRoundTrip(m.key, safe, tail);
    ValueRoundTrip(m.value, safe, rest);
    assert tail[1..] == Print(m.value, safe) + rest;
  }

  lemma ConsMembers(members: seq<Member>, s: Text, tail: Text, rest: Text)
    requires |members| > 1 && ReadMember(s) == Some(Read(members[0], [COMMA] + tail))
    requires ReadMembers(tail) == Some(Read(members[1..], rest))
    ensures ReadMembers(s) == Some(Read(members, rest))
  {
    ReadMoreMembers(s, members[0], tail, members[1..], rest);
    assert [members[0]] + members[1..] == members;
  }

  lemma OneMember(members: seq<Member>, s: Text, rest: Text)
    requires |members| == 1 && ReadMember(s) == Some(Read(members[0], [CLOSE_OBJECT] + rest))
    ensures ReadMembers(s) == Some(Read(members, rest))
  {
    ReadLastMember(s, members[0], rest);
    assert [members[0]] == members;
  }

  lemma {:induction false} MembersRoundTrip(members: seq<Member>, safe: bool, rest: Text)
    requires members != [] && WellFormedMembers(members)
    ensures ReadMembers(PrintMembers(members, safe) + rest) == Some(Read(members, rest))
    decreases members, 0
  {
    var s := PrintMembers(members, safe) + rest;
    PrintedMembers(members, safe, rest);
    if |members| == 1 {
      MemberRoundTrip(members[0], safe, [CLOSE_OBJECT] + rest);
      OneMember(members, s, rest);
    } else {
      var tail := PrintMembers(members[1..], safe) + rest;
      MemberRoundTrip(members[0], safe, [COMMA] + tail);
      MembersRoundTrip(members[1..], safe, rest);
      ConsMembers(members, s, tail, rest);
    }
  }

  /** Parsing the printed text gives the value back. */
  lemma PrintRoundTrip(v: Value, safe: bool)
    requires WellFormed(v)
    ensures Parse(Print(v, safe)) == Some(v)
  {
    ValueRoundTrip(v, safe, []);
    assert Print(v, safe) + [] == Print(v, safe);
  }

  // ---- what is printed ----

  lemma LiteralsPrinted(safe: bool)
    ensures Print(Null, safe) == Ascii("null") && Print(Bool(true), safe) == Ascii("true") && Print(Bool(false), safe) == Ascii("false")
    ensures Print(Arr([]), safe) == Ascii("[]") && Print(Obj([]), safe) == Ascii("{}")
  {
  }

  lemma ArrayPrinted(items: seq<Value>, safe: bool)
    requires items != []
    ensures Print(Arr(items), safe) == Ascii("[") + PrintItems(items, safe)
    ensures PrintItems(items, safe) == Print(items[0], safe) + if |items| == 1 then Ascii("]") else Ascii(",") + PrintItems(items[1..], safe)
  {
  }

  lemma ObjectPrinted(members: seq<Member>, safe: bool)
    requires members != []
    ensures Print(Obj(members), safe) == Ascii("{") + PrintMembers(members, safe)
    ensures PrintMembers(members, safe) ==
              PrintMember(members[0], safe) + if |members| == 1 then Ascii("}") else Ascii(",") + PrintMembers(members[1..], safe)
  {
    assert Ascii("{") == [OPEN_OBJECT] && Ascii("}") == [CLOSE_OBJECT] && Ascii(",") == [COMMA];
  }

  lemma MemberPrinted(m: Member, safe: bool)
    ensures PrintMember(m, safe) == Ascii("\"") + EscapeAll(m.key, safe) + Ascii("\"") + (Ascii(":") + Print(m.value, safe))
  {
    assert Ascii("\"") == [QUOTE] && Ascii(":") == [COLON];
  }

  /** The escapes of `JSON.stringify`: short where there is one, else lower-case hexadecimal. */
  lemma ShortEscapesPrinted()
    ensures Escape(34, false) == Ascii("\\\"") && Escape(92, false) == Ascii("\\\\")
    ensures Escape(8, false) == Ascii("\\b") && Escape(9, false) == Ascii("\\t") && Escape(10, false) == Ascii("\\n")
    ensures Escape(12, false) == Ascii("\\f") && Escape(13, false) == Ascii("\\r")
  {
  }

  lemma HexEscapesPrinted()
    ensures Escape(0x1F, false) == Ascii("\\u001f") && Escape(0xD83D, false) == Ascii("\\ud83d")
    ensures Escape(0x2028, true) == Ascii("\\u2028") && Escape('<' as int, true) == Ascii("\\u003c")
  {
  }

  lemma OthersPrinted(u: Unit)
    requires 32 <= u && !(0xD800 <= u <= 0xDFFF) && u != 34 && u != 92
    ensures Escape(u, false) == [u]
  {
  }
}
