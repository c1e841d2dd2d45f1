/** `embed` of lib/page-app.ts: JSON that can stand inside a script element. The printed text goes
    through four replacement passes; the result holds none of the four dangerous units and still
    parses to the value it was made from. */
module Embed {
  import opened Json
  import opened JsonRoundTrip
  import opened Wrappers

  /** One replacement pass: every occurrence of `u` becomes its escape. */
  function Pass(t: Text, u: Unit): Text {
    if t == [] then [] else (if t[0] == u then Hex(u) else [t[0]]) + Pass(t[1..], u)
  }

  function FourPasses(t: Text): Text {
    Pass(Pass(Pass(Pass(t, LESS), GREATER), LINE_SEPARATOR), PARAGRAPH_SEPARATOR)
  }

  function EmbedText(v: Value): Text { FourPasses(Print(v, false)) }

  // ---- four passes are one ----

  function Sub(t: Text): Text {
    if t == [] then [] else (if Special(t[0]) then Hex(t[0]) else [t[0]]) + Sub(t[1..])
  }

  lemma {:induction false} PassAppend(a: Text, b: Text, u: Unit)
    ensures Pass(a + b, u) == Pass(a, u) + Pass(b, u)
    decreases |a|
  {
    if a == [] {
      assert a + b == b;
    } else {
      assert (a + b)[1..] == a[1..] + b;
      PassAppend(a[1..], b, u);
    }
  }

  lemma {:induction false} SubAppend(a: Text, b: Text)
    ensures Sub(a + b) == Sub(a) + Sub(b)
    decreases |a|
  {
    if a == [] {
      assert a + b == b;
    } else {
      assert (a + b)[1..] == a[1..] + b;
      SubAppend(a[1..], b);
    }
  }

  lemma {:induction false} PassFree(t: Text, u: Unit)
    requires Without(t, u)
    ensures Pass(t, u) == t
    decreases |t|
  {
    if t != [] { PassFree(t[1..], u); }
  }

  /** The text of an escape is plain: lower-case hexadecimal behind a backslash. */
  lemma HexPlain(u: Unit)
    ensures forall i :: 0 <= i < |Hex(u)| ==> 48 <= Hex(u)[i] <= 117 && !Special(Hex(u)[i])
  {
  }

  lemma FourPassesAppend(a: Text, b: Text)
    ensures FourPasses(a + b) == FourPasses(a) + FourPasses(b)
  {
    PassAppend(a, b, LESS);
    PassAppend(Pass(a, LESS), Pass(b, LESS), GREATER);
    PassAppend(Pass(Pass(a, LESS), GREATER), Pass(Pass(b, LESS), GREATER), LINE_SEPARATOR);
    PassAppend(Pass(Pass(Pass(a, LESS), GREATER), LINE_SEPARATOR), Pass(Pass(Pass(b, LESS), GREATER), LINE_SEPARATOR), PARAGRAPH_SEPARATOR);
  }

  lemma PassUnit(u: Unit, w: Unit)
    ensures Pass([u], w) == if u == w then Hex(u) else [u]
  {
    assert [u][1..] == [];
  }

  lemma FourPassesUnit(u: Unit)
    ensures FourPasses([u]) == if Special(u) then Hex(u) else [u]
  {
    HexPlain(u);
    PassUnit(u, LESS);
    PassUnit(u, GREATER);
    PassUnit(u, LINE_SEPARATOR);
    PassUnit(u, PARAGRAPH_SEPARATOR);
    if u == LESS || u == GREATER || u == LINE_SEPARATOR {
      PassFree(Hex(u), GREATER);
      PassFree(Hex(u), LINE_SEPARATOR);
      PassFree(Hex(u), PARAGRAPH_SEPARATOR);
    }
  }

  /** No pass touches what an earlier one wrote: the four together replace each special unit once. */
  lemma {:induction false} FourPassesAreOne(t: Text)
    ensures FourPasses(t) == Sub(t)
    decreases |t|
  {
    if t != [] {
      FourPassesUnit(t[0]);
      FourPassesAppend([t[0]], t[1..]);
      FourPassesAreOne(t[1..]);
      assert [t[0]] + t[1..] == t;
    }
  }

  // ---- what the passes do to printed JSON ----

  lemma {:induction false} SubFree(t: Text)
    requires forall i :: 0 <= i < |t| ==> !Special(t[i])
    ensures Sub(t) == t
    decreases |t|
  {
    if t != [] { SubFree(t[1..]); }
  }

  lemma SubEscape(u: Unit)
    ensures Sub(Escape(u, false)) == Escape(u, true)
  {
    HexPlain(u);
    if Special(u) {
      assert [u][1..] == [];
    } else {
      SubFree(Escape(u, false));
    }
  }

  lemma {:induction false} SubEscapeAll(s: Text)
    ensures Sub(EscapeAll(s, false)) == EscapeAll(s, true)
    decreases |s|
  {
    if s == [] {
    } else if StartsWithPair(s) {
      SubFree([s[0], s[1]]);
      SubAppend([s[0], s[1]], EscapeAll(s[2..], false));
      SubEscapeAll(s[2..]);
    } else {
      SubEscape(s[0]);
      SubAppend(Escape(s[0], false), EscapeAll(s[1..], false));
      SubEscapeAll(s[1..]);
    }
  }

  lemma SubQuote(s: Text)
    ensures Sub(Quote(s, false)) == Quote(s, true)
  {
    SubEscapeAll(s);
    SubFree([QUOTE]);
    SubAppend([QUOTE], EscapeAll(s, false));
    SubAppend([QUOTE] + EscapeAll(s, false), [QUOTE]);
  }

  /** The passes only meet special units inside strings, so the result is the same value printed
      with those units escaped. */
  lemma {:induction false} SubPrint(v: Value)
    requires WellFormed(v)
    ensures Sub(Print(v, false)) == Print(v, true)
    decreases v, 1
  {
    match v
    case Null => SubFree(NULL);
    case Bool(b) => SubFree(if b then TRUE else FALSE);
    case Num(token) => SubFree(token);
    case Str(text) => SubQuote(text);
    case Arr(items) =>
      if items == [] {
        SubFree([OPEN_ARRAY, CLOSE_ARRAY]);
      } else {
        SubFree([OPEN_ARRAY]);
        SubAppend([OPEN_ARRAY], PrintItems(items, false));
        SubItems(items);
      }
    case Obj(members) =>
      if members == [] {
        SubFree([OPEN_OBJECT, CLOSE_OBJECT]);
      } else {
        SubFree([OPEN_OBJECT]);
        SubAppend([OPEN_OBJECT], PrintMembers(members, false));
        SubMembers(members);
      }
  }

  lemma {:induction false} SubItems(items: seq<Value>)
    requires items != [] && WellFormedItems(items)
    ensures Sub(PrintItems(items, false)) == PrintItems(items, true)
    decreases items, 0
  {
    SubPrint(items[0]);
    if |items| == 1 {
      SubFree([CLOSE_ARRAY]);
      SubAppend(Print(items[0], false), [CLOSE_ARRAY]);
    } else {
      SubFree([COMMA]);
      SubItems(items[1..]);
      SubAppend([COMMA], PrintItems(items[1..], false));
      SubAppend(Print(items[0], false), [COMMA] + PrintItems(items[1..], false));
    }
  }

  lemma {:induction false} SubMember(m: Member)
    requires WellFormed(m.value)
    ensures Sub(PrintMember(m, false)) == PrintMember(m, true)
    decreases m, 0
  {
    SubQuote(m.key);
    SubPrint(m.value);
    SubFree([COLON]);
    SubAppend([COLON], Print(m.value, false));
    SubAppend(Quote(m.key, false), [COLON] + Print(m.value, false));
  }

  lemma {:induction false} SubMembers(members: seq<Member>)
    requires members != [] && WellFormedMembers(members)
    ensures Sub(PrintMembers(members, false)) == PrintMembers(members, true)
    decreases members, 0
  {
    SubMember(members[0]);
    if |members| == 1 {
      SubFree([CLOSE_OBJECT]);
      SubAppend(PrintMember(members[0], false), [CLOSE_OBJECT]);
    } else {
      SubFree([COMMA]);
      SubMembers(members[1..]);
      SubAppend([COMMA], PrintMembers(members[1..], false));
      SubAppend(PrintMember(members[0], false), [COMMA] + PrintMembers(members[1..], false));
    }
  }

  lemma {:induction false} SubSafe(t: Text)
    ensures forall i :: 0 <= i < |Sub(t)| ==> !Special(Sub(t)[i])
    decreases |t|
  {
    if t != [] {
      HexPlain(t[0]);
      SubSafe(t[1..]);
    }
  }

  /** For every JSON value the embedded text holds no "<", no ">" and neither separator, and parsing
      it gives the value back. */
  lemma EmbedSafeAndFaithful(v: Value)
    requires WellFormed(v)
    ensures forall i :: 0 <= i < |EmbedText(v)| ==>
              var u := EmbedText(v)[i]; u != '<' as int && u != '>' as int && u != 0x2028 && u != 0x2029
    ensures Parse(EmbedText(v)) == Some(v)
  {
    FourPassesAreOne(Print(v, false));
    SubPrint(v);
    SubSafe(Print(v, false));
    PrintRoundTrip(v, true);
  }
}
