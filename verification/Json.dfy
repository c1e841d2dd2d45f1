/** JSON text as UTF-16 code units: the printer of `JSON.stringify` and a reader for the grammar of
    RFC 8259 (strings: section 7), without insignificant white space. */
module Json {
  import opened Wrappers

  // A UTF-16 code unit, and a string of them; `Units` says the codes are in range.
  type Unit = int
  type Text = seq<Unit>

  predicate Units(t: Text) {
    forall i :: 0 <= i < |t| ==> 0 <= t[i] < 0x1_0000
  }

  function Ascii(s: string): Text { seq(|s|, i requires 0 <= i < |s| => s[i] as int) }

  predicate Without(t: Text, u: Unit) {
    forall i :: 0 <= i < |t| ==> t[i] != u
  }

  // Characters of the grammar, by their code.
  const QUOTE: Unit := 34
  const BACKSLASH: Unit := 92
  const COMMA: Unit := 44
  const COLON: Unit := 58
  const OPEN_ARRAY: Unit := 91
  const CLOSE_ARRAY: Unit := 93
  const OPEN_OBJECT: Unit := 123
  const CLOSE_OBJECT: Unit := 125
  const LESS: Unit := 60
  const GREATER: Unit := 62
  const LINE_SEPARATOR: Unit := 0x2028
  const PARAGRAPH_SEPARATOR: Unit := 0x2029

  const NULL: Text := [110, 117, 108, 108]
  const TRUE: Text := [116, 114, 117, 101]
  const FALSE: Text := [102, 97, 108, 115, 101]

  datatype Value =
    | Null
    | Bool(b: bool)
    | Num(token: Text)
    | Str(text: Text)
    | Arr(items: seq<Value>)
    | Obj(members: seq<Member>)

  datatype Member = Member(key: Text, value: Value)

  /** Digits, signs, the point and the exponent marks. */
  predicate NumberUnit(u: Unit) {
    48 <= u <= 57 || u == 43 || u == 45 || u == 46 || u == 69 || u == 101
  }

  /** A number is carried as its printed token. */
  predicate NumberToken(t: Text) {
    t != [] && (t[0] == 45 || 48 <= t[0] <= 57) && forall i :: 0 <= i < |t| ==> NumberUnit(t[i])
  }

  predicate WellFormed(v: Value)
    decreases v, 1
  {
    match v
    case Num(t) => NumberToken(t)
    case Str(t) => Units(t)
    case Arr(items) => WellFormedItems(items)
    case Obj(members) => WellFormedMembers(members)
    case _ => true
  }

  predicate WellFormedItems(items: seq<Value>)
    decreases items, 0
  {
    items == [] || (WellFormed(items[0]) && WellFormedItems(items[1..]))
  }

  predicate WellFormedMembers(members: seq<Member>)
    decreases members, 0
  {
    members == [] || (Units(members[0].key) && WellFormed(members[0].value) && WellFormedMembers(members[1..]))
  }

  // ---- printing ----

  function HexDigit(n: int): Unit { if n < 10 then 48 + n else 87 + n }

  function Hex(u: Unit): Text {
    [BACKSLASH, 117, HexDigit(u / 16 / 16 / 16 % 16), HexDigit(u / 16 / 16 % 16), HexDigit(u / 16 % 16), HexDigit(u % 16)]
  }

  /** What must not stand in a script element: "<", ">" and the two separators. */
  predicate Special(u: Unit) {
    u == LESS || u == GREATER || u == LINE_SEPARATOR || u == PARAGRAPH_SEPARATOR
  }

  predicate Surrogate(u: Unit) { 0xD800 <= u <= 0xDFFF }

  /** One unit of a string; `safe` also escapes the special ones. */
  function Escape(u: Unit, safe: bool): Text {
    if u == QUOTE || u == BACKSLASH then [BACKSLASH, u]
    else if u == 8 then [BACKSLASH, 98]
    else if u == 9 then [BACKSLASH, 116]
    else if u == 10 then [BACKSLASH, 110]
    else if u == 12 then [BACKSLASH, 102]
    else if u == 13 then [BACKSLASH, 114]
    else if u < 32 || Surrogate(u) || (safe && Special(u)) then Hex(u)
    else [u]
  }

  /** A surrogate pair is printed raw; a lone surrogate is escaped. */
  predicate StartsWithPair(s: Text) {
    |s| >= 2 && 0xD800 <= s[0] <= 0xDBFF && 0xDC00 <= s[1] <= 0xDFFF
  }

  function EscapeAll(s: Text, safe: bool): Text
    decreases |s|
  {
    if s == [] then []
    else if StartsWithPair(s) then [s[0], s[1]] + EscapeAll(s[2..], safe)
    else Escape(s[0], safe) + EscapeAll(s[1..], safe)
  }

  function Quote(s: Text, safe: bool): Text { [QUOTE] + EscapeAll(s, safe) + [QUOTE] }

  function Print(v: Value, safe: bool): Text
    decreases v, 1
  {
    match v
    case Null => NULL
    case Bool(b) => if b then TRUE else FALSE
    case Num(token) => token
    case Str(text) => Quote(text, safe)
    case Arr(items) => if items == [] then [OPEN_ARRAY, CLOSE_ARRAY] else [OPEN_ARRAY] + PrintItems(items, safe)
    case Obj(members) => if members == [] then [OPEN_OBJECT, CLOSE_OBJECT] else [OPEN_OBJECT] + PrintMembers(members, safe)
  }

  /** The items of a non-empty array with its closing bracket. */
  function PrintItems(items: seq<Value>, safe: bool): Text
    requires items != []
    decreases items, 0
  {
    Print(items[0], safe) + if |items| == 1 then [CLOSE_ARRAY] else [COMMA] + PrintItems(items[1..], safe)
  }

  function PrintMember(m: Member, safe: bool): Text
    decreases m, 0
  {
    Quote(m.key, safe) + ([COLON] + Print(m.value, safe))
  }

  function PrintMembers(members: seq<Member>, safe: bool): Text
    requires members != []
    decreases members, 0
  {
    PrintMember(members[0], safe)
    + if |members| == 1 then [CLOSE_OBJECT] else [COMMA] + PrintMembers(members[1..], safe)
  }

  // ---- reading ----

  datatype Read<+T> = Read(value: T, rest: Text)

  function HexValue(u: Unit): Option<int> {
    if 48 <= u <= 57 then Some(u - 48)
    else if 97 <= u <= 102 then Some(u - 87)
    else if 65 <= u <= 70 then Some(u - 55)
    else None
  }

  function ReadHex(s: Text): Option<Unit> {
    if |s| < 4 then None
    else
      match (HexValue(s[0]), HexValue(s[1]), HexValue(s[2]), HexValue(s[3]))
      case (Some(a), Some(b), Some(c), Some(d)) => Some(4096 * a + 256 * b + 16 * c + d)
      case _ => None
  }

  /** What a short escape stands for. */
  function ShortEscape(u: Unit): Option<Unit> {
    if u == QUOTE || u == BACKSLASH || u == 47 then Some(u)
    else if u == 98 then Some(8)
    else if u == 102 then Some(12)
    else if u == 110 then Some(10)
    else if u == 114 then Some(13)
    else if u == 116 then Some(9)
    else None
  }

  /** The next unit of a string, not at its closing quote. */
  function ReadUnit(s: Text): (r: Option<Read<Unit>>)
    ensures r.Some? ==> |r.value.rest| < |s|
  {
    if s == [] || s[0] < 32 || s[0] == QUOTE then None
    else if s[0] != BACKSLASH then Some(Read(s[0], s[1..]))
    else if |s| < 2 then None
    else if s[1] == 117 then
      match ReadHex(s[2..])
      case Some(u) => Some(Read(u, s[6..]))
      case None => None
    else
      match ShortEscape(s[1])
      case Some(u) => Some(Read(u, s[2..]))
      case None => None
  }

  /** A string from behind its opening quote. */
  function ReadString(s: Text): (r: Option<Read<Text>>)
    ensures r.Some? ==> |r.value.rest| < |s|
    decreases |s|
  {
    if s != [] && s[0] == QUOTE then Some(Read([], s[1..]))
    else
      match ReadUnit(s)
      case None => None
      case Some(first) =>
        match ReadString(first.rest)
        case None => None
        case Some(more) => Some(Read([first.value] + more.value, more.rest))
  }

  function NumberLength(s: Text): (n: nat)
    ensures n <= |s|
  {
    if s == [] || !NumberUnit(s[0]) then 0 else 1 + NumberLength(s[1..])
  }

  function ReadValue(s: Text): (r: Option<Read<Value>>)
    ensures r.Some? ==> |r.value.rest| < |s|
    decreases |s|, 1
  {
    if s == [] then None
    else if s[0] == QUOTE then
      match ReadString(s[1..])
      case Some(t) => Some(Read(Str(t.value), t.rest))
      case None => None
    else if s[0] == OPEN_ARRAY then
      if |s| >= 2 && s[1] == CLOSE_ARRAY then Some(Read(Arr([]), s[2..]))
      else
        match ReadItems(s[1..])
        case Some(items) => Some(Read(Arr(items.value), items.rest))
        case None => None
    else if s[0] == OPEN_OBJECT then
      if |s| >= 2 && s[1] == CLOSE_OBJECT then Some(Read(Obj([]), s[2..]))
      else
        match ReadMembers(s[1..])
        case Some(members) => Some(Read(Obj(members.value), members.rest))
        case None => None
    else if NULL <= s then Some(Read(Null, s[4..]))
    else if TRUE <= s then Some(Read(Bool(true), s[4..]))
    else if FALSE <= s then Some(Read(Bool(false), s[5..]))
    else if s[0] == 45 || 48 <= s[0] <= 57 then Some(Read(Num(s[..NumberLength(s)]), s[NumberLength(s)..]))
    else None
  }

  function ReadItems(s: Text): (r: Option<Read<seq<Value>>>)
    ensures r.Some? ==> |r.value.rest| < |s|
    decreases |s|, 2
  {
    match ReadValue(s)
    case None => None
    case Some(first) =>
      if first.rest == [] then None
      else if first.rest[0] == CLOSE_ARRAY then Some(Read([first.value], first.rest[1..]))
      else if first.rest[0] != COMMA then None
      else
        match ReadItems(first.rest[1..])
        case None => None
        case Some(more) => Some(Read([first.value] + more.value, more.rest))
  }

  function ReadMember(s: Text): (r: Option<Read<Member>>)
    ensures r.Some? ==> |r.value.rest| < |s|
    decreases |s|, 2
  {
    if s == [] || s[0] != QUOTE then None
    else
      match ReadString(s[1..])
      case None => None
      case Some(key) =>
        if key.rest == [] || key.rest[0] != COLON then None
        else
          match ReadValue(key.rest[1..])
          case None => None
          case Some(v) => Some(Read(Member(key.value, v.value), v.rest))
  }

  function ReadMembers(s: Text): (r: Option<Read<seq<Member>>>)
    ensures r.Some? ==> |r.value.rest| < |s|
    decreases |s|, 3
  {
    match ReadMember(s)
    case None => None
    case Some(first) =>
      if first.rest == [] then None
      else if first.rest[0] == CLOSE_OBJECT then Some(Read([first.value], first.rest[1..]))
      else if first.rest[0] != COMMA then None
      else
        match ReadMembers(first.rest[1..])
        case None => None
        case Some(more) => Some(Read([first.value] + more.value, more.rest))
  }

  /** A whole text that is one JSON value. */
  function Parse(s: Text): Option<Value> {
    match ReadValue(s)
    case Some(r) => if r.rest == [] then Some(r.value) else None
    case None => None
  }
}
