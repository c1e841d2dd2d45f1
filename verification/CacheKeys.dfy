/** The cache keys of lib/page-binding-gate.ts: five fields joined by "|", the last of them JSON.
    Nothing keeps a "|" out of a slug, so the key is read from its end. */
module CacheKeys {
  import opened Json
  import opened JsonRoundTrip
  import opened Wrappers

  const PIPE: Unit := 124
  const HASH: Unit := 35
  const DOT: Unit := 46
  const SEED: Text := [35, 115, 101, 101, 100]                // #seed
  const DERIVE: Text := [35, 100, 101, 114, 105, 118, 101, 58] // #derive:

  /** Which resolver asks. A derived analysis adds its step and a stamp of the rows: how many there
      are, and the date of the last one, which may be any text. */
  datatype Kind = One | Seed | Derived(step: nat, count: nat, date: Text)

  /** What a resolver is about to run. `args` is None when missing or null. */
  datatype Spec = Spec(kind: Kind, slug: Text, path: Text, module_: Text, action: Text, args: Option<Value>, rows: Text)

  function Digits(n: nat): Text {
    (if n < 10 then [] else Digits(n / 10)) + [48 + n % 10]
  }

  /** The path of a block: "0" for the body, and an index for every array on the way. */
  function PathOf(indices: seq<nat>): Text {
    if indices == [] then [48]
    else PathOf(indices[..|indices| - 1]) + [DOT] + Digits(indices[|indices| - 1])
  }

  /** The body of a page is an array, so the path of a block in it has at least one index. */
  ghost predicate BlockPath(path: Text) {
    exists indices :: indices != [] && path == PathOf(indices)
  }

  function Suffix(k: Kind): Text {
    match k
    case One => []
    case Seed => SEED
    case Derived(step, count, date) => DeriveMark(step, count) + date
  }

  function DeriveMark(step: nat, count: nat): Text {
    [HASH] + Digits(step) + DERIVE + Digits(count) + [COLON]
  }

  function KeyArgs(args: Option<Value>): Value {
    match args case None => Obj([]) case Some(v) => v
  }

  function PrefixOf(slug: Text, path: Text, kind: Kind): Text { slug + ([PIPE] + (path + Suffix(kind))) }

  function Prefix(x: Spec): Text { PrefixOf(x.slug, x.path, x.kind) }

  function CacheKey(x: Spec): Text {
    Prefix(x) + [PIPE] + x.module_ + [PIPE] + x.action + [PIPE] + Print(KeyArgs(x.args), false)
  }

  /** What `runBinding` is asked; no args are identified with `{}`. Only a derived analysis sends rows. */
  datatype Request = Request(module_: Text, action: Text, args: Value, rows: Option<Text>)

  function RequestOf(x: Spec): Request {
    Request(x.module_, x.action, KeyArgs(x.args), if x.kind.Derived? then Some(x.rows) else None)
  }

  /** What a resolver can be asked: a derived analysis needs at least one row. */
  ghost predicate ValidSpec(x: Spec) {
    && Without(x.module_, PIPE) && Without(x.action, PIPE)
    && BlockPath(x.path) && WellFormed(KeyArgs(x.args)) && (x.kind.Derived? ==> x.kind.count > 0)
  }

  // ---- JSON text cannot end in a shorter JSON text behind a "|" ----

  datatype Scan = Outside | Inside | Escaped | Broken

  function Next(st: Scan, u: Unit): Scan {
    match st
    case Outside => if u == QUOTE then Inside else if u == BACKSLASH || u == PIPE then Broken else Outside
    case Inside => if u == QUOTE then Outside else if u == BACKSLASH then Escaped else Inside
    case Escaped => if u == PIPE then Broken else Inside
    case Broken => Broken
  }

  function ScanText(st: Scan, t: Text): Scan
    decreases |t|
  {
    if t == [] then st else ScanText(Next(st, t[0]), t[1..])
  }

  lemma {:induction false} ScanAppend(st: Scan, a: Text, b: Text)
    ensures ScanText(st, a + b) == ScanText(ScanText(st, a), b)
    decreases |a|
  {
    if a == [] {
      assert a + b == b;
    } else {
      assert (a + b)[1..] == a[1..] + b;
      ScanAppend(Next(st, a[0]), a[1..], b);
    }
  }

  lemma {:induction false} ScanBroken(t: Text)
    ensures ScanText(Broken, t) == Broken
    decreases |t|
  {
    if t != [] { ScanBroken(t[1..]); }
  }

  /** How a text behaves seen from outside a string and, by mistake, from inside one. */
  predicate Closed(t: Text) {
    ScanText(Outside, t) == Outside && (ScanText(Inside, t) == Inside || ScanText(Inside, t) == Broken)
  }

  lemma ClosedAppend(a: Text, b: Text)
    requires Closed(a) && Closed(b)
    ensures Closed(a + b)
  {
    ScanAppend(Outside, a, b);
    ScanAppend(Inside, a, b);
    ScanBroken(b);
  }

  lemma {:induction false} ClosedPlain(t: Text)
    requires Without(t, QUOTE) && Without(t, BACKSLASH) && Without(t, PIPE)
    ensures Closed(t)
    decreases |t|
  {
    if t != [] { ClosedPlain(t[1..]); }
  }

  /** A string's content, seen from inside, stays inside; seen from outside, stays outside or breaks. */
  predicate Content(t: Text) {
    ScanText(Inside, t) == Inside && (ScanText(Outside, t) == Outside || ScanText(Outside, t) == Broken)
  }

  lemma ContentAppend(a: Text, b: Text)
    requires Content(a) && Content(b)
    ensures Content(a + b)
  {
    ScanAppend(Outside, a, b);
    ScanAppend(Inside, a, b);
    ScanBroken(b);
  }

  lemma ContentRaw(u: Unit)
    requires u != QUOTE && u != BACKSLASH
    ensures Content([u])
  {
    assert [u][1..] == [];
  }

  /** Behind a backslash and one more unit, plain units only. */
  lemma ContentEscape(u: Unit, tail: Text)
    requires u != PIPE && Without(tail, QUOTE) && Without(tail, BACKSLASH)
    ensures Content([BACKSLASH, u] + tail)
  {
    var t := [BACKSLASH, u] + tail;
    assert t[1..] == [u] + tail && ([u] + tail)[1..] == tail;
    ScanBroken([u] + tail);
    InsidePlain(tail);
  }

  lemma {:induction false} InsidePlain(t: Text)
    requires Without(t, QUOTE) && Without(t, BACKSLASH)
    ensures ScanText(Inside, t) == Inside
    decreases |t|
  {
    if t != [] { InsidePlain(t[1..]); }
  }

  lemma EscapeContent(u: Unit)
    ensures Content(Escape(u, false))
  {
    var e := Escape(u, false);
    if |e| == 1 {
      ContentRaw(u);
    } else {
      assert e == [BACKSLASH, e[1]] + e[2..];
      ContentEscape(e[1], e[2..]);
    }
  }

  lemma {:induction false} EscapeAllContent(s: Text)
    ensures Content(EscapeAll(s, false))
    decreases |s|
  {
    if s == [] {
    } else if StartsWithPair(s) {
      ContentRaw(s[0]);
      ContentRaw(s[1]);
      ContentAppend([s[0]], [s[1]]);
      assert [s[0]] + [s[1]] == [s[0], s[1]];
      EscapeAllContent(s[2..]);
      ContentAppend([s[0], s[1]], EscapeAll(s[2..], false));
    } else {
      EscapeContent(s[0]);
      EscapeAllContent(s[1..]);
      ContentAppend(Escape(s[0], false), EscapeAll(s[1..], false));
    }
  }

  lemma QuoteClosed(s: Text)
    ensures Closed(Quote(s, false))
  {
    var e := EscapeAll(s, false);
    EscapeAllContent(s);
    assert [QUOTE][1..] == [];
    ScanAppend(Outside, [QUOTE], e);
    ScanAppend(Outside, [QUOTE] + e, [QUOTE]);
    ScanAppend(Inside, [QUOTE], e);
    ScanAppend(Inside, [QUOTE] + e, [QUOTE]);
  }

  lemma {:induction false} PrintClosed(v: Value)
    requires WellFormed(v)
    ensures Closed(Print(v, false))
    decreases v, 1
  {
    match v
    case Null => ClosedPlain(NULL);
    case Bool(b) => ClosedPlain(if b then TRUE else FALSE);
    case Num(token) => ClosedPlain(token);
    case Str(text) => QuoteClosed(text);
    case Arr(items) =>
      if items == [] {
        ClosedPlain([OPEN_ARRAY, CLOSE_ARRAY]);
      } else {
        ClosedPlain([OPEN_ARRAY]);
        ItemsClosed(items);
        ClosedAppend([OPEN_ARRAY], PrintItems(items, false));
      }
    case Obj(members) =>
      if members == [] {
        ClosedPlain([OPEN_OBJECT, CLOSE_OBJECT]);
      } else {
        ClosedPlain([OPEN_OBJECT]);
        MembersClosed(members);
        ClosedAppend([OPEN_OBJECT], PrintMembers(members, false));
      }
  }

  lemma {:induction false} ItemsClosed(items: seq<Value>)
    requires items != [] && WellFormedItems(items)
    ensures Closed(PrintItems(items, false))
    decreases items, 0
  {
    PrintClosed(items[0]);
    if |items| == 1 {
      ClosedPlain([CLOSE_ARRAY]);
      ClosedAppend(Print(items[0], false), [CLOSE_ARRAY]);
    } else {
      ClosedPlain([COMMA]);
      ItemsClosed(items[1..]);
      ClosedAppend([COMMA], PrintItems(items[1..], false));
      ClosedAppend(Print(items[0], false), [COMMA] + PrintItems(items[1..], false));
    }
  }

  lemma {:induction false} MemberClosed(m: Member)
    requires WellFormed(m.value)
    ensures Closed(PrintMember(m, false))
    decreases m, 0
  {
    QuoteClosed(m.key);
    PrintClosed(m.value);
    ClosedPlain([COLON]);
    ClosedAppend([COLON], Print(m.value, false));
    ClosedAppend(Quote(m.key, false), [COLON] + Print(m.value, false));
  }

  lemma {:induction false} MembersClosed(members: seq<Member>)
    requires members != [] && WellFormedMembers(members)
    ensures Closed(PrintMembers(members, false))
    decreases members, 0
  {
    MemberClosed(members[0]);
    if |members| == 1 {
      ClosedPlain([CLOSE_OBJECT]);
      ClosedAppend(PrintMember(members[0], false), [CLOSE_OBJECT]);
    } else {
      ClosedPlain([COMMA]);
      MembersClosed(members[1..]);
      ClosedAppend([COMMA], PrintMembers(members[1..], false));
      ClosedAppend(PrintMember(members[0], false), [COMMA] + PrintMembers(members[1..], false));
    }
  }

  lemma NoNesting(longer: Text, head: Text, shorter: Text)
    requires Closed(longer) && Closed(shorter)
    ensures longer != head + [PIPE] + shorter
  {
    if longer == head + [PIPE] + shorter {
      ScanAppend(Outside, head + [PIPE], shorter);
      ScanAppend(Outside, head, [PIPE]);
      assert [PIPE][1..] == [];
      ScanBroken(shorter);
    }
  }

  /** No JSON text is some text, a "|" and another JSON text: the "|" would stand in a string, and
      the shorter text, read from inside that string, cannot end it. */
  lemma NoNestedJson(v: Value, head: Text, w: Value)
    requires WellFormed(v) && WellFormed(w)
    ensures Print(v, false) != head + [PIPE] + Print(w, false)
  {
    PrintClosed(v);
    PrintClosed(w);
    NoNesting(Print(v, false), head, Print(w, false));
  }

  // ---- the fields of a key ----

  lemma ShorterHead(a: Text, x: Text, b: Text, y: Text)
    requires a + [PIPE] + x == b + [PIPE] + y && |a| < |b|
    ensures !Without(x, PIPE)
  {
    assert (a + [PIPE] + x)[|b|] == (b + [PIPE] + y)[|b|];
    assert x[|b| - |a| - 1] == PIPE;
  }

  lemma LastField(a: Text, x: Text, b: Text, y: Text)
    requires a + [PIPE] + x == b + [PIPE] + y && Without(x, PIPE) && Without(y, PIPE)
    ensures a == b && x == y
  {
    if |a| < |b| {
      ShorterHead(a, x, b, y);
    } else if |b| < |a| {
      ShorterHead(b, y, a, x);
    } else {
      assert (a + [PIPE] + x)[..|a|] == a && (b + [PIPE] + y)[..|b|] == b;
      assert (a + [PIPE] + x)[|a| + 1..] == x && (b + [PIPE] + y)[|b| + 1..] == y;
    }
  }

  lemma PrintInjective(v: Value, w: Value)
    requires WellFormed(v) && WellFormed(w) && Print(v, false) == Print(w, false)
    ensures v == w
  {
    PrintRoundTrip(v, false);
    PrintRoundTrip(w, false);
  }

  /** A longer JSON tail of one and the same key is impossible. */
  lemma SameTail(a: Text, v: Value, b: Text, w: Value)
    requires WellFormed(v) && WellFormed(w) && a + [PIPE] + Print(v, false) == b + [PIPE] + Print(w, false)
    ensures |a| >= |b|
  {
    if |a| < |b| {
      var s := a + [PIPE] + Print(v, false);
      var head := s[|a| + 1..|b|];
      assert s[|a| + 1..] == Print(v, false);
      assert s[|b|] == PIPE && s[|b| + 1..] == Print(w, false);
      assert s[|a| + 1..] == head + [PIPE] + s[|b| + 1..];
      NoNestedJson(v, head, w);
    }
  }

  /** Equal keys mean one module, one action, one set of args and one prefix, whatever the slugs. */
  lemma KeyFields(x: Spec, y: Spec)
    requires ValidSpec(x) && ValidSpec(y) && CacheKey(x) == CacheKey(y)
    ensures x.module_ == y.module_ && x.action == y.action && KeyArgs(x.args) == KeyArgs(y.args) && Prefix(x) == Prefix(y)
  {
    var a := Prefix(x) + [PIPE] + x.module_ + [PIPE] + x.action;
    var b := Prefix(y) + [PIPE] + y.module_ + [PIPE] + y.action;
    var v, w := KeyArgs(x.args), KeyArgs(y.args);
    SameTail(a, v, b, w);
    SameTail(b, w, a, v);
    assert CacheKey(x)[|a| + 1..] == Print(v, false) && CacheKey(y)[|b| + 1..] == Print(w, false);
    PrintInjective(v, w);
    assert CacheKey(x)[..|a|] == a && CacheKey(y)[..|b|] == b;
    LastField(Prefix(x) + [PIPE] + x.module_, x.action, Prefix(y) + [PIPE] + y.module_, y.action);
    LastField(Prefix(x), x.module_, Prefix(y), y.module_);
  }

  // ---- when a derived analysis shares a key ----

  function Hashes(t: Text): nat {
    if t == [] then 0 else (if t[0] == HASH then 1 else 0) + Hashes(t[1..])
  }

  lemma {:induction false} HashesAppend(a: Text, b: Text)
    ensures Hashes(a + b) == Hashes(a) + Hashes(b)
    decreases |a|
  {
    if a == [] {
      assert a + b == b;
    } else {
      assert (a + b)[1..] == a[1..] + b;
      HashesAppend(a[1..], b);
    }
  }

  lemma {:induction false} HashesNone(t: Text)
    requires Without(t, HASH)
    ensures Hashes(t) == 0
    decreases |t|
  {
    if t != [] { HashesNone(t[1..]); }
  }

  predicate PathText(t: Text) {
    forall i :: 0 <= i < |t| ==> t[i] == DOT || 48 <= t[i] <= 57
  }

  lemma {:induction false} DigitsPath(n: nat)
    ensures PathText(Digits(n))
  {
    if n >= 10 { DigitsPath(n / 10); }
  }

  lemma {:induction false} PathOfText(indices: seq<nat>)
    ensures PathText(PathOf(indices))
    decreases |indices|
  {
    if indices != [] {
      PathOfText(indices[..|indices| - 1]);
      DigitsPath(indices[|indices| - 1]);
    }
  }

  lemma BlockPathText(path: Text)
    requires BlockPath(path)
    ensures PathText(path)
  {
    var indices :| indices != [] && path == PathOf(indices);
    PathOfText(indices);
  }

  /** A block or a seed has at most one "#" behind the slug, a derived analysis at least two. */
  lemma TailHashes(path: Text, k: Kind)
    requires PathText(path)
    ensures k.Derived? ==> Hashes(path + Suffix(k)) >= 2
    ensures !k.Derived? ==> Hashes(path + Suffix(k)) <= 1
  {
    HashesNone(path);
    HashesAppend(path, Suffix(k));
    match k
    case One =>
    case Seed =>
      assert SEED == [HASH] + SEED[1..] && [HASH][1..] == [];
      HashesNone(SEED[1..]);
      HashesAppend([HASH], SEED[1..]);
    case Derived(step, count, date) =>
      MarkHashes(step, count);
      HashesAppend(DeriveMark(step, count), date);
  }

  lemma MarkHashes(step: nat, count: nat)
    ensures Hashes(DeriveMark(step, count)) >= 2
  {
    assert DERIVE == [HASH] + DERIVE[1..] && [HASH][1..] == [];
    HashesNone(DERIVE[1..]);
    HashesAppend([HASH], DERIVE[1..]);
    HashesAppend([HASH], Digits(step));
    HashesAppend([HASH] + Digits(step), DERIVE);
    HashesAppend([HASH] + Digits(step) + DERIVE, Digits(count));
    HashesAppend([HASH] + Digits(step) + DERIVE + Digits(count), [COLON]);
  }

  /** The text is what a derived analysis puts before the module in its key: a slug, a "|", a block's
      path, "#", a step, "#derive:", a number of rows, ":" and a date. */
  ghost predicate DerivePrefix(t: Text) {
    exists slug, path, step, count: nat, date ::
      BlockPath(path) && count > 0 && t == PrefixOf(slug, path, Derived(step, count, date))
  }

  lemma MarkText(step: nat, count: nat)
    ensures Without(DeriveMark(step, count), PIPE)
  {
    DigitsPath(step);
    DigitsPath(count);
    assert Without(DERIVE, PIPE);
  }

  /** A derived prefix up to its date. */
  function DeriveHead(slug: Text, path: Text, step: nat, count: nat): Text {
    slug + ([PIPE] + (path + DeriveMark(step, count)))
  }

  lemma HeadText(slug: Text, path: Text, step: nat, count: nat)
    requires PathText(path)
    ensures var head := DeriveHead(slug, path, step, count); forall i :: |slug| < i < |head| ==> head[i] != PIPE
  {
    MarkText(step, count);
  }

  lemma DatedPrefix(slug: Text, path: Text, step: nat, count: nat, date: Text)
    ensures PrefixOf(slug, path, Derived(step, count, date)) == DeriveHead(slug, path, step, count) + date
  {
    Regroup(slug, [PIPE], path, DeriveMark(step, count), date);
  }

  lemma Regroup(a: Text, b: Text, c: Text, d: Text, e: Text)
    ensures a + (b + (c + (d + e))) == (a + (b + (c + d))) + e
  {
  }

  /** Only a slug that is itself a derived prefix lets a block or seed share one: its own "|" must
      stand inside the other's date. */
  lemma SharedPrefix(x: Spec, y: Spec)
    requires BlockPath(x.path) && BlockPath(y.path) && !x.kind.Derived? && y.kind.Derived? && y.kind.count > 0
    requires Prefix(x) == Prefix(y)
    ensures DerivePrefix(x.slug)
  {
    BlockPathText(x.path);
    BlockPathText(y.path);
    TailHashes(x.path, x.kind);
    TailHashes(y.path, y.kind);
    LastPipe(x.slug, x.path + Suffix(x.kind), y.slug, y.path + Suffix(y.kind));
    SlugInDate(x, y);
  }

  /** A longer slug reaches into the date of a derived prefix, and so is one itself. */
  lemma SlugInDate(x: Spec, y: Spec)
    requires BlockPath(y.path) && y.kind.Derived? && y.kind.count > 0 && Prefix(x) == Prefix(y) && |y.slug| < |x.slug|
    ensures DerivePrefix(x.slug)
  {
    var Derived(step, count, date) := y.kind;
    BlockPathText(y.path);
    HeadText(y.slug, y.path, step, count);
    DatedPrefix(y.slug, y.path, step, count, date);
    var head := DeriveHead(y.slug, y.path, step, count);
    assert Prefix(x)[|x.slug|] == PIPE;
    assert (head + date)[|x.slug|] == PIPE;
    assert |head| <= |x.slug|;
    var shorter := date[..|x.slug| - |head|];
    assert x.slug == (head + date)[..|x.slug|] == head + shorter;
    DatedPrefix(y.slug, y.path, step, count, shorter);
  }

  /** Of two splits of one text at a "|", the one with no "|" behind it comes last. */
  lemma LastPipe(a: Text, tail: Text, b: Text, other: Text)
    requires a + ([PIPE] + tail) == b + ([PIPE] + other) && Without(tail, PIPE) && Hashes(tail) != Hashes(other)
    ensures |b| < |a|
  {
    Assoc(a, [PIPE], tail);
    Assoc(b, [PIPE], other);
    if |a| < |b| { ShorterHead(a, tail, b, other); }
    assert (a + ([PIPE] + tail))[|a| + 1..] == tail && (b + ([PIPE] + other))[|b| + 1..] == other;
  }

  lemma LongerDate(slug: Text, path: Text, step: nat, count: nat, date: Text, rest: Text)
    ensures PrefixOf(slug, path, Derived(step, count, date + rest)) == PrefixOf(slug, path, Derived(step, count, date)) + rest
  {
    DatedPrefix(slug, path, step, count, date);
    DatedPrefix(slug, path, step, count, date + rest);
    Assoc(DeriveHead(slug, path, step, count), date, rest);
  }

  /** A derived analysis that shares the key of a block or seed of such a slug: it takes the rest of
      that key's prefix for the end of its date. */
  lemma CollidingSpec(x: Spec) returns (y: Spec)
    requires ValidSpec(x) && DerivePrefix(x.slug)
    ensures ValidSpec(y) && y.kind.Derived? && y.action == x.action && CacheKey(y) == CacheKey(x)
  {
    var slug, path, step, count: nat, date :|
      BlockPath(path) && count > 0 && x.slug == PrefixOf(slug, path, Derived(step, count, date));
    var rest := [PIPE] + (x.path + Suffix(x.kind));
    y := Spec(Derived(step, count, date + rest), slug, path, x.module_, x.action, x.args, []);
    LongerDate(slug, path, step, count, date, rest);
    assert Prefix(y) == x.slug + rest == Prefix(x);
  }

  /** The key of a block or seed stands for one request alone if and only if its page's slug is not
      itself a derived prefix. */
  lemma KeyDeterminesRequest(x: Spec)
    requires ValidSpec(x) && !x.kind.Derived?
    ensures (forall y :: ValidSpec(y) && CacheKey(y) == CacheKey(x) ==> RequestOf(y) == RequestOf(x)) <==> !DerivePrefix(x.slug)
  {
    forall y | ValidSpec(y) && CacheKey(y) == CacheKey(x) && RequestOf(y) != RequestOf(x) ensures DerivePrefix(x.slug) {
      KeyFields(x, y);
      SharedPrefix(x, y);
    }
    if DerivePrefix(x.slug) { var y := CollidingSpec(x); }
  }

  // ---- plain slugs ----

  lemma FirstField(a: Text, x: Text, b: Text, y: Text, u: Unit)
    requires a + ([u] + x) == b + ([u] + y) && Without(a, u) && Without(b, u)
    ensures a == b && x == y
  {
    var t := a + ([u] + x);
    assert t[|a|] == u && (b + ([u] + y))[|b|] == u;
    if |a| == |b| {
      assert a == t[..|a|] && b == t[..|b|] && x == t[|a| + 1..] && y == t[|b| + 1..];
    }
  }

  lemma {:induction false} DigitsInjective(m: nat, n: nat)
    requires Digits(m) == Digits(n)
    ensures m == n
  {
    DigitsLength(m);
    DigitsLength(n);
    var a, b := if m < 10 then [] else Digits(m / 10), if n < 10 then [] else Digits(n / 10);
    assert Digits(m)[..|a|] == a && Digits(n)[..|b|] == b && Digits(m)[|a|] == 48 + m % 10 && Digits(n)[|b|] == 48 + n % 10;
    if m >= 10 && n >= 10 { DigitsInjective(m / 10, n / 10); }
  }

  lemma DigitsLength(n: nat)
    ensures |Digits(n)| >= 1 && (|Digits(n)| == 1 <==> n < 10)
  {
  }

  /** A derived suffix gives its step, count and date back. */
  lemma DerivedSuffixInjective(x: Kind, y: Kind)
    requires x.Derived? && y.Derived? && Suffix(x) == Suffix(y)
    ensures x == y
  {
    MarkGroups(x.step, x.count, x.date);
    MarkGroups(y.step, y.count, y.date);
    DigitsPath(x.step);
    DigitsPath(y.step);
    DigitsPath(x.count);
    DigitsPath(y.count);
    var a, b := DERIVE[1..] + (Digits(x.count) + ([COLON] + x.date)), DERIVE[1..] + (Digits(y.count) + ([COLON] + y.date));
    assert Suffix(x)[1..] == Digits(x.step) + ([HASH] + a) && Suffix(y)[1..] == Digits(y.step) + ([HASH] + b);
    FirstField(Digits(x.step), a, Digits(y.step), b, HASH);
    assert a[|DERIVE| - 1..] == Digits(x.count) + ([COLON] + x.date) && b[|DERIVE| - 1..] == Digits(y.count) + ([COLON] + y.date);
    FirstField(Digits(x.count), x.date, Digits(y.count), y.date, COLON);
    DigitsInjective(x.step, y.step);
    DigitsInjective(x.count, y.count);
  }

  lemma MarkGroups(step: nat, count: nat, date: Text)
    ensures DeriveMark(step, count) + date ==
              [HASH] + (Digits(step) + ([HASH] + (DERIVE[1..] + (Digits(count) + ([COLON] + date)))))
  {
    assert DERIVE == [HASH] + DERIVE[1..];
  }

  /** Behind a slug, path and kind can be told apart. */
  lemma TailInjective(p: Text, x: Kind, q: Text, y: Kind)
    requires PathText(p) && PathText(q) && p + Suffix(x) == q + Suffix(y)
    ensures p == q && x == y
  {
    TailHashes(p, x);
    TailHashes(q, y);
    if x.One? || y.One? {
      OneTail(p, x, q, y);
    } else {
      var sx, sy := Suffix(x), Suffix(y);
      SuffixHead(x);
      SuffixHead(y);
      FirstField(p, sx[1..], q, sy[1..], HASH);
      assert sx == [HASH] + sx[1..] && sy == [HASH] + sy[1..];
      if x.Derived? && y.Derived? { DerivedSuffixInjective(x, y); }
    }
  }

  lemma SuffixHead(k: Kind)
    requires !k.One?
    ensures Suffix(k) != [] && Suffix(k) == [HASH] + Suffix(k)[1..]
  {
    if k.Derived? { MarkGroups(k.step, k.count, k.date); }
  }

  lemma NoHashInside(p: Text, q: Text, rest: Text)
    requires PathText(p)
    ensures p != q + ([HASH] + rest)
  {
    assert (q + ([HASH] + rest))[|q|] == HASH;
  }

  lemma OneTail(p: Text, x: Kind, q: Text, y: Kind)
    requires PathText(p) && PathText(q) && p + Suffix(x) == q + Suffix(y) && (x.One? || y.One?)
    ensures p == q && x == y
  {
    assert p + [] == p && q + [] == q;
    if !y.One? {
      SuffixHead(y);
      NoHashInside(p, q, Suffix(y)[1..]);
    } else if !x.One? {
      SuffixHead(x);
      NoHashInside(q, p, Suffix(x)[1..]);
    }
  }

  /** Page, block and resolver, with the step and stamp of a derived analysis. */
  predicate SamePlace(x: Spec, y: Spec) {
    x.slug == y.slug && x.path == y.path && x.kind == y.kind
  }

  /** Between pages whose slugs are no derived prefixes, a key determines everything but the rows. */
  lemma KeyInjective(x: Spec, y: Spec)
    requires ValidSpec(x) && ValidSpec(y) && CacheKey(x) == CacheKey(y)
    requires !DerivePrefix(x.slug) && !DerivePrefix(y.slug)
    ensures SamePlace(x, y) && x.module_ == y.module_ && x.action == y.action && KeyArgs(x.args) == KeyArgs(y.args)
  {
    KeyFields(x, y);
    if x.kind.Derived? != y.kind.Derived? {
      if y.kind.Derived? { SharedPrefix(x, y); } else { SharedPrefix(y, x); }
    } else {
      if |x.slug| < |y.slug| { LongerSlug(y, x); }
      if |y.slug| < |x.slug| { LongerSlug(x, y); }
      assert Prefix(x)[..|x.slug|] == x.slug && Prefix(y)[..|y.slug|] == y.slug;
      assert Prefix(x)[|x.slug| + 1..] == x.path + Suffix(x.kind) && Prefix(y)[|y.slug| + 1..] == y.path + Suffix(y.kind);
      BlockPathText(x.path);
      BlockPathText(y.path);
      TailInjective(x.path, x.kind, y.path, y.kind);
    }
  }

  /** Of two specs with one prefix, the longer slug reaches into the date of the other. */
  lemma LongerSlug(x: Spec, y: Spec)
    requires BlockPath(y.path) && Prefix(x) == Prefix(y) && |y.slug| < |x.slug|
    requires y.kind.Derived? ==> y.kind.count > 0
    ensures DerivePrefix(x.slug)
  {
    BlockPathText(y.path);
    Assoc(x.slug, [PIPE], x.path + Suffix(x.kind));
    Assoc(y.slug, [PIPE], y.path + Suffix(y.kind));
    ShorterHead(y.slug, y.path + Suffix(y.kind), x.slug, x.path + Suffix(x.kind));
    if y.kind.Derived? { SlugInDate(x, y); }
  }

  // ---- the text of a key ----

  /** Slug, path, module, action and args between bars; no args are `{}`. */
  lemma KeyText(x: Spec)
    ensures CacheKey(x) == x.slug + (Ascii("|") + (x.path + Suffix(x.kind))) + Ascii("|") + x.module_ + Ascii("|") + x.action
                           + Ascii("|") + Print(match x.args case None => Obj([]) case Some(v) => v, false)
    ensures PathOf([]) == Ascii("0") && forall ix: seq<nat>, i: nat :: PathOf(ix + [i]) == PathOf(ix) + Ascii(".") + Digits(i)
  {
    forall ix: seq<nat>, i: nat ensures PathOf(ix + [i]) == PathOf(ix) + Ascii(".") + Digits(i) { assert (ix + [i])[..|ix|] == ix; }
    assert Ascii("|") == [PIPE] && Ascii(".") == [DOT];
  }

  /** What stands behind the path: nothing, the seed's mark, or the step and the stamp. */
  lemma SuffixText(step: nat, count: nat, date: Text)
    ensures Suffix(One) == [] && Suffix(Seed) == Ascii("#seed")
    ensures Suffix(Derived(step, count, date)) == Ascii("#") + Digits(step) + Ascii("#derive:") + Digits(count) + Ascii(":") + date
    ensures Digits(7) == Ascii("7") && Digits(30) == Ascii("30")
  {
    assert Ascii("#") == [HASH] && Ascii("#derive:") == DERIVE && Ascii(":") == [COLON];
    assert Digits(3) == Ascii("3");
  }
}
