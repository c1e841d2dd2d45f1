/** The walk of lib/page-binding-gate.ts over a page's body: which blocks are resolved, and under
    which path. The paths are those `CacheKeys` expects of a block. */
module PageWalk {
  import opened Json
  import opened CacheKeys
  import opened Wrappers

  // ---- what a block asks for ----

  /** What an object's `type` and props make of it; `ask` when it declares something to resolve. */
  datatype Class = ModuleBlock(ask: bool) | LiveBlock(ask: bool) | Plain

  function Field(members: seq<Member>, key: string): Option<Value> {
    if members == [] then None
    else if members[|members| - 1].key == Ascii(key) then Some(members[|members| - 1].value)
    else Field(members[..|members| - 1], key)
  }

  /** `toLowerCase`, as far as it can make a text equal to one of the names below: A to Z, and the
      Kelvin sign. */
  function Lower(u: Unit): Unit {
    if 65 <= u <= 90 then u + 32 else if u == 0x212A then 107 else u
  }

  function TypeOf(members: seq<Member>): Text {
    match Field(members, "type")
    case Some(Str(t)) => seq(|t|, i requires 0 <= i < |t| => Lower(t[i]))
    case _ => []
  }

  predicate NamesModule(members: seq<Member>) {
    match Field(members, "module") case Some(Str(_)) => true case _ => false
  }

  predicate IsLive(type_: Text) {
    type_ in {Ascii("live_stock_chart"), Ascii("livestockchart"), Ascii("live_chart"), Ascii("livechart")}
  }

  function Classify(members: seq<Member>): Class {
    var type_ := TypeOf(members);
    var props := match Field(members, "props") case Some(Obj(props)) => props case _ => [];
    var seed := match Field(props, "seed") case Some(Obj(seed)) => seed case _ => [];
    if type_ == Ascii("module") then
      ModuleBlock(Field(props, "when") == Some(Str(Ascii("request"))) && NamesModule(props))
    else if IsLive(type_) then LiveBlock(NamesModule(seed))
    else Plain
  }

  /** The value under this name is that text. */
  ghost predicate Reads(members: seq<Member>, name: string, text: string) {
    Field(members, name) == Some(Str(Ascii(text)))
  }

  /** The `type` is this name in any mixture of cases. */
  ghost predicate Typed(members: seq<Member>, name: string) {
    match Field(members, "type")
    case Some(Str(t)) => |t| == |name| && forall i :: 0 <= i < |t| ==> SameLetter(t[i], name[i])
    case _ => false
  }

  /** The unit is this lower-case letter or underscore, or its capital; the Kelvin sign is a capital "k". */
  ghost predicate SameLetter(u: Unit, c: char) {
    || u == c as int || ('a' <= c <= 'z' && u == c as int - 32) || (c == 'k' && u == 0x212A)
  }

  ghost predicate HasText(members: seq<Member>, name: string) {
    match Field(members, name) case Some(Str(_)) => true case _ => false
  }

  /** The props say `when: "request"` and name a module. */
  ghost predicate AsksOnRequest(members: seq<Member>) {
    match Field(members, "props")
    case Some(Obj(props)) => Reads(props, "when", "request") && HasText(props, "module")
    case _ => false
  }

  /** The props hold a seed that names a module. */
  ghost predicate HasSeed(members: seq<Member>) {
    match Field(members, "props")
    case Some(Obj(props)) => (match Field(props, "seed") case Some(Obj(seed)) => HasText(seed, "module") case _ => false)
    case _ => false
  }

  /** A block typed `module` asks on request, a live chart, under any of its four names, by its seed; no
      other object is either. */
  lemma ClassMeans(members: seq<Member>)
    ensures var c := Classify(members);
            && (c.ModuleBlock? <==> Typed(members, "module"))
            && (c.LiveBlock? <==> Typed(members, "live_stock_chart") || Typed(members, "livestockchart")
                                  || Typed(members, "live_chart") || Typed(members, "livechart"))
            && (c.ModuleBlock? ==> (c.ask <==> AsksOnRequest(members)))
            && (c.LiveBlock? ==> (c.ask <==> HasSeed(members)))
  {
    ClassTypes(members);
    ModuleType(members);
    LiveTypes(members);
    ClassAsks(members);
  }

  lemma ModuleType(members: seq<Member>)
    ensures TypeOf(members) == Ascii("module") <==> Typed(members, "module")
  {
    TypeMeans(members, "module");
  }

  lemma LiveTypes(members: seq<Member>)
    ensures TypeOf(members) == Ascii("live_stock_chart") <==> Typed(members, "live_stock_chart")
    ensures TypeOf(members) == Ascii("livestockchart") <==> Typed(members, "livestockchart")
    ensures TypeOf(members) == Ascii("live_chart") <==> Typed(members, "live_chart")
    ensures TypeOf(members) == Ascii("livechart") <==> Typed(members, "livechart")
  {
    TypeMeans(members, "live_stock_chart");
    TypeMeans(members, "livestockchart");
    TypeMeans(members, "live_chart");
    TypeMeans(members, "livechart");
  }

  lemma ClassTypes(members: seq<Member>)
    ensures var c, t := Classify(members), TypeOf(members);
            && (c.ModuleBlock? <==> t == Ascii("module"))
            && (c.LiveBlock? <==> t == Ascii("live_stock_chart") || t == Ascii("livestockchart")
                                  || t == Ascii("live_chart") || t == Ascii("livechart"))
  {
    assert |Ascii("module")| == 6 && |Ascii("live_stock_chart")| == 16 && |Ascii("livestockchart")| == 14;
    assert |Ascii("live_chart")| == 10 && |Ascii("livechart")| == 9;
  }

  lemma ClassAsks(members: seq<Member>)
    ensures Classify(members).ModuleBlock? ==> (Classify(members).ask <==> AsksOnRequest(members))
    ensures Classify(members).LiveBlock? ==> (Classify(members).ask <==> HasSeed(members))
  {
    assert Field([], "seed") == None && Field([], "module") == None && Field([], "when") == None;
  }

  lemma TypeMeans(members: seq<Member>, name: string)
    requires name != "" && forall i :: 0 <= i < |name| ==> 'a' <= name[i] <= 'z' || name[i] == '_'
    ensures TypeOf(members) == Ascii(name) <==> Typed(members, name)
  {
    match Field(members, "type")
    case Some(Str(t)) =>
      var lowered := TypeOf(members);
      assert forall i :: 0 <= i < |t| && |t| == |name| ==> (lowered[i] == name[i] as int <==> SameLetter(t[i], name[i]));
      assert |lowered| == |t| && |Ascii(name)| == |name|;
      if lowered == Ascii(name) {
        assert forall i :: 0 <= i < |t| ==> lowered[i] == Ascii(name)[i] == name[i] as int;
      }
    case _ =>
      assert |Ascii(name)| > 0;
  }

  ghost predicate LastOf(members: seq<Member>, name: string, v: Value, i: int) {
    && 0 <= i < |members| && members[i].key == Ascii(name) && members[i].value == v
    && forall j :: i < j < |members| ==> members[j].key != Ascii(name)
  }

  /** The last member of a name counts. */
  lemma {:induction false} FieldIsLast(members: seq<Member>, name: string, v: Value)
    ensures Field(members, name) == Some(v) <==> exists i :: LastOf(members, name, v, i)
    decreases |members|
  {
    if members != [] {
      var n := |members| - 1;
      FieldIsLast(members[..n], name, v);
      if members[n].key == Ascii(name) {
        if members[n].value == v { assert LastOf(members, name, v, n); }
      } else {
        forall i | LastOf(members[..n], name, v, i) ensures LastOf(members, name, v, i) {}
        forall i | LastOf(members, name, v, i) ensures LastOf(members[..n], name, v, i) {
          assert forall j :: i < j < n ==> members[..n][j] == members[j];
        }
      }
    }
  }

  // ---- the walk ----

  datatype Task = Task(path: Text, live: bool, node: Value)

  function Walk(node: Value, path: Text): seq<Task>
    decreases node, 1
  {
    match node
    case Arr(items) => WalkItems(items, 0, path)
    case Obj(members) =>
      (match Classify(members)
       case ModuleBlock(ask) => if ask then [Task(path, false, node)] else []
       case LiveBlock(ask) => if ask then [Task(path, true, node)] else []
       case Plain => WalkMembers(members, path))
    case _ => []
  }

  function WalkItems(items: seq<Value>, i: nat, path: Text): seq<Task>
    decreases items, 0
  {
    if items == [] then []
    else Walk(items[0], path + [DOT] + Digits(i)) + WalkItems(items[1..], i + 1, path)
  }

  function WalkMembers(members: seq<Member>, path: Text): seq<Task>
    decreases members, 0
  {
    if members == [] then []
    else Walk(members[0].value, path) + WalkMembers(members[1..], path)
  }

  // ---- what it visits ----

  /** `inner`, under `path`, is `outer`, under `at`, or at any depth one of its parts outside the
      blocks the walk stops at. */
  ghost predicate Visited(outer: Value, at: Text, inner: Value, path: Text)
    decreases outer
  {
    || (outer == inner && at == path)
    || (outer.Arr? && exists i :: 0 <= i < |outer.items| && Visited(outer.items[i], at + [DOT] + Digits(i), inner, path))
    || (outer.Obj? && Classify(outer.members).Plain?
        && exists i :: 0 <= i < |outer.members| && Visited(outer.members[i].value, at, inner, path))
  }

  /** The task is for a block that asks, and knows which kind it is. */
  predicate Asks(t: Task) {
    && t.node.Obj? && !Classify(t.node.members).Plain? && Classify(t.node.members).ask
    && (t.live <==> Classify(t.node.members).LiveBlock?)
  }

  /** The tasks are exactly the asking blocks met without entering a module or live block on the way:
      none is missed, and nothing inside a `_baked` list is ever resolved. */
  lemma {:induction false} WalkTasks(node: Value, at: Text, t: Task)
    ensures t in Walk(node, at) <==> Asks(t) && Visited(node, at, t.node, t.path)
    decreases node, 1
  {
    match node
    case Arr(items) => ItemTasks(items, 0, at, t);
    case Obj(members) =>
      if Classify(members).Plain? { MemberTasks(members, at, t); }
    case _ =>
  }

  ghost predicate InItems(items: seq<Value>, n: nat, at: Text, t: Task) {
    exists i :: 0 <= i < |items| && Visited(items[i], at + [DOT] + Digits(n + i), t.node, t.path)
  }

  lemma {:induction false} ItemTasks(items: seq<Value>, n: nat, at: Text, t: Task)
    ensures t in WalkItems(items, n, at) <==> Asks(t) && InItems(items, n, at, t)
    decreases items, 0
  {
    if items != [] {
      WalkTasks(items[0], at + [DOT] + Digits(n), t);
      ItemTasks(items[1..], n + 1, at, t);
      if InItems(items[1..], n + 1, at, t) {
        var i :| 0 <= i < |items[1..]| && Visited(items[1..][i], at + [DOT] + Digits(n + 1 + i), t.node, t.path);
        assert Visited(items[i + 1], at + [DOT] + Digits(n + (i + 1)), t.node, t.path);
      }
      if InItems(items, n, at, t) {
        var i :| 0 <= i < |items| && Visited(items[i], at + [DOT] + Digits(n + i), t.node, t.path);
        if i > 0 { assert Visited(items[1..][i - 1], at + [DOT] + Digits(n + 1 + (i - 1)), t.node, t.path); }
      }
    }
  }

  ghost predicate InMembers(members: seq<Member>, at: Text, t: Task) {
    exists i :: 0 <= i < |members| && Visited(members[i].value, at, t.node, t.path)
  }

  lemma {:induction false} MemberTasks(members: seq<Member>, at: Text, t: Task)
    ensures t in WalkMembers(members, at) <==> Asks(t) && InMembers(members, at, t)
    decreases members, 0
  {
    if members != [] {
      WalkTasks(members[0].value, at, t);
      MemberTasks(members[1..], at, t);
      if InMembers(members[1..], at, t) {
        var i :| 0 <= i < |members[1..]| && Visited(members[1..][i].value, at, t.node, t.path);
        assert Visited(members[i + 1].value, at, t.node, t.path);
      }
      if InMembers(members, at, t) {
        var i :| 0 <= i < |members| && Visited(members[i].value, at, t.node, t.path);
        if i > 0 { assert Visited(members[1..][i - 1].value, at, t.node, t.path); }
      }
    }
  }

  /** The asking blocks the walk meets, counted where they stand. */
  ghost function Asking(node: Value): nat
    decreases node, 1
  {
    match node
    case Arr(items) => AskingItems(items)
    case Obj(members) => if Classify(members).Plain? then AskingMembers(members) else if Classify(members).ask then 1 else 0
    case _ => 0
  }

  ghost function AskingItems(items: seq<Value>): nat
    decreases items, 0
  {
    if items == [] then 0 else Asking(items[0]) + AskingItems(items[1..])
  }

  ghost function AskingMembers(members: seq<Member>): nat
    decreases members, 0
  {
    if members == [] then 0 else Asking(members[0].value) + AskingMembers(members[1..])
  }

  /** Each of them is one task. */
  lemma {:induction false} OneTaskEach(node: Value, at: Text)
    ensures |Walk(node, at)| == Asking(node)
    decreases node, 1
  {
    match node
    case Arr(items) => OneTaskEachItem(items, 0, at);
    case Obj(members) =>
      if Classify(members).Plain? { OneTaskEachMember(members, at); }
    case _ =>
  }

  lemma {:induction false} OneTaskEachItem(items: seq<Value>, n: nat, at: Text)
    ensures |WalkItems(items, n, at)| == AskingItems(items)
    decreases items, 0
  {
    if items != [] {
      OneTaskEach(items[0], at + [DOT] + Digits(n));
      OneTaskEachItem(items[1..], n + 1, at);
    }
  }

  lemma {:induction false} OneTaskEachMember(members: seq<Member>, at: Text)
    ensures |WalkMembers(members, at)| == AskingMembers(members)
    decreases members, 0
  {
    if members != [] {
      OneTaskEach(members[0].value, at);
      OneTaskEachMember(members[1..], at);
    }
  }

  // ---- the paths ----

  lemma {:induction false} VisitedPath(outer: Value, indices: seq<nat>, inner: Value, path: Text) returns (further: seq<nat>)
    requires Visited(outer, PathOf(indices), inner, path)
    ensures path == PathOf(further) && |further| >= |indices|
    ensures outer.Arr? && inner.Obj? ==> |further| > |indices|
    decreases outer
  {
    if outer == inner && PathOf(indices) == path {
      further := indices;
    } else if outer.Arr? {
      var i :| 0 <= i < |outer.items| && Visited(outer.items[i], PathOf(indices) + [DOT] + Digits(i), inner, path);
      assert (indices + [i])[..|indices|] == indices;
      further := VisitedPath(outer.items[i], indices + [i], inner, path);
    } else {
      var i :| 0 <= i < |outer.members| && Visited(outer.members[i].value, PathOf(indices), inner, path);
      further := VisitedPath(outer.members[i].value, indices, inner, path);
    }
  }

  /** Every task of a page's body, which is an array walked from "0", has a block's path. */
  lemma TaskPaths(items: seq<Value>, t: Task)
    requires t in Walk(Arr(items), PathOf([]))
    ensures BlockPath(t.path)
  {
    WalkTasks(Arr(items), PathOf([]), t);
    var indices := VisitedPath(Arr(items), [], t.node, t.path);
  }
}
