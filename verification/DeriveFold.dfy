/** The derive steps of a live chart (lib/page-binding-gate.ts): each step's first block is merged
    into the chart's props in place, the blocks behind it are collected below the chart. What is
    merged comes straight from the cache, so nothing it points to may be changed. */
module DeriveFold {
  import opened Wrappers

  // ---- values ----

  datatype Val = Items(items: seq<string>) | Num(n: real) | Opaque(text: string)
  type Fields = map<string, Val>

  const ANNOTATIONS := "annotations"
  const FUTURE_SLOTS := "futureSlots"
  const AFTER := "_after"

  function At(m: Fields, k: string): Option<Val> { if k in m then Some(m[k]) else None }

  predicate Declared(k: string) { k == "seed" || k == "derive" }

  function Max(a: real, b: real): real { if a >= b then a else b }

  /** What one key of a derived block does to the same key of the chart. */
  function Combine(k: string, before: Option<Val>, v: Val): Val {
    if k == ANNOTATIONS && v.Items? && before.Some? && before.value.Items? then Items(before.value.items + v.items)
    else if k == FUTURE_SLOTS && v.Num? && before.Some? && before.value.Num? then Num(Max(before.value.n, v.n))
    else v
  }

  /** The chart after the given keys of a derived block have been merged. */
  function Merge(props: Fields, derived: Fields, keys: set<string>): Fields
    requires keys <= derived.Keys
  {
    map k | k in props.Keys + (keys - {"seed", "derive"}) ::
      if k in keys && !Declared(k) then Combine(k, At(props, k), derived[k]) else props[k]
  }

  /** What a step left in the cache: nothing usable, or the first block's props and the blocks behind it. */
  datatype StepResult = Nothing | Blocks(first: Fields, tail: seq<string>)

  function MergeStep(props: Fields, r: StepResult): Fields {
    if r.Nothing? then props else Merge(props, r.first, r.first.Keys)
  }

  function MergeAll(props: Fields, steps: seq<StepResult>): Fields {
    if steps == [] then props else MergeStep(MergeAll(props, steps[..|steps| - 1]), steps[|steps| - 1])
  }

  function Tails(steps: seq<StepResult>): seq<string> {
    if steps == [] then []
    else
      var last := steps[|steps| - 1];
      Tails(steps[..|steps| - 1]) + TailOf(last)
  }

  function Finish(props: Fields, after: seq<string>): Fields {
    if after == [] then props - {AFTER} else props[AFTER := Items(after)]
  }

  /** The chart after all its derive steps. */
  function Derived(props: Fields, steps: seq<StepResult>): Fields {
    Finish(MergeAll(props, steps), Tails(steps))
  }

  // ---- what the fold amounts to ----

  function StepVal(r: StepResult, k: string): Option<Val> {
    if r.Nothing? then None else At(r.first, k)
  }

  /** Every value seen for a key, the chart's own first, then step by step. */
  function Seen(props: Fields, steps: seq<StepResult>, k: string): seq<Val> {
    if steps == [] then (if k in props then [props[k]] else [])
    else
      var v := StepVal(steps[|steps| - 1], k);
      Seen(props, steps[..|steps| - 1], k) + if v.Some? then [v.value] else []
  }

  function Joined(vals: seq<Val>): seq<string>
    requires forall i :: 0 <= i < |vals| ==> vals[i].Items?
  {
    if vals == [] then [] else Joined(vals[..|vals| - 1]) + vals[|vals| - 1].items
  }

  ghost predicate IsMaximum(m: real, vals: seq<Val>)
    requires forall i :: 0 <= i < |vals| ==> vals[i].Num?
  {
    && (exists i :: 0 <= i < |vals| && vals[i].n == m)
    && (forall i :: 0 <= i < |vals| ==> vals[i].n <= m)
  }

  /** One step at one key. */
  lemma StepAt(props: Fields, r: StepResult, k: string)
    ensures At(MergeStep(props, r), k) ==
              if Declared(k) || StepVal(r, k) == None then At(props, k)
              else Some(Combine(k, At(props, k), StepVal(r, k).value))
  {
  }

  /** What one step's block does to the chart, key by key: it leaves the declarations, joins a list of
      annotations to a list, keeps the greater of two numbers of slots, and sets anything else. */
  lemma StepMeans(props: Fields, first: Fields, tail: seq<string>, k: string)
    ensures MergeStep(props, Nothing) == props
    ensures var now := At(MergeStep(props, Blocks(first, tail)), k);
            if k == "seed" || k == "derive" || k !in first then now == At(props, k)
            else if k == "annotations" && k in props && props[k].Items? && first[k].Items? then
              now == Some(Items(props[k].items + first[k].items))
            else if k == "futureSlots" && k in props && props[k].Num? && first[k].Num? then
              now == Some(Num(if props[k].n < first[k].n then first[k].n else props[k].n))
            else now == Some(first[k])
  {
  }

  lemma FinishAt(props: Fields, after: seq<string>, k: string)
    requires k != AFTER
    ensures At(Finish(props, after), k) == At(props, k)
  {
  }

  lemma {:induction false} MergeKeepsDeclared(props: Fields, steps: seq<StepResult>, k: string)
    requires Declared(k)
    ensures At(MergeAll(props, steps), k) == At(props, k)
    decreases |steps|
  {
    if steps != [] {
      var n := |steps| - 1;
      MergeKeepsDeclared(props, steps[..n], k);
      StepAt(MergeAll(props, steps[..n]), steps[n], k);
    }
  }

  /** What the chart declares is never overwritten by what it derives. */
  lemma DeclarationsKept(props: Fields, steps: seq<StepResult>, k: string)
    requires k == "seed" || k == "derive"
    ensures At(Derived(props, steps), k) == At(props, k)
  {
    MergeKeepsDeclared(props, steps, k);
    FinishAt(MergeAll(props, steps), Tails(steps), k);
  }

  ghost predicate AllItems(vals: seq<Val>) {
    forall i :: 0 <= i < |vals| ==> vals[i].Items?
  }

  ghost predicate JoinsTo(final: Option<Val>, vals: seq<Val>)
    requires AllItems(vals)
  {
    if vals == [] then final == None else final == Some(Items(Joined(vals)))
  }

  lemma JoinsAppend(final: Option<Val>, vals: seq<Val>, v: Val)
    requires AllItems(vals) && v.Items? && JoinsTo(final, vals)
    ensures AllItems(vals + [v]) && JoinsTo(Some(Combine(ANNOTATIONS, final, v)), vals + [v])
  {
    assert (vals + [v])[..|vals|] == vals;
    assert vals == [] ==> Joined(vals) + v.items == v.items;
  }

  lemma SeenStep(props: Fields, steps: seq<StepResult>, k: string)
    requires steps != []
    ensures var n := |steps| - 1; var v := StepVal(steps[n], k);
            Seen(props, steps, k) == if v.Some? then Seen(props, steps[..n], k) + [v.value] else Seen(props, steps[..n], k)
  {
  }

  lemma AllItemsPrefix(vals: seq<Val>, v: Val)
    requires AllItems(vals + [v])
    ensures AllItems(vals) && v.Items?
  {
    assert forall i :: 0 <= i < |vals| ==> vals[i] == (vals + [v])[i];
    assert (vals + [v])[|vals|] == v;
  }

  lemma {:induction false} MergeJoins(props: Fields, steps: seq<StepResult>)
    requires AllItems(Seen(props, steps, ANNOTATIONS))
    ensures JoinsTo(At(MergeAll(props, steps), ANNOTATIONS), Seen(props, steps, ANNOTATIONS))
    decreases |steps|
  {
    if steps == [] {
      if ANNOTATIONS in props {
        assert Seen(props, steps, ANNOTATIONS) == [] + [props[ANNOTATIONS]];
        AllItemsPrefix([], props[ANNOTATIONS]);
        JoinsAppend(None, [], props[ANNOTATIONS]);
      }
    } else {
      var n := |steps| - 1;
      var before := Seen(props, steps[..n], ANNOTATIONS);
      var v := StepVal(steps[n], ANNOTATIONS);
      SeenStep(props, steps, ANNOTATIONS);
      if v.Some? { AllItemsPrefix(before, v.value); }
      MergeJoins(props, steps[..n]);
      StepAt(MergeAll(props, steps[..n]), steps[n], ANNOTATIONS);
      if v.Some? { JoinsAppend(At(MergeAll(props, steps[..n]), ANNOTATIONS), before, v.value); }
    }
  }

  /** When every annotation value seen is a list, the chart ends with all of them joined in order. */
  lemma AnnotationsJoined(props: Fields, steps: seq<StepResult>)
    requires AllItems(Seen(props, steps, "annotations"))
    ensures At(Derived(props, steps), "annotations") ==
              if Seen(props, steps, "annotations") == [] then None else Some(Items(Joined(Seen(props, steps, "annotations"))))
  {
    MergeJoins(props, steps);
    FinishAt(MergeAll(props, steps), Tails(steps), ANNOTATIONS);
  }

  ghost predicate AllNums(vals: seq<Val>) {
    forall i :: 0 <= i < |vals| ==> vals[i].Num?
  }

  lemma MaximumAppend(m: real, vals: seq<Val>, v: Val)
    requires AllNums(vals) && v.Num? && (vals == [] ==> m == v.n) && (vals != [] ==> IsMaximum(m, vals))
    ensures AllNums(vals + [v]) && IsMaximum(Max(m, v.n), vals + [v])
  {
    var all := vals + [v];
    if Max(m, v.n) == v.n {
      assert all[|vals|].n == v.n;
    } else {
      var i :| 0 <= i < |vals| && vals[i].n == m;
      assert all[i].n == m;
    }
  }

  lemma {:induction false} MergeMaximal(props: Fields, steps: seq<StepResult>)
    requires AllNums(Seen(props, steps, FUTURE_SLOTS))
    ensures var final := At(MergeAll(props, steps), FUTURE_SLOTS); var all := Seen(props, steps, FUTURE_SLOTS);
            if all == [] then final == None else final.Some? && final.value.Num? && IsMaximum(final.value.n, all)
    decreases |steps|
  {
    if steps == [] {
      if FUTURE_SLOTS in props {
        assert Seen(props, steps, FUTURE_SLOTS)[0] == props[FUTURE_SLOTS];
        MaximumAppend(props[FUTURE_SLOTS].n, [], props[FUTURE_SLOTS]);
      }
    } else {
      var n := |steps| - 1;
      var before := Seen(props, steps[..n], FUTURE_SLOTS);
      var v := StepVal(steps[n], FUTURE_SLOTS);
      assert forall i :: 0 <= i < |before| ==> before[i] == Seen(props, steps, FUTURE_SLOTS)[i];
      MergeMaximal(props, steps[..n]);
      StepAt(MergeAll(props, steps[..n]), steps[n], FUTURE_SLOTS);
      if v.Some? {
        assert Seen(props, steps, FUTURE_SLOTS)[|before|] == v.value;
        MaximumAppend(if before == [] then v.value.n else MergeAll(props, steps[..n])[FUTURE_SLOTS].n, before, v.value);
      }
    }
  }

  /** When every slot count seen is a number, the chart ends with the greatest of them. */
  lemma SlotsMaximal(props: Fields, steps: seq<StepResult>)
    requires AllNums(Seen(props, steps, "futureSlots"))
    ensures var final := At(Derived(props, steps), "futureSlots"); var all := Seen(props, steps, "futureSlots");
            if all == [] then final == None else final.Some? && final.value.Num? && IsMaximum(final.value.n, all)
  {
    MergeMaximal(props, steps);
    FinishAt(MergeAll(props, steps), Tails(steps), FUTURE_SLOTS);
  }

  lemma {:induction false} MergeLast(props: Fields, steps: seq<StepResult>, k: string)
    requires !Declared(k) && k != ANNOTATIONS && k != FUTURE_SLOTS
    ensures var all := Seen(props, steps, k);
            At(MergeAll(props, steps), k) == if all == [] then None else Some(all[|all| - 1])
    decreases |steps|
  {
    if steps != [] {
      var n := |steps| - 1;
      MergeLast(props, steps[..n], k);
      StepAt(MergeAll(props, steps[..n]), steps[n], k);
    }
  }

  /** Any other key is the last value seen: a later step overwrites an earlier one. */
  lemma LastStepWins(props: Fields, steps: seq<StepResult>, k: string)
    requires k != "seed" && k != "derive" && k != "annotations" && k != "futureSlots" && k != "_after"
    ensures var all := Seen(props, steps, k);
            At(Derived(props, steps), k) == if all == [] then None else Some(all[|all| - 1])
  {
    MergeLast(props, steps, k);
    FinishAt(MergeAll(props, steps), Tails(steps), k);
  }

  /** The tail of step `k` stands in `all` right behind those of the steps before it. */
  ghost predicate Placed(all: seq<string>, steps: seq<StepResult>, k: nat)
    requires k < |steps|
  {
    var from, to := |Tails(steps[..k])|, |Tails(steps[..k + 1])|;
    && from <= to <= |all|
    && (steps[k].Blocks? ==> all[from..to] == steps[k].tail) && (steps[k].Nothing? ==> from == to)
  }

  /** A step that brought no blocks beyond its first. */
  ghost predicate Bare(r: StepResult) {
    r.Nothing? || r.tail == []
  }

  lemma {:induction false} TailsPrefix(steps: seq<StepResult>, n: nat)
    requires n <= |steps|
    ensures Tails(steps[..n]) <= Tails(steps)
    decreases |steps|
  {
    if n < |steps| {
      var shorter := steps[..|steps| - 1];
      assert shorter[..n] == steps[..n];
      TailsPrefix(shorter, n);
    } else {
      assert steps[..n] == steps;
    }
  }

  lemma TailsPlaced(steps: seq<StepResult>, k: nat)
    requires k < |steps|
    ensures Placed(Tails(steps), steps, k)
  {
    assert steps[..k + 1][..k] == steps[..k] && steps[..k + 1][k] == steps[k];
    TailsPrefix(steps, k + 1);
    Slice(Tails(steps), Tails(steps[..k]), TailOf(steps[k]));
  }

  lemma Slice(all: seq<string>, a: seq<string>, b: seq<string>)
    requires a + b <= all
    ensures |a| <= |a + b| <= |all| && all[|a|..|a + b|] == b
  {
    assert all[..|a + b|] == a + b;
  }

  /** Below the chart, whatever a block itself put there, stand the tails in order with nothing after
      the last; and no list at all when every tail is empty. */
  lemma AfterIsTails(props: Fields, steps: seq<StepResult>)
    ensures var after := At(Derived(props, steps), "_after");
            && (after == None <==> forall k :: 0 <= k < |steps| ==> Bare(steps[k]))
            && (after.Some? ==>
                  && after.value.Items? && |after.value.items| == |Tails(steps)|
                  && forall k :: 0 <= k < |steps| ==> Placed(after.value.items, steps, k))
  {
    forall k | 0 <= k < |steps| ensures Placed(Tails(steps), steps, k) { TailsPlaced(steps, k); }
    if Tails(steps) == [] {
      forall k | 0 <= k < |steps| ensures Bare(steps[k]) { assert Placed(Tails(steps), steps, k); }
    }
    if forall k :: 0 <= k < |steps| ==> Bare(steps[k]) { NoTails(steps); }
  }

  lemma {:induction false} NoTails(steps: seq<StepResult>)
    requires forall k :: 0 <= k < |steps| ==> Bare(steps[k])
    ensures Tails(steps) == []
    decreases |steps|
  {
    if steps != [] { NoTails(steps[..|steps| - 1]); }
  }

  // ---- values on the heap ----

  class JsArray {
    var items: seq<string>
    constructor (items: seq<string>)
      ensures this.items == items
    {
      this.items := items;
    }
  }

  datatype Ref = ListRef(list: JsArray) | NumRef(n: real) | OtherRef(text: string)

  function Arrays(m: map<string, Ref>): set<JsArray> {
    set k | k in m && m[k].ListRef? :: m[k].list
  }

  function ValueOf(v: Ref): Val
    reads if v.ListRef? then {v.list} else {}
  {
    match v
    case ListRef(list) => Items(list.items)
    case NumRef(n) => Num(n)
    case OtherRef(text) => Opaque(text)
  }

  function ValuesOf(m: map<string, Ref>): (f: Fields)
    reads Arrays(m)
    ensures f.Keys == m.Keys
    ensures forall k :: k in m ==>
              && (m[k].ListRef? ==> f[k] == Items(m[k].list.items))
              && (m[k].NumRef? ==> f[k] == Num(m[k].n)) && (m[k].OtherRef? ==> f[k] == Opaque(m[k].text))
  {
    map k | k in m :: ValueOf(m[k])
  }

  class Props {
    var fields: map<string, Ref>
    constructor (fields: map<string, Ref>)
      ensures this.fields == fields
    {
      this.fields := fields;
    }
  }

  // ---- the fold in place ----

  datatype CachedStep = NothingCached | CachedBlocks(first: map<string, Ref>, tail: seq<string>)

  function StepArrays(s: CachedStep): set<JsArray> {
    if s.CachedBlocks? then Arrays(s.first) else {}
  }

  function ResultOf(s: CachedStep): StepResult
    reads StepArrays(s)
  {
    match s
    case NothingCached => Nothing
    case CachedBlocks(first, tail) => Blocks(ValuesOf(first), tail)
  }

  function AllArrays(steps: seq<CachedStep>): set<JsArray> {
    set s, a | s in steps && a in StepArrays(s) :: a
  }

  function Results(steps: seq<CachedStep>): (r: seq<StepResult>)
    reads AllArrays(steps)
    ensures |r| == |steps| && forall i :: 0 <= i < |steps| ==> r[i] == ResultOf(steps[i])
    ensures forall i :: 0 <= i < |steps| ==>
              && (steps[i].NothingCached? ==> r[i] == Nothing)
              && (steps[i].CachedBlocks? ==> r[i] == Blocks(ValuesOf(steps[i].first), steps[i].tail))
  {
    if steps == [] then []
    else
      assert AllArrays(steps[..|steps| - 1]) <= AllArrays(steps);
      assert StepArrays(steps[|steps| - 1]) <= AllArrays(steps);
      Results(steps[..|steps| - 1]) + [ResultOf(steps[|steps| - 1])]
  }

  lemma MergeKey(props: Fields, derived: Fields, keys: set<string>, k: string)
    requires keys <= derived.Keys && k in derived && k !in keys
    ensures var now := Merge(props, derived, keys);
            Merge(props, derived, keys + {k}) == if Declared(k) then now else now[k := Combine(k, At(now, k), derived[k])]
  {
  }

  lemma ValuesUpdate(m: map<string, Ref>, k: string, v: Ref)
    ensures ValuesOf(m[k := v]) == ValuesOf(m)[k := ValueOf(v)]
  {
  }

  /** One key of a derived block; lists are joined in a new array. */
  method MergeKeyInto(props: Props, k: string, v: Ref)
    modifies props
    ensures ValuesOf(props.fields) == old(ValuesOf(props.fields))[k := Combine(k, At(old(ValuesOf(props.fields)), k), old(ValueOf(v)))]
    ensures forall a: JsArray :: old(allocated(a)) ==> a.items == old(a.items)
  {
    var merged := v;
    if k == ANNOTATIONS && v.ListRef? && k in props.fields && props.fields[k].ListRef? {
      var joined := new JsArray(props.fields[k].list.items + v.list.items);
      merged := ListRef(joined);
    } else if k == FUTURE_SLOTS && v.NumRef? && k in props.fields && props.fields[k].NumRef? {
      merged := NumRef(Max(props.fields[k].n, v.n));
    }
    ValuesUpdate(props.fields, k, merged);
    props.fields := props.fields[k := merged];
  }

  /** Merging one derived block writes the chart's props and nothing else: no array that existed
      before, so neither the cached block nor any earlier list changes. */
  method MergeInto(props: Props, derived: map<string, Ref>)
    modifies props
    ensures ValuesOf(props.fields) == MergeStep(old(ValuesOf(props.fields)), Blocks(old(ValuesOf(derived)), []))
    ensures forall a: JsArray :: old(allocated(a)) ==> a.items == old(a.items)
  {
    ghost var before, from := ValuesOf(props.fields), ValuesOf(derived);
    var left := derived.Keys;
    while left != {}
      invariant left <= derived.Keys
      invariant forall a: JsArray :: old(allocated(a)) ==> a.items == old(a.items)
      invariant ValuesOf(props.fields) == Merge(before, from, derived.Keys - left)
      decreases left
    {
      var k :| k in left;
      MergeKey(before, from, derived.Keys - left, k);
      if !Declared(k) {
        MergeKeyInto(props, k, derived[k]);
      }
      assert derived.Keys - (left - {k}) == (derived.Keys - left) + {k};
      left := left - {k};
    }
    assert derived.Keys - left == derived.Keys;
  }

  function TailOf(r: StepResult): seq<string> { if r.Nothing? then [] else r.tail }

  method RunStep(props: Props, step: CachedStep) returns (tail: seq<string>)
    modifies props
    ensures ValuesOf(props.fields) == MergeStep(old(ValuesOf(props.fields)), old(ResultOf(step)))
    ensures tail == TailOf(old(ResultOf(step)))
    ensures forall a: JsArray :: old(allocated(a)) ==> a.items == old(a.items)
  {
    tail := [];
    if step.CachedBlocks? {
      MergeInto(props, step.first);
      tail := step.tail;
    }
  }

  lemma PrefixStep(props: Fields, results: seq<StepResult>, i: nat)
    requires i < |results|
    ensures MergeAll(props, results[..i + 1]) == MergeStep(MergeAll(props, results[..i]), results[i])
    ensures Tails(results[..i + 1]) == Tails(results[..i]) + TailOf(results[i])
  {
    assert results[..i + 1][..i] == results[..i];
  }

  /** A cached step reads as it did when none of its arrays has changed. */
  twostate lemma ResultUnchanged(s: CachedStep)
    requires forall a :: a in StepArrays(s) ==> a.items == old(a.items)
    ensures ResultOf(s) == old(ResultOf(s))
  {
    if s.CachedBlocks? {
      assert forall k :: k in s.first ==> (s.first[k].ListRef? ==> s.first[k].list in StepArrays(s));
      assert forall k :: k in s.first ==> ValueOf(s.first[k]) == old(ValueOf(s.first[k]));
    }
  }

  /** All steps in order, then the blocks below the chart. Nothing that existed before is written but
      the chart's props. */
  method RunDeriveSteps(props: Props, steps: seq<CachedStep>)
    modifies props
    ensures ValuesOf(props.fields) == Derived(old(ValuesOf(props.fields)), old(Results(steps)))
    ensures forall a: JsArray :: old(allocated(a)) ==> a.items == old(a.items)
  {
    ghost var before, results := ValuesOf(props.fields), Results(steps);
    var after: seq<string> := [];
    for i := 0 to |steps|
      invariant forall a: JsArray :: old(allocated(a)) ==> a.items == old(a.items)
      invariant ValuesOf(props.fields) == MergeAll(before, results[..i])
      invariant after == Tails(results[..i])
    {
      PrefixStep(before, results, i);
      ResultUnchanged(steps[i]);
      var tail := RunStep(props, steps[i]);
      after := after + tail;
    }
    assert results[..|steps|] == results;
    AddAfter(props, after);
  }

  method AddAfter(props: Props, after: seq<string>)
    modifies props
    ensures ValuesOf(props.fields) == Finish(old(ValuesOf(props.fields)), after)
    ensures forall a: JsArray :: old(allocated(a)) ==> a.items == old(a.items)
  {
    if after == [] {
      props.fields := props.fields - {AFTER};
    } else {
      var below := new JsArray(after);
      ValuesUpdate(props.fields, AFTER, ListRef(below));
      props.fields := props.fields[AFTER := ListRef(below)];
    }
  }
}
