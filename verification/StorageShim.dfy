/** The storage an app's document is given (lib/page-app.ts): a map seeded by the page, and, for the
    persistent one, a message to the framing page for every write. */
module StorageShim {
  import opened Wrappers

  datatype Message = Set(key: string, value: string) | Delete(key: string)

  type Store = map<string, string>

  /** What the framing page does with one message. */
  function Apply(store: Store, m: Message): Store {
    match m
    case Set(k, v) => store[k := v]
    case Delete(k) => store - {k}
  }

  function Replay(seed: Store, messages: seq<Message>): Store {
    if messages == [] then seed
    else Apply(Replay(seed, messages[..|messages| - 1]), messages[|messages| - 1])
  }

  datatype State = State(store: Store, posted: seq<Message>)

  /** `order` is how `Object.keys` lists the store: each key once. */
  ghost predicate Lists(order: seq<string>, store: Store) {
    && (forall k :: k in order <==> k in store)
    && (forall i, j :: 0 <= i < j < |order| ==> order[i] != order[j])
  }

  function Keys(order: seq<string>): set<string> { set k | k in order }

  lemma KeysStep(order: seq<string>, i: nat)
    requires i < |order|
    ensures Keys(order[..i + 1]) == Keys(order[..i]) + {order[i]}
    ensures Deletes(order[..i + 1]) == Deletes(order[..i]) + [Delete(order[i])]
  {
    assert order[..i + 1][..i] == order[..i];
  }

  datatype Op = SetItem(key: string, value: string) | RemoveItem(key: string) | Clear(order: seq<string>)

  function Deletes(order: seq<string>): seq<Message> {
    if order == [] then [] else Deletes(order[..|order| - 1]) + [Delete(order[|order| - 1])]
  }

  function Step(persist: bool, s: State, op: Op): State {
    var messages := match op
      case SetItem(k, v) => [Set(k, v)]
      case RemoveItem(k) => [Delete(k)]
      case Clear(order) => Deletes(order);
    var store := match op
      case SetItem(k, v) => s.store[k := v]
      case RemoveItem(k) => s.store - {k}
      case Clear(order) => map[];
    State(store, if persist then s.posted + messages else s.posted)
  }

  function Run(persist: bool, s: State, ops: seq<Op>): State {
    if ops == [] then s
    else Step(persist, Run(persist, s, ops[..|ops| - 1]), ops[|ops| - 1])
  }

  /** What is posted, by the persistent store alone: one message for a write, one for a removal, whether
      the key was there or not, and for a clearing one for each listed key, in order. */
  lemma StepPosts(persist: bool, s: State, op: Op)
    ensures var more := Step(persist, s, op).posted;
            && s.posted <= more && (!persist ==> more == s.posted)
            && (persist && op.SetItem? ==> more == s.posted + [Set(op.key, op.value)])
            && (persist && op.RemoveItem? ==> more == s.posted + [Delete(op.key)])
            && (persist && op.Clear? ==>
                  |more| == |s.posted| + |op.order| && forall i :: 0 <= i < |op.order| ==> more[|s.posted| + i] == Delete(op.order[i]))
  {
    if op.Clear? { DeletesAt(op.order); }
  }

  lemma {:induction false} DeletesAt(order: seq<string>)
    ensures |Deletes(order)| == |order| && forall i :: 0 <= i < |order| ==> Deletes(order)[i] == Delete(order[i])
    decreases |order|
  {
    if order != [] { DeletesAt(order[..|order| - 1]); }
  }

  /** Every `Clear` of the run lists the keys the store had at that moment. */
  ghost predicate ClearsListed(persist: bool, s: State, ops: seq<Op>) {
    ops == []
    || (ClearsListed(persist, s, ops[..|ops| - 1])
        && (ops[|ops| - 1].Clear? ==> Lists(ops[|ops| - 1].order, Run(persist, s, ops[..|ops| - 1]).store)))
  }

  lemma {:induction false} ReplayAppend(seed: Store, a: seq<Message>, b: seq<Message>)
    ensures Replay(seed, a + b) == Replay(Replay(seed, a), b)
    decreases |b|
  {
    if b == [] {
      assert a + b == a;
    } else {
      assert (a + b)[..|a + b| - 1] == a + b[..|b| - 1];
      ReplayAppend(seed, a, b[..|b| - 1]);
    }
  }

  lemma {:induction false} ReplayDeletes(store: Store, order: seq<string>)
    ensures Replay(store, Deletes(order)).Keys == store.Keys - Keys(order)
    decreases |order|
  {
    if order != [] {
      var n := |order| - 1;
      ReplayDeletes(store, order[..n]);
      assert Deletes(order)[..|Deletes(order)| - 1] == Deletes(order[..n]);
      assert Keys(order) == Keys(order[..n]) + {order[n]};
    }
  }

  /** The persistent store is always the seed with every posted message applied in order; the
      session store posts nothing, whatever it is asked to do. */
  lemma {:induction false} PostedMessagesReplay(persist: bool, seed: Store, ops: seq<Op>)
    requires ClearsListed(persist, State(seed, []), ops)
    ensures var s := Run(persist, State(seed, []), ops);
            if persist then s.store == Replay(seed, s.posted) else s.posted == []
    decreases |ops|
  {
    if ops != [] {
      var before := Run(persist, State(seed, []), ops[..|ops| - 1]);
      var op := ops[|ops| - 1];
      PostedMessagesReplay(persist, seed, ops[..|ops| - 1]);
      if persist {
        match op
        case SetItem(k, v) =>
          ReplayAppend(seed, before.posted, [Set(k, v)]);
        case RemoveItem(k) =>
          ReplayAppend(seed, before.posted, [Delete(k)]);
        case Clear(order) =>
          ReplayAppend(seed, before.posted, Deletes(order));
          ReplayDeletes(before.store, order);
          assert Replay(before.store, Deletes(order)).Keys == {};
      }
    }
  }

  // ---- the last write wins ----

  /** What the history says of a key, read from its end, without running it. */
  function LastWrite(seed: Store, ops: seq<Op>, k: string): Option<string> {
    if ops == [] then (if k in seed then Some(seed[k]) else None)
    else
      match ops[|ops| - 1]
      case SetItem(key, v) => if key == k then Some(v) else LastWrite(seed, ops[..|ops| - 1], k)
      case RemoveItem(key) => if key == k then None else LastWrite(seed, ops[..|ops| - 1], k)
      case Clear(_) => None
  }

  lemma {:induction false} GetIsLastWrite(persist: bool, seed: Store, ops: seq<Op>, k: string)
    ensures var store := Run(persist, State(seed, []), ops).store;
            (if k in store then Some(store[k]) else None) == LastWrite(seed, ops, k)
    decreases |ops|
  {
    if ops != [] { GetIsLastWrite(persist, seed, ops[..|ops| - 1], k); }
  }

  // ---- the shim itself ----

  /** `Clear` with the listed keys gone so far. */
  function Cleared(persist: bool, s: State, gone: seq<string>): State {
    State(s.store - Keys(gone), if persist then s.posted + Deletes(gone) else s.posted)
  }

  lemma ClearedStep(persist: bool, s: State, order: seq<string>, i: nat)
    requires i < |order|
    ensures var c := Cleared(persist, s, order[..i]);
            Cleared(persist, s, order[..i + 1])
            == State(c.store - {order[i]}, if persist then c.posted + [Delete(order[i])] else c.posted)
  {
    KeysStep(order, i);
    assert s.posted + (Deletes(order[..i]) + [Delete(order[i])]) == s.posted + Deletes(order[..i]) + [Delete(order[i])];
  }

  lemma ClearedAll(persist: bool, seed: Store, s: State, order: seq<string>)
    requires Lists(order, s.store) && (persist ==> s.store == Replay(seed, s.posted))
    ensures Cleared(persist, s, order) == Step(persist, s, Op.Clear(order))
    ensures persist ==> map[] == Replay(seed, s.posted + Deletes(order))
  {
    assert Keys(order) == s.store.Keys;
    assert s.store - Keys(order) == map[];
    if persist {
      ReplayAppend(seed, s.posted, Deletes(order));
      ReplayDeletes(s.store, order);
      assert Replay(s.store, Deletes(order)).Keys == {};
    }
  }

  lemma RunMore(persist: bool, seed: Store, ops: seq<Op>, op: Op)
    ensures Run(persist, State(seed, []), ops + [op]) == Step(persist, Run(persist, State(seed, []), ops), op)
  {
    assert (ops + [op])[..|ops|] == ops;
  }

  class Shim {
    var store: Store
    const persist: bool
    var posted: seq<Message>
    ghost const seed: Store
    ghost var done: seq<Op> // every call so far

    constructor (seed: Store, persist: bool)
      ensures Valid() && this.seed == seed && this.persist == persist
      ensures Current() == State(seed, []) && done == []
    {
      this.store, this.persist, this.posted, this.seed, this.done := seed, persist, [], seed, [];
    }

    ghost function Current(): State
      reads this
    {
      State(store, posted)
    }

    /** The state is what the calls made of the seed; the framing page, applying what it was sent,
        holds the same store. */
    ghost predicate Valid()
      reads this
    {
      && Current() == Run(persist, State(seed, []), done)
      && if persist then store == Replay(seed, posted) else posted == []
    }

    /** The last write that nothing later undid, or the seed; and what the framing page would read. */
    method GetItem(k: string) returns (v: Option<string>)
      requires Valid()
      ensures v == LastWrite(seed, done, k)
      ensures persist ==> (v.Some? <==> k in Replay(seed, posted)) && (v.Some? ==> v.value == Replay(seed, posted)[k])
    {
      GetIsLastWrite(persist, seed, done, k);
      v := if k in store then Some(store[k]) else None;
    }

    method SetItem(k: string, v: string)
      requires Valid()
      modifies this
      ensures Valid() && Current() == Step(persist, old(Current()), Op.SetItem(k, v))
      ensures done == old(done) + [Op.SetItem(k, v)]
    {
      RunMore(persist, seed, done, Op.SetItem(k, v));
      done := done + [Op.SetItem(k, v)];
      store := store[k := v];
      if persist {
        ReplayAppend(seed, posted, [Set(k, v)]);
        posted := posted + [Set(k, v)];
      }
    }

    method RemoveItem(k: string)
      requires Valid()
      modifies this
      ensures Valid() && Current() == Step(persist, old(Current()), Op.RemoveItem(k))
      ensures done == old(done) + [Op.RemoveItem(k)]
    {
      RunMore(persist, seed, done, Op.RemoveItem(k));
      done := done + [Op.RemoveItem(k)];
      store := store - {k};
      if persist {
        ReplayAppend(seed, posted, [Delete(k)]);
        posted := posted + [Delete(k)];
      }
    }

    method Clear(order: seq<string>)
      requires Valid() && Lists(order, store)
      modifies this
      ensures Valid() && Current() == Step(persist, old(Current()), Op.Clear(order))
      ensures done == old(done) + [Op.Clear(order)]
    {
      ghost var before := Current();
      RunMore(persist, seed, done, Op.Clear(order));
      done := done + [Op.Clear(order)];
      for i := 0 to |order|
        invariant Current() == Cleared(persist, before, order[..i]) && done == old(done) + [Op.Clear(order)]
      {
        ClearedStep(persist, before, order, i);
        if persist {
          posted := posted + [Delete(order[i])];
        }
        store := store - {order[i]};
      }
      assert order[..|order|] == order;
      ClearedAll(persist, seed, before, order);
    }

    method Key(i: nat, order: seq<string>) returns (k: Option<string>)
      requires Valid() && Lists(order, store)
      ensures k.Some? <==> i < |order| && order[i] != ""
      ensures k.Some? ==> k.value == order[i] && k.value in store
    {
      k := if i < |order| && order[i] != "" then Some(order[i]) else None;
    }

    method Length(order: seq<string>) returns (n: nat)
      requires Valid() && Lists(order, store)
      ensures n == |store|
    {
      n := |order|;
      ListsAll(order, store);
    }
  }

  lemma ListsAll(order: seq<string>, store: Store)
    requires Lists(order, store)
    ensures |order| == |store|
  {
    DistinctCount(order);
    assert Keys(order) == store.Keys;
  }

  lemma {:induction false} DistinctCount(order: seq<string>)
    requires forall i, j :: 0 <= i < j < |order| ==> order[i] != order[j]
    ensures |Keys(order)| == |order|
    decreases |order|
  {
    if order != [] {
      var n := |order| - 1;
      DistinctCount(order[..n]);
      assert Keys(order) == Keys(order[..n]) + {order[n]};
    }
  }
}
