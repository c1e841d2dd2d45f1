/** What each step of the binding gate does, over every run of steps, said of the request itself: its
    gate config, its requested action, its `cacheTtl`, the entry found under its key. */
module BindingLaws {
  import opened Json
  import opened CacheKeys
  import opened BindingGate
  import opened Wrappers

  // ---- what a request asks for ----

  /** The lifetime in milliseconds a `cacheTtl` in seconds stands for: whole seconds, from a minute to an
      hour, five minutes when there is none. */
  ghost predicate LifetimeOf(ttl: Option<real>, ms: int) {
    match ttl
    case None => ms == 300_000
    case Some(seconds) =>
      if seconds < 60.0 then ms == 60_000
      else if seconds > 3600.0 then ms == 3_600_000
      else ms % 1000 == 0 && ms as real <= seconds * 1000.0 < (ms + 1000) as real
  }

  /** The action a page is let through with: the requested one, or the declared one when it names none;
      declared or allowed besides, and not among those that need approval. */
  ghost predicate LetThrough(cfg: Option<GateConfig>, requested: Text, action: Text) {
    && cfg.Some? && cfg.value.declared != []
    && action == (if requested == [] then cfg.value.declared else requested)
    && (action == cfg.value.declared || action in cfg.value.extra)
    && !cfg.value.approval.AllActions? && (cfg.value.approval.Actions? ==> action !in cfg.value.approval.list)
  }

  lemma LetThroughIsGate(cfg: Option<GateConfig>, requested: Text)
    ensures forall action :: LetThrough(cfg, requested, action) <==> PageBindingGate(cfg, requested) == Some(action)
  {
  }

  lemma LifetimeIsClamp(ttl: Option<real>)
    ensures LifetimeOf(ttl, ClampTtlMs(ttl))
  {
  }

  // ---- arriving ----

  /** A visitor let through carries its own block under the action it was let through with, its own key
      and the lifetime of its own request; any other is refused. */
  ghost predicate Follows(v: Visit, spec: Spec, cfg: Option<GateConfig>, requested: Text, ttl: Option<real>) {
    if exists action :: LetThrough(cfg, requested, action) then
      && LetThrough(cfg, requested, v.spec.action) && v.spec == spec.(action := v.spec.action)
      && v.key == CacheKey(v.spec) && LifetimeOf(ttl, v.ttlMs) && !v.phase.RefusedByGate?
    else v.phase.RefusedByGate?
  }

  /** The entry under a key still lives: less time has passed since it was stored than it was stored for. */
  ghost predicate Fresh(s: State, key: Text) {
    key in s.cache && s.now - s.cache[key].t < s.cache[key].ttlMs
  }

  lemma MoreOps(ops: seq<Op>, op: Op)
    ensures RunOps(ops + [op]) == Step(RunOps(ops), op)
  {
    assert (ops + [op])[..|ops|] == ops;
  }

  /** What a visitor past the gate meets, and leaves for those after it. */
  ghost predicate Enters(s: State, t: State, v: Visit) {
    var served := Fresh(s, v.key) && (v.spec.kind.Derived? || |s.cache| <= 1000);
    && t.cache == (if !v.spec.kind.Derived? && |s.cache| > 1000 then map[] else s.cache)
    && (v.phase.Hit? <==> served) && (v.phase.Waiting? <==> !served)
    && (served ==> v.phase.blocks == s.cache[v.key].blocks && t.runs == s.runs && t.inflight == s.inflight)
    && (!served && v.key in s.inflight ==> v.phase.run == s.inflight[v.key] && t.runs == s.runs && t.inflight == s.inflight)
    && (!served && v.key !in s.inflight ==>
          v.phase.run == |s.runs| && t.runs == s.runs + [Run(v.spec, v.key, None)] && t.inflight == s.inflight[v.key := |s.runs|])
  }

  lemma EnterMeans(s: State, x: Spec, key: Text, ttlMs: int)
    ensures var t := EnterStep(s, x, key, ttlMs); var v := t.visits[|t.visits| - 1];
            && |t.visits| == |s.visits| + 1 && t.visits[..|s.visits|] == s.visits && t.now == s.now
            && v.spec == x && v.key == key && v.ttlMs == ttlMs && v.since == s.now && !v.phase.RefusedByGate?
            && Enters(s, t, v)
  {
  }

  lemma ArriveMeans(s: State, spec: Spec, cfg: Option<GateConfig>, requested: Text, ttl: Option<real>)
    ensures var t := ArriveStep(s, spec, cfg, requested, ttl); var v := t.visits[|t.visits| - 1];
            && |t.visits| == |s.visits| + 1 && t.visits[..|s.visits|] == s.visits && t.now == s.now
            && v.since == s.now && Follows(v, spec, cfg, requested, ttl)
            && (v.phase.RefusedByGate? ==> t == s.(visits := t.visits))
            && (!v.phase.RefusedByGate? ==> Enters(s, t, v))
  {
    LetThroughIsGate(cfg, requested);
    match PageBindingGate(cfg, requested)
    case None =>
      assert forall action :: !LetThrough(cfg, requested, action);
    case Some(action) =>
      var x := spec.(action := action);
      EnterMeans(s, x, CacheKey(x), ClampTtlMs(ttl));
      LifetimeIsClamp(ttl);
      assert LetThrough(cfg, requested, action) && x == spec.(action := x.action);
  }

  /** After any run: a visitor let through is served from the cache, with exactly what is stored under its
      key, if and only if that is fresh and, unless the visitor is a derived analysis, the cache has at
      most a thousand entries. Otherwise it waits: for the run under way for its key if there is one, else
      for one it starts. */
  lemma Arrival(ops: seq<Op>, spec: Spec, cfg: Option<GateConfig>, requested: Text, ttl: Option<real>)
    ensures var s := RunOps(ops); var t := RunOps(ops + [Arrive(spec, cfg, requested, ttl)]);
            && |t.visits| == |s.visits| + 1 && t.visits[..|s.visits|] == s.visits && t.now == s.now
            && var v := t.visits[|s.visits|];
               && v.since == s.now && Follows(v, spec, cfg, requested, ttl)
               && (v.phase.RefusedByGate? ==> t == s.(visits := t.visits))
               && (!v.phase.RefusedByGate? ==> Enters(s, t, v))
  {
    MoreOps(ops, Arrive(spec, cfg, requested, ttl));
    ArriveMeans(RunOps(ops), spec, cfg, requested, ttl);
  }

  // ---- settling, going on, waiting ----

  /** A run under way ends with what it returned, a list of no blocks counting as nothing, and leaves the
      flight. */
  lemma Settling(ops: seq<Op>, r: nat, answer: Option<seq<Block>>)
    requires r < |RunOps(ops).runs| && RunOps(ops).runs[r].settled.None?
    ensures var s := RunOps(ops); var t := RunOps(ops + [Settle(r, answer)]);
            && |t.runs| == |s.runs| && (forall i :: 0 <= i < |s.runs| && i != r ==> t.runs[i] == s.runs[i])
            && t.runs[r].spec == s.runs[r].spec && t.runs[r].key == s.runs[r].key && t.runs[r].settled.Some?
            && t.runs[r].settled.value.at == s.now
            && (answer.Some? && answer.value != [] ==> t.runs[r].settled.value.blocks == answer)
            && (answer == None || answer == Some([]) ==> t.runs[r].settled.value.blocks == None)
            && t.inflight == s.inflight - {s.runs[r].key} && t.cache == s.cache && t.visits == s.visits && t.now == s.now
  {
    MoreOps(ops, Settle(r, answer));
  }

  /** A waiter whose run returned blocks is served them and stores them under its key, as of its own
      arrival and for its own lifetime. One whose run returned nothing stores nothing: a page block keeps
      what it had, the others are served what is stored under their key, however old. */
  lemma GoingOn(ops: seq<Op>, v: nat)
    requires v < |RunOps(ops).visits| && RunOps(ops).visits[v].phase.Waiting?
    requires var r := RunOps(ops).visits[v].phase.run; r < |RunOps(ops).runs| && RunOps(ops).runs[r].settled.Some?
    ensures var s := RunOps(ops); var t := RunOps(ops + [Resume(v)]); var before, after := s.visits[v], t.visits[v];
            && |t.visits| == |s.visits| && (forall i :: 0 <= i < |s.visits| && i != v ==> t.visits[i] == s.visits[i])
            && after == before.(phase := after.phase) && t.runs == s.runs && t.inflight == s.inflight && t.now == s.now
            && var run := s.runs[before.phase.run];
               match run.settled.value.blocks
               case Some(blocks) =>
                 && after.phase == Ran(before.phase.run, blocks, before.since)
                 && t.cache == s.cache[before.key := Entry(blocks, before.since, before.ttlMs)]
               case None =>
                 && t.cache == s.cache
                 && (before.spec.kind.One? || before.key !in s.cache ==> after.phase == Failed(before.phase.run))
                 && (!before.spec.kind.One? && before.key in s.cache ==> after.phase == Reread(s.cache[before.key].blocks))
  {
    MoreOps(ops, Resume(v));
  }

  function Elapsed(ops: seq<Op>): nat {
    if ops == [] then 0
    else Elapsed(ops[..|ops| - 1]) + match ops[|ops| - 1] case Tick(ms) => ms case _ => 0
  }

  /** The clock shows the time that has passed. */
  lemma {:induction false} NowIsElapsed(ops: seq<Op>)
    ensures RunOps(ops).now == Elapsed(ops)
    decreases |ops|
  {
    if ops != [] { NowIsElapsed(ops[..|ops| - 1]); }
  }

  // ---- over a whole run ----

  /** The requests of a run, in order. */
  function Arrivals(ops: seq<Op>): (arrivals: seq<Op>)
    ensures forall a :: a in arrivals ==> a.Arrive?
  {
    if ops == [] then []
    else Arrivals(ops[..|ops| - 1]) + if ops[|ops| - 1].Arrive? then [ops[|ops| - 1]] else []
  }

  ghost predicate FollowsOp(v: Visit, op: Op)
    requires op.Arrive?
  {
    Follows(v, op.spec, op.cfg, op.requested, op.ttl)
  }

  /** Over every run the visits are those of the requests, in order, each with its own block, gated
      action, key and lifetime, wherever it has got to. */
  lemma {:induction false} VisitsFollow(ops: seq<Op>)
    ensures |RunOps(ops).visits| == |Arrivals(ops)|
    ensures forall i :: 0 <= i < |Arrivals(ops)| ==> Arrivals(ops)[i] in Arrivals(ops) && FollowsOp(RunOps(ops).visits[i], Arrivals(ops)[i])
    decreases |ops|
  {
    if ops != [] {
      var before, op := ops[..|ops| - 1], ops[|ops| - 1];
      assert ops == before + [op];
      VisitsFollow(before);
      match op
      case Arrive(spec, cfg, requested, ttl) => Arrival(before, spec, cfg, requested, ttl);
      case Settle(run, answer) =>
      case Resume(visit) => ResumeFollows(RunOps(before), visit);
      case Tick(ms) =>
    }
  }

  /** Going on changes no visit but in its phase, and none into one refused. */
  lemma ResumeFollows(s: State, v: nat)
    ensures var t := ResumeStep(s, v);
            |t.visits| == |s.visits| && forall i :: 0 <= i < |s.visits| ==>
              t.visits[i].(phase := s.visits[i].phase) == s.visits[i]
              && (t.visits[i].phase.RefusedByGate? <==> s.visits[i].phase.RefusedByGate?)
  {
  }

  /** A visit that was served by its own run stored this entry. */
  ghost predicate StoredBy(v: Visit, key: Text, e: Entry) {
    v.key == key && v.phase.Ran? && v.phase.blocks == e.blocks && e.t == v.since && e.ttlMs == v.ttlMs
  }

  ghost predicate Stored(s: State, key: Text) {
    key in s.cache && exists v :: 0 <= v < |s.visits| && StoredBy(s.visits[v], key, s.cache[key])
  }

  /** Over every run: whatever is in the cache was stored by a visit that its run served, as of that
      visit's arrival and for the lifetime of that visit's own request. */
  lemma {:induction false} EntriesStored(ops: seq<Op>)
    ensures forall k :: k in RunOps(ops).cache ==> Stored(RunOps(ops), k)
    decreases |ops|
  {
    if ops != [] {
      var before, op := ops[..|ops| - 1], ops[|ops| - 1];
      var s, t := RunOps(before), RunOps(ops);
      EntriesStored(before);
      forall k | k in t.cache ensures Stored(t, k) {
        if k in s.cache && t.cache[k] == s.cache[k] {
          var v :| 0 <= v < |s.visits| && StoredBy(s.visits[v], k, s.cache[k]);
          StaysStored(s, op, v);
          assert StoredBy(t.visits[v], k, t.cache[k]);
        } else {
          assert op.Resume? && StoredBy(t.visits[op.visit], k, t.cache[k]);
        }
      }
    }
  }

  /** A visit served by its own run is done. */
  lemma StaysStored(s: State, op: Op, v: nat)
    requires v < |s.visits| && s.visits[v].phase.Ran?
    ensures v < |Step(s, op).visits| && Step(s, op).visits[v] == s.visits[v]
  {
  }
}
