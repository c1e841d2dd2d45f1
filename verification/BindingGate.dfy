/** The TTL cache and single flight of lib/page-binding-gate.ts as a state machine. Each stretch of
    a resolver between two awaits is one step, and the steps of any number of visitors interleave
    freely. `Resolver` is the mutable form; every method is one step. */
module BindingGate {
  import opened Json
  import opened CacheKeys
  import opened Wrappers

  type Block = string

  // ---- the policy gate ----

  datatype Approval = NoApproval | AllActions | Actions(list: seq<Text>)

  /** What a module's config says about pages: its declared action ("" when it has none), the
      further ones it allows, and the actions that need approval. */
  datatype GateConfig = GateConfig(declared: Text, extra: set<Text>, approval: Approval)

  predicate NeedsApproval(a: Approval, action: Text) {
    a.AllActions? || (a.Actions? && action in a.list)
  }

  /** A page may run this action of the module: it declares one for pages, this is that one or a
      further one it allows, and it needs no approval. */
  predicate MayRun(cfg: Option<GateConfig>, action: Text) {
    && cfg.Some? && cfg.value.declared != []
    && (action == cfg.value.declared || action in cfg.value.extra)
    && !NeedsApproval(cfg.value.approval, action)
  }

  /** The action to run, or None when the page may not run it: exactly what may run is let through,
      and a page that names no action means the declared one. */
  function PageBindingGate(cfg: Option<GateConfig>, requested: Text): (action: Option<Text>)
    ensures requested != [] ==> action == if MayRun(cfg, requested) then Some(requested) else None
    ensures requested == [] && cfg.Some? ==>
              action == if MayRun(cfg, cfg.value.declared) then Some(cfg.value.declared) else None
    ensures cfg == None ==> action == None
  {
    match cfg
    case None => None
    case Some(c) =>
      if c.declared == [] then None
      else
        var action := if requested != [] then requested else c.declared;
        if action != c.declared && action !in c.extra then None
        else if NeedsApproval(c.approval, action) then None
        else Some(action)
  }

  /** A block's lifetime in the cache, in milliseconds: seconds, 60 to 3600, 300 when unset. Requests
      out of range go to the nearest end. */
  function ClampTtlMs(raw: Option<real>): (ms: int)
    ensures 60_000 <= ms <= 3_600_000
    ensures raw.Some? && raw.value < 60.0 ==> ms == 60_000
    ensures raw.Some? && raw.value > 3600.0 ==> ms == 3_600_000
    ensures raw == None ==> ms == 300_000
    ensures raw.Some? && 60.0 <= raw.value <= 3600.0 ==> (ms as real) <= raw.value * 1000.0 < (ms as real) + 1000.0
  {
    var sec := if raw.Some? then raw.value.Floor else 300;
    (if sec < 60 then 60 else if sec > 3600 then 3600 else sec) * 1000
  }

  // ---- state ----

  datatype Entry = Entry(blocks: seq<Block>, t: int, ttlMs: int)

  /** How a run ended: when, and with blocks or with nothing. */
  datatype Settled = Settled(at: int, blocks: Option<seq<Block>>)

  /** One `runBinding`, for the visitor that started it. */
  datatype Run = Run(spec: Spec, key: Text, settled: Option<Settled>)

  datatype Phase =
    | Waiting(run: nat)
    | RefusedByGate                                       // nothing is touched
    | Failed(run: nat)                                    // nothing is touched
    | Hit(blocks: seq<Block>, t: int, ttlMs: int, at: int) // served from the cache at `at`
    | Ran(run: nat, blocks: seq<Block>, t: int)           // served from the awaited run
    | Reread(blocks: seq<Block>)                          // served from whatever the cache holds afterwards

  datatype Visit = Visit(spec: Spec, key: Text, ttlMs: int, since: int, phase: Phase)

  datatype State = State(cache: map<Text, Entry>, inflight: map<Text, nat>, runs: seq<Run>, visits: seq<Visit>, now: int)

  const MAX_ENTRIES := 1000

  // ---- steps ----

  datatype Op =
    | Arrive(spec: Spec, cfg: Option<GateConfig>, requested: Text, ttl: Option<real>)
    | Settle(run: nat, answer: Option<seq<Block>>)
    | Resume(visit: nat)
    | Tick(ms: nat)

  /** From the gate's answer to the first await, or to the end on a hit. */
  function ArriveStep(s: State, spec: Spec, cfg: Option<GateConfig>, requested: Text, ttl: Option<real>): State {
    match PageBindingGate(cfg, requested)
    case None => s.(visits := s.visits + [Visit(spec, CacheKey(spec), 0, s.now, RefusedByGate)])
    case Some(action) => EnterStep(s, spec.(action := action), CacheKey(spec.(action := action)), ClampTtlMs(ttl))
  }

  function EnterStep(s: State, x: Spec, key: Text, ttlMs: int): State {
    var cache := if !x.kind.Derived? && |s.cache| > MAX_ENTRIES then map[] else s.cache;
    if key in cache && s.now - cache[key].t < cache[key].ttlMs then
      var e := cache[key];
      s.(cache := cache, visits := s.visits + [Visit(x, key, ttlMs, s.now, Hit(e.blocks, e.t, e.ttlMs, s.now))])
    else if key in s.inflight then
      s.(cache := cache, visits := s.visits + [Visit(x, key, ttlMs, s.now, Waiting(s.inflight[key]))])
    else
      State(cache, s.inflight[key := |s.runs|], s.runs + [Run(x, key, None)],
            s.visits + [Visit(x, key, ttlMs, s.now, Waiting(|s.runs|))], s.now)
  }

  /** A run settles; `finally` takes its key out of `inflight` before any waiter goes on. An empty
      list counts as nothing. */
  function SettleStep(s: State, r: nat, answer: Option<seq<Block>>): State {
    if r >= |s.runs| || s.runs[r].settled.Some? then s
    else
      var blocks := if answer == Some([]) then None else answer;
      s.(inflight := s.inflight - {s.runs[r].key},
         runs := s.runs[r := s.runs[r].(settled := Some(Settled(s.now, blocks)))])
  }

  /** A waiter goes on after its run settled. `resolveOne` serves what it awaited or keeps what the
      page had; the other two read the cache again, so an expired entry may still serve them. */
  function ResumeStep(s: State, v: nat): State {
    if v >= |s.visits| || !s.visits[v].phase.Waiting? || s.visits[v].phase.run >= |s.runs|
       || s.runs[s.visits[v].phase.run].settled.None? then s
    else
      var visit := s.visits[v];
      var run := visit.phase.run;
      var key := visit.key;
      match s.runs[run].settled.value.blocks
      case Some(blocks) =>
        s.(cache := s.cache[key := Entry(blocks, visit.since, visit.ttlMs)],
           visits := s.visits[v := visit.(phase := Ran(run, blocks, visit.since))])
      case None =>
        var phase := if visit.spec.kind.One? || key !in s.cache then Failed(run) else Reread(s.cache[key].blocks);
        s.(visits := s.visits[v := visit.(phase := phase)])
  }

  function Step(s: State, op: Op): State {
    match op
    case Arrive(spec, cfg, requested, ttl) => ArriveStep(s, spec, cfg, requested, ttl)
    case Settle(run, answer) => SettleStep(s, run, answer)
    case Resume(visit) => ResumeStep(s, visit)
    case Tick(ms) => s.(now := s.now + ms)
  }

  const START := State(map[], map[], [], [], 0)

  function RunOps(ops: seq<Op>): State {
    if ops == [] then START else Step(RunOps(ops[..|ops| - 1]), ops[|ops| - 1])
  }

  // ---- the invariant ----

  /** `inflight` holds a key exactly while a run for it is outstanding, and holds that run. */
  ghost predicate SingleFlight(s: State) {
    && (forall k :: k in s.inflight ==>
          s.inflight[k] < |s.runs| && s.runs[s.inflight[k]].settled.None? && s.runs[s.inflight[k]].key == k)
    && (forall r :: 0 <= r < |s.runs| && s.runs[r].settled.None? ==>
          s.runs[r].key in s.inflight && s.inflight[s.runs[r].key] == r)
  }

  /** Some run for `key` returned `blocks`, not before `since`. */
  ghost predicate Returned(runs: seq<Run>, key: Text, blocks: seq<Block>, since: int) {
    exists r :: 0 <= r < |runs| && ReturnedBy(runs[r], key, blocks, since)
  }

  ghost predicate ReturnedBy(run: Run, key: Text, blocks: seq<Block>, since: int) {
    && run.key == key && run.settled.Some? && run.settled.value.blocks == Some(blocks)
    && blocks != [] && since <= run.settled.value.at
  }

  ghost predicate VisitOk(s: State, v: Visit) {
    var key := v.key;
    && v.since <= s.now
    && match v.phase
       case Waiting(r) =>
         && r < |s.runs| && s.runs[r].key == key
         && (s.runs[r].settled.Some? ==> v.since <= s.runs[r].settled.value.at)
       case RefusedByGate => true
       case Failed(r) => r < |s.runs| && s.runs[r].key == key && s.runs[r].settled.Some? && s.runs[r].settled.value.blocks == None
       case Hit(blocks, t, ttlMs, at) => Returned(s.runs, key, blocks, t) && at - t < ttlMs
       case Ran(r, blocks, t) => r < |s.runs| && ReturnedBy(s.runs[r], key, blocks, v.since) && t == v.since
       case Reread(blocks) => !v.spec.kind.One? && exists since :: Returned(s.runs, key, blocks, since)
  }

  ghost predicate Inv(s: State) {
    && SingleFlight(s)
    && (forall r :: 0 <= r < |s.runs| && s.runs[r].settled.Some? ==>
          s.runs[r].settled.value.blocks != Some([]) && s.runs[r].settled.value.at <= s.now)
    && (forall k :: k in s.cache ==> Returned(s.runs, k, s.cache[k].blocks, s.cache[k].t))
    && (forall v :: 0 <= v < |s.visits| ==> VisitOk(s, s.visits[v]))
  }

  /** `later` has all of `runs`, unchanged where they had settled. */
  ghost predicate Extends(runs: seq<Run>, later: seq<Run>) {
    && |runs| <= |later|
    && forall r :: 0 <= r < |runs| ==> later[r].spec == runs[r].spec && later[r].key == runs[r].key && (runs[r].settled.Some? ==> later[r] == runs[r])
  }

  lemma ReturnedLater(runs: seq<Run>, later: seq<Run>, key: Text, blocks: seq<Block>, since: int)
    requires Extends(runs, later) && Returned(runs, key, blocks, since)
    ensures Returned(later, key, blocks, since)
  {
    var r :| 0 <= r < |runs| && ReturnedBy(runs[r], key, blocks, since);
    assert ReturnedBy(later[r], key, blocks, since);
  }

  /** What a visit relies on survives any later run or settling. */
  lemma VisitLater(s: State, later: State, v: Visit)
    requires VisitOk(s, v) && Extends(s.runs, later.runs) && s.now <= later.now
    requires forall r :: 0 <= r < |s.runs| && s.runs[r].settled.None? && later.runs[r].settled.Some? ==>
               later.runs[r].settled.value.at == s.now
    ensures VisitOk(later, v)
  {
    match v.phase
    case Hit(blocks, t, ttlMs, at) => ReturnedLater(s.runs, later.runs, v.key, blocks, t);
    case Reread(blocks) =>
      var since :| Returned(s.runs, v.key, blocks, since);
      ReturnedLater(s.runs, later.runs, v.key, blocks, since);
    case _ =>
  }

  lemma KeepCacheAndVisits(s: State, later: State)
    requires Inv(s) && Extends(s.runs, later.runs) && s.now <= later.now
    requires forall r :: 0 <= r < |s.runs| && s.runs[r].settled.None? && later.runs[r].settled.Some? ==>
               later.runs[r].settled.value.at == s.now
    ensures forall k :: k in s.cache ==> Returned(later.runs, k, s.cache[k].blocks, s.cache[k].t)
    ensures forall v :: 0 <= v < |s.visits| ==> VisitOk(later, s.visits[v])
  {
    forall k | k in s.cache ensures Returned(later.runs, k, s.cache[k].blocks, s.cache[k].t) {
      ReturnedLater(s.runs, later.runs, k, s.cache[k].blocks, s.cache[k].t);
    }
    forall v | 0 <= v < |s.visits| ensures VisitOk(later, s.visits[v]) {
      VisitLater(s, later, s.visits[v]);
    }
  }

  lemma AppendVisit(s: State, later: State, v: Visit)
    requires later.visits == s.visits + [v] && VisitOk(later, v)
    requires forall i :: 0 <= i < |s.visits| ==> VisitOk(later, s.visits[i])
    ensures forall i :: 0 <= i < |later.visits| ==> VisitOk(later, later.visits[i])
  {
    forall i | 0 <= i < |later.visits| ensures VisitOk(later, later.visits[i]) {
      if i < |s.visits| { assert later.visits[i] == s.visits[i]; }
    }
  }

  /** Adding a visit changes nothing else. */
  lemma VisitKeeps(s: State, v: Visit)
    requires Inv(s) && VisitOk(s, v)
    ensures Inv(s.(visits := s.visits + [v]))
  {
    var later := s.(visits := s.visits + [v]);
    KeepCacheAndVisits(s, later);
    assert VisitOk(later, v);
    AppendVisit(s, later, v);
  }

  lemma ClearKeeps(s: State)
    requires Inv(s)
    ensures Inv(s.(cache := map[]))
  {
    KeepCacheAndVisits(s, s.(cache := map[]));
  }

  lemma StartKeeps(s: State, x: Spec, key: Text)
    requires Inv(s) && key !in s.inflight
    ensures Inv(s.(inflight := s.inflight[key := |s.runs|], runs := s.runs + [Run(x, key, None)]))
  {
    var later := s.(inflight := s.inflight[key := |s.runs|], runs := s.runs + [Run(x, key, None)]);
    KeepCacheAndVisits(s, later);
    assert forall r :: 0 <= r < |s.runs| ==> later.runs[r] == s.runs[r];
  }

  lemma HitKeeps(s: State, x: Spec, key: Text, ttlMs: int)
    requires Inv(s) && key in s.cache && s.now - s.cache[key].t < s.cache[key].ttlMs
    ensures var e := s.cache[key];
            Inv(s.(visits := s.visits + [Visit(x, key, ttlMs, s.now, Hit(e.blocks, e.t, e.ttlMs, s.now))]))
  {
    var e := s.cache[key];
    VisitKeeps(s, Visit(x, key, ttlMs, s.now, Hit(e.blocks, e.t, e.ttlMs, s.now)));
  }

  /** Joining the flight under way, or starting one. */
  lemma JoinKeeps(s: State, x: Spec, key: Text, ttlMs: int)
    requires Inv(s)
    ensures key in s.inflight ==> Inv(s.(visits := s.visits + [Visit(x, key, ttlMs, s.now, Waiting(s.inflight[key]))]))
    ensures key !in s.inflight ==>
              Inv(State(s.cache, s.inflight[key := |s.runs|], s.runs + [Run(x, key, None)],
                        s.visits + [Visit(x, key, ttlMs, s.now, Waiting(|s.runs|))], s.now))
  {
    if key in s.inflight {
      VisitKeeps(s, Visit(x, key, ttlMs, s.now, Waiting(s.inflight[key])));
    } else {
      StartKeeps(s, x, key);
      var started := s.(inflight := s.inflight[key := |s.runs|], runs := s.runs + [Run(x, key, None)]);
      VisitKeeps(started, Visit(x, key, ttlMs, s.now, Waiting(|s.runs|)));
    }
  }

  lemma EnterKeeps(s: State, x: Spec, key: Text, ttlMs: int)
    requires Inv(s)
    ensures Inv(EnterStep(s, x, key, ttlMs))
  {
    var cleared := !x.kind.Derived? && |s.cache| > MAX_ENTRIES;
    if cleared { ClearKeeps(s); }
    var s1 := if cleared then s.(cache := map[]) else s;
    if key in s1.cache && s1.now - s1.cache[key].t < s1.cache[key].ttlMs {
      HitKeeps(s1, x, key, ttlMs);
    } else {
      JoinKeeps(s1, x, key, ttlMs);
    }
  }

  lemma ArriveKeeps(s: State, spec: Spec, cfg: Option<GateConfig>, requested: Text, ttl: Option<real>)
    requires Inv(s)
    ensures Inv(ArriveStep(s, spec, cfg, requested, ttl))
  {
    match PageBindingGate(cfg, requested)
    case None =>
      VisitKeeps(s, Visit(spec, CacheKey(spec), 0, s.now, RefusedByGate));
    case Some(action) =>
      EnterKeeps(s, spec.(action := action), CacheKey(spec.(action := action)), ClampTtlMs(ttl));
  }

  lemma SettleKeeps(s: State, r: nat, answer: Option<seq<Block>>)
    requires Inv(s)
    ensures Inv(SettleStep(s, r, answer))
  {
    KeepCacheAndVisits(s, SettleStep(s, r, answer));
  }

  /** So does replacing one by a sound successor. */
  lemma PhaseKeeps(s: State, v: nat, visit: Visit)
    requires Inv(s) && v < |s.visits| && VisitOk(s, visit)
    ensures Inv(s.(visits := s.visits[v := visit]))
  {
    var later := s.(visits := s.visits[v := visit]);
    KeepCacheAndVisits(s, later);
    VisitLater(s, later, visit);
    forall i | 0 <= i < |later.visits| ensures VisitOk(later, later.visits[i]) {
      if i != v { assert later.visits[i] == s.visits[i]; }
    }
  }

  lemma StoreKeeps(s: State, key: Text, e: Entry)
    requires Inv(s) && Returned(s.runs, key, e.blocks, e.t)
    ensures Inv(s.(cache := s.cache[key := e]))
  {
    KeepCacheAndVisits(s, s.(cache := s.cache[key := e]));
  }

  lemma ResumeKeeps(s: State, v: nat)
    requires Inv(s)
    ensures Inv(ResumeStep(s, v))
  {
    if ResumeStep(s, v) != s {
      var visit := s.visits[v];
      var run := visit.phase.run;
      assert VisitOk(s, visit);
      match s.runs[run].settled.value.blocks
      case Some(blocks) =>
        assert ReturnedBy(s.runs[run], visit.key, blocks, visit.since);
        StoreKeeps(s, visit.key, Entry(blocks, visit.since, visit.ttlMs));
        PhaseKeeps(s.(cache := s.cache[visit.key := Entry(blocks, visit.since, visit.ttlMs)]), v, visit.(phase := Ran(run, blocks, visit.since)));
      case None =>
        if visit.spec.kind.One? || visit.key !in s.cache {
          PhaseKeeps(s, v, visit.(phase := Failed(run)));
        } else {
          PhaseKeeps(s, v, visit.(phase := Reread(s.cache[visit.key].blocks)));
        }
    }
  }

  /** Every run and visit carries the key of what it asks for. */
  ghost predicate KeysHonest(s: State) {
    && (forall r :: 0 <= r < |s.runs| ==> s.runs[r].key == CacheKey(s.runs[r].spec))
    && (forall v :: 0 <= v < |s.visits| ==> s.visits[v].key == CacheKey(s.visits[v].spec))
  }

  lemma EnterHonest(s: State, x: Spec, key: Text, ttlMs: int)
    requires KeysHonest(s) && key == CacheKey(x)
    ensures KeysHonest(EnterStep(s, x, key, ttlMs))
  {
    var later := EnterStep(s, x, key, ttlMs);
    assert later.visits[..|s.visits|] == s.visits && later.runs[..|s.runs|] == s.runs;
    forall v | 0 <= v < |later.visits| ensures later.visits[v].key == CacheKey(later.visits[v].spec) {
      if v < |s.visits| { assert later.visits[v] == s.visits[v]; }
    }
    forall r | 0 <= r < |later.runs| ensures later.runs[r].key == CacheKey(later.runs[r].spec) {
      if r < |s.runs| { assert later.runs[r] == s.runs[r]; }
    }
  }

  lemma StepHonest(s: State, op: Op)
    requires KeysHonest(s)
    ensures KeysHonest(Step(s, op))
  {
    match op
    case Arrive(spec, cfg, requested, ttl) =>
      var action := PageBindingGate(cfg, requested);
      if action.Some? { EnterHonest(s, spec.(action := action.value), CacheKey(spec.(action := action.value)), ClampTtlMs(ttl)); }
    case Settle(run, answer) => SettleHonest(s, run, answer);
    case Resume(visit) => ResumeHonest(s, visit);
    case Tick(ms) =>
  }

  lemma SettleHonest(s: State, r: nat, answer: Option<seq<Block>>)
    requires KeysHonest(s)
    ensures KeysHonest(SettleStep(s, r, answer))
  {
  }

  lemma ResumeHonest(s: State, v: nat)
    requires KeysHonest(s)
    ensures KeysHonest(ResumeStep(s, v))
  {
  }

  lemma {:induction false} HonestHolds(ops: seq<Op>)
    ensures KeysHonest(RunOps(ops))
    decreases |ops|
  {
    if ops != [] {
      HonestHolds(ops[..|ops| - 1]);
      StepHonest(RunOps(ops[..|ops| - 1]), ops[|ops| - 1]);
    }
  }

  /** The invariant holds in every state any interleaving can reach. */
  lemma {:induction false} InvHolds(ops: seq<Op>)
    ensures Inv(RunOps(ops))
    decreases |ops|
  {
    if ops != [] {
      var s := RunOps(ops[..|ops| - 1]);
      InvHolds(ops[..|ops| - 1]);
      match ops[|ops| - 1]
      case Arrive(spec, cfg, requested, ttl) => ArriveKeeps(s, spec, cfg, requested, ttl);
      case Settle(run, answer) => SettleKeeps(s, run, answer);
      case Resume(visit) => ResumeKeeps(s, visit);
      case Tick(ms) => KeepCacheAndVisits(s, s.(now := s.now + ms));
    }
  }

  const HOUR_MS := 3_600_000

  /** No stored lifetime exceeds an hour, whatever the blocks ask for. */
  ghost predicate TtlBounded(s: State) {
    && (forall k :: k in s.cache ==> s.cache[k].ttlMs <= HOUR_MS)
    && (forall v :: 0 <= v < |s.visits| ==> VisitBounded(s.visits[v]))
  }

  ghost predicate VisitBounded(v: Visit) {
    v.ttlMs <= HOUR_MS && (v.phase.Hit? ==> v.phase.ttlMs <= HOUR_MS)
  }

  lemma EnterBounded(s: State, x: Spec, key: Text, ttlMs: int)
    requires TtlBounded(s) && ttlMs <= HOUR_MS
    ensures TtlBounded(EnterStep(s, x, key, ttlMs))
  {
    var later := EnterStep(s, x, key, ttlMs);
    forall v | 0 <= v < |later.visits| ensures VisitBounded(later.visits[v]) {
      if v < |s.visits| { assert later.visits[v] == s.visits[v]; }
    }
  }

  lemma StepBounded(s: State, op: Op)
    requires TtlBounded(s)
    ensures TtlBounded(Step(s, op))
  {
    match op
    case Arrive(spec, cfg, requested, ttl) =>
      var action := PageBindingGate(cfg, requested);
      if action.Some? { EnterBounded(s, spec.(action := action.value), CacheKey(spec.(action := action.value)), ClampTtlMs(ttl)); }
    case Settle(run, answer) =>
    case Resume(visit) =>
    case Tick(ms) =>
  }

  lemma {:induction false} BoundedHolds(ops: seq<Op>)
    ensures TtlBounded(RunOps(ops))
    decreases |ops|
  {
    if ops != [] {
      BoundedHolds(ops[..|ops| - 1]);
      StepBounded(RunOps(ops[..|ops| - 1]), ops[|ops| - 1]);
    }
  }

  // ---- the main results ----

  /** Two runs outstanding at once for one key. */
  ghost predicate Doubled(s: State, a: nat, b: nat) {
    && a < |s.runs| && b < |s.runs| && a != b && s.runs[a].settled.None? && s.runs[b].settled.None?
    && CacheKey(s.runs[a].spec) == CacheKey(s.runs[b].spec)
  }

  ghost predicate Outstanding(s: State, r: nat, k: Text) {
    r < |s.runs| && s.runs[r].settled.None? && CacheKey(s.runs[r].spec) == k
  }

  /** Over every interleaving: at most one run is outstanding per key, and `inflight` holds a key
      exactly while one is. */
  lemma OneRunPerKey(ops: seq<Op>)
    ensures forall a, b :: !Doubled(RunOps(ops), a, b)
    ensures forall k :: k in RunOps(ops).inflight <==> exists r :: Outstanding(RunOps(ops), r, k)
  {
    InvHolds(ops);
    HonestHolds(ops);
    var s := RunOps(ops);
    forall k | k in s.inflight ensures exists r :: Outstanding(s, r, k) {
      assert Outstanding(s, s.inflight[k], k);
    }
  }

  /** The blocks a visit was given, if any. */
  function Served(p: Phase): Option<seq<Block>> {
    match p
    case Hit(blocks, _, _, _) => Some(blocks)
    case Ran(_, blocks, _) => Some(blocks)
    case Reread(blocks) => Some(blocks)
    case _ => None
  }

  /** A run answered the visit's own request with these blocks. */
  ghost predicate AnsweredBy(run: Run, spec: Spec, blocks: seq<Block>) {
    RequestOf(run.spec) == RequestOf(spec) && run.settled.Some? && run.settled.value.blocks == Some(blocks)
  }

  ghost predicate AllSpecsValid(s: State) {
    (forall r :: 0 <= r < |s.runs| ==> ValidSpec(s.runs[r].spec)) && (forall v :: 0 <= v < |s.visits| ==> ValidSpec(s.visits[v].spec))
  }

  /** Run `r` gave a visit its blocks: it ran the visit's own request; it ended less than the stored
      lifetime before a hit, and not before the visitor came when the visitor waited for it. */
  ghost predicate Source(run: Run, visit: Visit, blocks: seq<Block>) {
    && AnsweredBy(run, visit.spec, blocks) && blocks != []
    && (visit.phase.Hit? ==> visit.phase.at - run.settled.value.at < visit.phase.ttlMs)
    && (visit.phase.Ran? ==> visit.since <= run.settled.value.at)
  }

  ghost predicate Gave(run: Run, blocks: seq<Block>) {
    run.settled.Some? && run.settled.value.blocks == Some(blocks) && blocks != []
  }

  lemma SourceOf(s: State, visit: Visit) returns (r: nat)
    requires VisitOk(s, visit) && Served(visit.phase).Some?
    ensures r < |s.runs| && s.runs[r].key == visit.key && Gave(s.runs[r], Served(visit.phase).value)
    ensures RequestOf(s.runs[r].spec) == RequestOf(visit.spec) ==> Source(s.runs[r], visit, Served(visit.phase).value)
  {
    match visit.phase {
      case Hit(blocks, t, ttlMs, at) => r :| 0 <= r < |s.runs| && ReturnedBy(s.runs[r], visit.key, blocks, t);
      case Ran(run, blocks, t) => r := run;
      case Reread(blocks) =>
        var since :| Returned(s.runs, visit.key, blocks, since);
        r :| 0 <= r < |s.runs| && ReturnedBy(s.runs[r], visit.key, blocks, since);
    }
  }

  /** Over every interleaving: what a block or a seed is given came from such a run, unless its page's
      slug is itself a derived prefix; and no hit serves what a run returned an hour ago or earlier. */
  lemma CacheAgrees(ops: seq<Op>, v: nat)
    requires AllSpecsValid(RunOps(ops)) && v < |RunOps(ops).visits|
    requires var x := RunOps(ops).visits[v].spec; !x.kind.Derived? && !DerivePrefix(x.slug)
    ensures var s := RunOps(ops); var visit := s.visits[v];
            Served(visit.phase).Some? ==>
              exists r :: 0 <= r < |s.runs| && Source(s.runs[r], visit, Served(visit.phase).value)
                && (visit.phase.Hit? ==> visit.phase.at - s.runs[r].settled.value.at < HOUR_MS)
  {
    var s := RunOps(ops);
    var visit := s.visits[v];
    InvHolds(ops);
    HonestHolds(ops);
    BoundedHolds(ops);
    assert VisitOk(s, visit) && VisitBounded(visit);
    if Served(visit.phase).Some? {
      var r := SourceOf(s, visit);
      KeyDeterminesRequest(visit.spec);
      assert CacheKey(s.runs[r].spec) == CacheKey(visit.spec);
    }
  }

  /** A run gave these blocks, and it ran the module, action and args the visit asks for, under one
      prefix; with plain slugs also for the same page, block and, for an analysis, step, row count and
      last date. */
  ghost predicate GaveSameFields(run: Run, x: Spec, blocks: seq<Block>) {
    var y := run.spec;
    && Gave(run, blocks)
    && x.module_ == y.module_ && x.action == y.action && KeyArgs(x.args) == KeyArgs(y.args) && Prefix(x) == Prefix(y)
    && (!DerivePrefix(x.slug) && !DerivePrefix(y.slug) ==> SamePlace(x, y))
  }

  /** Derived analyses included: whatever a visit is given came from such a run. With plain slugs only
      the content of the rows may differ. */
  lemma ServedBySameFields(ops: seq<Op>, v: nat)
    requires AllSpecsValid(RunOps(ops)) && v < |RunOps(ops).visits|
    ensures var s := RunOps(ops); var visit := s.visits[v];
            Served(visit.phase).Some? ==>
              exists r :: 0 <= r < |s.runs| && GaveSameFields(s.runs[r], visit.spec, Served(visit.phase).value)
  {
    var s := RunOps(ops);
    var visit := s.visits[v];
    InvHolds(ops);
    HonestHolds(ops);
    assert VisitOk(s, visit);
    if Served(visit.phase).Some? {
      var r := SourceOf(s, visit);
      SameKeySameFields(s.runs[r], visit.spec, Served(visit.phase).value);
    }
  }

  lemma SameKeySameFields(run: Run, x: Spec, blocks: seq<Block>)
    requires ValidSpec(x) && ValidSpec(run.spec) && CacheKey(run.spec) == CacheKey(x) && Gave(run, blocks)
    ensures GaveSameFields(run, x, blocks)
  {
    KeyFields(x, run.spec);
    if !DerivePrefix(x.slug) && !DerivePrefix(run.spec.slug) { KeyInjective(x, run.spec); }
  }

  /** A visitor is served and no run at all asked what it asks. */
  ghost predicate ServedForeign(s: State, x: Spec) {
    && AllSpecsValid(s) && s.visits != []
    && s.visits[|s.visits| - 1].spec == x && Served(s.visits[|s.visits| - 1].phase).Some?
    && forall r :: 0 <= r < |s.runs| ==> RequestOf(s.runs[r].spec) != RequestOf(x)
  }

  /** A config under which a page may run this action. */
  function OpenTo(action: Text): Option<GateConfig> { Some(GateConfig(action, {}, NoApproval)) }

  const FOREIGN: seq<Block> := ["foreign"]

  /** Another page's analysis runs and returns, then the visitor comes. */
  function ForeignOps(x: Spec, y: Spec): seq<Op> {
    [Arrive(y, OpenTo(y.action), y.action, None), Settle(0, Some(FOREIGN)), Resume(0), Arrive(x, OpenTo(x.action), x.action, None)]
  }

  /** The state once the analysis has settled, and once it has been stored. */
  function ForeignSettled(y: Spec): State {
    State(map[], map[], [Run(y, CacheKey(y), Some(Settled(0, Some(FOREIGN))))], [Visit(y, CacheKey(y), 300_000, 0, Waiting(0))], 0)
  }

  function ForeignStored(y: Spec): State {
    ForeignSettled(y).(cache := map[CacheKey(y) := Entry(FOREIGN, 0, 300_000)],
                       visits := [Visit(y, CacheKey(y), 300_000, 0, Ran(0, FOREIGN, 0))])
  }

  lemma RunMore(ops: seq<Op>, op: Op)
    ensures RunOps(ops + [op]) == Step(RunOps(ops), op)
  {
    assert (ops + [op])[..|ops|] == ops;
  }

  function ForeignStarted(y: Spec): State {
    State(map[], map[CacheKey(y) := 0], [Run(y, CacheKey(y), None)], [Visit(y, CacheKey(y), 300_000, 0, Waiting(0))], 0)
  }

  lemma ForeignStarts(y: Spec)
    requires y.action != []
    ensures ArriveStep(START, y, OpenTo(y.action), y.action, None) == ForeignStarted(y)
  {
    assert y.(action := y.action) == y;
  }

  lemma ForeignSettles(y: Spec)
    ensures SettleStep(ForeignStarted(y), 0, Some(FOREIGN)) == ForeignSettled(y)
  {
    assert map[CacheKey(y) := 0] - {CacheKey(y)} == map[];
  }

  lemma ForeignHit(x: Spec, y: Spec)
    requires x.action != [] && CacheKey(x) == CacheKey(y)
    ensures ArriveStep(ForeignStored(y), x, OpenTo(x.action), x.action, None) ==
              var stored := ForeignStored(y);
              stored.(visits := stored.visits + [Visit(x, CacheKey(x), 300_000, 0, Hit(FOREIGN, 0, 300_000, 0))])
  {
    assert x.(action := x.action) == x;
  }

  lemma RunFour(a: Op, b: Op, c: Op, d: Op)
    ensures RunOps([a, b, c, d]) == Step(Step(Step(Step(START, a), b), c), d)
  {
    RunMore([], a);
    RunMore([a], b);
    RunMore([a, b], c);
    RunMore([a, b, c], d);
    assert [] + [a] == [a] && [a] + [b] == [a, b] && [a, b] + [c] == [a, b, c] && [a, b, c] + [d] == [a, b, c, d];
  }

  lemma ForeignResumes(y: Spec)
    ensures ResumeStep(ForeignSettled(y), 0) == ForeignStored(y)
  {
  }

  lemma ForeignRun(x: Spec, y: Spec)
    requires x.action != [] && y.action != [] && CacheKey(x) == CacheKey(y)
    ensures RunOps(ForeignOps(x, y)) == ArriveStep(ForeignStored(y), x, OpenTo(x.action), x.action, None)
  {
    RunFour(Arrive(y, OpenTo(y.action), y.action, None), Settle(0, Some(FOREIGN)), Resume(0), Arrive(x, OpenTo(x.action), x.action, None));
    ForeignStarts(y);
    ForeignSettles(y);
    ForeignResumes(y);
  }

  lemma RowsTell(x: Spec, y: Spec)
    requires !x.kind.Derived? && y.kind.Derived?
    ensures RequestOf(x) != RequestOf(y)
  {
  }

  lemma TwoVisits(s: State, first: Visit, second: Visit, run: Run)
    requires s.visits == [first] + [second] && s.runs == [run]
    requires ValidSpec(first.spec) && ValidSpec(second.spec) && ValidSpec(run.spec)
    requires Served(second.phase).Some? && RequestOf(run.spec) != RequestOf(second.spec)
    ensures ServedForeign(s, second.spec)
  {
  }

  lemma ForeignServed(x: Spec, y: Spec)
    requires ValidSpec(x) && ValidSpec(y) && !x.kind.Derived? && y.kind.Derived?
    requires x.action != [] && y.action != [] && CacheKey(x) == CacheKey(y)
    ensures ServedForeign(RunOps(ForeignOps(x, y)), x)
  {
    ForeignRun(x, y);
    ForeignHit(x, y);
    RowsTell(x, y);
    TwoVisits(RunOps(ForeignOps(x, y)), ForeignStored(y).visits[0], Visit(x, CacheKey(x), 300_000, 0, Hit(FOREIGN, 0, 300_000, 0)),
              ForeignStored(y).runs[0]);
  }

  /** The slugs left out are those that fail: a visitor of any such block or seed can be served what a
      derived analysis of another page returned. */
  lemma SharedKeyServesForeign(x: Spec)
    requires ValidSpec(x) && !x.kind.Derived? && x.action != [] && DerivePrefix(x.slug)
    ensures exists ops :: ServedForeign(RunOps(ops), x)
  {
    var y := CollidingSpec(x);
    ForeignServed(x, y);
  }

  /** A run for the visit's key that came back with nothing. */
  ghost predicate CameBackEmpty(s: State, visit: Visit) {
    && visit.phase.Failed? && visit.phase.run < |s.runs| && s.runs[visit.phase.run].key == visit.key
    && s.runs[visit.phase.run].settled.Some? && s.runs[visit.phase.run].settled.value.blocks == None
  }

  /** A block is left with what the page had only when the gate refused it or its own run came back
      with nothing; a page block is never served an expired entry. */
  lemma KeptOnlyOnFailure(ops: seq<Op>, v: nat)
    requires v < |RunOps(ops).visits|
    ensures var s := RunOps(ops); var visit := s.visits[v];
            Served(visit.phase) == None ==> visit.phase.Waiting? || visit.phase.RefusedByGate? || CameBackEmpty(s, visit)
    ensures RunOps(ops).visits[v].spec.kind.One? ==> !RunOps(ops).visits[v].phase.Reread?
  {
    InvHolds(ops);
    assert VisitOk(RunOps(ops), RunOps(ops).visits[v]);
  }

  // ---- the module's own maps ----

  /** The module-level maps of the gate, with the runs and visits kept as history. */
  class Resolver {
    var cache: map<Text, Entry>
    var inflight: map<Text, nat>
    ghost var runs: seq<Run>
    ghost var visits: seq<Visit>
    var started: nat
    var now: int

    constructor ()
      ensures Current() == START && Valid()
    {
      cache, inflight, runs, visits, started, now := map[], map[], [], [], 0, 0;
    }

    ghost function Current(): State
      reads this
    {
      State(cache, inflight, runs, visits, now)
    }

    ghost predicate Valid()
      reads this
    {
      Inv(Current()) && started == |runs|
    }

    /** Behind the gate, up to the first await: the visitor is served at once, waits for a run
        already under way, or starts one. */
    method Enter(x: Spec, key: Text, ttlMs: int) returns (served: Option<Entry>, run: Option<nat>, starts: bool)
      requires started == |runs|
      modifies this
      ensures started == |runs| && Current() == EnterStep(old(Current()), x, key, ttlMs)
      ensures starts <==> |runs| > |old(runs)|
      ensures var p := visits[|visits| - 1].phase;
              && (served.Some? <==> p.Hit?) && (served.Some? ==> served.value == Entry(p.blocks, p.t, p.ttlMs))
              && (run.Some? <==> p.Waiting?) && (run.Some? ==> run.value == p.run)
    {
      served, run, starts := None, None, false;
      if !x.kind.Derived? && |cache| > MAX_ENTRIES {
        cache := map[];
      }
      if key in cache && now - cache[key].t < cache[key].ttlMs {
        served := Some(cache[key]);
        visits := visits + [Visit(x, key, ttlMs, now, Hit(cache[key].blocks, cache[key].t, cache[key].ttlMs, now))];
        return;
      }
      if key !in inflight {
        inflight := inflight[key := started];
        runs := runs + [Run(x, key, None)];
        started, starts := started + 1, true;
      }
      run := Some(inflight[key]);
      visits := visits + [Visit(x, key, ttlMs, now, Waiting(inflight[key]))];
    }

    /** The whole first stretch of a visitor, gate included. */
    method ArriveVisitor(spec: Spec, cfg: Option<GateConfig>, requested: Text, ttl: Option<real>)
      returns (served: Option<Entry>, run: Option<nat>, starts: bool)
      requires Valid()
      modifies this
      ensures Valid() && Current() == ArriveStep(old(Current()), spec, cfg, requested, ttl)
    {
      ArriveKeeps(Current(), spec, cfg, requested, ttl);
      var action := PageBindingGate(cfg, requested);
      if action == None {
        visits := visits + [Visit(spec, CacheKey(spec), 0, now, RefusedByGate)];
        return None, None, false;
      }
      var x := spec.(action := action.value);
      served, run, starts := Enter(x, CacheKey(x), ClampTtlMs(ttl));
    }

    /** The `finally` of a run: its key leaves `inflight`. */
    method SettleRun(r: nat, key: Text, ghost answer: Option<seq<Block>>)
      requires Valid() && r < |runs| && runs[r].settled.None? && key == runs[r].key
      modifies this
      ensures Valid() && Current() == SettleStep(old(Current()), r, answer)
    {
      SettleKeeps(Current(), r, answer);
      inflight := inflight - {key};
      runs := runs[r := runs[r].(settled := Some(Settled(now, if answer == Some([]) then None else answer)))];
    }

    /** The stretch behind the await, with what the run returned. */
    method ResumeVisitor(ghost v: nat, spec: Spec, key: Text, since: int, ttlMs: int, blocks: Option<seq<Block>>) returns (served: Option<seq<Block>>)
      requires Valid() && v < |visits| && visits[v].phase.Waiting? && visits[v].phase.run < |runs|
      requires spec == visits[v].spec && key == visits[v].key && since == visits[v].since && ttlMs == visits[v].ttlMs
      requires runs[visits[v].phase.run].settled.Some? && runs[visits[v].phase.run].settled.value.blocks == blocks
      modifies this
      ensures Valid() && Current() == ResumeStep(old(Current()), v)
      ensures served == Served(visits[v].phase)
    {
      ResumeKeeps(Current(), v);
      ghost var visit := visits[v];
      if blocks.Some? {
        cache := cache[key := Entry(blocks.value, since, ttlMs)];
        served := blocks;
        visits := visits[v := visit.(phase := Ran(visit.phase.run, blocks.value, since))];
      } else if spec.kind.One? || key !in cache {
        served := None;
        visits := visits[v := visit.(phase := Failed(visit.phase.run))];
      } else {
        served := Some(cache[key].blocks);
        visits := visits[v := visit.(phase := Reread(cache[key].blocks))];
      }
    }
  }
}
