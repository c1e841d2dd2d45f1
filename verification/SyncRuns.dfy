/** The reconciler over whole runs, with failures: what a synchronisation can touch, that the calls
    it made explain the clock, that a deletion by the owner holds and that the record stays free of
    duplicates. */
module SyncRuns {
  import opened ScheduleSync
  import opened SyncPasses
  import opened SyncSettle
  import opened Wrappers

  // ---- confinement ----

  /** Two states of one run that differ only inside a module's namespace and its own record. */
  ghost predicate Confined(name: string, a: World, b: World) {
    && a.log <= b.log
    && (forall c :: c in Calls(a, b) ==> InNamespace(name, c.id))
    && (forall id :: !InNamespace(name, id) ==> At(a.clock, id) == At(b.clock, id))
    && (forall n :: n != name ==> Registered(a.records, n) == Registered(b.records, n))
  }

  lemma ConfinedTrans(name: string, a: World, b: World, c: World)
    requires Confined(name, a, b) && Confined(name, b, c)
    ensures Confined(name, a, c)
  {
    CallsSplit(a, b, c);
  }

  /** Two states that differ at one id alone, and the calls between them are about that id. */
  ghost predicate ConfinedTo(id: string, a: World, b: World) {
    && a.log <= b.log && a.records == b.records
    && (forall c :: c in Calls(a, b) ==> c.id == id)
    && (forall i :: i != id ==> At(a.clock, i) == At(b.clock, i))
  }

  lemma ConfinedToTrans(id: string, a: World, b: World, c: World)
    requires ConfinedTo(id, a, b) && ConfinedTo(id, b, c)
    ensures ConfinedTo(id, a, c)
  {
    CallsSplit(a, b, c);
  }

  lemma CancelConfined(e: Env, w: World, id: string)
    ensures ConfinedTo(id, w, Cancel(e, w, id))
  {
    assert Calls(w, Cancel(e, w, id)) == [CancelCall(id, CancelAnswerOf(e, w, id))];
  }

  lemma ScheduleConfined(e: Env, w: World, id: string, target: string, o: Options)
    ensures ConfinedTo(id, w, Schedule(e, w, id, target, o))
  {
    assert Calls(w, Schedule(e, w, id, target, o)) == [ScheduleCall(id, Job(target, Stamp(o, e.zone)), ScheduleAccepts(e, w, id, o))];
  }

  lemma NothingConfined(id: string, w: World)
    ensures ConfinedTo(id, w, w) && Calls(w, w) == []
  {
  }

  lemma ConfinedToNamespace(name: string, file: string, a: World, b: World)
    requires ConfinedTo(JobId(name, file), a, b)
    ensures Confined(name, a, b)
  {
    JobIdInNamespace(name, file);
  }

  /** One declaration's step calls the scheduler for that declaration's id alone. */
  lemma RegisterOneConfined(e: Env, name: string, live: map<string, Job>, d: Declared, p: Pass)
    ensures ConfinedTo(JobId(name, d.file), p.w, RegisterOne(e, name, live, d, p).w)
  {
    var id := JobId(name, d.file);
    NothingConfined(id, p.w);
    if !Skipped(name, live, p.already, d) {
      CancelConfined(e, p.w, id);
      var w := if Stale(name, live, d) then Cancel(e, p.w, id) else p.w;
      ScheduleConfined(e, w, id, Target(name), d.options);
      ConfinedToTrans(id, p.w, w, Schedule(e, w, id, Target(name), d.options));
    }
  }

  lemma {:induction false} RegisterAllConfined(e: Env, name: string, live: map<string, Job>, jobs: seq<Declared>, p: Pass)
    ensures Confined(name, p.w, RegisterAll(e, name, live, jobs, p).w)
    decreases |jobs|
  {
    if jobs != [] {
      var next := RegisterOne(e, name, live, jobs[0], p);
      RegisterOneConfined(e, name, live, jobs[0], p);
      ConfinedToNamespace(name, jobs[0].file, p.w, next.w);
      RegisterAllConfined(e, name, live, jobs[1..], next);
      ConfinedTrans(name, p.w, next.w, RegisterAll(e, name, live, jobs, p).w);
    }
  }

  lemma {:induction false} CancelEachConfined(e: Env, name: string, strict: bool, files: seq<string>, p: Withdrawal)
    ensures Confined(name, p.w, CancelEach(e, name, strict, files, p).w)
    ensures forall c :: c in Calls(p.w, CancelEach(e, name, strict, files, p).w) ==> c.CancelCall?
    decreases |files|
  {
    if files != [] {
      var next := CancelOne(e, name, strict, files[0], p);
      var last := CancelEach(e, name, strict, files, p).w;
      CancelConfined(e, p.w, JobId(name, files[0]));
      ConfinedToNamespace(name, files[0], p.w, next.w);
      CancelEachConfined(e, name, strict, files[1..], next);
      ConfinedTrans(name, p.w, next.w, last);
      CallsSplit(p.w, next.w, last);
      assert Calls(p.w, next.w) == [next.w.log[|p.w.log|]];
    }
  }

  /** A synchronisation, whatever fails in it, stays within its module's namespace and record. */
  lemma SyncConfined(e: Env, m: Module, w: World)
    ensures Confined(m.name, w, Sync(e, m, w).w)
  {
    if HasWork(m, w) {
      if m.enabled {
        var p := Registration(e, m, w);
        var orphans := Orphans(e, m, w, p.already);
        RegisterAllConfined(e, m.name, w.clock, m.jobs, Pass(w, Registered(w.records, m.name), []));
        CancelEachConfined(e, m.name, false, orphans, Withdrawal(p.w, []));
        ConfinedTrans(m.name, w, p.w, CancelEach(e, m.name, false, orphans, Withdrawal(p.w, [])).w);
      } else {
        CancelEachConfined(e, m.name, true, Append(Files(m.jobs), Registered(w.records, m.name)), Withdrawal(w, []));
      }
    }
  }

  // ---- the log explains the clock ----

  /** What one call, at a position of the log, makes of a clock when the scheduler answers by its own
      rules: a system job is not withdrawn and an absent one is not there; a job is taken on when its
      options say when it runs. A schedule call for an id that is already there, or an answer the
      clock contradicts, makes nothing. */
  function Replayed(e: Env, n: nat, clock: map<string, Job>, c: Call): Option<map<string, Job>> {
    match c
    case CancelCall(id, answer) =>
      var system := id in clock && "system" in clock[id].options && clock[id].options["system"] == "true";
      if answer == (if e.fails(n) || system then CancelRefused else if id in clock then Withdrawn else NotThere)
      then Some(if answer == Withdrawn then clock - {id} else clock) else None
    case ScheduleCall(id, job, accepted) =>
      var timed := "cronTime" in job.options || "runAt" in job.options || "delaySec" in job.options;
      if id !in clock && accepted == (timed && !e.fails(n))
      then Some(if accepted then clock[id := job] else clock) else None
  }

  /** Replay a list of calls, the first at position `n` of the log. */
  function Replay(e: Env, n: nat, clock: map<string, Job>, calls: seq<Call>): Option<map<string, Job>>
    decreases |calls|
  {
    if calls == [] then Some(clock)
    else
      match Replayed(e, n, clock, calls[0])
      case None => None
      case Some(next) => Replay(e, n + 1, next, calls[1..])
  }

  lemma {:induction false} ReplayAppend(e: Env, n: nat, clock: map<string, Job>, a: seq<Call>, b: seq<Call>)
    requires Replay(e, n, clock, a).Some?
    ensures Replay(e, n, clock, a + b) == Replay(e, n + |a|, Replay(e, n, clock, a).value, b)
    decreases |a|
  {
    if a == [] {
      assert a + b == b;
    } else {
      assert (a + b)[1..] == a[1..] + b;
      ReplayAppend(e, n + 1, Replayed(e, n, clock, a[0]).value, a[1..], b);
    }
  }

  ghost predicate Explains(e: Env, a: World, b: World) {
    a.log <= b.log && Replay(e, |a.log|, a.clock, Calls(a, b)) == Some(b.clock)
  }

  lemma ExplainsTrans(e: Env, a: World, b: World, c: World)
    requires Explains(e, a, b) && Explains(e, b, c)
    ensures Explains(e, a, c)
  {
    CallsSplit(a, b, c);
    ReplayAppend(e, |a.log|, a.clock, Calls(a, b), Calls(b, c));
  }

  lemma CancelExplains(e: Env, w: World, id: string)
    ensures Explains(e, w, Cancel(e, w, id))
  {
    var c := CancelCall(id, CancelAnswerOf(e, w, id));
    assert Calls(w, Cancel(e, w, id)) == [c] && [c][1..] == [];
    if id !in w.clock { assert w.clock - {id} == w.clock; }
  }

  lemma ScheduleExplains(e: Env, w: World, id: string, target: string, o: Options)
    requires id !in w.clock
    ensures Explains(e, w, Schedule(e, w, id, target, o))
  {
    var c := ScheduleCall(id, Job(target, Stamp(o, e.zone)), ScheduleAccepts(e, w, id, o));
    assert Calls(w, Schedule(e, w, id, target, o)) == [c] && [c][1..] == [];
  }

  lemma {:induction false} CancelEachExplains(e: Env, name: string, strict: bool, files: seq<string>, p: Withdrawal)
    ensures Explains(e, p.w, CancelEach(e, name, strict, files, p).w)
    decreases |files|
  {
    if files == [] {
      assert Calls(p.w, p.w) == [];
    } else {
      var next := CancelOne(e, name, strict, files[0], p);
      CancelExplains(e, p.w, JobId(name, files[0]));
      CancelEachExplains(e, name, strict, files[1..], next);
      ExplainsTrans(e, p.w, next.w, CancelEach(e, name, strict, files, p).w);
    }
  }

  lemma {:induction false} RegisterAllExplains(e: Env, name: string, live: map<string, Job>, jobs: seq<Declared>, p: Pass)
    requires DistinctIds(name, jobs) && Untouched(name, live, jobs, p.w)
    ensures Explains(e, p.w, RegisterAll(e, name, live, jobs, p).w)
    decreases |jobs|
  {
    if jobs == [] {
      assert Calls(p.w, p.w) == [];
    } else {
      var d := jobs[0];
      var id := JobId(name, d.file);
      var next := RegisterOne(e, name, live, d, p);
      RegisterAllStep(e, name, live, jobs, p);
      RegisterAllExplains(e, name, live, jobs[1..], next);
      assert At(p.w.clock, id) == At(live, id);
      if Skipped(name, live, p.already, d) {
      } else if Stale(name, live, d) {
        var w := Cancel(e, p.w, id);
        CancelExplains(e, p.w, id);
        if CancelAnswerOf(e, p.w, id) != CancelRefused {
          ScheduleExplains(e, w, id, Target(name), d.options);
          ExplainsTrans(e, p.w, w, next.w);
        }
      } else {
        ScheduleExplains(e, p.w, id, Target(name), d.options);
      }
      if next.w != p.w { ExplainsTrans(e, p.w, next.w, RegisterAll(e, name, live, jobs, p).w); }
    }
  }

  /** Whatever calls fail: replaying the calls of a synchronisation on the clock it started from, by the
      scheduler's rules, gives the answers it got and the clock it ended with, and no `schedule` was
      issued for an id still on the clock. */
  lemma CallsExplainClock(e: Env, m: Module, w: World)
    requires DistinctIds(m.name, m.jobs)
    ensures Explains(e, w, Sync(e, m, w).w)
  {
    if HasWork(m, w) {
      if m.enabled {
        var p := Registration(e, m, w);
        var orphans := Orphans(e, m, w, p.already);
        RegisterAllExplains(e, m.name, w.clock, m.jobs, Pass(w, Registered(w.records, m.name), []));
        CancelEachExplains(e, m.name, false, orphans, Withdrawal(p.w, []));
        ExplainsTrans(e, w, p.w, CancelEach(e, m.name, false, orphans, Withdrawal(p.w, [])).w);
      } else {
        CancelEachExplains(e, m.name, true, Append(Files(m.jobs), Registered(w.records, m.name)), Withdrawal(w, []));
      }
    } else {
      assert Calls(w, w) == [];
    }
  }

  // ---- whole runs ----

  /** What can happen between two looks at the clock: a module is synchronised, under any failures,
      or the owner deletes a job. */
  datatype Op = SyncOp(m: Module, e: Env) | OwnerDelete(id: string)

  function Step(op: Op, w: World): World {
    match op
    case SyncOp(m, e) => Sync(e, m, w).w
    case OwnerDelete(id) => w.(clock := w.clock - {id})
  }

  function Run(ops: seq<Op>, w: World): World
    decreases |ops|
  {
    if ops == [] then w else Run(ops[1..], Step(ops[0], w))
  }

  lemma {:induction false} RegisterAllNoDuplicates(e: Env, name: string, live: map<string, Job>, jobs: seq<Declared>, p: Pass)
    requires NoDuplicates(p.already)
    ensures NoDuplicates(RegisterAll(e, name, live, jobs, p).already)
    decreases |jobs|
  {
    if jobs != [] { RegisterAllNoDuplicates(e, name, live, jobs[1..], RegisterOne(e, name, live, jobs[0], p)); }
  }

  ghost predicate RecordsDistinct(w: World) {
    forall n :: NoDuplicates(Registered(w.records, n))
  }

  /** The record never lists a file twice, in any reachable state. */
  lemma {:induction false} RecordsStayDistinct(ops: seq<Op>, w: World)
    requires RecordsDistinct(w)
    ensures RecordsDistinct(Run(ops, w))
    decreases |ops|
  {
    if ops != [] {
      if ops[0].SyncOp? {
        SyncConfined(ops[0].e, ops[0].m, w);
        SyncRecordDistinct(ops[0].e, ops[0].m, w);
      }
      RecordsStayDistinct(ops[1..], Step(ops[0], w));
    }
  }

  lemma SyncRecordDistinct(e: Env, m: Module, w: World)
    requires NoDuplicates(Registered(w.records, m.name))
    ensures NoDuplicates(Registered(Sync(e, m, w).w.records, m.name))
  {
    if HasWork(m, w) {
      var start := Pass(w, Registered(w.records, m.name), []);
      if m.enabled {
        var p := Registration(e, m, w);
        RegisterAllNoDuplicates(e, m.name, w.clock, m.jobs, start);
        RegisterAllRecords(e, m.name, w.clock, m.jobs, start);
        CancelEachFrame(e, m.name, false, Orphans(e, m, w, p.already), Withdrawal(p.w, []));
        RetainNoDuplicates(p.already, Files(m.jobs));
      } else {
        CancelEachFrame(e, m.name, true, Append(Files(m.jobs), Registered(w.records, m.name)), Withdrawal(w, []));
      }
    }
  }

  lemma {:induction false} RegisterAllRecords(e: Env, name: string, live: map<string, Job>, jobs: seq<Declared>, p: Pass)
    ensures RegisterAll(e, name, live, jobs, p).w.records == p.w.records
    decreases |jobs|
  {
    if jobs != [] { RegisterAllRecords(e, name, live, jobs[1..], RegisterOne(e, name, live, jobs[0], p)); }
  }

  // ---- names over whole runs ----

  predicate ColonFree(s: string) { ':' !in s }

  lemma LongerNameHasColon(a: string, b: string, id: string)
    requires InNamespace(a, id) && InNamespace(b, id) && |a| < |b|
    ensures !ColonFree(b)
  {
    assert id[|Target(a)|] == ':' && id[|Target(a)|] == Target(b)[|Target(a)|] == b[|a|];
  }

  lemma NamespacesDisjoint(a: string, b: string, id: string)
    requires ColonFree(a) && ColonFree(b) && InNamespace(a, id) && InNamespace(b, id)
    ensures a == b
  {
    if |a| < |b| {
      LongerNameHasColon(a, b, id);
    } else if |b| < |a| {
      LongerNameHasColon(b, a, id);
    } else {
      assert Target(a) == id[..|Target(a)|] == Target(b);
      assert a == Target(a)[7..] && b == Target(b)[7..];
    }
  }

  /** What every run is made of: modules as they reach the reconciler. */
  ghost predicate ReadableOps(ops: seq<Op>) {
    forall op :: op in ops && op.SyncOp? ==> Readable(op.m) && ColonFree(op.m.name)
  }

  ghost predicate WhitelistedRecord(name: string, w: World) {
    forall f :: f in Registered(w.records, name) ==> Whitelisted(f)
  }

  /** The only ids and recorded files a registration loop adds are those of the declarations. */
  lemma {:induction false} RegisterAllNames(e: Env, name: string, live: map<string, Job>, jobs: seq<Declared>, p: Pass)
    ensures var q := RegisterAll(e, name, live, jobs, p);
            && (forall id :: id in q.w.clock && id !in p.w.clock ==> exists file :: JobId(name, file) == id)
            && (forall f :: f in q.already && f !in p.already ==> f in Files(jobs))
    decreases |jobs|
  {
    if jobs != [] {
      var next := RegisterOne(e, name, live, jobs[0], p);
      RegisterOneConfined(e, name, live, jobs[0], p);
      RegisterAllNames(e, name, live, jobs[1..], next);
      forall id | id in next.w.clock && id !in p.w.clock ensures id == JobId(name, jobs[0].file) {
        assert At(p.w.clock, id) != At(next.w.clock, id);
      }
    }
  }

  lemma SyncKeepsUnsuffixed(e: Env, m: Module, w: World)
    requires Unsuffixed(m.name, w.clock)
    ensures Unsuffixed(m.name, Sync(e, m, w).w.clock)
  {
    if HasWork(m, w) {
      var start := Pass(w, Registered(w.records, m.name), []);
      var p := if m.enabled then Registration(e, m, w) else start;
      var files := if m.enabled then Orphans(e, m, w, p.already) else Append(Files(m.jobs), Registered(w.records, m.name));
      CancelEachFrame(e, m.name, !m.enabled, files, Withdrawal(p.w, []));
      RegisterAllNames(e, m.name, w.clock, m.jobs, start);
      forall id | id in Sync(e, m, w).w.clock && InNamespace(m.name, id) ensures !Suffixed(id[|Namespace(m.name)|..]) {
        assert At(Sync(e, m, w).w.clock, id) == At(p.w.clock, id);
        if id !in w.clock {
          var file :| JobId(m.name, file) == id;
          JobIdInNamespace(m.name, file);
          TrimLeavesNoSuffix(file);
        }
      }
    }
  }

  lemma SyncKeepsWhitelisted(e: Env, m: Module, w: World)
    requires Readable(m) && WhitelistedRecord(m.name, w)
    ensures WhitelistedRecord(m.name, Sync(e, m, w).w)
  {
    var start := Pass(w, Registered(w.records, m.name), []);
    var p := Registration(e, m, w);
    CancelEachFrame(e, m.name, false, Orphans(e, m, w, p.already), Withdrawal(p.w, []));
    CancelEachFrame(e, m.name, true, Append(Files(m.jobs), Registered(w.records, m.name)), Withdrawal(w, []));
    RegisterAllNames(e, m.name, w.clock, m.jobs, start);
    RegisterAllRecords(e, m.name, w.clock, m.jobs, start);
    forall f | f in Registered(Sync(e, m, w).w.records, m.name) ensures Whitelisted(f) {
      RetainMembers(p.already, Files(m.jobs), f);
      FilesMembers(m.jobs, f);
    }
  }

  lemma OthersUntouched(name: string, m: Module, e: Env, w: World)
    requires ColonFree(name) && ColonFree(m.name) && name != m.name
    ensures var after := Sync(e, m, w).w;
            && (forall id :: InNamespace(name, id) ==> At(w.clock, id) == At(after.clock, id))
            && Registered(after.records, name) == Registered(w.records, name)
  {
    SyncConfined(e, m, w);
    forall id | InNamespace(name, id) ensures At(w.clock, id) == At(Sync(e, m, w).w.clock, id) {
      if InNamespace(m.name, id) { NamespacesDisjoint(name, m.name, id); }
    }
  }

  lemma StepKeepsOrderly(name: string, op: Op, w: World)
    requires ColonFree(name) && WhitelistedRecord(name, w) && (op.SyncOp? ==> Readable(op.m) && ColonFree(op.m.name))
    ensures WhitelistedRecord(name, Step(op, w))
    ensures Unsuffixed(name, w.clock) ==> Unsuffixed(name, Step(op, w).clock)
  {
    if op.SyncOp? {
      if op.m.name == name {
        SyncKeepsWhitelisted(op.e, op.m, w);
        if Unsuffixed(name, w.clock) { SyncKeepsUnsuffixed(op.e, op.m, w); }
      } else {
        OthersUntouched(name, op.m, op.e, w);
        forall id | id in Step(op, w).clock && InNamespace(name, id) ensures id in w.clock {
          assert At(w.clock, id) == At(Step(op, w).clock, id);
        }
      }
    }
  }

  /** No run of synchronisations and deletions, failures included, puts a file on record that could
      not be declared, or a suffixed id on the clock. */
  lemma {:induction false} StaysOrderly(name: string, ops: seq<Op>, w: World)
    requires ColonFree(name) && WhitelistedRecord(name, w) && ReadableOps(ops)
    ensures WhitelistedRecord(name, Run(ops, w))
    ensures Unsuffixed(name, w.clock) ==> Unsuffixed(name, Run(ops, w).clock)
    decreases |ops|
  {
    if ops != [] {
      StepKeepsOrderly(name, ops[0], w);
      StaysOrderly(name, ops[1..], Step(ops[0], w));
    }
  }

  // ---- the owner's deletions ----

  /** On record, and not on the clock: the owner took this job off. */
  ghost predicate OwnerDeleted(name: string, file: string, w: World) {
    file in Registered(w.records, name) && JobId(name, file) !in w.clock
  }

  ghost predicate NeverScheduled(id: string, calls: seq<Call>) {
    forall c :: c in calls && c.ScheduleCall? ==> c.id != id
  }

  lemma {:induction false} RegistrationRespects(e: Env, name: string, live: map<string, Job>, jobs: seq<Declared>, p: Pass, file: string)
    requires forall d :: d in jobs && JobId(name, d.file) == JobId(name, file) ==> d.file == file
    requires file in p.already && JobId(name, file) !in live && JobId(name, file) !in p.w.clock
    ensures var q := RegisterAll(e, name, live, jobs, p);
            && p.w.log <= q.w.log && NeverScheduled(JobId(name, file), Calls(p.w, q.w))
            && file in q.already && JobId(name, file) !in q.w.clock
    decreases |jobs|
  {
    if jobs != [] {
      var next := RegisterOne(e, name, live, jobs[0], p);
      var q := RegisterAll(e, name, live, jobs, p);
      RegisterOneConfined(e, name, live, jobs[0], p);
      NothingConfined(JobId(name, file), p.w);
      RegistrationRespects(e, name, live, jobs[1..], next, file);
      CallsSplit(p.w, next.w, q.w);
    }
  }

  /** No event schedules a deleted job, not even the one that takes its file off the record. */
  lemma DeletionStands(name: string, file: string, op: Op, w: World)
    requires ColonFree(name) && Whitelisted(file) && OwnerDeleted(name, file, w)
    requires op.SyncOp? ==> Readable(op.m) && ColonFree(op.m.name)
    ensures var after := Step(op, w);
            w.log <= after.log && JobId(name, file) !in after.clock && NeverScheduled(JobId(name, file), Calls(w, after))
  {
    if op.SyncOp? {
      var e, m := op.e, op.m;
      SyncConfined(e, m, w);
      JobIdInNamespace(name, file);
      if m.name != name {
        OthersUntouched(name, m, e, w);
        assert At(w.clock, JobId(name, file)) == At(Step(op, w).clock, JobId(name, file));
        if InNamespace(m.name, JobId(name, file)) { NamespacesDisjoint(name, m.name, JobId(name, file)); }
      } else if m.enabled {
        EnabledDeletionStands(e, m, w, file);
      } else {
        var names := Append(Files(m.jobs), Registered(w.records, name));
        CancelEachSchedulesNothing(e, name, true, names, Withdrawal(w, []), JobId(name, file));
      }
    } else {
      assert Calls(w, Step(op, w)) == [];
    }
  }

  lemma SameIdSameFile(m: Module, file: string, d: Declared)
    requires Readable(m) && Whitelisted(file) && d in m.jobs && JobId(m.name, d.file) == JobId(m.name, file)
    ensures d.file == file
  {
    WhitelistedIsCanonical(d.file);
    WhitelistedIsCanonical(file);
    CanonicalId(m.name, d.file, file);
  }

  lemma CancelEachSchedulesNothing(e: Env, name: string, strict: bool, files: seq<string>, p: Withdrawal, id: string)
    requires id !in p.w.clock
    ensures var q := CancelEach(e, name, strict, files, p);
            p.w.log <= q.w.log && id !in q.w.clock && NeverScheduled(id, Calls(p.w, q.w))
  {
    CancelEachConfined(e, name, strict, files, p);
    CancelEachFrame(e, name, strict, files, p);
    assert At(CancelEach(e, name, strict, files, p).w.clock, id) == None;
  }

  lemma NeverScheduledTrans(id: string, a: World, b: World, c: World)
    requires a.log <= b.log <= c.log && NeverScheduled(id, Calls(a, b)) && NeverScheduled(id, Calls(b, c))
    ensures a.log <= c.log && NeverScheduled(id, Calls(a, c))
  {
    CallsSplit(a, b, c);
  }

  lemma EnabledDeletionStands(e: Env, m: Module, w: World, file: string)
    requires m.enabled && Readable(m) && Whitelisted(file) && OwnerDeleted(m.name, file, w)
    ensures var after := Sync(e, m, w).w; var id := JobId(m.name, file);
            w.log <= after.log && id !in after.clock && NeverScheduled(id, Calls(w, after))
  {
    var id := JobId(m.name, file);
    forall d | d in m.jobs && JobId(m.name, d.file) == id ensures d.file == file { SameIdSameFile(m, file, d); }
    var p := Registration(e, m, w);
    var orphans := Orphans(e, m, w, p.already);
    RegistrationRespects(e, m.name, w.clock, m.jobs, Pass(w, Registered(w.records, m.name), []), file);
    CancelEachSchedulesNothing(e, m.name, false, orphans, Withdrawal(p.w, []), id);
    NeverScheduledTrans(id, w, p.w, CancelEach(e, m.name, false, orphans, Withdrawal(p.w, [])).w);
  }

  /** A recorded file whose job is gone is never scheduled again by any run of synchronisations and
      deletions, failures included, for as long as it is on record; nor by the event that takes it
      off. */
  lemma {:induction false} OwnerDeletionHolds(name: string, file: string, ops: seq<Op>, w: World)
    requires ColonFree(name) && Whitelisted(file) && OwnerDeleted(name, file, w) && ReadableOps(ops)
    requires forall k :: 0 < k < |ops| ==> file in Registered(Run(ops[..k], w).records, name)
    ensures w.log <= Run(ops, w).log && JobId(name, file) !in Run(ops, w).clock
    ensures NeverScheduled(JobId(name, file), Calls(w, Run(ops, w)))
    decreases |ops|
  {
    if ops == [] {
      assert Calls(w, w) == [];
    } else {
      var next := Step(ops[0], w);
      DeletionStands(name, file, ops[0], w);
      forall k | 0 <= k < |ops[1..]| ensures Run(ops[1..][..k], next) == Run(ops[..k + 1], w) {
        assert ops[..k + 1][1..] == ops[1..][..k];
      }
      if |ops| == 1 {
        assert Run(ops, w) == next;
      } else {
        assert ops[1..][..0] == [];
        OwnerDeletionHolds(name, file, ops[1..], next);
        NeverScheduledTrans(JobId(name, file), w, next, Run(ops, w));
      }
    }
  }

  /** What takes a deleted file off the record: a pass of its module that withdrew something, with the
      module disabled or the file undeclared. Nothing else does. */
  lemma LeavesRecord(name: string, file: string, op: Op, w: World)
    requires OwnerDeleted(name, file, w)
    ensures file !in Registered(Step(op, w).records, name) <==>
              && op.SyncOp? && op.m.name == name && Sync(op.e, op.m, w).removed != []
              && (!op.m.enabled || file !in Files(op.m.jobs))
  {
    if op.SyncOp? {
      var e, m := op.e, op.m;
      SyncConfined(e, m, w);
      if m.name == name {
        var p := Registration(e, m, w);
        RegisterAllRecords(e, name, w.clock, m.jobs, Pass(w, Registered(w.records, name), []));
        RegisterAllKeepsRecord(e, name, w.clock, m.jobs, Pass(w, Registered(w.records, name), []), file);
        CancelEachFrame(e, name, false, Orphans(e, m, w, p.already), Withdrawal(p.w, []));
        CancelEachFrame(e, name, true, Append(Files(m.jobs), Registered(w.records, name)), Withdrawal(w, []));
        RetainMembers(p.already, Files(m.jobs), file);
        RetainLength(p.already, Files(m.jobs));
      }
    }
  }

  lemma {:induction false} RegisterAllKeepsRecord(e: Env, name: string, live: map<string, Job>, jobs: seq<Declared>, p: Pass, file: string)
    requires file in p.already
    ensures file in RegisterAll(e, name, live, jobs, p).already
    decreases |jobs|
  {
    if jobs != [] { RegisterAllKeepsRecord(e, name, live, jobs[1..], RegisterOne(e, name, live, jobs[0], p), file); }
  }
}
