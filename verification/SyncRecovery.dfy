/** What a clean pass makes up for, after any number of passes in which calls failed. */
module SyncRecovery {
  import opened ScheduleSync
  import opened SyncPasses
  import opened SyncSettle
  import opened SyncRuns
  import opened Wrappers

  /** After any run of synchronisations and deletions, with any failures and of whatever declarations,
      one clean pass of a module that still declares something withdraws every undeclared job, on
      record or off it, among them those whose `cancel` had failed. It brings the whole namespace back
      to the declarations if and only if no live id carries the suffix, and no run puts one there. */
  lemma Recovery(ops: seq<Op>, e: Env, m: Module, w: World)
    requires m.enabled && m.jobs != [] && DistinctIds(m.name, m.jobs) && Enumerates(e)
    requires ColonFree(m.name) && Readable(m) && WhitelistedRecord(m.name, w) && ReadableOps(ops)
    requires var faulty := Run(ops, w);
             faulty.log <= Sync(e, m, faulty).w.log && NoFailure(Calls(faulty, Sync(e, m, faulty).w))
    ensures var faulty := Run(ops, w); var after := Sync(e, m, faulty).w;
            && (forall id :: id in after.clock && InNamespace(m.name, id) && !Suffixed(id[|Namespace(m.name)|..]) ==>
                  Find(m.name, m.jobs, id).Some?)
            && (forall f :: f in Registered(after.records, m.name) ==> f in Files(m.jobs))
            && (Converged(m, faulty.clock, Registered(faulty.records, m.name), after.clock) <==> Unsuffixed(m.name, faulty.clock))
            && (Unsuffixed(m.name, w.clock) ==> Unsuffixed(m.name, faulty.clock))
  {
    var faulty := Run(ops, w);
    var after := Sync(e, m, faulty).w;
    StaysOrderly(m.name, ops, w);
    ConditionsMeet(m, faulty.clock, Registered(faulty.records, m.name));
    Convergence(e, m, faulty);
    EnabledSettles(e, m, faulty);
    forall id | id in after.clock && InNamespace(m.name, id) && !Suffixed(id[|Namespace(m.name)|..])
      ensures Find(m.name, m.jobs, id).Some?
    {
      assert At(after.clock, id) == SettledAt(m, e.zone, faulty.clock, Registered(faulty.records, m.name), id);
      if Find(m.name, m.jobs, id) == None { UndeclaredIsOrphan(m, faulty.clock, Registered(faulty.records, m.name), id); }
    }
  }

  /** A recorded job that was on the clock and, after passes with failures, is not: withdrawn as
      stale, then refused. */
  ghost predicate Lost(m: Module, w: World, after: World, d: Declared) {
    && d in m.jobs && d.file in Registered(w.records, m.name)
    && JobId(m.name, d.file) in w.clock && JobId(m.name, d.file) !in after.clock
  }

  /** What a pass with failures leaves at one declared id that is not shadowed. */
  lemma FaultyDeclared(e: Env, m: Module, w: World, d: Declared)
    requires m.enabled && m.jobs != [] && DistinctIds(m.name, m.jobs) && Enumerates(e) && d in m.jobs
    requires Readable(m) && WhitelistedRecord(m.name, w) && !Shadowed(m.name, d.file, w.clock)
    ensures var p := Registration(e, m, w); var after := Sync(e, m, w).w; var id := JobId(m.name, d.file);
            && Fate(m.name, e.zone, w.clock, Registered(w.records, m.name), d, p, false)
            && At(after.clock, id) == At(p.w.clock, id)
            && (d.file in Registered(after.records, m.name) <==> d.file in p.already)
  {
    var p := Registration(e, m, w);
    EnabledPasses(e, m, w);
    RegisterAllFate(e, m.name, w.clock, m.jobs, Pass(w, Registered(w.records, m.name), []), d);
    CancelEachFrame(e, m.name, false, Orphans(e, m, w, p.already), Withdrawal(p.w, []));
    OrphanNames(e, m, w, p.already, JobId(m.name, d.file));
    DeclaredOrphan(m, w.clock, Registered(w.records, m.name), d);
    FilesMembers(m.jobs, d.file);
    RetainMembers(p.already, Files(m.jobs), d.file);
  }

  lemma SuffixedNotNamed(name: string, files: seq<string>, id: string)
    requires InNamespace(name, id) && Suffixed(id[|Namespace(name)|..])
    ensures !Names(name, files, id)
  {
    forall f | f in files ensures JobId(name, f) != id {
      JobIdInNamespace(name, f);
      TrimLeavesNoSuffix(f);
    }
  }

  /** After a pass, failures or not, an undeclared id is as before or gone, and as before if it carries
      the suffix. */
  lemma FaultyUndeclared(e: Env, m: Module, w: World, id: string)
    requires m.enabled && m.jobs != [] && DistinctIds(m.name, m.jobs) && InNamespace(m.name, id)
    ensures var after := Sync(e, m, w).w;
            && (Find(m.name, m.jobs, id) == None ==> At(after.clock, id) == At(w.clock, id) || At(after.clock, id) == None)
            && (Suffixed(id[|Namespace(m.name)|..]) ==> At(after.clock, id) == At(w.clock, id))
  {
    var p := Registration(e, m, w);
    EnabledPasses(e, m, w);
    RegisterAllFrame(e, m.name, w.clock, m.jobs, Pass(w, Registered(w.records, m.name), []));
    CancelEachFrame(e, m.name, false, Orphans(e, m, w, p.already), Withdrawal(p.w, []));
    if Suffixed(id[|Namespace(m.name)|..]) {
      SuffixedNotNamed(m.name, Orphans(e, m, w, p.already), id);
      if Find(m.name, m.jobs, id).Some? { OrphanInNamespace(m, w.clock, Registered(w.records, m.name), id); }
    }
  }

  /** How a declaration fares between two states of a run of passes, as if they were one pass. */
  ghost predicate CourseAt(m: Module, zone: string, a: World, b: World, d: Declared) {
    Fate(m.name, zone, a.clock, Registered(a.records, m.name), d, Pass(b, Registered(b.records, m.name), []), false)
  }

  /** The same for the whole namespace. */
  ghost predicate Course(m: Module, zone: string, a: World, b: World) {
    && WhitelistedRecord(m.name, a) && WhitelistedRecord(m.name, b)
    && SameSuffixed(m.name, a.clock, b.clock)
    && (forall d :: d in m.jobs && !Shadowed(m.name, d.file, a.clock) ==> CourseAt(m, zone, a, b, d))
    && (forall id :: InNamespace(m.name, id) && Find(m.name, m.jobs, id) == None ==>
          At(b.clock, id) == At(a.clock, id) || At(b.clock, id) == None)
  }

  lemma CourseTrans(m: Module, zone: string, a: World, b: World, c: World)
    requires Course(m, zone, a, b) && Course(m, zone, b, c)
    ensures Course(m, zone, a, c)
  {
    forall d | d in m.jobs && !Shadowed(m.name, d.file, a.clock) ensures CourseAt(m, zone, a, c, d) {
      SameShadows(m.name, d.file, a.clock, b.clock);
      assert CourseAt(m, zone, a, b, d) && CourseAt(m, zone, b, c, d);
      StampIsLive(d.options, zone);
    }
  }

  lemma CourseHere(m: Module, zone: string, a: World, b: World)
    requires WhitelistedRecord(m.name, a)
    requires forall id :: InNamespace(m.name, id) ==> At(b.clock, id) == At(a.clock, id)
    requires Registered(b.records, m.name) == Registered(a.records, m.name)
    ensures Course(m, zone, a, b)
  {
    forall d | d in m.jobs ensures CourseAt(m, zone, a, b, d) { JobIdInNamespace(m.name, d.file); }
  }

  lemma PassCourse(e: Env, m: Module, w: World)
    requires m.enabled && m.jobs != [] && DistinctIds(m.name, m.jobs) && Enumerates(e)
    requires Readable(m) && WhitelistedRecord(m.name, w)
    ensures Course(m, e.zone, w, Sync(e, m, w).w)
  {
    SyncKeepsWhitelisted(e, m, w);
    forall id | InNamespace(m.name, id)
      ensures Suffixed(id[|Namespace(m.name)|..]) ==> At(Sync(e, m, w).w.clock, id) == At(w.clock, id)
      ensures Find(m.name, m.jobs, id) == None ==>
                At(Sync(e, m, w).w.clock, id) == At(w.clock, id) || At(Sync(e, m, w).w.clock, id) == None
    {
      FaultyUndeclared(e, m, w, id);
    }
    forall d | d in m.jobs && !Shadowed(m.name, d.file, w.clock) ensures CourseAt(m, e.zone, w, Sync(e, m, w).w, d) {
      FaultyDeclared(e, m, w, d);
    }
  }

  /** Passes of this module as it stands, in one zone, among passes of others. */
  ghost predicate PassesOf(m: Module, zone: string, ops: seq<Op>) {
    forall op :: op in ops ==>
      && op.SyncOp?
      && if op.m.name == m.name then op.m == m && Enumerates(op.e) && op.e.zone == zone else ColonFree(op.m.name)
  }

  lemma {:induction false} RunCourse(m: Module, zone: string, ops: seq<Op>, w: World)
    requires m.enabled && m.jobs != [] && DistinctIds(m.name, m.jobs) && ColonFree(m.name) && PassesOf(m, zone, ops)
    requires Readable(m) && WhitelistedRecord(m.name, w)
    ensures Course(m, zone, w, Run(ops, w))
    decreases |ops|
  {
    if ops == [] {
      CourseHere(m, zone, w, w);
    } else {
      var op, next := ops[0], Step(ops[0], w);
      assert op in ops;
      if op.m.name == m.name {
        PassCourse(op.e, m, w);
      } else {
        OthersUntouched(m.name, op.m, op.e, w);
        CourseHere(m, zone, w, next);
      }
      RunCourse(m, zone, ops[1..], next);
      CourseTrans(m, zone, w, next, Run(ops, w));
    }
  }

  /** A recorded job that a foreign id does not shadow was lost at this id. */
  ghost predicate LostAt(m: Module, w: World, after: World, id: string) {
    var d := Find(m.name, m.jobs, id);
    d.Some? && Lost(m, w, after, d.value) && !Shadowed(m.name, d.value.file, w.clock)
  }

  lemma CourseSettles(m: Module, zone: string, w: World, after: World, id: string)
    requires DistinctIds(m.name, m.jobs) && Readable(m) && Course(m, zone, w, after) && InNamespace(m.name, id)
    ensures var record := Registered(w.records, m.name);
            SettledAt(m, zone, after.clock, Registered(after.records, m.name), id) == SettledAt(m, zone, w.clock, record, id)
            <==> !LostAt(m, w, after, id)
  {
    var record, record2 := Registered(w.records, m.name), Registered(after.records, m.name);
    FindNone(m.name, m.jobs, id);
    match Find(m.name, m.jobs, id)
    case Some(d) =>
      SameShadows(m.name, d.file, w.clock, after.clock);
      DeclaredOrphan(m, w.clock, record, d);
      DeclaredOrphan(m, after.clock, record2, d);
      StampIsLive(d.options, zone);
    case None =>
      UndeclaredSettles(m, zone, w.clock, record, id);
      UndeclaredSettles(m, zone, after.clock, record2, id);
  }

  /** Of the undeclared ids only those with the suffix stay. */
  lemma UndeclaredSettles(m: Module, zone: string, clock: map<string, Job>, record: seq<string>, id: string)
    requires InNamespace(m.name, id) && Find(m.name, m.jobs, id) == None
    ensures SettledAt(m, zone, clock, record, id) == if Suffixed(id[|Namespace(m.name)|..]) then At(clock, id) else None
  {
    if Suffixed(id[|Namespace(m.name)|..]) {
      if OrphanId(m, clock, record, id) { OrphanInNamespace(m, clock, record, id); }
    } else if id in clock {
      UndeclaredIsOrphan(m, clock, record, id);
    }
  }

  /** Any number of passes with failures, among passes of other modules, and then a clean one: the
      namespace is as a single clean pass at the start would have left it, if and only if no recorded
      job was lost on the way, save one that a foreign id would have cost its place anyway. */
  lemma RecoveryExact(ops: seq<Op>, e: Env, m: Module, w: World)
    requires m.enabled && m.jobs != [] && DistinctIds(m.name, m.jobs) && Enumerates(e)
    requires ColonFree(m.name) && Readable(m) && WhitelistedRecord(m.name, w) && PassesOf(m, e.zone, ops)
    requires var faulty := Run(ops, w);
             faulty.log <= Sync(e, m, faulty).w.log && NoFailure(Calls(faulty, Sync(e, m, faulty).w))
    ensures var faulty := Run(ops, w); var record := Registered(w.records, m.name);
            (forall id :: InNamespace(m.name, id) ==> At(Sync(e, m, faulty).w.clock, id) == SettledAt(m, e.zone, w.clock, record, id))
            <==> forall d :: d in m.jobs && Lost(m, w, faulty, d) ==> Shadowed(m.name, d.file, w.clock)
  {
    var faulty := Run(ops, w);
    var after := Sync(e, m, faulty).w;
    var record := Registered(w.records, m.name);
    RunCourse(m, e.zone, ops, w);
    EnabledSettles(e, m, faulty);
    forall id | InNamespace(m.name, id)
      ensures At(after.clock, id) == SettledAt(m, e.zone, w.clock, record, id) <==> !LostAt(m, w, faulty, id)
    {
      CourseSettles(m, e.zone, w, faulty, id);
      assert At(after.clock, id) == SettledAt(m, e.zone, faulty.clock, Registered(faulty.records, m.name), id);
    }
    LostIds(m, w, faulty);
  }

  lemma LostIds(m: Module, w: World, after: World)
    requires DistinctIds(m.name, m.jobs)
    ensures (forall id :: InNamespace(m.name, id) ==> !LostAt(m, w, after, id)) <==>
              forall d :: d in m.jobs && Lost(m, w, after, d) ==> Shadowed(m.name, d.file, w.clock)
  {
    forall d | d in m.jobs
      ensures InNamespace(m.name, JobId(m.name, d.file))
      ensures LostAt(m, w, after, JobId(m.name, d.file)) <==> Lost(m, w, after, d) && !Shadowed(m.name, d.file, w.clock)
    {
      FindOwn(m.name, m.jobs, d);
      JobIdInNamespace(m.name, d.file);
    }
    forall id | LostAt(m, w, after, id) ensures Find(m.name, m.jobs, id).value in m.jobs { FindNone(m.name, m.jobs, id); }
  }

  /** One such loss: `a.json` on record and its job under an old target; the call that withdraws it
      succeeds, the one that schedules it anew fails. */
  lemma LostExample(e: Env, o: Options)
    requires Enumerates(e) && forall n :: e.fails(n) <==> n == 1
    ensures var d := Declared("a.json", o); var w := World(map["module:x:a" := Job("old", map[])], map["x" := ["a.json"]], []);
            var m := Module("x", true, [d]);
            Lost(m, w, Sync(e, m, w).w, d) && !Shadowed("x", "a.json", w.clock)
  {
    var d := Declared("a.json", o);
    var m := Module("x", true, [d]);
    var w := World(map["module:x:a" := Job("old", map[])], map["x" := ["a.json"]], []);
    ExampleIds();
    assert !Suffixed("a") && "module:x:a"[|Namespace("x")|..] == "a";
    assert m.jobs[1..] == [];
    var p := RegisterOne(e, "x", w.clock, d, Pass(w, ["a.json"], []));
    assert Stale("x", w.clock, d) && p.w.clock == map[];
    assert RegisterAll(e, "x", w.clock, [], p) == p;
    FaultyDeclared(e, m, w, d);
  }
}
