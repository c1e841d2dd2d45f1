/** The boot pass over all modules: with no failed call it ends in one state, whatever order the
    modules come in and however often a name is listed. */
module SyncOrder {
  import opened ScheduleSync
  import opened SyncPasses
  import opened SyncSettle
  import opened SyncRuns
  import opened SyncRecovery
  import opened Wrappers

  // ---- one module, any branch ----

  ghost function Outcome(m: Module, zone: string, clock: map<string, Job>, record: seq<string>, id: string): Option<Job> {
    if m.jobs == [] && record == [] then At(clock, id)
    else if !m.enabled then
      if Names(m.name, Append(Files(m.jobs), record), id) then None else At(clock, id)
    else SettledAt(m, zone, clock, record, id)
  }

  ghost function OutcomeRecord(m: Module, clock: map<string, Job>, record: seq<string>): seq<string> {
    if m.jobs == [] && record == [] then record
    else if !m.enabled then
      if exists id :: id in clock && Names(m.name, Append(Files(m.jobs), record), id) then [] else record
    else SettledRecord(m, clock, record)
  }

  lemma SyncOutcome(e: Env, m: Module, w: World)
    requires Enumerates(e) && (m.enabled ==> DistinctIds(m.name, m.jobs))
    requires w.log <= Sync(e, m, w).w.log && NoFailure(Calls(w, Sync(e, m, w).w))
    ensures var after := Sync(e, m, w).w; var record := Registered(w.records, m.name);
            && (forall id :: At(after.clock, id) == Outcome(m, e.zone, w.clock, record, id))
            && Registered(after.records, m.name) == OutcomeRecord(m, w.clock, record)
  {
    var record := Registered(w.records, m.name);
    if HasWork(m, w) {
      if m.enabled {
        EnabledSettles(e, m, w);
      } else {
        var names := Append(Files(m.jobs), record);
        CancelEachFrame(e, m.name, true, names, Withdrawal(w, []));
        CancelEachClears(e, m.name, true, names, Withdrawal(w, []));
        var q := CancelEach(e, m.name, true, names, Withdrawal(w, []));
        assert |q.removed| == 0 <==> q.removed == [];
      }
    }
  }

  ghost predicate AgreeOn(name: string, a: map<string, Job>, b: map<string, Job>) {
    forall id :: InNamespace(name, id) ==> At(a, id) == At(b, id)
  }

  lemma SkippedLocal(name: string, a: map<string, Job>, b: map<string, Job>, record: seq<string>, d: Declared)
    requires AgreeOn(name, a, b)
    ensures Skipped(name, a, record, d) == Skipped(name, b, record, d)
  {
    JobIdInNamespace(name, d.file);
    assert At(a, JobId(name, d.file)) == At(b, JobId(name, d.file));
  }

  lemma {:induction false} NewFilesLocal(name: string, a: map<string, Job>, b: map<string, Job>, record: seq<string>, jobs: seq<Declared>)
    requires AgreeOn(name, a, b)
    ensures NewFiles(name, a, record, jobs) == NewFiles(name, b, record, jobs)
    decreases |jobs|
  {
    if jobs != [] {
      SkippedLocal(name, a, b, record, jobs[0]);
      NewFilesLocal(name, a, b, record, jobs[1..]);
    }
  }

  lemma OrphanLocal(m: Module, a: map<string, Job>, b: map<string, Job>, record: seq<string>, id: string)
    requires AgreeOn(m.name, a, b)
    ensures OrphanId(m, a, record, id) ==> OrphanId(m, b, record, id)
  {
    if live :| live in a && InNamespace(m.name, live)
               && FileOfId(m.name, live) !in Files(m.jobs) && JobId(m.name, FileOfId(m.name, live)) == id {
      assert At(a, live) == At(b, live);
    }
  }

  /** The outcome for a module reads nothing outside its own namespace. */
  lemma OutcomeLocal(m: Module, zone: string, a: map<string, Job>, b: map<string, Job>, record: seq<string>)
    requires AgreeOn(m.name, a, b)
    ensures forall id :: InNamespace(m.name, id) ==> Outcome(m, zone, a, record, id) == Outcome(m, zone, b, record, id)
    ensures OutcomeRecord(m, a, record) == OutcomeRecord(m, b, record)
  {
    NewFilesLocal(m.name, a, b, record, m.jobs);
    forall id | InNamespace(m.name, id) ensures Outcome(m, zone, a, record, id) == Outcome(m, zone, b, record, id) {
      OrphanLocal(m, a, b, record, id);
      OrphanLocal(m, b, a, record, id);
      if Find(m.name, m.jobs, id).Some? { SkippedLocal(m.name, a, b, record, Find(m.name, m.jobs, id).value); }
    }
    forall id | Names(m.name, Append(Files(m.jobs), record), id) ensures At(a, id) == At(b, id) {
      var f :| f in Append(Files(m.jobs), record) && JobId(m.name, f) == id;
      JobIdInNamespace(m.name, f);
    }
  }

  // ---- a module listed twice ----

  /** The state of one module after its outcome. */
  ghost predicate IsOutcome(m: Module, zone: string, clock: map<string, Job>, record: seq<string>, after: map<string, Job>, record2: seq<string>) {
    && (forall id :: InNamespace(m.name, id) ==> At(after, id) == Outcome(m, zone, clock, record, id))
    && record2 == OutcomeRecord(m, clock, record)
  }

  /** A second pass would leave every declaration of an enabled module alone. */
  ghost predicate AllSkipAgain(m: Module, clock: map<string, Job>, record: seq<string>) {
    m.enabled ==> Readable(m) && forall d :: d in m.jobs ==> SkipsAgain(m, clock, record, d)
  }

  /** An outcome makes no new orphans of declared ids. */
  lemma OutcomeOrphans(m: Module, zone: string, clock: map<string, Job>, record: seq<string>, after: map<string, Job>, record2: seq<string>, id: string)
    requires m.enabled && Readable(m) && !(m.jobs == [] && record == []) && IsOutcome(m, zone, clock, record, after, record2)
    requires OrphanId(m, after, record2, id)
    ensures OrphanId(m, clock, record, id)
  {
    if f :| f in record2 && f !in Files(m.jobs) {
      SettledWithin(m, clock, record, f);
    } else {
      var live :| live in after && InNamespace(m.name, live)
        && FileOfId(m.name, live) !in Files(m.jobs) && JobId(m.name, FileOfId(m.name, live)) == id;
      assert At(after, live) == Outcome(m, zone, clock, record, live);
      FindNone(m.name, m.jobs, live);
      if Find(m.name, m.jobs, live).Some? { DeclaredFileOfId(m, Find(m.name, m.jobs, live).value); }
    }
  }

  lemma SettledWithin(m: Module, clock: map<string, Job>, record: seq<string>, f: string)
    requires f in SettledRecord(m, clock, record)
    ensures f in Files(m.jobs)
  {
    RetainMembers(record, Files(m.jobs), f);
    NewFilesDeclared(m, clock, record);
  }

  /** The file read off a declared job's id is the declared file. */
  lemma DeclaredFileOfId(m: Module, d: Declared)
    requires Readable(m) && d in m.jobs
    ensures InNamespace(m.name, JobId(m.name, d.file)) && FileOfId(m.name, JobId(m.name, d.file)) in Files(m.jobs)
  {
    JobIdInNamespace(m.name, d.file);
    WhitelistedIsCanonical(d.file);
    FilesMembers(m.jobs, d.file);
  }

  lemma OutcomeSkipsAgain(m: Module, zone: string, clock: map<string, Job>, record: seq<string>, after: map<string, Job>, record2: seq<string>)
    requires AllSkipAgain(m, clock, record) && IsOutcome(m, zone, clock, record, after, record2)
    ensures AllSkipAgain(m, after, record2)
  {
    if m.enabled && !(m.jobs == [] && record == []) {
      forall d | d in m.jobs && OrphanId(m, after, record2, JobId(m.name, d.file)) ensures JobId(m.name, d.file) !in after {
        OutcomeOrphans(m, zone, clock, record, after, record2, JobId(m.name, d.file));
        JobIdInNamespace(m.name, d.file);
        assert At(after, JobId(m.name, d.file)) == Outcome(m, zone, clock, record, JobId(m.name, d.file));
      }
    }
  }

  /** A second outcome is the first, if and only if the state before the first left every declaration
      to be skipped again. */
  lemma OutcomeIdempotent(m: Module, zone: string, clock: map<string, Job>, record: seq<string>, after: map<string, Job>, record2: seq<string>)
    requires m.enabled ==> DistinctIds(m.name, m.jobs) && Readable(m)
    requires IsOutcome(m, zone, clock, record, after, record2)
    ensures IsOutcome(m, zone, after, record2, after, record2) <==> AllSkipAgain(m, clock, record)
  {
    if m.jobs == [] && record == [] {
    } else if !m.enabled {
      DisabledIdempotent(m, zone, clock, record, after, record2);
    } else {
      forall d | d in m.jobs ensures Skipped(m.name, after, record2, d) <==> SkipsAgain(m, clock, record, d) {
        OutcomeSkips(m, zone, clock, record, after, record2, d);
      }
      if AllSkipAgain(m, clock, record) {
        EnabledIdempotent(m, zone, clock, record, after, record2);
      } else {
        var d :| d in m.jobs && !SkipsAgain(m, clock, record, d);
        SettledRecordHas(m, clock, record, d);
        SettledRecordHas(m, after, record2, d);
      }
    }
  }

  lemma OutcomeSkips(m: Module, zone: string, clock: map<string, Job>, record: seq<string>, after: map<string, Job>, record2: seq<string>, d: Declared)
    requires m.enabled && DistinctIds(m.name, m.jobs) && d in m.jobs && IsOutcome(m, zone, clock, record, after, record2)
    ensures Skipped(m.name, after, record2, d) <==> SkipsAgain(m, clock, record, d)
  {
    var id := JobId(m.name, d.file);
    FindOwn(m.name, m.jobs, d);
    JobIdInNamespace(m.name, d.file);
    SettledRecordHas(m, clock, record, d);
    StampIsLive(d.options, zone);
    assert At(after, id) == Outcome(m, zone, clock, record, id);
  }

  lemma DisabledIdempotent(m: Module, zone: string, clock: map<string, Job>, record: seq<string>, after: map<string, Job>, record2: seq<string>)
    requires !m.enabled && !(m.jobs == [] && record == []) && IsOutcome(m, zone, clock, record, after, record2)
    ensures IsOutcome(m, zone, after, record2, after, record2)
  {
    var names := Append(Files(m.jobs), record);
    var names2 := Append(Files(m.jobs), record2);
    forall id | Names(m.name, names2, id) ensures id !in after {
      var f :| f in names2 && JobId(m.name, f) == id;
      AppendMembers(Files(m.jobs), record, f);
      AppendMembers(Files(m.jobs), record2, f);
      JobIdInNamespace(m.name, f);
      assert At(after, id) == None;
    }
  }

  lemma EnabledIdempotent(m: Module, zone: string, clock: map<string, Job>, record: seq<string>, after: map<string, Job>, record2: seq<string>)
    requires m.enabled && !(m.jobs == [] && record == []) && DistinctIds(m.name, m.jobs) && Readable(m)
    requires IsOutcome(m, zone, clock, record, after, record2)
    requires forall d :: d in m.jobs ==> Skipped(m.name, after, record2, d)
    ensures IsOutcome(m, zone, after, record2, after, record2)
  {
    forall f | f in record2 ensures f in Files(m.jobs) { SettledWithin(m, clock, record, f); }
    RetainAll(record2, Files(m.jobs));
    var more := NewFiles(m.name, after, record2, m.jobs);
    if more != [] { NewFilesMembers(m.name, after, record2, m.jobs, more[0]); }
    forall id | InNamespace(m.name, id) ensures At(after, id) == Outcome(m, zone, after, record2, id) {
      FindNone(m.name, m.jobs, id);
      if OrphanId(m, after, record2, id) { OutcomeOrphans(m, zone, clock, record, after, record2, id); }
    }
  }

  // ---- off and on again ----

  /** A job of the module was on the clock when it was switched off. */
  ghost predicate AnyLive(m: Module, w: World) {
    exists id :: id in w.clock && Names(m.name, Append(Files(m.jobs), Registered(w.records, m.name)), id)
  }

  /** What switching a module off leaves: none of its declared jobs, and an empty record if a job was
      withdrawn; otherwise the record as it was. */
  lemma AfterOff(e: Env, m: Module, w: World, d: Declared)
    requires Enumerates(e) && d in m.jobs
    requires var off := Sync(e, m.(enabled := false), w).w; w.log <= off.log && NoFailure(Calls(w, off))
    ensures var off := Sync(e, m.(enabled := false), w).w;
            && JobId(m.name, d.file) !in off.clock
            && Registered(off.records, m.name) == if AnyLive(m, w) then [] else Registered(w.records, m.name)
  {
    var names := Append(Files(m.jobs), Registered(w.records, m.name));
    SyncOutcome(e, m.(enabled := false), w);
    FilesMembers(m.jobs, d.file);
    AppendMembers(Files(m.jobs), Registered(w.records, m.name), d.file);
    assert Names(m.name, names, JobId(m.name, d.file));
    assert At(Sync(e, m.(enabled := false), w).w.clock, JobId(m.name, d.file)) == None;
  }

  /** A pass that switches a module off leaves its ids with the suffix alone. */
  lemma OffKeepsSuffixed(e: Env, m: Module, w: World)
    ensures SameSuffixed(m.name, w.clock, Sync(e, m.(enabled := false), w).w.clock)
  {
    var names := Append(Files(m.jobs), Registered(w.records, m.name));
    CancelEachFrame(e, m.name, true, names, Withdrawal(w, []));
    forall id | InNamespace(m.name, id) && Suffixed(id[|Namespace(m.name)|..])
      ensures At(w.clock, id) == At(Sync(e, m.(enabled := false), w).w.clock, id)
    {
      SuffixedNotNamed(m.name, names, id);
    }
  }

  /** Switching a module off and on again, cleanly, puts every declared job on the clock as declared,
      deleted ones included, if and only if a job was there to withdraw or none had been recorded, and
      no declared job is shadowed by a foreign id. */
  lemma ToggleStartsClean(e: Env, e2: Env, m: Module, w: World)
    requires Enumerates(e) && Enumerates(e2) && m.enabled && m.jobs != [] && DistinctIds(m.name, m.jobs)
    requires Readable(m) && WhitelistedRecord(m.name, w)
    requires var off := Sync(e, m.(enabled := false), w).w; w.log <= off.log && NoFailure(Calls(w, off))
    requires var off := Sync(e, m.(enabled := false), w).w;
             off.log <= Sync(e2, m, off).w.log && NoFailure(Calls(off, Sync(e2, m, off).w))
    ensures var off := Sync(e, m.(enabled := false), w).w;
            (forall d :: d in m.jobs ==> At(Sync(e2, m, off).w.clock, JobId(m.name, d.file)) == Some(Fresh(m.name, e2.zone, d)))
            <==> && (AnyLive(m, w) || forall d :: d in m.jobs ==> d.file !in Registered(w.records, m.name))
                 && forall d :: d in m.jobs ==> !Shadowed(m.name, d.file, w.clock)
  {
    var off := Sync(e, m.(enabled := false), w).w;
    var record := Registered(off.records, m.name);
    OffKeepsSuffixed(e, m, w);
    EnabledSettles(e2, m, off);
    forall d | d in m.jobs
      ensures At(Sync(e2, m, off).w.clock, JobId(m.name, d.file)) == Some(Fresh(m.name, e2.zone, d)) <==>
                d.file !in record && !Shadowed(m.name, d.file, w.clock)
      ensures record == if AnyLive(m, w) then [] else Registered(w.records, m.name)
    {
      AfterOff(e, m, w, d);
      FindOwn(m.name, m.jobs, d);
      DeclaredOrphan(m, off.clock, record, d);
      SameShadows(m.name, d.file, w.clock, off.clock);
    }
    assert m.jobs[0] in m.jobs;
  }

  lemma {:induction false} CancelNothing(e: Env, name: string, files: seq<string>, p: Withdrawal)
    requires p.w.clock == map[]
    ensures var q := CancelEach(e, name, true, files, p);
            q.w.clock == map[] && q.w.records == p.w.records && q.removed == p.removed
    decreases |files|
  {
    if files != [] { CancelNothing(e, name, files[1..], CancelOne(e, name, true, files[0], p)); }
  }

  /** A start that is not clean: `a.json` on record and its job gone. There is nothing to withdraw, so
      the record stays, and off and on again schedules nothing. */
  lemma ToggleExample(e: Env, e2: Env, o: Options)
    requires Enumerates(e) && Enumerates(e2)
    ensures var m := Module("x", true, [Declared("a.json", o)]);
            var off := Sync(e, m.(enabled := false), World(map[], map["x" := ["a.json"]], [])).w;
            Sync(e2, m, off) == Synced(off, [], []) && off.clock == map[]
  {
    var d := Declared("a.json", o);
    var m := Module("x", true, [d]);
    var w := World(map[], map["x" := ["a.json"]], []);
    var off := Sync(e, m.(enabled := false), w).w;
    CancelNothing(e, "x", Append(Files(m.jobs), ["a.json"]), Withdrawal(w, []));
    assert off.clock == map[] && off.records == w.records;
    FilesMembers(m.jobs, "a.json");
    assert d in m.jobs;
    var orphans := Orphans(e2, m, off, ["a.json"]);
    assert orphans == [] || orphans[0] in orphans;
    forall f ensures f !in orphans {
      LiveOrphanMembers("x", Files(m.jobs), e2.order(off.clock.Keys), Undeclared(["a.json"], Files(m.jobs)), f);
      UndeclaredMembers(["a.json"], Files(m.jobs), f);
    }
    NothingToDo(e2, m, off);
  }

  // ---- the whole pass ----

  /** What the boot pass may assume of the modules it is given: colon-free names, a name always
      standing for the same module, distinct job ids within an enabled module, one zone, and, where a
      name is listed more than once, that its second pass skips what it declares. */
  ghost predicate Bootable(visits: seq<Visit>, zone: string, w: World) {
    && (forall v :: v in visits ==>
          ColonFree(v.m.name) && Enumerates(v.e) && v.e.zone == zone && (v.m.enabled ==> DistinctIds(v.m.name, v.m.jobs)))
    && (forall i, j :: 0 <= i < j < |visits| && visits[i].m.name == visits[j].m.name ==>
          visits[i].m == visits[j].m && AllSkipAgain(visits[i].m, w.clock, Registered(w.records, visits[i].m.name)))
  }

  ghost predicate Listed(visits: seq<Visit>, name: string) {
    exists v :: v in visits && v.m.name == name
  }

  lemma SkipAgainLocal(m: Module, a: map<string, Job>, b: map<string, Job>, record: seq<string>)
    requires AgreeOn(m.name, a, b) && AllSkipAgain(m, a, record)
    ensures AllSkipAgain(m, b, record)
  {
    forall d | m.enabled && d in m.jobs ensures SkipsAgain(m, b, record, d) {
      assert SkipsAgain(m, a, record, d);
      OrphanLocal(m, b, a, record, JobId(m.name, d.file));
      JobIdInNamespace(m.name, d.file);
      assert At(a, JobId(m.name, d.file)) == At(b, JobId(m.name, d.file));
    }
  }

  lemma {:induction false} SyncAllLog(visits: seq<Visit>, w: World)
    ensures w.log <= SyncAll(visits, w).log
    decreases |visits|
  {
    if visits != [] {
      SyncConfined(visits[0].e, visits[0].m, w);
      SyncAllLog(visits[1..], Sync(visits[0].e, visits[0].m, w).w);
    }
  }

  lemma BootableRest(visits: seq<Visit>, zone: string, w: World)
    requires visits != [] && Bootable(visits, zone, w)
    requires var after := Sync(visits[0].e, visits[0].m, w).w;
             w.log <= after.log && NoFailure(Calls(w, after))
    ensures Bootable(visits[1..], zone, Sync(visits[0].e, visits[0].m, w).w)
  {
    var first := visits[0];
    var after := Sync(first.e, first.m, w).w;
    assert first in visits;
    SyncOutcome(first.e, first.m, w);
    forall i, j | 0 <= i < j < |visits[1..]| && visits[1..][i].m.name == visits[1..][j].m.name
      ensures AllSkipAgain(visits[1..][i].m, after.clock, Registered(after.records, visits[1..][i].m.name))
    {
      var m := visits[i + 1].m;
      assert visits[i + 1].m.name == visits[j + 1].m.name;
      assert visits[i + 1] in visits;
      if m.name == first.m.name {
        assert visits[0].m == visits[i + 1].m;
        OutcomeSkipsAgain(m, zone, w.clock, Registered(w.records, m.name), after.clock, Registered(after.records, m.name));
      } else {
        OthersUntouched(m.name, first.m, first.e, w);
        SkipAgainLocal(m, w.clock, after.clock, Registered(w.records, m.name));
      }
    }
  }

  /** Each listed module is in its outcome and nothing else has changed. */
  ghost predicate PassDone(visits: seq<Visit>, zone: string, w: World, after: World) {
    && (forall x :: x in visits ==>
          IsOutcome(x.m, zone, w.clock, Registered(w.records, x.m.name), after.clock, Registered(after.records, x.m.name)))
    && (forall id :: (forall x :: x in visits ==> !InNamespace(x.m.name, id)) ==> At(after.clock, id) == At(w.clock, id))
    && (forall n :: !Listed(visits, n) ==> Registered(after.records, n) == Registered(w.records, n))
  }

  /** After a clean pass each listed module is in the outcome computed from the state before the
      pass, and nothing else has changed. */
  lemma {:induction false} SyncAllOutcome(visits: seq<Visit>, zone: string, w: World)
    requires Bootable(visits, zone, w)
    requires w.log <= SyncAll(visits, w).log && NoFailure(Calls(w, SyncAll(visits, w)))
    ensures PassDone(visits, zone, w, SyncAll(visits, w))
    decreases |visits|
  {
    if visits != [] {
      var first := visits[0];
      var next := Sync(first.e, first.m, w).w;
      var after := SyncAll(visits, w);
      assert first in visits;
      SyncConfined(first.e, first.m, w);
      SyncAllLog(visits[1..], next);
      CallsSplit(w, next, after);
      BootableRest(visits, zone, w);
      SyncAllOutcome(visits[1..], zone, next);
      forall v | v in visits
        ensures IsOutcome(v.m, zone, w.clock, Registered(w.records, v.m.name), after.clock, Registered(after.records, v.m.name))
      {
        VisitOutcome(visits, zone, w, v);
      }
      assert forall v :: v in visits <==> v == first || v in visits[1..];
      forall n | !Listed(visits, n) ensures Registered(after.records, n) == Registered(w.records, n) {
        assert !Listed(visits[1..], n) && n != first.m.name;
      }
    }
  }

  lemma VisitOutcome(visits: seq<Visit>, zone: string, w: World, v: Visit)
    requires visits != [] && v in visits && Bootable(visits, zone, w)
    requires var next := Sync(visits[0].e, visits[0].m, w).w;
             w.log <= next.log && NoFailure(Calls(w, next)) && PassDone(visits[1..], zone, next, SyncAll(visits, w))
    ensures var after := SyncAll(visits, w);
            IsOutcome(v.m, zone, w.clock, Registered(w.records, v.m.name), after.clock, Registered(after.records, v.m.name))
  {
    var first := visits[0];
    var next := Sync(first.e, first.m, w).w;
    assert first in visits;
    if v.m.name != first.m.name {
      assert v in visits[1..];
      OthersUntouched(v.m.name, first.m, first.e, w);
      OutcomeLocal(v.m, zone, w.clock, next.clock, Registered(w.records, v.m.name));
    } else {
      SyncOutcome(first.e, first.m, w);
      if x :| x in visits[1..] && x.m.name == v.m.name {
        SameModule(visits, zone, w, first, v, x);
        OutcomeIdempotent(v.m, zone, w.clock, Registered(w.records, v.m.name), next.clock, Registered(next.records, v.m.name));
      } else {
        assert v == first;
        LastVisit(visits, zone, w, next);
      }
    }
  }

  /** One name stands for one module, and one listed again is skipped the second time. */
  lemma SameModule(visits: seq<Visit>, zone: string, w: World, first: Visit, v: Visit, x: Visit)
    requires Bootable(visits, zone, w) && visits != [] && first == visits[0] && v in visits && x in visits[1..]
    requires first.m.name == v.m.name == x.m.name
    ensures v.m == first.m == x.m && AllSkipAgain(v.m, w.clock, Registered(w.records, v.m.name))
  {
    var j :| 0 <= j < |visits[1..]| && visits[1..][j] == x;
    assert visits[j + 1] == x;
    var i :| 0 <= i < |visits| && visits[i] == v;
    assert visits[0].m == visits[j + 1].m && (i == 0 || visits[i].m == visits[0].m);
  }

  /** What no later visit names stays as the first one left it. */
  lemma LastVisit(visits: seq<Visit>, zone: string, w: World, next: World)
    requires visits != [] && Bootable(visits, zone, w) && !Listed(visits[1..], visits[0].m.name)
    requires PassDone(visits[1..], zone, next, SyncAll(visits, w))
    ensures var after := SyncAll(visits, w); var name := visits[0].m.name;
            AgreeOn(name, after.clock, next.clock) && Registered(after.records, name) == Registered(next.records, name)
  {
    var name := visits[0].m.name;
    assert visits[0] in visits;
    forall id | InNamespace(name, id) ensures At(SyncAll(visits, w).clock, id) == At(next.clock, id) {
      forall x | x in visits[1..] ensures !InNamespace(x.m.name, id) {
        assert x in visits;
        if InNamespace(x.m.name, id) { NamespacesDisjoint(x.m.name, name, id); }
      }
    }
  }

  ghost predicate ListsModule(visits: seq<Visit>, m: Module) {
    exists v :: v in visits && v.m == m
  }

  /** Both lists contain the same modules, whatever their order and repetitions. */
  ghost predicate SameModules(a: seq<Visit>, b: seq<Visit>) {
    forall m :: ListsModule(a, m) <==> ListsModule(b, m)
  }

  /** At one id, both passes agree with the outcome of whichever module owns the id. */
  lemma SameClockAt(a: seq<Visit>, b: seq<Visit>, zone: string, w: World, id: string)
    requires Bootable(a, zone, w) && Bootable(b, zone, w) && SameModules(a, b)
    requires w.log <= SyncAll(a, w).log && NoFailure(Calls(w, SyncAll(a, w)))
    requires w.log <= SyncAll(b, w).log && NoFailure(Calls(w, SyncAll(b, w)))
    ensures At(SyncAll(a, w).clock, id) == At(SyncAll(b, w).clock, id)
  {
    SyncAllOutcome(a, zone, w);
    SyncAllOutcome(b, zone, w);
    if v :| v in a && InNamespace(v.m.name, id) {
      assert ListsModule(a, v.m) && ListsModule(b, v.m);
    } else {
      forall u | u in b ensures !InNamespace(u.m.name, id) {
        assert ListsModule(b, u.m) && ListsModule(a, u.m);
      }
    }
  }

  lemma SameRecordOf(a: seq<Visit>, b: seq<Visit>, zone: string, w: World, n: string)
    requires Bootable(a, zone, w) && Bootable(b, zone, w) && SameModules(a, b)
    requires w.log <= SyncAll(a, w).log && NoFailure(Calls(w, SyncAll(a, w)))
    requires w.log <= SyncAll(b, w).log && NoFailure(Calls(w, SyncAll(b, w)))
    ensures Registered(SyncAll(a, w).records, n) == Registered(SyncAll(b, w).records, n)
  {
    SyncAllOutcome(a, zone, w);
    SyncAllOutcome(b, zone, w);
    if v :| v in a && v.m.name == n {
      assert ListsModule(a, v.m) && ListsModule(b, v.m);
    } else {
      forall u | u in b ensures u.m.name != n {
        assert ListsModule(b, u.m) && ListsModule(a, u.m);
      }
    }
  }

  /** Two clean boot passes over the same modules, in any order and with any repetition, end with
      the same clock and the same records. */
  lemma OrderIndependence(a: seq<Visit>, b: seq<Visit>, zone: string, w: World)
    requires Bootable(a, zone, w) && Bootable(b, zone, w) && SameModules(a, b)
    requires w.log <= SyncAll(a, w).log && NoFailure(Calls(w, SyncAll(a, w)))
    requires w.log <= SyncAll(b, w).log && NoFailure(Calls(w, SyncAll(b, w)))
    ensures forall id :: At(SyncAll(a, w).clock, id) == At(SyncAll(b, w).clock, id)
    ensures forall n :: Registered(SyncAll(a, w).records, n) == Registered(SyncAll(b, w).records, n)
  {
    forall id ensures At(SyncAll(a, w).clock, id) == At(SyncAll(b, w).clock, id) { SameClockAt(a, b, zone, w, id); }
    forall n ensures Registered(SyncAll(a, w).records, n) == Registered(SyncAll(b, w).records, n) { SameRecordOf(a, b, zone, w, n); }
  }
}
