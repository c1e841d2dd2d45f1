/** One synchronisation with no failed call, in closed form: what it converges to, exactly when that
    is what the module declares, and exactly when a second one has nothing to do. */
module SyncSettle {
  import opened ScheduleSync
  import opened SyncPasses
  import opened Wrappers

  /** Ids the orphan pass cancels: those of recorded files no longer declared, and those of files
      read off live ids of the namespace and not declared. */
  ghost predicate OrphanId(m: Module, clock: map<string, Job>, record: seq<string>, id: string) {
    || (exists f :: f in record && f !in Files(m.jobs) && JobId(m.name, f) == id)
    || (exists live ::
          && live in clock && InNamespace(m.name, live)
          && FileOfId(m.name, live) !in Files(m.jobs) && JobId(m.name, FileOfId(m.name, live)) == id)
  }

  /** The clock at one id after a synchronisation of an enabled module without failed calls. */
  ghost function SettledAt(m: Module, zone: string, clock: map<string, Job>, record: seq<string>, id: string): Option<Job> {
    if OrphanId(m, clock, record, id) then None
    else
      match Find(m.name, m.jobs, id)
      case None => At(clock, id)
      case Some(d) => if Skipped(m.name, clock, record, d) then At(clock, id) else Some(Fresh(m.name, zone, d))
  }

  function SettledRecord(m: Module, clock: map<string, Job>, record: seq<string>): seq<string> {
    Retain(record, Files(m.jobs)) + NewFiles(m.name, clock, record, m.jobs)
  }

  /** Something to reconcile: a declaration or a record. */
  predicate HasWork(m: Module, w: World) {
    m.jobs != [] || Registered(w.records, m.name) != []
  }

  function Orphans(e: Env, m: Module, w: World, already: seq<string>): seq<string> {
    AddLiveOrphans(m.name, Files(m.jobs), e.order(w.clock.Keys), Undeclared(already, Files(m.jobs)))
  }

  function Registration(e: Env, m: Module, w: World): Pass {
    RegisterAll(e, m.name, w.clock, m.jobs, Pass(w, Registered(w.records, m.name), []))
  }

  lemma OrphanNames(e: Env, m: Module, w: World, already: seq<string>, id: string)
    requires Enumerates(e)
    requires forall f :: f !in Files(m.jobs) ==> (f in already <==> f in Registered(w.records, m.name))
    ensures Names(m.name, Orphans(e, m, w, already), id)
       <==> OrphanId(m, w.clock, Registered(w.records, m.name), id)
    ensures forall f :: f in Orphans(e, m, w, already) ==> f !in Files(m.jobs)
  {
    var files := Files(m.jobs);
    forall f
      ensures f in Orphans(e, m, w, already) <==>
        f !in files && (f in Registered(w.records, m.name)
                        || exists live :: live in w.clock && InNamespace(m.name, live) && FileOfId(m.name, live) == f)
    {
      UndeclaredMembers(already, files, f);
      LiveOrphanMembers(m.name, files, e.order(w.clock.Keys), Undeclared(already, files), f);
    }
  }

  lemma NewFilesDeclared(m: Module, clock: map<string, Job>, record: seq<string>)
    ensures forall f :: f in NewFiles(m.name, clock, record, m.jobs) ==> f in Files(m.jobs)
  {
    forall f | f in NewFiles(m.name, clock, record, m.jobs) ensures f in Files(m.jobs) {
      NewFilesMembers(m.name, clock, record, m.jobs, f);
      FilesMembers(m.jobs, f);
    }
  }

  lemma {:induction false} RetainAll(record: seq<string>, files: seq<string>)
    requires forall f :: f in record ==> f in files
    ensures Retain(record, files) == record
    decreases |record|
  {
    if record != [] {
      RetainAll(record[1..], files);
      assert record == [record[0]] + record[1..];
    }
  }

  /** The state of an enabled synchronisation, seen through its two passes. */
  lemma EnabledPasses(e: Env, m: Module, w: World)
    requires m.enabled && HasWork(m, w) && DistinctIds(m.name, m.jobs)
    ensures var p := Registration(e, m, w);
            var q := CancelEach(e, m.name, false, Orphans(e, m, w, p.already), Withdrawal(p.w, []));
            var s := Sync(e, m, w);
            && w.log <= p.w.log <= q.w.log && s.w.log == q.w.log && s.w.clock == q.w.clock
            && q.w.records == w.records && s.added == p.added && s.removed == q.removed
            && (NoFailure(Calls(w, s.w)) <==> NoFailure(Calls(w, p.w)) && NoFailure(Calls(p.w, q.w)))
            && (forall f :: f !in Files(m.jobs) ==> (f in p.already <==> f in Registered(w.records, m.name)))
            && (forall n :: n != m.name ==> Registered(s.w.records, n) == Registered(w.records, n))
            && Registered(s.w.records, m.name) == if q.removed != [] then Retain(p.already, Files(m.jobs)) else p.already
  {
    var start := Pass(w, Registered(w.records, m.name), []);
    var p := Registration(e, m, w);
    RegisterAllFrame(e, m.name, w.clock, m.jobs, start);
    var q := CancelEach(e, m.name, false, Orphans(e, m, w, p.already), Withdrawal(p.w, []));
    CancelEachFrame(e, m.name, false, Orphans(e, m, w, p.already), Withdrawal(p.w, []));
    CallsSplit(w, p.w, q.w);
    RetainLength(p.already, Files(m.jobs));
    assert |q.w.log| == |Sync(e, m, w).w.log|;
  }

  lemma EnabledSettles(e: Env, m: Module, w: World)
    requires m.enabled && HasWork(m, w) && DistinctIds(m.name, m.jobs) && Enumerates(e)
    requires w.log <= Sync(e, m, w).w.log && NoFailure(Calls(w, Sync(e, m, w).w))
    ensures var s := Sync(e, m, w); var record := Registered(w.records, m.name);
            && (forall id :: At(s.w.clock, id) == SettledAt(m, e.zone, w.clock, record, id))
            && Registered(s.w.records, m.name) == SettledRecord(m, w.clock, record)
            && (forall n :: n != m.name ==> Registered(s.w.records, n) == Registered(w.records, n))
  {
    var record := Registered(w.records, m.name);
    var p := Registration(e, m, w);
    var orphans := Orphans(e, m, w, p.already);
    var q := CancelEach(e, m.name, false, orphans, Withdrawal(p.w, []));
    EnabledPasses(e, m, w);
    forall id ensures At(q.w.clock, id) == SettledAt(m, e.zone, w.clock, record, id) {
      EnabledClock(e, m, w, id);
    }
    RegisterAllRecord(e, m.name, w.clock, m.jobs, Pass(w, record, []));
    CancelEachClears(e, m.name, false, orphans, Withdrawal(p.w, []));
    var files := Files(m.jobs);
    var news := NewFiles(m.name, w.clock, record, m.jobs);
    NewFilesDeclared(m, w.clock, record);
    RetainAll(news, files);
    RetainAppend(record, news, files);
    if q.removed == [] {
      forall f | f in record ensures f in files {
        if f !in files {
          assert OrphanId(m, w.clock, record, JobId(m.name, f));
          OrphanNames(e, m, w, p.already, JobId(m.name, f));
        }
      }
      RetainAll(record, files);
    }
  }

  lemma EnabledClock(e: Env, m: Module, w: World, id: string)
    requires m.enabled && HasWork(m, w) && DistinctIds(m.name, m.jobs) && Enumerates(e)
    requires w.log <= Sync(e, m, w).w.log && NoFailure(Calls(w, Sync(e, m, w).w))
    ensures At(Sync(e, m, w).w.clock, id) == SettledAt(m, e.zone, w.clock, Registered(w.records, m.name), id)
  {
    var record := Registered(w.records, m.name);
    var start := Pass(w, record, []);
    var p := Registration(e, m, w);
    var orphans := Orphans(e, m, w, p.already);
    EnabledPasses(e, m, w);
    OrphanNames(e, m, w, p.already, id);
    CancelEachFrame(e, m.name, false, orphans, Withdrawal(p.w, []));
    CancelEachClears(e, m.name, false, orphans, Withdrawal(p.w, []));
    RegisterAllFrame(e, m.name, w.clock, m.jobs, start);
    FindNone(m.name, m.jobs, id);
    if Find(m.name, m.jobs, id).Some? {
      RegisterAllFate(e, m.name, w.clock, m.jobs, start, Find(m.name, m.jobs, id).value);
    }
  }

  // ---- convergence ----

  /** A declaration that belongs on the clock: its job was live, or it was never registered. */
  predicate Kept(m: Module, clock: map<string, Job>, record: seq<string>, d: Declared) {
    JobId(m.name, d.file) in clock || d.file !in record
  }

  predicate Canonical(file: string) { file == TrimJson(file) + SUFFIX }

  /** The job stands under the module's target, and every key the declaration sets has the declared value. */
  ghost predicate RunsAs(name: string, d: Declared, job: Job) {
    job.target == "module:" + name && forall k :: k in d.options ==> k in job.options && job.options[k] == d.options[k]
  }

  /** What the clock should show at one id of the namespace. */
  ghost predicate ShowsDeclaration(m: Module, clock: map<string, Job>, record: seq<string>, after: map<string, Job>, id: string) {
    match Find(m.name, m.jobs, id)
    case None => id !in after
    case Some(d) =>
      if Kept(m, clock, record, d)
      then id in after && RunsAs(m.name, d, after[id])
      else id !in after
  }

  ghost predicate Converged(m: Module, clock: map<string, Job>, record: seq<string>, after: map<string, Job>) {
    forall id :: InNamespace(m.name, id) ==> ShowsDeclaration(m, clock, record, after, id)
  }

  /** No live id of the namespace ends in the suffix that job ids are made without. */
  ghost predicate Unsuffixed(name: string, clock: map<string, Job>) {
    forall id :: id in clock && InNamespace(name, id) ==> !Suffixed(id[|Namespace(name)|..])
  }

  /** Checkable before the call: no live id of the namespace carries the suffix, and no file the
      orphan pass will visit shares its job id with a declaration that belongs on the clock. */
  ghost predicate Separable(m: Module, clock: map<string, Job>, record: seq<string>) {
    && Unsuffixed(m.name, clock)
    && (forall d :: d in m.jobs && Kept(m, clock, record, d) ==> !OrphanId(m, clock, record, JobId(m.name, d.file)))
  }

  lemma OrphanInNamespace(m: Module, clock: map<string, Job>, record: seq<string>, id: string)
    requires OrphanId(m, clock, record, id) || Find(m.name, m.jobs, id).Some?
    ensures InNamespace(m.name, id) && !Suffixed(id[|Namespace(m.name)|..])
  {
    FindNone(m.name, m.jobs, id);
    var file: string;
    if Find(m.name, m.jobs, id).Some? {
      file := Find(m.name, m.jobs, id).value.file;
    } else if f :| f in record && f !in Files(m.jobs) && JobId(m.name, f) == id {
      file := f;
    } else {
      var live :| live in clock && InNamespace(m.name, live)
        && FileOfId(m.name, live) !in Files(m.jobs) && JobId(m.name, FileOfId(m.name, live)) == id;
      file := FileOfId(m.name, live);
    }
    JobIdInNamespace(m.name, file);
    TrimLeavesNoSuffix(file);
  }

  /** A live, undeclared id without the suffix is always an orphan. */
  lemma UndeclaredIsOrphan(m: Module, clock: map<string, Job>, record: seq<string>, id: string)
    requires id in clock && InNamespace(m.name, id) && Find(m.name, m.jobs, id) == None
    requires !Suffixed(id[|Namespace(m.name)|..])
    ensures OrphanId(m, clock, record, id)
  {
    FileOfIdRoundTrip(m.name, id);
    FilesMembers(m.jobs, FileOfId(m.name, id));
    FindNone(m.name, m.jobs, id);
  }

  /** At one id, the settled clock shows the declaration unless the id is live with the suffix still
      on it, or an orphan's. */
  lemma SettledShows(m: Module, zone: string, clock: map<string, Job>, record: seq<string>, after: map<string, Job>, id: string)
    requires DistinctIds(m.name, m.jobs) && InNamespace(m.name, id)
    requires At(after, id) == SettledAt(m, zone, clock, record, id)
    ensures ShowsDeclaration(m, clock, record, after, id) <==>
              match Find(m.name, m.jobs, id)
              case None => !(id in clock && Suffixed(id[|Namespace(m.name)|..]))
              case Some(d) => !(Kept(m, clock, record, d) && OrphanId(m, clock, record, id))
  {
    FindNone(m.name, m.jobs, id);
    if OrphanId(m, clock, record, id) { OrphanInNamespace(m, clock, record, id); }
    match Find(m.name, m.jobs, id)
    case None =>
      if id in clock && !Suffixed(id[|Namespace(m.name)|..]) { UndeclaredIsOrphan(m, clock, record, id); }
    case Some(d) =>
      StampIsLive(d.options, zone);
  }

  /** With no failed call, one synchronisation leaves everything outside the namespace alone and the
      record within the declared files. If there is anything declared or recorded, the namespace shows
      exactly the declarations that belong there if and only if the state was separable; if there is
      nothing, the pass does nothing, and the namespace must have been empty. */
  lemma Convergence(e: Env, m: Module, w: World)
    requires m.enabled && DistinctIds(m.name, m.jobs) && Enumerates(e)
    requires w.log <= Sync(e, m, w).w.log && NoFailure(Calls(w, Sync(e, m, w).w))
    ensures var after := Sync(e, m, w).w; var record := Registered(w.records, m.name);
            && (forall id :: !InNamespace(m.name, id) ==> At(after.clock, id) == At(w.clock, id))
            && (forall f :: f in Registered(after.records, m.name) ==> f in Files(m.jobs))
            && (m.jobs != [] || record != [] ==>
                  (Converged(m, w.clock, record, after.clock) <==> Separable(m, w.clock, record)))
            && (m.jobs == [] && record == [] ==>
                  (Converged(m, w.clock, record, after.clock) <==> forall id :: id in w.clock ==> !InNamespace(m.name, id)))
  {
    if HasWork(m, w) {
      WorkConverges(e, m, w);
    } else {
      forall id ensures ShowsDeclaration(m, w.clock, [], w.clock, id) <==> id !in w.clock { FindNone(m.name, m.jobs, id); }
    }
  }

  lemma WorkConverges(e: Env, m: Module, w: World)
    requires m.enabled && HasWork(m, w) && DistinctIds(m.name, m.jobs) && Enumerates(e)
    requires w.log <= Sync(e, m, w).w.log && NoFailure(Calls(w, Sync(e, m, w).w))
    ensures var after := Sync(e, m, w).w; var record := Registered(w.records, m.name);
            && (forall id :: !InNamespace(m.name, id) ==> At(after.clock, id) == At(w.clock, id))
            && (forall f :: f in Registered(after.records, m.name) ==> f in Files(m.jobs))
            && (Converged(m, w.clock, record, after.clock) <==> Separable(m, w.clock, record))
  {
    var after := Sync(e, m, w).w;
    var record := Registered(w.records, m.name);
    EnabledSettles(e, m, w);
    forall id | !InNamespace(m.name, id) ensures At(after.clock, id) == At(w.clock, id) {
      if OrphanId(m, w.clock, record, id) || Find(m.name, m.jobs, id).Some? { OrphanInNamespace(m, w.clock, record, id); }
    }
    forall f | f in Registered(after.records, m.name) ensures f in Files(m.jobs) {
      NewFilesDeclared(m, w.clock, record);
      RetainMembers(record, Files(m.jobs), f);
    }
    if Separable(m, w.clock, record) {
      forall id | InNamespace(m.name, id) ensures ShowsDeclaration(m, w.clock, record, after.clock, id) {
        FindNone(m.name, m.jobs, id);
        SettledShows(m, e.zone, w.clock, record, after.clock, id);
      }
    }
    if Converged(m, w.clock, record, after.clock) {
      forall id | id in w.clock && InNamespace(m.name, id) ensures !Suffixed(id[|Namespace(m.name)|..]) {
        SettledShows(m, e.zone, w.clock, record, after.clock, id);
        if Find(m.name, m.jobs, id).Some? { OrphanInNamespace(m, w.clock, record, id); }
      }
      forall d | d in m.jobs && Kept(m, w.clock, record, d) ensures !OrphanId(m, w.clock, record, JobId(m.name, d.file)) {
        FindOwn(m.name, m.jobs, d);
        JobIdInNamespace(m.name, d.file);
        SettledShows(m, e.zone, w.clock, record, after.clock, JobId(m.name, d.file));
      }
    }
  }

  // ---- ordinary names ----

  /** Every file in sight ends in exactly one ".json", and no live id of the namespace in any. */
  ghost predicate Tidy(m: Module, clock: map<string, Job>, record: seq<string>) {
    && (forall d :: d in m.jobs ==> Canonical(d.file))
    && (forall f :: f in record ==> Canonical(f))
    && Unsuffixed(m.name, clock)
  }

  lemma SuffixDot(s: string)
    requires Suffixed(s)
    ensures s[|s| - |SUFFIX|] == '.'
  {
    assert s[|s| - |SUFFIX|..][0] == '.';
  }

  /** A second suffix is one too many. */
  lemma DoubledNotCanonical(stem: string)
    requires Suffixed(stem)
    ensures !Canonical(stem + SUFFIX)
  {
    TrimLeavesNoSuffix(stem + SUFFIX);
    assert (stem + SUFFIX)[..|stem|] == stem;
  }

  /** What can be read as a declaration: characters by their codes, at least one of them, and ".json". */
  lemma WhitelistMeans(stem: string)
    ensures Whitelisted(stem + ".json") <==>
              stem != "" && forall i :: 0 <= i < |stem| ==>
                var n := stem[i] as int; 97 <= n <= 122 || 65 <= n <= 90 || 48 <= n <= 57 || n == 45 || n == 95
    ensures forall file :: Whitelisted(file) ==> |file| > 5 && file == file[..|file| - 5] + ".json"
  {
    var file := stem + ".json";
    assert file[|stem|..] == ".json";
    assert forall i :: 0 <= i < |stem| ==> file[i] == stem[i];
  }

  /** What can be read as a declaration ends in exactly one ".json". */
  lemma WhitelistedIsCanonical(file: string)
    requires Whitelisted(file)
    ensures Canonical(file)
  {
    var stem := file[..|file| - |SUFFIX|];
    if Suffixed(stem) { SuffixDot(stem); }
    assert file == stem + SUFFIX;
    TrimDropsSuffix(stem);
  }

  lemma CanonicalId(name: string, f: string, g: string)
    requires Canonical(f) && Canonical(g)
    ensures JobId(name, f) == JobId(name, g) <==> f == g
  {
    assert JobId(name, f)[|Namespace(name)|..] == TrimJson(f);
    assert JobId(name, g)[|Namespace(name)|..] == TrimJson(g);
  }

  /** Under ordinary names the orphan ids are exactly the undeclared live ids and the ids of
      recorded, undeclared files. */
  lemma TidyOrphans(m: Module, clock: map<string, Job>, record: seq<string>, id: string)
    requires Tidy(m, clock, record)
    ensures OrphanId(m, clock, record, id) ==> Find(m.name, m.jobs, id) == None
    ensures id in clock && InNamespace(m.name, id) && Find(m.name, m.jobs, id) == None ==> OrphanId(m, clock, record, id)
  {
    FindNone(m.name, m.jobs, id);
    if OrphanId(m, clock, record, id) && Find(m.name, m.jobs, id).Some? {
      var d := Find(m.name, m.jobs, id).value;
      var g: string;
      if f :| f in record && f !in Files(m.jobs) && JobId(m.name, f) == id {
        g := f;
      } else {
        var live :| live in clock && InNamespace(m.name, live)
          && FileOfId(m.name, live) !in Files(m.jobs) && JobId(m.name, FileOfId(m.name, live)) == id;
        FileOfIdRoundTrip(m.name, live);
        TrimDropsSuffix(live[|Namespace(m.name)|..]);
        g := FileOfId(m.name, live);
      }
      CanonicalId(m.name, g, d.file);
      FilesMembers(m.jobs, d.file);
    }
    if id in clock && InNamespace(m.name, id) && Find(m.name, m.jobs, id) == None {
      UndeclaredIsOrphan(m, clock, record, id);
    }
  }

  lemma TidyIsSeparable(m: Module, clock: map<string, Job>, record: seq<string>)
    requires Tidy(m, clock, record)
    ensures Separable(m, clock, record)
  {
    forall d | d in m.jobs ensures !OrphanId(m, clock, record, JobId(m.name, d.file)) {
      TidyOrphans(m, clock, record, JobId(m.name, d.file));
      FindNone(m.name, m.jobs, JobId(m.name, d.file));
    }
  }

  /** Distinct ordinary file names give distinct job ids. */
  lemma TidyDistinctIds(m: Module)
    requires forall d :: d in m.jobs ==> Canonical(d.file)
    ensures DistinctIds(m.name, m.jobs) <==> forall i, j :: 0 <= i < j < |m.jobs| ==> m.jobs[i].file != m.jobs[j].file
  {
    forall i, j | 0 <= i < j < |m.jobs|
      ensures JobId(m.name, m.jobs[i].file) == JobId(m.name, m.jobs[j].file) <==> m.jobs[i].file == m.jobs[j].file
    {
      CanonicalId(m.name, m.jobs[i].file, m.jobs[j].file);
    }
  }

  // ---- idempotence ----

  lemma {:induction false} AllSkipped(e: Env, name: string, live: map<string, Job>, jobs: seq<Declared>, p: Pass)
    requires forall d :: d in jobs ==> Skipped(name, live, p.already, d)
    ensures RegisterAll(e, name, live, jobs, p) == p
    decreases |jobs|
  {
    if jobs != [] { AllSkipped(e, name, live, jobs[1..], p); }
  }

  /** A second pass leaves a declaration alone unless an orphan shares its id and its live job is in
      order and off the record: the first pass withdraws that job and the second brings it back. */
  ghost predicate SkipsAgain(m: Module, clock: map<string, Job>, record: seq<string>, d: Declared) {
    var id := JobId(m.name, d.file);
    OrphanId(m, clock, record, id) ==> d.file in record || id !in clock || Stale(m.name, clock, d)
  }

  /** Checkable before the call: what leaves a second synchronisation nothing to do. A live id with
      the suffix would be offered to the orphan pass again and again. */
  ghost predicate Repeatable(m: Module, clock: map<string, Job>, record: seq<string>) {
    m.jobs == [] || (Unsuffixed(m.name, clock) && forall d :: d in m.jobs ==> SkipsAgain(m, clock, record, d))
  }

  /** A live id with the suffix survives every pass, and the next pass looks for its file again. */
  lemma SuffixedSurvives(e: Env, m: Module, w: World, id: string)
    requires m.enabled && HasWork(m, w) && DistinctIds(m.name, m.jobs) && Enumerates(e) && Readable(m)
    requires w.log <= Sync(e, m, w).w.log && NoFailure(Calls(w, Sync(e, m, w).w))
    requires id in w.clock && InNamespace(m.name, id) && Suffixed(id[|Namespace(m.name)|..])
    ensures At(Sync(e, m, w).w.clock, id) == At(w.clock, id)
    ensures FileOfId(m.name, id) !in Files(m.jobs)
  {
    var record := Registered(w.records, m.name);
    EnabledSettles(e, m, w);
    if OrphanId(m, w.clock, record, id) || Find(m.name, m.jobs, id).Some? { OrphanInNamespace(m, w.clock, record, id); }
    SuffixedNotDeclared(m, id);
  }

  lemma SettledRecordHas(m: Module, clock: map<string, Job>, record: seq<string>, d: Declared)
    requires DistinctIds(m.name, m.jobs) && d in m.jobs
    ensures d.file in SettledRecord(m, clock, record) <==> d.file in record || !Skipped(m.name, clock, record, d)
  {
    FindOwn(m.name, m.jobs, d);
    FilesMembers(m.jobs, d.file);
    RetainMembers(record, Files(m.jobs), d.file);
    NewFilesMembers(m.name, clock, record, m.jobs, d.file);
    if f :| f in m.jobs && f.file == d.file && f != d { FindOwn(m.name, m.jobs, f); }
  }

  /** After a clean pass, exactly these declarations are skipped. */
  lemma SettledSkips(e: Env, m: Module, w: World, d: Declared)
    requires m.enabled && HasWork(m, w) && DistinctIds(m.name, m.jobs) && Enumerates(e) && d in m.jobs
    requires w.log <= Sync(e, m, w).w.log && NoFailure(Calls(w, Sync(e, m, w).w))
    ensures var after := Sync(e, m, w).w; var record := Registered(w.records, m.name);
            Skipped(m.name, after.clock, Registered(after.records, m.name), d) <==> SkipsAgain(m, w.clock, record, d)
  {
    var record := Registered(w.records, m.name);
    EnabledSettles(e, m, w);
    FindOwn(m.name, m.jobs, d);
    SettledRecordHas(m, w.clock, record, d);
    StampIsLive(d.options, e.zone);
    assert At(Sync(e, m, w).w.clock, JobId(m.name, d.file)) == SettledAt(m, e.zone, w.clock, record, JobId(m.name, d.file));
  }

  /** The second orphan pass finds nothing exactly when no live id carries the suffix. */
  lemma SecondOrphans(e: Env, m: Module, w: World, e2: Env)
    requires m.enabled && HasWork(m, w) && DistinctIds(m.name, m.jobs) && Enumerates(e) && Enumerates(e2) && Readable(m)
    requires w.log <= Sync(e, m, w).w.log && NoFailure(Calls(w, Sync(e, m, w).w))
    ensures var after := Sync(e, m, w).w;
            Orphans(e2, m, after, Registered(after.records, m.name)) == [] <==> Unsuffixed(m.name, w.clock)
  {
    var after := Sync(e, m, w).w;
    var record := Registered(w.records, m.name);
    var record2 := Registered(after.records, m.name);
    var files := Files(m.jobs);
    var orphans := Orphans(e2, m, after, record2);
    Convergence(e, m, w);
    EnabledSettles(e, m, w);
    if orphans != [] && Unsuffixed(m.name, w.clock) {
      var f := orphans[0];
      UndeclaredMembers(record2, files, f);
      LiveOrphanMembers(m.name, files, e2.order(after.clock.Keys), Undeclared(record2, files), f);
      var id :| id in after.clock && InNamespace(m.name, id) && FileOfId(m.name, id) == f;
      assert At(after.clock, id) == SettledAt(m, e.zone, w.clock, record, id);
      FindNone(m.name, m.jobs, id);
      if Find(m.name, m.jobs, id) == None {
        UndeclaredIsOrphan(m, w.clock, record, id);
      } else {
        var d := Find(m.name, m.jobs, id).value;
        WhitelistedIsCanonical(d.file);
        FilesMembers(m.jobs, d.file);
        JobIdInNamespace(m.name, d.file);
      }
    }
    forall id | id in w.clock && InNamespace(m.name, id) && Suffixed(id[|Namespace(m.name)|..]) ensures orphans != [] {
      SuffixedSurvives(e, m, w, id);
      LiveOrphanMembers(m.name, files, e2.order(after.clock.Keys), Undeclared(record2, files), FileOfId(m.name, id));
    }
  }

  lemma QuietMeansSkipped(e: Env, m: Module, w: World)
    requires m.enabled && m.jobs != [] && DistinctIds(m.name, m.jobs) && Enumerates(e)
    requires Sync(e, m, w) == Synced(w, [], [])
    ensures forall d :: d in m.jobs ==> Skipped(m.name, w.clock, Registered(w.records, m.name), d)
  {
    var record := Registered(w.records, m.name);
    assert Calls(w, w) == [];
    EnabledSettles(e, m, w);
    forall d | d in m.jobs ensures Skipped(m.name, w.clock, record, d) {
      FindOwn(m.name, m.jobs, d);
      SettledRecordHas(m, w.clock, record, d);
      StampIsLive(d.options, e.zone);
      assert At(w.clock, JobId(m.name, d.file)) == SettledAt(m, e.zone, w.clock, record, JobId(m.name, d.file));
    }
  }

  lemma QuietMeansNoOrphans(e: Env, m: Module, w: World)
    requires m.enabled && m.jobs != [] && DistinctIds(m.name, m.jobs) && Enumerates(e)
    requires Sync(e, m, w) == Synced(w, [], [])
    ensures Orphans(e, m, w, Registered(w.records, m.name)) == []
  {
    var record := Registered(w.records, m.name);
    var p := Registration(e, m, w);
    var orphans := Orphans(e, m, w, p.already);
    EnabledPasses(e, m, w);
    forall f | f in Orphans(e, m, w, record) ensures Names(m.name, orphans, JobId(m.name, f)) {
      OrphanNames(e, m, w, record, JobId(m.name, f));
      OrphanNames(e, m, w, p.already, JobId(m.name, f));
    }
    CancelEachLog(e, m.name, false, orphans, Withdrawal(p.w, []));
  }

  /** One call per file. */
  lemma {:induction false} CancelEachLog(e: Env, name: string, strict: bool, files: seq<string>, p: Withdrawal)
    ensures |CancelEach(e, name, strict, files, p).w.log| == |p.w.log| + |files|
    decreases |files|
  {
    if files != [] { CancelEachLog(e, name, strict, files[1..], CancelOne(e, name, strict, files[0], p)); }
  }

  /** A pass with nothing to register and no orphans does nothing. */
  lemma NothingToDo(e: Env, m: Module, w: World)
    requires m.enabled && m.jobs != []
    requires forall d :: d in m.jobs ==> Skipped(m.name, w.clock, Registered(w.records, m.name), d)
    requires Orphans(e, m, w, Registered(w.records, m.name)) == []
    ensures Sync(e, m, w) == Synced(w, [], [])
  {
    AllSkipped(e, m.name, w.clock, m.jobs, Pass(w, Registered(w.records, m.name), []));
  }

  /** After one clean synchronisation, a second one with the same declarations makes no call and
      changes nothing, if and only if the state before the first was repeatable. */
  lemma Idempotence(e: Env, e2: Env, m: Module, w: World)
    requires m.enabled && DistinctIds(m.name, m.jobs) && Enumerates(e) && Enumerates(e2) && Readable(m)
    requires w.log <= Sync(e, m, w).w.log && NoFailure(Calls(w, Sync(e, m, w).w))
    ensures var after := Sync(e, m, w).w;
            Sync(e2, m, after) == Synced(after, [], []) <==> Repeatable(m, w.clock, Registered(w.records, m.name))
  {
    var after := Sync(e, m, w).w;
    if m.jobs == [] {
      if HasWork(m, w) { NothingDeclared(e, m, w); }
    } else {
      SecondOrphans(e, m, w, e2);
      var record, record2 := Registered(w.records, m.name), Registered(after.records, m.name);
      forall d | d in m.jobs ensures SkipsAgain(m, w.clock, record, d) <==> Skipped(m.name, after.clock, record2, d) {
        SettledSkips(e, m, w, d);
      }
      if Repeatable(m, w.clock, record) { NothingToDo(e2, m, after); }
      if Sync(e2, m, after) == Synced(after, [], []) {
        QuietMeansSkipped(e2, m, after);
        QuietMeansNoOrphans(e2, m, after);
      }
    }
  }

  lemma {:induction false} RetainNone(record: seq<string>)
    ensures Retain(record, []) == []
    decreases |record|
  {
    if record != [] { RetainNone(record[1..]); }
  }

  /** Nothing declared: a clean pass empties the record, and the next has no work. */
  lemma NothingDeclared(e: Env, m: Module, w: World)
    requires m.enabled && HasWork(m, w) && m.jobs == [] && Enumerates(e)
    requires w.log <= Sync(e, m, w).w.log && NoFailure(Calls(w, Sync(e, m, w).w))
    ensures Registered(Sync(e, m, w).w.records, m.name) == []
  {
    EnabledSettles(e, m, w);
    RetainNone(Registered(w.records, m.name));
  }

  // ---- foreign ids ----

  ghost predicate ShadowedBy(name: string, file: string, clock: map<string, Job>, id: string) {
    && id in clock && InNamespace(name, id) && Suffixed(id[|Namespace(name)|..])
    && Namespace(name) + TrimJson(id[|Namespace(name)|..]) == JobId(name, file)
  }

  /** A live id of the namespace reads as this file's job id with the suffix left on. */
  ghost predicate Shadowed(name: string, file: string, clock: map<string, Job>) {
    exists id :: ShadowedBy(name, file, clock, id)
  }

  /** Both clocks show the same under the ids of the namespace with the suffix. */
  ghost predicate SameSuffixed(name: string, a: map<string, Job>, b: map<string, Job>) {
    forall id :: InNamespace(name, id) && Suffixed(id[|Namespace(name)|..]) ==> At(a, id) == At(b, id)
  }

  lemma SameShadows(name: string, file: string, a: map<string, Job>, b: map<string, Job>)
    requires SameSuffixed(name, a, b)
    ensures Shadowed(name, file, a) <==> Shadowed(name, file, b)
  {
    forall id | ShadowedBy(name, file, a, id) || ShadowedBy(name, file, b, id)
      ensures ShadowedBy(name, file, a, id) && ShadowedBy(name, file, b, id)
    {
      assert At(a, id) == At(b, id);
    }
  }

  /** The orphan pass cancels a declared id exactly when it is shadowed. */
  lemma DeclaredOrphan(m: Module, clock: map<string, Job>, record: seq<string>, d: Declared)
    requires Readable(m) && d in m.jobs && forall f :: f in record ==> Whitelisted(f)
    ensures OrphanId(m, clock, record, JobId(m.name, d.file)) <==> Shadowed(m.name, d.file, clock)
  {
    var id := JobId(m.name, d.file);
    WhitelistedIsCanonical(d.file);
    FilesMembers(m.jobs, d.file);
    forall f | f in record && JobId(m.name, f) == id ensures f in Files(m.jobs) {
      WhitelistedIsCanonical(f);
      CanonicalId(m.name, f, d.file);
    }
    forall live | live in clock && InNamespace(m.name, live)
      ensures FileOfId(m.name, live) !in Files(m.jobs) && JobId(m.name, FileOfId(m.name, live)) == id <==>
                ShadowedBy(m.name, d.file, clock, live)
    {
      FileOfIdRoundTrip(m.name, live);
      if Suffixed(live[|Namespace(m.name)|..]) {
        SuffixedNotDeclared(m, live);
      } else if JobId(m.name, FileOfId(m.name, live)) == id {
        JobIdInNamespace(m.name, d.file);
      }
    }
  }

  lemma SuffixedNotDeclared(m: Module, id: string)
    requires Readable(m) && InNamespace(m.name, id) && Suffixed(id[|Namespace(m.name)|..])
    ensures FileOfId(m.name, id) !in Files(m.jobs)
  {
    FilesMembers(m.jobs, FileOfId(m.name, id));
    if d :| d in m.jobs && d.file == FileOfId(m.name, id) {
      WhitelistedIsCanonical(d.file);
      DoubledNotCanonical(id[|Namespace(m.name)|..]);
    }
  }

  // ---- what the conditions come to ----

  /** With whitelisted files on record, both conditions say one thing: no live id of the namespace
      carries the suffix. */
  lemma ConditionsMeet(m: Module, clock: map<string, Job>, record: seq<string>)
    requires Readable(m) && m.jobs != [] && forall f :: f in record ==> Whitelisted(f)
    ensures Separable(m, clock, record) <==> Unsuffixed(m.name, clock)
    ensures Repeatable(m, clock, record) <==> Unsuffixed(m.name, clock)
  {
    forall f | f in record || f in Files(m.jobs) ensures Canonical(f) {
      FilesMembers(m.jobs, f);
      WhitelistedIsCanonical(f);
    }
    forall d | d in m.jobs ensures Canonical(d.file) { WhitelistedIsCanonical(d.file); }
    if Unsuffixed(m.name, clock) {
      TidyIsSeparable(m, clock, record);
      forall d | d in m.jobs ensures !OrphanId(m, clock, record, JobId(m.name, d.file)) {
        TidyOrphans(m, clock, record, JobId(m.name, d.file));
        FindNone(m.name, m.jobs, JobId(m.name, d.file));
      }
    }
  }

  /** The input that fails: a job under a declaration's own id with the suffix left on, as anyone may
      name one. The orphan pass strips the suffix and withdraws the declared job in its place. */
  lemma ForeignIdWithdrawsDeclared(e: Env, m: Module, w: World, d: Declared)
    requires m.enabled && DistinctIds(m.name, m.jobs) && Enumerates(e) && Readable(m) && d in m.jobs
    requires w.log <= Sync(e, m, w).w.log && NoFailure(Calls(w, Sync(e, m, w).w))
    requires Namespace(m.name) + d.file in w.clock
    ensures var after := Sync(e, m, w).w; var record := Registered(w.records, m.name);
            && !Separable(m, w.clock, record) && !Repeatable(m, w.clock, record)
            && JobId(m.name, d.file) !in after.clock
            && At(after.clock, Namespace(m.name) + d.file) == At(w.clock, Namespace(m.name) + d.file)
            && (d.file in Registered(after.records, m.name) <==> d.file in record || !Skipped(m.name, w.clock, record, d))
  {
    var record := Registered(w.records, m.name);
    var foreign := Namespace(m.name) + d.file;
    assert foreign[|Namespace(m.name)|..] == d.file;
    SuffixedSurvives(e, m, w, foreign);
    TrimDropsSuffix(d.file);
    assert FileOfId(m.name, foreign) == d.file + SUFFIX;
    assert OrphanId(m, w.clock, record, JobId(m.name, d.file));
    EnabledSettles(e, m, w);
    SettledRecordHas(m, w.clock, record, d);
    assert At(Sync(e, m, w).w.clock, JobId(m.name, d.file)) == None;
  }

  /** Where no call is refused from outside and no job is a system job, withdrawals do not fail. */
  lemma {:induction false} CancelEachClean(e: Env, name: string, strict: bool, files: seq<string>, p: Withdrawal)
    requires (forall n :: !e.fails(n)) && forall id :: id in p.w.clock ==> !IsSystem(p.w.clock[id])
    ensures var q := CancelEach(e, name, strict, files, p); p.w.log <= q.w.log && NoFailure(Calls(p.w, q.w))
    decreases |files|
  {
    if files == [] {
      assert Calls(p.w, p.w) == [];
    } else {
      var next := CancelOne(e, name, strict, files[0], p);
      CancelEachClean(e, name, strict, files[1..], next);
      assert Calls(p.w, next.w) == [CancelCall(JobId(name, files[0]), CancelAnswerOf(e, p.w, JobId(name, files[0])))];
      CallsSplit(p.w, next.w, CancelEach(e, name, strict, files, p).w);
    }
  }

  /** One such state: a module that declares `a.json`, never synchronised, beside somebody's job named
      `module:x:a.json`. Its own job does not outlive the pass that registers it, and it is on record. */
  lemma ForeignIdExample(e: Env, o: Options, foreign: Job)
    requires Enumerates(e) && (forall n :: !e.fails(n)) && HasTrigger(o) && "system" !in o && !IsSystem(foreign)
    ensures var m := Module("x", true, [Declared("a.json", o)]); var w := World(map["module:x:a.json" := foreign], map[], []);
            var after := Sync(e, m, w).w;
            "module:x:a" !in after.clock && "a.json" in Registered(after.records, "x")
  {
    var d := Declared("a.json", o);
    var m := Module("x", true, [d]);
    var w := World(map["module:x:a.json" := foreign], map[], []);
    ExampleIds();
    ExampleRegisters(e, d, w);
    var p := Registration(e, m, w);
    CancelEachClean(e, "x", false, Orphans(e, m, w, p.already), Withdrawal(p.w, []));
    EnabledPasses(e, m, w);
    ForeignIdWithdrawsDeclared(e, m, w, d);
  }

  /** A first registration with nothing in its way is one accepted call. */
  lemma ExampleRegisters(e: Env, d: Declared, w: World)
    requires (forall n :: !e.fails(n)) && HasTrigger(d.options) && JobId("x", d.file) !in w.clock && Registered(w.records, "x") == []
    ensures var p := Registration(e, Module("x", true, [d]), w);
            && w.log <= p.w.log && NoFailure(Calls(w, p.w))
            && p.w.clock == w.clock[JobId("x", d.file) := Fresh("x", e.zone, d)]
  {
    var p := RegisterOne(e, "x", w.clock, d, Pass(w, [], []));
    assert [d][1..] == [] && RegisterAll(e, "x", w.clock, [], p) == p;
    assert Calls(w, p.w) == [ScheduleCall(JobId("x", d.file), Fresh("x", e.zone, d), true)];
  }

  lemma ExampleIds()
    ensures Whitelisted("a.json") && Namespace("x") + "a.json" == "module:x:a.json" && JobId("x", "a.json") == "module:x:a"
  {
    assert "a" + SUFFIX == "a.json" && Namespace("x") == "module:x:";
    TrimDropsSuffix("a");
  }
}
