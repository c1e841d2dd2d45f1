/** The calls a synchronisation makes, whatever fails: for which ids, with which jobs, and what of
    them it reports. Everything is said of the log and of the declarations as they stand. */
module SyncCalls {
  import opened ScheduleSync
  import opened SyncPasses
  import opened SyncSettle
  import opened SyncRuns
  import opened Wrappers

  // ---- what is scheduled ----

  /** The id of a declared file: the module's name and the file without its ".json". */
  lemma JobIdOf(name: string, stem: string)
    requires Whitelisted(stem + ".json")
    ensures JobId(name, stem + ".json") == "module:" + name + ":" + stem
  {
    WhitelistedIsCanonical(stem + SUFFIX);
  }

  /** The call carries the declaration: under the module's target, every key as declared, and one more
      at most, the zone, when the declaration sets none. */
  ghost predicate Carries(name: string, zone: string, d: Declared, c: Call) {
    && c.ScheduleCall? && c.id == JobId(name, d.file) && c.job.target == "module:" + name
    && (forall k :: k in d.options ==> k in c.job.options && c.job.options[k] == d.options[k])
    && (forall k :: k in c.job.options ==> k in d.options || (k == "zone" && c.job.options[k] == zone))
    && "zone" in c.job.options
  }

  ghost predicate Declares(m: Module, zone: string, c: Call) {
    exists d :: d in m.jobs && Carries(m.name, zone, d, c)
  }

  ghost predicate OnlyDeclared(m: Module, zone: string, calls: seq<Call>) {
    forall c :: c in calls && c.ScheduleCall? ==> Declares(m, zone, c)
  }

  /** The calls of one declaration's step: none when it is skipped, else the withdrawal of a stale job and,
      unless that was refused, the registration. */
  function StepCalls(e: Env, name: string, live: map<string, Job>, d: Declared, p: Pass): seq<Call> {
    var id := JobId(name, d.file);
    var stale := Stale(name, live, d);
    var answer := CancelAnswerOf(e, p.w, id);
    var w := if stale then Cancel(e, p.w, id) else p.w;
    if Skipped(name, live, p.already, d) then []
    else
      (if stale then [CancelCall(id, answer)] else [])
      + if stale && answer == CancelRefused then []
        else [ScheduleCall(id, Job(Target(name), Stamp(d.options, e.zone)), ScheduleAccepts(e, w, id, d.options))]
  }

  lemma StepMakesCalls(e: Env, name: string, live: map<string, Job>, d: Declared, p: Pass)
    ensures var q := RegisterOne(e, name, live, d, p); p.w.log <= q.w.log && Calls(p.w, q.w) == StepCalls(e, name, live, d, p)
  {
  }

  lemma FreshCarries(name: string, zone: string, d: Declared, accepted: bool)
    ensures Carries(name, zone, d, ScheduleCall(JobId(name, d.file), Job(Target(name), Stamp(d.options, zone)), accepted))
  {
  }

  lemma StepCallsMean(e: Env, name: string, live: map<string, Job>, d: Declared, p: Pass)
    ensures var calls := StepCalls(e, name, live, d, p);
            && (forall k :: 0 <= k < |calls| ==> calls[k].id == JobId(name, d.file) && (calls[k].ScheduleCall? ==> Carries(name, e.zone, d, calls[k])))
            && (calls == [] <==> Skipped(name, live, p.already, d))
  {
    FreshCarries(name, e.zone, d, true);
    FreshCarries(name, e.zone, d, false);
  }

  lemma RegisterOneCalls(e: Env, name: string, live: map<string, Job>, d: Declared, p: Pass)
    ensures var q := RegisterOne(e, name, live, d, p);
            && p.w.log <= q.w.log
            && (forall c :: c in Calls(p.w, q.w) ==> c.id == JobId(name, d.file) && (c.ScheduleCall? ==> Carries(name, e.zone, d, c)))
            && (Calls(p.w, q.w) == [] <==> Skipped(name, live, p.already, d))
  {
    StepMakesCalls(e, name, live, d, p);
    StepCallsMean(e, name, live, d, p);
    var calls := StepCalls(e, name, live, d, p);
    assert forall c :: c in calls ==> exists k :: 0 <= k < |calls| && calls[k] == c;
  }

  lemma {:induction false} RegisterAllDeclared(e: Env, m: Module, live: map<string, Job>, jobs: seq<Declared>, p: Pass)
    requires forall d :: d in jobs ==> d in m.jobs
    ensures var q := RegisterAll(e, m.name, live, jobs, p); p.w.log <= q.w.log && OnlyDeclared(m, e.zone, Calls(p.w, q.w))
    decreases |jobs|
  {
    if jobs == [] {
      assert Calls(p.w, p.w) == [];
    } else {
      var next := RegisterOne(e, m.name, live, jobs[0], p);
      RegisterOneCalls(e, m.name, live, jobs[0], p);
      assert jobs[0] in m.jobs;
      RegisterAllDeclared(e, m, live, jobs[1..], next);
      CallsSplit(p.w, next.w, RegisterAll(e, m.name, live, jobs, p).w);
    }
  }

  /** Whatever fails: a synchronisation schedules nothing but declarations of its module, as they are. */
  lemma SchedulesDeclarations(e: Env, m: Module, w: World)
    ensures w.log <= Sync(e, m, w).w.log && OnlyDeclared(m, e.zone, Calls(w, Sync(e, m, w).w))
  {
    SyncConfined(e, m, w);
    if !HasWork(m, w) {
      assert Calls(w, w) == [];
    } else if m.enabled {
      var p := Registration(e, m, w);
      RegisterAllDeclared(e, m, w.clock, m.jobs, Pass(w, Registered(w.records, m.name), []));
      CancelEachConfined(e, m.name, false, Orphans(e, m, w, p.already), Withdrawal(p.w, []));
      CallsSplit(w, p.w, Sync(e, m, w).w);
    } else {
      CancelEachConfined(e, m.name, true, Append(Files(m.jobs), Registered(w.records, m.name)), Withdrawal(w, []));
    }
  }

  // ---- when a declaration is called for ----

  ghost predicate CalledFor(id: string, calls: seq<Call>) {
    exists c :: c in calls && c.id == id
  }

  lemma CalledForSplit(id: string, a: World, b: World, c: World)
    requires a.log <= b.log <= c.log
    ensures CalledFor(id, Calls(a, c)) <==> CalledFor(id, Calls(a, b)) || CalledFor(id, Calls(b, c))
  {
    CallsSplit(a, b, c);
  }

  lemma {:induction false} RegisterAllOthers(e: Env, name: string, live: map<string, Job>, jobs: seq<Declared>, p: Pass, id: string)
    requires forall d :: d in jobs ==> JobId(name, d.file) != id
    ensures var q := RegisterAll(e, name, live, jobs, p); p.w.log <= q.w.log && !CalledFor(id, Calls(p.w, q.w))
    decreases |jobs|
  {
    if jobs == [] {
      assert Calls(p.w, p.w) == [];
    } else {
      var next := RegisterOne(e, name, live, jobs[0], p);
      RegisterOneCalls(e, name, live, jobs[0], p);
      RegisterAllOthers(e, name, live, jobs[1..], next, id);
      CalledForSplit(id, p.w, next.w, RegisterAll(e, name, live, jobs, p).w);
    }
  }

  lemma {:induction false} RegisterAllCallsFor(e: Env, name: string, live: map<string, Job>, jobs: seq<Declared>, p: Pass, d: Declared)
    requires DistinctIds(name, jobs) && d in jobs
    ensures var q := RegisterAll(e, name, live, jobs, p);
            p.w.log <= q.w.log && (CalledFor(JobId(name, d.file), Calls(p.w, q.w)) <==> !Skipped(name, live, p.already, d))
    decreases |jobs|
  {
    var id := JobId(name, d.file);
    var next := RegisterOne(e, name, live, jobs[0], p);
    RegisterOneCalls(e, name, live, jobs[0], p);
    assert forall x :: x in jobs[1..] ==> x in jobs;
    if d == jobs[0] {
      RegisterAllOthers(e, name, live, jobs[1..], next, id);
      if Calls(p.w, next.w) != [] { assert Calls(p.w, next.w)[0] in Calls(p.w, next.w); }
    } else {
      assert JobId(name, jobs[0].file) != id;
      RegisterAllCallsFor(e, name, live, jobs[1..], next, d);
    }
    CalledForSplit(id, p.w, next.w, RegisterAll(e, name, live, jobs, p).w);
  }

  lemma {:induction false} CancelEachCallsFor(e: Env, name: string, strict: bool, files: seq<string>, p: Withdrawal, id: string)
    ensures var q := CancelEach(e, name, strict, files, p);
            p.w.log <= q.w.log && (CalledFor(id, Calls(p.w, q.w)) <==> Names(name, files, id))
    decreases |files|
  {
    if files == [] {
      assert Calls(p.w, p.w) == [];
    } else {
      var next := CancelOne(e, name, strict, files[0], p);
      assert Calls(p.w, next.w) == [CancelCall(JobId(name, files[0]), CancelAnswerOf(e, p.w, JobId(name, files[0])))];
      CancelEachCallsFor(e, name, strict, files[1..], next, id);
      CalledForSplit(id, p.w, next.w, CancelEach(e, name, strict, files, p).w);
      assert forall f :: f in files <==> f == files[0] || f in files[1..];
      assert CalledFor(id, Calls(p.w, next.w)) <==> Calls(p.w, next.w)[0].id == id;
    }
  }

  /** Whatever fails: a synchronisation of an enabled module calls the scheduler for a declaration that
      no foreign id shadows exactly when its job is live with another target, or without a key the
      declaration sets, or with another value there; or when it is not live and not on record. */
  lemma CallsForDeclaration(e: Env, m: Module, w: World, d: Declared)
    requires m.enabled && DistinctIds(m.name, m.jobs) && Enumerates(e) && d in m.jobs
    requires Readable(m) && WhitelistedRecord(m.name, w) && !Shadowed(m.name, d.file, w.clock)
    ensures var id := JobId(m.name, d.file);
            w.log <= Sync(e, m, w).w.log &&
            (CalledFor(id, Calls(w, Sync(e, m, w).w)) <==>
              if id in w.clock
              then w.clock[id].target != "module:" + m.name
                   || exists k :: k in d.options && (k !in w.clock[id].options || w.clock[id].options[k] != d.options[k])
              else d.file !in Registered(w.records, m.name))
  {
    var id := JobId(m.name, d.file);
    var p := Registration(e, m, w);
    EnabledPasses(e, m, w);
    RegisterAllCallsFor(e, m.name, w.clock, m.jobs, Pass(w, Registered(w.records, m.name), []), d);
    CancelEachCallsFor(e, m.name, false, Orphans(e, m, w, p.already), Withdrawal(p.w, []), id);
    OrphanNames(e, m, w, p.already, id);
    DeclaredOrphan(m, w.clock, Registered(w.records, m.name), d);
    CalledForSplit(id, w, p.w, Sync(e, m, w).w);
  }

  // ---- what is reported ----

  function Ids(name: string, files: seq<string>): seq<string> {
    if files == [] then [] else Ids(name, files[..|files| - 1]) + [JobId(name, files[|files| - 1])]
  }

  lemma IdsMore(name: string, files: seq<string>, f: string)
    ensures Ids(name, files + [f]) == Ids(name, files) + [JobId(name, f)]
  {
    assert (files + [f])[..|files|] == files;
  }

  /** The ids of the calls that took a job on, in order. */
  function TakenOn(calls: seq<Call>): seq<string> {
    if calls == [] then []
    else
      var c := calls[|calls| - 1];
      TakenOn(calls[..|calls| - 1]) + if c.ScheduleCall? && c.accepted then [c.id] else []
  }

  /** The ids of the calls that withdrew a job, in order; with `absent` also of those that found none. */
  function CalledOff(absent: bool, calls: seq<Call>): seq<string> {
    if calls == [] then []
    else
      var c := calls[|calls| - 1];
      CalledOff(absent, calls[..|calls| - 1])
      + if c.CancelCall? && (c.answer == Withdrawn || (absent && c.answer == NotThere)) then [c.id] else []
  }

  lemma {:induction false} TakenOnAppend(a: seq<Call>, b: seq<Call>)
    ensures TakenOn(a + b) == TakenOn(a) + TakenOn(b)
    decreases |b|
  {
    if b == [] {
      assert a + b == a;
    } else {
      assert (a + b)[..|a + b| - 1] == a + b[..|b| - 1];
      TakenOnAppend(a, b[..|b| - 1]);
    }
  }

  lemma {:induction false} CalledOffAppend(absent: bool, a: seq<Call>, b: seq<Call>)
    ensures CalledOff(absent, a + b) == CalledOff(absent, a) + CalledOff(absent, b)
    decreases |b|
  {
    if b == [] {
      assert a + b == a;
    } else {
      assert (a + b)[..|a + b| - 1] == a + b[..|b| - 1];
      CalledOffAppend(absent, a, b[..|b| - 1]);
    }
  }

  lemma RegisterOneReports(e: Env, name: string, live: map<string, Job>, d: Declared, p: Pass)
    ensures var q := RegisterOne(e, name, live, d, p);
            p.w.log <= q.w.log && Ids(name, q.added) == Ids(name, p.added) + TakenOn(Calls(p.w, q.w))
  {
    var calls := StepCalls(e, name, live, d, p);
    StepMakesCalls(e, name, live, d, p);
    IdsMore(name, p.added, d.file);
    if calls != [] {
      TakenOnLast(calls);
    }
  }

  /** Of at most two calls, the first not a registration, the last decides. */
  lemma TakenOnLast(calls: seq<Call>)
    requires |calls| == 1 || (|calls| == 2 && calls[0].CancelCall?)
    ensures var c := calls[|calls| - 1]; TakenOn(calls) == if c.ScheduleCall? && c.accepted then [c.id] else []
  {
    OneTaken(calls[0]);
    if |calls| == 2 { assert calls[..1] == [calls[0]]; }
  }

  lemma OneTaken(c: Call)
    ensures TakenOn([c]) == if c.ScheduleCall? && c.accepted then [c.id] else []
  {
    assert [c][..0] == [];
  }

  lemma {:induction false} RegisterAllReports(e: Env, name: string, live: map<string, Job>, jobs: seq<Declared>, p: Pass)
    ensures var q := RegisterAll(e, name, live, jobs, p);
            p.w.log <= q.w.log && Ids(name, q.added) == Ids(name, p.added) + TakenOn(Calls(p.w, q.w))
    decreases |jobs|
  {
    if jobs == [] {
      assert Calls(p.w, p.w) == [];
    } else {
      var next := RegisterOne(e, name, live, jobs[0], p);
      var q := RegisterAll(e, name, live, jobs, p);
      RegisterOneReports(e, name, live, jobs[0], p);
      RegisterAllReports(e, name, live, jobs[1..], next);
      TakenOnTrans(Ids(name, p.added), p.w, next.w, q.w);
    }
  }

  lemma TakenOnTrans(ids: seq<string>, a: World, b: World, c: World)
    requires a.log <= b.log <= c.log
    ensures (ids + TakenOn(Calls(a, b))) + TakenOn(Calls(b, c)) == ids + TakenOn(Calls(a, c))
  {
    CallsSplit(a, b, c);
    TakenOnAppend(Calls(a, b), Calls(b, c));
    Assoc(ids, TakenOn(Calls(a, b)), TakenOn(Calls(b, c)));
  }

  lemma CalledOffTrans(absent: bool, ids: seq<string>, a: World, b: World, c: World)
    requires a.log <= b.log <= c.log
    ensures (ids + CalledOff(absent, Calls(a, b))) + CalledOff(absent, Calls(b, c)) == ids + CalledOff(absent, Calls(a, c))
  {
    CallsSplit(a, b, c);
    CalledOffAppend(absent, Calls(a, b), Calls(b, c));
    Assoc(ids, CalledOff(absent, Calls(a, b)), CalledOff(absent, Calls(b, c)));
  }

  lemma CancelOneReports(e: Env, name: string, strict: bool, file: string, p: Withdrawal)
    ensures var q := CancelOne(e, name, strict, file, p);
            && p.w.log <= q.w.log && Calls(p.w, q.w) == [CancelCall(JobId(name, file), CancelAnswerOf(e, p.w, JobId(name, file)))]
            && Ids(name, q.removed) == Ids(name, p.removed) + CalledOff(!strict, Calls(p.w, q.w))
  {
    var c := CancelCall(JobId(name, file), CancelAnswerOf(e, p.w, JobId(name, file)));
    IdsMore(name, p.removed, file);
    assert Calls(p.w, CancelOne(e, name, strict, file, p).w) == [c] && [c][..0] == [];
  }

  /** The calls that cancel a list of files: one for each, in order. */
  lemma {:induction false} CancelEachCalls(e: Env, name: string, strict: bool, files: seq<string>, p: Withdrawal)
    ensures var q := CancelEach(e, name, strict, files, p);
            && p.w.log <= q.w.log && |Calls(p.w, q.w)| == |files|
            && forall k :: 0 <= k < |files| ==> Calls(p.w, q.w)[k].CancelCall? && Calls(p.w, q.w)[k].id == JobId(name, files[k])
    decreases |files|
  {
    if files == [] {
      assert Calls(p.w, p.w) == [];
    } else {
      var next := CancelOne(e, name, strict, files[0], p);
      CancelOneReports(e, name, strict, files[0], p);
      CancelEachCalls(e, name, strict, files[1..], next);
      CallsSplit(p.w, next.w, CancelEach(e, name, strict, files, p).w);
    }
  }

  lemma {:induction false} NoneTaken(calls: seq<Call>)
    requires forall k :: 0 <= k < |calls| ==> calls[k].CancelCall?
    ensures TakenOn(calls) == []
    decreases |calls|
  {
    if calls != [] { NoneTaken(calls[..|calls| - 1]); }
  }

  /** Those answered without an error are reported; strictly, only those whose job was there. */
  lemma {:induction false} CancelEachReports(e: Env, name: string, strict: bool, files: seq<string>, p: Withdrawal)
    ensures var q := CancelEach(e, name, strict, files, p);
            p.w.log <= q.w.log && Ids(name, q.removed) == Ids(name, p.removed) + CalledOff(!strict, Calls(p.w, q.w))
    decreases |files|
  {
    if files == [] {
      assert Calls(p.w, p.w) == [];
    } else {
      var next := CancelOne(e, name, strict, files[0], p);
      CancelOneReports(e, name, strict, files[0], p);
      CancelEachReports(e, name, strict, files[1..], next);
      CalledOffTrans(!strict, Ids(name, p.removed), p.w, next.w, CancelEach(e, name, strict, files, p).w);
    }
  }

  /** An enabled pass reports what its two loops reported. */
  lemma EnabledParts(e: Env, m: Module, w: World)
    requires m.enabled && HasWork(m, w)
    ensures var p := Registration(e, m, w); var s := Sync(e, m, w);
            var q := CancelEach(e, m.name, false, Orphans(e, m, w, p.already), Withdrawal(p.w, []));
            s.w.log == q.w.log && s.added == p.added && s.removed == q.removed
  {
  }

  lemma RegistrationReports(e: Env, m: Module, w: World)
    ensures var p := Registration(e, m, w); w.log <= p.w.log && Ids(m.name, p.added) == TakenOn(Calls(w, p.w))
  {
    RegisterAllReports(e, m.name, w.clock, m.jobs, Pass(w, Registered(w.records, m.name), []));
    assert [] + TakenOn(Calls(w, Registration(e, m, w).w)) == TakenOn(Calls(w, Registration(e, m, w).w));
  }

  lemma WithdrawalReports(e: Env, name: string, strict: bool, files: seq<string>, w: World)
    ensures var q := CancelEach(e, name, strict, files, Withdrawal(w, []));
            && w.log <= q.w.log && |Calls(w, q.w)| == |files| && TakenOn(Calls(w, q.w)) == []
            && Ids(name, q.removed) == CalledOff(!strict, Calls(w, q.w))
  {
    var q := CancelEach(e, name, strict, files, Withdrawal(w, []));
    CancelEachReports(e, name, strict, files, Withdrawal(w, []));
    CancelEachCalls(e, name, strict, files, Withdrawal(w, []));
    NoneTaken(Calls(w, q.w));
    assert [] + CalledOff(!strict, Calls(w, q.w)) == CalledOff(!strict, Calls(w, q.w));
  }

  lemma NoneTakenLater(a: World, b: World, c: World)
    requires a.log <= b.log <= c.log && TakenOn(Calls(b, c)) == []
    ensures TakenOn(Calls(a, c)) == TakenOn(Calls(a, b))
  {
    CallsSplit(a, b, c);
    TakenOnAppend(Calls(a, b), Calls(b, c));
    assert TakenOn(Calls(a, b)) + [] == TakenOn(Calls(a, b));
  }

  /** Whatever fails: the files reported as added are those whose schedule call was accepted, in order.
      A disabled pass reports as removed those whose job was withdrawn; an enabled one, of the calls
      behind the registration, one for each orphan, all that were answered without an error. */
  lemma SyncReports(e: Env, m: Module, w: World)
    ensures var s := Sync(e, m, w);
            && w.log <= s.w.log && Ids(m.name, s.added) == TakenOn(Calls(w, s.w))
            && (!m.enabled ==> Ids(m.name, s.removed) == CalledOff(false, Calls(w, s.w)))
            && (m.enabled && HasWork(m, w) ==>
                  var p := Registration(e, m, w);
                  && p.w.log <= s.w.log && |Calls(p.w, s.w)| == |Orphans(e, m, w, p.already)|
                  && Ids(m.name, s.removed) == CalledOff(true, Calls(p.w, s.w)))
  {
    if !HasWork(m, w) {
      assert Calls(w, w) == [];
    } else if m.enabled {
      var p := Registration(e, m, w);
      EnabledParts(e, m, w);
      RegistrationReports(e, m, w);
      WithdrawalReports(e, m.name, false, Orphans(e, m, w, p.already), p.w);
      var q := CancelEach(e, m.name, false, Orphans(e, m, w, p.already), Withdrawal(p.w, []));
      assert Calls(p.w, q.w) == Calls(p.w, Sync(e, m, w).w);
      NoneTakenLater(w, p.w, Sync(e, m, w).w);
    } else {
      WithdrawalReports(e, m.name, true, Append(Files(m.jobs), Registered(w.records, m.name)), w);
    }
  }

  // ---- each file once ----

  lemma {:induction false} AppendDistinct(names: seq<string>, more: seq<string>)
    requires NoDuplicates(names)
    ensures names <= Append(names, more) && NoDuplicates(Append(names, more))
    decreases |more|
  {
    if more != [] {
      var next := if more[0] in names then names else names + [more[0]];
      AppendDistinct(next, more[1..]);
      assert names <= next;
    }
  }

  /** Switching off cancels the declared files first, then the others on record, none twice. */
  lemma EachNameOnce(m: Module, record: seq<string>)
    requires NoDuplicates(Files(m.jobs))
    ensures var names := Append(Files(m.jobs), record);
            && Files(m.jobs) <= names && NoDuplicates(names)
            && forall f :: f in names <==> f in record || exists d :: d in m.jobs && d.file == f
  {
    AppendDistinct(Files(m.jobs), record);
    forall f ensures f in Append(Files(m.jobs), record) <==> f in record || exists d :: d in m.jobs && d.file == f {
      AppendMembers(Files(m.jobs), record, f);
      FilesMembers(m.jobs, f);
    }
  }

  lemma {:induction false} LiveOrphansDistinct(name: string, files: seq<string>, ids: seq<string>, orphans: seq<string>)
    requires NoDuplicates(orphans)
    ensures var all := AddLiveOrphans(name, files, ids, orphans); orphans <= all && NoDuplicates(all)
    decreases |ids|
  {
    if ids != [] {
      var next :=
        if InNamespace(name, ids[0]) && FileOfId(name, ids[0]) !in files && FileOfId(name, ids[0]) !in orphans
        then orphans + [FileOfId(name, ids[0])] else orphans;
      LiveOrphansDistinct(name, files, ids[1..], next);
      assert orphans <= next;
    }
  }

  lemma {:induction false} UndeclaredDistinct(record: seq<string>, files: seq<string>)
    requires NoDuplicates(record)
    ensures NoDuplicates(Undeclared(record, files))
    decreases |record|
  {
    if record != [] {
      UndeclaredDistinct(record[1..], files);
      UndeclaredMembers(record[1..], files, record[0]);
    }
  }

  /** The orphan pass cancels the undeclared files on record first, then those read off live ids, none
      twice. */
  lemma EachOrphanOnce(e: Env, m: Module, w: World, already: seq<string>)
    requires NoDuplicates(already)
    ensures Undeclared(already, Files(m.jobs)) <= Orphans(e, m, w, already) && NoDuplicates(Orphans(e, m, w, already))
  {
    UndeclaredDistinct(already, Files(m.jobs));
    LiveOrphansDistinct(m.name, Files(m.jobs), e.order(w.clock.Keys), Undeclared(already, Files(m.jobs)));
  }

  // ---- system jobs ----

  ghost predicate SystemJob(clock: map<string, Job>, id: string) {
    id in clock && "system" in clock[id].options && clock[id].options["system"] == "true"
  }

  lemma {:induction false} RegisterAllSystem(e: Env, name: string, live: map<string, Job>, jobs: seq<Declared>, p: Pass, id: string)
    requires SystemJob(p.w.clock, id)
    ensures At(RegisterAll(e, name, live, jobs, p).w.clock, id) == At(p.w.clock, id)
    decreases |jobs|
  {
    if jobs != [] {
      var next := RegisterOne(e, name, live, jobs[0], p);
      assert At(next.w.clock, id) == At(p.w.clock, id);
      RegisterAllSystem(e, name, live, jobs[1..], next, id);
    }
  }

  lemma {:induction false} CancelEachSystem(e: Env, name: string, strict: bool, files: seq<string>, p: Withdrawal, id: string)
    requires SystemJob(p.w.clock, id)
    ensures At(CancelEach(e, name, strict, files, p).w.clock, id) == At(p.w.clock, id)
    decreases |files|
  {
    if files != [] { CancelEachSystem(e, name, strict, files[1..], CancelOne(e, name, strict, files[0], p), id); }
  }

  /** No synchronisation touches a system job, under whatever id it runs. */
  lemma SystemJobsStay(e: Env, m: Module, w: World, id: string)
    requires SystemJob(w.clock, id)
    ensures At(Sync(e, m, w).w.clock, id) == At(w.clock, id)
  {
    if HasWork(m, w) {
      if m.enabled {
        var p := Registration(e, m, w);
        RegisterAllSystem(e, m.name, w.clock, m.jobs, Pass(w, Registered(w.records, m.name), []), id);
        CancelEachSystem(e, m.name, false, Orphans(e, m, w, p.already), Withdrawal(p.w, []), id);
      } else {
        CancelEachSystem(e, m.name, true, Append(Files(m.jobs), Registered(w.records, m.name)), Withdrawal(w, []), id);
      }
    }
  }
}
