/** What each loop of the reconciler does, whatever calls fail. */
module SyncPasses {
  import opened ScheduleSync
  import opened Wrappers

  // ---- names ----

  lemma {:induction false} TrimLeavesNoSuffix(f: string)
    ensures !Suffixed(TrimJson(f))
    decreases |f|
  {
    if Suffixed(f) { TrimLeavesNoSuffix(f[..|f| - |SUFFIX|]); }
  }

  lemma TrimDropsSuffix(stem: string)
    ensures TrimJson(stem + SUFFIX) == TrimJson(stem)
  {
    assert (stem + SUFFIX)[|stem|..] == SUFFIX;
    assert (stem + SUFFIX)[..|stem|] == stem;
  }

  lemma JobIdInNamespace(name: string, file: string)
    ensures InNamespace(name, JobId(name, file))
    ensures JobId(name, file)[|Namespace(name)|..] == TrimJson(file)
  {
  }

  /** The job id of the file read off a live id drops every suffix of the id. */
  lemma FileOfIdRoundTrip(name: string, id: string)
    requires InNamespace(name, id)
    ensures JobId(name, FileOfId(name, id)) == Namespace(name) + TrimJson(id[|Namespace(name)|..])
    ensures !Suffixed(id[|Namespace(name)|..]) ==> JobId(name, FileOfId(name, id)) == id
  {
    TrimDropsSuffix(id[|Namespace(name)|..]);
    assert id == Namespace(name) + id[|Namespace(name)|..];
  }

  // ---- declared jobs by id ----

  ghost predicate DistinctIds(name: string, jobs: seq<Declared>) {
    forall i, j :: 0 <= i < j < |jobs| ==> JobId(name, jobs[i].file) != JobId(name, jobs[j].file)
  }

  function Find(name: string, jobs: seq<Declared>, id: string): Option<Declared> {
    if jobs == [] then None
    else if JobId(name, jobs[0].file) == id then Some(jobs[0])
    else Find(name, jobs[1..], id)
  }

  lemma {:induction false} FindNone(name: string, jobs: seq<Declared>, id: string)
    ensures Find(name, jobs, id) == None <==> forall d :: d in jobs ==> JobId(name, d.file) != id
    ensures Find(name, jobs, id).Some? ==>
              Find(name, jobs, id).value in jobs && JobId(name, Find(name, jobs, id).value.file) == id
    decreases |jobs|
  {
    if jobs != [] {
      FindNone(name, jobs[1..], id);
      assert forall d :: d in jobs <==> d == jobs[0] || d in jobs[1..];
    }
  }

  lemma {:induction false} FindOwn(name: string, jobs: seq<Declared>, d: Declared)
    requires DistinctIds(name, jobs) && d in jobs
    ensures Find(name, jobs, JobId(name, d.file)) == Some(d)
    decreases |jobs|
  {
    if jobs[0] != d {
      var i :| 0 <= i < |jobs| && jobs[i] == d;
      assert jobs[1..][i - 1] == d;
      FindOwn(name, jobs[1..], d);
    }
  }

  lemma {:induction false} FilesMembers(jobs: seq<Declared>, f: string)
    ensures f in Files(jobs) <==> exists d :: d in jobs && d.file == f
    decreases |jobs|
  {
    if jobs != [] {
      FilesMembers(jobs[1..], f);
      assert forall d :: d in jobs <==> d == jobs[0] || d in jobs[1..];
    }
  }

  // ---- lists ----

  lemma {:induction false} UndeclaredMembers(record: seq<string>, files: seq<string>, f: string)
    ensures f in Undeclared(record, files) <==> f in record && f !in files
    decreases |record|
  {
    if record != [] { UndeclaredMembers(record[1..], files, f); }
  }

  lemma {:induction false} RetainMembers(record: seq<string>, files: seq<string>, f: string)
    ensures f in Retain(record, files) <==> f in record && f in files
    decreases |record|
  {
    if record != [] { RetainMembers(record[1..], files, f); }
  }

  lemma {:induction false} RetainLength(record: seq<string>, files: seq<string>)
    ensures |Retain(record, files)| <= |record|
    ensures |Retain(record, files)| == |record| <==> Retain(record, files) == record
    ensures Undeclared(record, files) == [] ==> Retain(record, files) == record
    decreases |record|
  {
    if record != [] {
      RetainLength(record[1..], files);
      assert record == [record[0]] + record[1..];
    }
  }

  lemma {:induction false} RetainAppend(a: seq<string>, b: seq<string>, files: seq<string>)
    ensures Retain(a + b, files) == Retain(a, files) + Retain(b, files)
    decreases |a|
  {
    if a == [] {
      assert a + b == b;
    } else {
      assert (a + b)[0] == a[0] && (a + b)[1..] == a[1..] + b;
      RetainAppend(a[1..], b, files);
      Assoc(if a[0] in files then [a[0]] else [], Retain(a[1..], files), Retain(b, files));
    }
  }

  ghost predicate NoDuplicates(s: seq<string>) {
    forall i, j :: 0 <= i < j < |s| ==> s[i] != s[j]
  }

  lemma {:induction false} RetainNoDuplicates(record: seq<string>, files: seq<string>)
    requires NoDuplicates(record)
    ensures NoDuplicates(Retain(record, files))
    decreases |record|
  {
    if record != [] {
      RetainNoDuplicates(record[1..], files);
      RetainMembers(record[1..], files, record[0]);
    }
  }

  lemma {:induction false} AppendMembers(names: seq<string>, more: seq<string>, f: string)
    ensures f in Append(names, more) <==> f in names || f in more
    decreases |more|
  {
    if more != [] {
      AppendMembers(if more[0] in names then names else names + [more[0]], more[1..], f);
    }
  }

  lemma {:induction false} LiveOrphanMembers(name: string, files: seq<string>, ids: seq<string>, orphans: seq<string>, f: string)
    ensures f in AddLiveOrphans(name, files, ids, orphans)
       <==> f in orphans || (f !in files && exists id :: id in ids && InNamespace(name, id) && FileOfId(name, id) == f)
    decreases |ids|
  {
    if ids != [] {
      var next :=
        if InNamespace(name, ids[0]) && FileOfId(name, ids[0]) !in files && FileOfId(name, ids[0]) !in orphans
        then orphans + [FileOfId(name, ids[0])] else orphans;
      LiveOrphanMembers(name, files, ids[1..], next, f);
      assert forall id :: id in ids <==> id == ids[0] || id in ids[1..];
    }
  }

  // ---- logs ----

  /** The calls made between two states of one log. */
  ghost function Calls(before: World, after: World): (calls: seq<Call>)
    requires before.log <= after.log
  {
    after.log[|before.log|..]
  }

  lemma CallsSplit(a: World, b: World, c: World)
    requires a.log <= b.log <= c.log
    ensures Calls(a, c) == Calls(a, b) + Calls(b, c)
    ensures NoFailure(Calls(a, c)) <==> NoFailure(Calls(a, b)) && NoFailure(Calls(b, c))
  {
    assert Calls(a, c) == Calls(a, b) + Calls(b, c);
    assert forall x :: x in Calls(a, c) <==> x in Calls(a, b) || x in Calls(b, c);
  }

  // ---- the cancelling loop ----

  ghost predicate Names(name: string, files: seq<string>, id: string) {
    exists f :: f in files && JobId(name, f) == id
  }

  lemma CancelOneEffect(e: Env, name: string, strict: bool, files: seq<string>, p: Withdrawal)
    requires files != []
    ensures var q := CancelOne(e, name, strict, files[0], p); var id := JobId(name, files[0]);
            && p.w.log <= q.w.log && q.w.records == p.w.records
            && CancelEach(e, name, strict, files, p) == CancelEach(e, name, strict, files[1..], q)
            && (forall i :: i != id ==> At(q.w.clock, i) == At(p.w.clock, i))
            && (At(q.w.clock, id) == At(p.w.clock, id) || At(q.w.clock, id) == None)
            && (NoFailure(Calls(p.w, q.w)) ==>
                 At(q.w.clock, id) == None
                 && q.removed == if strict && id !in p.w.clock then p.removed else p.removed + [files[0]])
  {
    var q := CancelOne(e, name, strict, files[0], p);
    var c := CancelCall(JobId(name, files[0]), CancelAnswerOf(e, p.w, JobId(name, files[0])));
    assert Calls(p.w, q.w) == [c];
    assert c in Calls(p.w, q.w);
  }

  /** Cancelling a list of files touches only their ids and can only remove. */
  lemma {:induction false} CancelEachFrame(e: Env, name: string, strict: bool, files: seq<string>, p: Withdrawal)
    ensures var q := CancelEach(e, name, strict, files, p);
            && p.w.log <= q.w.log && q.w.records == p.w.records
            && (forall id :: At(q.w.clock, id) == At(p.w.clock, id) || (At(q.w.clock, id) == None && Names(name, files, id)))
    decreases |files|
  {
    if files != [] {
      CancelOneEffect(e, name, strict, files, p);
      CancelEachFrame(e, name, strict, files[1..], CancelOne(e, name, strict, files[0], p));
      forall id ensures Names(name, files[1..], id) || id == JobId(name, files[0]) ==> Names(name, files, id) {
        assert forall f :: f in files <==> f == files[0] || f in files[1..];
      }
    }
  }

  /** With no failed call everything listed is gone, and the lenient count is the whole list. */
  lemma {:induction false} CancelEachClears(e: Env, name: string, strict: bool, files: seq<string>, p: Withdrawal)
    requires p.w.log <= CancelEach(e, name, strict, files, p).w.log
    requires NoFailure(Calls(p.w, CancelEach(e, name, strict, files, p).w))
    ensures var q := CancelEach(e, name, strict, files, p);
            && (forall f :: f in files ==> At(q.w.clock, JobId(name, f)) == None)
            && (!strict ==> q.removed == p.removed + files)
            && |p.removed| <= |q.removed|
            && (strict && |q.removed| == |p.removed| ==> forall f :: f in files ==> JobId(name, f) !in p.w.clock)
            && ((forall f :: f in files ==> JobId(name, f) !in p.w.clock) && strict ==> q.removed == p.removed)
    decreases |files|
  {
    if files != [] {
      var next := CancelOne(e, name, strict, files[0], p);
      CancelOneEffect(e, name, strict, files, p);
      CancelEachFrame(e, name, strict, files[1..], next);
      CallsSplit(p.w, next.w, CancelEach(e, name, strict, files, p).w);
      CancelEachClears(e, name, strict, files[1..], next);
      assert files == [files[0]] + files[1..];
    }
  }

  // ---- the registration loop ----

  function Fresh(name: string, zone: string, d: Declared): Job {
    Job(Target(name), Stamp(d.options, zone))
  }

  lemma StampIsLive(o: Options, zone: string)
    ensures DeclarationIsLive(o, Stamp(o, zone))
  {
  }

  /** One declaration's step: only its own id and its own file are touched. */
  lemma RegisterOneEffect(e: Env, name: string, live: map<string, Job>, d: Declared, p: Pass)
    requires At(p.w.clock, JobId(name, d.file)) == At(live, JobId(name, d.file))
    ensures var q := RegisterOne(e, name, live, d, p);
            && p.w.log <= q.w.log && q.w.records == p.w.records
            && (forall id :: id != JobId(name, d.file) ==> At(q.w.clock, id) == At(p.w.clock, id))
            && (q.already == p.already || (d.file !in p.already && q.already == p.already + [d.file]))
            && Fate(name, e.zone, live, p.already, d, q, NoFailure(Calls(p.w, q.w)))
            && (q.added == p.added <==> At(q.w.clock, JobId(name, d.file)) != Some(Fresh(name, e.zone, d)) || Skipped(name, live, p.already, d))
            && (q.added == p.added || q.added == p.added + [d.file])
  {
    StampIsLive(d.options, e.zone);
    RegisterOneAnswers(e, name, live, d, p);
  }

  /** A declaration that is not skipped makes a call, and its last call has not failed unless some
      call has. */
  lemma RegisterOneAnswers(e: Env, name: string, live: map<string, Job>, d: Declared, p: Pass)
    ensures var q := RegisterOne(e, name, live, d, p);
            && p.w.log <= q.w.log
            && (!Skipped(name, live, p.already, d) && NoFailure(Calls(p.w, q.w)) ==> q.w.log != [] && !Failed(q.w.log[|q.w.log| - 1]))
  {
    var q := RegisterOne(e, name, live, d, p);
    if !Skipped(name, live, p.already, d) {
      assert q.w.log[|q.w.log| - 1] == Calls(p.w, q.w)[|Calls(p.w, q.w)| - 1];
    }
  }

  /** How a declaration can come out of the registration loop: skipped and untouched; renewed or
      registered, and on record; or, only if a call failed, left off the record as before with the
      job either untouched (a stale one that would not go) or absent. */
  ghost predicate Fate(name: string, zone: string, live: map<string, Job>, record: seq<string>, d: Declared, q: Pass, noFailure: bool) {
    var now := At(q.w.clock, JobId(name, d.file));
    if Skipped(name, live, record, d) then
      now == At(live, JobId(name, d.file)) && (d.file in q.already <==> d.file in record)
    else
      || (now == Some(Fresh(name, zone, d)) && d.file in q.already)
      || (&& !noFailure && (d.file in q.already <==> d.file in record)
          && (now == None || (Stale(name, live, d) && now == At(live, JobId(name, d.file)))))
  }

  lemma {:induction false} RegisterAllFrame(e: Env, name: string, live: map<string, Job>, jobs: seq<Declared>, p: Pass)
    requires DistinctIds(name, jobs) && Untouched(name, live, jobs, p.w)
    ensures var q := RegisterAll(e, name, live, jobs, p);
            && p.w.log <= q.w.log && q.w.records == p.w.records
            && (forall id :: Find(name, jobs, id) == None ==> At(q.w.clock, id) == At(p.w.clock, id))
            && (forall f :: f !in Files(jobs) ==> (f in q.already <==> f in p.already))
            && |p.already| <= |q.already| && |p.added| <= |q.added|
            && (q.added == p.added ==> q.already == p.already)
    decreases |jobs|
  {
    if jobs != [] {
      var d := jobs[0];
      var next := RegisterOne(e, name, live, d, p);
      RegisterOneEffect(e, name, live, d, p);
      RegisterAllStep(e, name, live, jobs, p);
      RegisterAllFrame(e, name, live, jobs[1..], next);
    }
  }

  ghost predicate Untouched(name: string, live: map<string, Job>, jobs: seq<Declared>, w: World) {
    forall d :: d in jobs ==> At(w.clock, JobId(name, d.file)) == At(live, JobId(name, d.file))
  }

  /** Splitting the first declaration off the loop. */
  lemma RegisterAllStep(e: Env, name: string, live: map<string, Job>, jobs: seq<Declared>, p: Pass)
    requires jobs != [] && DistinctIds(name, jobs) && Untouched(name, live, jobs, p.w)
    ensures var next := RegisterOne(e, name, live, jobs[0], p);
            && DistinctIds(name, jobs[1..]) && Untouched(name, live, jobs[1..], next.w)
            && (forall d :: d in jobs[1..] ==> d in jobs && JobId(name, d.file) != JobId(name, jobs[0].file))
            && Find(name, jobs[1..], JobId(name, jobs[0].file)) == None
            && jobs[0].file !in Files(jobs[1..])
  {
    RegisterOneEffect(e, name, live, jobs[0], p);
    FindNone(name, jobs[1..], JobId(name, jobs[0].file));
    FilesMembers(jobs[1..], jobs[0].file);
    assert forall d :: d in jobs[1..] ==> d in jobs && JobId(name, d.file) != JobId(name, jobs[0].file);
  }

  /** Every declaration meets one of the fates, and a loop with no failed call has only the two
      good ones. */
  lemma {:induction false} RegisterAllFate(e: Env, name: string, live: map<string, Job>, jobs: seq<Declared>, p: Pass, d: Declared)
    requires DistinctIds(name, jobs) && Untouched(name, live, jobs, p.w) && d in jobs
    ensures var q := RegisterAll(e, name, live, jobs, p);
            p.w.log <= q.w.log && Fate(name, e.zone, live, p.already, d, q, NoFailure(Calls(p.w, q.w)))
    decreases |jobs|
  {
    var next := RegisterOne(e, name, live, jobs[0], p);
    var q := RegisterAll(e, name, live, jobs, p);
    RegisterOneEffect(e, name, live, jobs[0], p);
    RegisterAllStep(e, name, live, jobs, p);
    RegisterAllFrame(e, name, live, jobs[1..], next);
    CallsSplit(p.w, next.w, q.w);
    if d != jobs[0] {
      assert d in jobs[1..];
      RegisterAllFate(e, name, live, jobs[1..], next, d);
    }
  }

  /** The files a loop with no failed call appends to the record. */
  function NewFiles(name: string, live: map<string, Job>, record: seq<string>, jobs: seq<Declared>): seq<string> {
    if jobs == [] then []
    else NewFile(name, live, record, jobs[0]) + NewFiles(name, live, record, jobs[1..])
  }

  lemma {:induction false} NewFilesExtend(name: string, live: map<string, Job>, record: seq<string>, f: string, jobs: seq<Declared>)
    requires forall d :: d in jobs ==> d.file != f
    ensures NewFiles(name, live, record + [f], jobs) == NewFiles(name, live, record, jobs)
    decreases |jobs|
  {
    if jobs != [] { NewFilesExtend(name, live, record, f, jobs[1..]); }
  }

  lemma {:induction false} NewFilesMembers(name: string, live: map<string, Job>, record: seq<string>, jobs: seq<Declared>, f: string)
    ensures f in NewFiles(name, live, record, jobs) <==>
              f !in record && exists d :: d in jobs && d.file == f && !Skipped(name, live, record, d)
    decreases |jobs|
  {
    if jobs != [] {
      NewFilesMembers(name, live, record, jobs[1..], f);
      assert forall d :: d in jobs <==> d == jobs[0] || d in jobs[1..];
    }
  }

  /** The file one declaration adds to the record when no call fails. */
  function NewFile(name: string, live: map<string, Job>, record: seq<string>, d: Declared): seq<string> {
    if Skipped(name, live, record, d) || d.file in record then [] else [d.file]
  }

  lemma NewFilesStep(name: string, live: map<string, Job>, record: seq<string>, jobs: seq<Declared>, extra: seq<string>)
    requires jobs != [] && forall d :: d in jobs[1..] ==> d.file != jobs[0].file
    requires extra == NewFile(name, live, record, jobs[0])
    ensures (record + extra) + NewFiles(name, live, record + extra, jobs[1..]) == record + NewFiles(name, live, record, jobs)
  {
    var rest := NewFiles(name, live, record, jobs[1..]);
    if extra == [] {
      assert record + extra == record;
    } else {
      NewFilesExtend(name, live, record, jobs[0].file, jobs[1..]);
    }
    Assoc(record, extra, rest);
  }

  lemma RegisterOneRecord(e: Env, name: string, live: map<string, Job>, d: Declared, p: Pass)
    requires At(p.w.clock, JobId(name, d.file)) == At(live, JobId(name, d.file))
    requires p.w.log <= RegisterOne(e, name, live, d, p).w.log
    requires NoFailure(Calls(p.w, RegisterOne(e, name, live, d, p).w))
    ensures RegisterOne(e, name, live, d, p).already == p.already + NewFile(name, live, p.already, d)
  {
    RegisterOneEffect(e, name, live, d, p);
  }

  /** With no failed call the loop appends exactly the new files to the record. */
  lemma {:induction false} RegisterAllRecord(e: Env, name: string, live: map<string, Job>, jobs: seq<Declared>, p: Pass)
    requires DistinctIds(name, jobs) && Untouched(name, live, jobs, p.w)
    requires p.w.log <= RegisterAll(e, name, live, jobs, p).w.log
    requires NoFailure(Calls(p.w, RegisterAll(e, name, live, jobs, p).w))
    ensures RegisterAll(e, name, live, jobs, p).already == p.already + NewFiles(name, live, p.already, jobs)
    decreases |jobs|
  {
    if jobs != [] {
      var next := RegisterOne(e, name, live, jobs[0], p);
      RegisterOneEffect(e, name, live, jobs[0], p);
      RegisterAllStep(e, name, live, jobs, p);
      RegisterAllFrame(e, name, live, jobs[1..], next);
      CallsSplit(p.w, next.w, RegisterAll(e, name, live, jobs, p).w);
      RegisterOneRecord(e, name, live, jobs[0], p);
      NewFilesStep(name, live, p.already, jobs, NewFile(name, live, p.already, jobs[0]));
      RegisterAllRecord(e, name, live, jobs[1..], next);
    }
  }
}
