/** The reconciler between the schedules a module declares, the persisted record of the files
    already registered, and the jobs on the clock (core/src/core_facade.rs).

    This file is the specification: pure functions that follow the loops of
    `sync_module_schedules` call by call. `CoreFacade.dfy` holds the imperative form, which is
    proved equal to these functions; the other `Sync*.dfy` files prove what they mean. */
module ScheduleSync {
  import opened Wrappers

  // A job's options: the keys that are set, each with its serialised value. Keys that are not
  // set are not serialised at all, so they are simply absent.
  type Options = map<string, string>

  datatype Job = Job(target: string, options: Options)
  datatype Declared = Declared(file: string, options: Options)
  datatype Module = Module(name: string, enabled: bool, jobs: seq<Declared>)

  datatype CancelAnswer = Withdrawn | NotThere | CancelRefused

  /** What was asked of the scheduler, and what it answered. */
  datatype Call =
    | CancelCall(id: string, answer: CancelAnswer)
    | ScheduleCall(id: string, job: Job, accepted: bool)

  datatype World = World(clock: map<string, Job>, records: map<string, seq<string>>, log: seq<Call>)

  /** How the surroundings behave during one synchronisation: which calls fail (by position in the
      log), which zone the scheduler stamps, and in which order the hash map of live jobs yields
      its keys. */
  datatype Env = Env(fails: nat -> bool, zone: string, order: set<string> -> seq<string>)

  ghost predicate Enumerates(e: Env) {
    forall s: set<string>, id: string :: id in e.order(s) <==> id in s
  }

  ghost predicate Failed(c: Call) {
    (c.CancelCall? && c.answer == CancelRefused) || (c.ScheduleCall? && !c.accepted)
  }

  ghost predicate NoFailure(log: seq<Call>) {
    forall c :: c in log ==> !Failed(c)
  }

  /** The clock at one id. */
  function At(clock: map<string, Job>, id: string): Option<Job> {
    if id in clock then Some(clock[id]) else None
  }

  function Registered(records: map<string, seq<string>>, name: string): seq<string> {
    if name in records then records[name] else []
  }

  // ---- names ----

  const SUFFIX := ".json"

  predicate Suffixed(f: string) {
    |f| >= |SUFFIX| && f[|f| - |SUFFIX|..] == SUFFIX
  }

  /** `trim_end_matches(".json")`: every trailing ".json" goes, not only the last. */
  function TrimJson(f: string): string
    decreases |f|
  {
    if Suffixed(f) then TrimJson(f[..|f| - |SUFFIX|]) else f
  }

  predicate FileChar(c: char) {
    'a' <= c <= 'z' || 'A' <= c <= 'Z' || '0' <= c <= '9' || c == '-' || c == '_'
  }

  /** The files a declaration is read from (core/src/managers/module.rs): a stem of letters, digits,
      dashes and underscores before one ".json". Any other file is skipped before the reconciler
      sees it. */
  predicate Whitelisted(file: string) {
    && Suffixed(file) && |file| > |SUFFIX|
    && forall i :: 0 <= i < |file| - |SUFFIX| ==> FileChar(file[i])
  }

  /** A module as it reaches the reconciler. */
  predicate Readable(m: Module) {
    forall d :: d in m.jobs ==> Whitelisted(d.file)
  }

  function Target(name: string): string { "module:" + name }

  function Namespace(name: string): string { Target(name) + ":" }

  function JobId(name: string, file: string): string { Namespace(name) + TrimJson(file) }

  predicate InNamespace(name: string, id: string) { Namespace(name) <= id }

  /** The file name the orphan pass reads off a live id of the module's namespace. */
  function FileOfId(name: string, id: string): string
    requires InNamespace(name, id)
  {
    id[|Namespace(name)|..] + SUFFIX
  }

  function Files(jobs: seq<Declared>): seq<string> {
    if jobs == [] then [] else [jobs[0].file] + Files(jobs[1..])
  }

  // ---- the scheduler ----

  /** Only the keys the declaration sets are compared; what the scheduler added is ignored. */
  predicate DeclarationIsLive(declared: Options, registered: Options) {
    forall k :: k in declared ==> k in registered && registered[k] == declared[k]
  }

  function Stamp(o: Options, zone: string): Options {
    if "zone" in o then o else o["zone" := zone]
  }

  predicate IsSystem(j: Job) {
    "system" in j.options && j.options["system"] == "true"
  }

  predicate HasTrigger(o: Options) {
    "cronTime" in o || "runAt" in o || "delaySec" in o
  }

  function CancelAnswerOf(e: Env, w: World, id: string): CancelAnswer {
    if e.fails(|w.log|) || (id in w.clock && IsSystem(w.clock[id])) then CancelRefused
    else if id in w.clock then Withdrawn
    else NotThere
  }

  function Cancel(e: Env, w: World, id: string): World {
    var a := CancelAnswerOf(e, w, id);
    World(if a == Withdrawn then w.clock - {id} else w.clock, w.records, w.log + [CancelCall(id, a)])
  }

  predicate ScheduleAccepts(e: Env, w: World, id: string, o: Options) {
    !e.fails(|w.log|) && HasTrigger(o) && id !in w.clock
  }

  function Schedule(e: Env, w: World, id: string, target: string, o: Options): World {
    var ok := ScheduleAccepts(e, w, id, o);
    var job := Job(target, Stamp(o, e.zone));
    World(if ok then w.clock[id := job] else w.clock, w.records, w.log + [ScheduleCall(id, job, ok)])
  }

  // ---- the disabled branch ----

  /** `declared` followed by the recorded files not already listed. */
  function Append(names: seq<string>, more: seq<string>): seq<string>
    decreases |more|
  {
    if more == [] then names
    else Append(if more[0] in names then names else names + [more[0]], more[1..])
  }

  datatype Withdrawal = Withdrawal(w: World, removed: seq<string>)

  /** Cancel one file's job. Disabling counts a file as removed only when a job was there
      (`strict`); the orphan pass counts it unless the call failed. */
  function CancelOne(e: Env, name: string, strict: bool, file: string, p: Withdrawal): Withdrawal {
    var answer := CancelAnswerOf(e, p.w, JobId(name, file));
    var counts := answer == Withdrawn || (!strict && answer == NotThere);
    Withdrawal(Cancel(e, p.w, JobId(name, file)), if counts then p.removed + [file] else p.removed)
  }

  function CancelEach(e: Env, name: string, strict: bool, files: seq<string>, p: Withdrawal): Withdrawal
    decreases |files|
  {
    if files == [] then p
    else CancelEach(e, name, strict, files[1..], CancelOne(e, name, strict, files[0], p))
  }

  // ---- the enabled branch ----

  datatype Pass = Pass(w: World, already: seq<string>, added: seq<string>)

  predicate Stale(name: string, live: map<string, Job>, d: Declared) {
    var id := JobId(name, d.file);
    id in live && (live[id].target != Target(name) || !DeclarationIsLive(d.options, live[id].options))
  }

  predicate Skipped(name: string, live: map<string, Job>, already: seq<string>, d: Declared) {
    !Stale(name, live, d) && (d.file in already || JobId(name, d.file) in live)
  }

  function RegisterOne(e: Env, name: string, live: map<string, Job>, d: Declared, p: Pass): Pass {
    var id := JobId(name, d.file);
    var stale := Stale(name, live, d);
    if Skipped(name, live, p.already, d) then p
    else
      var w := if stale then Cancel(e, p.w, id) else p.w;
      if stale && CancelAnswerOf(e, p.w, id) == CancelRefused then p.(w := w)
      else if ScheduleAccepts(e, w, id, d.options) then
        Pass(Schedule(e, w, id, Target(name), d.options),
             if d.file in p.already then p.already else p.already + [d.file],
             p.added + [d.file])
      else p.(w := Schedule(e, w, id, Target(name), d.options))
  }

  function RegisterAll(e: Env, name: string, live: map<string, Job>, jobs: seq<Declared>, p: Pass): Pass
    decreases |jobs|
  {
    if jobs == [] then p
    else RegisterAll(e, name, live, jobs[1..], RegisterOne(e, name, live, jobs[0], p))
  }

  function Undeclared(record: seq<string>, files: seq<string>): seq<string> {
    if record == [] then []
    else (if record[0] in files then [] else [record[0]]) + Undeclared(record[1..], files)
  }

  function Retain(record: seq<string>, files: seq<string>): seq<string> {
    if record == [] then []
    else (if record[0] in files then [record[0]] else []) + Retain(record[1..], files)
  }

  /** Live ids under the module's namespace whose file is not declared join the orphans. */
  function AddLiveOrphans(name: string, files: seq<string>, ids: seq<string>, orphans: seq<string>): seq<string>
    decreases |ids|
  {
    if ids == [] then orphans
    else
      var next :=
        if InNamespace(name, ids[0]) && FileOfId(name, ids[0]) !in files
           && FileOfId(name, ids[0]) !in orphans
        then orphans + [FileOfId(name, ids[0])] else orphans;
      AddLiveOrphans(name, files, ids[1..], next)
  }

  // ---- one synchronisation ----

  datatype Synced = Synced(w: World, added: seq<string>, removed: seq<string>)

  function SyncDisabled(e: Env, m: Module, w: World): Synced {
    var names := Append(Files(m.jobs), Registered(w.records, m.name));
    var p := CancelEach(e, m.name, true, names, Withdrawal(w, []));
    Synced(if p.removed != [] then p.w.(records := p.w.records[m.name := []]) else p.w, [], p.removed)
  }

  function SyncEnabled(e: Env, m: Module, w: World): Synced {
    var files := Files(m.jobs);
    var p := RegisterAll(e, m.name, w.clock, m.jobs, Pass(w, Registered(w.records, m.name), []));
    var orphans := AddLiveOrphans(m.name, files, e.order(w.clock.Keys), Undeclared(p.already, files));
    var q := CancelEach(e, m.name, false, orphans, Withdrawal(p.w, []));
    var kept := if q.removed != [] then Retain(p.already, files) else p.already;
    var changed := |kept| != |p.already|;
    Synced(if p.added != [] || changed then q.w.(records := q.w.records[m.name := kept]) else q.w,
           p.added, q.removed)
  }

  function Sync(e: Env, m: Module, w: World): Synced {
    if m.jobs == [] && Registered(w.records, m.name) == [] then Synced(w, [], [])
    else if !m.enabled then SyncDisabled(e, m, w)
    else SyncEnabled(e, m, w)
  }

  /** One module's turn in the boot pass. */
  datatype Visit = Visit(m: Module, e: Env)

  function SyncAll(visits: seq<Visit>, w: World): World
    decreases |visits|
  {
    if visits == [] then w
    else SyncAll(visits[1..], Sync(visits[0].e, visits[0].m, w).w)
  }
}
