/** The imperative form of the reconciler: the facade with its clock, its records and the calls it
    made, updated by the loops of core/src/core_facade.rs. Every method is proved equal to the
    specification function of the same name in `ScheduleSync`. */
module CoreFacade {
  import opened ScheduleSync

  class Core {
    var clock: map<string, Job>
    var records: map<string, seq<string>>
    var log: seq<Call>

    constructor ()
      ensures State() == World(map[], map[], [])
    {
      clock, records, log := map[], map[], [];
    }

    ghost function State(): World
      reads this
    {
      World(clock, records, log)
    }

    method CancelJob(e: Env, id: string) returns (answer: CancelAnswer)
      modifies this
      ensures State() == Cancel(e, old(State()), id)
      ensures answer == CancelAnswerOf(e, old(State()), id)
    {
      if e.fails(|log|) || (id in clock && IsSystem(clock[id])) {
        answer := CancelRefused;
      } else if id in clock {
        answer := Withdrawn;
        clock := clock - {id};
      } else {
        answer := NotThere;
      }
      log := log + [CancelCall(id, answer)];
    }

    method ScheduleJob(e: Env, id: string, target: string, o: Options) returns (accepted: bool)
      modifies this
      ensures State() == Schedule(e, old(State()), id, target, o)
      ensures accepted == ScheduleAccepts(e, old(State()), id, o)
    {
      var job := Job(target, Stamp(o, e.zone));
      accepted := !e.fails(|log|) && HasTrigger(o) && id !in clock;
      if accepted {
        clock := clock[id := job];
      }
      log := log + [ScheduleCall(id, job, accepted)];
    }

    /** Disabling a module withdraws every job it declares or is on record for. */
    method WithdrawDisabled(e: Env, m: Module) returns (removed: seq<string>)
      modifies this
      ensures var s := SyncDisabled(e, m, old(State())); State() == s.w && removed == s.removed && s.added == []
    {
      ghost var start := State();
      var names := Files(m.jobs);
      var record := Registered(records, m.name);
      for i := 0 to |record|
        invariant State() == start
        invariant Append(names, record[i..]) == Append(Files(m.jobs), record)
      {
        if record[i] !in names {
          names := names + [record[i]];
        }
      }
      removed := [];
      for i := 0 to |names|
        invariant CancelEach(e, m.name, true, names[i..], Withdrawal(State(), removed))
               == CancelEach(e, m.name, true, names, Withdrawal(start, []))
      {
        var answer := CancelJob(e, JobId(m.name, names[i]));
        if answer == Withdrawn {
          removed := removed + [names[i]];
        }
      }
      if removed != [] {
        records := records[m.name := []];
      }
    }

    /** The registration loop over the declared jobs. */
    method RegisterDeclared(e: Env, m: Module, live: map<string, Job>, record: seq<string>)
      returns (already: seq<string>, added: seq<string>)
      modifies this
      ensures Pass(State(), already, added) == RegisterAll(e, m.name, live, m.jobs, Pass(old(State()), record, []))
    {
      ghost var start := State();
      already, added := record, [];
      for i := 0 to |m.jobs|
        invariant RegisterAll(e, m.name, live, m.jobs[i..], Pass(State(), already, added))
               == RegisterAll(e, m.name, live, m.jobs, Pass(start, record, []))
      {
        var d := m.jobs[i];
        assert m.jobs[i..][0] == d && m.jobs[i..][1..] == m.jobs[i + 1..];
        var id := JobId(m.name, d.file);
        var stale := Stale(m.name, live, d);
        if !stale && (d.file in already || id in live) {
          continue;
        }
        if stale {
          var answer := CancelJob(e, id);
          if answer == CancelRefused {
            continue;
          }
        }
        var accepted := ScheduleJob(e, id, Target(m.name), d.options);
        if accepted {
          if d.file !in already {
            already := already + [d.file];
          }
          added := added + [d.file];
        }
      }
    }

    /** The orphan pass: what is on record or live under the namespace, and no longer declared. */
    method WithdrawOrphans(e: Env, m: Module, live: map<string, Job>, already: seq<string>)
      returns (removed: seq<string>)
      modifies this
      ensures Withdrawal(State(), removed)
           == CancelEach(e, m.name, false,
                AddLiveOrphans(m.name, Files(m.jobs), e.order(live.Keys), Undeclared(already, Files(m.jobs))),
                Withdrawal(old(State()), []))
    {
      ghost var start := State();
      var files := Files(m.jobs);
      var orphans := Undeclared(already, files);
      var ids := e.order(live.Keys);
      for i := 0 to |ids|
        invariant State() == start
        invariant AddLiveOrphans(m.name, files, ids[i..], orphans)
               == AddLiveOrphans(m.name, files, ids, Undeclared(already, files))
      {
        if InNamespace(m.name, ids[i]) {
          var file := FileOfId(m.name, ids[i]);
          if file !in files && file !in orphans {
            orphans := orphans + [file];
          }
        }
      }
      removed := [];
      for i := 0 to |orphans|
        invariant CancelEach(e, m.name, false, orphans[i..], Withdrawal(State(), removed))
               == CancelEach(e, m.name, false, orphans, Withdrawal(start, []))
      {
        var answer := CancelJob(e, JobId(m.name, orphans[i]));
        if answer != CancelRefused {
          removed := removed + [orphans[i]];
        }
      }
    }

    method SyncModuleSchedules(e: Env, m: Module) returns (added: seq<string>, removed: seq<string>)
      modifies this
      ensures Synced(State(), added, removed) == Sync(e, m, old(State()))
    {
      if m.jobs == [] && Registered(records, m.name) == [] {
        return [], [];
      }
      if !m.enabled {
        removed := WithdrawDisabled(e, m);
        return [], removed;
      }
      var live := clock;
      var already;
      already, added := RegisterDeclared(e, m, live, Registered(records, m.name));
      removed := WithdrawOrphans(e, m, live, already);
      var changed := false;
      if removed != [] {
        var before := |already|;
        already := Retain(already, Files(m.jobs));
        changed := |already| != before;
      }
      if added != [] || changed {
        records := records[m.name := already];
      }
    }

    method SyncAllModuleSchedules(visits: seq<Visit>)
      modifies this
      ensures State() == SyncAll(visits, old(State()))
    {
      ghost var start := State();
      for i := 0 to |visits|
        invariant SyncAll(visits[i..], State()) == SyncAll(visits, start)
      {
        assert visits[i..][1..] == visits[i + 1..];
        var _, _ := SyncModuleSchedules(visits[i].e, visits[i].m);
      }
    }
  }
}
