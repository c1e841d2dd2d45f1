/** The pipeline executor (core/src/task_executor_impl.rs): the policy gates in front of a module,
    the capability fallback behind a failed one, and the names models use for our own tools. */
module Executor {
  import opened Wrappers

  // ---- paths ----

  function IndexOf(s: string, c: char): (i: nat)
    requires c in s
    ensures i < |s| && s[i] == c && c !in s[..i]
  {
    if s[0] == c then 0
    else
      var i := 1 + IndexOf(s[1..], c);
      assert s[..i] == [s[0]] + s[1..][..i - 1];
      i
  }

  function Split(s: string): seq<string>
    decreases |s|
  {
    if '/' !in s then [s] else [s[..IndexOf(s, '/')]] + Split(s[IndexOf(s, '/') + 1..])
  }

  /** The segment after the first one that reads "modules". */
  function SegmentAfterModules(segs: seq<string>): Option<string> {
    if segs == [] then None
    else if segs[0] == "modules" then (if |segs| > 1 then Some(segs[1]) else None)
    else SegmentAfterModules(segs[1..])
  }

  function ExtractModuleName(path: string): Option<string> { SegmentAfterModules(Split(path)) }

  datatype Location = System | User
  datatype Provider = Provider(name: string, location: Location)

  function ScopePrefix(l: Location): string { if l.System? then "system" else "user" }

  function ProviderToPath(p: Provider): string {
    ScopePrefix(p.location) + "/" + ("modules" + "/" + (p.name + "/" + "index.mjs"))
  }

  lemma {:induction false} SplitStep(a: string, b: string)
    requires '/' !in a
    ensures Split(a + "/" + b) == [a] + Split(b)
  {
    var s := a + "/" + b;
    assert s[|a|] == '/';
    assert IndexOf(s, '/') == |a|;
    assert s[..|a|] == a && s[|a| + 1..] == b;
  }

  lemma SplitTwice(a: string, b: string, c: string)
    requires '/' !in a && '/' !in b
    ensures Split(a + "/" + (b + "/" + c)) == [a, b] + Split(c)
  {
    SplitStep(a, b + "/" + c);
    SplitStep(b, c);
  }

  lemma ProviderSegments(p: Provider)
    ensures Split(ProviderToPath(p)) == [ScopePrefix(p.location), "modules"] + Split(p.name + "/" + "index.mjs")
  {
    SplitTwice(ScopePrefix(p.location), "modules", p.name + "/" + "index.mjs");
  }

  lemma SegmentAfterScope(scope: string, segs: seq<string>)
    requires segs != [] && scope != "modules"
    ensures SegmentAfterModules([scope, "modules"] + segs) == Some(segs[0])
  {
    var all := [scope, "modules"] + segs;
    assert all[1..] == ["modules"] + segs;
    assert (["modules"] + segs)[1] == segs[0];
  }

  /** The module name read off a provider's path is the provider's, exactly when it has no slash. */
  lemma ExtractRoundTrip(p: Provider)
    ensures ExtractModuleName(ProviderToPath(p)) == Some(p.name) <==> '/' !in p.name
  {
    var segs := Split(p.name + "/" + "index.mjs");
    ProviderSegments(p);
    assert |ScopePrefix(p.location)| != |"modules"|;
    SegmentAfterScope(ScopePrefix(p.location), segs);
    if '/' !in p.name {
      SplitStep(p.name, "index.mjs");
    } else {
      assert '/' !in segs[0];
    }
  }

  /** A segment of the path begins at position `i` and reads `seg`. */
  ghost predicate SegmentAt(path: string, i: int, seg: string) {
    && 0 <= i <= i + |seg| <= |path| && path[i..i + |seg|] == seg && '/' !in seg
    && (i == 0 || path[i - 1] == '/') && (i + |seg| == |path| || path[i + |seg|] == '/')
  }

  /** `i` is where the first segment "modules" stands. */
  ghost predicate FirstAt(path: string, i: int) {
    SegmentAt(path, i, "modules") && forall j :: SegmentAt(path, j, "modules") ==> i <= j
  }

  /** The path names this module: its first segment that reads "modules" stands right before it. */
  ghost predicate NamedAt(path: string, i: int, name: string) {
    FirstAt(path, i) && SegmentAt(path, i + 8, name)
  }

  ghost predicate PathNames(path: string, name: string) {
    exists i :: NamedAt(path, i, name)
  }

  lemma SegmentUnique(path: string, i: int, a: string, b: string)
    requires SegmentAt(path, i, a) && SegmentAt(path, i, b)
    ensures a == b
  {
    assert forall k :: 0 <= k < |a| ==> a[k] == path[i + k];
    assert forall k :: 0 <= k < |b| ==> b[k] == path[i + k];
  }

  lemma TailSlice(path: string, m: nat, i: nat, n: nat)
    requires m <= i && i + n <= |path|
    ensures path[m..][i - m..i - m + n] == path[i..i + n]
  {
  }

  /** Behind its first slash, a path's segments are those of the rest. */
  lemma SegmentShift(path: string, k: nat, i: int, seg: string)
    requires '/' in path && k == IndexOf(path, '/') && i > 0
    ensures SegmentAt(path, i, seg) <==> SegmentAt(path[k + 1..], i - k - 1, seg)
  {
    if i <= k {
      assert path[i - 1] in path[..k];
    } else if i + |seg| <= |path| {
      TailSlice(path, k + 1, i, |seg|);
    }
  }

  lemma SegmentFirst(path: string, k: nat, seg: string)
    requires '/' in path && k == IndexOf(path, '/')
    ensures SegmentAt(path, 0, seg) <==> seg == path[..k]
  {
    assert SegmentAt(path, 0, path[..k]);
    if SegmentAt(path, 0, seg) { SegmentUnique(path, 0, seg, path[..k]); }
  }

  lemma FirstSegment(path: string, seg: string)
    ensures SegmentAt(path, 0, seg) <==> seg == Split(path)[0]
  {
    if '/' in path {
      SegmentFirst(path, IndexOf(path, '/'), seg);
    } else if SegmentAt(path, 0, seg) {
      assert SegmentAt(path, 0, path);
      SegmentUnique(path, 0, seg, path);
    }
  }

  lemma FirstShift(path: string, k: nat, i: int)
    requires '/' in path && k == IndexOf(path, '/') && path[..k] != "modules"
    ensures FirstAt(path, i) <==> FirstAt(path[k + 1..], i - k - 1)
    ensures FirstAt(path, i) ==> i > 0
  {
    var rest := path[k + 1..];
    SegmentFirst(path, k, "modules");
    if FirstAt(path, i) {
      SegmentShift(path, k, i, "modules");
      forall j | SegmentAt(rest, j, "modules") ensures i - k - 1 <= j { SegmentShift(path, k, j + k + 1, "modules"); }
    }
    if FirstAt(rest, i - k - 1) {
      SegmentShift(path, k, i, "modules");
      forall j | SegmentAt(path, j, "modules") ensures i <= j { SegmentShift(path, k, j, "modules"); }
    }
  }

  lemma NamedShift(path: string, k: nat, i: int, name: string)
    requires '/' in path && k == IndexOf(path, '/') && path[..k] != "modules"
    ensures NamedAt(path, i, name) <==> NamedAt(path[k + 1..], i - k - 1, name)
  {
    FirstShift(path, k, i);
    if FirstAt(path, i) { SegmentShift(path, k, i + 8, name); }
  }

  /** The name behind a first segment "modules", and the name further on behind any other. */
  lemma NamesBehind(path: string, k: nat, name: string)
    requires '/' in path && k == IndexOf(path, '/')
    ensures path[..k] == "modules" ==> (PathNames(path, name) <==> SegmentAt(path[k + 1..], 0, name))
    ensures path[..k] != "modules" ==> (PathNames(path, name) <==> PathNames(path[k + 1..], name))
  {
    SegmentFirst(path, k, "modules");
    if path[..k] == "modules" {
      SegmentShift(path, k, 8, name);
      if SegmentAt(path[k + 1..], 0, name) { assert NamedAt(path, 0, name); }
    } else {
      forall i | NamedAt(path, i, name) ensures NamedAt(path[k + 1..], i - k - 1, name) { NamedShift(path, k, i, name); }
      if PathNames(path[k + 1..], name) {
        var i :| NamedAt(path[k + 1..], i, name);
        NamedShift(path, k, i + k + 1, name);
        assert NamedAt(path, i + k + 1, name);
      }
    }
  }

  /** What `extract_module_name` finds is the name the path gives. */
  lemma {:induction false} ExtractedIsNamed(path: string, name: string)
    ensures ExtractModuleName(path) == Some(name) <==> PathNames(path, name)
    decreases |path|
  {
    if '/' in path {
      var k := IndexOf(path, '/');
      NamesBehind(path, k, name);
      FirstSegment(path[k + 1..], name);
      ExtractedIsNamed(path[k + 1..], name);
      assert ([path[..k]] + Split(path[k + 1..]))[1..] == Split(path[k + 1..]);
    } else {
      assert Split(path) == [path] && SegmentAfterModules([path][1..]) == None;
      forall i ensures !NamedAt(path, i, name) {
        if 0 < i <= |path| { assert path[i - 1] in path; }
      }
      assert !PathNames(path, name);
    }
  }

  // ---- policy ----

  /** A `requiresApproval` or `uiOnly` entry of a module's config. */
  datatype Declaration = Absent | Flag(all: bool) | Listed(actions: seq<string>) | Unreadable

  predicate Gates(d: Declaration, action: string) {
    match d
    case Flag(all) => all
    case Listed(actions) => action in actions
    case _ => false
  }

  datatype Config = Config(requiresApproval: Declaration, uiOnly: Declaration)

  /** The surroundings of one call: the modules' settings, configs (by scope and name) and catalog
      rows, and whether a confirmed screen action or a cron job is running. */
  datatype Policy = Policy(
    wired: bool,
    enabled: string -> bool,
    config: (string, string) -> Option<Config>,
    approvalRows: string -> set<string>,
    uiOnlyRows: string -> set<string>,
    uiConfirmed: bool,
    cron: bool)
  {
    predicate ApprovalGated(cfg: Config, name: string, action: string) {
      action in approvalRows(name) || Gates(cfg.requiresApproval, action)
    }

    predicate UiOnlyGated(cfg: Config, name: string, action: string) {
      action in uiOnlyRows(name) || Gates(cfg.uiOnly, action)
    }

    predicate DeclaresApproval(cfg: Config, name: string) {
      cfg.requiresApproval != Absent || approvalRows(name) != {}
    }
  }

  datatype Refusal =
    | Disabled(name: string)
    | ScreenOnly(name: string, action: string)
    | ExcludedFromFallback(name: string)
    | NeedsApproval(name: string, action: string)

  function ScopeOf(path: string): string { if "system/" <= path then "system" else "user" }

  /** The gate in front of every module path: None lets the call through. */
  function UnattendedGate(y: Policy, path: string, action: string, fallback: bool): Option<Refusal> {
    if !y.wired || ExtractModuleName(path) == None then None
    else
      var name := ExtractModuleName(path).value;
      if !y.enabled(name) then Some(Disabled(name))
      else
        match y.config(ScopeOf(path), name)
        case None => None
        case Some(cfg) =>
          if y.UiOnlyGated(cfg, name, action) && !y.uiConfirmed then Some(ScreenOnly(name, action))
          else if !y.DeclaresApproval(cfg, name) then None
          else if fallback then Some(ExcludedFromFallback(name))
          else if y.ApprovalGated(cfg, name, action) && !y.cron then Some(NeedsApproval(name, action))
          else None
  }

  /** The gate in front of a call that addresses a system module by its tool name. */
  function SysmodGate(y: Policy, name: string, action: string): Option<Refusal> {
    if !y.wired then None
    else
      match y.config("system", name)
      case None => None
      case Some(cfg) =>
        if y.UiOnlyGated(cfg, name, action) && !y.uiConfirmed then Some(ScreenOnly(name, action))
        else if y.ApprovalGated(cfg, name, action) && !y.uiConfirmed && !y.cron then Some(NeedsApproval(name, action))
        else None
  }

  // ---- what the gate means ----

  /** The entry covers the action: it covers all, or lists it. */
  ghost predicate Covers(d: Declaration, action: string) {
    (d.Flag? && d.all) || (d.Listed? && action in d.actions)
  }

  /** The config the module of a path is read under, system or user. */
  function ConfigOf(y: Policy, path: string, name: string): Option<Config> {
    y.config(if "system/" <= path then "system" else "user", name)
  }

  /** A screen-only action outside a confirmed screen action. */
  ghost predicate OffScreen(y: Policy, cfg: Config, name: string, action: string) {
    (action in y.uiOnlyRows(name) || Covers(cfg.uiOnly, action)) && !y.uiConfirmed
  }

  /** Outside cron an approval-gated action; for a fallback, any module that gates an action at all. */
  ghost predicate Ungranted(y: Policy, cfg: Config, name: string, action: string, fallback: bool) {
    if fallback then y.approvalRows(name) != {} || cfg.requiresApproval != Absent
    else (action in y.approvalRows(name) || Covers(cfg.requiresApproval, action)) && !y.cron
  }

  /** What may go to the sandbox: with the module manager wired, a path whose module, if it names one,
      is enabled and, if its config can be read, neither off screen nor ungranted. */
  ghost predicate MaySend(y: Policy, path: string, action: string, fallback: bool) {
    y.wired ==> forall name :: PathNames(path, name) ==>
      && y.enabled(name)
      && var cfg := ConfigOf(y, path, name);
         cfg.Some? ==> !OffScreen(y, cfg.value, name, action) && !Ungranted(y, cfg.value, name, action, fallback)
  }

  /** Why a path may not be sent: disabled before screen-only before approval. */
  ghost predicate RefusedFor(y: Policy, path: string, action: string, fallback: bool, name: string, refusal: Refusal) {
    && y.wired && PathNames(path, name)
    && var cfg := ConfigOf(y, path, name);
       if !y.enabled(name) then refusal == Disabled(name)
       else if cfg.Some? && OffScreen(y, cfg.value, name, action) then refusal == ScreenOnly(name, action)
       else cfg.Some? && Ungranted(y, cfg.value, name, action, fallback)
            && refusal == if fallback then ExcludedFromFallback(name) else NeedsApproval(name, action)
  }

  /** The gate lets through exactly what may be sent, and says why it refuses the rest. */
  lemma GateMeans(y: Policy, path: string, action: string, fallback: bool)
    ensures var verdict := UnattendedGate(y, path, action, fallback);
            && (verdict == None <==> MaySend(y, path, action, fallback))
            && (verdict.Some? ==> exists name :: RefusedFor(y, path, action, fallback, name, verdict.value))
  {
    var found := ExtractModuleName(path);
    forall name ensures PathNames(path, name) <==> found == Some(name) { ExtractedIsNamed(path, name); }
    if y.wired && found.Some? {
      assert PathNames(path, found.value);
      GateVerdict(y, path, action, fallback, found.value);
    }
  }

  lemma GateVerdict(y: Policy, path: string, action: string, fallback: bool, name: string)
    requires y.wired && ExtractModuleName(path) == Some(name) && PathNames(path, name)
    ensures var verdict := UnattendedGate(y, path, action, fallback); var cfg := ConfigOf(y, path, name);
            && (verdict == None <==> y.enabled(name) && (cfg.Some? ==>
                  !OffScreen(y, cfg.value, name, action) && !Ungranted(y, cfg.value, name, action, fallback)))
            && (verdict.Some? ==> RefusedFor(y, path, action, fallback, name, verdict.value))
  {
  }

  /** The two gates are meant to hold one policy. For an enabled system module they give the same
      verdict except in one case: an approval-gated action outside cron, on a confirmed screen
      action, which the tool gate lets through and the path gate does not. */
  lemma GatesAgree(y: Policy, name: string, action: string)
    requires y.wired && y.enabled(name) && '/' !in name
    ensures UnattendedGate(y, ProviderToPath(Provider(name, System)), action, false) == SysmodGate(y, name, action) <==>
              !(y.uiConfirmed && !y.cron && y.config("system", name).Some?
                && y.ApprovalGated(y.config("system", name).value, name, action))
  {
    SystemPath(name);
  }

  lemma SystemPath(name: string)
    requires '/' !in name
    ensures var path := ProviderToPath(Provider(name, System)); ExtractModuleName(path) == Some(name) && ScopeOf(path) == "system"
  {
    ExtractRoundTrip(Provider(name, System));
    assert ProviderToPath(Provider(name, System))[..7] == "system/";
  }

  /** Such a case: a module that lists one action for approval, asked for it from a confirmed screen
      action. */
  lemma GatesDiffer(y: Policy, name: string, action: string)
    requires y.wired && y.enabled(name) && y.uiConfirmed && !y.cron && action !in y.uiOnlyRows(name) && '/' !in name
    requires y.config("system", name) == Some(Config(Listed([action]), Absent))
    ensures SysmodGate(y, name, action) == None
    ensures UnattendedGate(y, ProviderToPath(Provider(name, System)), action, false) == Some(NeedsApproval(name, action))
  {
    SystemPath(name);
  }

  // ---- execution with fallback ----

  datatype SandboxAnswer = Output(success: bool, data: string, error: Option<string>) | Crash(message: string)

  // Sandbox runs answer as they like; the position of the run tells repeated runs apart.
  type Sandbox = (nat, string) -> SandboxAnswer

  datatype Failure = Refused(refusal: Refusal) | SandboxError(message: string)

  predicate Succeeded(a: SandboxAnswer) { a.Output? && a.success }

  function ErrorOf(a: SandboxAnswer): string
    requires !Succeeded(a)
  {
    match a
    case Output(_, _, error) => if error.Some? then error.value else "sandbox execute failed"
    case Crash(message) => message
  }

  /** The gate as a fallback candidate meets it. */
  function FallbackGate(y: Policy, action: string): string -> bool {
    path => UnattendedGate(y, path, action, true) == None
  }

  /** The fallback candidates the gate lets through, in their order. */
  function Allowed(passes: string -> bool, candidates: seq<string>): seq<string> {
    if candidates == [] then []
    else
      var last := candidates[|candidates| - 1];
      Allowed(passes, candidates[..|candidates| - 1]) + if passes(last) then [last] else []
  }

  function Paths(providers: seq<Provider>): (paths: seq<string>)
    ensures |paths| == |providers|
    ensures forall i :: 0 <= i < |paths| ==> paths[i] == ProviderToPath(providers[i])
  {
    seq(|providers|, i requires 0 <= i < |providers| => ProviderToPath(providers[i]))
  }

  /** Providers to try after `path` failed; None when no capability manager is wired. */
  function Candidates(fallbacks: Option<string -> seq<Provider>>, path: string): seq<Provider> {
    if fallbacks.Some? && ExtractModuleName(path).Some? then fallbacks.value(ExtractModuleName(path).value) else []
  }

  /** The error reported of a run that failed. */
  ghost predicate ReportedAs(a: SandboxAnswer, message: string) {
    match a
    case Output(_, _, Some(error)) => message == error
    case Output(_, _, None) => message == "sandbox execute failed"
    case Crash(text) => message == text
  }

  /** Every run before the last failed; the call succeeds exactly when the last run did, with its
      data; otherwise everything to be tried has been, and the error is that of the first. */
  ghost predicate StopsAtSuccess(sandbox: Sandbox, attempts: seq<string>, ran: seq<string>, result: Result<string, Failure>) {
    && 0 < |ran| <= |attempts| && ran == attempts[..|ran|]
    && (forall k :: 0 <= k < |ran| - 1 ==> var a := sandbox(k, ran[k]); !(a.Output? && a.success))
    && var last := sandbox(|ran| - 1, ran[|ran| - 1]);
       if last.Output? && last.success then result == Ok(last.data)
       else |ran| == |attempts| && result.Err? && result.error.SandboxError? && ReportedAs(sandbox(0, ran[0]), result.error.message)
  }

  /** The providers to be tried for a path that names a module. */
  ghost predicate AreCandidates(fallbacks: Option<string -> seq<Provider>>, path: string, candidates: seq<Provider>) {
    || (fallbacks.Some? && exists name :: PathNames(path, name) && candidates == fallbacks.value(name))
    || ((fallbacks.None? || forall name :: !PathNames(path, name)) && candidates == [])
  }

  /** `alts` are the paths of the candidates that may be sent as fallbacks, all of them, in their order;
      `picks` are their positions. */
  ghost predicate Alternatives(y: Policy, action: string, candidates: seq<Provider>, alts: seq<string>, picks: seq<nat>) {
    && |picks| == |alts| && (forall j, k :: 0 <= j < k < |picks| ==> picks[j] < picks[k])
    && (forall k :: 0 <= k < |picks| ==> picks[k] < |candidates| && IsPathOf(candidates[picks[k]], alts[k]))
    && (forall i, path :: 0 <= i < |candidates| && IsPathOf(candidates[i], path) ==> (i in picks <==> MaySend(y, path, action, true)))
  }

  ghost predicate IsPathOf(p: Provider, path: string) {
    path == (if p.location.System? then "system" else "user") + "/modules/" + p.name + "/index.mjs"
  }

  method ExecuteModule(y: Policy, sandbox: Sandbox, fallbacks: Option<string -> seq<Provider>>, path: string, action: string)
    returns (result: Result<string, Failure>, ran: seq<string>)
    ensures !MaySend(y, path, action, false) ==>
              ran == [] && exists name, refusal :: RefusedFor(y, path, action, false, name, refusal) && result == Err(Refused(refusal))
    ensures MaySend(y, path, action, false) ==>
              exists candidates, alts, picks ::
                && AreCandidates(fallbacks, path, candidates) && Alternatives(y, action, candidates, alts, picks)
                && StopsAtSuccess(sandbox, [path] + alts, ran, result)
    ensures forall k :: 0 <= k < |ran| ==> MaySend(y, ran[k], action, k > 0)
  {
    var verdict := UnattendedGate(y, path, action, false);
    GateMeans(y, path, action, false);
    if verdict.Some? {
      return Err(Refused(verdict.value)), [];
    }
    var candidates := Candidates(fallbacks, path);
    result, ran := ExecuteWithFallback(FallbackGate(y, action), sandbox, Paths(candidates), path);
    CandidatesMean(fallbacks, path);
    ghost var picks := AlternativesOf(y, action, candidates);
    FallbackSafety(y, action, sandbox, path, candidates, Allowed(FallbackGate(y, action), Paths(candidates)), picks, result, ran);
  }

  method ExecuteWithFallback(passes: string -> bool, sandbox: Sandbox, candidates: seq<string>, path: string)
    returns (result: Result<string, Failure>, ran: seq<string>)
    ensures StopsAtSuccess(sandbox, [path] + Allowed(passes, candidates), ran, result)
  {
    var first := sandbox(0, path);
    ran := [path];
    if Succeeded(first) {
      return Ok(first.data), ran;
    }
    for i := 0 to |candidates|
      invariant ran == [path] + Allowed(passes, candidates[..i])
      invariant AllFailed(sandbox, ran)
    {
      var alt := candidates[i];
      AllowedStep(passes, candidates, i);
      if !passes(alt) {
        continue;
      }
      var answer := sandbox(|ran|, alt);
      if Succeeded(answer) {
        AllowedPrefix(passes, candidates, i + 1);
        StoppedAt(sandbox, [path] + Allowed(passes, candidates), ran, alt);
        return Ok(answer.data), ran + [alt];
      }
      ran := ran + [alt];
    }
    assert candidates[..|candidates|] == candidates;
    result := Err(SandboxError(ErrorOf(first)));
  }

  ghost predicate AllFailed(sandbox: Sandbox, ran: seq<string>) {
    forall k :: 0 <= k < |ran| ==> !Succeeded(sandbox(k, ran[k]))
  }

  lemma StoppedAt(sandbox: Sandbox, attempts: seq<string>, ran: seq<string>, next: string)
    requires AllFailed(sandbox, ran) && ran + [next] <= attempts && Succeeded(sandbox(|ran|, next))
    ensures StopsAtSuccess(sandbox, attempts, ran + [next], Ok(sandbox(|ran|, next).data))
  {
  }

  lemma AllowedStep(passes: string -> bool, candidates: seq<string>, i: nat)
    requires i < |candidates|
    ensures var alt := candidates[i];
            Allowed(passes, candidates[..i + 1])
            == Allowed(passes, candidates[..i]) + if passes(alt) then [alt] else []
  {
    assert candidates[..i + 1][..i] == candidates[..i];
  }

  lemma {:induction false} AllowedPrefix(passes: string -> bool, candidates: seq<string>, n: nat)
    requires n <= |candidates|
    ensures Allowed(passes, candidates[..n]) <= Allowed(passes, candidates)
    decreases |candidates|
  {
    if n < |candidates| {
      var shorter := candidates[..|candidates| - 1];
      assert shorter[..n] == candidates[..n];
      AllowedPrefix(passes, shorter, n);
    } else {
      assert candidates[..n] == candidates;
    }
  }

  lemma CandidatesMean(fallbacks: Option<string -> seq<Provider>>, path: string)
    ensures AreCandidates(fallbacks, path, Candidates(fallbacks, path))
  {
    forall name ensures PathNames(path, name) <==> ExtractModuleName(path) == Some(name) { ExtractedIsNamed(path, name); }
  }

  lemma ProviderPath(p: Provider, path: string)
    ensures IsPathOf(p, path) <==> path == ProviderToPath(p)
  {
  }

  /** `picks` are the positions of the allowed candidates, in order. */
  ghost predicate Picked(passes: string -> bool, candidates: seq<string>, allowed: seq<string>, picks: seq<nat>) {
    && |picks| == |allowed| && (forall j, k :: 0 <= j < k < |picks| ==> picks[j] < picks[k])
    && (forall k :: 0 <= k < |picks| ==> picks[k] < |candidates| && candidates[picks[k]] == allowed[k])
    && (forall i :: 0 <= i < |candidates| ==> (i in picks <==> passes(candidates[i])))
  }

  lemma PickedMore(passes: string -> bool, candidates: seq<string>, allowed: seq<string>, picks: seq<nat>, c: string)
    requires Picked(passes, candidates, allowed, picks)
    ensures if passes(c) then Picked(passes, candidates + [c], allowed + [c], picks + [|candidates|])
            else Picked(passes, candidates + [c], allowed, picks)
  {
    assert forall k :: 0 <= k < |picks| ==> picks[k] in picks;
    assert |candidates| !in picks;
    assert forall i :: i in picks + [|candidates|] <==> i in picks || i == |candidates|;
  }

  /** Where the allowed candidates stand among all. */
  lemma {:induction false} AllowedPicks(passes: string -> bool, candidates: seq<string>) returns (picks: seq<nat>)
    ensures Picked(passes, candidates, Allowed(passes, candidates), picks)
    decreases |candidates|
  {
    if candidates == [] {
      picks := [];
    } else {
      var n := |candidates| - 1;
      var before := AllowedPicks(passes, candidates[..n]);
      PickedMore(passes, candidates[..n], Allowed(passes, candidates[..n]), before, candidates[n]);
      assert candidates[..n] + [candidates[n]] == candidates;
      picks := if passes(candidates[n]) then before + [n] else before;
      assert Allowed(passes, candidates[..n]) + [] == Allowed(passes, candidates[..n]);
    }
  }

  lemma AlternativesOf(y: Policy, action: string, candidates: seq<Provider>) returns (picks: seq<nat>)
    ensures Alternatives(y, action, candidates, Allowed(FallbackGate(y, action), Paths(candidates)), picks)
  {
    var paths := Paths(candidates);
    picks := AllowedPicks(FallbackGate(y, action), paths);
    forall i, path | 0 <= i < |candidates| && IsPathOf(candidates[i], path)
      ensures i in picks <==> MaySend(y, path, action, true)
    {
      ProviderPath(candidates[i], path);
      GateMeans(y, path, action, true);
    }
    forall k | 0 <= k < |picks| ensures IsPathOf(candidates[picks[k]], paths[picks[k]]) {
      ProviderPath(candidates[picks[k]], paths[picks[k]]);
    }
  }

  /** Whatever a run of `execute_module` sent to the sandbox might be sent: the path asked for, and each
      fallback under the stricter rule. */
  lemma FallbackSafety(y: Policy, action: string, sandbox: Sandbox, path: string, candidates: seq<Provider>, alts: seq<string>,
                       picks: seq<nat>, result: Result<string, Failure>, ran: seq<string>)
    requires MaySend(y, path, action, false) && Alternatives(y, action, candidates, alts, picks)
    requires StopsAtSuccess(sandbox, [path] + alts, ran, result)
    ensures |ran| > 0 && ran[0] == path
    ensures forall k :: 0 <= k < |ran| ==> MaySend(y, ran[k], action, k > 0)
  {
    forall k | 0 < k < |ran| ensures MaySend(y, ran[k], action, true) {
      assert ran[k] == alts[k - 1] && picks[k - 1] in picks;
      assert IsPathOf(candidates[picks[k - 1]], alts[k - 1]);
    }
  }
}
