/** The names models give our own tools (core/src/task_executor_impl.rs): which module a
    `sysmod_` name means, and which server a CLI-combined MCP name addresses. */
module ToolNames {
  import opened Executor
  import opened Wrappers

  // ---- sysmod names ----

  const SYSMOD := "sysmod_"

  /** One identity for hyphens and underscores. */
  function Norm(s: string): (n: string)
    ensures |n| == |s|
    ensures forall i :: 0 <= i < |s| ==> n[i] == if s[i] == '-' then '_' else s[i]
  {
    seq(|s|, i requires 0 <= i < |s| => if s[i] == '-' then '_' else s[i])
  }

  predicate Matches(norm: string, name: string) {
    norm == Norm(name) || Norm(name) + "_" <= norm
  }

  /** Among `modules`, the first of the longest names that match. */
  ghost predicate FirstLongest(modules: seq<string>, norm: string, best: Option<string>) {
    match best
    case None => forall m :: m in modules ==> !Matches(norm, m)
    case Some(b) => Matches(norm, b) && exists i :: FirstLongestAt(modules, norm, b, i)
  }

  ghost predicate FirstLongestAt(modules: seq<string>, norm: string, b: string, i: int) {
    && 0 <= i < |modules| && modules[i] == b
    && (forall j :: 0 <= j < i && Matches(norm, modules[j]) ==> |modules[j]| < |b|)
    && (forall j :: i < j < |modules| && Matches(norm, modules[j]) ==> |modules[j]| <= |b|)
  }

  method ResolveSysmodModule(wired: bool, modules: seq<string>, tool: string) returns (best: Option<string>)
    ensures if wired && "sysmod_" <= tool then FirstLongest(modules, Norm(tool[7..]), best) else best == None
  {
    best := None;
    if !wired || !(SYSMOD <= tool) {
      return;
    }
    var norm := Norm(tool[|SYSMOD|..]);
    for k := 0 to |modules|
      invariant FirstLongest(modules[..k], norm, best)
    {
      LongestStep(modules, norm, best, k);
      if Matches(norm, modules[k]) && (best.None? || |modules[k]| > |best.value|) {
        best := Some(modules[k]);
      }
    }
    assert modules[..|modules|] == modules;
  }

  lemma LongestKept(modules: seq<string>, norm: string, b: string, i: int, m: string)
    requires FirstLongestAt(modules, norm, b, i) && (Matches(norm, m) ==> |m| <= |b|)
    ensures FirstLongestAt(modules + [m], norm, b, i)
  {
  }

  lemma LongestReplaced(modules: seq<string>, norm: string, best: Option<string>, m: string)
    requires FirstLongest(modules, norm, best) && Matches(norm, m) && (best.None? || |m| > |best.value|)
    ensures FirstLongestAt(modules + [m], norm, m, |modules|)
  {
    if best.Some? { LongestBound(modules, norm, best.value); }
  }

  lemma LongestStep(modules: seq<string>, norm: string, best: Option<string>, k: nat)
    requires k < |modules| && FirstLongest(modules[..k], norm, best)
    ensures FirstLongest(modules[..k + 1], norm,
              if Matches(norm, modules[k]) && (best.None? || |modules[k]| > |best.value|) then Some(modules[k]) else best)
  {
    var m := modules[k];
    assert modules[..k + 1] == modules[..k] + [m];
    if Matches(norm, m) && (best.None? || |m| > |best.value|) {
      LongestReplaced(modules[..k], norm, best, m);
    } else if best.Some? {
      var i :| FirstLongestAt(modules[..k], norm, best.value, i);
      LongestKept(modules[..k], norm, best.value, i, m);
    }
  }

  ghost predicate DistinctNorms(modules: seq<string>) {
    forall a, b :: a in modules && b in modules && Norm(a) == Norm(b) ==> a == b
  }

  /** Two names of one length that match the same tool have the same normal form. */
  lemma MatchOfLength(norm: string, a: string, b: string)
    requires Matches(norm, a) && Matches(norm, b) && |a| == |b|
    ensures Norm(a) == Norm(b)
  {
    assert Norm(a) == norm[..|a|] by { if norm != Norm(a) { assert (Norm(a) + "_")[..|a|] == Norm(a); } }
    assert Norm(b) == norm[..|b|] by { if norm != Norm(b) { assert (Norm(b) + "_")[..|b|] == Norm(b); } }
  }

  /** When names stay distinct after normalisation, the module found does not depend on the order of
      the listing, nor on which spelling the tool name used; and every other match is shorter. */
  lemma ResolutionUnique(modules: seq<string>, relisted: seq<string>, tool: string, respelled: string, a: Option<string>, b: Option<string>)
    requires DistinctNorms(modules) && forall m :: m in modules <==> m in relisted
    requires SYSMOD <= tool && SYSMOD <= respelled && Norm(tool[|SYSMOD|..]) == Norm(respelled[|SYSMOD|..])
    requires FirstLongest(modules, Norm(tool[|SYSMOD|..]), a)
    requires FirstLongest(relisted, Norm(respelled[|SYSMOD|..]), b)
    ensures a == b
    ensures a.Some? ==> a.value in modules
    ensures a.Some? ==> forall m :: m in modules && m != a.value && Matches(Norm(tool[|SYSMOD|..]), m) ==> |m| < |a.value|
  {
    var norm := Norm(tool[|SYSMOD|..]);
    if a.Some? {
      LongestBound(modules, norm, a.value);
      if b.Some? {
        LongestBound(relisted, norm, b.value);
        MatchOfLength(norm, a.value, b.value);
      }
      forall m | m in modules && m != a.value && Matches(norm, m) ensures |m| < |a.value| {
        if |m| == |a.value| { MatchOfLength(norm, m, a.value); }
      }
    } else if b.Some? {
      LongestBound(relisted, norm, b.value);
    }
  }

  lemma LongestBound(modules: seq<string>, norm: string, best: string)
    requires FirstLongest(modules, norm, Some(best))
    ensures best in modules && Matches(norm, best)
    ensures forall m :: m in modules && Matches(norm, m) ==> |m| <= |best|
  {
    var i :| FirstLongestAt(modules, norm, best, i);
    forall m | m in modules && Matches(norm, m) ensures |m| <= |best| {
      var j :| 0 <= j < |modules| && modules[j] == m;
    }
  }

  /** `m` is among the modules, matches, and no match is longer. */
  ghost predicate LongestMatch(modules: seq<string>, norm: string, m: string) {
    && m in modules && Matches(norm, m)
    && forall n :: n in modules && Matches(norm, n) ==> |n| <= |m|
  }

  /** The listing with its `i`-th module in front. */
  function InFront(modules: seq<string>, i: nat): (s: seq<string>)
    requires i < |modules|
    ensures multiset(s) == multiset(modules)
  {
    assert modules == modules[..i] + [modules[i]] + modules[i + 1..];
    [modules[i]] + (modules[..i] + modules[i + 1..])
  }

  lemma SameMembers(a: seq<string>, b: seq<string>)
    requires multiset(a) == multiset(b)
    ensures forall m :: m in a <==> m in b
  {
    forall m ensures m in a <==> m in b {
      assert m in a <==> m in multiset(a);
      assert m in b <==> m in multiset(b);
    }
  }

  /** Whatever matches longest is found when it is listed first. */
  lemma FrontWins(modules: seq<string>, norm: string, i: nat)
    requires i < |modules| && LongestMatch(modules, norm, modules[i])
    ensures FirstLongest(InFront(modules, i), norm, Some(modules[i]))
  {
    var listed := InFront(modules, i);
    SameMembers(listed, modules);
    forall j | 0 <= j < |listed| && Matches(norm, listed[j]) ensures |listed[j]| <= |modules[i]| { assert listed[j] in listed; }
    assert FirstLongestAt(listed, norm, modules[i], 0);
  }

  lemma ResultIsLongest(modules: seq<string>, listed: seq<string>, norm: string, a: string)
    requires multiset(listed) == multiset(modules) && FirstLongest(listed, norm, Some(a))
    ensures LongestMatch(modules, norm, a)
  {
    LongestBound(listed, norm, a);
    SameMembers(listed, modules);
  }

  /** The same modules in the order of `listed` resolve to `found`. */
  ghost predicate Relisting(modules: seq<string>, listed: seq<string>, norm: string, found: Option<string>) {
    multiset(listed) == multiset(modules) && FirstLongest(listed, norm, found)
  }

  /** All relistings of the modules resolve alike, if and only if no two different modules match
      longest. */
  lemma SameNormFirstWins(modules: seq<string>, norm: string)
    ensures (forall s, t, a, b :: Relisting(modules, s, norm, a) && Relisting(modules, t, norm, b) ==> a == b)
            <==> forall m, n :: LongestMatch(modules, norm, m) && LongestMatch(modules, norm, n) ==> m == n
  {
    if m, n :| LongestMatch(modules, norm, m) && LongestMatch(modules, norm, n) && m != n {
      var i :| 0 <= i < |modules| && modules[i] == m;
      var j :| 0 <= j < |modules| && modules[j] == n;
      FrontWins(modules, norm, i);
      FrontWins(modules, norm, j);
      assert Relisting(modules, InFront(modules, i), norm, Some(m)) && Relisting(modules, InFront(modules, j), norm, Some(n));
    } else {
      forall s, t, a, b | Relisting(modules, s, norm, a) && Relisting(modules, t, norm, b) ensures a == b {
        SameMembers(s, modules);
        SameMembers(t, modules);
        if a.Some? { ResultIsLongest(modules, s, norm, a.value); }
        if b.Some? { ResultIsLongest(modules, t, norm, b.value); }
      }
    }
  }

  /** Two longest matches have one normal form, so names distinct after normalisation have no two. */
  lemma LongestSameNorm(modules: seq<string>, norm: string, m: string, n: string)
    requires LongestMatch(modules, norm, m) && LongestMatch(modules, norm, n)
    ensures Norm(m) == Norm(n)
  {
    MatchOfLength(norm, m, n);
  }

  // ---- routing an internal call ----

  datatype Route = ToModule(name: string) | Turned(refusal: Refusal) | ToTools

  /** Where `run_internal_tool` sends a call once the name has been resolved. */
  function RouteOf(y: Policy, resolved: Option<string>, action: string): Route {
    match resolved
    case None => ToTools
    case Some(name) => (match SysmodGate(y, name, action) case Some(refusal) => Turned(refusal) case None => ToModule(name))
  }

  /** A `sysmod_` name reaches its module exactly when the module's config cannot be read or the action
      is neither screen-only outside a confirmed screen action nor approval-gated outside cron and
      confirmed screen actions; whichever spelling of the name is used, with a domain behind it or
      without. */
  lemma GatedActionTurned(y: Policy, modules: seq<string>, tool: string, best: Option<string>, m: string, action: string)
    requires DistinctNorms(modules)
    requires "sysmod_" <= tool && FirstLongest(modules, Norm(tool[7..]), best)
    requires LongestMatch(modules, Norm(tool[7..]), m)
    ensures var cfg := y.config("system", m);
            RouteOf(y, best, action) == ToModule(m) <==>
              (y.wired && cfg.Some? ==>
                && !OffScreen(y, cfg.value, m, action)
                && ((action in y.approvalRows(m) || Covers(cfg.value.requiresApproval, action)) ==> y.uiConfirmed || y.cron))
    ensures RouteOf(y, best, action) != ToModule(m) ==> RouteOf(y, best, action).Turned?
  {
    var norm := Norm(tool[7..]);
    ResultIsLongest(modules, modules, norm, best.value);
    LongestSameNorm(modules, norm, m, best.value);
  }

  /** A name matches a module exactly when it is the module's in some spelling, alone or with an
      underscore and a domain behind it. */
  lemma DomainMatches(spelled: string, m: string)
    ensures Matches(Norm(spelled), m) <==>
              Norm(spelled) == Norm(m) || exists domain :: Norm(spelled) == Norm(m) + "_" + domain
  {
    if Norm(m) + "_" <= Norm(spelled) {
      assert Norm(spelled) == Norm(m) + "_" + Norm(spelled)[|m| + 1..];
    }
  }

  // ---- MCP names ----

  predicate HasDouble(s: string) {
    exists i :: 0 <= i < |s| - 1 && s[i] == '_' && s[i + 1] == '_'
  }

  /** The first "__" in a string that has one. */
  function FirstDouble(s: string): (i: nat)
    requires HasDouble(s)
    ensures i < |s| - 1 && s[i] == '_' && s[i + 1] == '_'
    ensures forall j :: 0 <= j < i ==> !(s[j] == '_' && s[j + 1] == '_')
  {
    if s[0] == '_' && s[1] == '_' then 0
    else
      var k :| 0 <= k < |s| - 1 && s[k] == '_' && s[k + 1] == '_';
      assert s[1..][k - 1] == '_' && s[1..][k] == '_';
      assert forall j :: 0 <= j < |s| - 1 ==> s[1..][j] == s[j + 1];
      1 + FirstDouble(s[1..])
  }

  const MCP := "mcp__"

  function SplitMcpName(server: string, tool: string): (string, string) {
    if MCP <= tool && HasDouble(tool[|MCP|..]) then
      var rest := tool[|MCP|..];
      var i := FirstDouble(rest);
      if rest[..i] != "" && rest[i + 2..] != "" then (rest[..i], rest[i + 2..]) else (server, tool)
    else (server, tool)
  }

  /** A combined name comes apart into the server and the tool it was made of, exactly when neither
      is empty and the server has no double underscore and does not end in one underscore. */
  lemma SplitRoundTrip(server: string, s: string, t: string)
    ensures SplitMcpName(server, "mcp__" + s + "__" + t) == (s, t) <==> s != "" && t != "" && !HasDouble(s + "_")
  {
    var tool := "mcp__" + s + "__" + t;
    var rest := tool[|MCP|..];
    assert rest == s + "__" + t;
    assert rest[|s|] == '_' && rest[|s| + 1] == '_';
    assert HasDouble(rest);
    var i := FirstDouble(rest);
    assert i <= |s|;
    assert |tool| > |t|;
    assert (s + "_")[..] == rest[..|s| + 1];
    if i < |s| {
      assert |rest[..i]| != |s|;
    } else {
      assert rest[..i] == s && rest[i + 2..] == t;
    }
  }

  /** The name is made of this server and this tool. */
  ghost predicate Combines(name: string, s: string, t: string) {
    name == "mcp__" + s + "__" + t && s != "" && t != "" && !HasDouble(s + "_")
  }

  /** Any name that is not so made, with or without "mcp__" in front, leaves the pair as it was. */
  lemma OtherNamesKept(server: string, tool: string)
    requires forall s, t :: !Combines(tool, s, t)
    ensures SplitMcpName(server, tool) == (server, tool)
  {
    if "mcp__" <= tool && HasDouble(tool[5..]) {
      var rest := tool[5..];
      var i := FirstDouble(rest);
      var s, t := rest[..i], rest[i + 2..];
      assert tool == "mcp__" + s + "__" + t;
      assert s + "_" == rest[..i + 1];
      assert Combines(tool, s, t) <==> s != "" && t != "";
    }
  }
}
