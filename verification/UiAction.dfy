/** A screen action a person confirmed (core/src/core_facade.rs): the module decides, the listed
    calls are placed one by one, and the book is told what each answered, position by position. */
module UiAction {
  import opened Wrappers

  /** One entry of the decision's `calls`: the module it names, if any, and its input. */
  datatype Placement = Placement(target: Option<string>, input: Option<string>)

  datatype Data = Data(calls: seq<Placement>, text: string)

  datatype Answer =
    | Ran(success: bool, data: Data, error: Option<string>)
    | Failed(message: string)

  datatype Result = Answered(data: Data) | Refused(error: string)

  /** The input of a module run: the action itself, one placed call, or the report to the book. */
  datatype Input =
    | Decide(action: string, args: string)
    | Place(input: string)
    | RecordOrders(calls: seq<Placement>, results: seq<Result>, store: string)

  datatype Run = Run(target: string, input: Input)

  // Module runs answer as they like; the position of the run in the log tells repeated runs apart.
  type Port = (nat, Run) -> Answer

  datatype Outcome =
    | Undecided(error: Option<string>)
    | NothingToPlace(decided: Data)
    | Placed(success: bool, decided: Data, placed: nat, recorded: Data, error: Option<string>)
    | Error(message: string)

  /** How many of the first `i` calls name a module. */
  function Named(calls: seq<Placement>, i: nat): nat
    requires i <= |calls|
  {
    if i == 0 then 0 else Named(calls, i - 1) + if calls[i - 1].target.Some? then 1 else 0
  }

  /** What a call that names a module places: its own input, an empty object when it has none. */
  ghost predicate Places(c: Placement, r: Run) {
    && c.target == Some(r.target) && r.input.Place?
    && (if c.input.Some? then r.input.input == c.input.value else r.input.input == "{}")
  }

  /** Run `Named(calls, i)` is what call `i` places. */
  ghost predicate PlacedAt(calls: seq<Placement>, runs: seq<Run>, i: nat)
    requires i < |calls|
  {
    Named(calls, i) < |runs| && Places(calls[i], runs[Named(calls, i)])
  }

  ghost predicate CausedBy(calls: seq<Placement>, r: nat, i: nat) {
    i < |calls| && calls[i].target.Some? && Named(calls, i) == r
  }

  ghost predicate Caused(calls: seq<Placement>, r: nat) {
    exists i :: CausedBy(calls, r, i)
  }

  /** The runs are those of the calls that name a module, each call's behind those of the calls before
      it, and there is no other. */
  ghost predicate AllPlaced(calls: seq<Placement>, runs: seq<Run>) {
    && (forall i :: 0 <= i < |calls| && calls[i].target.Some? ==> PlacedAt(calls, runs, i))
    && (forall r :: 0 <= r < |runs| ==> Caused(calls, r))
  }

  /** What the book is told of a call: the data of its run, or why there is none. */
  ghost predicate Tells(answer: Answer, result: Result) {
    match answer
    case Ran(true, data, _) => result == Answered(data)
    case Ran(false, _, Some(error)) => result == Refused(error)
    case Ran(false, _, None) => result == Refused("broker refused")
    case Failed(message) => result == Refused(message)
  }

  /** Result `i` tells the answer to the run that call `i` itself caused. The decision comes before the
      runs in the log. */
  ghost predicate PairedAt(port: Port, calls: seq<Placement>, runs: seq<Run>, results: seq<Result>, i: nat)
    requires i < |calls| && i < |results|
  {
    if calls[i].target.Some? then PlacedAt(calls, runs, i) && Tells(port(1 + Named(calls, i), runs[Named(calls, i)]), results[i])
    else results[i] == Refused("call has no module")
  }

  /** One result per call, in the same positions. */
  ghost predicate Paired(port: Port, calls: seq<Placement>, runs: seq<Run>, results: seq<Result>) {
    && |results| == |calls| && AllPlaced(calls, runs)
    && forall i :: 0 <= i < |calls| ==> PairedAt(port, calls, runs, results, i)
  }

  /** The book's report closes the log, after exactly the runs the calls gave rise to. */
  ghost predicate Reported(port: Port, target: string, store: string, decided: Data, runs: seq<Run>, results: seq<Result>, outcome: Outcome, log: seq<Run>)
    requires log != []
  {
    && log == [log[0]] + runs + [Run(target, RecordOrders(decided.calls, results, store))]
    && match port(|log| - 1, log[|log| - 1])
       case Failed(message) => outcome == Error(message)
       case Ran(success, recorded, error) => outcome == Outcome.Placed(success, decided, |decided.calls|, recorded, error)
  }

  lemma {:induction false} RunIsCaused(calls: seq<Placement>, n: nat, r: nat) returns (i: nat)
    requires n <= |calls| && r < Named(calls, n)
    ensures CausedBy(calls, r, i)
    decreases n
  {
    if r < Named(calls, n - 1) { i := RunIsCaused(calls, n - 1, r); } else { i := n - 1; }
  }

  /** The first `n` calls are done. */
  ghost predicate PairedUpTo(port: Port, calls: seq<Placement>, runs: seq<Run>, results: seq<Result>, n: nat)
    requires n <= |calls|
  {
    && |runs| == Named(calls, n) && |results| == n
    && forall i :: 0 <= i < n ==> PairedAt(port, calls, runs, results, i)
  }

  lemma PairedKept(port: Port, calls: seq<Placement>, runs: seq<Run>, results: seq<Result>, more: seq<Run>, result: Result, i: nat)
    requires i < |calls| && i < |results| && PairedAt(port, calls, runs, results, i)
    ensures PairedAt(port, calls, runs + more, results + [result], i)
  {
  }

  /** One more call: a refusal without a run, or a run and what its answer tells. */
  lemma PairedStep(port: Port, calls: seq<Placement>, runs: seq<Run>, results: seq<Result>, n: nat, more: seq<Run>, result: Result)
    requires n < |calls| && PairedUpTo(port, calls, runs, results, n)
    requires if calls[n].target.Some? then |more| == 1 && Places(calls[n], more[0]) && Tells(port(1 + |runs|, more[0]), result)
             else more == [] && result == Refused("call has no module")
    ensures PairedUpTo(port, calls, runs + more, results + [result], n + 1)
  {
    forall i | 0 <= i < n ensures PairedAt(port, calls, runs + more, results + [result], i) {
      PairedKept(port, calls, runs, results, more, result, i);
    }
    assert PairedAt(port, calls, runs + more, results + [result], n);
  }

  /** One result per call, in the same positions; the runs follow the decision in the log. */
  method PlaceAll(port: Port, calls: seq<Placement>) returns (results: seq<Result>, runs: seq<Run>)
    ensures Paired(port, calls, runs, results)
  {
    results, runs := [], [];
    for i := 0 to |calls|
      invariant PairedUpTo(port, calls, runs, results, i)
    {
      var c := calls[i];
      if c.target.None? {
        PairedStep(port, calls, runs, results, i, [], Refused("call has no module"));
        assert runs + [] == runs;
        results := results + [Refused("call has no module")];
        continue;
      }
      var run := Run(c.target.value, Place(if c.input.Some? then c.input.value else "{}"));
      var answer := port(1 + |runs|, run);
      var result;
      match answer {
        case Ran(success, data, error) =>
          if success {
            result := Answered(data);
          } else {
            result := Refused(if error.Some? then error.value else "broker refused");
          }
        case Failed(message) =>
          result := Refused(message);
      }
      PairedStep(port, calls, runs, results, i, [run], result);
      runs, results := runs + [run], results + [result];
    }
    forall i | 0 <= i < |calls| && calls[i].target.Some? ensures PlacedAt(calls, runs, i) {
      assert PairedAt(port, calls, runs, results, i);
    }
    forall r | 0 <= r < |runs| ensures Caused(calls, r) {
      var i := RunIsCaused(calls, |calls|, r);
    }
  }

  method RunUiAction(port: Port, target: string, action: string, args: string, store: string)
    returns (outcome: Outcome, log: seq<Run>)
    ensures |log| >= 1 && log[0] == Run(target, Decide(action, args))
    ensures match port(0, log[0])
            case Failed(message) => outcome == Error(message) && |log| == 1
            case Ran(false, _, error) => outcome == Undecided(error) && |log| == 1
            case Ran(true, data, _) =>
              if data.calls == [] then outcome == NothingToPlace(data) && |log| == 1
              else exists runs, results ::
                Paired(port, data.calls, runs, results) && Reported(port, target, store, data, runs, results, outcome, log)
  {
    log := [Run(target, Decide(action, args))];
    var decided := port(0, log[0]);
    if decided.Failed? {
      return Error(decided.message), log;
    }
    if !decided.success {
      return Undecided(decided.error), log;
    }
    var calls := decided.data.calls;
    if calls == [] {
      return NothingToPlace(decided.data), log;
    }
    var results, placed := PlaceAll(port, calls);
    log := log + placed;
    var record := Run(target, RecordOrders(calls, results, store));
    var answer := port(|log|, record);
    log := log + [record];
    match answer {
      case Failed(message) => outcome := Error(message);
      case Ran(success, recorded, error) => outcome := Outcome.Placed(success, decided.data, |calls|, recorded, error);
    }
    assert Reported(port, target, store, decided.data, placed, results, outcome, log);
  }
}
