/**
 * The routine executor: a routine builds its ordered step list from stored
 * records through the registry, validates into an ordered error list, and
 * runs its steps strictly in order under a process-wide try-acquire lock,
 * checking its stop flag before each step and releasing the lock on every
 * exit path.
 *
 * The class-level lock and "currently running" name are an explicit shared
 * `Engine` object. Concurrency is not modelled: a `stop()` that another
 * thread issues while the routine runs is the argument `cancel` (it lands
 * just before the check of step `k`). An exception escaping a step comes
 * from the step itself (a configuration that is not a dictionary) or, for
 * causes outside the model, from the argument `raiseAt`.
 */
module RoutineExecutor {
  import opened Wrappers
  import opened Values
  import opened RoutineSteps
  import Text

  /** A stored step record: a dictionary holding `type` and `config`. */
  type StepRecord = map<string, Value>

  /** `step_config.get("config", {})`, the value handed to the step. */
  function ConfigOf(rec: StepRecord): Value {
    GetOr(rec, "config", Dict(map[]))
  }

  /** Creating the step of this record raises: its tag is a list or a dictionary. */
  predicate CreateRaises(rec: StepRecord) {
    CreateStep(Get(rec, "type"), ConfigOf(rec)).Err?
  }

  /** `_build_steps` raises on some record, and so does the constructor. */
  predicate BuildRaises(records: seq<StepRecord>) {
    exists j :: 0 <= j < |records| && CreateRaises(records[j])
  }

  /** The step one record contributes: its registered variant, or nothing. A
      record whose creation raises contributes nothing here; `BuildRaises`
      says when that happens, and no routine is built then. */
  function BuildOne(rec: StepRecord): seq<Step> {
    match CreateStep(Get(rec, "type"), ConfigOf(rec))
    case Ok(Some(st)) => [st]
    case _ => []
  }

  /** The steps `_build_steps` produces from a list of records. */
  function BuildSpec(records: seq<StepRecord>): (steps: seq<Step>)
    ensures |steps| <= |records|
  {
    if records == [] then []
    else BuildSpec(records[..|records| - 1]) + BuildOne(records[|records| - 1])
  }

  predicate IsRegistered(rec: StepRecord) {
    "type" in rec && rec["type"].Str? && rec["type"].s in Registry()
  }

  /** A single record yields its step exactly when its type is registered. */
  lemma {:induction false} BuildSingle(rec: StepRecord)
    ensures IsRegistered(rec) ==> BuildSpec([rec]) == [Step(Registry()[rec["type"].s], KeptConfig(ConfigOf(rec)), false)]
    ensures !IsRegistered(rec) ==> BuildSpec([rec]) == []
    ensures BuildRaises([rec]) <==> "type" in rec && (rec["type"].List? || rec["type"].Dict?)
  {
    assert [rec][..0] == [];
  }

  /** Dropping the last element of a concatenation with a non-empty right part. */
  lemma {:induction false} SnocSplit<T>(a: seq<T>, b: seq<T>)
    requires b != []
    ensures (a + b)[..|a + b| - 1] == a + b[..|b| - 1] && (a + b)[|a + b| - 1] == b[|b| - 1]
  {
  }

  /** Extending a prefix by one element. */
  lemma {:induction false} PrefixSnoc<T>(s: seq<T>, i: nat)
    requires i < |s|
    ensures s[..i + 1][..i] == s[..i] && s[..i + 1][i] == s[i]
  {
  }

  /** One more record contributes its own step, if any, at the end. */
  lemma {:induction false} BuildSnoc(records: seq<StepRecord>, i: nat)
    requires i < |records|
    ensures BuildSpec(records[..i + 1]) == BuildSpec(records[..i]) + BuildOne(records[i])
  {
    PrefixSnoc(records, i);
  }

  lemma {:induction false} ConcatAssoc<T>(a: seq<T>, b: seq<T>, c: seq<T>)
    ensures a + b + c == a + (b + c)
  {
  }

  /** Building distributes over concatenation, so relative order is kept. */
  lemma {:induction false} BuildConcat(a: seq<StepRecord>, b: seq<StepRecord>)
    ensures BuildSpec(a + b) == BuildSpec(a) + BuildSpec(b)
    decreases |b|
  {
    if b == [] {
      assert a + b == a;
    } else {
      var b' := b[..|b| - 1];
      var x := b[|b| - 1];
      SnocSplit(a, b);
      BuildConcat(a, b');
      assert BuildSpec(a + b) == BuildSpec(a + b') + BuildOne(x);
      assert BuildSpec(b) == BuildSpec(b') + BuildOne(x);
      ConcatAssoc(BuildSpec(a), BuildSpec(b'), BuildOne(x));
    }
  }

  /** Unregistered records are dropped: the built list is as long as the
      number of registered records. */
  lemma {:induction false} BuildCount(records: seq<StepRecord>)
    ensures |BuildSpec(records)| == |set j | 0 <= j < |records| && IsRegistered(records[j])|
  {
    if records != [] {
      var n := |records| - 1;
      var init := records[..n];
      BuildCount(init);
      RegisteredSnoc(records);
      assert BuildSpec(records) == BuildSpec(init) + BuildOne(records[n]);
    }
  }

  /** The registered positions of a list: those of all but its last record,
      plus the last one when it is registered. */
  lemma {:induction false} RegisteredSnoc(records: seq<StepRecord>)
    requires records != []
    ensures var n := |records| - 1;
            (set j | 0 <= j < |records| && IsRegistered(records[j])) ==
            (set j | 0 <= j < n && IsRegistered(records[..n][j])) +
            (if IsRegistered(records[n]) then {n} else {})
  {
    var n := |records| - 1;
    assert forall j :: 0 <= j < n ==> records[..n][j] == records[j];
  }

  /** `stop()` applied to every step. */
  function AllStopped(steps: seq<Step>): (r: seq<Step>)
    ensures |r| == |steps|
    ensures forall j :: 0 <= j < |r| ==> r[j] == Stop(steps[j])
  {
    seq(|steps|, j requires 0 <= j < |steps| => Stop(steps[j]))
  }

  /** The indices 0, 1, ..., m - 1, in order. */
  function Indices(m: nat): (r: seq<nat>)
    ensures |r| == m && forall j :: 0 <= j < m ==> r[j] == j
  {
    seq(m, j requires 0 <= j < m => j as nat)
  }

  lemma {:induction false} IndicesSnoc(m: nat)
    ensures Indices(m) + [m] == Indices(m + 1)
  {
  }

  // ------------------------------------------------------------- validation

  function StepError(k: nat, kind: Kind, msg: string): string {
    "Step " + Text.NatToString(k) + " (" + ClassName(kind) + "): " + msg
  }

  /** No step's `validate_config` raises. */
  predicate NoneRaise(steps: seq<Step>) {
    forall j :: 0 <= j < |steps| ==> !ValidateRaises(steps[j])
  }

  /** The per-step part of `validate()`, numbering the built steps from 1. */
  function StepErrors(steps: seq<Step>, fileExists: Value -> bool): seq<string>
    requires NoneRaise(steps)
  {
    if steps == [] then []
    else
      var last := steps[|steps| - 1];
      StepErrors(steps[..|steps| - 1], fileExists) +
      match ValidateConfig(last, fileExists)
      case None => []
      case Some(msg) => [StepError(|steps|, last.kind, msg)]
  }

  /** One more step adds its own error, if any, at the end. */
  lemma {:induction false} StepErrorsSnoc(head: seq<string>, steps: seq<Step>, i: nat, fileExists: Value -> bool)
    requires i < |steps| && NoneRaise(steps[..i + 1])
    ensures head + StepErrors(steps[..i + 1], fileExists) ==
            head + StepErrors(steps[..i], fileExists) +
            match ValidateConfig(steps[i], fileExists)
            case None => []
            case Some(msg) => [StepError(i + 1, steps[i].kind, msg)]
  {
    PrefixSnoc(steps, i);
  }

  /** One more step that does not raise keeps the prefix free of raising steps. */
  lemma {:induction false} NoneRaiseSnoc(steps: seq<Step>, i: nat)
    requires i < |steps| && NoneRaise(steps[..i]) && !ValidateRaises(steps[i])
    ensures NoneRaise(steps[..i + 1])
  {
    assert forall j :: 0 <= j < i ==> steps[..i + 1][j] == steps[..i][j];
  }

  const NameRequired := "Routine name is required"
  const StepRequired := "Routine must have at least one step"

  /** The error list `validate()` returns. */
  function ValidationErrors(name: string, records: seq<StepRecord>, steps: seq<Step>,
                            fileExists: Value -> bool): seq<string>
    requires NoneRaise(steps)
  {
    (if name == "" then [NameRequired] else []) +
    (if records == [] then [StepRequired] else []) +
    StepErrors(steps, fileExists)
  }

  /** No step error exactly when every built step passes its own check. */
  lemma {:induction false} StepErrorsEmpty(steps: seq<Step>, fileExists: Value -> bool)
    requires NoneRaise(steps)
    ensures StepErrors(steps, fileExists) == [] <==>
            forall j :: 0 <= j < |steps| ==> ValidateConfig(steps[j], fileExists).None?
  {
    if steps != [] {
      var init := steps[..|steps| - 1];
      StepErrorsEmpty(init, fileExists);
      assert forall j :: 0 <= j < |init| ==> init[j] == steps[j];
    }
  }

  /** A routine validates exactly when it has a name, at least one step
      record, and every built step is valid. */
  lemma {:induction false} ValidIff(name: string, records: seq<StepRecord>, steps: seq<Step>, fileExists: Value -> bool)
    requires NoneRaise(steps)
    ensures ValidationErrors(name, records, steps, fileExists) == [] <==>
            name != "" && records != [] &&
            forall j :: 0 <= j < |steps| ==> ValidateConfig(steps[j], fileExists).None?
  {
    StepErrorsEmpty(steps, fileExists);
  }

  /** The name error comes first, then the missing-steps error. */
  lemma {:induction false} ErrorOrder(name: string, records: seq<StepRecord>, steps: seq<Step>, fileExists: Value -> bool)
    requires NoneRaise(steps)
    ensures name == "" ==> ValidationErrors(name, records, steps, fileExists)[0] == NameRequired
    ensures name == "" && records == [] ==> ValidationErrors(name, records, steps, fileExists)[1] == StepRequired
    ensures name != "" && records == [] ==> ValidationErrors(name, records, steps, fileExists)[0] == StepRequired
  {
  }

  /** The emptiness check looks at the records, not the built steps: a named
      routine whose records all have unknown types is valid. */
  lemma {:induction false} OnlyUnknownTypesIsValid(name: string, records: seq<StepRecord>, fileExists: Value -> bool)
    requires name != "" && records != [] && !BuildRaises(records)
    requires forall j :: 0 <= j < |records| ==> !IsRegistered(records[j])
    ensures BuildSpec(records) == []
    ensures ValidationErrors(name, records, BuildSpec(records), fileExists) == []
  {
    NoneRegistered(records);
  }

  lemma {:induction false} NoneRegistered(records: seq<StepRecord>)
    requires forall j :: 0 <= j < |records| ==> !IsRegistered(records[j])
    ensures BuildSpec(records) == []
  {
    if records != [] {
      var init := records[..|records| - 1];
      assert forall j :: 0 <= j < |init| ==> init[j] == records[j];
      NoneRegistered(init);
    }
  }

  // --------------------------------------------------------------- running

  /** How far a run gets: how many steps had `execute` invoked, how many
      returned, and whether a stop request landed inside the loop. */
  datatype Progress = Progress(invoked: nat, returned: nat, cancelled: bool)

  /** The run of `_execute` over `n` steps, given the stop flag at entry, a
      stop request landing before step `cancel`, and a step raising at `raiseAt`. */
  function RunProgress(n: nat, stopAtEntry: bool, cancel: Option<nat>, raiseAt: Option<nat>): (p: Progress)
    ensures p.returned <= p.invoked <= n
  {
    var firstStop := if stopAtEntry then 0 else if cancel.Some? && cancel.value < n then cancel.value else n;
    var raisedFirst := raiseAt.Some? && raiseAt.value < firstStop;
    if raisedFirst then Progress(raiseAt.value + 1, raiseAt.value, false)
    else Progress(firstStop, firstStop, firstStop < n && cancel == Some(firstStop))
  }

  /** A stop request before step k leaves every step from k on uninvoked. */
  lemma {:induction false} CancellationBoundary(n: nat, stopAtEntry: bool, k: nat, raiseAt: Option<nat>)
    ensures RunProgress(n, stopAtEntry, Some(k), raiseAt).invoked <= k
  {
  }

  /** A routine stopped before it starts runs no step. */
  lemma {:induction false} StoppedBeforeStart(n: nat, cancel: Option<nat>, raiseAt: Option<nat>)
    ensures RunProgress(n, true, cancel, raiseAt).invoked == 0
  {
  }

  /** Undisturbed, every step is invoked and returns, whatever the steps return. */
  lemma {:induction false} UndisturbedRunsAll(n: nat)
    ensures RunProgress(n, false, None, None) == Progress(n, n, false)
  {
  }

  /** Where the first exception escapes a step, looking from step `from` on:
      the step `raiseAt` names, or a step whose own `execute` raises. */
  function RaisePoint(steps: seq<Step>, raiseAt: Option<nat>, from: nat): (r: Option<nat>)
    ensures r.Some? ==> from <= r.value < |steps|
    decreases |steps| - from
  {
    if from >= |steps| then None
    else if raiseAt == Some(from) || ExecuteRaises(steps[from]) then Some(from)
    else RaisePoint(steps, raiseAt, from + 1)
  }

  /** The raise point is the first step from `from` on that raises, if any. */
  lemma {:induction false} RaisePointFirst(steps: seq<Step>, raiseAt: Option<nat>, from: nat)
    ensures var r := RaisePoint(steps, raiseAt, from);
            && (r.Some? ==> raiseAt == Some(r.value) || ExecuteRaises(steps[r.value]))
            && (forall j :: from <= j < (if r.Some? then r.value else |steps|) ==>
                  raiseAt != Some(j) && !ExecuteRaises(steps[j]))
    decreases |steps| - from
  {
    if from < |steps| && raiseAt != Some(from) && !ExecuteRaises(steps[from]) {
      RaisePointFirst(steps, raiseAt, from + 1);
    }
  }

  /** The steps after the first `n` have returned: a step whose `execute`
      called its own `stop()` (a timed alarm) is left stopped. */
  function SelfStops(steps: seq<Step>, fileExists: Value -> bool, world: nat -> External, n: nat): (r: seq<Step>)
    requires n <= |steps|
    ensures |r| == |steps|
    decreases n
  {
    if n == 0 then steps
    else
      var prev := SelfStops(steps, fileExists, world, n - 1);
      if StopsItself(steps[n - 1], fileExists, world(n - 1))
      then prev[n - 1 := Stop(steps[n - 1])]
      else prev
  }

  /** Step `j` ends stopped by itself exactly when it returned and its run
      stopped it; every other step is as it was. */
  lemma {:induction false} SelfStopsAt(steps: seq<Step>, fileExists: Value -> bool, world: nat -> External,
                                       n: nat, j: nat)
    requires n <= |steps| && j < |steps|
    ensures SelfStops(steps, fileExists, world, n)[j] ==
            if j < n && StopsItself(steps[j], fileExists, world(j))
            then Stop(steps[j]) else steps[j]
    decreases n
  {
    if n > 0 {
      SelfStopsAt(steps, fileExists, world, n - 1, j);
    }
  }

  /** Stopping every step afterwards erases the difference self-stops made. */
  lemma {:induction false} SelfStopsAllStopped(steps: seq<Step>, fileExists: Value -> bool, world: nat -> External,
                                               n: nat)
    requires n <= |steps|
    ensures AllStopped(SelfStops(steps, fileExists, world, n)) == AllStopped(steps)
  {
    var a := AllStopped(SelfStops(steps, fileExists, world, n));
    forall j | 0 <= j < |steps|
      ensures a[j] == AllStopped(steps)[j]
    {
      SelfStopsAt(steps, fileExists, world, n, j);
      StopIdempotent(steps[j]);
    }
  }

  /** The loop of `_execute()` over the step list: before each step the stop
      flag is checked (it is raised at entry when `stopAtEntry`, and by a stop
      request landing just before the check of step `cancel`); a step that
      reports failure does not end the run, one that raises (`RaisePoint`) does. The results
      are the indices of the steps invoked, what each returning step returned,
      whether a stop request landed inside the loop, and the steps as the run
      left them (`SelfStops`). */
  method RunSteps(steps: seq<Step>, stopAtEntry: bool, fileExists: Value -> bool, world: nat -> External,
                  cancel: Option<nat>, raiseAt: Option<nat>)
    returns (invoked: seq<nat>, results: seq<bool>, cancelled: bool, after: seq<Step>)
    ensures var p := RunProgress(|steps|, stopAtEntry, cancel, RaisePoint(steps, raiseAt, 0));
            invoked == Indices(p.invoked) && |results| == p.returned && cancelled == p.cancelled
    ensures forall j :: 0 <= j < |results| ==> results[j] == RoutineSteps.Execute(steps[j], fileExists, world(j)).ok
    ensures |results| <= |steps| && after == SelfStops(steps, fileExists, world, |results|)
  {
    ghost var raised := RaisePoint(steps, raiseAt, 0);
    ghost var p := RunProgress(|steps|, stopAtEntry, cancel, raised);
    invoked := [];
    results := [];
    cancelled := false;
    after := steps;
    var stopFlag := stopAtEntry;
    var i := 0;
    while i < |steps|
      invariant 0 <= i <= |steps| && !cancelled && stopFlag == stopAtEntry && (stopAtEntry ==> i == 0)
      invariant raised == RaisePoint(steps, raiseAt, i)
      invariant i <= p.invoked && (raised.None? || i <= raised.value) && (cancel.None? || i <= cancel.value)
      invariant invoked == Indices(i) && |results| == i && after == SelfStops(steps, fileExists, world, i)
      invariant forall j {:trigger results[j]} :: 0 <= j < i ==> results[j] == RoutineSteps.Execute(steps[j], fileExists, world(j)).ok
    {
      if cancel == Some(i) {
        stopFlag := true;
        cancelled := true;
      }
      if stopFlag {
        break;
      }
      var run := RoutineSteps.Execute(steps[i], fileExists, world(i));
      IndicesSnoc(i);
      invoked := invoked + [i];
      if raiseAt == Some(i) || run.raised {
        break;
      }
      Returned(results, after, steps, i, fileExists, world);
      results := results + [run.ok];
      if run.selfStopped {
        after := after[i := Stop(steps[i])];
      }
      i := i + 1;
    }
  }

  /** One more returning step appends what its `execute` returned, and is
      left stopped when its run stopped it. */
  lemma {:induction false} Returned(results: seq<bool>, after: seq<Step>, steps: seq<Step>, i: nat,
                                    fileExists: Value -> bool, world: nat -> External)
    requires i == |results| < |steps| && after == SelfStops(steps, fileExists, world, i)
    requires forall j {:trigger results[j]} :: 0 <= j < i ==> results[j] == RoutineSteps.Execute(steps[j], fileExists, world(j)).ok
    ensures var run := RoutineSteps.Execute(steps[i], fileExists, world(i));
            var r := results + [run.ok];
            && (forall j {:trigger r[j]} :: 0 <= j < i + 1 ==> r[j] == RoutineSteps.Execute(steps[j], fileExists, world(j)).ok)
            && (if run.selfStopped then after[i := Stop(steps[i])] else after) == SelfStops(steps, fileExists, world, i + 1)
  {
  }

  /** The step loop of `validate()`: each step's check in order, its error
      appended to `head` with its number and class name; `raised` when some
      check raises, which ends the loop. */
  method CheckSteps(head: seq<string>, steps: seq<Step>, fileExists: Value -> bool)
    returns (raised: bool, errors: seq<string>)
    ensures raised <==> !NoneRaise(steps)
    ensures !raised ==> errors == head + StepErrors(steps, fileExists)
  {
    errors := head;
    var i := 0;
    while i < |steps|
      invariant 0 <= i <= |steps| && NoneRaise(steps[..i])
      invariant errors == head + StepErrors(steps[..i], fileExists)
    {
      if ValidateRaises(steps[i]) {
        return true, [];
      }
      NoneRaiseSnoc(steps, i);
      var err := ValidateConfig(steps[i], fileExists);
      StepErrorsSnoc(head, steps, i, fileExists);
      if err.Some? {
        errors := errors + [StepError(i + 1, steps[i].kind, err.value)];
      }
      i := i + 1;
    }
    assert steps[..i] == steps;
    raised := false;
  }

  /** The shared execution lock and the name of the routine holding it. */
  class Engine {
    var held: bool
    var currentlyRunning: Option<string>

    /** The lock is held exactly while some routine is recorded as running. */
    ghost predicate Valid()
      reads this
    {
      held <==> currentlyRunning.Some?
    }

    constructor ()
      ensures Valid() && !held && currentlyRunning == None
    {
      held := false;
      currentlyRunning := None;
    }

    /** `Routine.get_currently_running()`. */
    function CurrentlyRunning(): (r: Option<string>)
      reads this
      requires Valid()
      ensures r.Some? <==> held
    {
      currentlyRunning
    }
  }

  /** `Routine.to_dict()`: id, name and the step records. */
  datatype RoutineData = RoutineData(id: Option<int>, name: string, steps: seq<StepRecord>)

  class Routine {
    var name: string
    var routineId: Option<int>
    var stepsConfig: seq<StepRecord>
    var steps: seq<Step>
    var stopFlag: bool
    /** Indices of the steps whose `execute` was invoked in the last run, in call order. */
    ghost var invoked: seq<nat>
    /** What each returning `execute` of the last run returned. */
    ghost var results: seq<bool>

    constructor (name: string, stepsConfig: seq<StepRecord>, routineId: Option<int>)
      requires !BuildRaises(stepsConfig)
      ensures this.name == name && this.stepsConfig == stepsConfig && this.routineId == routineId
      ensures steps == BuildSpec(stepsConfig) && !stopFlag
      ensures invoked == [] && results == []
    {
      this.name := name;
      this.routineId := routineId;
      this.stepsConfig := stepsConfig;
      steps := [];
      stopFlag := false;
      invoked := [];
      results := [];
      new;
      BuildSteps();
    }

    /** `Routine.from_dict(data)`. */
    constructor FromDict(data: RoutineData)
      requires !BuildRaises(data.steps)
      ensures ToDict() == data
      ensures steps == BuildSpec(data.steps) && !stopFlag
      ensures invoked == [] && results == []
    {
      name := data.name;
      routineId := data.id;
      stepsConfig := data.steps;
      steps := [];
      stopFlag := false;
      invoked := [];
      results := [];
      new;
      BuildSteps();
    }

    /** `to_dict()`. */
    function ToDict(): (d: RoutineData)
      reads this
      ensures d.id == routineId && d.name == name && d.steps == stepsConfig
    {
      RoutineData(routineId, name, stepsConfig)
    }

    /** `_build_steps()`: one step per record with a registered type, in order;
        unknown types are skipped. */
    method BuildSteps()
      requires !BuildRaises(stepsConfig)
      modifies this`steps
      ensures steps == BuildSpec(stepsConfig)
    {
      steps := [];
      var i := 0;
      while i < |stepsConfig|
        invariant 0 <= i <= |stepsConfig|
        invariant steps == BuildSpec(stepsConfig[..i])
      {
        var rec := stepsConfig[i];
        var step := CreateStep(Get(rec, "type"), ConfigOf(rec));
        if step.Ok? && step.value.Some? {
          steps := steps + [step.value.value];
        }
        BuildSnoc(stepsConfig, i);
        i := i + 1;
      }
      assert stepsConfig[..i] == stepsConfig;
    }

    /** `validate()`: `raised` when some step's `validate_config` raises, which
        ends the call without a result. */
    method Validate(fileExists: Value -> bool) returns (raised: bool, valid: bool, errors: seq<string>)
      ensures raised <==> !NoneRaise(steps)
      ensures !raised ==> errors == ValidationErrors(name, stepsConfig, steps, fileExists)
      ensures !raised ==> (valid <==> errors == [])
    {
      var head: seq<string> := [];
      if name == "" {
        head := head + [NameRequired];
      }
      if stepsConfig == [] {
        head := head + [StepRequired];
      }
      raised, errors := CheckSteps(head, steps, fileExists);
      if raised {
        return true, false, [];
      }
      valid := |errors| == 0;
    }

    /** `start(blocking)`: try to take the shared lock without waiting. If another
        routine holds it, nothing changes and the result is false. Otherwise this
        routine becomes the running one; a blocking start runs the steps to the
        end and releases the lock, a non-blocking one returns with the lock held
        for the background run (`Execute`). */
    method Start(engine: Engine, blocking: bool, fileExists: Value -> bool, world: nat -> External,
                 cancel: Option<nat>, raiseAt: Option<nat>) returns (started: bool)
      requires engine.Valid()
      modifies this, engine
      ensures engine.Valid()
      ensures started <==> !old(engine.held)
      ensures !started ==> unchanged(this) && unchanged(engine)
      ensures name == old(name) && routineId == old(routineId) && stepsConfig == old(stepsConfig)
      ensures started && !blocking ==>
                unchanged(this) && engine.held && engine.currentlyRunning == Some(name)
      ensures started && blocking ==> Ran(old(steps), old(stopFlag), fileExists, world, cancel, raiseAt)
      ensures started && blocking ==> !engine.held && engine.currentlyRunning == None
    {
      if engine.held {
        return false;
      }
      engine.held := true;
      engine.currentlyRunning := Some(name);
      if blocking {
        Execute(engine, fileExists, world, cancel, raiseAt);
      }
      return true;
    }

    /** The state `_execute` leaves behind, given the steps and stop flag it
        started from: which steps were invoked and what they returned,
        every step stopped if a stop request landed, otherwise the timed alarms
        that returned stopped by themselves, and the stop flag cleared. */
    ghost predicate Ran(steps0: seq<Step>, stop0: bool, fileExists: Value -> bool, world: nat -> External,
                        cancel: Option<nat>, raiseAt: Option<nat>)
      reads this
    {
      var p := RunProgress(|steps0|, stop0, cancel, RaisePoint(steps0, raiseAt, 0));
      && invoked == Indices(p.invoked)
      && |results| == p.returned
      && (forall j :: 0 <= j < p.returned ==> results[j] == RoutineSteps.Execute(steps0[j], fileExists, world(j)).ok)
      && steps == (if p.cancelled then AllStopped(steps0) else SelfStops(steps0, fileExists, world, p.returned))
      && !stopFlag
    }

    /** `_execute()`: run the steps in order, checking the stop flag before each
        one and going on after a step that reports failure; an exception from a
        step ends the loop. On every exit the lock is released, the running name
        cleared and the stop flag reset. */
    method Execute(engine: Engine, fileExists: Value -> bool, world: nat -> External,
                   cancel: Option<nat>, raiseAt: Option<nat>)
      requires engine.held
      modifies this, engine
      ensures Ran(old(steps), old(stopFlag), fileExists, world, cancel, raiseAt)
      ensures name == old(name) && routineId == old(routineId) && stepsConfig == old(stepsConfig)
      ensures engine.Valid() && !engine.held && engine.currentlyRunning == None
    {
      ghost var steps0 := steps;
      var calls, returned, cancelled, after := RunSteps(steps, stopFlag, fileExists, world, cancel, raiseAt);
      steps := after;
      if cancelled {
        Stop();
        SelfStopsAllStopped(steps0, fileExists, world, |returned|);
      }
      invoked := calls;
      results := returned;
      engine.held := false;
      engine.currentlyRunning := None;
      stopFlag := false;
    }

    /** `stop()`: raise the stop flag and stop every step. */
    method Stop()
      modifies this`stopFlag, this`steps
      ensures stopFlag && steps == AllStopped(old(steps))
    {
      stopFlag := true;
      var i := 0;
      while i < |steps|
        invariant stopFlag && 0 <= i <= |steps| == |old(steps)|
        invariant forall j :: 0 <= j < i ==> steps[j] == RoutineSteps.Stop(old(steps)[j])
        invariant forall j :: i <= j < |steps| ==> steps[j] == old(steps)[j]
      {
        steps := steps[i := RoutineSteps.Stop(steps[i])];
        i := i + 1;
      }
      assert steps == AllStopped(old(steps));
    }
  }

  /** At most one routine runs at a time: for any two routines and a free
      lock, while the first, started in the background, holds the lock a start
      of the second is refused and the first is the one reported running; once
      the first run has released the lock the second starts. */
  method OneAtATime(nameA: string, recordsA: seq<StepRecord>, nameB: string, recordsB: seq<StepRecord>,
                    fileExists: Value -> bool, world: nat -> External,
                    cancel: Option<nat>, raiseAt: Option<nat>)
    returns (first: bool, second: bool, running: Option<string>, third: bool)
    requires !BuildRaises(recordsA) && !BuildRaises(recordsB)
    ensures first && !second && running == Some(nameA) && third
  {
    var engine := new Engine();
    var a := new Routine(nameA, recordsA, None);
    var b := new Routine(nameB, recordsB, None);
    first := a.Start(engine, false, fileExists, world, cancel, raiseAt);
    second := b.Start(engine, true, fileExists, world, cancel, raiseAt);
    running := engine.CurrentlyRunning();
    a.Execute(engine, fileExists, world, cancel, raiseAt);
    third := b.Start(engine, true, fileExists, world, cancel, raiseAt);
  }

  /** An alarm step whose audio file is missing is reported with its number,
      its class name and the missing path. */
  lemma {:induction false} MissingAudioReported(path: string, fileExists: Value -> bool)
    requires path != "" && !fileExists(Str(path))
    ensures var records := [map["type" := Str("alarm"), "config" := Dict(map["audio_file" := Str(path)])]];
            ValidationErrors("Wake", records, BuildSpec(records), fileExists) ==
              ["Step 1 (Alarm): " + "Audio file not found: " + path]
  {
    var records := [map["type" := Str("alarm"), "config" := Dict(map["audio_file" := Str(path)])]];
    var step := Step(Alarm, Dict(map["audio_file" := Str(path)]), false);
    var msg := "Audio file not found: " + path;
    assert BuildSpec(records) == [step] by {
      BuildSingle(records[0]);
    }
    assert ValidateConfig(step, fileExists) == Some(msg);
    StepErrorsSingle(step, fileExists);
    FirstAlarmError(msg);
    Concat3("Step 1 (Alarm): ", "Audio file not found: ", path);
    assert StepErrors([step], fileExists) == ["Step 1 (Alarm): " + "Audio file not found: " + path];
    assert ValidationErrors("Wake", records, [step], fileExists) == [] + [] + StepErrors([step], fileExists);
  }

  lemma {:induction false} StepErrorsSingle(step: Step, fileExists: Value -> bool)
    requires !ValidateRaises(step)
    ensures StepErrors([step], fileExists) ==
            match ValidateConfig(step, fileExists)
            case None => []
            case Some(msg) => [StepError(1, step.kind, msg)]
  {
    assert [step][..0] == [];
  }

  lemma {:induction false} FirstAlarmError(msg: string)
    ensures StepError(1, Alarm, msg) == "Step 1 (Alarm): " + msg
  {
    assert Text.NatToString(1) == "1";
    assert "Step " + "1" + " (" + "Alarm" + "): " == "Step 1 (Alarm): ";
  }

  lemma {:induction false} Concat3(a: string, b: string, c: string)
    ensures a + (b + c) == a + b + c
  {
  }
}
