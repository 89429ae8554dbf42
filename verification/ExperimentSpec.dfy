/** Experiments with repetitions: the stored records, and what each event makes of them. */
module ExperimentSpec {
  import opened Options

  datatype RunStatus = RunRunning | RunCompleted | RunFailed | RunStopped

  datatype Run = Run(index: int, status: RunStatus, result: Option<int>)

  datatype ExpStatus = Created | Running | Completed | Partial | Failed | Stopped

  /** `systemConfig` says whether a server configuration is asked for. */
  datatype Experiment = Experiment(
    status: ExpStatus, repetitions: int, systemConfig: bool, result: Option<int>, runs: seq<Run>)

  datatype Outcome = NoOutcome | WillComplete | WillStop

  datatype State = State(
    store: map<string, Experiment>, active: string, activeRun: int, outcome: Outcome, server: bool)

  /** How the outside answers: the load runner, the server manager, the aggregate's figures. */
  datatype World = World(runnerOk: bool, ensureOk: bool, figures: Option<int>)

  datatype Event =
    | Create(id: string, repetitions: int, systemConfig: bool)
    | Start(id: string, world: World)
    | Stop(id: string)
    | Finish(runErr: bool, report: Option<int>, world: World)
    | Restart(server: bool)  // a new process, at any time; nothing is repaired on loading

  const DEFAULT_REPETITIONS := 3

  function Reps(n: int): int { if n <= 0 then DEFAULT_REPETITIONS else n }

  // ---- Run lists ----

  function Indexes(runs: seq<Run>): set<int> { set k | 0 <= k < |runs| :: runs[k].index }

  ghost predicate Distinct(runs: seq<Run>) {
    forall j, k :: 0 <= j < k < |runs| ==> runs[j].index != runs[k].index
  }

  /** Position of the first run with an index, or the length of the list. */
  function Find(runs: seq<Run>, idx: int): (k: nat)
    ensures k <= |runs| && (k < |runs| ==> runs[k].index == idx)
    ensures forall j :: 0 <= j < k ==> runs[j].index != idx
  {
    FindFrom(runs, idx, 0)
  }

  function FindFrom(runs: seq<Run>, idx: int, from: nat): (k: nat)
    requires from <= |runs|
    ensures from <= k <= |runs| && (k < |runs| ==> runs[k].index == idx)
    ensures forall j :: from <= j < k ==> runs[j].index != idx
    decreases |runs| - from
  {
    if from == |runs| || runs[from].index == idx then from else FindFrom(runs, idx, from + 1)
  }

  function RunAt(runs: seq<Run>, idx: int): Run {
    var k := Find(runs, idx);
    if k < |runs| then runs[k] else Run(idx, RunRunning, None)
  }

  /** Replaces the run with the index of `r`, or appends it. */
  function SetRun(runs: seq<Run>, r: Run): seq<Run> {
    var k := Find(runs, r.index);
    if k < |runs| then runs[k := r] else runs + [r]
  }

  /** The map a plan looks runs up in: later runs win. */
  function ByIndex(runs: seq<Run>): map<int, Run> {
    if runs == [] then map[]
    else
      var last := runs[|runs| - 1];
      ByIndex(runs[..|runs| - 1])[last.index := last]
  }

  function Count(runs: seq<Run>, status: RunStatus): nat {
    if runs == [] then 0
    else Count(runs[..|runs| - 1], status) + if runs[|runs| - 1].status == status then 1 else 0
  }

  function RunSuccessCount(runs: seq<Run>): nat { Count(runs, RunCompleted) }

  function RunFailureCount(runs: seq<Run>): nat { Count(runs, RunFailed) + Count(runs, RunStopped) }

  function Derive(runs: seq<Run>): ExpStatus {
    if |runs| == 0 then Created
    else if exists k :: 0 <= k < |runs| && runs[k].status == RunRunning then Running
    else if exists k :: 0 <= k < |runs| && runs[k].status == RunStopped then Stopped
    else
      var success := RunSuccessCount(runs);
      if success == |runs| then Completed else if success == 0 then Failed else Partial
  }

  // ---- Plans ----

  function All(n: nat): (r: seq<int>)
    ensures |r| == n && forall k :: 0 <= k < n ==> r[k] == k + 1
    ensures forall i :: i in r <==> 1 <= i <= n
  {
    if n == 0 then [] else All(n - 1) + [n]
  }

  function Todo(byIndex: map<int, Run>, n: nat): seq<int> {
    if n == 0 then []
    else Todo(byIndex, n - 1) + if n in byIndex && byIndex[n].status == RunCompleted then [] else [n]
  }

  /** The repetitions to run, and whether the old runs are dropped. */
  function Plan(e: Experiment): (r: (seq<int>, bool))
    ensures r.0 != []
  {
    var reps := Reps(e.repetitions);
    if |e.runs| == 0 || e.status == Created || e.status == Completed then (All(reps), true)
    else
      var todo := Todo(ByIndex(e.runs), reps);
      if |todo| == 0 then (All(reps), true) else (todo, false)
  }

  /** The least repetition without a run, or 0. */
  function NextTodo(e: Experiment): int { NextFrom(Indexes(e.runs), 1, Reps(e.repetitions)) }

  function NextFrom(attempted: set<int>, from: int, reps: int): (next: int)
    requires from >= 1
    ensures next == 0 || (from <= next <= reps && next !in attempted)
    ensures forall i :: from <= i <= reps && (next == 0 || i < next) ==> i in attempted
    decreases reps - from
  {
    if from > reps then 0
    else if from !in attempted then from
    else NextFrom(attempted, from + 1, reps)
  }

  // ---- Events ----

  /** Reading a record brings old ones up to date: a completed record without runs gets one. */
  function Migrate(e: Experiment): Experiment {
    var e1 := if e.repetitions == 0 then e.(repetitions := 1) else e;
    if |e1.runs| == 0 && e1.status == Completed && e1.result.Some? then
      e1.(runs := [Run(1, RunCompleted, e1.result)])
    else e1
  }

  function Finalize(e: Experiment, w: World): Experiment {
    e.(status := Derive(e.runs), result := if RunSuccessCount(e.runs) > 0 then w.figures else None)
  }

  function Launched(e: Experiment, idx: int): Experiment {
    e.(runs := SetRun(e.runs, RunAt(e.runs, idx).(status := RunRunning)), status := Running)
  }

  function LaunchFailed(e: Experiment, idx: int, w: World): Experiment {
    Finalize(e.(runs := SetRun(e.runs, RunAt(e.runs, idx).(status := RunFailed)), status := Running), w)
  }

  function Begin(s: State, id: string, idx: int, w: World): State
    requires id in s.store
  {
    var e := Launched(Migrate(s.store[id]), idx);
    if w.runnerOk then
      s.(store := s.store[id := e], active := id, activeRun := idx, outcome := WillComplete)
    else
      s.(store := s.store[id := LaunchFailed(e, idx, w)], active := "", activeRun := 0, outcome := NoOutcome)
  }

  function Cleared(e: Experiment): Experiment {
    if Plan(e).1 then e.(runs := []) else e
  }

  function Started(s: State, id: string, w: World): State {
    if id !in s.store then s
    else
      var e := Migrate(s.store[id]);
      if e.status == Running || s.active != "" then s
      else
        var saved := Cleared(e);
        var s1 := s.(store := s.store[id := saved]);
        if saved.systemConfig && !s.server then s1
        else if saved.systemConfig && !w.ensureOk then
          s1.(store := s1.store[id := saved.(status := Failed)])
        else Begin(s1, id, Plan(e).0[0], w)
  }

  function Closing(outcome: Outcome, runErr: bool, report: Option<int>): (RunStatus, Option<int>) {
    if outcome == WillStop then (RunStopped, None)
    else if runErr || report.None? then (RunFailed, None)
    else (RunCompleted, report)
  }

  function Closed(e: Experiment, idx: int, closing: (RunStatus, Option<int>)): Experiment {
    e.(runs := SetRun(e.runs, RunAt(e.runs, idx).(status := closing.0, result := closing.1)), status := Running)
  }

  function Finished(s: State, runErr: bool, report: Option<int>, w: World): State {
    if s.active == "" then s
    else
      var id, idle := s.active, s.(active := "", activeRun := 0, outcome := NoOutcome);
      if id !in s.store then idle
      else
        var e := Closed(Migrate(s.store[id]), s.activeRun, Closing(s.outcome, runErr, report));
        if NextTodo(e) > 0 && s.outcome != WillStop then
          Begin(idle.(store := s.store[id := e]), id, NextTodo(e), w)
        else idle.(store := s.store[id := Finalize(e, w)])
  }

  predicate Enabled(s: State, ev: Event) {
    match ev
    case Create(id, _, _) => id != "" && id !in s.store
    case _ => true
  }

  function Step(s: State, ev: Event): State {
    match ev
    case Create(id, n, config) => s.(store := s.store[id := Experiment(Created, Reps(n), config, None, [])])
    case Start(id, w) => Started(s, id, w)
    case Stop(id) => if s.active != id then s else s.(outcome := WillStop)
    case Finish(runErr, report, w) => Finished(s, runErr, report, w)
    case Restart(server) => s.(server := server, active := "", activeRun := 0, outcome := NoOutcome)
  }

  ghost predicate Runs(s: State, events: seq<Event>, t: State)
    decreases |events|
  {
    if events == [] then s == t
    else Enabled(s, events[0]) && Runs(Step(s, events[0]), events[1..], t)
  }
}
