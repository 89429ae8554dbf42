/** What every run of experiment events keeps. */
module ExperimentSafety {
  import opened Options
  import opened ExperimentSpec

  ghost predicate Done(runs: seq<Run>, i: int) {
    exists k :: 0 <= k < |runs| && runs[k].index == i && runs[k].status == RunCompleted
  }

  ghost predicate AllDone(e: Experiment) {
    forall i :: 1 <= i <= Reps(e.repetitions) ==> Done(e.runs, i)
  }

  /** Marked completed with its runs dropped. */
  predicate Void(e: Experiment) { e.status == Completed && e.runs == [] }

  /** Run indexes are distinct repetition numbers, and at most the run numbered `running` runs. */
  ghost predicate Numbered(e: Experiment, running: int) {
    && e.repetitions >= 1 && Distinct(e.runs)
    && (forall k :: 0 <= k < |e.runs| ==> 1 <= e.runs[k].index <= e.repetitions)
    && (forall k :: 0 <= k < |e.runs| ==> (e.runs[k].status == RunRunning <==> e.runs[k].index == running))
  }

  ghost predicate StatusFits(e: Experiment, running: int) {
    && (e.status == Running <==> running > 0)
    && (e.status == Created ==> e.runs == [])
    && (e.status == Completed ==> AllDone(e) || (Void(e) && e.systemConfig))
    && (e.status == Partial || e.status == Failed || e.status == Stopped ==> !AllDone(e))
  }

  ghost predicate Good(e: Experiment, running: int) {
    && Numbered(e, running) && StatusFits(e, running)
    && (running > 0 ==> running in Indexes(e.runs))
  }

  /** Some run is marked running. */
  ghost predicate Marked(e: Experiment) {
    exists r :: r > 0 && Good(e, r)
  }

  /** The active record has its active run running; another record that says running is stuck from
      an earlier process; all others have nothing running. */
  ghost predicate RecordOk(s: State, id: string)
    requires id in s.store
  {
    if id == s.active then Good(s.store[id], s.activeRun)
    else if s.store[id].status == Running then Marked(s.store[id])
    else Good(s.store[id], 0)
  }

  ghost predicate Inv(s: State) {
    && "" !in s.store
    && (s.active != "" ==> s.active in s.store && s.activeRun > 0)
    && forall id :: id in s.store ==> RecordOk(s, id)
  }

  const EMPTY := State(map[], "", 0, NoOutcome, false)

  // ---- Run lists ----

  lemma SetRunAt(runs: seq<Run>, r: Run)
    requires Distinct(runs)
    ensures var out := SetRun(runs, r);
            && Distinct(out) && |runs| <= |out| && r in out
            && Indexes(out) == Indexes(runs) + {r.index}
            && (forall k :: 0 <= k < |out| ==>
                              out[k] == r || (k < |runs| && out[k] == runs[k] && runs[k].index != r.index))
            && (forall k :: 0 <= k < |runs| && runs[k].index != r.index ==> out[k] == runs[k])
  {
    var k := Find(runs, r.index);
    var out := SetRun(runs, r);
    assert out[k] == r;
    forall i | i in Indexes(runs) + {r.index}
      ensures i in Indexes(out)
    {
      if i != r.index {
        var j :| 0 <= j < |runs| && runs[j].index == i;
        assert out[j].index == i;
      }
    }
  }

  lemma SetRunNumbered(e: Experiment, was: int, r: Run, running: int)
    requires Numbered(e, was) && 1 <= r.index <= e.repetitions
    requires r.status == RunRunning <==> r.index == running
    requires (was == r.index || was == running || was == 0) && (running == r.index || running == 0 || running == was)
    ensures Numbered(e.(runs := SetRun(e.runs, r)), running)
  {
    SetRunAt(e.runs, r);
  }

  lemma {:induction false} ByIndexFinds(runs: seq<Run>, i: int)
    requires Distinct(runs)
    ensures i in ByIndex(runs) <==> i in Indexes(runs)
    ensures i in ByIndex(runs) ==> (ByIndex(runs)[i].status == RunCompleted <==> Done(runs, i))
    ensures Done(runs, i) ==> i in Indexes(runs)
  {
    if runs != [] {
      var n := |runs| - 1;
      var before, last := runs[..n], runs[n];
      ByIndexFinds(before, i);
      assert forall k :: 0 <= k < n ==> before[k] == runs[k];
      assert Indexes(runs) == Indexes(before) + {last.index};
      if i == last.index {
        assert forall k :: 0 <= k < n ==> runs[k].index != i;
        assert Done(runs, i) <==> last.status == RunCompleted;
      } else {
        assert Done(runs, i) <==> Done(before, i);
      }
    }
  }

  /** The resume list: the repetitions without a completed run, rising. */
  lemma {:induction false} TodoLists(runs: seq<Run>, n: nat)
    requires Distinct(runs)
    ensures var todo := Todo(ByIndex(runs), n);
            && (forall i :: i in todo <==> 1 <= i <= n && !Done(runs, i))
            && (forall j, k :: 0 <= j < k < |todo| ==> todo[j] < todo[k])
  {
    hide Done, ByIndex, Indexes;
    if n > 0 {
      TodoLists(runs, n - 1);
      ByIndexFinds(runs, n);
      var before := Todo(ByIndex(runs), n - 1);
      assert forall k :: 0 <= k < |before| ==> before[k] in before;
    }
  }

  /** The first of the resume list is the least repetition without a completed run. */
  lemma PlanResumes(e: Experiment)
    requires Numbered(e, 0) && !AllDone(e)
    requires e.runs != [] && e.status != Created && e.status != Completed
    ensures var (todo, anew) := Plan(e);
            && !anew && 1 <= todo[0] <= e.repetitions && !Done(e.runs, todo[0])
            && forall i :: 1 <= i < todo[0] ==> Done(e.runs, i)
  {
    hide Done, ByIndex;
    TodoLists(e.runs, e.repetitions);
    var todo := Todo(ByIndex(e.runs), e.repetitions);
    var i :| 1 <= i <= Reps(e.repetitions) && !Done(e.runs, i);
    assert i in todo && todo[0] in todo;
    forall j | 1 <= j < todo[0]
      ensures Done(e.runs, j)
    {
      assert j !in todo;
    }
  }

  lemma {:induction false} CountAll(runs: seq<Run>, status: RunStatus)
    ensures Count(runs, status) <= |runs|
    ensures Count(runs, status) == |runs| <==> forall k :: 0 <= k < |runs| ==> runs[k].status == status
    ensures Count(runs, status) == 0 <==> forall k :: 0 <= k < |runs| ==> runs[k].status != status
  {
    if runs != [] {
      var n := |runs| - 1;
      CountAll(runs[..n], status);
      assert forall k :: 0 <= k < n ==> runs[..n][k] == runs[k];
    }
  }

  /** Settled runs: success and failure counts make up the list, and the status tells them apart. */
  lemma DeriveSettled(runs: seq<Run>)
    requires runs != [] && forall k :: 0 <= k < |runs| ==> runs[k].status != RunRunning
    ensures RunSuccessCount(runs) + RunFailureCount(runs) == |runs|
    ensures Derive(runs) == Completed <==> RunSuccessCount(runs) == |runs|
    ensures Derive(runs) == Stopped <==> Count(runs, RunStopped) > 0
    ensures Derive(runs) == Failed <==> Count(runs, RunStopped) == 0 && RunSuccessCount(runs) == 0
    ensures Derive(runs) == Partial <==>
            Count(runs, RunStopped) == 0 && RunFailureCount(runs) > 0 && RunSuccessCount(runs) > 0
  {
    CountsAddUp(runs);
    CountAll(runs, RunCompleted);
    CountAll(runs, RunStopped);
  }

  lemma {:induction false} CountsAddUp(runs: seq<Run>)
    ensures Count(runs, RunRunning) + RunSuccessCount(runs) + RunFailureCount(runs) == |runs|
    ensures (forall k :: 0 <= k < |runs| ==> runs[k].status != RunRunning) ==> Count(runs, RunRunning) == 0
  {
    if runs != [] {
      CountsAddUp(runs[..|runs| - 1]);
      CountAll(runs, RunRunning);
    }
  }

  // ---- One event keeps the records good ----

  /** Closing an experiment whose runs have all ended: completed means every repetition is. */
  lemma FinalizeGood(e: Experiment, w: World)
    requires Numbered(e, 0) && e.runs != []
    requires NextTodo(e) == 0 || exists k :: 0 <= k < |e.runs| && e.runs[k].status != RunCompleted
    ensures Good(Finalize(e, w), 0)
  {
    var runs := e.runs;
    DeriveSettled(runs);
    CountAll(runs, RunCompleted);
    if Derive(runs) == Completed {
      forall i | 1 <= i <= e.repetitions
        ensures Done(runs, i)
      {
        assert i in Indexes(runs);
      }
    } else {
      var k :| 0 <= k < |runs| && runs[k].status != RunCompleted;
      assert !Done(runs, runs[k].index);
    }
  }

  lemma MigrateNumbered(e: Experiment)
    requires Numbered(e, 0)
    ensures Numbered(Migrate(e), 0) && Migrate(e).repetitions == e.repetitions
    ensures e.runs != [] || e.status != Completed ==> Migrate(e) == e
  {
  }

  lemma LaunchedNumbered(e: Experiment, idx: int)
    requires Numbered(e, 0) && 1 <= idx <= e.repetitions
    ensures Good(Launched(e, idx), idx)
    ensures Indexes(Launched(e, idx).runs) == Indexes(e.runs) + {idx}
  {
    var r := RunAt(e.runs, idx).(status := RunRunning);
    SetRunNumbered(e, 0, r, idx);
    SetRunAt(e.runs, r);
  }

  lemma LaunchFailedGood(e: Experiment, idx: int, w: World)
    requires Good(e, idx) && idx >= 1
    ensures Good(LaunchFailed(e, idx, w), 0)
  {
    var r := RunAt(e.runs, idx).(status := RunFailed);
    var runs := SetRun(e.runs, r);
    IndexInRange(e, idx);
    SetRunNumbered(e, idx, r, 0);
    SetRunAt(e.runs, r);
    var k :| 0 <= k < |runs| && runs[k] == r;
    FinalizeGood(e.(runs := runs, status := Running), w);
  }

  lemma IndexInRange(e: Experiment, idx: int)
    requires Numbered(e, idx) && idx in Indexes(e.runs)
    ensures 1 <= idx <= e.repetitions
  {
  }

  /** The others' records, with nothing active. */
  ghost predicate OthersGood(s: State, id: string) {
    && "" !in s.store && id in s.store && s.active == ""
    && forall other :: other in s.store && other != id ==> RecordOk(s, other)
  }

  /** The record is the active one or has nothing running. */
  ghost predicate Held(s: State, id: string) {
    id in s.store && (s.active == id || Good(s.store[id], 0))
  }

  lemma SettledRecord(s: State, id: string)
    requires Inv(s) && id in s.store && s.store[id].status != Running
    ensures id != s.active && Good(s.store[id], 0)
  {
    assert RecordOk(s, id);
  }

  lemma BeginGood(s: State, id: string, idx: int, w: World)
    requires OthersGood(s, id)
    requires Numbered(s.store[id], 0) && 1 <= idx <= s.store[id].repetitions
    ensures Inv(Begin(s, id, idx, w)) && Held(Begin(s, id, idx, w), id)
  {
    hide Good, Marked, Numbered, Launched, LaunchFailed, Migrate;
    MigrateNumbered(s.store[id]);
    var e := Migrate(s.store[id]);
    LaunchedNumbered(e, idx);
    var t := Begin(s, id, idx, w);
    if !w.runnerOk {
      LaunchFailedGood(Launched(e, idx), idx, w);
      NotRunning(t.store[id]);
    }
    forall other | other in t.store
      ensures RecordOk(t, other)
    {
      assert other != id ==> RecordOk(s, other);
    }
  }

  lemma NotRunning(e: Experiment)
    requires Good(e, 0)
    ensures e.status != Running
  {
  }

  lemma StartedGood(s: State, id: string, w: World)
    requires Inv(s)
    ensures Inv(Started(s, id, w))
    ensures id in s.store && s.store[id].status != Running && s.active == "" ==> Held(Started(s, id, w), id)
  {
    hide Done, Migrate, Begin, Plan, Indexes, Marked, Numbered, StatusFits;
    if id in s.store {
      MigrateKeepsStatus(s.store[id]);
    }
    if id in s.store && s.active == "" && s.store[id].status != Running {
      SettledRecord(s, id);
      NumberedOf(s.store[id]);
      var e := Migrate(s.store[id]);
      MigrateNumbered(s.store[id]);
      PlanInRange(e);
      var saved := Cleared(e);
      ClearedGood(s.store[id]);
      if !(saved.systemConfig && (!s.server || !w.ensureOk)) {
        BeginGood(s.(store := s.store[id := saved]), id, Plan(e).0[0], w);
      }
    }
  }

  lemma NumberedOf(e: Experiment)
    requires Good(e, 0)
    ensures Numbered(e, 0)
  {
  }

  lemma MigrateKeepsStatus(e: Experiment)
    ensures Migrate(e).status == e.status && Migrate(e).systemConfig == e.systemConfig
  {
  }

  lemma PlanInRange(e: Experiment)
    requires Numbered(e, 0)
    ensures 1 <= Plan(e).0[0] <= e.repetitions
  {
    hide Done, ByIndex, Todo;
    TodoLists(e.runs, e.repetitions);
    var todo := Todo(ByIndex(e.runs), e.repetitions);
    if Plan(e).1 {
      assert Plan(e).0 == All(e.repetitions);
      assert Plan(e).0[0] == 1;
    } else {
      assert Plan(e).0 == todo;
      assert todo[0] in todo && !Done(e.runs, todo[0]);
    }
  }

  lemma ClearedGood(stored: Experiment)
    requires Good(stored, 0)
    ensures var saved := Cleared(Migrate(stored));
            && Numbered(saved, 0) && saved.systemConfig == stored.systemConfig
            && (saved.systemConfig ==> Good(saved, 0) && Good(saved.(status := Failed), 0))
  {
    hide ByIndex;
    var e := Migrate(stored);
    MigrateNumbered(stored);
    assert !Done([], 1);
    if e.runs != [] && e.status != Created && e.status != Completed {
      assert e == stored;
      PlanResumes(e);
    } else {
      assert Cleared(e).runs == [];
      assert !AllDone(Cleared(e));
    }
  }

  lemma FinishedGood(s: State, runErr: bool, report: Option<int>, w: World)
    requires Inv(s)
    ensures Inv(Finished(s, runErr, report, w))
    ensures s.active != "" ==> Held(Finished(s, runErr, report, w), s.active)
  {
    hide Done, Indexes, Finalize, Begin, Numbered, Good, StatusFits, Closing, Marked;
    if s.active != "" {
      var id, idx := s.active, s.activeRun;
      var stored := s.store[id];
      var closing := Closing(s.outcome, runErr, report);
      var e := Closed(stored, idx, closing);
      assert RecordOk(s, id);
      ActiveKept(stored, idx);
      ClosingSettles(s.outcome, runErr, report);
      ClosedNumbered(stored, idx, closing);
      var idle := s.(active := "", activeRun := 0, outcome := NoOutcome, store := s.store[id := e]);
      assert forall other :: other in s.store && other != id ==> RecordOk(s, other);
      if NextTodo(e) > 0 && s.outcome != WillStop {
        assert NextTodo(e) <= Reps(e.repetitions);
        RepsKept(stored, idx);
        BeginGood(idle, id, NextTodo(e), w);
      } else {
        FinalizeGood(e, w);
        var t := idle.(store := s.store[id := Finalize(e, w)]);
        NotRunning(t.store[id]);
        assert forall other :: other in t.store && other != id ==> RecordOk(t, other);
      }
    }
  }

  lemma ClosingSettles(outcome: Outcome, runErr: bool, report: Option<int>)
    ensures Closing(outcome, runErr, report).0 != RunRunning
    ensures outcome == WillStop ==> Closing(outcome, runErr, report).0 != RunCompleted
  {
  }

  lemma ActiveKept(e: Experiment, idx: int)
    requires Good(e, idx) && idx > 0
    ensures Migrate(e) == e
  {
  }

  lemma RepsKept(e: Experiment, idx: int)
    requires Good(e, idx)
    ensures Reps(e.repetitions) == e.repetitions
  {
  }

  lemma ClosedNumbered(stored: Experiment, idx: int, closing: (RunStatus, Option<int>))
    requires Good(stored, idx) && idx > 0 && closing.0 != RunRunning
    ensures var e := Closed(stored, idx, closing);
            && Numbered(e, 0) && e.runs != [] && e.repetitions == stored.repetitions
            && Indexes(e.runs) == Indexes(stored.runs)
            && (closing.0 != RunCompleted ==> exists k :: 0 <= k < |e.runs| && e.runs[k].status != RunCompleted)
  {
    var r := RunAt(stored.runs, idx).(status := closing.0, result := closing.1);
    IndexInRange(stored, idx);
    SetRunNumbered(stored, idx, r, 0);
    SetRunAt(stored.runs, r);
  }

  lemma StepGood(s: State, ev: Event)
    requires Inv(s) && Enabled(s, ev)
    ensures Inv(Step(s, ev))
  {
    hide Good, Marked, Started, Finished;
    match ev
    case Create(id, n, config) => CreateGood(s, id, n, config);
    case Start(id, w) => StartedGood(s, id, w);
    case Stop(id) =>
      assert forall other :: other in s.store ==> RecordOk(s, other);
    case Finish(runErr, report, w) => FinishedGood(s, runErr, report, w);
    case Restart(server) => RestartGood(s, server);
  }

  lemma CreateGood(s: State, id: string, n: int, config: bool)
    requires Inv(s) && Enabled(s, Create(id, n, config))
    ensures Inv(Step(s, Create(id, n, config)))
  {
    hide Marked;
    var t := Step(s, Create(id, n, config));
    assert !Done([], 1);
    forall other | other in t.store
      ensures RecordOk(t, other)
    {
      assert other != id ==> RecordOk(s, other);
    }
  }

  /** What was active stays marked running. */
  lemma RestartGood(s: State, server: bool)
    requires Inv(s)
    ensures Inv(Step(s, Restart(server)))
  {
    var t := Step(s, Restart(server));
    forall id | id in t.store
      ensures RecordOk(t, id)
    {
      assert RecordOk(s, id);
      if id == s.active {
        assert Good(t.store[id], s.activeRun);
      }
    }
  }

  lemma {:induction false} RunsGood(s: State, events: seq<Event>, t: State)
    requires Inv(s) && Runs(s, events, t)
    ensures Inv(t)
    decreases |events|
  {
    if events != [] {
      StepGood(s, events[0]);
      RunsGood(Step(s, events[0]), events[1..], t);
    }
  }
}
