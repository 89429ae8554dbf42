/** The experiment manager, its store and its single runner. */
module ExperimentManager {
  import opened Options
  import opened ExperimentSpec
  import opened ExperimentSafety

  lemma {:induction false} ByIndexSnoc(runs: seq<Run>, r: Run)
    ensures ByIndex(runs + [r]) == ByIndex(runs)[r.index := r]
  {
    assert (runs + [r])[..|runs|] == runs;
  }

  class ExperimentManager {
    var store: map<string, Experiment>
    var active: string
    var activeRun: int
    var outcome: Outcome
    var server: bool

    function View(): State
      reads this
    {
      State(store, active, activeRun, outcome, server)
    }

    /** A new process over the records an earlier one left behind. */
    constructor (store: map<string, Experiment>, server: bool, ghost earlier: State)
      requires Inv(earlier) && earlier.store == store
      ensures View() == Step(earlier, Restart(server)) && Inv(View())
    {
      this.store, active, activeRun, outcome, this.server := store, "", 0, NoOutcome, server;
      new;
      RestartGood(earlier, server);
    }

    /** A fresh plan runs everything; a resume runs what is not completed. */
    method PlanStartRuns(e: Experiment) returns (todo: seq<int>, anew: bool)
      ensures (todo, anew) == Plan(e)
    {
      var reps := Reps(e.repetitions);
      if |e.runs| == 0 || e.status == Created || e.status == Completed {
        todo := Everything(reps);
        return todo, true;
      }
      var byIndex: map<int, Run> := map[];
      for k := 0 to |e.runs|
        invariant byIndex == ByIndex(e.runs[..k])
      {
        assert e.runs[..k + 1] == e.runs[..k] + [e.runs[k]];
        ByIndexSnoc(e.runs[..k], e.runs[k]);
        byIndex := byIndex[e.runs[k].index := e.runs[k]];
      }
      assert e.runs[..|e.runs|] == e.runs;
      todo := [];
      for i := 1 to reps + 1
        invariant todo == Todo(byIndex, i - 1)
      {
        if i in byIndex && byIndex[i].status == RunCompleted {
          continue;
        }
        todo := todo + [i];
      }
      if |todo| == 0 {
        todo := Everything(reps);
        return todo, true;
      }
      return todo, false;
    }

    method Everything(reps: nat) returns (all: seq<int>)
      ensures all == All(reps)
    {
      all := [];
      for i := 1 to reps + 1
        invariant all == All(i - 1)
      {
        all := all + [i];
      }
    }

    method NextTodoIndex(e: Experiment) returns (next: int)
      ensures next == NextTodo(e)
    {
      var reps := Reps(e.repetitions);
      var attempted: set<int> := {};
      for k := 0 to |e.runs|
        invariant attempted == Indexes(e.runs[..k])
      {
        assert Indexes(e.runs[..k + 1]) == Indexes(e.runs[..k]) + {e.runs[k].index};
        attempted := attempted + {e.runs[k].index};
      }
      assert e.runs[..|e.runs|] == e.runs;
      for i := 1 to reps + 1
        invariant NextFrom(attempted, 1, reps) == NextFrom(attempted, i, reps)
      {
        if i !in attempted {
          return i;
        }
      }
      return 0;
    }

    /** The run list with a run of this index in it, and where that run is. */
    method FindOrCreateRun(runs: seq<Run>, idx: int) returns (out: seq<Run>, at: nat)
      ensures at < |out| && out[at] == RunAt(runs, idx)
      ensures forall r: Run :: r.index == idx ==> out[at := r] == SetRun(runs, r)
    {
      for k := 0 to |runs|
        invariant Find(runs, idx) == FindFrom(runs, idx, k)
      {
        if runs[k].index == idx {
          return runs, k;
        }
      }
      out, at := runs + [Run(idx, RunRunning, None)], |runs|;
      assert forall r: Run :: out[at := r] == runs + [r];
    }

    method BeginRun(id: string, runIdx: int, w: World) returns (ok: bool)
      requires id in store
      modifies this
      ensures View() == Begin(old(View()), id, runIdx, w) && ok == w.runnerOk
      ensures ok ==> active == id && activeRun == runIdx
    {
      hide Migrate, SetRun, RunAt, Finalize;
      var e := Migrate(store[id]);
      var runs, at := FindOrCreateRun(e.runs, runIdx);
      RunIndex(e.runs, runIdx);
      var run := runs[at];
      e := e.(runs := runs[at := run.(status := RunRunning)], status := Running);
      store := store[id := e];
      active, activeRun, outcome := id, runIdx, WillComplete;
      if !w.runnerOk {
        active, activeRun, outcome := "", 0, NoOutcome;
        runs, at := FindOrCreateRun(e.runs, runIdx);
        RunIndex(e.runs, runIdx);
        run := runs[at];
        e := e.(runs := runs[at := run.(status := RunFailed)], status := Running);
        store := store[id := e];
        FinalizeExperiment(id, e, w);
      }
      return w.runnerOk;
    }

    method FinalizeExperiment(id: string, e: Experiment, w: World)
      modifies `store
      ensures store == old(store)[id := Finalize(e, w)]
    {
      var status := Derive(e.runs);
      var result := if RunSuccessCount(e.runs) > 0 then w.figures else None;
      store := store[id := e.(status := status, result := result)];
    }

    /** Starting keeps every record good; what it does is told by the state function. */
    method Start(id: string, w: World) returns (ok: bool)
      requires Inv(View())
      modifies this
      ensures View() == Step(old(View()), ExperimentSpec.Event.Start(id, w)) && Inv(View())
      ensures ok ==> active == id
    {
      hide Inv, Plan, Begin, Migrate;
      StepGood(View(), ExperimentSpec.Event.Start(id, w));
      if id !in store {
        return false;
      }
      var e := Migrate(store[id]);
      if e.status == Running || active != "" {
        return false;
      }
      var todo, anew := PlanStartRuns(e);
      if anew {
        e := e.(runs := []);
      }
      store := store[id := e];
      if e.systemConfig {
        if !server {
          return false;
        }
        if !w.ensureOk {
          store := store[id := e.(status := Failed)];
          return false;
        }
      }
      ok := BeginRun(id, todo[0], w);
    }

    method Stop(id: string) returns (ok: bool)
      requires Inv(View())
      modifies this`outcome
      ensures View() == Step(old(View()), ExperimentSpec.Event.Stop(id)) && Inv(View())
      ensures ok <==> active == id
    {
      hide Inv;
      StepGood(View(), ExperimentSpec.Event.Stop(id));
      if active != id {
        return false;
      }
      outcome := WillStop;
      return true;
    }

    /** Called when the load runner has ended. */
    method FinishRun(runErr: bool, report: Option<int>, w: World)
      requires Inv(View())
      modifies this
      ensures View() == Step(old(View()), Finish(runErr, report, w)) && Inv(View())
    {
      hide Inv, NextTodo, Begin, Migrate, SetRun, RunAt, Finalize;
      StepGood(View(), Finish(runErr, report, w));
      var id, runIdx, ended := active, activeRun, outcome;
      if id == "" {
        return;
      }
      active, activeRun, outcome := "", 0, NoOutcome;
      if id !in store {
        return;
      }
      var e := Migrate(store[id]);
      var runs, at := FindOrCreateRun(e.runs, runIdx);
      RunIndex(e.runs, runIdx);
      var run := runs[at];
      if ended == WillStop {
        run := run.(status := RunStopped, result := None);
      } else if runErr || report.None? {
        run := run.(status := RunFailed, result := None);
      } else {
        run := run.(status := RunCompleted, result := report);
      }
      e := e.(runs := runs[at := run], status := Running);
      var next := NextTodoIndex(e);
      if next > 0 && ended != WillStop {
        store := store[id := e];
        var begun := BeginRun(id, next, w);
        return;
      }
      FinalizeExperiment(id, e, w);
    }
  }

  lemma RunIndex(runs: seq<Run>, idx: int)
    ensures RunAt(runs, idx).index == idx
  {
  }
}
