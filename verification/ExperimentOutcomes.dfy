/** What becomes of a run that is started, finished or stopped, and of an experiment run undisturbed. */
module ExperimentOutcomes {
  import opened Options
  import opened ExperimentSpec
  import opened ExperimentSafety
  import opened ExperimentRuns

  lemma RunAtSet(runs: seq<Run>, r: Run, idx: int)
    requires Distinct(runs)
    ensures idx == r.index ==> RunAt(SetRun(runs, r), idx) == r
    ensures idx != r.index ==> RunAt(SetRun(runs, r), idx) == RunAt(runs, idx)
  {
    SetRunAt(runs, r);
    var out := SetRun(runs, r);
    var k, l := Find(runs, idx), Find(out, idx);
    if idx == r.index {
      var j :| 0 <= j < |out| && out[j] == r;
      assert l == j;
    } else if k < |runs| {
      assert out[k] == runs[k];
      assert l == k;
    }
  }

  /** Launching another run, or failing to, leaves this one as it is. */
  lemma BeginKeepsRun(s: State, id: string, idx: int, w: World, other: int)
    requires id in s.store && s.store[id].runs != [] && Numbered(s.store[id], 0) && idx != other
    ensures RunAt(Begin(s, id, idx, w).store[id].runs, other) == RunAt(s.store[id].runs, other)
  {
    var e := s.store[id];
    assert Migrate(e).runs == e.runs;
    var run := RunAt(e.runs, idx).(status := RunRunning);
    var begun := SetRun(e.runs, run);
    SetRunAt(e.runs, run);
    RunAtSet(e.runs, run, other);
    RunAtSet(begun, RunAt(begun, idx).(status := RunFailed), other);
  }

  /** The run that ends is recorded as stopped exactly if a stop was asked for, else as completed with
      its report exactly if it ended without error and with one, else as failed. */
  lemma FinishRecords(s: State, runErr: bool, report: Option<int>, w: World)
    requires Inv(s) && s.active != ""
    ensures var t := Finished(s, runErr, report, w);
            && s.active in t.store
            && var r := RunAt(t.store[s.active].runs, s.activeRun);
            && r.index == s.activeRun && r.status != RunRunning
            && (r.status == RunStopped <==> s.outcome == WillStop)
            && (r.status == RunCompleted <==> s.outcome != WillStop && !runErr && report.Some?)
            && r.result == if r.status == RunCompleted then report else None
  {
    hide Begin, Finalize, NextTodo, Good, Numbered, StatusFits;
    var id, idx := s.active, s.activeRun;
    var stored, closing := s.store[id], Closing(s.outcome, runErr, report);
    assert RecordOk(s, id);
    ActiveKept(stored, idx);
    ClosedRun(stored, idx, closing);
    var e := Closed(stored, idx, closing);
    NextTodoLeast(e);
    if NextTodo(e) > 0 && s.outcome != WillStop {
      var idle := s.(active := "", activeRun := 0, outcome := NoOutcome, store := s.store[id := e]);
      BeginKeepsRun(idle, id, NextTodo(e), w, idx);
      BeginKnows(idle, id, NextTodo(e), w);
    } else {
      FinalizeKeepsRuns(e, w);
    }
  }

  lemma BeginKnows(s: State, id: string, idx: int, w: World)
    requires id in s.store
    ensures id in Begin(s, id, idx, w).store
  {
  }

  lemma ClosedRun(stored: Experiment, idx: int, closing: (RunStatus, Option<int>))
    requires Good(stored, idx) && idx > 0 && closing.0 != RunRunning
    ensures var e := Closed(stored, idx, closing);
            && Numbered(e, 0) && e.runs != [] && idx in Indexes(e.runs)
            && RunAt(e.runs, idx) == Run(idx, closing.0, closing.1)
  {
    ClosedNumbered(stored, idx, closing);
    RunAtSet(stored.runs, RunAt(stored.runs, idx).(status := closing.0, result := closing.1), idx);
  }

  /** Stopping an experiment stops it: when its run has ended, nothing more is started, the run and the
      experiment are recorded as stopped. */
  lemma StopStops(s: State, id: string, runErr: bool, report: Option<int>, w: World)
    requires Inv(s) && s.active == id != ""
    ensures var t := Step(Step(s, Stop(id)), Finish(runErr, report, w));
            && t.active == "" && id in t.store && t.store[id].status == Stopped
            && RunAt(t.store[id].runs, s.activeRun) == Run(s.activeRun, RunStopped, None)
  {
    hide Begin, Good, Numbered, StatusFits, NextTodo;
    var stopping := Step(s, Stop(id));
    StepGood(s, Stop(id));
    FinishRecords(stopping, runErr, report, w);
    var e := Closed(s.store[id], s.activeRun, (RunStopped, None));
    assert RecordOk(s, id);
    ActiveKept(s.store[id], s.activeRun);
    ClosedRun(s.store[id], s.activeRun, (RunStopped, None));
    StoppedStatus(e, s.activeRun);
  }

  lemma StoppedStatus(e: Experiment, idx: int)
    requires Numbered(e, 0) && idx in Indexes(e.runs) && RunAt(e.runs, idx).status == RunStopped
    ensures Derive(e.runs) == Stopped
  {
    var k := Find(e.runs, idx);
    assert e.runs[k].status == RunStopped;
  }

  /** A stop counts for the run that is active when it is asked for and for no other. */
  lemma StopIsForOneRun(s: State, ev: Event)
    requires Inv(s) && Enabled(s, ev) && Step(s, ev).active != ""
    ensures var t := Step(s, ev);
            t.outcome == WillStop <==>
            ev == Stop(t.active) ||
            (t.active == s.active && t.activeRun == s.activeRun && s.outcome == WillStop)
  {
    hide Good, Numbered, StatusFits, Begin, Finalize, NextTodo, Plan, Migrate, Cleared, Closed;
    match ev
    case Create(_, _, _) =>
    case Start(id, w) => StartOutcome(s, id, w);
    case Stop(_) =>
    case Finish(runErr, report, w) =>
      FinishOutcome(s, runErr, report, w);
      FinishContinues(s, runErr, report, w);
      ActiveIndexed(s);
    case Restart(_) =>
  }

  lemma ActiveIndexed(s: State)
    requires Inv(s) && s.active != ""
    ensures s.active in s.store && s.activeRun !in Untried(s.store[s.active])
  {
    assert RecordOk(s, s.active);
  }

  lemma StartOutcome(s: State, id: string, w: World)
    ensures var t := Started(s, id, w); t == s || t.active == s.active == "" || t.outcome != WillStop
  {
    hide Launched, LaunchFailed, Plan, Migrate, Cleared;
  }

  lemma FinishOutcome(s: State, runErr: bool, report: Option<int>, w: World)
    requires s.active != ""
    ensures Finished(s, runErr, report, w).outcome != WillStop
  {
    hide Launched, LaunchFailed, Finalize, Closed, NextTodo, Migrate;
  }

  /** A launch that fails is recorded as a failed run and lets go of the runner. */
  lemma LaunchFailureRecorded(s: State, id: string, idx: int, w: World)
    requires OthersGood(s, id) && !w.runnerOk
    requires Numbered(s.store[id], 0) && 1 <= idx <= s.store[id].repetitions
    ensures var t := Begin(s, id, idx, w);
            && t.active == "" && RunAt(t.store[id].runs, idx).status == RunFailed
            && t.store[id].status != Running && t.store[id].status != Completed
  {
    var e := Migrate(s.store[id]);
    MigrateNumbered(s.store[id]);
    LaunchedNumbered(e, idx);
    var begun := Launched(e, idx);
    var failed := RunAt(begun.runs, idx).(status := RunFailed);
    var runs := SetRun(begun.runs, failed);
    RunAtSet(begun.runs, failed, idx);
    SetRunNumbered(begun, idx, failed, 0);
    SetRunAt(begun.runs, failed);
    DeriveSettled(runs);
    CountAll(runs, RunCompleted);
  }

  /** The result shown is the aggregate's if some repetition is completed, and empty otherwise. */
  lemma ResultShown(e: Experiment, w: World)
    ensures (exists i :: Done(e.runs, i)) ==> Finalize(e, w).result == w.figures
    ensures !(exists i :: Done(e.runs, i)) ==> Finalize(e, w).result == None
  {
    CountAll(e.runs, RunCompleted);
    if RunSuccessCount(e.runs) > 0 {
      var k :| 0 <= k < |e.runs| && e.runs[k].status == RunCompleted;
      assert Done(e.runs, e.runs[k].index);
    }
  }

  /** A record whose runs were dropped is read with one completed run in their place: it looks done
      exactly if one repetition was asked for. */
  lemma VoidReadsAsOneRun(e: Experiment)
    requires Void(e) && e.result.Some? && e.repetitions >= 1
    ensures Migrate(e).runs == [Run(1, RunCompleted, e.result)]
    ensures AllDone(Migrate(e)) <==> e.repetitions == 1
  {
    var runs := Migrate(e).runs;
    assert runs[0].index == 1;
    assert Done(runs, 1) && !Done(runs, 2);
  }

  /** Starting over begins with repetition 1 and no other run. */
  lemma FreshStart(s: State, id: string, w: World)
    requires Inv(s) && s.active == "" && id in s.store && s.store[id].status != Running
    requires Plan(Migrate(s.store[id])).1 && w.runnerOk
    requires s.store[id].systemConfig ==> s.server && w.ensureOk
    ensures var t := Started(s, id, w);
            && t.active == id && t.activeRun == 1 && t.store[id].status == Running
            && |t.store[id].runs| == 1 && t.store[id].runs[0].index == 1
            && t.store[id].runs[0].status == RunRunning
  {
    var e := Migrate(s.store[id]);
    SettledRecord(s, id);
    MigrateNumbered(s.store[id]);
    var saved := Cleared(e);
    assert saved.runs == [] && Plan(e).0 == All(e.repetitions);
    OneRun(Migrate(saved).runs);
  }

  lemma OneRun(runs: seq<Run>)
    requires runs == [] || (|runs| == 1 && runs[0].index == 1)
    ensures SetRun(runs, RunAt(runs, 1).(status := RunRunning)) == [RunAt(runs, 1).(status := RunRunning)]
    ensures RunAt(runs, 1).index == 1
  {
  }

  /** Without a server manager a start that needs one changes no status; when the manager fails, the
      experiment is recorded as failed. */
  lemma StartWithoutServer(s: State, id: string, w: World)
    requires Inv(s) && s.active == "" && id in s.store && s.store[id].status != Running
    requires s.store[id].systemConfig && !(s.server && w.ensureOk)
    ensures var t := Started(s, id, w);
            && t.active == "" && t.store[id].status == (if s.server then Failed else s.store[id].status)
            && t.store[id].runs == if Plan(Migrate(s.store[id])).1 then [] else s.store[id].runs
  {
    hide Plan;
    SettledRecord(s, id);
    MigrateKeepsStatus(s.store[id]);
    PlanOfMigrated(s.store[id]);
  }

  lemma PlanOfMigrated(e: Experiment)
    ensures !Plan(Migrate(e)).1 ==> Migrate(e).runs == e.runs
  {
  }

  // ---- An experiment run undisturbed ----

  /** Runs 1 to n, all completed with the reports given. */
  function CompletedRuns(reports: seq<int>): seq<Run> {
    seq(|reports|, i requires 0 <= i < |reports| => Run(i + 1, RunCompleted, Some(reports[i])))
  }

  /** Repetition i + 1 of the experiment is running, and those before it have these reports. */
  ghost predicate Midway(s: State, id: string, n: int, reports: seq<int>) {
    && s.active == id != "" && id in s.store && s.activeRun == |reports| + 1 && s.outcome == WillComplete
    && s.store[id].status == Running && s.store[id].repetitions == n > |reports|
    && s.store[id].runs == CompletedRuns(reports) + [Run(|reports| + 1, RunRunning, None)]
  }

  /** All repetitions have run. */
  ghost predicate AllRun(s: State, id: string, n: int, reports: seq<int>) {
    && s.active == "" && id in s.store && s.store[id].status == Completed
    && |reports| == n == s.store[id].repetitions && s.store[id].runs == CompletedRuns(reports)
  }

  lemma FindLast(runs: seq<Run>, r: Run)
    requires forall k :: 0 <= k < |runs| ==> runs[k].index != r.index
    ensures RunAt(runs + [r], r.index) == r && RunAt(runs, r.index) == Run(r.index, RunRunning, None)
    ensures SetRun(runs, r) == runs + [r]
    ensures forall q: Run :: q.index == r.index ==> SetRun(runs + [r], q) == runs + [q]
  {
    assert (runs + [r])[|runs|] == r;
    assert Find(runs + [r], r.index) == |runs|;
  }

  /** The record with its running repetition completed. */
  lemma CompletesMidway(s: State, id: string, n: int, reports: seq<int>, report: int)
    requires Midway(s, id, n, reports)
    ensures var i, more := |reports| + 1, reports + [report];
            var e := Closed(Migrate(s.store[id]), i, (RunCompleted, Some(report)));
            && e == s.store[id].(runs := CompletedRuns(more)) && e.repetitions == n
            && (forall k :: 0 <= k < |e.runs| ==> e.runs[k].index == k + 1 && e.runs[k].status == RunCompleted)
            && NextTodo(e) == if i < n then i + 1 else 0
  {
    hide NextTodo;
    var i, more := |reports| + 1, reports + [report];
    FindLast(CompletedRuns(reports), Run(i, RunRunning, None));
    var e := Closed(Migrate(s.store[id]), i, (RunCompleted, Some(report)));
    assert CompletedRuns(more) == CompletedRuns(reports) + [Run(i, RunCompleted, Some(report))];
    IndexesUpTo(e.runs);
    NextAfter(e, i);
  }

  lemma LaunchesNext(runs: seq<Run>)
    requires forall k :: 0 <= k < |runs| ==> runs[k].index == k + 1
    ensures var i := |runs| + 1;
            SetRun(runs, RunAt(runs, i).(status := RunRunning)) == runs + [Run(i, RunRunning, None)]
  {
    FindLast(runs, Run(|runs| + 1, RunRunning, None));
  }

  lemma AllCompleted(runs: seq<Run>)
    requires runs != [] && forall k :: 0 <= k < |runs| ==> runs[k].status == RunCompleted
    ensures Derive(runs) == Completed
  {
    DeriveSettled(runs);
    CountAll(runs, RunCompleted);
  }

  /** Its run ended with a report, the experiment goes on to the next repetition, or is completed. */
  lemma FinishMidway(s: State, id: string, n: int, reports: seq<int>, report: int, w: World)
    requires Midway(s, id, n, reports) && w.runnerOk
    ensures var t := Step(s, Finish(false, Some(report), w));
            if |reports| + 1 < n then Midway(t, id, n, reports + [report]) else AllRun(t, id, n, reports + [report])
  {
    hide NextTodo, Closed, Migrate, Derive, RunSuccessCount, RunAt, SetRun;
    CompletesMidway(s, id, n, reports, report);
    var e := Closed(Migrate(s.store[id]), |reports| + 1, (RunCompleted, Some(report)));
    if |reports| + 1 < n {
      LaunchesNext(e.runs);
      RunningKept(e);
    } else {
      AllCompleted(e.runs);
    }
  }

  lemma RunningKept(e: Experiment)
    requires e.status == Running && e.repetitions >= 1
    ensures Migrate(e) == e
  {
  }

  lemma IndexesUpTo(runs: seq<Run>)
    requires forall k :: 0 <= k < |runs| ==> runs[k].index == k + 1
    ensures forall i :: i in Indexes(runs) <==> 1 <= i <= |runs|
  {
    forall i | 1 <= i <= |runs|
      ensures i in Indexes(runs)
    {
      assert runs[i - 1].index == i;
    }
  }

  lemma NextAfter(e: Experiment, i: int)
    requires e.repetitions >= i >= 1 && forall j :: j in Indexes(e.runs) <==> 1 <= j <= i
    ensures NextTodo(e) == if i < e.repetitions then i + 1 else 0
  {
    NextTodoLeast(e);
    if i < e.repetitions {
      assert i + 1 in All(Reps(e.repetitions)) && i + 1 in Untried(e);
    }
  }

  /** The finishing of these reports, one after the other. */
  function Finishing(reports: seq<int>, w: World): seq<Event> {
    seq(|reports|, i requires 0 <= i < |reports| => Finish(false, Some(reports[i]), w))
  }

  lemma {:induction false} FinishAll(s: State, id: string, n: int, done: seq<int>, rest: seq<int>, w: World)
    returns (t: State)
    requires Midway(s, id, n, done) && w.runnerOk && |done| + |rest| == n
    ensures Runs(s, Finishing(rest, w), t) && AllRun(t, id, n, done + rest)
    decreases |rest|
  {
    hide Step, Midway, AllRun;
    Unfinished(s, id, n, done);
    FinishMidway(s, id, n, done, rest[0], w);
    var u := Step(s, Finish(false, Some(rest[0]), w));
    assert done + rest == done + [rest[0]] + rest[1..];
    assert Finishing(rest, w)[0] == Finish(false, Some(rest[0]), w) &&
           Finishing(rest, w)[1..] == Finishing(rest[1..], w);
    if |rest| == 1 {
      t := u;
      assert done + [rest[0]] == done + rest;
      assert Runs(u, Finishing(rest[1..], w), u);
    } else {
      t := FinishAll(u, id, n, done + [rest[0]], rest[1..], w);
    }
    FinishEnabled(s, rest[0], w);
  }

  lemma Unfinished(s: State, id: string, n: int, done: seq<int>)
    requires Midway(s, id, n, done)
    ensures |done| < n
  {
  }

  lemma FinishEnabled(s: State, report: int, w: World)
    ensures Enabled(s, Finish(false, Some(report), w))
  {
  }

  /** Created, started and left alone, an experiment runs every repetition once, in order, keeps the
      report of each, and is completed. */
  lemma UndisturbedRun(s: State, id: string, repetitions: int, reports: seq<int>, w: World) returns (t: State)
    requires s.active == "" && id != "" && id !in s.store && w.runnerOk
    requires |reports| == if repetitions <= 0 then 3 else repetitions
    ensures Runs(s, [Create(id, repetitions, false), Start(id, w)] + Finishing(reports, w), t)
    ensures AllRun(t, id, |reports|, reports)
  {
    hide AllRun, Runs;
    var s1 := Step(s, Create(id, repetitions, false));
    var s2 := Step(s1, Start(id, w));
    CreatedStarts(s1, id, |reports|, w);
    t := FinishAll(s2, id, |reports|, [], reports, w);
    assert [] + reports == reports;
    RunsTwo(s, Create(id, repetitions, false), Start(id, w), Finishing(reports, w), t);
  }

  lemma CreatedStarts(s: State, id: string, n: int, w: World)
    requires s.active == "" && id != "" && id in s.store && n >= 1 && w.runnerOk
    requires s.store[id] == Experiment(Created, n, false, None, [])
    ensures Midway(Step(s, Start(id, w)), id, n, [])
  {
    var e := s.store[id];
    assert Plan(e) == (All(n), true);
    FindLast([], Run(1, RunRunning, None));
    assert [] + [Run(1, RunRunning, None)] == [Run(1, RunRunning, None)];
    assert CompletedRuns([]) == [];
  }

  lemma RunsTwo(s: State, a: Event, b: Event, rest: seq<Event>, t: State)
    requires Enabled(s, a) && Enabled(Step(s, a), b) && Runs(Step(Step(s, a), b), rest, t)
    ensures Runs(s, [a, b] + rest, t)
  {
    hide Step, Enabled;
    var all := [a, b] + rest;
    assert all[1..] == [b] + rest && ([b] + rest)[1..] == rest;
    assert Runs(Step(s, a), [b] + rest, t);
  }
}
