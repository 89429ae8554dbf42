/** Main results about experiment runs: exclusivity, completion, resuming, termination. */
module ExperimentRuns {
  import opened Options
  import opened ExperimentSpec
  import opened ExperimentSafety

  ghost predicate Reachable(s: State) {
    exists events :: Runs(EMPTY, events, s)
  }

  lemma ReachableGood(s: State)
    requires Reachable(s)
    ensures Inv(s)
  {
    var events :| Runs(EMPTY, events, s);
    RunsGood(EMPTY, events, s);
  }

  // ---- One run at a time ----

  /** At most one run is marked running anywhere, and it is the one the manager holds active. */
  ghost predicate Exclusive(s: State) {
    forall id, k :: id in s.store && 0 <= k < |s.store[id].runs| ==>
                      (s.store[id].runs[k].status == RunRunning <==>
                       s.active != "" && id == s.active && s.store[id].runs[k].index == s.activeRun)
  }

  /** Records that say running while nothing runs them. */
  ghost function Stuck(s: State): set<string> {
    set id | id in s.store && id != s.active && s.store[id].status == Running
  }

  /** No new process came up while a run was active. */
  ghost predicate Orderly(s: State, events: seq<Event>)
    decreases |events|
  {
    events == [] || (!(events[0].Restart? && s.active != "") && Orderly(Step(s, events[0]), events[1..]))
  }

  lemma ExclusiveUnlessStuck(s: State)
    requires Inv(s)
    ensures Exclusive(s) <==> Stuck(s) == {}
  {
    forall id | id in s.store
      ensures id in Stuck(s) <==> Strays(s, id)
    {
      assert RecordOk(s, id);
      RecordStrays(s, id);
    }
    if Exclusive(s) {
      assert forall id :: id in s.store ==> !Strays(s, id);
    } else {
      var id, k :| id in s.store && 0 <= k < |s.store[id].runs| &&
                   !(s.store[id].runs[k].status == RunRunning <==>
                     s.active != "" && id == s.active && s.store[id].runs[k].index == s.activeRun);
      assert Strays(s, id);
    }
  }

  /** The record breaks the rule. */
  ghost predicate Strays(s: State, id: string)
    requires id in s.store
  {
    exists k :: 0 <= k < |s.store[id].runs| &&
                !(s.store[id].runs[k].status == RunRunning <==>
                  s.active != "" && id == s.active && s.store[id].runs[k].index == s.activeRun)
  }

  lemma RecordStrays(s: State, id: string)
    requires Inv(s) && id in s.store
    ensures Strays(s, id) <==> id != s.active && s.store[id].status == Running
  {
    assert RecordOk(s, id);
    var e := s.store[id];
    if id != s.active && e.status == Running {
      var r :| r > 0 && Good(e, r);
      var k :| 0 <= k < |e.runs| && e.runs[k].index == r;
      assert e.runs[k].status == RunRunning;
    }
  }

  /** A record comes to be stuck exactly when its process goes away while it is active, and no event
      changes it after that: it cannot be started, stopped or finished. */
  lemma StuckExactly(s: State, ev: Event)
    requires Inv(s) && Enabled(s, ev)
    ensures Stuck(Step(s, ev)) == Stuck(s) + if ev.Restart? && s.active != "" then {s.active} else {}
    ensures forall id :: id in Stuck(s) ==> id in Step(s, ev).store && Step(s, ev).store[id] == s.store[id]
  {
    hide Good, Marked, Started, Finished;
    var t := Step(s, ev);
    if ev.Start? {
      StartedStuck(s, ev.id, ev.world);
    } else if ev.Finish? {
      FinishedStuck(s, ev.runErr, ev.report, ev.world);
    } else if s.active != "" {
      assert RecordOk(s, s.active);
      ActiveRuns(s);
    }
  }

  lemma ActiveRuns(s: State)
    requires Inv(s) && s.active != ""
    ensures s.active in s.store && s.store[s.active].status == Running
  {
    assert RecordOk(s, s.active);
  }

  lemma StartedStuck(s: State, id: string, w: World)
    requires Inv(s)
    ensures Stuck(Started(s, id, w)) == Stuck(s)
    ensures forall other :: other in Stuck(s) ==>
                              other in Started(s, id, w).store && Started(s, id, w).store[other] == s.store[other]
  {
    hide Good, Marked, Begin, Plan;
    var t := Started(s, id, w);
    StartedElsewhere(s, id, w);
    if id in s.store && s.active == "" && s.store[id].status != Running {
      StartedGood(s, id, w);
      if t.active != id {
        NotRunning(t.store[id]);
      }
    } else if id in s.store {
      MigrateKeepsStatus(s.store[id]);
    }
  }

  lemma StartedElsewhere(s: State, id: string, w: World)
    ensures var t := Started(s, id, w);
            && t.store.Keys == s.store.Keys && (t.active == s.active || (s.active == "" && t.active == id))
            && forall other :: other in s.store && other != id ==> t.store[other] == s.store[other]
  {
    hide Launched, LaunchFailed, Plan, Migrate, Cleared;
  }

  lemma FinishedStuck(s: State, runErr: bool, report: Option<int>, w: World)
    requires Inv(s)
    ensures Stuck(Finished(s, runErr, report, w)) == Stuck(s)
    ensures forall other :: other in Stuck(s) ==>
                              other in Finished(s, runErr, report, w).store &&
                              Finished(s, runErr, report, w).store[other] == s.store[other]
  {
    hide Good, Marked, Finished;
    var t := Finished(s, runErr, report, w);
    FinishedElsewhere(s, runErr, report, w);
    FinishedGood(s, runErr, report, w);
    if s.active != "" && t.active != s.active {
      NotRunning(t.store[s.active]);
    }
  }

  lemma FinishedElsewhere(s: State, runErr: bool, report: Option<int>, w: World)
    ensures var t := Finished(s, runErr, report, w);
            && t.store.Keys == s.store.Keys && (t.active == "" || t.active == s.active)
            && (s.active == "" ==> t == s)
            && forall other :: other in s.store && other != s.active ==> t.store[other] == s.store[other]
  {
    hide Launched, LaunchFailed, Finalize, Closed, NextTodo, Migrate;
  }

  lemma {:induction false} StuckUnlessOrderly(s: State, events: seq<Event>, t: State)
    requires Inv(s) && Runs(s, events, t)
    ensures Stuck(t) == {} <==> Stuck(s) == {} && Orderly(s, events)
    decreases |events|
  {
    hide Step, Stuck;
    if events != [] {
      StepGood(s, events[0]);
      StuckExactly(s, events[0]);
      StuckUnlessOrderly(Step(s, events[0]), events[1..], t);
    }
  }

  /** After a run of events one run at most is running, the active one, if and only if no new process
      came up while a run was active. */
  lemma OneRunning(events: seq<Event>, s: State)
    requires Runs(EMPTY, events, s)
    ensures Exclusive(s) <==> Orderly(EMPTY, events)
  {
    RunsGood(EMPTY, events, s);
    ExclusiveUnlessStuck(s);
    StuckUnlessOrderly(EMPTY, events, s);
    assert Stuck(EMPTY) == {};
  }

  /** A stuck record stays as it is, whatever happens. */
  lemma {:induction false} StuckForever(s: State, events: seq<Event>, t: State, id: string)
    requires Inv(s) && Runs(s, events, t) && id in Stuck(s)
    ensures id in Stuck(t) && id in t.store && t.store[id] == s.store[id]
    decreases |events|
  {
    hide Step;
    if events != [] {
      StepGood(s, events[0]);
      StuckExactly(s, events[0]);
      StuckForever(Step(s, events[0]), events[1..], t, id);
    }
  }

  /** Two records marked running: one stuck, one started after it. */
  lemma TwoRunningReached()
    ensures exists s ::
              Reachable(s) && "e" in Stuck(s) && s.active == "f" && "f" in s.store && s.store["f"].status == Running
  {
    hide Started, Step, Enabled;
    var w := World(true, true, None);
    assert Reachable(EMPTY) by { assert Runs(EMPTY, [], EMPTY); }
    var s0 := EMPTY.(server := true);
    Restarts(EMPTY, true);
    Reaches(EMPTY, Restart(true), s0);
    var s1 := Creation(s0, "e");
    var s2 := Started(s1, "e", w);
    FirstStart(s1, "e", w);
    StartStep(s1, "e", w);
    Reaches(s1, Start("e", w), s2);
    var s3 := s2.(active := "", activeRun := 0, outcome := NoOutcome);
    Restarts(s2, true);
    Reaches(s2, Restart(true), s3);
    var s4 := Creation(s3, "f");
    var s5 := Started(s4, "f", w);
    FirstStart(s4, "f", w);
    StartStep(s4, "f", w);
    Reaches(s4, Start("f", w), s5);
    assert "e" in Stuck(s5);
  }

  /** Run indexes are distinct repetition numbers. */
  lemma IndexesDistinct(s: State, id: string)
    requires Reachable(s) && id in s.store
    ensures Distinct(s.store[id].runs)
    ensures forall k :: 0 <= k < |s.store[id].runs| ==> 1 <= s.store[id].runs[k].index <= s.store[id].repetitions
  {
    ReachableGood(s);
    assert RecordOk(s, id);
  }

  // ---- Completion ----

  /** A record that says completed has a completed run for every repetition, unless its runs were
      dropped by a start that then found no server manager. */
  lemma CompletedIsDone(s: State, id: string)
    requires Reachable(s) && id in s.store && s.store[id].status == Completed
    ensures AllDone(s.store[id]) <==> !Void(s.store[id])
    ensures Void(s.store[id]) ==> s.store[id].systemConfig
  {
    ReachableGood(s);
    var e := s.store[id];
    SettledRecord(s, id);
    if Void(e) {
      assert !Done(e.runs, 1);
    }
  }

  /** The one event that leaves a completed record without its runs: starting it again with a
      server configuration while the process has no server manager. */
  lemma VoidsExactly(s: State, ev: Event, id: string)
    requires Inv(s) && Enabled(s, ev)
    requires id in s.store && s.store[id].status == Completed && AllDone(s.store[id])
    ensures id in Step(s, ev).store
    ensures Step(s, ev).store[id].status == Completed && !AllDone(Step(s, ev).store[id]) <==>
            ev.Start? && ev.id == id && s.active == "" && s.store[id].systemConfig && !s.server
  {
    hide Done, Indexes, Step, Good;
    var e := s.store[id];
    SettledHasRuns(s, id);
    if ev.Start? && ev.id == id {
      if s.active == "" {
        StartCompleted(s, id, ev.world);
      } else {
        BusyStart(s, id, ev.world);
      }
      StartStep(s, id, ev.world);
    } else {
      Untouched(s, ev, id);
    }
  }

  lemma SettledHasRuns(s: State, id: string)
    requires Inv(s) && id in s.store && s.store[id].status == Completed && AllDone(s.store[id])
    ensures id != s.active && s.store[id].runs != []
  {
    SettledRecord(s, id);
    assert !Done([], 1);
  }

  lemma StartStep(s: State, id: string, w: World)
    ensures Enabled(s, Start(id, w)) && Step(s, Start(id, w)) == Started(s, id, w)
  {
  }

  lemma BusyStart(s: State, id: string, w: World)
    requires s.active != ""
    ensures Started(s, id, w) == s
  {
  }

  /** An event leaves the records of the other experiments alone. */
  lemma Untouched(s: State, ev: Event, id: string)
    requires Enabled(s, ev) && id in s.store
    requires !(ev.Start? && ev.id == id) && !(ev.Finish? && id == s.active)
    ensures id in Step(s, ev).store && Step(s, ev).store[id] == s.store[id]
  {
    hide Launched, LaunchFailed, Finalize, Closed, NextTodo, Plan, Migrate, Cleared;
  }

  lemma StartCompleted(s: State, id: string, w: World)
    requires Inv(s) && s.active == "" && id in s.store
    requires s.store[id].status == Completed && s.store[id].runs != []
    ensures var t := Started(s, id, w);
            if s.store[id].systemConfig && !s.server then Void(t.store[id]) && !AllDone(t.store[id])
            else t.store[id].status == Completed ==> AllDone(t.store[id])
  {
    StartedGood(s, id, w);
    var e, t := s.store[id], Started(s, id, w);
    SettledRecord(s, id);
    assert RecordOk(t, id);
    var saved := e.(runs := []);
    assert Cleared(Migrate(e)) == saved;
    assert !Done([], 1);
    if !(e.systemConfig && (!s.server || !w.ensureOk)) {
      BegunHasRun(s.(store := s.store[id := saved]), id, Plan(e).0[0], w);
    }
  }

  lemma BegunHasRun(s: State, id: string, idx: int, w: World)
    requires id in s.store && Distinct(s.store[id].runs)
    ensures Begin(s, id, idx, w).store[id].runs != []
  {
  }

  /** How a record comes to be void: completed under a server manager, restarted without one. */
  lemma VoidReached()
    ensures exists s :: Reachable(s) && "e" in s.store && Void(s.store["e"]) && s.store["e"].systemConfig
  {
    hide Started, Finished, Step, Enabled, Void;
    var w := World(true, true, Some(7));
    var e := Experiment(Completed, 1, true, Some(7), [Run(1, RunCompleted, Some(7))]);
    assert Reachable(EMPTY) by { assert Runs(EMPTY, [], EMPTY); }
    var s1 := EMPTY.(server := true);
    Restarts(EMPTY, true);
    Reaches(EMPTY, Restart(true), s1);
    var s2 := Creation(s1, "e");
    FirstStart(s2, "e", w);
    var s3 := Started(s2, "e", w);
    StartStep(s2, "e", w);
    Reaches(s2, Start("e", w), s3);
    FirstFinish(s3, w);
    var s4 := Finished(s3, false, Some(7), w);
    FinishStep(s3, false, Some(7), w);
    Reaches(s3, Finish(false, Some(7), w), s4);
    assert s4 == s1.(store := map["e" := e]);
    var s5 := s4.(server := false);
    Restarts(s4, false);
    Reaches(s4, Restart(false), s5);
    ReachableGood(s5);
    StartCompleted(s5, "e", w);
    var s6 := Started(s5, "e", w);
    StartStep(s5, "e", w);
    Reaches(s5, Start("e", w), s6);
    StillConfigured(s5, "e", w);
  }

  lemma Reaches(s: State, ev: Event, t: State)
    requires Reachable(s) && Enabled(s, ev) && t == Step(s, ev)
    ensures Reachable(t)
  {
    hide Step, Enabled;
    var events :| Runs(EMPTY, events, s);
    RunThen(EMPTY, events, s, ev);
  }

  lemma {:induction false} RunThen(s: State, events: seq<Event>, t: State, ev: Event)
    requires Runs(s, events, t) && Enabled(t, ev)
    ensures Runs(s, events + [ev], Step(t, ev))
    decreases |events|
  {
    hide Step, Enabled;
    if events == [] {
      OneEvent(s, ev, Step(s, ev));
      assert [] + [ev] == [ev];
    } else {
      RunThen(Step(s, events[0]), events[1..], t, ev);
      assert (events + [ev])[1..] == events[1..] + [ev];
    }
  }

  lemma Restarts(s: State, server: bool)
    ensures Enabled(s, Restart(server))
    ensures Step(s, Restart(server)) == s.(server := server, active := "", activeRun := 0, outcome := NoOutcome)
  {
  }

  /** A new experiment of one repetition, with a server configuration. */
  lemma Creation(s: State, id: string) returns (t: State)
    requires Reachable(s) && id != "" && id !in s.store
    ensures t == s.(store := s.store[id := Experiment(Created, 1, true, None, [])]) && Reachable(t)
  {
    t := Step(s, Create(id, 1, true));
    Reaches(s, Create(id, 1, true), t);
  }

  lemma StillConfigured(s: State, id: string, w: World)
    requires id in s.store && s.active == "" && s.store[id].systemConfig && !s.server &&
             s.store[id].status == Completed
    ensures id in Started(s, id, w).store && Started(s, id, w).store[id].systemConfig
  {
    hide Plan;
  }

  lemma FirstStart(s: State, id: string, w: World)
    requires id in s.store && s.store[id] == Experiment(Created, 1, true, None, [])
    requires s.active == "" && s.server && w.ensureOk && w.runnerOk
    ensures var e := Experiment(Running, 1, true, None, [Run(1, RunRunning, None)]);
            Started(s, id, w) ==
            s.(store := s.store[id := e], active := id, activeRun := 1, outcome := WillComplete)
  {
    var saved := s.store[id];
    assert Plan(saved) == (All(1), true);
    assert Launched(saved, 1).runs == [Run(1, RunRunning, None)];
    assert s.store[id := saved] == s.store;
  }

  lemma FirstFinish(s: State, w: World)
    requires s.active == "e" && s.activeRun == 1 && s.outcome == WillComplete
    requires "e" in s.store && s.store["e"] == Experiment(Running, 1, true, None, [Run(1, RunRunning, None)])
    ensures var e := Experiment(Completed, 1, true, w.figures, [Run(1, RunCompleted, Some(7))]);
            Finished(s, false, Some(7), w) ==
            s.(store := s.store["e" := e], active := "", activeRun := 0, outcome := NoOutcome)
  {
    var e := Closed(s.store["e"], 1, (RunCompleted, Some(7)));
    assert e.runs == [Run(1, RunCompleted, Some(7))];
    assert e.runs[0].index in Indexes(e.runs);
    CountAll(e.runs, RunCompleted);
    DeriveSettled(e.runs);
  }

  /** The plan's last resort, running everything again, is never reached through an empty list. */
  lemma PlanStartsOver(s: State, id: string)
    requires Reachable(s) && id in s.store && s.store[id].status != Running
    ensures var e := Migrate(s.store[id]);
            Plan(e).1 <==> e.runs == [] || e.status == Created || e.status == Completed
  {
    hide ByIndex, Indexes, Done;
    ReachableGood(s);
    var e := s.store[id];
    SettledRecord(s, id);
    MigrateNumbered(e);
    if e.runs != [] && e.status != Created && e.status != Completed {
      PlanResumes(e);
    }
  }

  // ---- Completed runs are kept ----

  ghost predicate Keeps(before: seq<Run>, after: seq<Run>, k: nat) {
    k < |before| ==> k < |after| && after[k] == before[k]
  }

  lemma BeginKeeps(s: State, id: string, idx: int, w: World, k: nat)
    requires id in s.store && Distinct(s.store[id].runs) && k < |s.store[id].runs|
    requires s.store[id].runs[k].index != idx
    ensures Keeps(s.store[id].runs, Begin(s, id, idx, w).store[id].runs, k)
  {
    var e := Migrate(s.store[id]);
    assert e.runs == s.store[id].runs;
    var run := RunAt(e.runs, idx).(status := RunRunning);
    SetRunAt(e.runs, run);
    var begun := SetRun(e.runs, run);
    SetRunAt(begun, RunAt(begun, idx).(status := RunFailed));
  }

  /** No event touches a completed run, result included, except a fresh start of a record that
      says completed. In particular a resume repeats no completed repetition. */
  lemma CompletedRunKept(s: State, ev: Event, id: string, k: nat)
    requires Inv(s) && Enabled(s, ev) && id in s.store
    requires k < |s.store[id].runs| && s.store[id].runs[k].status == RunCompleted
    requires !(ev.Start? && ev.id == id && s.store[id].status == Completed)
    ensures id in Step(s, ev).store
    ensures Keeps(s.store[id].runs, Step(s, ev).store[id].runs, k)
  {
    hide Step, Good, Started, Finished;
    if ev.Start? && ev.id == id {
      ResumeKeeps(s, id, ev.world, k);
      StartStep(s, id, ev.world);
      StartedKnows(s, id, ev.world);
    } else if ev.Finish? && s.active == id {
      FinishKeeps(s, ev.runErr, ev.report, ev.world, k);
      FinishStep(s, ev.runErr, ev.report, ev.world);
      FinishedKnows(s, ev.runErr, ev.report, ev.world);
    } else {
      Untouched(s, ev, id);
    }
  }

  lemma StartedKnows(s: State, id: string, w: World)
    requires id in s.store
    ensures id in Started(s, id, w).store
  {
    hide Launched, LaunchFailed, Plan, Migrate, Cleared;
  }

  lemma FinishedKnows(s: State, runErr: bool, report: Option<int>, w: World)
    requires s.active in s.store
    ensures s.active in Finished(s, runErr, report, w).store
  {
    hide Launched, LaunchFailed, Finalize, Closed, NextTodo, Migrate;
  }

  lemma FinishStep(s: State, runErr: bool, report: Option<int>, w: World)
    ensures Enabled(s, Finish(runErr, report, w))
    ensures Step(s, Finish(runErr, report, w)) == Finished(s, runErr, report, w)
  {
  }

  lemma ResumeKeeps(s: State, id: string, w: World, k: nat)
    requires Inv(s) && id in s.store && s.store[id].status != Completed
    requires k < |s.store[id].runs| && s.store[id].runs[k].status == RunCompleted
    ensures Keeps(s.store[id].runs, Started(s, id, w).store[id].runs, k)
  {
    hide ByIndex, Begin;
    var e := s.store[id];
    assert RecordOk(s, id);
    assert Migrate(e) == e;
    if e.status != Running && s.active == "" {
      PlanResumes(e);
      assert Done(e.runs, e.runs[k].index);
      if !(e.systemConfig && (!s.server || !w.ensureOk)) {
        BeginKeeps(s.(store := s.store[id := e]), id, Plan(e).0[0], w, k);
      }
    }
  }

  lemma FinishKeeps(s: State, runErr: bool, report: Option<int>, w: World, k: nat)
    requires Inv(s) && s.active != ""
    requires k < |s.store[s.active].runs| && s.store[s.active].runs[k].status == RunCompleted
    ensures Keeps(s.store[s.active].runs, Finished(s, runErr, report, w).store[s.active].runs, k)
  {
    hide Begin;
    var id, idx := s.active, s.activeRun;
    var stored := s.store[id];
    var closing := Closing(s.outcome, runErr, report);
    assert RecordOk(s, id) && Good(stored, idx) && Migrate(stored) == stored;
    SetRunAt(stored.runs, RunAt(stored.runs, idx).(status := closing.0, result := closing.1));
    var e := Closed(stored, idx, closing);
    ClosedNumbered(stored, idx, closing);
    assert e.runs[k] == stored.runs[k];
    if NextTodo(e) > 0 && s.outcome != WillStop {
      var idle := s.(active := "", activeRun := 0, outcome := NoOutcome, store := s.store[id := e]);
      assert e.runs[k].index in Indexes(e.runs);
      BeginKeeps(idle, id, NextTodo(e), w, k);
    }
  }

  // ---- The order repetitions are run in ----

  /** A resume begins at the least repetition without a completed run. */
  lemma ResumeBegins(s: State, id: string, w: World)
    requires Inv(s) && s.active == "" && id in s.store && s.store[id].runs != []
    requires s.store[id].status != Completed && s.store[id].status != Running && w.runnerOk
    requires s.store[id].systemConfig ==> s.server && w.ensureOk
    ensures var t := Started(s, id, w);
            && t.active == id && !Done(s.store[id].runs, t.activeRun)
            && forall i :: 1 <= i < t.activeRun ==> Done(s.store[id].runs, i)
  {
    hide ByIndex, Done;
    var e := s.store[id];
    SettledRecord(s, id);
    assert Migrate(e) == e;
    PlanResumes(e);
  }

  function Untried(e: Experiment): set<int> { (set i | i in All(Reps(e.repetitions))) - Indexes(e.runs) }

  /** A finished run is followed only by the least repetition never tried; repetitions that failed
      before wait for the next start. */
  lemma FinishContinues(s: State, runErr: bool, report: Option<int>, w: World)
    requires Inv(s) && s.active != ""
    ensures var e, t := s.store[s.active], Finished(s, runErr, report, w);
            && (t.active == "" || t.active == s.active)
            && (t.active != "" ==>
                  && t.activeRun in Untried(e) && (forall i :: i in Untried(e) ==> t.activeRun <= i)
                  && Untried(t.store[s.active]) == Untried(e) - {t.activeRun})
            && (t.active == "" && w.runnerOk && s.outcome != WillStop ==> Untried(t.store[s.active]) == {})
  {
    hide Finalize, Indexes, Good, Numbered, Closing, Launched, Migrate, NextTodo;
    var id, idx := s.active, s.activeRun;
    var stored := s.store[id];
    var closing := Closing(s.outcome, runErr, report);
    assert RecordOk(s, id);
    ActiveKept(stored, idx);
    RepsKept(stored, idx);
    ClosingSettles(s.outcome, runErr, report);
    var e := Closed(stored, idx, closing);
    ClosedNumbered(stored, idx, closing);
    assert Untried(e) == Untried(stored);
    NextTodoLeast(e);
    if NextTodo(e) > 0 && s.outcome != WillStop {
      LaunchedNumbered(e, NextTodo(e));
      MigrateNumbered(e);
      LaunchKeepsCount(e, NextTodo(e));
    } else {
      FinalizeKeepsRuns(e, w);
    }
  }

  lemma LaunchKeepsCount(e: Experiment, idx: int)
    ensures Launched(e, idx).repetitions == e.repetitions
  {
  }

  lemma NextTodoLeast(e: Experiment)
    ensures NextTodo(e) == 0 <==> Untried(e) == {}
    ensures NextTodo(e) != 0 ==> NextTodo(e) in Untried(e) && forall i :: i in Untried(e) ==> NextTodo(e) <= i
  {
    var i := NextTodo(e);
    assert i != 0 ==> i in Untried(e);
    assert Untried(e) != {} ==> exists j :: j in Untried(e) && 1 <= j <= Reps(e.repetitions);
  }

  lemma FinalizeKeepsRuns(e: Experiment, w: World)
    ensures Finalize(e, w).runs == e.runs && Finalize(e, w).repetitions == e.repetitions
  {
  }

  function Finishes(events: seq<Event>): nat {
    if events == [] then 0 else Finishes(events[1..]) + if events[0].Finish? then 1 else 0
  }

  /** Continuation ends by itself: after one finish more than there are untried repetitions, and
      whatever starts and stops are asked for meanwhile, the experiment has let go of the runner
      at some moment. */
  lemma {:induction false} ContinuationEnds(s: State, events: seq<Event>, t: State, id: string)
    requires Inv(s) && s.active == id != "" && Runs(s, events, t)
    requires Finishes(events) > |Untried(s.store[id])|
    ensures exists n, u :: 0 < n <= |events| && Runs(s, events[..n], u) && u.active == ""
    decreases |events|
  {
    hide Indexes, Untried;
    var ev, u := events[0], Step(s, events[0]);
    StepGood(s, ev);
    OneEvent(s, ev, u);
    if u.active == "" {
      assert Runs(s, events[..1], u) by { assert events[..1] == [ev]; }
    } else {
      ActiveStep(s, ev);
      ContinuationEnds(u, events[1..], t, id);
      var n, v :| 0 < n <= |events| - 1 && Runs(u, events[1..][..n], v) && v.active == "";
      assert events[..n + 1][0] == ev && events[..n + 1][1..] == events[1..][..n];
      assert Runs(s, events[..n + 1], v);
    }
  }

  lemma OneEvent(s: State, ev: Event, u: State)
    requires Enabled(s, ev) && u == Step(s, ev)
    ensures Runs(s, [ev], u)
  {
    assert [ev][1..] == [];
    assert Runs(u, [], u);
  }

  lemma ActiveStep(s: State, ev: Event)
    requires Inv(s) && Enabled(s, ev) && s.active != "" && Step(s, ev).active != ""
    ensures var t := Step(s, ev);
            t.active == s.active && s.active in t.store &&
            |Untried(t.store[s.active])| == |Untried(s.store[s.active])| - if ev.Finish? then 1 else 0
  {
    match ev
    case Create(_, _, _) =>
    case Start(id, w) =>
      assert id in s.store && Migrate(s.store[id]).status != Running ==> s.active != "";
    case Stop(_) =>
    case Finish(runErr, report, w) =>
      FinishContinues(s, runErr, report, w);
      StepGood(s, ev);
    case Restart(_) =>
  }
}
