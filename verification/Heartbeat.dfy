/** The heartbeat-stall machine, over every run, operator clears included. */
module Heartbeat {
  import opened Wrappers
  import opened Alerts
  import opened AlertPairs

  /******* The reference: read from the step sequence alone *******/

  function LastBeat(steps: seq<Step>, task: string): Option<int> {
    if steps == [] then None
    else
      var n := |steps| - 1;
      if steps[n].UpdateBeat? && steps[n].task == task then Some(steps[n].ts) else LastBeat(steps[..n], task)
  }

  // Was the task stale the last time it was evaluated?
  predicate StaleAtLatest(steps: seq<Step>, task: string) {
    && steps != []
    && var n := |steps| - 1;
       if steps[n].CheckBeat? && steps[n].task == task then
         var last := LastBeat(steps[..n], task);
         last.Some? && steps[n].now - last.value > steps[n].thresholdSecs
       else StaleAtLatest(steps[..n], task)
  }

  // The stall events of one task must read: stalled, recovered, stalled, ... each recovery
  // closing the stall before it.
  datatype Phase = Idle | Open(id: nat) | Broken

  function PhaseOf(events: seq<Event>, task: string): Phase {
    if events == [] then Idle
    else
      var n := |events| - 1;
      var before, e := PhaseOf(events[..n], task), events[n];
      if e.StalledEvent? && e.taskId == task then (if before.Idle? then Open(e.id) else Broken)
      else if e.StallRecoveredEvent? && e.taskId == task then (if before == Open(e.id) then Idle else Broken)
      else before
  }

  lemma PhaseAppend(events: seq<Event>, more: seq<Event>, task: string)
    requires |more| <= 1
    ensures PhaseOf(events + more, task) ==
            if more == [] then PhaseOf(events, task)
            else
              var e, before := more[0], PhaseOf(events, task);
              if e.StalledEvent? && e.taskId == task then (if before.Idle? then Open(e.id) else Broken)
              else if e.StallRecoveredEvent? && e.taskId == task then (if before == Open(e.id) then Idle else Broken)
              else before
  {
    if more == [] {
      assert events + more == events;
    } else {
      assert (events + more)[..|events|] == events;
    }
  }

  /******* Tracker, table and events agree *******/

  predicate StallFiring(a: Alert, task: string) {
    a.status.Firing? && a.ruleId.None? && a.metricName == STALL_METRIC && a.taskId == task
  }

  function TrackedId(w: World, task: string): Option<nat> {
    if task in w.beats then w.beats[task].stalledId else None
  }

  // The only stall alert of the task that can be firing is the tracked one, which a clear may have dismissed but no
  // recovery has closed; and the stall events so far end as the tracker says.
  ghost predicate Agreement(w: World, events: seq<Event>, task: string) {
    && Inv(w)
    && (forall id: nat :: id < |w.alerts| && StallFiring(w.alerts[id], task) ==> TrackedId(w, task) == Some(id))
    && (forall id: nat :: id < |w.alerts| && TrackedId(w, task) == Some(id) ==> !w.alerts[id].status.Recovered?)
    && PhaseOf(events, task) == match TrackedId(w, task) { case None => Idle case Some(id) => Open(id) }
  }

  ghost predicate TrackedFires(w: World, task: string) {
    forall id: nat :: id < |w.alerts| && TrackedId(w, task) == Some(id) ==> StallFiring(w.alerts[id], task)
  }

  // A point touches no heartbeat, no alert without a rule and no stall event.
  lemma PointStalls(w: World, rule: Rule, mp: Metric, now: int, task: string)
    ensures var (w', more) := PointStep(w, rule, mp, now);
            && w'.beats == w.beats && |w.alerts| <= |w'.alerts| && |more| <= 1
            && (forall e :: e in more ==> !e.StalledEvent? && !e.StallRecoveredEvent?)
            && (forall i :: 0 <= i < |w.alerts| && w.alerts[i].ruleId.None? ==> w'.alerts[i] == w.alerts[i])
            && (forall i :: 0 <= i < |w.alerts| ==> (StallFiring(w'.alerts[i], task) <==> StallFiring(w.alerts[i], task)))
            && (forall i :: |w.alerts| <= i < |w'.alerts| ==> !StallFiring(w'.alerts[i], task))
  {
    hide EvaluateOp, IsRecovered, TrackerKey, TrackerOf, RecordViolation;
  }

  lemma PointAgreement(w: World, events: seq<Event>, rule: Rule, mp: Metric, now: int, task: string)
    requires Agreement(w, events, task)
    ensures var (w', more) := PointStep(w, rule, mp, now);
            Agreement(w', events + more, task) && (TrackedFires(w, task) ==> TrackedFires(w', task))
  {
    hide PointStep, Inv, StallFiring;
    var (w', more) := PointStep(w, rule, mp, now);
    PointKeepsInv(w, rule, mp, now);
    PointStalls(w, rule, mp, now, task);
    PhaseAppend(events, more, task);
    assert TrackedId(w', task) == TrackedId(w, task);
    TrackedInTable(w, task);
  }

  lemma TrackedInTable(w: World, task: string)
    requires Inv(w)
    ensures TrackedId(w, task).Some? ==>
              TrackedId(w, task).value < |w.alerts| && w.alerts[TrackedId(w, task).value].ruleId.None?
  {
  }

  lemma CheckAgreement(w: World, events: seq<Event>, t: string, runId: Option<string>, now: int, secs: int, task: string)
    requires Agreement(w, events, task)
    ensures var (w', more) := CheckStep(w, t, runId, now, secs);
            Agreement(w', events + more, task) && (TrackedFires(w, task) ==> TrackedFires(w', task))
  {
    if t == task {
      OwnCheck(w, events, runId, now, secs, task);
    } else {
      hide CheckStep, Inv, StallFiring, PhaseOf;
      CheckKeepsInv(w, t, runId, now, secs);
      OtherCheck(w, t, runId, now, secs, task);
      PhaseAppend(events, CheckStep(w, t, runId, now, secs).1, task);
    }
  }

  lemma OwnCheck(w: World, events: seq<Event>, runId: Option<string>, now: int, secs: int, task: string)
    requires Agreement(w, events, task)
    ensures var (w', more) := CheckStep(w, task, runId, now, secs);
            Agreement(w', events + more, task) && (TrackedFires(w, task) ==> TrackedFires(w', task))
  {
    CheckKeepsInv(w, task, runId, now, secs);
    TrackedInTable(w, task);
    PhaseAppend(events, CheckStep(w, task, runId, now, secs).1, task);
    hide Latest, Silenced, Inv, PhaseOf;
  }

  // An evaluation of another task leaves this task's tracker and alerts alone.
  lemma OtherCheck(w: World, t: string, runId: Option<string>, now: int, secs: int, task: string)
    requires Inv(w) && t != task
    ensures var (w', more) := CheckStep(w, t, runId, now, secs);
            && TrackedId(w', task) == TrackedId(w, task) && |w.alerts| <= |w'.alerts| && |more| <= 1
            && (forall e :: e in more ==> (e.StalledEvent? || e.StallRecoveredEvent?) && e.taskId == t)
            && (TrackedId(w, task).Some? ==> TrackedId(w, task).value < |w.alerts|)
            && (forall i :: 0 <= i < |w.alerts| && w.alerts[i].taskId == task ==> w'.alerts[i] == w.alerts[i])
            && (forall i :: 0 <= i < |w'.alerts| && StallFiring(w'.alerts[i], task) ==>
                  i < |w.alerts| && StallFiring(w.alerts[i], task))
            && (TrackedId(w, task).Some? ==> w.alerts[TrackedId(w, task).value].taskId == task)
  {
    hide Latest, Silenced, OneFiring, RestingWhenFiring;
  }

  lemma ClearAgreement(w: World, events: seq<Event>, id: nat, user: string, at: int, task: string)
    requires Agreement(w, events, task)
    ensures var (w', more) := ClearStep(w, id, user, at); Agreement(w', events + more, task)
  {
    hide PointStep, CheckStep, Inv, PhaseOf;
    StepKeepsInv(w, Clear(id, user, at));
    PhaseAppend(events, ClearStep(w, id, user, at).1, task);
  }

  lemma StepAgreement(w: World, events: seq<Event>, s: Step, task: string)
    requires Agreement(w, events, task)
    ensures Agreement(Apply(w, s).0, events + Apply(w, s).1, task)
    ensures !s.Clear? && TrackedFires(w, task) ==> TrackedFires(Apply(w, s).0, task)
  {
    match s
    case Point(rule, mp, now) => PointAgreement(w, events, rule, mp, now, task);
    case CheckBeat(t, runId, now, secs) => CheckAgreement(w, events, t, runId, now, secs, task);
    case Clear(id, user, at) => ClearAgreement(w, events, id, user, at, task);
    case _ =>
      hide PointStep, CheckStep, ClearStep;
      StepKeepsInv(w, s);
      PhaseAppend(events, [], task);
  }

  ghost predicate NoClears(steps: seq<Step>) {
    forall i :: 0 <= i < |steps| ==> !steps[i].Clear?
  }

  // After every run the stalled and recovered events of the task strictly alternate and only the tracked stall alert can
  // be firing; without clears it is.
  lemma {:induction false} TrackerTableEventsAgree(steps: seq<Step>, task: string)
    ensures Agreement(Run(EMPTY, steps).0, Run(EMPTY, steps).1, task)
    ensures NoClears(steps) ==> TrackedFires(Run(EMPTY, steps).0, task)
  {
    hide Agreement, TrackedFires, Apply;
    if steps == [] {
      EmptyAgreement(task);
    } else {
      var n := |steps| - 1;
      TrackerTableEventsAgree(steps[..n], task);
      assert NoClears(steps) ==> NoClears(steps[..n]) && !steps[n].Clear?;
      StepAgreement(Run(EMPTY, steps[..n]).0, Run(EMPTY, steps[..n]).1, steps[n], task);
    }
  }

  lemma EmptyAgreement(task: string)
    ensures Agreement(EMPTY, [], task) && TrackedFires(EMPTY, task)
  {
  }

  lemma {:induction false} BeatsAreLast(steps: seq<Step>, task: string)
    ensures var beats := Run(EMPTY, steps).0.beats;
            match LastBeat(steps, task)
            case None => task !in beats
            case Some(t) => task in beats && beats[task].last == t
  {
    if steps == [] {
    } else {
      var n := |steps| - 1;
      BeatsAreLast(steps[..n], task);
      hide PointStep, Latest, Silenced;
      if steps[n].Point? {
        PointStalls(Run(EMPTY, steps[..n]).0, steps[n].rule, steps[n].metric, steps[n].now, task);
      }
    }
  }

  /******* Firing exactly while stale *******/

  // A rule on the reserved metric name is found by the stall query too, and hides a new stall.
  ghost predicate Shadowed(w: World, task: string) {
    exists i :: 0 <= i < |w.alerts| && Matches(StallQuery(task), w.alerts[i]) && w.alerts[i].ruleId.Some?
  }

  ghost predicate StallStands(w: World, task: string) {
    exists i :: 0 <= i < |w.alerts| && StallFiring(w.alerts[i], task)
  }

  lemma FoundIsShadow(w: World, events: seq<Event>, task: string)
    requires Agreement(w, events, task) && TrackedId(w, task).None?
    ensures Latest(w.alerts, StallQuery(task)).None? <==> !Shadowed(w, task)
    ensures !StallStands(w, task)
  {
    hide Inv, PhaseOf;
    var found := Latest(w.alerts, StallQuery(task));
    assert found.Some? ==> Matches(StallQuery(task), w.alerts[found.value]);
  }

  /** What one evaluation of the task leaves: a stall alert exactly when the task is stale and one stood already, or none
      is tracked and none is shadowed.  A dismissed alert stays tracked, so a task that is still stale raises no other. */
  lemma CheckOutcome(w: World, events: seq<Event>, task: string, runId: Option<string>, now: int, secs: int)
    requires Agreement(w, events, task)
    ensures var w' := CheckStep(w, task, runId, now, secs).0;
            && (StallStands(w', task) <==>
                Stale(w, task, now, secs) && (StallStands(w, task) || (TrackedId(w, task).None? && !Shadowed(w, task))))
            && (TrackedId(w', task).None? <==>
                !Stale(w, task, now, secs) || (TrackedId(w, task).None? && Shadowed(w, task)))
  {
    hide Latest, Silenced;
    var w' := CheckStep(w, task, runId, now, secs).0;
    StepAgreement(w, events, CheckBeat(task, runId, now, secs), task);
    TrackedInTable(w, task);
    if TrackedId(w, task).None? {
      FoundIsShadow(w, events, task);
    }
    hide Inv, Shadowed, PhaseOf;
    if |w'.alerts| > |w.alerts| {
      assert StallFiring(w'.alerts[|w.alerts|], task);
    } else if StallStands(w, task) && Stale(w, task, now, secs) {
      var i :| 0 <= i < |w.alerts| && StallFiring(w.alerts[i], task);
      assert StallFiring(w'.alerts[i], task);
    }
  }

  lemma OtherStepKeepsStall(w: World, s: Step, task: string)
    requires Inv(w) && !s.Clear? && !(s.CheckBeat? && s.task == task)
    ensures StallStands(Apply(w, s).0, task) <==> StallStands(w, task)
  {
    hide PointStep, Latest;
    var w' := Apply(w, s).0;
    if s.Point? {
      PointStalls(w, s.rule, s.metric, s.now, task);
      hide StallFiring;
    }
    if StallStands(w, task) {
      var i :| 0 <= i < |w.alerts| && StallFiring(w.alerts[i], task);
      assert StallFiring(w'.alerts[i], task);
    }
    if StallStands(w', task) {
      var i :| 0 <= i < |w'.alerts| && StallFiring(w'.alerts[i], task);
      assert i < |w.alerts| && StallFiring(w.alerts[i], task);
    }
  }

  ghost predicate NoRuleOnStallMetric(steps: seq<Step>) {
    forall i :: 0 <= i < |steps| && steps[i].Point? ==> steps[i].rule.metricName != STALL_METRIC
  }

  lemma {:induction false} NeverShadowed(steps: seq<Step>)
    requires NoRuleOnStallMetric(steps)
    ensures forall i :: 0 <= i < |Run(EMPTY, steps).0.alerts| ==>
                          var a := Run(EMPTY, steps).0.alerts[i];
                          a.ruleId.Some? ==> a.metricName != STALL_METRIC
  {
    if steps == [] {
    } else {
      NeverShadowed(steps[..|steps| - 1]);
    }
  }

  lemma NoneShadowed(steps: seq<Step>, task: string)
    requires NoRuleOnStallMetric(steps)
    ensures !Shadowed(Run(EMPTY, steps).0, task)
  {
    NeverShadowed(steps);
    hide Run;
  }

  /******* Over whole runs *******/

  datatype Stall = Calm | Standing | Dismissed

  predicate Dismisses(w: World, s: Step, task: string) {
    s.Clear? && s.id < |w.alerts| && StallFiring(w.alerts[s.id], task)
  }

  // Raised by the first stale evaluation, dismissed by a clear of the standing alert, over at the first fresh one.
  ghost function StallAfter(steps: seq<Step>, task: string): Stall {
    if steps == [] then Calm
    else
      var n := |steps| - 1;
      var before := StallAfter(steps[..n], task);
      if steps[n].CheckBeat? && steps[n].task == task then
        if !StaleAtLatest(steps, task) then Calm else if before.Calm? then Standing else before
      else if Dismisses(Run(EMPTY, steps[..n]).0, steps[n], task) then Dismissed
      else before
  }

  lemma DismissEnds(w: World, events: seq<Event>, s: Step, task: string)
    requires Agreement(w, events, task) && s.Clear?
    ensures var w' := Apply(w, s).0;
            && TrackedId(w', task) == TrackedId(w, task)
            && (StallStands(w', task) <==> StallStands(w, task) && !Dismisses(w, s, task))
  {
    hide Inv, PhaseOf;
    var w' := Apply(w, s).0;
    if StallStands(w, task) && !Dismisses(w, s, task) {
      var i :| 0 <= i < |w.alerts| && StallFiring(w.alerts[i], task);
      assert StallFiring(w'.alerts[i], task);
    }
    if StallStands(w', task) {
      var i :| 0 <= i < |w'.alerts| && StallFiring(w'.alerts[i], task);
      assert StallFiring(w.alerts[i], task);
    }
  }

  lemma OtherStepKeepsTracked(w: World, s: Step, task: string)
    requires !(s.CheckBeat? && s.task == task)
    ensures TrackedId(Apply(w, s).0, task) == TrackedId(w, task)
  {
    hide PointStep, Latest, Silenced;
    if s.Point? {
      PointStalls(w, s.rule, s.metric, s.now, task);
    }
  }

  lemma StaleReadsOff(steps: seq<Step>, task: string)
    requires steps != [] && steps[|steps| - 1].CheckBeat? && steps[|steps| - 1].task == task
    ensures var n := |steps| - 1;
            StaleAtLatest(steps, task) <==>
            Stale(Run(EMPTY, steps[..n]).0, task, steps[n].now, steps[n].thresholdSecs)
  {
    hide Run, LastBeat;
    BeatsAreLast(steps[..|steps| - 1], task);
  }

  // In every run without rules on the reserved name, clears included: a stall alert of the task is firing, has been
  // dismissed, or is not tracked, exactly as the step sequence says.
  lemma {:induction false} StallFollowsSteps(steps: seq<Step>, task: string)
    requires NoRuleOnStallMetric(steps)
    ensures var w := Run(EMPTY, steps).0;
            && (StallStands(w, task) <==> StallAfter(steps, task) == Standing)
            && (TrackedId(w, task).None? <==> StallAfter(steps, task) == Calm)
  {
    if steps == [] {
    } else {
      var n := |steps| - 1;
      var s := steps[n];
      var (w, events) := Run(EMPTY, steps[..n]);
      StallFollowsSteps(steps[..n], task);
      TrackerTableEventsAgree(steps[..n], task);
      hide Agreement, StallStands, TrackedId, Apply, Shadowed, NoRuleOnStallMetric, StaleAtLatest;
      if s.CheckBeat? && s.task == task {
        StaleReadsOff(steps, task);
        NoneShadowed(steps[..n], task);
        CheckOutcome(w, events, task, s.runId, s.now, s.thresholdSecs);
        CheckApplies(w, s);
      } else {
        OtherStepKeepsTracked(w, s, task);
        if s.Clear? {
          DismissEnds(w, events, s, task);
          StandingTracked(w, events, task);
        } else {
          AgreementInv(w, events, task);
          OtherStepKeepsStall(w, s, task);
        }
      }
    }
  }

  lemma CheckApplies(w: World, s: Step)
    requires s.CheckBeat?
    ensures Apply(w, s) == CheckStep(w, s.task, s.runId, s.now, s.thresholdSecs)
  {
  }

  lemma AgreementInv(w: World, events: seq<Event>, task: string)
    requires Agreement(w, events, task)
    ensures Inv(w)
  {
  }

  lemma StandingTracked(w: World, events: seq<Event>, task: string)
    requires Agreement(w, events, task)
    ensures StallStands(w, task) ==> TrackedId(w, task).Some?
    ensures forall s :: Dismisses(w, s, task) ==> StallStands(w, task)
  {
  }

  // In a process run without clears or rules on the reserved name, a stall alert is firing for a task
  // exactly when the task was stale at its latest evaluation.
  lemma {:induction false} StalledExactlyWhenStale(steps: seq<Step>, task: string)
    requires NoClears(steps) && NoRuleOnStallMetric(steps)
    ensures StallStands(Run(EMPTY, steps).0, task) <==> StaleAtLatest(steps, task)
  {
    StallFollowsSteps(steps, task);
    hide StallStands, Run;
    WithoutClears(steps, task);
  }

  lemma {:induction false} WithoutClears(steps: seq<Step>, task: string)
    requires NoClears(steps)
    ensures StallAfter(steps, task) == if StaleAtLatest(steps, task) then Standing else Calm
  {
    hide Run, LastBeat;
    if steps == [] {
    } else {
      WithoutClears(steps[..|steps| - 1], task);
    }
  }

  // With a rule on the reserved name the law fails: the task is stale and no stall alert is raised.
  lemma RuleCanHideStall() returns (steps: seq<Step>)
    ensures NoClears(steps) && StaleAtLatest(steps, "t") && !StallStands(Run(EMPTY, steps).0, "t")
  {
    var rule := Rule("r", STALL_METRIC, ">", 0.0, None, "warning", 0, true);
    var mp := Metric("t", "run", STALL_METRIC, 0, 1.0);
    var point, beat, check := Point(rule, mp, 0), UpdateBeat("t", 0), CheckBeat("t", None, 100, 60);
    steps := [point, beat, check];
    RunSnoc(EMPTY, [], point);
    RunSnoc(EMPTY, [point], beat);
    assert [] + [point] == [point] && [point] + [beat] == steps[..2];
    var w := Run(EMPTY, steps[..2]).0;
    assert w.alerts == [RuleAlert(EMPTY, rule, mp, 0)];
    assert Matches(StallQuery("t"), w.alerts[0]);
    TrackerTableEventsAgree(steps[..2], "t");
    CheckOutcome(w, Run(EMPTY, steps[..2]).1, "t", None, 100, 60);
    assert LastBeat(steps[..2], "t") == Some(0);
  }

  /******* A whole heartbeat evaluation *******/

  function LastStamp(stamps: seq<(string, int)>, task: string): Option<int> {
    if stamps == [] then None
    else
      var n := |stamps| - 1;
      if stamps[n].0 == task then Some(stamps[n].1) else LastStamp(stamps[..n], task)
  }

  lemma {:induction false} BeatsThen(steps: seq<Step>, stamps: seq<(string, int)>, task: string)
    ensures var all, last := steps + BeatSteps(stamps), LastStamp(stamps, task);
            && LastBeat(all, task) == (if last.Some? then last else LastBeat(steps, task))
            && (StaleAtLatest(all, task) <==> StaleAtLatest(steps, task))
  {
    var all := steps + BeatSteps(stamps);
    if stamps == [] {
      assert all == steps;
    } else {
      var n := |stamps| - 1;
      BeatsThen(steps, stamps[..n], task);
      assert all[..|all| - 1] == steps + BeatSteps(stamps[..n]);
      assert all[|all| - 1] == UpdateBeat(stamps[n].0, stamps[n].1);
    }
  }

  ghost predicate Listed(tasks: seq<(string, Option<string>)>, task: string) {
    exists i :: 0 <= i < |tasks| && tasks[i].0 == task
  }

  lemma ListedSnoc(tasks: seq<(string, Option<string>)>, task: string)
    requires tasks != []
    ensures var n := |tasks| - 1; Listed(tasks, task) <==> Listed(tasks[..n], task) || tasks[n].0 == task
  {
    var n := |tasks| - 1;
    assert forall i :: 0 <= i < n ==> tasks[..n][i] == tasks[i];
    if Listed(tasks[..n], task) {
      var i :| 0 <= i < n && tasks[..n][i].0 == task;
      assert tasks[i].0 == task;
    }
  }

  lemma {:induction false} ChecksThen(steps: seq<Step>, tasks: seq<(string, Option<string>)>, now: int, secs: int, task: string)
    ensures var all, last := steps + CheckSteps(tasks, now, secs), LastBeat(steps, task);
            && LastBeat(all, task) == last
            && (StaleAtLatest(all, task) <==>
                if Listed(tasks, task) then last.Some? && now - last.value > secs else StaleAtLatest(steps, task))
  {
    var all := steps + CheckSteps(tasks, now, secs);
    if tasks == [] {
      assert all == steps;
    } else {
      var n := |tasks| - 1;
      ChecksThen(steps, tasks[..n], now, secs, task);
      ListedSnoc(tasks, task);
      hide Listed;
      assert all[..|all| - 1] == steps + CheckSteps(tasks[..n], now, secs);
      assert all[|all| - 1] == CheckBeat(tasks[n].0, tasks[n].1, now, secs);
    }
  }

  // Every listed task is judged by its newest heartbeat, this evaluation's own included; the others are not judged.
  lemma EvaluationJudges(steps: seq<Step>, stamps: seq<(string, int)>, tasks: seq<(string, Option<string>)>, now: int,
                         secs: int, task: string)
    ensures var all := steps + BeatSteps(stamps) + CheckSteps(tasks, now, secs);
            var last := if LastStamp(stamps, task).Some? then LastStamp(stamps, task) else LastBeat(steps, task);
            StaleAtLatest(all, task) <==>
            if Listed(tasks, task) then last.Some? && now - last.value > secs else StaleAtLatest(steps, task)
  {
    hide LastBeat, StaleAtLatest, LastStamp, Listed;
    BeatsThen(steps, stamps, task);
    ChecksThen(steps + BeatSteps(stamps), tasks, now, secs, task);
  }

  // The row and the event of a stall, and of its end.
  lemma StallRows(w: World, task: string, runId: Option<string>, now: int, secs: int)
    ensures var (w', events) := CheckStep(w, task, runId, now, secs);
            var silenced := w.silence.Some? && w.silence.value.0 <= now && now <= w.silence.value.1;
            if task in w.beats && now - w.beats[task].last > secs then
              if w.beats[task].stalledId.None? && forall i :: 0 <= i < |w.alerts| ==> !Matches(StallQuery(task), w.alerts[i])
              then
                && w'.alerts == w.alerts + [Alert(task, runId, None, "cdc_stalled", None, None, "critical", None, Firing,
                                                  silenced, now, None, None, None)]
                && w'.beats == w.beats[task := Beat(w.beats[task].last, Some(|w.alerts|))]
                && events == [StalledEvent(|w.alerts|, task, runId, Some(w.beats[task].last), now, silenced)]
              else w' == w && events == []
            else if task in w.beats && w.beats[task].stalledId.Some? && w.beats[task].stalledId.value < |w.alerts| then
              var id := w.beats[task].stalledId.value;
              && w'.alerts == w.alerts[id := w.alerts[id].(status := Recovered, recoveredAt := Some(now))]
              && w'.beats == w.beats[task := Beat(w.beats[task].last, None)]
              && events == [StallRecoveredEvent(id, task, now)]
            else w' == w && events == []
  {
  }
}
