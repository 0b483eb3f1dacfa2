/** What the engine does to one (rule, task) pair.
    `PairOf` projects the world on a pair. A point of the pair moves the projection by `PairStep`;
    every other step leaves it alone, or ends its firing when it clears the pair's alert. */
module AlertPairs {
  import opened Wrappers
  import opened Alerts

  datatype Pair = Pair(firing: bool, streak: Option<int>)

  datatype Outcome = Quiet | Fires | Recovers

  function PairStep(rule: Rule, p: Pair, now: int, value: real): (Pair, Outcome) {
    if Violates(rule, value) then
      if p.firing then (Pair(true, None), Quiet)
      else
        var start := if p.streak.Some? then p.streak.value else now;
        if rule.dwellSecs == 0 || now - start >= rule.dwellSecs
        then (Pair(true, None), Fires) else (Pair(false, Some(start)), Quiet)
    else if !p.firing then (Pair(false, None), Quiet)
    else if IsRecovered(rule, value) then (Pair(false, None), Recovers)
    else (p, Quiet)
  }

  function PairOf(w: World, ruleId: string, task: string): Pair {
    Pair(Latest(w.alerts, RuleQuery(ruleId, task)).Some?, StreakOf(w.dwell, task, ruleId))
  }

  /******* Invariant of every reachable world *******/

  predicate RuleFiring(a: Alert) {
    a.status.Firing? && a.ruleId.Some?
  }

  // Each (rule, task) has at most one firing alert.
  ghost predicate OneFiring(alerts: seq<Alert>) {
    forall i, j | 0 <= i < |alerts| && 0 <= j < |alerts| && RuleFiring(alerts[i]) && RuleFiring(alerts[j]) ::
      alerts[i].ruleId == alerts[j].ruleId && alerts[i].taskId == alerts[j].taskId ==> i == j
  }

  // A firing pair has an empty dwell tracker.
  ghost predicate RestingWhenFiring(w: World) {
    forall i :: 0 <= i < |w.alerts| && RuleFiring(w.alerts[i]) ==>
                  StreakOf(w.dwell, w.alerts[i].taskId, w.alerts[i].ruleId.value).None?
  }

  // The heartbeat tracker only ever names stall alerts of its own task.
  ghost predicate TrackedStalls(w: World) {
    forall task :: task in w.beats && w.beats[task].stalledId.Some? ==>
                     var id := w.beats[task].stalledId.value;
                     && id < |w.alerts|
                     && w.alerts[id].ruleId.None?
                     && w.alerts[id].taskId == task
                     && w.alerts[id].metricName == STALL_METRIC
  }

  ghost predicate Inv(w: World) {
    OneFiring(w.alerts) && RestingWhenFiring(w) && TrackedStalls(w)
  }

  /******* Dwell state of distinct pairs never collides *******/

  // The outer key `task:rule` is ambiguous, but two pairs that share it have different rule ids.
  lemma TrackerKeyClash(t1: string, r1: string, t2: string, r2: string)
    requires TrackerKey(t1, r1) == TrackerKey(t2, r2) && r1 == r2
    ensures t1 == t2
  {
    assert t1 == TrackerKey(t1, r1)[..|t1|];
    assert t2 == TrackerKey(t2, r2)[..|t2|];
  }

  // Rewriting one pair's entry of its tracker leaves every other pair's streak alone.
  lemma StreakFrame(dwell: map<string, Tracker>, task: string, ruleId: string, tracker: Tracker, t: string, r: string)
    requires tracker - {ruleId} == TrackerOf(dwell, TrackerKey(task, ruleId)) - {ruleId}
    requires (t, r) != (task, ruleId)
    ensures StreakOf(dwell[TrackerKey(task, ruleId) := tracker], t, r) == StreakOf(dwell, t, r)
  {
    if TrackerKey(t, r) == TrackerKey(task, ruleId) {
      if r == ruleId {
        TrackerKeyClash(t, r, task, ruleId);
      }
      var before := TrackerOf(dwell, TrackerKey(task, ruleId));
      assert r in tracker - {ruleId} <==> r in tracker;
      assert r in before - {ruleId} <==> r in before;
      assert r in tracker ==> (tracker - {ruleId})[r] == tracker[r];
      assert r in before ==> (before - {ruleId})[r] == before[r];
    }
  }

  function TrackerAfter(w: World, rule: Rule, mp: Metric, now: int): Tracker {
    TrackerOf(PointStep(w, rule, mp, now).0.dwell, TrackerKey(mp.taskId, rule.id))
  }

  lemma PointStreaks(w: World, rule: Rule, mp: Metric, now: int, t: string, r: string)
    requires (r, t) != (rule.id, mp.taskId)
    ensures StreakOf(PointStep(w, rule, mp, now).0.dwell, t, r) == StreakOf(w.dwell, t, r)
  {
    hide EvaluateOp, IsRecovered, Latest;
    var key := TrackerKey(mp.taskId, rule.id);
    var tracker := TrackerOf(w.dwell, key);
    var after := TrackerAfter(w, rule, mp, now);
    assert after - {rule.id} == tracker - {rule.id};
    assert PointStep(w, rule, mp, now).0.dwell == w.dwell[key := after];
    StreakFrame(w.dwell, mp.taskId, rule.id, after, t, r);
  }

  /******* Effect of each step on a pair *******/

  ghost predicate EventFits(events: seq<Event>, o: Outcome, w: World, rule: Rule, mp: Metric, now: int) {
    match o
    case Quiet => events == []
    case Fires => events == [FiringEventOf(|w.alerts|, RuleAlert(w, rule, mp, now))]
    case Recovers =>
      exists id: nat :: id < |w.alerts| && Matches(RuleQuery(rule.id, mp.taskId), w.alerts[id]) &&
                        events == [RecoveryEvent(id, mp.taskId, w.alerts[id].runId, w.alerts[id].severity, now)]
  }

  lemma PointOwn(w: World, rule: Rule, mp: Metric, now: int)
    requires Inv(w)
    ensures var (w', events) := PointStep(w, rule, mp, now);
            var (p', o) := PairStep(rule, PairOf(w, rule.id, mp.taskId), now, mp.value);
            PairOf(w', rule.id, mp.taskId) == p' && EventFits(events, o, w, rule, mp, now)
  {
    var q := RuleQuery(rule.id, mp.taskId);
    var (w', events) := PointStep(w, rule, mp, now);
    var existing := Latest(w.alerts, q);
    if existing.None? && |w'.alerts| > |w.alerts| {
      assert Matches(q, w'.alerts[|w.alerts|]);
    }
  }

  lemma PointOther(w: World, rule: Rule, mp: Metric, now: int, ruleId: string, task: string)
    requires (ruleId, task) != (rule.id, mp.taskId)
    ensures PairOf(PointStep(w, rule, mp, now).0, ruleId, task) == PairOf(w, ruleId, task)
  {
    PointStreaks(w, rule, mp, now, task, ruleId);
    SameMatches(w.alerts, PointStep(w, rule, mp, now).0.alerts, RuleQuery(ruleId, task));
  }

  // Two tables that match a query at the same old positions, and nowhere new, answer it alike.
  lemma SameMatches(before: seq<Alert>, after: seq<Alert>, q: Query)
    requires |before| <= |after|
    requires forall i :: 0 <= i < |before| ==> (Matches(q, after[i]) <==> Matches(q, before[i]))
    requires forall i :: |before| <= i < |after| ==> !Matches(q, after[i])
    ensures Latest(after, q).Some? <==> Latest(before, q).Some?
  {
  }

  lemma CheckOther(w: World, task: string, runId: Option<string>, now: int, secs: int, ruleId: string, t: string)
    requires TrackedStalls(w)
    ensures PairOf(CheckStep(w, task, runId, now, secs).0, ruleId, t) == PairOf(w, ruleId, t)
  {
    SameMatches(w.alerts, CheckStep(w, task, runId, now, secs).0.alerts, RuleQuery(ruleId, t));
  }

  // Clearing the firing alert of a pair ends its firing; any other clear does not touch the pair.
  lemma ClearPair(w: World, id: nat, user: string, at: int, ruleId: string, task: string)
    requires Inv(w)
    ensures var p := PairOf(w, ruleId, task);
            PairOf(ClearStep(w, id, user, at).0, ruleId, task) ==
            if ClearsPair(w, id, ruleId, task) then Pair(false, None) else p
  {
    var q := RuleQuery(ruleId, task);
    var w' := ClearStep(w, id, user, at).0;
    if !ClearsPair(w, id, ruleId, task) {
      SameMatches(w.alerts, w'.alerts, q);
    }
  }

  predicate ClearsPair(w: World, id: nat, ruleId: string, task: string) {
    id < |w.alerts| && Matches(RuleQuery(ruleId, task), w.alerts[id])
  }

  /******* The invariant holds in every run *******/

  // A rule alert that fires after a point fired before it, or is the one the point raised.
  lemma PointFiring(w: World, rule: Rule, mp: Metric, now: int, i: nat)
    requires var w' := PointStep(w, rule, mp, now).0; i < |w'.alerts| && RuleFiring(w'.alerts[i])
    ensures var a := PointStep(w, rule, mp, now).0.alerts[i];
            if i < |w.alerts| then a == w.alerts[i] else a.ruleId == Some(rule.id) && a.taskId == mp.taskId
  {
    hide Latest, EvaluateOp, IsRecovered;
  }

  lemma OwnRests(w: World, rule: Rule, mp: Metric, now: int)
    requires Inv(w)
    ensures var p := PairOf(PointStep(w, rule, mp, now).0, rule.id, mp.taskId); p.firing ==> p.streak.None?
  {
    hide PointStep, Latest;
    PointOwn(w, rule, mp, now);
    hide EvaluateOp, IsRecovered;
    FiringRests(w, rule.id, mp.taskId);
  }

  lemma FiringRests(w: World, ruleId: string, task: string)
    requires Inv(w)
    ensures var p := PairOf(w, ruleId, task); p.firing ==> p.streak.None?
  {
    hide Latest, TrackerKey;
  }

  lemma PointKeepsResting(w: World, rule: Rule, mp: Metric, now: int)
    requires Inv(w)
    ensures RestingWhenFiring(PointStep(w, rule, mp, now).0)
  {
    var w' := PointStep(w, rule, mp, now).0;
    OwnRests(w, rule, mp, now);
    hide PointStep, Latest, TrackerKey;
    forall i | 0 <= i < |w'.alerts| && RuleFiring(w'.alerts[i])
      ensures StreakOf(w'.dwell, w'.alerts[i].taskId, w'.alerts[i].ruleId.value).None?
    {
      var t, r := w'.alerts[i].taskId, w'.alerts[i].ruleId.value;
      if (r, t) == (rule.id, mp.taskId) {
        assert Matches(RuleQuery(r, t), w'.alerts[i]);
      } else {
        PointStreaks(w, rule, mp, now, t, r);
        PointFiring(w, rule, mp, now, i);
      }
    }
  }

  lemma PointKeepsInv(w: World, rule: Rule, mp: Metric, now: int)
    requires Inv(w)
    ensures Inv(PointStep(w, rule, mp, now).0)
  {
    hide EvaluateOp, IsRecovered, StreakOf;
    PointKeepsResting(w, rule, mp, now);
  }

  lemma CheckKeepsInv(w: World, task: string, runId: Option<string>, now: int, secs: int)
    requires Inv(w)
    ensures Inv(CheckStep(w, task, runId, now, secs).0)
  {
    hide Latest, TrackerOf, TrackerKey, Silenced;
  }

  lemma StepKeepsInv(w: World, s: Step)
    requires Inv(w)
    ensures Inv(Apply(w, s).0)
  {
    match s
    case Point(rule, metric, now) => PointKeepsInv(w, rule, metric, now);
    case CheckBeat(task, runId, now, secs) => CheckKeepsInv(w, task, runId, now, secs);
    case _ =>
  }

  lemma {:induction false} RunKeepsInv(w: World, steps: seq<Step>)
    requires Inv(w)
    ensures Inv(Run(w, steps).0)
  {
    if steps == [] {
    } else {
      var n := |steps| - 1;
      RunKeepsInv(w, steps[..n]);
      StepKeepsInv(Run(w, steps[..n]).0, steps[n]);
    }
  }
}
