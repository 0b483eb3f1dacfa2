/** What a point does, with every comparison and every field written out. */
module AlertRules {
  import opened Wrappers
  import opened Alerts
  import opened AlertPairs
  import opened Simulator

  // No alert of the rule is firing for the task.
  ghost predicate Idle(w: World, rule: Rule, task: string) {
    forall i :: 0 <= i < |w.alerts| ==>
      !(w.alerts[i].status == Firing && w.alerts[i].ruleId == Some(rule.id) && w.alerts[i].taskId == task)
  }

  lemma IdleFindsNone(w: World, rule: Rule, task: string)
    ensures Latest(w.alerts, RuleQuery(rule.id, task)).None? <==> Idle(w, rule, task)
  {
  }

  // Without dwell, a point of an idle pair raises an alert exactly when its value is on the far side of the threshold.
  lemma FiresByOperator(w: World, rule: Rule, mp: Metric, now: int)
    requires rule.dwellSecs == 0 && Idle(w, rule, mp.taskId)
    ensures var (w', events) := PointStep(w, rule, mp, now);
            var v, t := mp.value, rule.threshold;
            && (rule.operator == ">" ==> (events != [] <==> v > t))
            && (rule.operator == "<" ==> (events != [] <==> v < t))
            && (rule.operator == ">=" ==> (events != [] <==> v >= t))
            && (rule.operator == "<=" ==> (events != [] <==> v <= t))
            && (rule.operator == "==" ==> (events != [] <==> -1.0 / 4503599627370496.0 < v - t < 1.0 / 4503599627370496.0))
            && (rule.operator !in [">", "<", ">=", "<=", "=="] ==> events == [])
  {
    hide Latest, TrackerKey, TrackerOf;
    IdleFindsNone(w, rule, mp.taskId);
  }

  // The row and the event it raises.
  lemma RaisedAlert(w: World, rule: Rule, mp: Metric, now: int)
    requires Idle(w, rule, mp.taskId)
    ensures var (w', events) := PointStep(w, rule, mp, now);
            var silenced := w.silence.Some? && w.silence.value.0 <= now && now <= w.silence.value.1;
            if events == [] then w'.alerts == w.alerts
            else
              && w'.alerts == w.alerts + [Alert(mp.taskId, Some(mp.runId), Some(rule.id), rule.metricName,
                                                Some(rule.operator), Some(rule.threshold), rule.severity, Some(mp.value),
                                                Firing, silenced, now, None, None, None)]
              && events == [FiringEvent(|w.alerts|, mp.taskId, Some(mp.runId), Some(rule.id), rule.severity,
                                        rule.metricName, Some(mp.value), Some(rule.threshold), now, silenced)]
  {
    hide Latest, TrackerKey, TrackerOf, EvaluateOp;
    IdleFindsNone(w, rule, mp.taskId);
  }

  ghost predicate FiringRow(w: World, rule: Rule, task: string, id: nat) {
    && id < |w.alerts|
    && w.alerts[id].status == Firing && w.alerts[id].ruleId == Some(rule.id) && w.alerts[id].taskId == task
  }

  lemma FoundRow(w: World, rule: Rule, task: string, id: nat)
    requires Inv(w) && FiringRow(w, rule, task, id)
    ensures Latest(w.alerts, RuleQuery(rule.id, task)) == Some(id)
  {
    hide RestingWhenFiring, TrackedStalls;
    assert Matches(RuleQuery(rule.id, task), w.alerts[id]);
  }

  // With a recovery threshold, a firing pair recovers exactly at a value that no longer violates and has crossed it: in
  // between it goes on firing.
  lemma RecoversByOperator(w: World, rule: Rule, mp: Metric, now: int, id: nat)
    requires Inv(w) && FiringRow(w, rule, mp.taskId, id) && rule.recoveryThreshold.Some?
    ensures var events := PointStep(w, rule, mp, now).1;
            var v, t, rt := mp.value, rule.threshold, rule.recoveryThreshold.value;
            && (rule.operator == ">" ==> (events != [] <==> v <= t && v < rt))
            && (rule.operator == ">=" ==> (events != [] <==> v < t && v < rt))
            && (rule.operator == "<" ==> (events != [] <==> v >= t && v > rt))
            && (rule.operator == "<=" ==> (events != [] <==> v > t && v > rt))
            && (rule.operator == "==" ==>
                  (events != [] <==>
                   && (v - t <= -1.0 / 4503599627370496.0 || v - t >= 1.0 / 4503599627370496.0)
                   && (v - rt <= -1.0 / 4503599627370496.0 || v - rt >= 1.0 / 4503599627370496.0)))
            && (rule.operator !in [">", "<", ">=", "<=", "=="] ==> events == [])
  {
    hide Latest, TrackerKey, TrackerOf, Inv;
    FoundRow(w, rule, mp.taskId, id);
  }

  // Without one, it recovers exactly when it no longer violates.
  lemma RecoversAtThreshold(w: World, rule: Rule, mp: Metric, now: int, id: nat)
    requires Inv(w) && FiringRow(w, rule, mp.taskId, id) && rule.recoveryThreshold.None?
    ensures var events := PointStep(w, rule, mp, now).1;
            var v, t := mp.value, rule.threshold;
            && (rule.operator == ">" ==> (events != [] <==> v <= t))
            && (rule.operator == ">=" ==> (events != [] <==> v < t))
            && (rule.operator == "<" ==> (events != [] <==> v >= t))
            && (rule.operator == "<=" ==> (events != [] <==> v > t))
            && (rule.operator == "==" ==>
                  (events != [] <==> v - t <= -1.0 / 4503599627370496.0 || v - t >= 1.0 / 4503599627370496.0))
            && (rule.operator !in [">", "<", ">=", "<=", "=="] ==> events != [])
  {
    hide Latest, TrackerKey, TrackerOf, Inv;
    FoundRow(w, rule, mp.taskId, id);
  }

  lemma RecoveredAlert(w: World, rule: Rule, mp: Metric, now: int, id: nat)
    requires Inv(w) && FiringRow(w, rule, mp.taskId, id)
    ensures var (w', events) := PointStep(w, rule, mp, now);
            if events == [] then w'.alerts == w.alerts
            else
              && w'.alerts == w.alerts[id := w.alerts[id].(status := Recovered, recoveredAt := Some(now))]
              && events == [RecoveryEvent(id, mp.taskId, w.alerts[id].runId, w.alerts[id].severity, now)]
  {
    hide Latest, TrackerKey, TrackerOf, Inv, EvaluateOp, IsRecovered;
    FoundRow(w, rule, mp.taskId, id);
  }

  /******* The simulator on points without timestamps *******/

  ghost predicate AllAbove(req: Request) {
    forall i :: 0 <= i < |req.points| ==> req.points[i].ts.None? && req.points[i].value > req.threshold
  }

  lemma AboveStep(req: Request, d: nat, i: nat, st: SimState)
    requires req.operator == ">" && req.dwellSecs == Some(d) && AllAbove(req) && i < |req.points|
    requires if i <= d then st == SimState(false, if i == 0 then None else Some(0)) else st.firing
    ensures var (ts, value) := Stamped(req.points)[i];
            var (st', o) := SimStep(RuleOf(req), st, ts, value);
            var events := SimEventOf(RuleOf(req), o, i, value);
            if i < d then st' == SimState(false, Some(0)) && events == []
            else st'.firing && events == if i == d then [SimFiring(d, req.points[d].value, req.threshold)] else []
  {
    hide IsRecovered, SimRun;
  }

  lemma {:induction false} AboveRun(req: Request, d: nat, n: nat)
    requires req.operator == ">" && req.dwellSecs == Some(d) && AllAbove(req) && n <= |req.points|
    ensures var (st, events) := SimRun(RuleOf(req), Stamped(req.points)[..n]);
            if n <= d then st == SimState(false, if n == 0 then None else Some(0)) && events == []
            else st.firing && events == [SimFiring(d, req.points[d].value, req.threshold)]
  {
    assert |Stamped(req.points)| == |req.points|;
    hide SimRun, SimStep, SimEventOf, RuleOf, Stamped, AllAbove;
    var rule, points := RuleOf(req), Stamped(req.points);
    if n == 0 {
      SimEmpty(rule);
      assert points[..0] == [];
    } else {
      AboveRun(req, d, n - 1);
      AboveStep(req, d, n - 1, SimRun(rule, points[..n - 1]).0);
      SimSnoc(rule, points, n - 1);
    }
  }

  // Points without timestamps are a second apart: values above the threshold fire at the index that equals the dwell.
  lemma UnstampedFireAtIndex(req: Request, d: nat)
    requires req.operator == ">" && req.dwellSecs == Some(d) && AllAbove(req)
    ensures SimRun(RuleOf(req), Stamped(req.points)).1 ==
            if |req.points| <= d then [] else [SimFiring(d, req.points[d].value, req.threshold)]
  {
    AboveRun(req, d, |req.points|);
    assert Stamped(req.points)[..|req.points|] == Stamped(req.points);
  }
}
