/** The engine as it runs: shared state updated in place by the tick, heartbeat and clear handlers.
    Each handler is proved to perform its step sequence, so every theorem about `Run` is about it. */
module AlertEngine {
  import opened Wrappers
  import opened Alerts

  datatype ClearResult = NotFound | AlreadyCleared | NowCleared

  // The ids a batch clear reports as found, in request order.
  function Known(ids: seq<nat>, size: nat): seq<nat> {
    if ids == [] then []
    else
      var n := |ids| - 1;
      Known(ids[..n], size) + if ids[n] < size then [ids[n]] else []
  }

  function Unknown(ids: seq<nat>, size: nat): seq<nat> {
    if ids == [] then []
    else
      var n := |ids| - 1;
      Unknown(ids[..n], size) + if ids[n] < size then [] else [ids[n]]
  }

  function ClearedRow(a: Alert, user: string, at: int): Alert {
    if a.status.Cleared? then a else a.(status := Cleared, clearedAt := Some(at), clearedBy := Some(user))
  }

  class Engine {
    var alerts: seq<Alert>
    var dwell: map<string, Tracker>
    var beats: map<string, Beat>
    var silence: Option<(int, int)>

    ghost function State(): World
      reads this
    {
      World(alerts, dwell, beats, silence)
    }

    constructor ()
      ensures State() == EMPTY
    {
      alerts, dwell, beats, silence := [], map[], map[], None;
    }

    method SetSilenceWindow(window: Option<(int, int)>)
      modifies this
      ensures State() == Apply(old(State()), SetSilence(window)).0
    {
      silence := window;
    }

    method IsSilenced(now: int) returns (r: bool)
      ensures r == Silenced(State(), now)
    {
      match silence
      case Some((start, end)) => r := now >= start && now <= end;
      case None => r := false;
    }

    /** DwellTracker::record_violation on one tracker. */
    method RecordDwell(key: string, ruleId: string, dwellSecs: int, now: int) returns (met: bool)
      requires key in dwell
      modifies `dwell
      ensures dwell == old(dwell)[key := RecordViolation(old(dwell)[key], ruleId, now)]
      ensures met == (dwellSecs == 0 || now - dwell[key][ruleId].0 >= dwellSecs)
    {
      var tracker := dwell[key];
      var entry := if ruleId in tracker then tracker[ruleId] else (now, 0);
      dwell := dwell[key := tracker[ruleId := (entry.0, entry.1 + 1)]];
      met := dwellSecs == 0 || now - entry.0 >= dwellSecs;
    }

    method ClearDwell(key: string, ruleId: string)
      requires key in dwell
      modifies `dwell
      ensures dwell == old(dwell)[key := old(dwell)[key] - {ruleId}]
    {
      dwell := dwell[key := dwell[key] - {ruleId}];
    }

    method EvaluatePoint(rule: Rule, mp: Metric, now: int, silenced: bool) returns (events: seq<Event>)
      requires silenced == Silenced(State(), now)
      modifies this
      ensures (State(), events) == PointStep(old(State()), rule, mp, now)
      ensures silence == old(silence)
    {
      hide EvaluateOp, IsRecovered, Latest;
      events := [];
      var key := TrackerKey(mp.taskId, rule.id);
      if key !in dwell {
        dwell := dwell[key := map[]];
      }
      var existing := Latest(alerts, RuleQuery(rule.id, mp.taskId));
      if EvaluateOp(rule.operator, mp.value, rule.threshold) {
        if existing.Some? {
          ClearDwell(key, rule.id);
        } else {
          var met := RecordDwell(key, rule.id, rule.dwellSecs, now);
          if met {
            ClearDwell(key, rule.id);
            assert dwell[key] == TrackerOf(old(dwell), key) - {rule.id};
            assert dwell == old(dwell)[key := dwell[key]];
            var alert := Alert(mp.taskId, Some(mp.runId), Some(rule.id), rule.metricName, Some(rule.operator),
                               Some(rule.threshold), rule.severity, Some(mp.value), Firing, silenced, now,
                               None, None, None);
            events := [FiringEventOf(|alerts|, alert)];
            alerts := alerts + [alert];
          }
        }
      } else {
        match existing
        case Some(id) =>
          if IsRecovered(rule, mp.value) {
            ClearDwell(key, rule.id);
            var a := alerts[id];
            alerts := alerts[id := a.(status := Recovered, recoveredAt := Some(now))];
            events := [RecoveryEvent(id, a.taskId, a.runId, a.severity, now)];
          }
        case None =>
          ClearDwell(key, rule.id);
      }
      assert dwell == old(dwell)[key := dwell[key]];
    }

    method EvaluateRule(rule: Rule, metrics: seq<Metric>, now: int, silenced: bool) returns (events: seq<Event>)
      requires silenced == Silenced(State(), now)
      modifies this
      ensures (State(), events) == Run(old(State()), PointSteps(rule, Matching(metrics, rule.metricName), now))
      ensures silence == old(silence)
    {
      hide PointStep, CheckStep, ClearStep;
      events := [];
      var points := Matching(metrics, rule.metricName);
      ghost var start, steps := State(), PointSteps(rule, points, now);
      for j := 0 to |points|
        invariant silence == old(silence)
        invariant (State(), events) == Run(start, steps[..j])
      {
        var more := EvaluatePoint(rule, points[j], now, silenced);
        events := events + more;
        assert steps[..j + 1] == steps[..j] + [steps[j]];
        RunSnoc(start, steps[..j], steps[j]);
      }
      assert steps[..|points|] == steps;
    }

    method EvaluateTick(rules: seq<Rule>, metrics: seq<Metric>, now: int) returns (events: seq<Event>)
      modifies this
      ensures (State(), events) == Run(old(State()), TickSteps(rules, metrics, now))
    {
      hide Apply;
      events := [];
      var silenced := IsSilenced(now);
      ghost var start := State();
      for i := 0 to |rules|
        invariant silence == old(silence)
        invariant (State(), events) == Run(start, TickSteps(rules[..i], metrics, now))
      {
        var rule := rules[i];
        ghost var before := TickSteps(rules[..i], metrics, now);
        assert rules[..i + 1][..i] == rules[..i];
        if rule.enabled {
          var more := EvaluateRule(rule, metrics, now, silenced);
          events := events + more;
          RunConcat(start, before, PointSteps(rule, Matching(metrics, rule.metricName), now));
        } else {
          assert TickSteps(rules[..i + 1], metrics, now) == before;
        }
      }
      assert rules[..|rules|] == rules;
    }

    method CheckTask(task: string, runId: Option<string>, now: int, thresholdSecs: int, silenced: bool)
      returns (events: seq<Event>)
      requires silenced == Silenced(State(), now)
      modifies this
      ensures (State(), events) == CheckStep(old(State()), task, runId, now, thresholdSecs)
      ensures silence == old(silence)
    {
      events := [];
      var stalledId: Option<nat> := if task in beats then beats[task].stalledId else None;
      if task in beats && now - beats[task].last > thresholdSecs {
        var existing := Latest(alerts, StallQuery(task));
        if existing.None? && stalledId.None? {
          var id := |alerts|;
          alerts := alerts + [Alert(task, runId, None, STALL_METRIC, None, None, "critical", None, Firing, silenced,
                                    now, None, None, None)];
          events := [StalledEvent(id, task, runId, Some(beats[task].last), now, silenced)];
          beats := beats[task := beats[task].(stalledId := Some(id))];
        }
      } else if stalledId.Some? && stalledId.value < |alerts| {
        var id := stalledId.value;
        alerts := alerts[id := alerts[id].(status := Recovered, recoveredAt := Some(now))];
        beats := beats[task := beats[task].(stalledId := None)];
        events := [StallRecoveredEvent(id, task, now)];
      }
    }

    method UpdateHeartbeats(stamps: seq<(string, int)>)
      modifies this
      ensures State() == Run(old(State()), BeatSteps(stamps)).0 && Run(old(State()), BeatSteps(stamps)).1 == []
      ensures silence == old(silence)
    {
      hide PointStep, CheckStep, ClearStep;
      ghost var start, steps := State(), BeatSteps(stamps);
      for i := 0 to |stamps|
        invariant silence == old(silence)
        invariant State() == Run(start, steps[..i]).0 && Run(start, steps[..i]).1 == []
      {
        var (task, ts) := stamps[i];
        beats := beats[task := Beat(ts, if task in beats then beats[task].stalledId else None)];
        assert steps[..i + 1] == steps[..i] + [steps[i]];
        RunSnoc(start, steps[..i], steps[i]);
      }
      assert steps[..|stamps|] == steps;
    }

    method EvaluateHeartbeats(tasks: seq<(string, Option<string>)>, stamps: seq<(string, int)>, now: int, thresholdSecs: int)
      returns (events: seq<Event>)
      modifies this
      ensures (State(), events) == Run(old(State()), BeatSteps(stamps) + CheckSteps(tasks, now, thresholdSecs))
    {
      hide PointStep, CheckStep, ClearStep;
      events := [];
      var silenced := IsSilenced(now);
      UpdateHeartbeats(stamps);
      ghost var start, steps := State(), CheckSteps(tasks, now, thresholdSecs);
      for i := 0 to |tasks|
        invariant silence == old(silence)
        invariant (State(), events) == Run(start, steps[..i])
      {
        var more := CheckTask(tasks[i].0, tasks[i].1, now, thresholdSecs, silenced);
        events := events + more;
        assert steps[..i + 1] == steps[..i] + [steps[i]];
        RunSnoc(start, steps[..i], steps[i]);
      }
      assert steps[..|tasks|] == steps;
      RunConcat(old(State()), BeatSteps(stamps), steps);
      assert [] + events == events;
    }

    method ClearAlert(id: nat, user: string, at: int) returns (r: ClearResult, events: seq<Event>)
      modifies this
      ensures (State(), events) == ClearStep(old(State()), id, user, at)
      ensures r.NotFound? <==> id >= |old(alerts)|
      ensures r.NowCleared? <==> events != []
      ensures r.NotFound? || r.AlreadyCleared? ==> alerts == old(alerts)
      ensures r.NowCleared? ==>
                && id < |old(alerts)| && old(alerts)[id].status != Cleared && events == [ClearedEvent(id, user)]
                && alerts == old(alerts)[id := old(alerts)[id].(status := Cleared, clearedAt := Some(at), clearedBy := Some(user))]
      ensures !r.NotFound? ==> id < |alerts| && alerts[id].status == Cleared
      ensures dwell == old(dwell) && beats == old(beats) && silence == old(silence)
    {
      events := [];
      if id >= |alerts| { return NotFound, []; }
      var alert := alerts[id];
      if alert.status.Cleared? { return AlreadyCleared, []; }
      alerts := alerts[id := alert.(status := Cleared, clearedAt := Some(at), clearedBy := Some(user))];
      return NowCleared, [ClearedEvent(id, user)];
    }

    method ClearBatch(ids: seq<nat>, user: string, at: int) returns (successes: seq<nat>, failures: seq<nat>)
      modifies this
      ensures State() == Run(old(State()), ClearSteps(ids, user, at)).0
      ensures successes == Known(ids, |old(alerts)|) && failures == Unknown(ids, |old(alerts)|)
    {
      hide PointStep, CheckStep;
      successes, failures := [], [];
      ghost var start, steps := State(), ClearSteps(ids, user, at);
      for k := 0 to |ids|
        invariant State() == Run(start, steps[..k]).0
        invariant |alerts| == |old(alerts)|
        invariant successes == Known(ids[..k], |alerts|) && failures == Unknown(ids[..k], |alerts|)
      {
        var id := ids[k];
        assert ids[..k + 1][..k] == ids[..k];
        var r, _ := ClearAlert(id, user, at);
        if r.NotFound? {
          failures := failures + [id];
        } else {
          successes := successes + [id];
        }
        assert steps[..k + 1] == steps[..k] + [steps[k]];
        RunSnoc(start, steps[..k], steps[k]);
      }
      assert ids[..|ids|] == ids && steps[..|ids|] == steps;
    }
  }

  // A batch clear leaves every named row cleared, with the stamps of the request unless it was
  // cleared before, and touches nothing else. Repeated and unknown ids are harmless.
  lemma {:induction false} BatchClears(w: World, ids: seq<nat>, user: string, at: int)
    ensures var w' := Run(w, ClearSteps(ids, user, at)).0;
            && w' == w.(alerts := w'.alerts)
            && |w'.alerts| == |w.alerts|
            && forall i :: 0 <= i < |w.alerts| ==>
                 w'.alerts[i] == if i in ids then ClearedRow(w.alerts[i], user, at) else w.alerts[i]
  {
    hide PointStep, CheckStep;
    if ids == [] {
    } else {
      var n := |ids| - 1;
      BatchClears(w, ids[..n], user, at);
      var steps := ClearSteps(ids, user, at);
      assert steps[..n] == ClearSteps(ids[..n], user, at);
      assert ids == ids[..n] + [ids[n]];
    }
  }
}
