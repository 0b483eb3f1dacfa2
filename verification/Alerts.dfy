/** The alert engine as a transition system on values.
    One `World` holds the alert table, the dwell trackers, the heartbeat tracker and the silence
    window. Every handler is a sequence of atomic `Step`s, so a property of `Run` over all step
    sequences is a property of every interleaving of ticks, heartbeat evaluations and clears. */
module Alerts {
  import opened Wrappers

  // f64::EPSILON, 2^-52
  const EPSILON := 1.0 / 4503599627370496.0
  // metric_name of the alerts raised by the heartbeat evaluation
  const STALL_METRIC := "cdc_stalled"

  datatype Rule = Rule(
    id: string, metricName: string, operator: string, threshold: real,
    recoveryThreshold: Option<real>, severity: string, dwellSecs: int, enabled: bool)

  datatype Metric = Metric(taskId: string, runId: string, metricName: string, ts: int, value: real)

  datatype Status = Firing | Recovered | Cleared

  // The id of an alert is its position in the table: ids are never reused.
  datatype Alert = Alert(
    taskId: string, runId: Option<string>, ruleId: Option<string>, metricName: string,
    operator: Option<string>, threshold: Option<real>, severity: string, value: Option<real>,
    status: Status, silenced: bool, firedAt: int, recoveredAt: Option<int>,
    clearedAt: Option<int>, clearedBy: Option<string>)

  datatype Event =
    | FiringEvent(id: nat, taskId: string, runId: Option<string>, ruleId: Option<string>, severity: string,
                  metric: string, value: Option<real>, threshold: Option<real>, firedAt: int, silenced: bool)
    | RecoveryEvent(id: nat, taskId: string, runId: Option<string>, severity: string, recoveredAt: int)
    | StalledEvent(id: nat, taskId: string, runId: Option<string>, lastHeartbeatAt: Option<int>,
                   firedAt: int, silenced: bool)
    | StallRecoveredEvent(id: nat, taskId: string, recoveredAt: int)
    | ClearedEvent(id: nat, clearedBy: string)

  // rule id -> (first violation, sustained ticks)
  type Tracker = map<string, (int, nat)>

  datatype Beat = Beat(last: int, stalledId: Option<nat>)

  datatype World = World(
    alerts: seq<Alert>, dwell: map<string, Tracker>, beats: map<string, Beat>, silence: Option<(int, int)>)

  const EMPTY := World([], map[], map[], None)

  datatype Step =
    | Point(rule: Rule, metric: Metric, now: int)
    | UpdateBeat(task: string, ts: int)
    | CheckBeat(task: string, runId: Option<string>, now: int, thresholdSecs: int)
    | Clear(id: nat, user: string, at: int)
    | SetSilence(window: Option<(int, int)>)

  /******* Rule evaluation *******/

  function Abs(x: real): real {
    if x < 0.0 then -x else x
  }

  predicate EvaluateOp(op: string, value: real, threshold: real) {
    match op
    case ">" => value > threshold
    case "<" => value < threshold
    case ">=" => value >= threshold
    case "<=" => value <= threshold
    case "==" => Abs(value - threshold) < EPSILON
    case _ => false
  }

  predicate Violates(rule: Rule, value: real) {
    EvaluateOp(rule.operator, value, rule.threshold)
  }

  predicate IsRecovered(rule: Rule, value: real) {
    match rule.recoveryThreshold
    case None => !Violates(rule, value)
    case Some(rt) =>
      match rule.operator
      case ">" => value < rt
      case ">=" => value < rt
      case "<" => value > rt
      case "<=" => value > rt
      case "==" => Abs(value - rt) >= EPSILON
      case _ => false
  }

  /******* The alert table *******/

  datatype Query = RuleQuery(ruleId: string, taskId: string) | StallQuery(taskId: string)

  predicate Matches(q: Query, a: Alert) {
    && a.status.Firing?
    && a.taskId == q.taskId
    && match q
       case RuleQuery(ruleId, _) => a.ruleId == Some(ruleId)
       case StallQuery(_) => a.metricName == STALL_METRIC
  }

  // `... AND status = 'firing' ORDER BY fired_at DESC LIMIT 1`
  function Latest(alerts: seq<Alert>, q: Query): (r: Option<nat>)
    ensures r.None? ==> forall i :: 0 <= i < |alerts| ==> !Matches(q, alerts[i])
    ensures r.Some? ==> r.value < |alerts| && Matches(q, alerts[r.value])
    ensures r.Some? ==> forall i :: 0 <= i < |alerts| && Matches(q, alerts[i]) ==>
                                      alerts[i].firedAt <= alerts[r.value].firedAt
  {
    if alerts == [] then None
    else
      var n := |alerts| - 1;
      var before := Latest(alerts[..n], q);
      if Matches(q, alerts[n]) && (before.None? || alerts[n].firedAt >= alerts[before.value].firedAt)
      then Some(n) else before
  }

  /******* Dwell trackers *******/

  function TrackerKey(task: string, ruleId: string): string {
    task + ":" + ruleId
  }

  function TrackerOf(dwell: map<string, Tracker>, key: string): Tracker {
    if key in dwell then dwell[key] else map[]
  }

  function RecordViolation(tracker: Tracker, ruleId: string, now: int): Tracker {
    if ruleId in tracker
    then tracker[ruleId := (tracker[ruleId].0, tracker[ruleId].1 + 1)]
    else tracker[ruleId := (now, 1)]
  }

  // When the current violation streak of a pair began, as its tracker remembers it.
  function StreakOf(dwell: map<string, Tracker>, task: string, ruleId: string): Option<int> {
    var tracker := TrackerOf(dwell, TrackerKey(task, ruleId));
    if ruleId in tracker then Some(tracker[ruleId].0) else None
  }

  /******* Transitions *******/

  predicate Silenced(w: World, now: int) {
    w.silence.Some? && w.silence.value.0 <= now <= w.silence.value.1
  }

  function RuleAlert(w: World, rule: Rule, mp: Metric, now: int): Alert {
    Alert(mp.taskId, Some(mp.runId), Some(rule.id), rule.metricName, Some(rule.operator), Some(rule.threshold),
          rule.severity, Some(mp.value), Firing, Silenced(w, now), now, None, None, None)
  }

  function FiringEventOf(id: nat, a: Alert): Event {
    FiringEvent(id, a.taskId, a.runId, a.ruleId, a.severity, a.metricName, a.value, a.threshold, a.firedAt, a.silenced)
  }

  function Recover(a: Alert, now: int): Alert {
    a.(status := Recovered, recoveredAt := Some(now))
  }

  function PointStep(w: World, rule: Rule, mp: Metric, now: int): (World, seq<Event>) {
    var key := TrackerKey(mp.taskId, rule.id);
    var tracker := TrackerOf(w.dwell, key);
    var existing := Latest(w.alerts, RuleQuery(rule.id, mp.taskId));
    var rested := w.(dwell := w.dwell[key := tracker - {rule.id}]);
    if Violates(rule, mp.value) then
      if existing.Some? then (rested, [])
      else
        var recorded := RecordViolation(tracker, rule.id, now);
        if rule.dwellSecs == 0 || now - recorded[rule.id].0 >= rule.dwellSecs then
          var alert := RuleAlert(w, rule, mp, now);
          (rested.(alerts := w.alerts + [alert]), [FiringEventOf(|w.alerts|, alert)])
        else (w.(dwell := w.dwell[key := recorded]), [])
    else if existing.None? then (rested, [])
    else if IsRecovered(rule, mp.value) then
      var id := existing.value;
      var a := w.alerts[id];
      (rested.(alerts := w.alerts[id := Recover(a, now)]), [RecoveryEvent(id, a.taskId, a.runId, a.severity, now)])
    else (w.(dwell := w.dwell[key := tracker]), [])
  }

  predicate Stale(w: World, task: string, now: int, thresholdSecs: int) {
    task in w.beats && now - w.beats[task].last > thresholdSecs
  }

  function StallAlert(w: World, task: string, runId: Option<string>, now: int): Alert {
    Alert(task, runId, None, STALL_METRIC, None, None, "critical", None, Firing, Silenced(w, now), now, None, None, None)
  }

  function CheckStep(w: World, task: string, runId: Option<string>, now: int, thresholdSecs: int): (World, seq<Event>) {
    var stalledId := if task in w.beats then w.beats[task].stalledId else None;
    if Stale(w, task, now, thresholdSecs) then
      if Latest(w.alerts, StallQuery(task)).None? && stalledId.None? then
        var id, alert := |w.alerts|, StallAlert(w, task, runId, now);
        (w.(alerts := w.alerts + [alert], beats := w.beats[task := w.beats[task].(stalledId := Some(id))]),
         [StalledEvent(id, task, runId, Some(w.beats[task].last), now, alert.silenced)])
      else (w, [])
    else if stalledId.Some? && stalledId.value < |w.alerts| then
      var id := stalledId.value;
      (w.(alerts := w.alerts[id := Recover(w.alerts[id], now)],
          beats := w.beats[task := w.beats[task].(stalledId := None)]),
       [StallRecoveredEvent(id, task, now)])
    else (w, [])
  }

  function ClearStep(w: World, id: nat, user: string, at: int): (World, seq<Event>) {
    if id < |w.alerts| && !w.alerts[id].status.Cleared? then
      (w.(alerts := w.alerts[id := w.alerts[id].(status := Cleared, clearedAt := Some(at), clearedBy := Some(user))]),
       [ClearedEvent(id, user)])
    else (w, [])
  }

  function Apply(w: World, s: Step): (World, seq<Event>) {
    match s
    case Point(rule, metric, now) => PointStep(w, rule, metric, now)
    case UpdateBeat(task, ts) =>
      (w.(beats := w.beats[task := Beat(ts, if task in w.beats then w.beats[task].stalledId else None)]), [])
    case CheckBeat(task, runId, now, thresholdSecs) => CheckStep(w, task, runId, now, thresholdSecs)
    case Clear(id, user, at) => ClearStep(w, id, user, at)
    case SetSilence(window) => (w.(silence := window), [])
  }

  function Run(w: World, steps: seq<Step>): (World, seq<Event>) {
    if steps == [] then (w, [])
    else
      var (w1, e1) := Run(w, steps[..|steps| - 1]);
      var (w2, e2) := Apply(w1, steps[|steps| - 1]);
      (w2, e1 + e2)
  }

  lemma RunSnoc(w: World, steps: seq<Step>, s: Step)
    ensures Run(w, steps + [s]) ==
            var (w1, e1) := Run(w, steps); var (w2, e2) := Apply(w1, s); (w2, e1 + e2)
  {
    assert (steps + [s])[..|steps|] == steps;
  }

  lemma {:induction false} RunConcat(w: World, a: seq<Step>, b: seq<Step>)
    ensures Run(w, a + b) ==
            var (w1, e1) := Run(w, a); var (w2, e2) := Run(w1, b); (w2, e1 + e2)
  {
    hide Apply;
    if b == [] {
      assert a + b == a;
      assert Run(w, a).1 + [] == Run(w, a).1;
    } else {
      var n := |b| - 1;
      RunConcat(w, a, b[..n]);
      RunSnoc(w, a + b[..n], b[n]);
      RunSnoc(Run(w, a).0, b[..n], b[n]);
      assert (a + b[..n]) + [b[n]] == a + b && b[..n] + [b[n]] == b;
      var (w1, e1) := Run(w, a);
      var (w2, e2) := Run(w1, b[..n]);
      var e3 := Apply(w2, b[n]).1;
      assert (e1 + e2) + e3 == e1 + (e2 + e3);
    }
  }

  /******* Handlers as step sequences *******/

  datatype Tick = Tick(rules: seq<Rule>, metrics: seq<Metric>, now: int)

  function Matching(metrics: seq<Metric>, name: string): (r: seq<Metric>) {
    if metrics == [] then []
    else
      var n := |metrics| - 1;
      Matching(metrics[..n], name) + if metrics[n].metricName == name then [metrics[n]] else []
  }

  function PointSteps(rule: Rule, points: seq<Metric>, now: int): seq<Step> {
    seq(|points|, i requires 0 <= i < |points| => Point(rule, points[i], now))
  }

  // One tick: rules in order, and for each enabled rule its metric points in order.
  function TickSteps(rules: seq<Rule>, metrics: seq<Metric>, now: int): seq<Step> {
    if rules == [] then []
    else
      var n := |rules| - 1;
      TickSteps(rules[..n], metrics, now) +
      if rules[n].enabled then PointSteps(rules[n], Matching(metrics, rules[n].metricName), now) else []
  }

  function TicksSteps(ticks: seq<Tick>): seq<Step> {
    if ticks == [] then []
    else
      var n := |ticks| - 1;
      TicksSteps(ticks[..n]) + TickSteps(ticks[n].rules, ticks[n].metrics, ticks[n].now)
  }

  function BeatSteps(stamps: seq<(string, int)>): seq<Step> {
    seq(|stamps|, i requires 0 <= i < |stamps| => UpdateBeat(stamps[i].0, stamps[i].1))
  }

  function CheckSteps(tasks: seq<(string, Option<string>)>, now: int, thresholdSecs: int): seq<Step> {
    seq(|tasks|, i requires 0 <= i < |tasks| => CheckBeat(tasks[i].0, tasks[i].1, now, thresholdSecs))
  }

  function ClearSteps(ids: seq<nat>, user: string, at: int): seq<Step> {
    seq(|ids|, i requires 0 <= i < |ids| => Clear(ids[i], user, at))
  }
}
