/** The engine, projected on one (rule, task) pair, emits what `evaluate_now` emits on the points
    of that pair, each stamped with the time of its tick. */
module AlertRefinement {
  import opened Wrappers
  import opened Alerts
  import opened AlertPairs
  import opened Simulator

  // What both sides say about an event: when it happened and, for a firing, on which value.
  datatype Timed =
    | TimedFiring(at: int, value: Option<real>, threshold: Option<real>)
    | TimedRecovery(at: int)

  /******* The simulator's side *******/

  function TimedOf(e: SimEvent, points: seq<(int, real)>): Timed
    requires e.atIndex < |points|
  {
    match e
    case SimFiring(i, value, threshold) => TimedFiring(points[i].0, Some(value), Some(threshold))
    case SimRecovery(i, _) => TimedRecovery(points[i].0)
  }

  function SimTimed(rule: Rule, points: seq<(int, real)>): seq<Timed> {
    var events := SimRun(rule, points).1;
    seq(|events|, i requires 0 <= i < |events| => TimedOf(events[i], points))
  }

  function TimedOutcome(rule: Rule, o: Outcome, at: int, value: real): seq<Timed> {
    match o
    case Quiet => []
    case Fires => [TimedFiring(at, Some(value), Some(rule.threshold))]
    case Recovers => [TimedRecovery(at)]
  }

  lemma SimTimedSnoc(rule: Rule, points: seq<(int, real)>, ts: int, value: real)
    ensures var (st, o) := SimStep(rule, SimRun(rule, points).0, ts, value);
            && SimRun(rule, points + [(ts, value)]).0 == st
            && SimTimed(rule, points + [(ts, value)]) == SimTimed(rule, points) + TimedOutcome(rule, o, ts, value)
  {
    var more := points + [(ts, value)];
    assert more[..|points|] == points;
    var events := SimRun(rule, points).1;
    forall i | 0 <= i < |events|
      ensures TimedOf(events[i], more) == TimedOf(events[i], points)
    {
      assert more[events[i].atIndex] == points[events[i].atIndex];
    }
  }

  /******* The engine's side *******/

  predicate IsOwnPoint(s: Step, ruleId: string, task: string) {
    s.Point? && s.rule.id == ruleId && s.metric.taskId == task
  }

  function PairPoints(steps: seq<Step>, ruleId: string, task: string): seq<(int, real)> {
    if steps == [] then []
    else
      var n := |steps| - 1;
      var s := steps[n];
      PairPoints(steps[..n], ruleId, task) +
      if IsOwnPoint(s, ruleId, task) then [(s.now, s.metric.value)] else []
  }

  // A recovery event names its alert only; the table says whose alert it is.
  predicate Owned(alerts: seq<Alert>, e: Event, ruleId: string, task: string) {
    && (e.FiringEvent? || e.RecoveryEvent?)
    && e.id < |alerts|
    && alerts[e.id].ruleId == Some(ruleId)
    && alerts[e.id].taskId == task
  }

  function TimedEvent(e: Event): Timed
    requires e.FiringEvent? || e.RecoveryEvent?
  {
    if e.FiringEvent? then TimedFiring(e.firedAt, e.value, e.threshold) else TimedRecovery(e.recoveredAt)
  }

  function PairEvents(alerts: seq<Alert>, events: seq<Event>, ruleId: string, task: string): seq<Timed> {
    if events == [] then []
    else
      var n := |events| - 1;
      PairEvents(alerts, events[..n], ruleId, task) +
      if Owned(alerts, events[n], ruleId, task) then [TimedEvent(events[n])] else []
  }

  lemma {:induction false} PairEventsConcat(alerts: seq<Alert>, a: seq<Event>, b: seq<Event>, ruleId: string, task: string)
    ensures PairEvents(alerts, a + b, ruleId, task) ==
            PairEvents(alerts, a, ruleId, task) + PairEvents(alerts, b, ruleId, task)
  {
    if b == [] {
      assert a + b == a;
    } else {
      var n := |b| - 1;
      assert (a + b)[..|a + b| - 1] == a + b[..n];
      PairEventsConcat(alerts, a, b[..n], ruleId, task);
    }
  }

  ghost predicate InTable(events: seq<Event>, alerts: seq<Alert>) {
    forall i :: 0 <= i < |events| ==> events[i].id < |alerts|
  }

  // Steps only append alerts, and never change whose alert one is.
  ghost predicate Extends(before: seq<Alert>, after: seq<Alert>) {
    && |before| <= |after|
    && forall i :: 0 <= i < |before| ==> after[i].ruleId == before[i].ruleId && after[i].taskId == before[i].taskId
  }

  lemma StepExtends(w: World, s: Step)
    ensures Extends(w.alerts, Apply(w, s).0.alerts)
    ensures InTable(Apply(w, s).1, Apply(w, s).0.alerts)
  {
  }

  lemma {:induction false} PairEventsStable(before: seq<Alert>, after: seq<Alert>, events: seq<Event>, ruleId: string, task: string)
    requires Extends(before, after) && InTable(events, before)
    ensures PairEvents(after, events, ruleId, task) == PairEvents(before, events, ruleId, task)
  {
    if events == [] {
    } else {
      var n := |events| - 1;
      PairEventsStable(before, after, events[..n], ruleId, task);
      assert events[n].id < |before|;
    }
  }

  /******* Simulation relation *******/

  ghost predicate Agrees(rule: Rule, p: Pair, st: SimState) {
    && p.firing == st.firing
    && (!p.firing ==> p.streak == st.dwellStart)
    && (rule.dwellSecs <= 0 ==> p.streak.None? && st.dwellStart.None?)
  }

  lemma PointAgrees(rule: Rule, p: Pair, st: SimState, ts: int, value: real)
    requires Agrees(rule, p, st)
    ensures PairStep(rule, p, ts, value).1 == SimStep(rule, st, ts, value).1
    ensures Agrees(rule, PairStep(rule, p, ts, value).0, SimStep(rule, st, ts, value).0)
  {
  }

  // Every point that carries the id of `rule` was evaluated under `rule` itself.
  ghost predicate Consistent(steps: seq<Step>, rule: Rule) {
    forall i :: 0 <= i < |steps| && steps[i].Point? && steps[i].rule.id == rule.id ==> steps[i].rule == rule
  }

  ghost predicate Refines(steps: seq<Step>, rule: Rule, task: string) {
    var (w, events) := Run(EMPTY, steps);
    var points := PairPoints(steps, rule.id, task);
    && Inv(w)
    && InTable(events, w.alerts)
    && Agrees(rule, PairOf(w, rule.id, task), SimRun(rule, points).0)
    && PairEvents(w.alerts, events, rule.id, task) == SimTimed(rule, points)
  }

  lemma AppendEvents(before: seq<Alert>, after: seq<Alert>, events: seq<Event>, more: seq<Event>, ruleId: string, task: string)
    requires Extends(before, after) && InTable(events, before) && InTable(more, after)
    ensures InTable(events + more, after)
    ensures PairEvents(after, events + more, ruleId, task) ==
            PairEvents(before, events, ruleId, task) + PairEvents(after, more, ruleId, task)
  {
    PairEventsStable(before, after, events, ruleId, task);
    PairEventsConcat(after, events, more, ruleId, task);
  }

  lemma OwnPointEvents(w: World, rule: Rule, mp: Metric, now: int)
    requires Inv(w)
    ensures var (w', more) := PointStep(w, rule, mp, now);
            PairEvents(w'.alerts, more, rule.id, mp.taskId) ==
            TimedOutcome(rule, PairStep(rule, PairOf(w, rule.id, mp.taskId), now, mp.value).1, now, mp.value)
  {
    PointOwn(w, rule, mp, now);
    var more := PointStep(w, rule, mp, now).1;
    assert |more| <= 1;
  }

  lemma OwnPointRefines(steps: seq<Step>, s: Step, rule: Rule, task: string)
    requires Refines(steps, rule, task)
    requires IsOwnPoint(s, rule.id, task) && s.rule == rule
    ensures Refines(steps + [s], rule, task)
  {
    var (w, events) := Run(EMPTY, steps);
    var (w', more) := Apply(w, s);
    var points := PairPoints(steps, rule.id, task);
    RunSnoc(EMPTY, steps, s);
    StepKeepsInv(w, s);
    StepExtends(w, s);
    AppendEvents(w.alerts, w'.alerts, events, more, rule.id, task);
    PointOwn(w, rule, s.metric, s.now);
    OwnPointEvents(w, rule, s.metric, s.now);
    PointAgrees(rule, PairOf(w, rule.id, task), SimRun(rule, points).0, s.now, s.metric.value);
    assert PairPoints(steps + [s], rule.id, task) == points + [(s.now, s.metric.value)] by {
      assert (steps + [s])[..|steps|] == steps;
    }
    SimTimedSnoc(rule, points, s.now, s.metric.value);
  }

  lemma OtherStepPair(w: World, s: Step, ruleId: string, task: string)
    requires Inv(w) && !s.Clear? && !IsOwnPoint(s, ruleId, task)
    ensures PairOf(Apply(w, s).0, ruleId, task) == PairOf(w, ruleId, task)
  {
    match s {
      case Point(r, mp, now) => PointOther(w, r, mp, now, ruleId, task);
      case CheckBeat(t, runId, now, secs) => CheckOther(w, t, runId, now, secs, ruleId, task);
      case _ =>
    }
  }

  lemma OtherStepEvents(w: World, s: Step, ruleId: string, task: string)
    requires Inv(w) && !IsOwnPoint(s, ruleId, task)
    ensures PairEvents(Apply(w, s).0.alerts, Apply(w, s).1, ruleId, task) == []
  {
    var (w', more) := Apply(w, s);
    assert |more| <= 1;
    assert |more| == 1 ==> !Owned(w'.alerts, more[0], ruleId, task);
  }

  lemma OtherStepRefines(steps: seq<Step>, s: Step, rule: Rule, task: string)
    requires Refines(steps, rule, task)
    requires !s.Clear? && !IsOwnPoint(s, rule.id, task)
    ensures Refines(steps + [s], rule, task)
  {
    var (w, events) := Run(EMPTY, steps);
    var (w', more) := Apply(w, s);
    RunSnoc(EMPTY, steps, s);
    StepKeepsInv(w, s);
    StepExtends(w, s);
    AppendEvents(w.alerts, w'.alerts, events, more, rule.id, task);
    OtherStepPair(w, s, rule.id, task);
    OtherStepEvents(w, s, rule.id, task);
    assert PairPoints(steps + [s], rule.id, task) == PairPoints(steps, rule.id, task) by {
      assert (steps + [s])[..|steps|] == steps;
    }
  }

  lemma RefinesAtStart(rule: Rule, task: string)
    ensures Refines([], rule, task)
  {
  }

  // For every clear-free run, whatever other rules, tasks and heartbeats are interleaved.
  lemma {:induction false} RunRefinesSimulator(steps: seq<Step>, rule: Rule, task: string)
    requires Consistent(steps, rule)
    requires forall i :: 0 <= i < |steps| ==> !steps[i].Clear?
    ensures Refines(steps, rule, task)
  {
    hide Refines;
    if steps == [] {
      RefinesAtStart(rule, task);
    } else {
      var n := |steps| - 1;
      var s := steps[n];
      RunRefinesSimulator(steps[..n], rule, task);
      assert steps[..n] + [s] == steps;
      if IsOwnPoint(s, rule.id, task) {
        OwnPointRefines(steps[..n], s, rule, task);
      } else {
        OtherStepRefines(steps[..n], s, rule, task);
      }
    }
  }

  /******* Whole ticks *******/

  ghost predicate DistinctIds(rules: seq<Rule>) {
    forall i, j :: 0 <= i < j < |rules| ==> rules[i].id != rules[j].id
  }

  // The points a tick holds for a task, stamped with the tick's own time.
  function TickPoints(metrics: seq<Metric>, name: string, task: string, now: int): seq<(int, real)> {
    if metrics == [] then []
    else
      var n := |metrics| - 1;
      TickPoints(metrics[..n], name, task, now) +
      if metrics[n].metricName == name && metrics[n].taskId == task then [(now, metrics[n].value)] else []
  }

  function TicksPoints(ticks: seq<Tick>, rule: Rule, task: string): seq<(int, real)> {
    if ticks == [] then []
    else
      var n := |ticks| - 1;
      TicksPoints(ticks[..n], rule, task) +
      if rule in ticks[n].rules && rule.enabled then TickPoints(ticks[n].metrics, rule.metricName, task, ticks[n].now) else []
  }

  lemma {:induction false} PairPointsConcat(a: seq<Step>, b: seq<Step>, ruleId: string, task: string)
    ensures PairPoints(a + b, ruleId, task) == PairPoints(a, ruleId, task) + PairPoints(b, ruleId, task)
  {
    if b == [] {
      assert a + b == a;
    } else {
      var n := |b| - 1;
      assert (a + b)[..|a + b| - 1] == a + b[..n];
      PairPointsConcat(a, b[..n], ruleId, task);
    }
  }

  lemma {:induction false} RulePoints(rule: Rule, metrics: seq<Metric>, now: int, ruleId: string, task: string)
    ensures PairPoints(PointSteps(rule, Matching(metrics, rule.metricName), now), ruleId, task) ==
            if rule.id == ruleId then TickPoints(metrics, rule.metricName, task, now) else []
  {
    if metrics == [] {
    } else {
      var n := |metrics| - 1;
      var before, all := Matching(metrics[..n], rule.metricName), Matching(metrics, rule.metricName);
      RulePoints(rule, metrics[..n], now, ruleId, task);
      if metrics[n].metricName == rule.metricName {
        var last := Point(rule, metrics[n], now);
        assert all == before + [metrics[n]];
        assert TickPoints(metrics, rule.metricName, task, now) ==
               TickPoints(metrics[..n], rule.metricName, task, now) +
               if metrics[n].taskId == task then [(now, metrics[n].value)] else [];
        hide PairPoints, Matching, TickPoints;
        assert PointSteps(rule, all, now) == PointSteps(rule, before, now) + [last];
        hide PointSteps;
        PairPointsConcat(PointSteps(rule, before, now), [last], ruleId, task);
        OnePairPoint(last, ruleId, task);
      } else {
        assert all == before;
      }
    }
  }

  lemma OnePairPoint(s: Step, ruleId: string, task: string)
    ensures PairPoints([s], ruleId, task) == if IsOwnPoint(s, ruleId, task) then [(s.now, s.metric.value)] else []
  {
    assert [s][..0] == [];
  }

  // With distinct ids, a tick brings an enabled rule's pair exactly its matching points, in order, and a disabled one's none.
  lemma {:induction false} TickPairPoints(rules: seq<Rule>, metrics: seq<Metric>, now: int, rule: Rule, task: string)
    requires DistinctIds(rules)
    requires forall i :: 0 <= i < |rules| && rules[i].id == rule.id ==> rules[i] == rule
    ensures PairPoints(TickSteps(rules, metrics, now), rule.id, task) ==
            if rule in rules && rule.enabled then TickPoints(metrics, rule.metricName, task, now) else []
  {
    hide TickPoints, PointSteps, Matching, IsOwnPoint;
    if rules == [] {
    } else {
      hide PairPoints;
      var n := |rules| - 1;
      var r := rules[n];
      TickPairPoints(rules[..n], metrics, now, rule, task);
      assert rule in rules <==> rule in rules[..n] || rule == r by {
        assert rules == rules[..n] + [r];
      }
      assert rule == r ==> rule !in rules[..n];
      if r.enabled {
        PairPointsConcat(TickSteps(rules[..n], metrics, now), PointSteps(r, Matching(metrics, r.metricName), now), rule.id, task);
        RulePoints(r, metrics, now, rule.id, task);
      } else {
        assert TickSteps(rules, metrics, now) == TickSteps(rules[..n], metrics, now);
      }
    }
  }

  ghost predicate TickConsistent(t: Tick, rule: Rule) {
    DistinctIds(t.rules) && forall i :: 0 <= i < |t.rules| && t.rules[i].id == rule.id ==> t.rules[i] == rule
  }

  lemma {:induction false} TickStepsArePoints(rules: seq<Rule>, metrics: seq<Metric>, now: int)
    ensures forall i :: 0 <= i < |TickSteps(rules, metrics, now)| ==>
              TickSteps(rules, metrics, now)[i].Point? && TickSteps(rules, metrics, now)[i].rule in rules
  {
    if rules == [] {
    } else {
      var n := |rules| - 1;
      TickStepsArePoints(rules[..n], metrics, now);
      assert forall r :: r in rules[..n] ==> r in rules;
    }
  }

  lemma {:induction false} TicksPairPoints(ticks: seq<Tick>, rule: Rule, task: string)
    requires forall i :: 0 <= i < |ticks| ==> TickConsistent(ticks[i], rule)
    ensures PairPoints(TicksSteps(ticks), rule.id, task) == TicksPoints(ticks, rule, task)
  {
    hide TickSteps, TickPoints;
    if ticks == [] {
    } else {
      var n := |ticks| - 1;
      var t := ticks[n];
      TicksPairPoints(ticks[..n], rule, task);
      assert TickConsistent(t, rule);
      hide PairPoints;
      TickPairPoints(t.rules, t.metrics, t.now, rule, task);
      PairPointsConcat(TicksSteps(ticks[..n]), TickSteps(t.rules, t.metrics, t.now), rule.id, task);
    }
  }

  // Every step of a tick sequence is a point of one of its rules.
  lemma {:induction false} TicksArePoints(ticks: seq<Tick>, rule: Rule)
    requires forall i :: 0 <= i < |ticks| ==> TickConsistent(ticks[i], rule)
    ensures forall i :: 0 <= i < |TicksSteps(ticks)| ==>
              var s := TicksSteps(ticks)[i]; s.Point? && (s.rule.id == rule.id ==> s.rule == rule)
  {
    hide TickSteps, DistinctIds;
    if ticks == [] {
    } else {
      var n := |ticks| - 1;
      var t := ticks[n];
      TicksArePoints(ticks[..n], rule);
      assert TickConsistent(t, rule);
      TickStepsArePoints(t.rules, t.metrics, t.now);
    }
  }

  // The request that replays a pair's points through `evaluate_now`.
  function ReplayRequest(rule: Rule, points: seq<(int, real)>): Request {
    Request(rule.metricName, rule.operator, rule.threshold, rule.recoveryThreshold, Some(rule.dwellSecs),
            seq(|points|, i requires 0 <= i < |points| => SimPoint(Some(points[i].0), points[i].1)))
  }

  // Identity, severity and enablement play no part in what the simulator does.
  lemma {:induction false} SameThresholdsSameRun(r1: Rule, r2: Rule, points: seq<(int, real)>)
    requires r1.operator == r2.operator && r1.threshold == r2.threshold
    requires r1.recoveryThreshold == r2.recoveryThreshold && r1.dwellSecs == r2.dwellSecs
    ensures SimRun(r1, points) == SimRun(r2, points)
  {
    if points == [] {
    } else {
      SameThresholdsSameRun(r1, r2, points[..|points| - 1]);
    }
  }

  // The engine over any tick sequence from an empty state, against the replay of the pair's points.
  lemma TicksRefineEvaluateNow(ticks: seq<Tick>, rule: Rule, task: string)
    requires forall i :: 0 <= i < |ticks| ==> TickConsistent(ticks[i], rule)
    ensures var (w, events) := Run(EMPTY, TicksSteps(ticks));
            var points := TicksPoints(ticks, rule, task);
            var replay := ReplayRequest(rule, points);
            var simulated := SimRun(RuleOf(replay), Stamped(replay.points)).1;
            && Stamped(replay.points) == points
            && PairEvents(w.alerts, events, rule.id, task) ==
               seq(|simulated|, i requires 0 <= i < |simulated| => TimedOf(simulated[i], points))
  {
    var points := TicksPoints(ticks, rule, task);
    var replay := ReplayRequest(rule, points);
    TicksPairPoints(ticks, rule, task);
    TicksArePoints(ticks, rule);
    assert Consistent(TicksSteps(ticks), rule);
    RunRefinesSimulator(TicksSteps(ticks), rule, task);
    assert Stamped(replay.points) == points;
    SameThresholdsSameRun(rule, RuleOf(replay), points);
  }

  // A disabled rule raises nothing, whatever the ticks hold.
  lemma DisabledIsSilent(ticks: seq<Tick>, rule: Rule, task: string)
    requires !rule.enabled
    requires forall i :: 0 <= i < |ticks| ==> TickConsistent(ticks[i], rule)
    ensures var (w, events) := Run(EMPTY, TicksSteps(ticks)); PairEvents(w.alerts, events, rule.id, task) == []
  {
    hide Run, PairEvents, TicksSteps;
    TicksRefineEvaluateNow(ticks, rule, task);
    NoPointsWhenDisabled(ticks, rule, task);
  }

  lemma {:induction false} NoPointsWhenDisabled(ticks: seq<Tick>, rule: Rule, task: string)
    requires !rule.enabled
    ensures TicksPoints(ticks, rule, task) == []
  {
    if ticks == [] {
    } else {
      NoPointsWhenDisabled(ticks[..|ticks| - 1], rule, task);
    }
  }
}
