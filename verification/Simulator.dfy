/** `evaluate_now`: one rule against a fixed series of points, nothing persisted. */
module Simulator {
  import opened Wrappers
  import opened Alerts
  import opened AlertPairs

  datatype SimPoint = SimPoint(ts: Option<int>, value: real)

  datatype Request = Request(
    metricName: string, operator: string, threshold: real, recoveryThreshold: Option<real>,
    dwellSecs: Option<int>, points: seq<SimPoint>)

  datatype SimEvent =
    | SimFiring(atIndex: nat, value: real, threshold: real)
    | SimRecovery(atIndex: nat, value: real)

  datatype SimState = SimState(firing: bool, dwellStart: Option<int>)

  datatype Invalid = BadOperator | EmptyMetric

  predicate ValidOperator(op: string) {
    op in [">", "<", ">=", "<=", "=="]
  }

  // A point without a timestamp counts as its own index.
  function Stamped(points: seq<SimPoint>): seq<(int, real)> {
    seq(|points|, i requires 0 <= i < |points| =>
      (if points[i].ts.Some? then points[i].ts.value else i, points[i].value))
  }

  function RuleOf(req: Request): Rule {
    Rule("", req.metricName, req.operator, req.threshold, req.recoveryThreshold, "",
         if req.dwellSecs.Some? then req.dwellSecs.value else 0, true)
  }

  function SimStep(rule: Rule, st: SimState, ts: int, value: real): (SimState, Outcome) {
    if Violates(rule, value) then
      if st.firing then (st, Quiet)
      else if rule.dwellSecs > 0 then
        var start := if st.dwellStart.Some? then st.dwellStart.value else ts;
        if ts - start >= rule.dwellSecs
        then (SimState(true, Some(start)), Fires) else (SimState(false, Some(start)), Quiet)
      else (SimState(true, st.dwellStart), Fires)
    else if !st.firing then (SimState(false, None), Quiet)
    else if IsRecovered(rule, value) then (SimState(false, None), Recovers)
    else (st, Quiet)
  }

  function SimEventOf(rule: Rule, o: Outcome, i: nat, value: real): seq<SimEvent> {
    match o
    case Quiet => []
    case Fires => [SimFiring(i, value, rule.threshold)]
    case Recovers => [SimRecovery(i, value)]
  }

  function SimRun(rule: Rule, points: seq<(int, real)>): (r: (SimState, seq<SimEvent>))
    ensures forall i :: 0 <= i < |r.1| ==> r.1[i].atIndex < |points|
  {
    if points == [] then (SimState(false, None), [])
    else
      var n := |points| - 1;
      var (st, events) := SimRun(rule, points[..n]);
      var (st', o) := SimStep(rule, st, points[n].0, points[n].1);
      (st', events + SimEventOf(rule, o, n, points[n].1))
  }

  lemma SimEmpty(rule: Rule)
    ensures SimRun(rule, []) == (SimState(false, None), [])
  {
  }

  lemma SimSnoc(rule: Rule, points: seq<(int, real)>, i: nat)
    requires i < |points|
    ensures var (st, events) := SimRun(rule, points[..i]);
            var (st', o) := SimStep(rule, st, points[i].0, points[i].1);
            SimRun(rule, points[..i + 1]) == (st', events + SimEventOf(rule, o, i, points[i].1))
  {
    hide SimStep, SimEventOf;
    assert points[..i + 1][..i] == points[..i];
  }

  method EvaluateNow(req: Request) returns (r: Result<seq<SimEvent>, Invalid>)
    ensures r.Failure? <==> !ValidOperator(req.operator) || req.metricName == ""
    ensures r.Success? ==> r.value == SimRun(RuleOf(req), Stamped(req.points)).1
  {
    if !ValidOperator(req.operator) { return Failure(BadOperator); }
    if req.metricName == "" { return Failure(EmptyMetric); }

    hide EvaluateOp, IsRecovered, SimRun;
    var events := [];
    var firing := false;
    var dwellStart := None;
    var dwellSecs := if req.dwellSecs.Some? then req.dwellSecs.value else 0;
    var rule := RuleOf(req);
    ghost var stamped := Stamped(req.points);
    assert SimRun(rule, []) == (SimState(false, None), []) by { SimEmpty(rule); }
    for i := 0 to |req.points|
      invariant SimRun(rule, stamped[..i]) == (SimState(firing, dwellStart), events)
    {
      var ts := if req.points[i].ts.Some? then req.points[i].ts.value else i;
      var value := req.points[i].value;
      SimSnoc(rule, stamped, i);
      assert events + [] == events;
      if EvaluateOp(req.operator, value, req.threshold) {
        if !firing {
          if dwellSecs > 0 {
            if dwellStart.None? {
              dwellStart := Some(ts);
            }
            if ts - dwellStart.value >= dwellSecs {
              firing := true;
              events := events + [SimFiring(i, value, req.threshold)];
            }
          } else {
            firing := true;
            events := events + [SimFiring(i, value, req.threshold)];
          }
        }
      } else if firing {
        if IsRecovered(rule, value) {
          firing := false;
          dwellStart := None;
          events := events + [SimRecovery(i, value)];
        }
      } else {
        dwellStart := None;
      }
    }
    assert stamped[..|req.points|] == stamped;
    r := Success(events);
  }
}
