/** The life of an alert over every interleaving of ticks, heartbeat evaluations and clears. */
module AlertLifecycle {
  import opened Wrappers
  import opened Alerts
  import opened AlertPairs

  // firing -> recovered -> cleared, or firing -> cleared, and never back.
  predicate MayMove(a: Status, b: Status) {
    a == b || a.Firing? || (a.Recovered? && b.Cleared?)
  }

  // Everything about an alert but its status and the two stamps is fixed when it fires.
  predicate SameFacts(a: Alert, b: Alert) {
    b == a.(status := b.status, recoveredAt := b.recoveredAt, clearedAt := b.clearedAt, clearedBy := b.clearedBy)
  }

  ghost predicate Moves(before: seq<Alert>, after: seq<Alert>) {
    && |before| <= |after|
    && (forall i :: 0 <= i < |before| ==> SameFacts(before[i], after[i]))
    && (forall i :: 0 <= i < |before| && before[i].ruleId.Some? ==> MayMove(before[i].status, after[i].status))
  }

  lemma StepMoves(w: World, s: Step)
    requires Inv(w)
    ensures Moves(w.alerts, Apply(w, s).0.alerts)
  {
    hide Latest, EvaluateOp, IsRecovered, TrackerKey, TrackerOf, RecordViolation;
    if s.Point? {
      hide CheckStep, ClearStep;
    } else {
      hide PointStep;
    }
  }

  // Between any two moments of a run, a rule alert only ever moved forward.
  lemma {:induction false} RunMoves(w: World, steps: seq<Step>, i: nat)
    requires Inv(w) && i <= |steps|
    ensures Moves(Run(w, steps[..i]).0.alerts, Run(w, steps).0.alerts)
  {
    hide Apply, Inv;
    if i == |steps| {
      assert steps[..i] == steps;
    } else {
      var n := |steps| - 1;
      assert steps[..n][..i] == steps[..i];
      RunMoves(w, steps[..n], i);
      RunKeepsInv(w, steps[..n]);
      StepMoves(Run(w, steps[..n]).0, steps[n]);
      hide Moves;
      MovesTrans(Run(w, steps[..i]).0.alerts, Run(w, steps[..n]).0.alerts, Run(w, steps).0.alerts);
    }
  }

  lemma MovesTrans(a: seq<Alert>, b: seq<Alert>, c: seq<Alert>)
    requires Moves(a, b) && Moves(b, c)
    ensures Moves(a, c)
  {
  }

  // Clearing is final for a rule alert: from then on every further clear of it is a no-op.
  lemma ReclearIsNoop(w: World, steps: seq<Step>, i: nat, id: nat, user: string, at: int)
    requires Inv(w) && i <= |steps|
    requires var alerts := Run(w, steps[..i]).0.alerts;
             id < |alerts| && alerts[id].ruleId.Some? && alerts[id].status.Cleared?
    ensures ClearStep(Run(w, steps).0, id, user, at) == (Run(w, steps).0, [])
  {
    RunMoves(w, steps, i);
  }

  // Clearing twice in a row is clearing once, whatever the alert is.
  lemma ClearTwiceIsOnce(w: World, id: nat, u1: string, t1: int, u2: string, t2: int)
    ensures var (w', _) := ClearStep(w, id, u1, t1); ClearStep(w', id, u2, t2) == (w', [])
  {
  }

  // The only step that reopens a cleared alert is a fresh heartbeat of the task whose tracker still names it.
  lemma ClearedLeaves(w: World, s: Step, id: nat)
    requires Inv(w) && id < |w.alerts| && w.alerts[id].status.Cleared?
    ensures !Apply(w, s).0.alerts[id].status.Cleared? <==>
            && s.CheckBeat?
            && s.task in w.beats
            && w.beats[s.task].stalledId == Some(id)
            && !Stale(w, s.task, s.now, s.thresholdSecs)
  {
  }

  // Such a step is reached: a stalled task's alert is cleared by a user, then its heartbeat comes back.
  lemma ClearedReopens() returns (steps: seq<Step>)
    ensures |steps| == 5
    ensures var before, after := Run(EMPTY, steps[..3]).0.alerts, Run(EMPTY, steps).0.alerts;
            |before| == |after| == 1 && before[0].status.Cleared? && after[0].status.Recovered?
  {
    var beat, stale, clear := UpdateBeat("t", 0), CheckBeat("t", None, 100, 60), Clear(0, "u", 110);
    var again, alive := UpdateBeat("t", 120), CheckBeat("t", None, 130, 60);
    steps := [beat, stale, clear, again, alive];
    RunSnoc(EMPTY, [], beat);
    RunSnoc(EMPTY, [beat], stale);
    RunSnoc(EMPTY, [beat, stale], clear);
    RunSnoc(EMPTY, [beat, stale, clear], again);
    RunSnoc(EMPTY, [beat, stale, clear, again], alive);
    assert [] + [beat] == [beat] && [beat] + [stale] == [beat, stale];
    assert [beat, stale] + [clear] == [beat, stale, clear] == steps[..3];
    assert [beat, stale, clear] + [again] == [beat, stale, clear, again];
    assert [beat, stale, clear, again] + [alive] == steps;
    hide Run, PointStep, Silenced;
  }

  /******* Events and table agree *******/

  datatype Kind = Fired | Healed | Dismissed

  predicate IsEvent(e: Event, kind: Kind, id: nat) {
    && e.id == id
    && match kind
       case Fired => e.FiringEvent?
       case Healed => e.RecoveryEvent?
       case Dismissed => e.ClearedEvent?
  }

  function Count(events: seq<Event>, kind: Kind, id: nat): nat {
    if events == [] then 0
    else
      var n := |events| - 1;
      Count(events[..n], kind, id) + if IsEvent(events[n], kind, id) then 1 else 0
  }

  lemma CountAppend(events: seq<Event>, more: seq<Event>, kind: Kind, id: nat)
    requires |more| <= 1
    ensures Count(events + more, kind, id) ==
            Count(events, kind, id) + if more != [] && IsEvent(more[0], kind, id) then 1 else 0
  {
    if more == [] {
      assert events + more == events;
    } else {
      assert (events + more)[..|events|] == events;
    }
  }

  predicate StampsFit(a: Alert) {
    && (a.status.Firing? ==> a.recoveredAt.None?)
    && (a.status.Recovered? ==> a.recoveredAt.Some?)
  }

  function Bit(b: bool): nat {
    if b then 1 else 0
  }

  // How often each event about alert `id` has been emitted, read off the table.
  ghost predicate Told(w: World, events: seq<Event>, id: nat) {
    if id >= |w.alerts| then
      Count(events, Fired, id) == Count(events, Healed, id) == Count(events, Dismissed, id) == 0
    else if w.alerts[id].ruleId.Some? then
      && StampsFit(w.alerts[id])
      && Count(events, Fired, id) == 1
      && Count(events, Healed, id) == Bit(w.alerts[id].recoveredAt.Some?)
      && Count(events, Dismissed, id) == Bit(w.alerts[id].status.Cleared?)
    else true
  }

  lemma ToldAppend(events: seq<Event>, more: seq<Event>, id: nat)
    requires |more| <= 1
    ensures forall kind :: Count(events + more, kind, id) ==
              Count(events, kind, id) + if more != [] && IsEvent(more[0], kind, id) then 1 else 0
  {
    forall kind {
      CountAppend(events, more, kind, id);
    }
  }

  lemma PointTold(w: World, events: seq<Event>, rule: Rule, mp: Metric, now: int, id: nat)
    requires Inv(w) && Told(w, events, id)
    ensures var (w', more) := PointStep(w, rule, mp, now); Told(w', events + more, id)
  {
    hide EvaluateOp, IsRecovered, TrackerKey, TrackerOf, RecordViolation, Count, Inv;
    ToldAppend(events, PointStep(w, rule, mp, now).1, id);
  }

  lemma StepTold(w: World, events: seq<Event>, s: Step, id: nat)
    requires Inv(w) && Told(w, events, id)
    ensures Told(Apply(w, s).0, events + Apply(w, s).1, id)
  {
    if s.Point? {
      PointTold(w, events, s.rule, s.metric, s.now, id);
    } else {
      hide PointStep;
      ToldAppend(events, Apply(w, s).1, id);
    }
  }

  // Each rule alert fired exactly once, recovered at most once and was cleared at most once,
  // and its row says which of these happened.
  lemma {:induction false} EventsTellTheTable(steps: seq<Step>, id: nat)
    ensures var (w, events) := Run(EMPTY, steps); Told(w, events, id)
  {
    if steps == [] {
    } else {
      var n := |steps| - 1;
      EventsTellTheTable(steps[..n], id);
      RunKeepsInv(EMPTY, steps[..n]);
      StepTold(Run(EMPTY, steps[..n]).0, Run(EMPTY, steps[..n]).1, steps[n], id);
    }
  }
}
