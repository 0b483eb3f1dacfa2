/** Dwell is sound and complete over whole runs of ticks and clears.
    `FiresAt` says when a pair must fire, from the pair's history alone. */
module AlertDwell {
  import opened Wrappers
  import opened Alerts
  import opened AlertPairs
  import opened AlertRefinement

  // What happened to one pair: its points, and the clears that ended its firing.
  datatype Item = Observed(at: int, value: real) | Ended

  function Items(w: World, s: Step, ruleId: string, task: string): seq<Item> {
    if IsOwnPoint(s, ruleId, task) then [Observed(s.now, s.metric.value)]
    else if s.Clear? && ClearsPair(w, s.id, ruleId, task) then [Ended]
    else []
  }

  function History(steps: seq<Step>, ruleId: string, task: string): seq<Item> {
    if steps == [] then []
    else
      var n := |steps| - 1;
      History(steps[..n], ruleId, task) + Items(Run(EMPTY, steps[..n]).0, steps[n], ruleId, task)
  }

  predicate Violation(rule: Rule, i: Item) {
    i.Observed? && Violates(rule, i.value)
  }

  // Violation held at every point from `j` to the end, with no firing since.
  ghost predicate HeldSince(rule: Rule, h: seq<Item>, j: nat)
    decreases |h|, 0
  {
    && j < |h|
    && (forall k :: j <= k < |h| ==> Violation(rule, h[k]))
    && (forall k :: j < k < |h| ==> !FiringAfter(rule, h[..k]))
  }

  // The last point of `h` fires: the pair was not firing, and violation has held since a point
  // at least `dwellSecs` earlier.
  ghost predicate FiresAt(rule: Rule, h: seq<Item>)
    decreases |h|, 1
  {
    && h != []
    && !FiringAfter(rule, h[..|h| - 1])
    && exists j: nat :: HeldSince(rule, h, j) && h[|h| - 1].at - h[j].at >= rule.dwellSecs
  }

  ghost predicate FiringAfter(rule: Rule, h: seq<Item>)
    decreases |h|, 2
  {
    && h != []
    && var last := h[|h| - 1];
       && last.Observed?
       && (FiresAt(rule, h) ||
           (FiringAfter(rule, h[..|h| - 1]) && (Violates(rule, last.value) || !IsRecovered(rule, last.value))))
  }

  ghost predicate Nondecreasing(h: seq<Item>) {
    forall i, j :: 0 <= i <= j < |h| && h[i].Observed? && h[j].Observed? ==> h[i].at <= h[j].at
  }

  /******* The tracker computes exactly this *******/

  function Fold(rule: Rule, h: seq<Item>): Pair {
    if h == [] then Pair(false, None)
    else
      var p := Fold(rule, h[..|h| - 1]);
      match h[|h| - 1]
      case Observed(at, value) => PairStep(rule, p, at, value).0
      case Ended => Pair(false, None)
  }

  ghost predicate StreakStart(rule: Rule, h: seq<Item>, j: nat) {
    && HeldSince(rule, h, j)
    && !FiringAfter(rule, h)
    && (j > 0 ==> !Violation(rule, h[j - 1]) || FiringAfter(rule, h[..j]))
  }

  // Outside a firing, the streak is the start of the longest held stretch.
  ghost predicate StreakFits(rule: Rule, h: seq<Item>, streak: Option<int>) {
    match streak
    case None => h == [] || !Violation(rule, h[|h| - 1])
    case Some(t) => exists j: nat :: StreakStart(rule, h, j) && h[j].at == t
  }

  lemma HeldGrows(rule: Rule, h: seq<Item>, i: Item, j: nat)
    ensures HeldSince(rule, h + [i], j) <==>
            Violation(rule, i) && (j == |h| || (HeldSince(rule, h, j) && !FiringAfter(rule, h)))
  {
    var more := h + [i];
    assert more[..|h|] == h;
    assert forall k :: 0 <= k < |h| ==> more[..k] == h[..k] && more[k] == h[k];
    if HeldSince(rule, more, j) {
      assert Violation(rule, more[|h|]);
      forall k | j <= k < |h| ensures Violation(rule, h[k]) { assert Violation(rule, more[k]); }
      forall k | j < k < |h| ensures !FiringAfter(rule, h[..k]) { assert !FiringAfter(rule, more[..k]); }
    }
  }

  // The longest held stretch decides: a shorter one started later.
  lemma StartDecides(rule: Rule, h: seq<Item>, i: Item, j: nat)
    requires StreakStart(rule, h, j) && Violation(rule, i) && Nondecreasing(h + [i])
    ensures FiresAt(rule, h + [i]) <==> i.at - h[j].at >= rule.dwellSecs
    ensures !FiresAt(rule, h + [i]) ==> StreakStart(rule, h + [i], j)
  {
    hide EvaluateOp, IsRecovered;
    var more := h + [i];
    assert more[..|h|] == h;
    HeldGrows(rule, h, i, j);
    if FiresAt(rule, more) {
      var j': nat :| HeldSince(rule, more, j') && i.at - more[j'].at >= rule.dwellSecs;
      HeldGrows(rule, h, i, j');
      assert j <= j';
      assert more[j] == h[j] && more[j].at <= more[j'].at;
    }
    if i.at - h[j].at >= rule.dwellSecs {
      assert HeldSince(rule, more, j);
    }
    assert more[..j] == h[..j];
  }

  lemma FreshDecides(rule: Rule, h: seq<Item>, i: Item)
    requires !FiringAfter(rule, h) && Violation(rule, i)
    requires h == [] || !Violation(rule, h[|h| - 1])
    ensures FiresAt(rule, h + [i]) <==> rule.dwellSecs <= 0
    ensures !FiresAt(rule, h + [i]) ==> StreakStart(rule, h + [i], |h|)
  {
    var more := h + [i];
    assert more[..|h|] == h;
    HeldGrows(rule, h, i, |h|);
    if FiresAt(rule, more) {
      var j: nat :| HeldSince(rule, more, j) && i.at - more[j].at >= rule.dwellSecs;
      HeldGrows(rule, h, i, j);
    }
  }

  lemma CannotFire(rule: Rule, h: seq<Item>, i: Item)
    requires !Violation(rule, i) || FiringAfter(rule, h)
    ensures !FiresAt(rule, h + [i])
  {
    var more := h + [i];
    assert more[..|h|] == h && more[|h|] == i;
    assert forall j: nat :: HeldSince(rule, more, j) ==> Violation(rule, more[|h|]);
  }

  lemma StreakAt(rule: Rule, h: seq<Item>, t: int) returns (j: nat)
    requires StreakFits(rule, h, Some(t))
    ensures j < |h| && StreakStart(rule, h, j) && h[j].Observed? && h[j].at == t
  {
    hide EvaluateOp, IsRecovered, FiringAfter;
    j :| StreakStart(rule, h, j) && h[j].at == t;
    assert Violation(rule, h[j]);
  }

  lemma {:induction false} FoldIsDwell(rule: Rule, h: seq<Item>)
    requires Nondecreasing(h)
    ensures Fold(rule, h).firing <==> FiringAfter(rule, h)
    ensures !Fold(rule, h).firing ==> StreakFits(rule, h, Fold(rule, h).streak)
    ensures Fold(rule, h).firing ==> Fold(rule, h).streak.None?
  {
    hide EvaluateOp, IsRecovered, HeldSince, FiresAt, StreakStart;
    if h == [] {
    } else {
      var n := |h| - 1;
      var before, i := h[..n], h[n];
      FoldIsDwell(rule, before);
      assert h == before + [i];
      var p := Fold(rule, before);
      if Violation(rule, i) && !p.firing {
        match p.streak {
          case None => FreshDecides(rule, before, i);
          case Some(t) =>
            var j := StreakAt(rule, before, t);
            StartDecides(rule, before, i, j);
            assert h[j] == before[j];
        }
      } else {
        CannotFire(rule, before, i);
      }
    }
  }

  /******* The engine follows the fold *******/

  lemma StepFolds(w: World, s: Step, h: seq<Item>, rule: Rule, task: string)
    requires Inv(w) && PairOf(w, rule.id, task) == Fold(rule, h)
    requires IsOwnPoint(s, rule.id, task) ==> s.rule == rule
    ensures PairOf(Apply(w, s).0, rule.id, task) == Fold(rule, h + Items(w, s, rule.id, task))
  {
    var items := Items(w, s, rule.id, task);
    assert items == [] ==> h + items == h;
    assert |items| == 1 ==> (h + items)[..|h|] == h;
    if IsOwnPoint(s, rule.id, task) {
      PointOwn(w, rule, s.metric, s.now);
    } else if s.Clear? {
      ClearPair(w, s.id, s.user, s.at, rule.id, task);
    } else {
      OtherStepPair(w, s, rule.id, task);
    }
  }

  lemma {:induction false} RunFolds(steps: seq<Step>, rule: Rule, task: string)
    requires Consistent(steps, rule)
    ensures PairOf(Run(EMPTY, steps).0, rule.id, task) == Fold(rule, History(steps, rule.id, task))
  {
    if steps == [] {
    } else {
      var n := |steps| - 1;
      RunFolds(steps[..n], rule, task);
      RunKeepsInv(EMPTY, steps[..n]);
      StepFolds(Run(EMPTY, steps[..n]).0, steps[n], History(steps[..n], rule.id, task), rule, task);
    }
  }

  ghost predicate TicksForward(steps: seq<Step>) {
    forall i, j :: 0 <= i <= j < |steps| && steps[i].Point? && steps[j].Point? ==> steps[i].now <= steps[j].now
  }

  lemma {:induction false} HistoryForward(steps: seq<Step>, ruleId: string, task: string, bound: int)
    requires TicksForward(steps)
    requires forall i :: 0 <= i < |steps| && steps[i].Point? ==> steps[i].now <= bound
    ensures Nondecreasing(History(steps, ruleId, task))
    ensures forall i :: 0 <= i < |History(steps, ruleId, task)| && History(steps, ruleId, task)[i].Observed? ==>
                          History(steps, ruleId, task)[i].at <= bound
  {
    if steps == [] {
    } else {
      var n := |steps| - 1;
      HistoryForward(steps[..n], ruleId, task, if steps[n].Point? then steps[n].now else bound);
    }
  }

  lemma PairStepDecides(rule: Rule, h: seq<Item>, now: int, value: real)
    requires Nondecreasing(h + [Observed(now, value)])
    ensures var (p, o) := PairStep(rule, Fold(rule, h), now, value);
            && (o.Fires? <==> FiresAt(rule, h + [Observed(now, value)]))
            && (p.firing <==> FiringAfter(rule, h + [Observed(now, value)]))
            && (p.firing ==> p.streak.None?)
  {
    var more := h + [Observed(now, value)];
    assert more[..|h|] == h;
    assert forall i :: 0 <= i < |h| ==> more[i] == h[i];
    FoldIsDwell(rule, h);
    FoldIsDwell(rule, more);
  }

  lemma LastForward(steps: seq<Step>, rule: Rule, mp: Metric, now: int)
    requires TicksForward(steps + [Point(rule, mp, now)])
    ensures Nondecreasing(History(steps, rule.id, mp.taskId) + [Observed(now, mp.value)])
  {
    var s := Point(rule, mp, now);
    assert (steps + [s])[..|steps|] == steps && (steps + [s])[|steps|] == s;
    HistoryForward(steps + [s], rule.id, mp.taskId, now);
  }

  lemma EmptyInv()
    ensures Inv(EMPTY)
  {
  }

  // Over every run of ticks, heartbeats and clears, a point of the pair emits a firing event
  // exactly when dwell is met on the pair's history, and the alert stands exactly as long as it should.
  lemma DwellSoundAndComplete(steps: seq<Step>, rule: Rule, mp: Metric, now: int)
    requires Consistent(steps, rule)
    requires TicksForward(steps + [Point(rule, mp, now)])
    ensures var h := History(steps, rule.id, mp.taskId) + [Observed(now, mp.value)];
            var (w', events) := PointStep(Run(EMPTY, steps).0, rule, mp, now);
            && ((exists e :: e in events && e.FiringEvent?) <==> FiresAt(rule, h))
            && (Latest(w'.alerts, RuleQuery(rule.id, mp.taskId)).Some? <==> FiringAfter(rule, h))
            && (FiringAfter(rule, h) ==> StreakOf(w'.dwell, mp.taskId, rule.id).None?)
  {
    hide Run, History, Fold, PointStep, Latest, Inv, PairStep, FiresAt, FiringAfter, TrackerKey, Consistent, TicksForward,
         Nondecreasing;
    var task := mp.taskId;
    var w, before := Run(EMPTY, steps).0, History(steps, rule.id, task);
    LastForward(steps, rule, mp, now);
    EmptyInv();
    RunKeepsInv(EMPTY, steps);
    RunFolds(steps, rule, task);
    PairStepDecides(rule, before, now, mp.value);
    PointOwn(w, rule, mp, now);
    var events := PointStep(w, rule, mp, now).1;
    assert PairStep(rule, Fold(rule, before), now, mp.value).1.Fires? ==> events[0].FiringEvent?;
  }
}
