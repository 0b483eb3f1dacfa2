/** The metrics-port pool, its reconciliation after a restart, and port safety from then on. */
module PortPool {
  import opened Wrappers

  const PORT_MIN := 9100
  const PORT_MAX := 9199

  predicate InRange(p: int) {
    PORT_MIN <= p <= PORT_MAX
  }

  /******* The pool *******/

  // The lowest port of [from, PORT_MAX] not in use.
  function LowestFree(inUse: set<int>, from: int): (r: Option<int>)
    ensures r.None? <==> forall p :: from <= p <= PORT_MAX ==> p in inUse
    ensures r.Some? ==> from <= r.value <= PORT_MAX && r.value !in inUse && forall p :: from <= p < r.value ==> p in inUse
    decreases PORT_MAX - from
  {
    if from > PORT_MAX then None
    else if from !in inUse then Some(from)
    else LowestFree(inUse, from + 1)
  }

  class Pool {
    var inUse: set<int>

    constructor ()
      ensures inUse == {}
    {
      inUse := {};
    }

    method Seed(ports: seq<int>)
      modifies this
      ensures inUse == old(inUse) + set p | p in ports && InRange(p)
    {
      for i := 0 to |ports|
        invariant inUse == old(inUse) + set p | p in ports[..i] && InRange(p)
      {
        assert ports[..i + 1] == ports[..i] + [ports[i]];
        if PORT_MIN <= ports[i] <= PORT_MAX {
          inUse := inUse + {ports[i]};
        }
      }
      assert ports[..|ports|] == ports;
    }

    method Acquire() returns (r: Option<int>)
      modifies this
      ensures r == LowestFree(old(inUse), PORT_MIN)
      ensures r.None? <==> forall p :: 9100 <= p <= 9199 ==> p in old(inUse)
      ensures r.Some? ==> 9100 <= r.value <= 9199 && r.value !in old(inUse) &&
                          forall p :: 9100 <= p < r.value ==> p in old(inUse)
      ensures inUse == old(inUse) + if r.Some? then {r.value} else {}
    {
      for port := PORT_MIN to PORT_MAX + 1
        invariant inUse == old(inUse)
        invariant LowestFree(inUse, PORT_MIN) == LowestFree(inUse, port)
      {
        if port !in inUse {
          inUse := inUse + {port};
          return Some(port);
        }
      }
      return None;
    }

    method Release(port: int)
      modifies this
      ensures inUse == old(inUse) - {port}
    {
      inUse := inUse - {port};
    }
  }

  /******* Reconciliation *******/

  datatype RunRow = RunRow(
    id: string, taskId: Option<string>, status: string, pid: Option<int>, exitCode: Option<int>,
    stopMethod: Option<string>, metricsPort: Option<int>)

  // u16::try_from
  function PortOf(run: RunRow): Option<int> {
    if run.metricsPort.Some? && 0 <= run.metricsPort.value < 65536 then run.metricsPort else None
  }

  // `alive` answers for the operating system; a pid must be positive and fit in 32 bits.
  predicate IsLive(run: RunRow, alive: int -> bool) {
    run.pid.Some? && 0 < run.pid.value < 0x1_0000_0000 && alive(run.pid.value)
  }

  function Orphaned(run: RunRow): RunRow {
    run.(status := "failed", stopMethod := Some("orphaned"),
         exitCode := if run.exitCode.None? then Some(-1) else run.exitCode, metricsPort := None)
  }

  function Reconciled(run: RunRow, alive: int -> bool): RunRow {
    if IsLive(run, alive) then run else Orphaned(run)
  }

  function LivePorts(runs: seq<RunRow>, alive: int -> bool): set<int> {
    set i | 0 <= i < |runs| && IsLive(runs[i], alive) && PortOf(runs[i]).Some? :: PortOf(runs[i]).value
  }

  function DeadPorts(runs: seq<RunRow>, alive: int -> bool): set<int> {
    set i | 0 <= i < |runs| && !IsLive(runs[i], alive) && PortOf(runs[i]).Some? :: PortOf(runs[i]).value
  }

  function PortsOf(runs: seq<RunRow>): seq<int> {
    if runs == [] then []
    else
      var n := |runs| - 1;
      PortsOf(runs[..n]) + if PortOf(runs[n]).Some? then [PortOf(runs[n]).value] else []
  }

  // The re-attached runs by task; of two live runs of one task the later stays.
  function Attached(runs: seq<RunRow>, alive: int -> bool): map<string, string> {
    if runs == [] then map[]
    else
      var n := |runs| - 1;
      var before := Attached(runs[..n], alive);
      if IsLive(runs[n], alive) && runs[n].taskId.Some? then before[runs[n].taskId.value := runs[n].id] else before
  }

  lemma SnocPorts(runs: seq<RunRow>, alive: int -> bool)
    requires runs != []
    ensures var n := |runs| - 1;
            var port := if PortOf(runs[n]).Some? then {PortOf(runs[n]).value} else {};
            && LivePorts(runs, alive) == LivePorts(runs[..n], alive) + (if IsLive(runs[n], alive) then port else {})
            && DeadPorts(runs, alive) == DeadPorts(runs[..n], alive) + (if IsLive(runs[n], alive) then {} else port)
  {
    var n := |runs| - 1;
    assert forall i :: 0 <= i < n ==> runs[..n][i] == runs[i];
    forall p ensures p in LivePorts(runs, alive) ==> p in LivePorts(runs[..n], alive) || IsLive(runs[n], alive) {
      if p in LivePorts(runs, alive) {
        var i :| 0 <= i < |runs| && IsLive(runs[i], alive) && PortOf(runs[i]) == Some(p);
        assert i < n ==> PortOf(runs[..n][i]) == Some(p);
      }
    }
    forall p ensures p in LivePorts(runs[..n], alive) ==> p in LivePorts(runs, alive) {
      if p in LivePorts(runs[..n], alive) {
        var i :| 0 <= i < n && IsLive(runs[..n][i], alive) && PortOf(runs[..n][i]) == Some(p);
        assert PortOf(runs[i]) == Some(p);
      }
    }
    forall p ensures p in DeadPorts(runs[..n], alive) ==> p in DeadPorts(runs, alive) {
      if p in DeadPorts(runs[..n], alive) {
        var i :| 0 <= i < n && !IsLive(runs[..n][i], alive) && PortOf(runs[..n][i]) == Some(p);
        assert PortOf(runs[i]) == Some(p);
      }
    }
  }

  lemma {:induction false} SeededPorts(runs: seq<RunRow>, alive: int -> bool)
    ensures forall p :: p in PortsOf(runs) <==> p in LivePorts(runs, alive) + DeadPorts(runs, alive)
  {
    if runs == [] {
    } else {
      SeededPorts(runs[..|runs| - 1], alive);
      SnocPorts(runs, alive);
    }
  }

  lemma NoDeadPorts(alive: int -> bool)
    ensures DeadPorts([], alive) == {}
  {
  }

  method ReconcileLiveRuns(pool: Pool, runs: seq<RunRow>, alive: int -> bool)
    returns (rows: seq<RunRow>, active: map<string, string>)
    modifies pool
    ensures pool.inUse == old(pool.inUse) + (set p | p in PortsOf(runs) && InRange(p)) - DeadPorts(runs, alive)
    ensures |rows| == |runs| && forall i :: 0 <= i < |runs| ==> rows[i] == Reconciled(runs[i], alive)
    ensures forall i :: 0 <= i < |runs| ==>
              if runs[i].pid.Some? && 0 < runs[i].pid.value < 0x1_0000_0000 && alive(runs[i].pid.value)
              then rows[i] == runs[i]
              else rows[i] == runs[i].(status := "failed", stopMethod := Some("orphaned"), metricsPort := None,
                                       exitCode := if runs[i].exitCode.Some? then runs[i].exitCode else Some(-1))
    ensures active == Attached(runs, alive)
  {
    hide LivePorts, DeadPorts, PortsOf, IsLive;
    rows, active := [], map[];
    pool.Seed(PortsOf(runs));
    ghost var seeded := pool.inUse;
    NoDeadPorts(alive);
    for i := 0 to |runs|
      invariant pool.inUse == seeded - DeadPorts(runs[..i], alive)
      invariant |rows| == i && forall k :: 0 <= k < i ==> rows[k] == Reconciled(runs[k], alive)
      invariant active == Attached(runs[..i], alive)
    {
      var run := runs[i];
      assert runs[..i + 1][..i] == runs[..i];
      SnocPorts(runs[..i + 1], alive);
      if IsLive(run, alive) {
        if run.taskId.Some? {
          active := active[run.taskId.value := run.id];
        }
        rows := rows + [run];
      } else {
        var port := PortOf(run);
        if port.Some? {
          pool.Release(port.value);
        }
        rows := rows + [Orphaned(run)];
      }
    }
    assert runs[..|runs|] == runs;
    forall i | 0 <= i < |runs|
      ensures if runs[i].pid.Some? && 0 < runs[i].pid.value < 0x1_0000_0000 && alive(runs[i].pid.value)
              then rows[i] == runs[i]
              else rows[i] == runs[i].(status := "failed", stopMethod := Some("orphaned"), metricsPort := None,
                                       exitCode := if runs[i].exitCode.Some? then runs[i].exitCode else Some(-1))
    {
      LiveByPid(runs[i], alive);
    }
  }

  lemma LiveByPid(run: RunRow, alive: int -> bool)
    ensures IsLive(run, alive) <==> run.pid.Some? && 0 < run.pid.value < 0x1_0000_0000 && alive(run.pid.value)
  {
  }

  // A task is re-attached exactly when it has a live run, and to the last of them.
  lemma {:induction false} AttachedToLast(runs: seq<RunRow>, alive: int -> bool, task: string)
    ensures task in Attached(runs, alive) <==>
            exists i :: 0 <= i < |runs| && runs[i].taskId == Some(task) && IsLive(runs[i], alive)
    ensures forall i :: 0 <= i < |runs| && runs[i].taskId == Some(task) && IsLive(runs[i], alive) &&
                        (forall j :: i < j < |runs| && IsLive(runs[j], alive) ==> runs[j].taskId != Some(task)) ==>
              task in Attached(runs, alive) && Attached(runs, alive)[task] == runs[i].id
  {
    hide IsLive;
    if runs == [] {
    } else {
      var n := |runs| - 1;
      AttachedToLast(runs[..n], alive, task);
      assert forall i :: 0 <= i < n ==> runs[..n][i] == runs[i];
    }
  }

  // After reconciling from an empty pool exactly the live runs' ports are in use, if and only if no dead
  // run names a live run's port.
  lemma ReconcileExact(runs: seq<RunRow>, alive: int -> bool)
    ensures var live := set p | p in LivePorts(runs, alive) && InRange(p);
            var inUse := {} + (set p | p in PortsOf(runs) && InRange(p)) - DeadPorts(runs, alive);
            inUse == live <==> live !! DeadPorts(runs, alive)
  {
    SeededPorts(runs, alive);
    var live := set p | p in LivePorts(runs, alive) && InRange(p);
    var inUse := {} + (set p | p in PortsOf(runs) && InRange(p)) - DeadPorts(runs, alive);
    assert inUse == live - DeadPorts(runs, alive);
  }

  ghost predicate DistinctPorts(runs: seq<RunRow>) {
    forall i, j :: 0 <= i < j < |runs| && PortOf(runs[i]).Some? ==> PortOf(runs[i]) != PortOf(runs[j])
  }

  // In particular when the active runs' ports are pairwise distinct.
  lemma DistinctPortsSuffice(runs: seq<RunRow>, alive: int -> bool)
    requires DistinctPorts(runs)
    ensures LivePorts(runs, alive) !! DeadPorts(runs, alive)
  {
    forall p | p in LivePorts(runs, alive) ensures p !in DeadPorts(runs, alive) {
      var i :| 0 <= i < |runs| && IsLive(runs[i], alive) && PortOf(runs[i]) == Some(p);
    }
  }

  // A dead run that names a live run's port frees it: the pool could hand it out again.
  lemma SharedPortFreed(alive: int -> bool, live: RunRow, dead: RunRow, p: int)
    requires InRange(p) && PortOf(live) == Some(p) && PortOf(dead) == Some(p)
    requires IsLive(live, alive) && !IsLive(dead, alive)
    ensures var runs := [live, dead];
            p in LivePorts(runs, alive) && p !in (set q | q in PortsOf(runs) && InRange(q)) - DeadPorts(runs, alive)
  {
    var runs := [live, dead];
    assert runs[0] == live && runs[1] == dead;
    assert PortOf(runs[1]).value in DeadPorts(runs, alive);
  }

  /******* From then on *******/

  datatype Step = Start(run: string) | Stop(run: string)

  datatype World = World(inUse: set<int>, holders: map<string, int>)

  // Starting a run takes a port if one is free; stopping it gives back the port it holds.
  function Apply(w: World, s: Step): World {
    match s
    case Start(run) =>
      var port := LowestFree(w.inUse, PORT_MIN);
      if run in w.holders || port.None? then w
      else World(w.inUse + {port.value}, w.holders[run := port.value])
    case Stop(run) =>
      if run !in w.holders then w else World(w.inUse - {w.holders[run]}, w.holders - {run})
  }

  function RunSteps(w: World, steps: seq<Step>): World {
    if steps == [] then w else Apply(RunSteps(w, steps[..|steps| - 1]), steps[|steps| - 1])
  }

  // No two holders share a port, and the pool has marked exactly the held ports of its range.
  ghost predicate Safe(w: World) {
    && (forall a, b :: a in w.holders && b in w.holders && w.holders[a] == w.holders[b] ==> a == b)
    && (forall p :: p in w.inUse <==> InRange(p) && p in w.holders.Values)
  }

  lemma StartSafe(w: World, run: string)
    requires Safe(w)
    ensures Safe(Apply(w, Start(run)))
  {
    var w' := Apply(w, Start(run));
    if w' != w {
      var port := w'.holders[run];
      forall p ensures p in w'.holders.Values <==> p in w.holders.Values || p == port {
        if p in w.holders.Values {
          var r :| r in w.holders && w.holders[r] == p;
          assert w'.holders[r] == p;
        }
      }
    }
  }

  lemma StopSafe(w: World, run: string)
    requires Safe(w)
    ensures Safe(Apply(w, Stop(run)))
  {
    var w' := Apply(w, Stop(run));
    if run in w.holders {
      assert w'.holders.Values == w.holders.Values - {w.holders[run]} by {
        forall p ensures p in w'.holders.Values <==> p in w.holders.Values && p != w.holders[run] {
          if p in w.holders.Values && p != w.holders[run] {
            var r :| r in w.holders && w.holders[r] == p;
            assert r in w'.holders && w'.holders[r] == p;
          }
          if p in w'.holders.Values {
            var r :| r in w'.holders && w'.holders[r] == p;
            assert r in w.holders && r != run;
          }
        }
      }
    }
  }

  // In every later run of starts and stops no two holders ever share a port.
  lemma {:induction false} PortsStaySafe(w: World, steps: seq<Step>)
    requires Safe(w)
    ensures Safe(RunSteps(w, steps))
  {
    if steps == [] {
    } else {
      var n := |steps| - 1;
      PortsStaySafe(w, steps[..n]);
      var before := RunSteps(w, steps[..n]);
      match steps[n]
      case Start(run) => StartSafe(before, run);
      case Stop(run) => StopSafe(before, run);
    }
  }

  // A start fails for want of a port exactly when every port of the range is held by some run.
  lemma AcquireFailsOnlyWhenFull(w: World, steps: seq<Step>)
    requires Safe(w)
    ensures var now := RunSteps(w, steps);
            LowestFree(now.inUse, PORT_MIN).None? <==> forall p :: InRange(p) ==> p in now.holders.Values
  {
    PortsStaySafe(w, steps);
    var now := RunSteps(w, steps);
    assert forall p :: InRange(p) ==> (p in now.inUse <==> p in now.holders.Values);
  }

  function LiveHolders(runs: seq<RunRow>, alive: int -> bool): map<string, int> {
    if runs == [] then map[]
    else
      var n := |runs| - 1;
      var before := LiveHolders(runs[..n], alive);
      if IsLive(runs[n], alive) && PortOf(runs[n]).Some? then before[runs[n].id := PortOf(runs[n]).value] else before
  }

  ghost predicate DistinctRunIds(runs: seq<RunRow>) {
    forall i, j :: 0 <= i < j < |runs| ==> runs[i].id != runs[j].id
  }

  lemma {:induction false} LiveHoldersAre(runs: seq<RunRow>, alive: int -> bool, id: string)
    requires DistinctRunIds(runs)
    ensures var h := LiveHolders(runs, alive);
            id in h <==> exists i :: 0 <= i < |runs| && runs[i].id == id && IsLive(runs[i], alive) && PortOf(runs[i]).Some?
    ensures forall i :: 0 <= i < |runs| && runs[i].id == id && IsLive(runs[i], alive) && PortOf(runs[i]).Some? ==>
                          LiveHolders(runs, alive)[id] == PortOf(runs[i]).value
  {
    if runs == [] {
    } else {
      var n := |runs| - 1;
      LiveHoldersAre(runs[..n], alive, id);
      assert forall i :: 0 <= i < n ==> runs[..n][i] == runs[i];
    }
  }

  // The world after a restart is safe, so it stays safe.
  lemma RestartIsSafe(runs: seq<RunRow>, alive: int -> bool)
    requires DistinctPorts(runs) && DistinctRunIds(runs)
    ensures Safe(World((set p | p in LivePorts(runs, alive) && InRange(p)), LiveHolders(runs, alive)))
  {
    var h := LiveHolders(runs, alive);
    forall a, b | a in h && b in h && h[a] == h[b] ensures a == b {
      LiveHoldersAre(runs, alive, a);
      LiveHoldersAre(runs, alive, b);
      var i :| 0 <= i < |runs| && runs[i].id == a && IsLive(runs[i], alive) && PortOf(runs[i]).Some?;
      var j :| 0 <= j < |runs| && runs[j].id == b && IsLive(runs[j], alive) && PortOf(runs[j]).Some?;
      assert PortOf(runs[i]) == PortOf(runs[j]);
    }
    forall p ensures p in LivePorts(runs, alive) <==> p in h.Values {
      if p in LivePorts(runs, alive) {
        var i :| 0 <= i < |runs| && IsLive(runs[i], alive) && PortOf(runs[i]) == Some(p);
        LiveHoldersAre(runs, alive, runs[i].id);
        assert h[runs[i].id] == p;
      }
      if p in h.Values {
        var id :| id in h && h[id] == p;
        LiveHoldersAre(runs, alive, id);
        var i :| 0 <= i < |runs| && runs[i].id == id && IsLive(runs[i], alive) && PortOf(runs[i]).Some?;
        assert PortOf(runs[i]).value == p;
      }
    }
  }

  // Reconciliation from an empty pool, then any starts and stops: no two holders share a port, and a start fails for
  // want of a port exactly when all of them are held.
  lemma PortSafetyAcrossRestart(runs: seq<RunRow>, alive: int -> bool, steps: seq<Step>)
    requires DistinctPorts(runs) && DistinctRunIds(runs)
    ensures var inUse := {} + (set p | p in PortsOf(runs) && InRange(p)) - DeadPorts(runs, alive);
            var now := RunSteps(World(inUse, LiveHolders(runs, alive)), steps);
            && Safe(now)
            && (LowestFree(now.inUse, PORT_MIN).None? <==> forall p :: InRange(p) ==> p in now.holders.Values)
  {
    ReconcileExact(runs, alive);
    DistinctPortsSuffice(runs, alive);
    RestartIsSafe(runs, alive);
    var inUse := {} + (set p | p in PortsOf(runs) && InRange(p)) - DeadPorts(runs, alive);
    PortsStaySafe(World(inUse, LiveHolders(runs, alive)), steps);
    AcquireFailsOnlyWhenFull(World(inUse, LiveHolders(runs, alive)), steps);
  }
}
