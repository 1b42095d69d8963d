/** The dashboard's anomaly rules (app.py:757-767, 883-970) as functions of the monitor state:
    stuck and idle detection, the CPU and memory tiers, the total-memory alert and the
    clean-up of pids that were not seen in a poll. */
module Detector {
  import opened Wrappers
  import opened Text
  import opened Uptime
  import opened Registry
  import opened CpuHistory
  import opened Processes

  const CpuWarning: real := 50.0
  const CpuCritical: real := 80.0
  const CpuStuck: real := 85.0
  const MemWarning: nat := 1024 * 1024 * 1024
  const MemCritical: nat := 2 * 1024 * 1024 * 1024
  const TotalMemWarning: nat := 4 * 1024 * 1024 * 1024
  const IdleDaemonMinutes: nat := 30
  /** The idle test's CPU and memory ceilings (app.py:905). */
  const IdleCpu: real := 1.0
  const IdleMemory: nat := 100 * 1024 * 1024

  /** What `checkStuckProcess` returns: 'stuck', 'idle' or null. */
  datatype Status = StuckStatus | IdleStatus | NoStatus

  /** The dashboard's two maps. */
  datatype Monitor = Monitor(alerts: seq<Entry>, history: History)

  /** What the rules keep true of the state: map keys distinct, at most 50 alerts, history
      pids distinct, every window at most 6 readings. */
  predicate Valid(m: Monitor) {
    Keyed(m.alerts) && |m.alerts| <= MaxAlerts && PidsDistinct(m.history) && WindowsBounded(m.history)
  }

  /** A full window whose every reading is above 85%. */
  predicate IsStuck(w: Samples) {
    |w| >= WindowSize && forall k :: 0 <= k < |w| ==> w[k] > CpuStuck
  }

  /** A long-lived, quiet process whose name contains 'Daemon' (app.py:903-905). */
  predicate IsIdle(p: ProcInfo) {
    && Contains(p.name, "Daemon")
    && ParseUptime(if p.uptime == "" then "0m" else p.uptime) > IdleDaemonMinutes
    && p.cpu < IdleCpu
    && p.memory < IdleMemory
  }

  /** `checkStuckProcess(proc)` at time `now` (app.py:883-913). */
  function CheckStuck(m: Monitor, p: ProcInfo, now: int): (Monitor, Status) {
    var h := Record(m.history, p.pid, p.cpu);
    if IsStuck(WindowOf(h, p.pid)) then
      (Monitor(Raise(m.alerts, Stuck(p.pid), Danger, StuckMessage(p.name, p.pid), now), h), StuckStatus)
    else
      var a := Remove(m.alerts, Stuck(p.pid));
      if IsIdle(p) then
        (Monitor(Raise(a, Idle(p.pid), Warning, IdleMessage(p.name, p.pid, p.uptime), now), h), IdleStatus)
      else
        (Monitor(Remove(a, Idle(p.pid)), h), NoStatus)
  }

  /** The tier a CPU reading falls in (app.py:937-943). */
  function CpuLevel(cpu: real): (r: Option<Severity>)
    ensures r == Some(Danger) <==> cpu > CpuCritical
    ensures r == Some(Warning) <==> CpuWarning < cpu <= CpuCritical
    ensures r == None <==> cpu <= CpuWarning
  {
    if cpu > CpuCritical then Some(Danger) else if cpu > CpuWarning then Some(Warning) else None
  }

  /** The tier a resident size falls in (app.py:946-952). */
  function MemLevel(memory: nat): (r: Option<Severity>)
    ensures r == Some(Danger) <==> memory > MemCritical
    ensures r == Some(Warning) <==> MemWarning < memory <= MemCritical
    ensures r == None <==> memory <= MemWarning
  {
    if memory > MemCritical then Some(Danger) else if memory > MemWarning then Some(Warning) else None
  }

  /** Raise `id` at the given tier, or remove it when there is none. */
  function Apply(t: seq<Entry>, id: AlertId, level: Option<Severity>, message: Message, now: int): seq<Entry> {
    match level
    case Some(severity) => Raise(t, id, severity, message, now)
    case None => Remove(t, id)
  }

  /** One iteration of the `allProcs.forEach` of `checkAlerts` (app.py:929-952): the stuck and
      idle check, the CPU tier unless the process is stuck, then the memory tier. */
  function ProcStep(m: Monitor, p: ProcInfo, now: int): (Monitor, Status) {
    var (m1, status) := CheckStuck(m, p, now);
    var a := if status != StuckStatus then Apply(m1.alerts, Cpu(p.pid), CpuLevel(p.cpu), CpuMessage(p.name, p.pid, p.cpu), now)
             else m1.alerts;
    (Monitor(Apply(a, Mem(p.pid), MemLevel(p.memory), MemMessage(p.name, p.pid, p.memory), now), m1.history), status)
  }

  /** The whole `forEach`: the state after the processes in order, and each one's status. */
  function RunProcs(m: Monitor, procs: seq<ProcInfo>, now: int): (r: (Monitor, seq<Status>))
    ensures |r.1| == |procs|
    decreases |procs|
  {
    if procs == [] then (m, [])
    else
      var (m1, statuses) := RunProcs(m, procs[..|procs| - 1], now);
      var (m2, status) := ProcStep(m1, procs[|procs| - 1], now);
      (m2, statuses + [status])
  }

  /** One more process: its step runs in the state the others left behind. */
  lemma RunProcsSnoc(m: Monitor, procs: seq<ProcInfo>, p: ProcInfo, now: int)
    ensures var (m1, st) := RunProcs(m, procs, now);
      RunProcs(m, procs + [p], now) == (ProcStep(m1, p, now).0, st + [ProcStep(m1, p, now).1])
  {
    assert (procs + [p])[..|procs|] == procs;
  }

  /** The whole run is the left fold of `ProcStep` over the processes in order: nothing
      changes on no processes, and the state after the first `i + 1` processes is the step of
      process `i` from the state after the first `i`. */
  lemma RunProcsStates(m: Monitor, procs: seq<ProcInfo>, now: int)
    ensures RunProcs(m, [], now) == (m, [])
    ensures forall i :: 0 <= i < |procs| ==>
      RunProcs(m, procs[..i + 1], now).0 == ProcStep(RunProcs(m, procs[..i], now).0, procs[i], now).0
  {
    forall i | 0 <= i < |procs|
      ensures RunProcs(m, procs[..i + 1], now).0 == ProcStep(RunProcs(m, procs[..i], now).0, procs[i], now).0
    {
      assert procs[..i + 1] == procs[..i] + [procs[i]];
      RunProcsSnoc(m, procs[..i], procs[i], now);
    }
  }

  /** Each process's status is the one its own step reports, in the state the processes
      before it left behind. */
  lemma {:induction false} RunProcsStatuses(m: Monitor, procs: seq<ProcInfo>, now: int)
    ensures forall i :: 0 <= i < |procs| ==>
      RunProcs(m, procs, now).1[i] == ProcStep(RunProcs(m, procs[..i], now).0, procs[i], now).1
    decreases |procs|
  {
    if procs != [] {
      var init := procs[..|procs| - 1];
      var last := procs[|procs| - 1];
      RunProcsStatuses(m, init, now);
      assert procs == init + [last];
      RunProcsSnoc(m, init, last, now);
      forall i | 0 <= i < |procs|
        ensures RunProcs(m, procs, now).1[i] == ProcStep(RunProcs(m, procs[..i], now).0, procs[i], now).1
      {
        if i < |init| {
          assert init[..i] == procs[..i];
        } else {
          assert procs[..i] == init;
        }
      }
    }
  }

  /** The pids of the processes of one poll. */
  function Seen(procs: seq<ProcInfo>): set<int> {
    set i | 0 <= i < |procs| :: procs[i].pid
  }

  /** An alert belonging to a pid in `pids` that was not seen. */
  predicate Dead(id: AlertId, pids: seq<int>, seen: set<int>) {
    !id.TotalMem? && id.pid in pids && id.pid !in seen
  }

  /** Remove the four per-pid alerts of `pid`. */
  function ClearPid(t: seq<Entry>, pid: int): seq<Entry> {
    Remove(Remove(Remove(Remove(t, Stuck(pid)), Idle(pid)), Cpu(pid)), Mem(pid))
  }

  /** The alert side of the dead-pid pass (app.py:956-964), over the history's pids in order. */
  function ClearDead(t: seq<Entry>, pids: seq<int>, seen: set<int>): seq<Entry>
    decreases |pids|
  {
    if pids == [] then t
    else
      var a := ClearDead(t, pids[..|pids| - 1], seen);
      if pids[|pids| - 1] in seen then a else ClearPid(a, pids[|pids| - 1])
  }

  /** The total-memory alert (app.py:917-921). */
  function CheckTotal(t: seq<Entry>, total: int, now: int): seq<Entry> {
    if total > TotalMemWarning then Raise(t, TotalMem, Warning, TotalMemMessage(total), now)
    else Remove(t, TotalMem)
  }

  /** `checkAlerts(data)` (app.py:915-964): the new state and each process's status. */
  function CheckAlertsSpec(m: Monitor, procs: seq<ProcInfo>, total: int, now: int): (Monitor, seq<Status>) {
    var (m1, statuses) := RunProcs(Monitor(CheckTotal(m.alerts, total, now), m.history), procs, now);
    var seen := Seen(procs);
    (Monitor(ClearDead(m1.alerts, Pids(m1.history), seen), KeepSeen(m1.history, seen)), statuses)
  }

  /** `cleanupStaleData()` at time `now` (app.py:821-841). */
  function Cleanup(m: Monitor, now: int): Monitor {
    Monitor(Sweep(m.alerts, now), Trim(m.history))
  }

  // ---------------------------------------------------------------------------------------
  // The state invariant

  lemma ApplyValid(t: seq<Entry>, id: AlertId, level: Option<Severity>, message: Message, now: int)
    requires Keyed(t) && |t| <= MaxAlerts
    ensures Keyed(Apply(t, id, level, message, now)) && |Apply(t, id, level, message, now)| <= MaxAlerts
  {
    if level.Some? {
      RaiseKeyed(t, id, level.value, message, now);
    } else {
      RemoveKeyed(t, id);
      RemoveMembers(t, id);
    }
  }

  lemma ProcStepValid(m: Monitor, p: ProcInfo, now: int)
    requires Valid(m)
    ensures Valid(CheckStuck(m, p, now).0) && Valid(ProcStep(m, p, now).0)
  {
    RecordWindows(m.history, p.pid, p.cpu);
    var h := Record(m.history, p.pid, p.cpu);
    ApplyValid(m.alerts, Stuck(p.pid), None, StuckMessage(p.name, p.pid), now);
    ApplyValid(m.alerts, Stuck(p.pid), Some(Danger), StuckMessage(p.name, p.pid), now);
    var a := Remove(m.alerts, Stuck(p.pid));
    ApplyValid(a, Idle(p.pid), None, IdleMessage(p.name, p.pid, p.uptime), now);
    ApplyValid(a, Idle(p.pid), Some(Warning), IdleMessage(p.name, p.pid, p.uptime), now);
    var (m1, status) := CheckStuck(m, p, now);
    ApplyValid(m1.alerts, Cpu(p.pid), CpuLevel(p.cpu), CpuMessage(p.name, p.pid, p.cpu), now);
    var b := if status != StuckStatus then Apply(m1.alerts, Cpu(p.pid), CpuLevel(p.cpu), CpuMessage(p.name, p.pid, p.cpu), now)
             else m1.alerts;
    ApplyValid(b, Mem(p.pid), MemLevel(p.memory), MemMessage(p.name, p.pid, p.memory), now);
  }

  lemma {:induction false} RunProcsValid(m: Monitor, procs: seq<ProcInfo>, now: int)
    requires Valid(m)
    ensures Valid(RunProcs(m, procs, now).0)
    decreases |procs|
  {
    if procs != [] {
      RunProcsValid(m, procs[..|procs| - 1], now);
      ProcStepValid(RunProcs(m, procs[..|procs| - 1], now).0, procs[|procs| - 1], now);
    }
  }

  lemma {:induction false} ClearDeadValid(t: seq<Entry>, pids: seq<int>, seen: set<int>)
    requires Keyed(t) && |t| <= MaxAlerts
    ensures Keyed(ClearDead(t, pids, seen)) && |ClearDead(t, pids, seen)| <= MaxAlerts
    decreases |pids|
  {
    if pids != [] {
      ClearDeadValid(t, pids[..|pids| - 1], seen);
      var a := ClearDead(t, pids[..|pids| - 1], seen);
      var pid := pids[|pids| - 1];
      ApplyValid(a, Stuck(pid), None, StuckMessage([], pid), 0);
      var a1 := Remove(a, Stuck(pid));
      ApplyValid(a1, Idle(pid), None, StuckMessage([], pid), 0);
      var a2 := Remove(a1, Idle(pid));
      ApplyValid(a2, Cpu(pid), None, StuckMessage([], pid), 0);
      var a3 := Remove(a2, Cpu(pid));
      ApplyValid(a3, Mem(pid), None, StuckMessage([], pid), 0);
    }
  }

  /** Every rule keeps the state invariant. */
  lemma CheckAlertsValid(m: Monitor, procs: seq<ProcInfo>, total: int, now: int)
    requires Valid(m)
    ensures Valid(CheckAlertsSpec(m, procs, total, now).0)
    ensures Valid(Cleanup(m, now))
  {
    RaiseKeyed(m.alerts, TotalMem, Warning, TotalMemMessage(total), now);
    ApplyValid(m.alerts, TotalMem, None, TotalMemMessage(total), now);
    var m0 := Monitor(CheckTotal(m.alerts, total, now), m.history);
    RunProcsValid(m0, procs, now);
    var m1 := RunProcs(m0, procs, now).0;
    ClearDeadValid(m1.alerts, Pids(m1.history), Seen(procs));
    KeepSeenPids(m1.history, Seen(procs));
    KeepSeenDistinct(m1.history, Seen(procs));
    SweepMembers(m.alerts, now);
    TrimKeepsNewest(m.history);
  }

  // ---------------------------------------------------------------------------------------
  // checkStuckProcess

  /** The status is 'stuck' exactly when the window, after this reading is pushed, holds six
      readings all above 85%; otherwise 'idle' exactly when the idle test holds; otherwise
      null. A stuck process has its stuck alert; an idle one has its idle alert and no stuck
      alert; a process with neither status has neither alert. */
  lemma CheckStuckOutcome(m: Monitor, p: ProcInfo, now: int)
    requires Valid(m)
    ensures var (m1, status) := CheckStuck(m, p, now);
      var w := Push(WindowOf(m.history, p.pid), p.cpu);
      && WindowOf(m1.history, p.pid) == w
      && (status == StuckStatus <==> |w| == WindowSize && forall k :: 0 <= k < |w| ==> w[k] > CpuStuck)
      && (status == IdleStatus <==> !IsStuck(w) && IsIdle(p))
      && (status == StuckStatus ==> Has(m1.alerts, Stuck(p.pid)))
      && (status == IdleStatus ==> !Has(m1.alerts, Stuck(p.pid)) && Has(m1.alerts, Idle(p.pid)))
      && (status == NoStatus ==> !Has(m1.alerts, Stuck(p.pid)) && !Has(m1.alerts, Idle(p.pid)))
  {
    RecordWindows(m.history, p.pid, p.cpu);
    var w := Push(WindowOf(m.history, p.pid), p.cpu);
    assert |WindowOf(m.history, p.pid)| <= WindowSize by {
      var i := FindPid(m.history, p.pid);
      if i >= 0 {
        assert |m.history[i].1| <= WindowSize;
      }
    }
    PushKeepsLatest(WindowOf(m.history, p.pid), p.cpu);
    RaiseKeyed(m.alerts, Stuck(p.pid), Danger, StuckMessage(p.name, p.pid), now);
    var a := Remove(m.alerts, Stuck(p.pid));
    RemoveKeys(m.alerts, Stuck(p.pid), Stuck(p.pid));
    RaiseKeys(a, Idle(p.pid), Warning, IdleMessage(p.name, p.pid, p.uptime), now, Stuck(p.pid));
    RemoveKeyed(m.alerts, Stuck(p.pid));
    RaiseKeyed(a, Idle(p.pid), Warning, IdleMessage(p.name, p.pid, p.uptime), now);
    RemoveKeys(a, Idle(p.pid), Stuck(p.pid));
    RemoveKeys(a, Idle(p.pid), Idle(p.pid));
  }

  /** The early `return 'stuck'` skips the removal of the idle alert: an idle alert present
      before a stuck verdict is still present after it, unless the map was full and the stuck
      alert new, in which case raising it evicts the first-inserted entry. */
  lemma StuckKeepsIdleAlert(m: Monitor, p: ProcInfo, now: int)
    requires CheckStuck(m, p, now).1 == StuckStatus
    requires Has(m.alerts, Idle(p.pid))
    requires |m.alerts| < MaxAlerts || Has(m.alerts, Stuck(p.pid))
    ensures Has(CheckStuck(m, p, now).0.alerts, Idle(p.pid))
  {
    RaiseKeys(m.alerts, Stuck(p.pid), Danger, StuckMessage(p.name, p.pid), now, Idle(p.pid));
  }

  /** A tier is applied with the refresh semantics of `addAlert`: with a tier the alert is
      present, and its severity is the tier's only when it was not present before; without a
      tier it is absent. */
  lemma ApplyOutcome(t: seq<Entry>, id: AlertId, level: Option<Severity>, message: Message, now: int)
    requires Keyed(t)
    ensures var r := Apply(t, id, level, message, now);
      && (level.None? ==> !Has(r, id))
      && (level.Some? ==> Has(r, id))
      && (level.Some? && Has(t, id) ==> SeverityOf(r, id) == SeverityOf(t, id))
      && (level.Some? && !Has(t, id) ==> SeverityOf(r, id) == level.value)
  {
    var r := Apply(t, id, level, message, now);
    if level.Some? {
      RaiseKeyed(t, id, level.value, message, now);
      if Has(t, id) {
        RaiseRefreshes(t, id, level.value, message, now);
        assert Find(r, id) == Find(t, id) by {
          UniqueIndex(r, id, Find(t, id));
        }
      } else {
        RaiseAppends(t, id, level.value, message, now);
        assert Find(r, id) == |r| - 1 by {
          UniqueIndex(r, id, |r| - 1);
        }
      }
    } else {
      RemoveKeyed(t, id);
    }
  }

  /** In a map with distinct keys the entry holding a key is the one `Find` returns. */
  lemma UniqueIndex(t: seq<Entry>, id: AlertId, i: int)
    requires Keyed(t) && 0 <= i < |t| && t[i].0 == id
    ensures Find(t, id) == i
  {
  }

  /** The CPU tier applied to a process that is not stuck: the CPU alert is present exactly
      above 50%, a new one is 'danger' above 80% and 'warning' otherwise, and an existing one
      keeps its severity. */
  lemma CpuTier(t: seq<Entry>, p: ProcInfo, now: int)
    requires Keyed(t)
    ensures var r := Apply(t, Cpu(p.pid), CpuLevel(p.cpu), CpuMessage(p.name, p.pid, p.cpu), now);
      && (Has(r, Cpu(p.pid)) <==> p.cpu > CpuWarning)
      && (!Has(t, Cpu(p.pid)) && p.cpu > CpuWarning ==>
            SeverityOf(r, Cpu(p.pid)) == (if p.cpu > CpuCritical then Danger else Warning))
      && (Has(t, Cpu(p.pid)) && p.cpu > CpuWarning ==> SeverityOf(r, Cpu(p.pid)) == SeverityOf(t, Cpu(p.pid)))
  {
    ApplyOutcome(t, Cpu(p.pid), CpuLevel(p.cpu), CpuMessage(p.name, p.pid, p.cpu), now);
  }

  /** The memory tier: the memory alert is present exactly above 1 GiB, a new one is 'danger'
      above 2 GiB and 'warning' otherwise, and an existing one keeps its severity. */
  lemma MemTier(t: seq<Entry>, p: ProcInfo, now: int)
    requires Keyed(t)
    ensures var r := Apply(t, Mem(p.pid), MemLevel(p.memory), MemMessage(p.name, p.pid, p.memory), now);
      && (Has(r, Mem(p.pid)) <==> p.memory > MemWarning)
      && (!Has(t, Mem(p.pid)) && p.memory > MemWarning ==>
            SeverityOf(r, Mem(p.pid)) == (if p.memory > MemCritical then Danger else Warning))
      && (Has(t, Mem(p.pid)) && p.memory > MemWarning ==> SeverityOf(r, Mem(p.pid)) == SeverityOf(t, Mem(p.pid)))
  {
    ApplyOutcome(t, Mem(p.pid), MemLevel(p.memory), MemMessage(p.name, p.pid, p.memory), now);
  }

  lemma ApplySize(t: seq<Entry>, id: AlertId, level: Option<Severity>, message: Message, now: int)
    ensures |Apply(t, id, level, message, now)| <= |t| + 1
  {
    if level.Some? {
      RaiseKeys(t, id, level.value, message, now, id);
    } else {
      RemoveKeys(t, id, id);
    }
  }

  lemma CheckStuckSize(m: Monitor, p: ProcInfo, now: int)
    ensures |CheckStuck(m, p, now).0.alerts| <= |m.alerts| + 1
  {
    RaiseKeys(m.alerts, Stuck(p.pid), Danger, StuckMessage(p.name, p.pid), now, Stuck(p.pid));
    RemoveKeys(m.alerts, Stuck(p.pid), Stuck(p.pid));
    var a := Remove(m.alerts, Stuck(p.pid));
    RaiseKeys(a, Idle(p.pid), Warning, IdleMessage(p.name, p.pid, p.uptime), now, Idle(p.pid));
    RemoveKeys(a, Idle(p.pid), Idle(p.pid));
  }

  /** The memory step below the cap keeps the CPU alert and its severity. */
  lemma MemStepKeepsCpu(t: seq<Entry>, p: ProcInfo, now: int)
    requires Keyed(t) && |t| < MaxAlerts
    ensures var r := Apply(t, Mem(p.pid), MemLevel(p.memory), MemMessage(p.name, p.pid, p.memory), now);
      && (Has(r, Cpu(p.pid)) <==> Has(t, Cpu(p.pid)))
      && (Has(t, Cpu(p.pid)) ==> SeverityOf(r, Cpu(p.pid)) == SeverityOf(t, Cpu(p.pid)))
  {
    var memMsg := MemMessage(p.name, p.pid, p.memory);
    if MemLevel(p.memory).Some? {
      RaiseKeys(t, Mem(p.pid), MemLevel(p.memory).value, memMsg, now, Cpu(p.pid));
      if Has(t, Cpu(p.pid)) {
        MemRaiseKeepsSeverity(t, p, memMsg, now);
      }
    } else {
      RemoveKeys(t, Mem(p.pid), Cpu(p.pid));
      if Has(t, Cpu(p.pid)) {
        RemoveKeepsSeverity(t, Mem(p.pid), Cpu(p.pid));
      }
    }
  }

  /** One process's poll step, when the map has room for the step's three raises (a raise of
      a new id into a full map evicts the first-inserted alert, which can be any of them): a
      process that is not stuck has a CPU alert exactly above 50%, and a new one is 'danger'
      above 80%; a stuck process gains no CPU alert; the memory alert is present exactly above
      1 GiB whatever the status, and a new one is 'danger' above 2 GiB. */
  lemma ProcStepTiers(m: Monitor, p: ProcInfo, now: int)
    requires Valid(m) && |m.alerts| + 3 <= MaxAlerts
    ensures var (m2, status) := ProcStep(m, p, now);
      var m1 := CheckStuck(m, p, now).0;
      && (status != StuckStatus ==> (Has(m2.alerts, Cpu(p.pid)) <==> p.cpu > CpuWarning))
      && (status != StuckStatus && !Has(m1.alerts, Cpu(p.pid)) && p.cpu > CpuWarning ==>
            SeverityOf(m2.alerts, Cpu(p.pid)) == (if p.cpu > CpuCritical then Danger else Warning))
      && (status == StuckStatus && Has(m2.alerts, Cpu(p.pid)) ==> Has(m.alerts, Cpu(p.pid)))
      && (Has(m2.alerts, Mem(p.pid)) <==> p.memory > MemWarning)
      && (!Has(m1.alerts, Mem(p.pid)) && p.memory > MemWarning ==>
            SeverityOf(m2.alerts, Mem(p.pid)) == (if p.memory > MemCritical then Danger else Warning))
  {
    ProcStepValid(m, p, now);
    CheckStuckSize(m, p, now);
    var (m1, status) := CheckStuck(m, p, now);
    var cpuMsg := CpuMessage(p.name, p.pid, p.cpu);
    ApplyValid(m1.alerts, Cpu(p.pid), CpuLevel(p.cpu), cpuMsg, now);
    ApplySize(m1.alerts, Cpu(p.pid), CpuLevel(p.cpu), cpuMsg, now);
    CpuTier(m1.alerts, p, now);
    var a := if status != StuckStatus then Apply(m1.alerts, Cpu(p.pid), CpuLevel(p.cpu), cpuMsg, now) else m1.alerts;
    assert Keyed(a) && |a| < MaxAlerts;
    MemTier(a, p, now);
    MemStepKeepsCpu(a, p, now);
    if status != StuckStatus && Has(m1.alerts, Mem(p.pid)) {
      // Had the CPU step touched the memory alert, its severity would not be the old one.
      RaiseKeys(m1.alerts, Cpu(p.pid), Warning, cpuMsg, now, Mem(p.pid));
    }
    if status != StuckStatus && !Has(m1.alerts, Mem(p.pid)) {
      if CpuLevel(p.cpu).Some? {
        RaiseKeys(m1.alerts, Cpu(p.pid), CpuLevel(p.cpu).value, cpuMsg, now, Mem(p.pid));
      } else {
        RemoveKeys(m1.alerts, Cpu(p.pid), Mem(p.pid));
      }
    }
    StuckStepKeepsCpu(m, p, now);
  }

  /** The stuck and idle check never adds a CPU alert, and keeps a present one with its
      severity unless raising the stuck or idle alert evicts it. */
  lemma StuckStepKeepsCpu(m: Monitor, p: ProcInfo, now: int)
    ensures Has(CheckStuck(m, p, now).0.alerts, Cpu(p.pid)) ==> Has(m.alerts, Cpu(p.pid))
  {
    var h := Record(m.history, p.pid, p.cpu);
    RaiseKeys(m.alerts, Stuck(p.pid), Danger, StuckMessage(p.name, p.pid), now, Cpu(p.pid));
    var a := Remove(m.alerts, Stuck(p.pid));
    RemoveKeys(m.alerts, Stuck(p.pid), Cpu(p.pid));
    RaiseKeys(a, Idle(p.pid), Warning, IdleMessage(p.name, p.pid, p.uptime), now, Cpu(p.pid));
    RemoveKeys(a, Idle(p.pid), Cpu(p.pid));
  }

  /** Raising the memory alert leaves the CPU alert's severity alone when both remain. */
  lemma MemRaiseKeepsSeverity(a: seq<Entry>, p: ProcInfo, memMsg: Message, now: int)
    requires Keyed(a) && Has(a, Cpu(p.pid)) && MemLevel(p.memory).Some?
    requires Has(Raise(a, Mem(p.pid), MemLevel(p.memory).value, memMsg, now), Cpu(p.pid))
    ensures SeverityOf(Raise(a, Mem(p.pid), MemLevel(p.memory).value, memMsg, now), Cpu(p.pid)) == SeverityOf(a, Cpu(p.pid))
  {
    var r := Raise(a, Mem(p.pid), MemLevel(p.memory).value, memMsg, now);
    RaiseKeyed(a, Mem(p.pid), MemLevel(p.memory).value, memMsg, now);
    var i := Find(a, Cpu(p.pid));
    var j := Find(r, Cpu(p.pid));
    if Has(a, Mem(p.pid)) {
      RaiseRefreshes(a, Mem(p.pid), MemLevel(p.memory).value, memMsg, now);
      UniqueIndex(r, Cpu(p.pid), i);
    } else {
      RaiseAppends(a, Mem(p.pid), MemLevel(p.memory).value, memMsg, now);
      if |a| >= MaxAlerts {
        assert r[j] == a[j + 1];
        UniqueIndex(a, Cpu(p.pid), j + 1);
      } else {
        assert r[j] == a[j];
        UniqueIndex(a, Cpu(p.pid), j);
      }
    }
  }

  // ---------------------------------------------------------------------------------------
  // checkAlerts

  /** The ids a poll step for `p` may raise or remove. */
  predicate OwnId(k: AlertId, pid: int) {
    !k.TotalMem? && k.pid == pid
  }

  /** A poll step adds no alert but the process's own, removes none but the process's own,
      and grows the map by at most three entries; a foreign alert survives when the map has
      room for the three raises. */
  lemma ProcStepKeys(m: Monitor, p: ProcInfo, now: int, k: AlertId)
    requires !OwnId(k, p.pid)
    ensures Has(ProcStep(m, p, now).0.alerts, k) ==> Has(m.alerts, k)
    ensures Has(m.alerts, k) && |m.alerts| + 3 <= MaxAlerts ==> Has(ProcStep(m, p, now).0.alerts, k)
    ensures |ProcStep(m, p, now).0.alerts| <= |m.alerts| + 3
  {
    var pid := p.pid;
    CheckStuckKeys(m, p, now, k);
    var (m1, status) := CheckStuck(m, p, now);
    var cpuMsg := CpuMessage(p.name, pid, p.cpu);
    ApplyKeys(m1.alerts, Cpu(pid), CpuLevel(p.cpu), cpuMsg, now, k);
    var b := if status != StuckStatus then Apply(m1.alerts, Cpu(pid), CpuLevel(p.cpu), cpuMsg, now) else m1.alerts;
    ApplyKeys(b, Mem(pid), MemLevel(p.memory), MemMessage(p.name, pid, p.memory), now, k);
  }

  lemma CheckStuckKeys(m: Monitor, p: ProcInfo, now: int, k: AlertId)
    requires !OwnId(k, p.pid)
    ensures Has(CheckStuck(m, p, now).0.alerts, k) ==> Has(m.alerts, k)
    ensures Has(m.alerts, k) && |m.alerts| < MaxAlerts ==> Has(CheckStuck(m, p, now).0.alerts, k)
    ensures |CheckStuck(m, p, now).0.alerts| <= |m.alerts| + 1
  {
    var pid := p.pid;
    ApplyKeys(m.alerts, Stuck(pid), Some(Danger), StuckMessage(p.name, pid), now, k);
    ApplyKeys(m.alerts, Stuck(pid), None, StuckMessage(p.name, pid), now, k);
    RemoveKeys(m.alerts, Stuck(pid), k);
    var a := Remove(m.alerts, Stuck(pid));
    ApplyKeys(a, Idle(pid), Some(Warning), IdleMessage(p.name, pid, p.uptime), now, k);
    ApplyKeys(a, Idle(pid), None, IdleMessage(p.name, pid, p.uptime), now, k);
    CheckStuckSize(m, p, now);
  }

  lemma ApplyKeys(t: seq<Entry>, id: AlertId, level: Option<Severity>, message: Message, now: int, k: AlertId)
    requires k != id
    ensures Has(Apply(t, id, level, message, now), k) ==> Has(t, k)
    ensures Has(t, k) && |t| < MaxAlerts ==> Has(Apply(t, id, level, message, now), k)
    ensures |Apply(t, id, level, message, now)| <= |t| + 1
  {
    if level.Some? {
      RaiseKeys(t, id, level.value, message, now, k);
    } else {
      RemoveKeys(t, id, k);
    }
  }

  /** The total-memory alert is touched by no poll step. */
  lemma {:induction false} RunProcsKeepsTotal(m: Monitor, procs: seq<ProcInfo>, now: int)
    ensures Has(RunProcs(m, procs, now).0.alerts, TotalMem) ==> Has(m.alerts, TotalMem)
    ensures Has(m.alerts, TotalMem) && |m.alerts| + 3 * |procs| <= MaxAlerts ==> Has(RunProcs(m, procs, now).0.alerts, TotalMem)
    ensures |RunProcs(m, procs, now).0.alerts| <= |m.alerts| + 3 * |procs|
    decreases |procs|
  {
    if procs != [] {
      var init := procs[..|procs| - 1];
      RunProcsKeepsTotal(m, init, now);
      ProcStepKeys(RunProcs(m, init, now).0, procs[|procs| - 1], now, TotalMem);
    }
  }

  /** The dead-pid pass keeps exactly the alerts that do not belong to a dead pid. */
  lemma {:induction false} ClearDeadMembers(t: seq<Entry>, pids: seq<int>, seen: set<int>)
    ensures forall e :: e in ClearDead(t, pids, seen) <==> e in t && !Dead(e.0, pids, seen)
    decreases |pids|
  {
    if pids != [] {
      var init := pids[..|pids| - 1];
      var pid := pids[|pids| - 1];
      ClearDeadMembers(t, init, seen);
      var a := ClearDead(t, init, seen);
      assert pids == init + [pid];
      if pid !in seen {
        RemoveMembers(a, Stuck(pid));
        RemoveMembers(Remove(a, Stuck(pid)), Idle(pid));
        RemoveMembers(Remove(Remove(a, Stuck(pid)), Idle(pid)), Cpu(pid));
        RemoveMembers(Remove(Remove(Remove(a, Stuck(pid)), Idle(pid)), Cpu(pid)), Mem(pid));
        forall e ensures e in ClearPid(a, pid) <==> e in a && !OwnId(e.0, pid) {
          if !e.0.TotalMem? && e.0.pid == pid {
            assert e.0 == Stuck(pid) || e.0 == Idle(pid) || e.0 == Cpu(pid) || e.0 == Mem(pid);
          }
        }
      }
    }
  }

  lemma HasMember(t: seq<Entry>, k: AlertId)
    ensures Has(t, k) <==> exists e | e in t :: e.0 == k
  {
    if Has(t, k) {
      var j :| 0 <= j < |t| && t[j].0 == k;
      assert t[j] in t;
    }
  }

  lemma HasPidInPids(h: History, pid: int)
    ensures HasPid(h, pid) <==> pid in Pids(h)
  {
    if pid in Pids(h) {
      var j :| 0 <= j < |h| && Pids(h)[j] == pid;
    }
  }

  lemma SeenSnoc(procs: seq<ProcInfo>)
    requires procs != []
    ensures Seen(procs) == Seen(procs[..|procs| - 1]) + {procs[|procs| - 1].pid}
  {
    var init := procs[..|procs| - 1];
    forall q | q in Seen(procs) ensures q in Seen(init) + {procs[|procs| - 1].pid} {
      var j :| 0 <= j < |procs| && procs[j].pid == q;
      if j < |init| {
        assert init[j] == procs[j];
      }
    }
    forall q | q in Seen(init) ensures q in Seen(procs) {
      var j :| 0 <= j < |init| && init[j].pid == q;
      assert procs[j] == init[j];
    }
  }

  lemma RecordHasPid(h: History, pid: int, cpu: real, q: int)
    ensures HasPid(Record(h, pid, cpu), q) <==> HasPid(h, q) || q == pid
  {
    var r := Record(h, pid, cpu);
    if FindPid(h, pid) >= 0 {
      if HasPid(r, q) {
        var j :| 0 <= j < |r| && r[j].0 == q;
        assert h[j].0 == q;
      }
      if HasPid(h, q) {
        var j :| 0 <= j < |h| && h[j].0 == q;
        assert r[j].0 == q;
      }
    } else {
      assert r[|h|].0 == pid;
      if HasPid(r, q) && q != pid {
        var j :| 0 <= j < |r| && r[j].0 == q;
        assert h[j].0 == q;
      }
      if HasPid(h, q) {
        var j :| 0 <= j < |h| && h[j].0 == q;
        assert r[j].0 == q;
      }
    }
  }

  /** After the poll steps a pid is tracked exactly when it was tracked before or is one of
      the polled pids. */
  lemma {:induction false} RunProcsPids(m: Monitor, procs: seq<ProcInfo>, now: int, pid: int)
    ensures HasPid(RunProcs(m, procs, now).0.history, pid) <==> HasPid(m.history, pid) || pid in Seen(procs)
    decreases |procs|
  {
    if procs != [] {
      var init := procs[..|procs| - 1];
      var p := procs[|procs| - 1];
      RunProcsPids(m, init, now, pid);
      var m1 := RunProcs(m, init, now).0;
      assert RunProcs(m, procs, now).0.history == Record(m1.history, p.pid, p.cpu);
      RecordHasPid(m1.history, p.pid, p.cpu, pid);
      SeenSnoc(procs);
    }
  }

  /** `total-mem` ends absent when the total is at most 4 GiB; above it, it is present after
      the first step, and still present at the end when the map has room for every raise of
      the poll. */
  lemma TotalMemAlert(m: Monitor, procs: seq<ProcInfo>, total: int, now: int)
    requires Valid(m)
    ensures total <= TotalMemWarning ==> !Has(CheckAlertsSpec(m, procs, total, now).0.alerts, TotalMem)
    ensures total > TotalMemWarning ==> Has(CheckTotal(m.alerts, total, now), TotalMem)
    ensures total > TotalMemWarning && |m.alerts| + 1 + 3 * |procs| <= MaxAlerts ==>
              Has(CheckAlertsSpec(m, procs, total, now).0.alerts, TotalMem)
  {
    var a0 := CheckTotal(m.alerts, total, now);
    RaiseKeyed(m.alerts, TotalMem, Warning, TotalMemMessage(total), now);
    RaiseKeys(m.alerts, TotalMem, Warning, TotalMemMessage(total), now, TotalMem);
    RemoveKeys(m.alerts, TotalMem, TotalMem);
    var m0 := Monitor(a0, m.history);
    RunProcsKeepsTotal(m0, procs, now);
    var m1 := RunProcs(m0, procs, now).0;
    var fin := ClearDead(m1.alerts, Pids(m1.history), Seen(procs));
    ClearDeadMembers(m1.alerts, Pids(m1.history), Seen(procs));
    HasMember(m1.alerts, TotalMem);
    HasMember(fin, TotalMem);
  }

  /** After `checkAlerts` the history tracks exactly the pids of this poll; every pid that was
      tracked but not polled has lost its stuck, idle, CPU and memory alerts; and every other
      alert the poll steps left is kept. */
  lemma DeadPidsCleared(m: Monitor, procs: seq<ProcInfo>, total: int, now: int)
    requires Valid(m)
    ensures var (fin, _) := CheckAlertsSpec(m, procs, total, now);
      var m1 := RunProcs(Monitor(CheckTotal(m.alerts, total, now), m.history), procs, now).0;
      && (forall pid :: HasPid(fin.history, pid) <==> pid in Seen(procs))
      && (forall pid | HasPid(m.history, pid) && pid !in Seen(procs) ::
            !Has(fin.alerts, Stuck(pid)) && !Has(fin.alerts, Idle(pid))
            && !Has(fin.alerts, Cpu(pid)) && !Has(fin.alerts, Mem(pid)))
      && (forall e | e in m1.alerts :: e in fin.alerts <==> !Dead(e.0, Pids(m1.history), Seen(procs)))
  {
    CheckAlertsValid(m, procs, total, now);
    RaiseKeyed(m.alerts, TotalMem, Warning, TotalMemMessage(total), now);
    ApplyValid(m.alerts, TotalMem, None, TotalMemMessage(total), now);
    var m0 := Monitor(CheckTotal(m.alerts, total, now), m.history);
    var m1 := RunProcs(m0, procs, now).0;
    var seen := Seen(procs);
    var fin := CheckAlertsSpec(m, procs, total, now).0;
    ClearDeadMembers(m1.alerts, Pids(m1.history), seen);
    KeepSeenPids(m1.history, seen);
    forall pid ensures HasPid(fin.history, pid) <==> pid in seen {
      RunProcsPids(m0, procs, now, pid);
    }
    forall pid | HasPid(m.history, pid) && pid !in seen
      ensures !Has(fin.alerts, Stuck(pid)) && !Has(fin.alerts, Idle(pid))
        && !Has(fin.alerts, Cpu(pid)) && !Has(fin.alerts, Mem(pid))
    {
      RunProcsPids(m0, procs, now, pid);
      HasPidInPids(m1.history, pid);
      HasMember(fin.alerts, Stuck(pid));
      HasMember(fin.alerts, Idle(pid));
      HasMember(fin.alerts, Cpu(pid));
      HasMember(fin.alerts, Mem(pid));
    }
  }
}
