/** The dashboard script's mutable state and the functions that update it in place
    (app.py:769-770, 798-841, 883-964). Each method is proved to leave the state the
    corresponding function of `Registry`, `CpuHistory` or `Detector` describes. */
module Dashboard {
  import opened Wrappers
  import opened Registry
  import opened CpuHistory
  import opened Processes
  import opened Detector

  class AlertMonitor {
    /** The `alerts` map, in insertion order. */
    var alerts: seq<Entry>
    /** The `cpuHistory` map, in insertion order. */
    var cpuHistory: History

    function State(): Monitor
      reads this
    {
      Monitor(alerts, cpuHistory)
    }

    /** The alert map alone is a well-formed map within its cap. */
    predicate AlertsValid()
      reads this
    {
      Keyed(alerts) && |alerts| <= MaxAlerts
    }

    predicate Valid()
      reads this
    {
      Detector.Valid(State())
    }

    constructor()
      ensures alerts == [] && cpuHistory == []
      ensures Valid()
    {
      alerts := [];
      cpuHistory := [];
    }

    /** `alerts.has(id)`, as the position of the entry. */
    method FindAlert(id: AlertId) returns (i: int)
      ensures i == Find(alerts, id)
    {
      i := 0;
      while i < |alerts|
        invariant 0 <= i <= |alerts|
        invariant forall j :: 0 <= j < i ==> alerts[j].0 != id
      {
        if alerts[i].0 == id {
          FindFirst(alerts, id, i);
          return;
        }
        i := i + 1;
      }
      i := -1;
    }

    /** `cpuHistory.has(pid)`, as the position of the entry. */
    method FindHistory(pid: int) returns (i: int)
      ensures i == FindPid(cpuHistory, pid)
    {
      i := 0;
      while i < |cpuHistory|
        invariant 0 <= i <= |cpuHistory|
        invariant forall j :: 0 <= j < i ==> cpuHistory[j].0 != pid
      {
        if cpuHistory[i].0 == pid {
          FindPidFirst(cpuHistory, pid, i);
          return;
        }
        i := i + 1;
      }
      i := -1;
    }

    /** `addAlert(id, type, message)` at time `now` (app.py:798-813). */
    method AddAlert(id: AlertId, severity: Severity, message: Message, now: int)
      requires AlertsValid()
      modifies this
      ensures AlertsValid()
      ensures alerts == Raise(old(alerts), id, severity, message, now)
      ensures cpuHistory == old(cpuHistory)
    {
      RaiseKeyed(alerts, id, severity, message, now);
      var i := FindAlert(id);
      if i >= 0 {
        alerts := alerts[i := (id, alerts[i].1.(time := now))];
        return;
      }
      if |alerts| >= MaxAlerts {
        alerts := alerts[1..];
      }
      alerts := alerts + [(id, Alert(severity, message, now))];
    }

    /** `removeAlert(id)` (app.py:815-818). */
    method RemoveAlert(id: AlertId)
      requires AlertsValid()
      modifies this
      ensures AlertsValid()
      ensures alerts == Remove(old(alerts), id)
      ensures cpuHistory == old(cpuHistory)
    {
      RemoveKeyed(alerts, id);
      RemoveMembers(alerts, id);
      var i := FindAlert(id);
      if i >= 0 {
        RemoveDeletesOne(alerts, id);
        alerts := alerts[..i] + alerts[i + 1..];
      } else {
        RemoveAbsent(alerts, id);
      }
    }

    /** `cleanupStaleData()` at time `now` (app.py:821-841): stale alerts are deleted while
        the map is walked, then the oldest history pids beyond 100. */
    method CleanupStaleData(now: int)
      requires Valid()
      modifies this
      ensures Valid()
      ensures State() == Cleanup(old(State()), now)
    {
      CheckAlertsValid(State(), [], 0, now);
      SweepAlerts(now);
      TrimHistory();
    }

    /** The walk over `alerts` of `cleanupStaleData` (app.py:825-829), deleting stale entries
        as it goes. */
    method SweepAlerts(now: int)
      modifies this
      ensures alerts == Sweep(old(alerts), now)
      ensures cpuHistory == old(cpuHistory)
    {
      var before := alerts;
      var t := alerts;
      var i := 0;
      ghost var k := 0;
      while i < |t|
        invariant 0 <= k <= |before|
        invariant t == Sweep(before[..k], now) + before[k..]
        invariant i == |Sweep(before[..k], now)|
        invariant unchanged(this)
        decreases |before| - k
      {
        SweepStep(before, k, now);
        Splice(Sweep(before[..k], now), before, k);
        if now - t[i].1.time > StaleAfter {
          t := t[..i] + t[i + 1..];
        } else {
          i := i + 1;
        }
        k := k + 1;
      }
      assert before[..k] == before;
      alerts := t;
    }

    /** The size limit of `cleanupStaleData` (app.py:832-837). */
    method TrimHistory()
      modifies this
      ensures cpuHistory == Trim(old(cpuHistory))
      ensures alerts == old(alerts)
    {
      var h := cpuHistory;
      if |h| > MaxHistoryPids {
        var excess := |h| - MaxHistoryPids;
        var j := 0;
        while j < excess
          invariant 0 <= j <= excess
          invariant h == old(cpuHistory)[j..]
          invariant unchanged(this)
        {
          h := h[1..];
          j := j + 1;
        }
      }
      cpuHistory := h;
    }

    /** The history part of `checkStuckProcess` (app.py:886-890). */
    method RecordReading(pid: int, cpu: real) returns (window: Samples)
      modifies this
      ensures cpuHistory == Record(old(cpuHistory), pid, cpu)
      ensures window == WindowOf(cpuHistory, pid)
      ensures alerts == old(alerts)
    {
      ghost var recorded := Record(cpuHistory, pid, cpu);
      RecordFinds(cpuHistory, pid, cpu);
      var h := cpuHistory;
      var i := FindHistory(pid);
      if i < 0 {
        h := h + [(pid, [])];
        i := |h| - 1;
      }
      window := h[i].1 + [cpu];
      if |window| > WindowSize {
        window := window[1..];
      }
      cpuHistory := h[i := (pid, window)];
    }

    /** `checkStuckProcess(proc)` at time `now` (app.py:883-913). */
    method CheckStuckProcess(p: ProcInfo, now: int) returns (status: Status)
      requires Valid()
      modifies this
      ensures Valid()
      ensures (State(), status) == CheckStuck(old(State()), p, now)
    {
      ProcStepValid(State(), p, now);
      var window := RecordReading(p.pid, p.cpu);
      if |window| >= WindowSize && forall k :: 0 <= k < |window| ==> window[k] > CpuStuck {
        AddAlert(Stuck(p.pid), Danger, StuckMessage(p.name, p.pid), now);
        return StuckStatus;
      }
      RemoveAlert(Stuck(p.pid));
      if IsIdle(p) {
        AddAlert(Idle(p.pid), Warning, IdleMessage(p.name, p.pid, p.uptime), now);
        return IdleStatus;
      }
      RemoveAlert(Idle(p.pid));
      return NoStatus;
    }

    /** One iteration of the `allProcs.forEach` in `checkAlerts` (app.py:929-952). */
    method PollProcess(p: ProcInfo, now: int) returns (status: Status)
      requires Valid()
      modifies this
      ensures Valid()
      ensures (State(), status) == ProcStep(old(State()), p, now)
    {
      ProcStepValid(State(), p, now);
      status := CheckStuckProcess(p, now);
      if status != StuckStatus {
        if p.cpu > CpuCritical {
          AddAlert(Cpu(p.pid), Danger, CpuMessage(p.name, p.pid, p.cpu), now);
        } else if p.cpu > CpuWarning {
          AddAlert(Cpu(p.pid), Warning, CpuMessage(p.name, p.pid, p.cpu), now);
        } else {
          RemoveAlert(Cpu(p.pid));
        }
      }
      if p.memory > MemCritical {
        AddAlert(Mem(p.pid), Danger, MemMessage(p.name, p.pid, p.memory), now);
      } else if p.memory > MemWarning {
        AddAlert(Mem(p.pid), Warning, MemMessage(p.name, p.pid, p.memory), now);
      } else {
        RemoveAlert(Mem(p.pid));
      }
    }

    /** The four `removeAlert` calls for a dead pid (app.py:959-962). */
    method ClearPidAlerts(pid: int)
      requires AlertsValid()
      modifies this
      ensures AlertsValid()
      ensures alerts == ClearPid(old(alerts), pid)
      ensures cpuHistory == old(cpuHistory)
    {
      RemoveAlert(Stuck(pid));
      RemoveAlert(Idle(pid));
      RemoveAlert(Cpu(pid));
      RemoveAlert(Mem(pid));
    }

    /** The dead-pid pass of `checkAlerts` (app.py:956-964): the history is walked in order
        and every pid not in `seen` is deleted together with its four alerts. */
    method ForgetDeadPids(seen: set<int>)
      requires AlertsValid()
      modifies this
      ensures AlertsValid()
      ensures alerts == ClearDead(old(alerts), Pids(old(cpuHistory)), seen)
      ensures cpuHistory == KeepSeen(old(cpuHistory), seen)
    {
      ClearDeadAlerts(Pids(cpuHistory), seen);
      DropUnseenHistory(seen);
    }

    /** The alert half of the dead-pid pass: the four per-pid alerts of every pid of `pids`
        that is not in `seen` are removed, pid by pid. */
    method ClearDeadAlerts(pids: seq<int>, seen: set<int>)
      requires AlertsValid()
      modifies this
      ensures AlertsValid()
      ensures alerts == ClearDead(old(alerts), pids, seen)
      ensures cpuHistory == old(cpuHistory)
    {
      ghost var a0 := alerts;
      var k := 0;
      while k < |pids|
        invariant 0 <= k <= |pids|
        invariant AlertsValid() && cpuHistory == old(cpuHistory)
        invariant alerts == ClearDead(a0, pids[..k], seen)
      {
        ClearDeadStep(a0, pids, k, seen);
        if pids[k] !in seen {
          ClearPidAlerts(pids[k]);
        }
        k := k + 1;
      }
      assert pids[..k] == pids;
    }

    /** The history half of the dead-pid pass: every entry whose pid is not in `seen` is
        deleted, keeping the order of the rest. */
    method DropUnseenHistory(seen: set<int>)
      modifies this
      ensures cpuHistory == KeepSeen(old(cpuHistory), seen)
      ensures alerts == old(alerts)
    {
      var before := cpuHistory;
      var h := cpuHistory;
      var k := 0;
      var j := 0;
      while k < |before|
        invariant 0 <= k <= |before|
        invariant h == KeepSeen(before[..k], seen) + before[k..]
        invariant j == |KeepSeen(before[..k], seen)|
        invariant unchanged(this)
      {
        h, j := DropStep(h, j, before, k, seen);
        k := k + 1;
      }
      assert before[..k] == before;
      cpuHistory := h;
    }

    /** `checkAlerts(data)` at time `now` (app.py:915-964), with `data` the six lists and the
        total the status route reports. Returns each process's status, in list order. */
    method CheckAlerts(processes: Buckets, total: int, now: int) returns (statuses: seq<Status>)
      requires Valid() && Complete(processes)
      modifies this
      ensures Valid()
      ensures (State(), statuses) == CheckAlertsSpec(old(State()), AllProcs(processes), total, now)
    {
      CheckAlertsValid(State(), AllProcs(processes), total, now);
      if total > TotalMemWarning {
        AddAlert(TotalMem, Warning, TotalMemMessage(total), now);
      } else {
        RemoveAlert(TotalMem);
      }
      ghost var start := State();
      var procs := AllProcs(processes);
      var seen: set<int> := {};
      statuses := [];
      var i := 0;
      while i < |procs|
        invariant 0 <= i <= |procs|
        invariant Valid()
        invariant State() == RunProcs(start, procs[..i], now).0
        invariant statuses == RunProcs(start, procs[..i], now).1
        invariant seen == Seen(procs[..i])
      {
        RunProcsStep(start, procs, i, now);
        var p := procs[i];
        seen := seen + {p.pid};
        var status := PollProcess(p, now);
        statuses := statuses + [status];
        i := i + 1;
      }
      assert procs[..i] == procs;
      ForgetDeadPids(seen);
    }
  }

  lemma SweepStep(t: seq<Entry>, k: nat, now: int)
    requires k < |t|
    ensures Sweep(t[..k + 1], now) == Sweep(t[..k], now) + (if Fresh(t[k], now) then [t[k]] else [])
    ensures (t[..k] + t[k..])[..k] == t[..k] && t[k..] == [t[k]] + t[k + 1..]
  {
    assert t[..k + 1][..k] == t[..k];
  }

  lemma KeepSeenStep(h: History, k: nat, seen: set<int>)
    requires k < |h|
    ensures KeepSeen(h[..k + 1], seen) == KeepSeen(h[..k], seen) + (if h[k].0 in seen then [h[k]] else [])
    ensures h[k..] == [h[k]] + h[k + 1..]
  {
    assert h[..k + 1][..k] == h[..k];
  }

  lemma ClearDeadStep(t: seq<Entry>, pids: seq<int>, k: nat, seen: set<int>)
    requires k < |pids|
    ensures pids[k] in seen ==> ClearDead(t, pids[..k + 1], seen) == ClearDead(t, pids[..k], seen)
    ensures pids[k] !in seen ==> ClearDead(t, pids[..k + 1], seen) == ClearPid(ClearDead(t, pids[..k], seen), pids[k])
  {
    assert pids[..k + 1][..k] == pids[..k];
  }

  lemma RunProcsStep(m: Monitor, procs: seq<ProcInfo>, i: nat, now: int)
    requires i < |procs|
    ensures var (m1, st) := RunProcs(m, procs[..i], now);
      var (m2, s) := ProcStep(m1, procs[i], now);
      RunProcs(m, procs[..i + 1], now) == (m2, st + [s])
    ensures Seen(procs[..i + 1]) == Seen(procs[..i]) + {procs[i].pid}
  {
    assert procs[..i + 1][..i] == procs[..i];
    SeenSnoc(procs[..i + 1]);
  }

  /** `Record` puts the pid's pushed window at the position the method writes. */
  lemma RecordFinds(h: History, pid: int, cpu: real)
    ensures var i := FindPid(h, pid);
      i >= 0 ==> Record(h, pid, cpu) == h[i := (pid, Push(h[i].1, cpu))]
    ensures FindPid(h, pid) < 0 ==> Record(h, pid, cpu) == (h + [(pid, [])])[|h| := (pid, Push([], cpu))]
    ensures WindowOf(Record(h, pid, cpu), pid) == Push(WindowOf(h, pid), cpu)
  {
    FindHistoryAgain(h, pid, cpu);
  }

  /** Deleting or keeping the element at the seam of `done + rest[k..]`. */
  lemma Splice<T>(done: seq<T>, rest: seq<T>, k: nat)
    requires k < |rest|
    ensures (done + rest[k..])[|done|] == rest[k]
    ensures (done + rest[k..])[..|done|] + (done + rest[k..])[|done| + 1..] == done + rest[k + 1..]
    ensures done + rest[k..] == (done + [rest[k]]) + rest[k + 1..]
  {
    assert rest[k..] == [rest[k]] + rest[k + 1..];
  }

  /** One step of the walk over the history: the entry at the seam is deleted when its
      pid was not seen, else the walk moves past it. */
  method DropStep(h: History, j: nat, before: History, k: nat, seen: set<int>) returns (h': History, j': nat)
    requires k < |before|
    requires h == KeepSeen(before[..k], seen) + before[k..] && j == |KeepSeen(before[..k], seen)|
    ensures h' == KeepSeen(before[..k + 1], seen) + before[k + 1..] && j' == |KeepSeen(before[..k + 1], seen)|
  {
    KeepSeenStep(before, k, seen);
    Splice(KeepSeen(before[..k], seen), before, k);
    if h[j].0 !in seen {
      h', j' := h[..j] + h[j + 1..], j;
    } else {
      h', j' := h, j + 1;
    }
  }

  /** Pushing through the table position `FindPid` gives agrees with `Record`. */
  lemma FindHistoryAgain(h: History, pid: int, cpu: real)
    ensures WindowOf(Record(h, pid, cpu), pid) == Push(WindowOf(h, pid), cpu)
  {
    var i := FindPid(h, pid);
    var r := Record(h, pid, cpu);
    if i >= 0 {
      FindSamePids(h, r, pid);
    } else {
      forall j | 0 <= j < |h| ensures r[j].0 != pid {
        assert r[j] == h[j];
      }
      FindPidFirst(r, pid, |h|);
    }
  }
}
