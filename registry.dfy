/** The dashboard's alert registry: an insertion-ordered map from alert ids to alerts
    (app.py:769, 798-841), written as a sequence of entries with distinct keys. These are the
    functions the `AlertMonitor` methods are proved against. */
module Registry {

  /** The alert keys `stuck-<pid>`, `idle-<pid>`, `cpu-<pid>`, `mem-<pid>` and `total-mem`. */
  datatype AlertId = Stuck(pid: int) | Idle(pid: int) | Cpu(pid: int) | Mem(pid: int) | TotalMem

  /** The alert `type`: 'warning' or 'danger'. */
  datatype Severity = Warning | Danger

  /** What each alert's message is made from; the text itself (with `formatBytes` and
      `toFixed`) is presentation. */
  datatype Message =
    | StuckMessage(name: string, pid: int)
    | IdleMessage(name: string, pid: int, uptime: string)
    | CpuMessage(name: string, pid: int, cpu: real)
    | MemMessage(name: string, pid: int, memory: nat)
    | TotalMemMessage(total: int)

  datatype Alert = Alert(severity: Severity, message: Message, time: int)

  type Entry = (AlertId, Alert)

  const MaxAlerts := 50
  /** Milliseconds after which an alert that was not refreshed is swept. */
  const StaleAfter := 300000

  /** No key occurs twice, as in a `Map`. */
  predicate Keyed(t: seq<Entry>) {
    forall i, j :: 0 <= i < j < |t| ==> t[i].0 != t[j].0
  }

  /** `alerts.has(id)`. */
  predicate Has(t: seq<Entry>, id: AlertId) {
    exists i | 0 <= i < |t| :: t[i].0 == id
  }

  /** The position of `id`, or -1 when absent. */
  function Find(t: seq<Entry>, id: AlertId): (r: int)
    ensures -1 <= r < |t|
    ensures r >= 0 ==> t[r].0 == id
    ensures r == -1 <==> !Has(t, id)
    decreases |t|
  {
    if t == [] then -1
    else if t[|t| - 1].0 == id && Find(t[..|t| - 1], id) == -1 then |t| - 1
    else Find(t[..|t| - 1], id)
  }

  /** `addAlert(id, type, message)` at time `now` (app.py:798-813): an existing id only has its
      time refreshed; a new id evicts the first-inserted entry when the map is full, then is
      appended. */
  function Raise(t: seq<Entry>, id: AlertId, severity: Severity, message: Message, now: int): seq<Entry> {
    var i := Find(t, id);
    if i >= 0 then t[i := (id, t[i].1.(time := now))]
    else (if |t| >= MaxAlerts then t[1..] else t) + [(id, Alert(severity, message, now))]
  }

  /** `removeAlert(id)` (app.py:815-818): `alerts.delete(id)`. */
  function Remove(t: seq<Entry>, id: AlertId): seq<Entry>
    decreases |t|
  {
    if t == [] then []
    else Remove(t[..|t| - 1], id) + (if t[|t| - 1].0 == id then [] else [t[|t| - 1]])
  }

  predicate Fresh(e: Entry, now: int) {
    now - e.1.time <= StaleAfter
  }

  /** The alert sweep of `cleanupStaleData` (app.py:824-829). */
  function Sweep(t: seq<Entry>, now: int): seq<Entry>
    decreases |t|
  {
    if t == [] then []
    else Sweep(t[..|t| - 1], now) + (if Fresh(t[|t| - 1], now) then [t[|t| - 1]] else [])
  }

  lemma KeyedSnoc(t: seq<Entry>, e: Entry)
    requires Keyed(t)
    requires forall x | x in t :: x.0 != e.0
    ensures Keyed(t + [e])
  {
    forall i, j | 0 <= i < j < |t + [e]| ensures (t + [e])[i].0 != (t + [e])[j].0 {
      if j == |t| {
        assert (t + [e])[i] in t;
      } else {
        assert (t + [e])[i] == t[i] && (t + [e])[j] == t[j];
      }
    }
  }

  /** Raising keeps the keys distinct, the id is present afterwards, and the map never grows
      beyond 50 entries. */
  lemma RaiseKeyed(t: seq<Entry>, id: AlertId, severity: Severity, message: Message, now: int)
    requires Keyed(t)
    ensures var r := Raise(t, id, severity, message, now);
      && Keyed(r)
      && Has(r, id)
      && (|t| <= MaxAlerts ==> |r| <= MaxAlerts)
  {
    var r := Raise(t, id, severity, message, now);
    var i := Find(t, id);
    if i >= 0 {
      assert r[i].0 == id;
      forall a, b | 0 <= a < b < |r| ensures r[a].0 != r[b].0 {
        assert r[a].0 == t[a].0 && r[b].0 == t[b].0;
      }
    } else {
      var base := if |t| >= MaxAlerts then t[1..] else t;
      forall a, b | 0 <= a < b < |base| ensures base[a].0 != base[b].0 {
        if |t| >= MaxAlerts {
          assert base[a] == t[a + 1] && base[b] == t[b + 1];
        }
      }
      forall x | x in base ensures x.0 != id {
        var k :| 0 <= k < |base| && base[k] == x;
        if |t| >= MaxAlerts {
          assert x == t[k + 1];
        }
      }
      KeyedSnoc(base, (id, Alert(severity, message, now)));
      assert r[|r| - 1].0 == id;
    }
  }

  /** Re-raising an id that is present changes only that entry's time: its severity and
      message, the order and every other entry stay as they were. */
  lemma RaiseRefreshes(t: seq<Entry>, id: AlertId, severity: Severity, message: Message, now: int)
    requires Has(t, id)
    ensures var r := Raise(t, id, severity, message, now);
      var i := Find(t, id);
      && |r| == |t|
      && r[i].0 == id
      && r[i].1.severity == t[i].1.severity
      && r[i].1.message == t[i].1.message
      && r[i].1.time == now
      && (forall k | 0 <= k < |t| && k != i :: r[k] == t[k])
  {
  }

  /** A new id is appended as the last entry; when the map already holds 50 entries, the
      first-inserted one is evicted and everything else keeps its order. */
  lemma RaiseAppends(t: seq<Entry>, id: AlertId, severity: Severity, message: Message, now: int)
    requires !Has(t, id)
    ensures var r := Raise(t, id, severity, message, now);
      && r[|r| - 1] == (id, Alert(severity, message, now))
      && (|t| < MaxAlerts ==> r[..|r| - 1] == t)
      && (|t| >= MaxAlerts ==> r[..|r| - 1] == t[1..])
  {
    var r := Raise(t, id, severity, message, now);
    assert Find(t, id) == -1;
    var base := if |t| >= MaxAlerts then t[1..] else t;
    assert r == base + [(id, Alert(severity, message, now))];
    assert r[..|r| - 1] == base;
  }

  /** Removal keeps exactly the entries with another key, in their order. */
  lemma {:induction false} RemoveMembers(t: seq<Entry>, id: AlertId)
    ensures forall e :: e in Remove(t, id) <==> e in t && e.0 != id
    ensures |Remove(t, id)| <= |t|
    decreases |t|
  {
    if t != [] {
      RemoveMembers(t[..|t| - 1], id);
      assert t == t[..|t| - 1] + [t[|t| - 1]];
    }
  }

  /** Removing an absent id leaves the map as it was. */
  lemma {:induction false} RemoveAbsent(t: seq<Entry>, id: AlertId)
    requires !Has(t, id)
    ensures Remove(t, id) == t
    decreases |t|
  {
    if t != [] {
      var init := t[..|t| - 1];
      forall k | 0 <= k < |init| ensures init[k].0 != id {
        assert init[k] == t[k];
      }
      RemoveAbsent(init, id);
      assert t[|t| - 1].0 != id;
      assert init + [t[|t| - 1]] == t;
    }
  }

  /** In a map with distinct keys, removing a present id deletes exactly that entry. */
  lemma {:induction false} RemoveDeletesOne(t: seq<Entry>, id: AlertId)
    requires Keyed(t) && Has(t, id)
    ensures var i := Find(t, id);
      Remove(t, id) == t[..i] + t[i + 1..]
    decreases |t|
  {
    var init := t[..|t| - 1];
    var last := t[|t| - 1];
    var i := Find(t, id);
    assert t == init + [last];
    if last.0 == id {
      forall k | 0 <= k < |init| ensures init[k].0 != id {
        assert init[k] == t[k];
      }
      RemoveAbsent(init, id);
      assert Find(init, id) == -1;
      assert i == |t| - 1;
      assert t[..i] + t[i + 1..] == init;
    } else {
      assert Has(init, id) by {
        assert t[i].0 == id && i < |t| - 1 && init[i] == t[i];
      }
      KeyedPrefix(t);
      RemoveDeletesOne(init, id);
      assert i == Find(init, id);
      assert Remove(t, id) == Remove(init, id) + [last];
      assert t[..i] + t[i + 1..] == init[..i] + init[i + 1..] + [last];
    }
  }

  lemma KeyedPrefix(t: seq<Entry>)
    requires Keyed(t) && t != []
    ensures Keyed(t[..|t| - 1])
  {
    var init := t[..|t| - 1];
    forall a, b | 0 <= a < b < |init| ensures init[a].0 != init[b].0 {
      assert init[a] == t[a] && init[b] == t[b];
    }
  }

  /** Removal keeps the keys distinct and leaves the id absent. */
  lemma {:induction false} RemoveKeyed(t: seq<Entry>, id: AlertId)
    requires Keyed(t)
    ensures Keyed(Remove(t, id)) && !Has(Remove(t, id), id)
    decreases |t|
  {
    RemoveMembers(t, id);
    var r := Remove(t, id);
    forall k | 0 <= k < |r| ensures r[k].0 != id {
      assert r[k] in r;
    }
    if t != [] {
      var init := t[..|t| - 1];
      var last := t[|t| - 1];
      KeyedPrefix(t);
      RemoveKeyed(init, id);
      RemoveMembers(init, id);
      if last.0 != id {
        forall x | x in Remove(init, id) ensures x.0 != last.0 {
          var k :| 0 <= k < |init| && init[k] == x;
          assert t[k] == x;
        }
        KeyedSnoc(Remove(init, id), last);
      }
    }
  }

  /** The sweep keeps exactly the entries at most 300000 ms old, in their original order, and
      keeps the keys distinct. */
  lemma {:induction false} SweepMembers(t: seq<Entry>, now: int)
    ensures forall e :: e in Sweep(t, now) <==> e in t && Fresh(e, now)
    ensures |Sweep(t, now)| <= |t|
    ensures Keyed(t) ==> Keyed(Sweep(t, now))
    decreases |t|
  {
    if t != [] {
      var init := t[..|t| - 1];
      var last := t[|t| - 1];
      SweepMembers(init, now);
      assert t == init + [last];
      if Keyed(t) {
        assert Keyed(init) by {
          forall a, b | 0 <= a < b < |init| ensures init[a].0 != init[b].0 {
            assert init[a] == t[a] && init[b] == t[b];
          }
        }
        if Fresh(last, now) {
          forall x | x in Sweep(init, now) ensures x.0 != last.0 {
            var k :| 0 <= k < |init| && init[k] == x;
            assert t[k] == x;
          }
          KeyedSnoc(Sweep(init, now), last);
        }
      }
    }
  }

  /** Sweeping twice at the same time removes nothing more. */
  lemma {:induction false} SweepIdempotent(t: seq<Entry>, now: int)
    ensures Sweep(Sweep(t, now), now) == Sweep(t, now)
    decreases |t|
  {
    if t != [] {
      var init := t[..|t| - 1];
      var s := Sweep(init, now);
      SweepIdempotent(init, now);
      if Fresh(t[|t| - 1], now) {
        var r := s + [t[|t| - 1]];
        assert r[..|r| - 1] == s;
        assert Sweep(r, now) == Sweep(s, now) + [t[|t| - 1]];
        assert Sweep(t, now) == r;
      } else {
        assert Sweep(t, now) == s;
      }
    }
  }

  /** The sweep distributes over concatenation: it filters each part in place. */
  lemma {:induction false} SweepConcat(a: seq<Entry>, b: seq<Entry>, now: int)
    ensures Sweep(a + b, now) == Sweep(a, now) + Sweep(b, now)
    decreases |b|
  {
    if b == [] {
      assert a + b == a;
    } else {
      assert (a + b)[..|a + b| - 1] == a + b[..|b| - 1];
      SweepConcat(a, b[..|b| - 1], now);
    }
  }

  /** The severity the map holds for a present id. */
  function SeverityOf(t: seq<Entry>, id: AlertId): Severity
    requires Has(t, id)
  {
    t[Find(t, id)].1.severity
  }

  /** Raising adds no key but its own; it loses none unless the map was full and the id new,
      and then it loses only the first-inserted key. */
  lemma RaiseKeys(t: seq<Entry>, id: AlertId, severity: Severity, message: Message, now: int, k: AlertId)
    ensures Has(Raise(t, id, severity, message, now), k) ==> Has(t, k) || k == id
    ensures Has(t, k) && (Has(t, id) || |t| < MaxAlerts) ==> Has(Raise(t, id, severity, message, now), k)
    ensures Has(t, k) && k != t[0].0 ==> Has(Raise(t, id, severity, message, now), k)
    ensures |Raise(t, id, severity, message, now)| <= |t| + 1
  {
    var r := Raise(t, id, severity, message, now);
    if Find(t, id) >= 0 {
      if Has(r, k) {
        var j :| 0 <= j < |r| && r[j].0 == k;
        assert t[j].0 == k;
      }
      if Has(t, k) {
        var j :| 0 <= j < |t| && t[j].0 == k;
        assert r[j].0 == k;
      }
    } else {
      var base := if |t| >= MaxAlerts then t[1..] else t;
      assert r == base + [(id, Alert(severity, message, now))];
      if Has(r, k) && k != id {
        var j :| 0 <= j < |r| && r[j].0 == k;
        assert j < |base|;
        assert base[j] == t[if |t| >= MaxAlerts then j + 1 else j];
      }
      if Has(t, k) && (|t| < MaxAlerts || k != t[0].0) {
        var j :| 0 <= j < |t| && t[j].0 == k;
        if |t| >= MaxAlerts {
          assert j > 0;
          assert r[j - 1] == t[j];
        } else {
          assert r[j] == t[j];
        }
      }
    }
  }

  /** After `removeAlert(id)` a key is present exactly when it was present and is not `id`. */
  lemma RemoveKeys(t: seq<Entry>, id: AlertId, k: AlertId)
    ensures Has(Remove(t, id), k) <==> Has(t, k) && k != id
    ensures |Remove(t, id)| <= |t|
  {
    RemoveMembers(t, id);
    var r := Remove(t, id);
    if Has(r, k) {
      var j :| 0 <= j < |r| && r[j].0 == k;
      assert r[j] in r;
    }
    if Has(t, k) && k != id {
      var j :| 0 <= j < |t| && t[j].0 == k;
      assert t[j] in t && t[j] in r;
    }
  }

  /** Removing another key leaves a present entry's severity as it was. */
  lemma RemoveKeepsSeverity(t: seq<Entry>, id: AlertId, k: AlertId)
    requires Keyed(t) && Has(t, k) && k != id
    ensures Has(Remove(t, id), k) && SeverityOf(Remove(t, id), k) == SeverityOf(t, k)
  {
    RemoveKeys(t, id, k);
    RemoveKeyed(t, id);
    RemoveMembers(t, id);
    var r := Remove(t, id);
    var e := r[Find(r, k)];
    assert e in r;
    var j :| 0 <= j < |t| && t[j] == e;
    assert j == Find(t, k);
  }

  /** `Find` finds the first occurrence. */
  lemma {:induction false} FindFirst(t: seq<Entry>, id: AlertId, i: int)
    requires 0 <= i < |t| && t[i].0 == id
    requires forall j :: 0 <= j < i ==> t[j].0 != id
    ensures Find(t, id) == i
    decreases |t|
  {
    var init := t[..|t| - 1];
    if i < |t| - 1 {
      FindFirst(init, id, i);
    } else {
      forall j | 0 <= j < |init| ensures init[j].0 != id {
        assert init[j] == t[j];
      }
      assert !Has(init, id);
    }
  }
}
