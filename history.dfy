/** The dashboard's `cpuHistory`: an insertion-ordered map from pid to the window of its
    latest CPU readings (app.py:770, 774, 831-837, 886-890), written as a sequence of
    `(pid, window)` pairs with distinct pids. */
module CpuHistory {

  type Samples = seq<real>
  type History = seq<(int, Samples)>

  /** `THRESHOLDS.STUCK_CHECK_COUNT`: readings kept per pid. */
  const WindowSize := 6
  /** `MAX_HISTORY_PIDS`. */
  const MaxHistoryPids := 100

  /** No pid occurs twice, as in a `Map`. */
  predicate PidsDistinct(h: History) {
    forall i, j :: 0 <= i < j < |h| ==> h[i].0 != h[j].0
  }

  /** Every window holds at most `WindowSize` readings. */
  predicate WindowsBounded(h: History) {
    forall i :: 0 <= i < |h| ==> |h[i].1| <= WindowSize
  }

  predicate HasPid(h: History, pid: int) {
    exists i | 0 <= i < |h| :: h[i].0 == pid
  }

  /** The pids in insertion order. */
  function Pids(h: History): (r: seq<int>)
    ensures |r| == |h|
    ensures forall i :: 0 <= i < |h| ==> r[i] == h[i].0
  {
    seq(|h|, i requires 0 <= i < |h| => h[i].0)
  }

  /** The position of `pid`, or -1 when absent. */
  function FindPid(h: History, pid: int): (r: int)
    ensures -1 <= r < |h|
    ensures r >= 0 ==> h[r].0 == pid
    ensures r == -1 <==> !HasPid(h, pid)
    decreases |h|
  {
    if h == [] then -1
    else if h[|h| - 1].0 == pid && FindPid(h[..|h| - 1], pid) == -1 then |h| - 1
    else FindPid(h[..|h| - 1], pid)
  }

  /** `cpuHistory.get(pid)`, or no readings when the pid is not tracked. */
  function WindowOf(h: History, pid: int): Samples {
    var i := FindPid(h, pid);
    if i >= 0 then h[i].1 else []
  }

  /** `history.push(cpu)` followed by one `history.shift()` when the window overflows. */
  function Push(w: Samples, x: real): Samples {
    var grown := w + [x];
    if |grown| > WindowSize then grown[1..] else grown
  }

  /** The last `n` elements of `s` (all of them when there are fewer). */
  function Last(s: Samples, n: nat): (r: Samples)
    ensures |r| <= n && |r| <= |s|
  {
    if |s| <= n then s else s[|s| - n..]
  }

  /** Pushing onto a window that is within bounds keeps the latest `WindowSize` readings: the
      oldest reading is the one dropped. */
  lemma PushKeepsLatest(w: Samples, x: real)
    requires |w| <= WindowSize
    ensures Push(w, x) == Last(w + [x], WindowSize)
    ensures |Push(w, x)| <= WindowSize
    ensures Push(w, x)[|Push(w, x)| - 1] == x
  {
  }

  /** The window built by pushing `xs` one at a time onto an empty window. */
  function PushAll(xs: Samples): Samples
    decreases |xs|
  {
    if xs == [] then [] else Push(PushAll(xs[..|xs| - 1]), xs[|xs| - 1])
  }

  /** After any run of readings the window is exactly the latest `WindowSize` of them. */
  lemma {:induction false} PushAllIsLatest(xs: Samples)
    ensures PushAll(xs) == Last(xs, WindowSize)
    decreases |xs|
  {
    if xs != [] {
      var init := xs[..|xs| - 1];
      PushAllIsLatest(init);
      PushKeepsLatest(PushAll(init), xs[|xs| - 1]);
      var w := Last(init, WindowSize);
      assert xs == init + [xs[|xs| - 1]];
      if |init| > WindowSize {
        assert w + [xs[|xs| - 1]] == xs[|xs| - WindowSize - 1..];
        assert (w + [xs[|xs| - 1]])[1..] == xs[|xs| - WindowSize..];
      }
    }
  }

  /** The history part of `checkStuckProcess` (app.py:886-890): a new pid is appended with an
      empty window, then the reading is pushed onto the pid's window. */
  function Record(h: History, pid: int, cpu: real): History {
    var i := FindPid(h, pid);
    if i >= 0 then h[i := (pid, Push(h[i].1, cpu))]
    else h + [(pid, Push([], cpu))]
  }

  /** Recording pushes onto that pid's window only, appends a new pid at the end, and keeps
      the pids distinct and the windows bounded. */
  lemma RecordWindows(h: History, pid: int, cpu: real)
    requires PidsDistinct(h) && WindowsBounded(h)
    ensures var r := Record(h, pid, cpu);
      && PidsDistinct(r)
      && WindowsBounded(r)
      && WindowOf(r, pid) == Push(WindowOf(h, pid), cpu)
      && (forall q :: q != pid ==> WindowOf(r, q) == WindowOf(h, q))
      && Pids(r) == Pids(h) + (if HasPid(h, pid) then [] else [pid])
  {
    var r := Record(h, pid, cpu);
    var i := FindPid(h, pid);
    if i >= 0 {
      assert Pids(r) == Pids(h);
      forall q | q != pid ensures WindowOf(r, q) == WindowOf(h, q) {
        FindSamePids(h, r, q);
      }
      FindSamePids(h, r, pid);
    } else {
      forall a, b | 0 <= a < b < |r| ensures r[a].0 != r[b].0 {
        if b == |h| {
          assert r[a] == h[a];
        }
      }
      assert Pids(r) == Pids(h) + [pid];
      assert FindPid(r, pid) == |h| by {
        assert r[..|r| - 1] == h;
      }
      forall q | q != pid ensures WindowOf(r, q) == WindowOf(h, q) {
        assert r[..|r| - 1] == h;
      }
    }
  }

  /** Histories with the same pids in the same order find a pid at the same position. */
  lemma {:induction false} FindSamePids(a: History, b: History, pid: int)
    requires Pids(a) == Pids(b)
    ensures FindPid(a, pid) == FindPid(b, pid)
    decreases |a|
  {
    if a != [] {
      assert Pids(a[..|a| - 1]) == Pids(b[..|b| - 1]) by {
        assert |a| == |Pids(a)| == |b|;
        forall k | 0 <= k < |a| - 1 ensures a[k].0 == b[k].0 {
          assert Pids(a)[k] == Pids(b)[k];
        }
      }
      assert a[|a| - 1].0 == Pids(a)[|a| - 1] == b[|b| - 1].0;
      FindSamePids(a[..|a| - 1], b[..|b| - 1], pid);
    }
  }

  /** The size limit of `cleanupStaleData` (app.py:831-837): when more than 100 pids are
      tracked, the earliest inserted are deleted. */
  function Trim(h: History): History {
    if |h| > MaxHistoryPids then h[|h| - MaxHistoryPids..] else h
  }

  /** Trimming keeps the 100 most recently inserted pids, in order, with their windows. */
  lemma TrimKeepsNewest(h: History)
    ensures |Trim(h)| == if |h| > MaxHistoryPids then MaxHistoryPids else |h|
    ensures Trim(h) == h[|h| - |Trim(h)|..]
    ensures PidsDistinct(h) ==> PidsDistinct(Trim(h))
    ensures WindowsBounded(h) ==> WindowsBounded(Trim(h))
  {
    var r := Trim(h);
    var d := |h| - |r|;
    if PidsDistinct(h) {
      forall a, b | 0 <= a < b < |r| ensures r[a].0 != r[b].0 {
        assert r[a] == h[a + d] && r[b] == h[b + d];
      }
    }
  }

  /** The dead-pid pass of `checkAlerts` on the history (app.py:956-958): the pids not seen
      in this poll are deleted. */
  function KeepSeen(h: History, seen: set<int>): History
    decreases |h|
  {
    if h == [] then []
    else KeepSeen(h[..|h| - 1], seen) + (if h[|h| - 1].0 in seen then [h[|h| - 1]] else [])
  }

  /** The pass keeps exactly the entries of seen pids, in order. */
  lemma {:induction false} KeepSeenMembers(h: History, seen: set<int>)
    ensures forall e :: e in KeepSeen(h, seen) <==> e in h && e.0 in seen
    decreases |h|
  {
    if h != [] {
      KeepSeenMembers(h[..|h| - 1], seen);
      assert h == h[..|h| - 1] + [h[|h| - 1]];
    }
  }

  /** The pass distributes over concatenation: it filters each entry by itself and keeps the
      survivors in their original order. */
  lemma {:induction false} KeepSeenConcat(a: History, b: History, seen: set<int>)
    ensures KeepSeen(a + b, seen) == KeepSeen(a, seen) + KeepSeen(b, seen)
    decreases |b|
  {
    if b == [] {
      assert a + b == a;
    } else {
      var init := b[..|b| - 1];
      KeepSeenConcat(a, init, seen);
      assert (a + b)[..|a + b| - 1] == a + init;
    }
  }

  /** After the pass a pid is tracked exactly when it was tracked and seen; the windows stay
      bounded. */
  lemma KeepSeenPids(h: History, seen: set<int>)
    ensures forall pid :: HasPid(KeepSeen(h, seen), pid) <==> HasPid(h, pid) && pid in seen
    ensures WindowsBounded(h) ==> WindowsBounded(KeepSeen(h, seen))
  {
    var r := KeepSeen(h, seen);
    KeepSeenMembers(h, seen);
    forall pid ensures HasPid(r, pid) <==> HasPid(h, pid) && pid in seen {
      if HasPid(r, pid) {
        var k :| 0 <= k < |r| && r[k].0 == pid;
        assert r[k] in r;
      }
      if HasPid(h, pid) && pid in seen {
        var j :| 0 <= j < |h| && h[j].0 == pid;
        assert h[j] in h && h[j] in r;
      }
    }
    if WindowsBounded(h) {
      forall k | 0 <= k < |r| ensures |r[k].1| <= WindowSize {
        assert r[k] in r;
      }
    }
  }

  /** The pass keeps the pids distinct. */
  lemma {:induction false} KeepSeenDistinct(h: History, seen: set<int>)
    requires PidsDistinct(h)
    ensures PidsDistinct(KeepSeen(h, seen))
    decreases |h|
  {
    if h != [] {
      var init := h[..|h| - 1];
      var last := h[|h| - 1];
      assert PidsDistinct(init) by {
        forall a, b | 0 <= a < b < |init| ensures init[a].0 != init[b].0 {
          assert init[a] == h[a] && init[b] == h[b];
        }
      }
      KeepSeenDistinct(init, seen);
      KeepSeenMembers(init, seen);
      var s := KeepSeen(init, seen);
      if last.0 in seen {
        var r := s + [last];
        forall a, b | 0 <= a < b < |r| ensures r[a].0 != r[b].0 {
          if b == |s| {
            assert r[a] == s[a] && s[a] in s;
            var j :| 0 <= j < |init| && init[j] == s[a];
            assert h[j] == s[a];
          } else {
            assert r[a] == s[a] && r[b] == s[b];
          }
        }
      }
    }
  }

  /** `FindPid` finds the first occurrence. */
  lemma {:induction false} FindPidFirst(t: History, pid: int, i: int)
    requires 0 <= i < |t| && t[i].0 == pid
    requires forall j :: 0 <= j < i ==> t[j].0 != pid
    ensures FindPid(t, pid) == i
    decreases |t|
  {
    var init := t[..|t| - 1];
    if i < |t| - 1 {
      FindPidFirst(init, pid, i);
    } else {
      forall j | 0 <= j < |init| ensures init[j].0 != pid {
        assert init[j] == t[j];
      }
      assert !HasPid(init, pid);
    }
  }
}
