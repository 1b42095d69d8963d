/** The enumeration loop of `get_all_processes` (app.py:1187-1370), which appends each
    relevant process to one of six lists, and the memory total of the `status` route
    (app.py:1406-1409). The process table itself is an input: one `RawProcess` per entry
    `psutil.process_iter` yields, and `now` for the clock. */
module Processes {
  import opened Text
  import opened Wrappers
  import opened Classifier
  import opened Uptime

  /** The attributes read from one process-table entry; `None` where psutil reports none. */
  datatype RawProcess = RawProcess(
    pid: int,
    name: Option<string>,
    cmdline: Option<seq<string>>,
    username: Option<string>,
    cpuPercent: Option<real>,
    rss: Option<nat>,
    createTime: Option<int>,
    cwd: Option<string>)

  /** The record the server reports for a tracked process (app.py:1351-1360). */
  datatype ProcInfo = ProcInfo(
    pid: int, name: string, memory: nat, cpu: real, user: string,
    uptime: string, cwd: string, heap: string)

  /** The `processes` dictionary of lists. */
  type Buckets = map<Category, seq<ProcInfo>>

  /** The dictionary's keys, in the order the `status` route concatenates them. */
  const Categories: seq<Category> := [Gradle, Kotlin, Studio, Emulator, Ide, Java]

  predicate Complete(processes: Buckets) {
    forall c: Category :: c in processes
  }

  /** `' '.join(args)`. */
  function JoinArgs(args: seq<string>): string
    decreases |args|
  {
    if args == [] then ""
    else if |args| == 1 then args[0]
    else JoinArgs(args[..|args| - 1]) + " " + args[|args| - 1]
  }

  /** Every argument occurs in the joined command line. */
  lemma {:induction false} JoinArgsContains(args: seq<string>, k: nat)
    requires k < |args|
    ensures Contains(JoinArgs(args), args[k])
    decreases |args|
  {
    if |args| == 1 {
      assert StartsAt(args[0], 0, args[0]);
    } else if k == |args| - 1 {
      assert StartsAt(args[k], 0, args[k]);
      ContainsInfix(JoinArgs(args[..|args| - 1]) + " ", args[k], "", args[k]);
      assert JoinArgs(args[..|args| - 1]) + " " + args[k] + "" == JoinArgs(args);
    } else {
      JoinArgsContains(args[..|args| - 1], k);
      ContainsInfix("", JoinArgs(args[..|args| - 1]), " " + args[|args| - 1], args[k]);
      assert "" + JoinArgs(args[..|args| - 1]) + (" " + args[|args| - 1]) == JoinArgs(args);
    }
  }

  /** Age in whole seconds: none when psutil gives no (or a zero) start time (app.py:1254-1255). */
  function UptimeSeconds(createTime: Option<int>, now: int): int {
    match createTime
    case Some(t) => if t != 0 then now - t else 0
    case None => 0
  }

  /** `pinfo['username'] or 'unknown'`: the owner psutil reports, unless it reports none or
      an empty name; the record never shows an empty user. */
  function UserName(username: Option<string>): (r: string)
    ensures r != ""
    ensures username.Some? && username.value != "" ==> r == username.value
    ensures username.None? || username.value == "" ==> r == "unknown"
  {
    if username.Some? && username.value != "" then username.value else "unknown"
  }

  /** The body of the enumeration loop for one entry: skipped when not relevant, else its
      bucket and record (app.py:1202-1360). The working directory is kept as psutil gives it. */
  function Describe(p: RawProcess, now: int): Option<(Category, ProcInfo)> {
    var cmd := JoinArgs(p.cmdline.GetOr([]));
    match Classify(p.name.GetOr(""), cmd)
    case None => None
    case Some(c) =>
      Some((c.category, ProcInfo(
        p.pid, c.name, p.rss.GetOr(0), p.cpuPercent.GetOr(0.0), UserName(p.username),
        FormatUptime(UptimeSeconds(p.createTime, now)), p.cwd.GetOr(""), c.heap)))
  }

  /** What the loop body makes of each entry of the table, in enumeration order. */
  function Entries(snapshot: seq<RawProcess>, now: int): (r: seq<Option<(Category, ProcInfo)>>)
    ensures |r| == |snapshot|
    ensures forall i :: 0 <= i < |snapshot| ==> r[i] == Describe(snapshot[i], now)
  {
    seq(|snapshot|, i requires 0 <= i < |snapshot| => Describe(snapshot[i], now))
  }

  /** The records of the relevant entries, in enumeration order. */
  function Tracked(entries: seq<Option<(Category, ProcInfo)>>): seq<ProcInfo>
    decreases |entries|
  {
    if entries == [] then []
    else
      var last := entries[|entries| - 1];
      Tracked(entries[..|entries| - 1]) + (if last.Some? then [last.value.1] else [])
  }

  /** The records of the entries classified into `c`, in enumeration order. */
  function InCategory(entries: seq<Option<(Category, ProcInfo)>>, c: Category): seq<ProcInfo>
    decreases |entries|
  {
    if entries == [] then []
    else
      var last := entries[|entries| - 1];
      InCategory(entries[..|entries| - 1], c) + (if last.Some? && last.value.0 == c then [last.value.1] else [])
  }

  /** `get_all_processes`: one pass over the process table, appending each relevant entry's
      record to the list of its bucket. */
  method GetAllProcesses(snapshot: seq<RawProcess>, now: int) returns (processes: Buckets)
    ensures Complete(processes)
    ensures forall c: Category :: processes[c] == InCategory(Entries(snapshot, now), c)
    ensures processes == Bucketed(Entries(snapshot, now))
  {
    processes := map[Gradle := [], Kotlin := [], Studio := [], Emulator := [], Ide := [], Java := []];
    forall c: Category ensures c in processes && processes[c] == [] {
      match c
      case Gradle => case Kotlin => case Studio => case Emulator => case Ide => case Java =>
    }
    var i := 0;
    while i < |snapshot|
      invariant 0 <= i <= |snapshot|
      invariant Complete(processes)
      invariant forall c: Category :: processes[c] == InCategory(Entries(snapshot[..i], now), c)
    {
      assert Entries(snapshot[..i + 1], now)[..i] == Entries(snapshot[..i], now);
      var entry := Describe(snapshot[i], now);
      if entry.Some? {
        var (category, info) := entry.value;
        processes := processes[category := processes[category] + [info]];
      }
      i := i + 1;
    }
    assert snapshot[..i] == snapshot;
    assert processes.Keys == Bucketed(Entries(snapshot, now)).Keys;
  }

  /** `gradle + kotlin + studio + emulator + ide + java` (app.py:1406-1408). */
  function AllProcs(processes: Buckets): seq<ProcInfo>
    requires Complete(processes)
  {
    processes[Gradle] + processes[Kotlin] + processes[Studio]
      + processes[Emulator] + processes[Ide] + processes[Java]
  }

  function SumMemory(ps: seq<ProcInfo>): nat
    decreases |ps|
  {
    if ps == [] then 0 else SumMemory(ps[..|ps| - 1]) + ps[|ps| - 1].memory
  }

  /** `total_memory` of the `status` route (app.py:1409). */
  function TotalMemory(processes: Buckets): nat
    requires Complete(processes)
  {
    SumMemory(AllProcs(processes))
  }

  lemma {:induction false} SumMemoryConcat(a: seq<ProcInfo>, b: seq<ProcInfo>)
    ensures SumMemory(a + b) == SumMemory(a) + SumMemory(b)
    decreases |b|
  {
    if b == [] {
      assert a + b == a;
    } else {
      assert (a + b)[..|a + b| - 1] == a + b[..|b| - 1];
      SumMemoryConcat(a, b[..|b| - 1]);
    }
  }

  /** The bucket lists of a snapshot, as `get_all_processes` returns them. */
  function Bucketed(entries: seq<Option<(Category, ProcInfo)>>): (processes: Buckets)
    ensures Complete(processes)
  {
    map c: Category | true :: InCategory(entries, c)
  }

  /** The lists concatenated before and after the list of `c`. */
  function Before(p: Buckets, c: Category): seq<ProcInfo>
    requires Complete(p)
  {
    match c
    case Gradle => []
    case Kotlin => p[Gradle]
    case Studio => p[Gradle] + p[Kotlin]
    case Emulator => p[Gradle] + p[Kotlin] + p[Studio]
    case Ide => p[Gradle] + p[Kotlin] + p[Studio] + p[Emulator]
    case Java => p[Gradle] + p[Kotlin] + p[Studio] + p[Emulator] + p[Ide]
  }

  function After(p: Buckets, c: Category): seq<ProcInfo>
    requires Complete(p)
  {
    match c
    case Gradle => p[Kotlin] + p[Studio] + p[Emulator] + p[Ide] + p[Java]
    case Kotlin => p[Studio] + p[Emulator] + p[Ide] + p[Java]
    case Studio => p[Emulator] + p[Ide] + p[Java]
    case Emulator => p[Ide] + p[Java]
    case Ide => p[Java]
    case Java => []
  }

  lemma SplitAt(p: Buckets, c: Category)
    requires Complete(p)
    ensures AllProcs(p) == Before(p, c) + p[c] + After(p, c)
  {
  }

  lemma InsertOne(l: seq<ProcInfo>, m: seq<ProcInfo>, r: seq<ProcInfo>, info: ProcInfo)
    ensures |l + (m + [info]) + r| == |l + m + r| + 1
    ensures multiset(l + (m + [info]) + r) == multiset(l + m + r) + multiset{info}
    ensures SumMemory(l + (m + [info]) + r) == SumMemory(l + m + r) + info.memory
  {
    SumMemoryConcat(l, m);
    SumMemoryConcat(l + m, r);
    SumMemoryConcat(l, m + [info]);
    SumMemoryConcat(l + (m + [info]), r);
    SumMemoryConcat(m, [info]);
    assert SumMemory([info]) == info.memory by {
      assert [info][..0] == [];
    }
  }

  /** The six lists together gain exactly the record appended to one of them. */
  lemma AddOne(p: Buckets, q: Buckets, c: Category, info: ProcInfo)
    requires Complete(p) && Complete(q)
    requires q[c] == p[c] + [info]
    requires forall d: Category :: d != c ==> q[d] == p[d]
    ensures |AllProcs(q)| == |AllProcs(p)| + 1
    ensures multiset(AllProcs(q)) == multiset(AllProcs(p)) + multiset{info}
    ensures SumMemory(AllProcs(q)) == SumMemory(AllProcs(p)) + info.memory
  {
    SplitAt(p, c);
    SplitAt(q, c);
    assert Before(q, c) == Before(p, c) && After(q, c) == After(p, c) by {
      match c
      case Gradle => case Kotlin => case Studio => case Emulator => case Ide => case Java =>
    }
    InsertOne(Before(p, c), p[c], After(p, c), info);
  }

  lemma BucketedLast(entries: seq<Option<(Category, ProcInfo)>>, d: Category)
    requires entries != []
    ensures var last := entries[|entries| - 1];
      Bucketed(entries)[d] == Bucketed(entries[..|entries| - 1])[d] + (if last.Some? && last.value.0 == d then [last.value.1] else [])
  {
  }

  lemma BucketedEmpty()
    ensures AllProcs(Bucketed([])) == []
  {
    var p := Bucketed([]);
    assert p[Gradle] == [] && p[Kotlin] == [] && p[Studio] == [] && p[Emulator] == [] && p[Ide] == [] && p[Java] == [];
  }

  /** Every tracked record lands in exactly one of the six lists: their concatenation is a
      permutation of the tracked records, so it has their number and their memory total. */
  lemma {:induction false} EachTrackedInOneBucket(entries: seq<Option<(Category, ProcInfo)>>)
    ensures |AllProcs(Bucketed(entries))| == |Tracked(entries)|
    ensures multiset(AllProcs(Bucketed(entries))) == multiset(Tracked(entries))
    ensures SumMemory(AllProcs(Bucketed(entries))) == SumMemory(Tracked(entries))
    decreases |entries|
  {
    if entries == [] {
      BucketedEmpty();
    } else {
      var init := entries[..|entries| - 1];
      EachTrackedInOneBucket(init);
      var last := entries[|entries| - 1];
      var before := Bucketed(init);
      var after := Bucketed(entries);
      if last.Some? {
        var c := last.value.0;
        var info := last.value.1;
        forall d: Category ensures after[d] == before[d] + (if d == c then [info] else []) {
          BucketedLast(entries, d);
        }
        AddOne(before, after, c, info);
        var t := Tracked(init);
        assert Tracked(entries) == t + [info];
        assert SumMemory(t + [info]) == SumMemory(t) + info.memory by {
          assert (t + [info])[..|t|] == t;
        }
      } else {
        forall d: Category ensures after[d] == before[d] {
          BucketedLast(entries, d);
        }
        assert after == before;
        assert Tracked(entries) == Tracked(init);
      }
    }
  }

  /** The status route's total is the memory of every tracked process, each counted once. */
  lemma TotalMemoryOfSnapshot(entries: seq<Option<(Category, ProcInfo)>>)
    ensures TotalMemory(Bucketed(entries)) == SumMemory(Tracked(entries))
  {
    EachTrackedInOneBucket(entries);
  }

  /** A process launched with an argument that names the Gradle daemon's main class is
      reported in the `gradle` list. */
  lemma GradleDaemonArgumentIsGradle(p: RawProcess, now: int, k: nat)
    requires p.cmdline.Some? && k < |p.cmdline.value| && Contains(p.cmdline.value[k], "GradleDaemon")
    ensures Describe(p, now).Some? && Describe(p, now).value.0 == Gradle
  {
    var args := p.cmdline.value;
    JoinArgsContains(args, k);
    var i :| 0 <= i <= |args[k]| && StartsAt(args[k], i, "GradleDaemon");
    var j :| 0 <= j <= |JoinArgs(args)| && StartsAt(JoinArgs(args), j, args[k]);
    assert JoinArgs(args)[j + i..j + i + 12] == args[k][i..i + 12];
    assert StartsAt(JoinArgs(args), j + i, "GradleDaemon");
    GradleDaemonWins(p.name.GetOr(""), JoinArgs(args));
  }
}
