# Gradik core, modelled in Dafny

Gradik is a small Flask dashboard for Android developers. It lists the Gradle daemons,
Kotlin compile daemons, Android Studio, emulators, IDEs and other JVMs running on the
machine, reports their memory, CPU and uptime, and raises alerts in the browser when a
process looks stuck, idle or too large. This project models the parts of `app.py` that
decide what is shown, and proves properties of them:

- **Process classification** (`classifier.dfy`, `patterns.dfy`). The relevance flags and the
  ordered `if/elif` chain of `get_all_processes` put each process into one of six buckets and
  give it a display name and heap size. The five regular expressions are hand-written
  scanners, proved equal to what the expressions themselves say: `re.search` reports the
  greedy capture of the leftmost match, and nothing exactly when no position matches.
- **Process enumeration and the memory total** (`processes.dfy`). The loop over the process
  table is a method, proved against a bucketing function. The `status` route's
  `total_memory` is proved to count every tracked process exactly once.
- **Uptime text** (`uptime.dfy`). The server's `format_uptime` and the dashboard's
  `parseUptime`, with a round trip: reading back the text gives the age in whole minutes
  below a day, and in whole hours beyond.
- **Alert registry and anomaly rules** (`registry.dfy`, `history.dfy`, `detector.dfy`,
  `dashboard.dfy`). The dashboard script keeps two insertion-ordered `Map`s: `alerts`, capped
  at 50 with oldest-first eviction, and `cpuHistory`, a six-reading CPU window per pid.
  `addAlert`, `removeAlert`, `cleanupStaleData`, `checkStuckProcess` and `checkAlerts`
  update them in place. Those maps are the fields of the class `Dashboard.AlertMonitor`,
  whose methods are proved against pure functions of the state. The state invariant and
  the alerting rules are proved as lemmas about those functions.
- **Port change** (`port.dfy`). The decision of `POST /api/config/port`:
  - Python truthiness of the JSON field;
  - Python's `int()` on booleans, integers, floats and strings;
  - the 1024..65535 range check;
  - the comparison with the running port;
  - the save.

Time (`Date.now()`, `datetime.now()`) is an integer parameter `now`. Process data arrives as
a value: the attributes psutil reports for each entry, in enumeration order. CPU percentages
are reals; memory sizes are natural numbers.

Quirks of the source kept in the model:

- Re-raising an alert that is present refreshes only its time. Its severity and message stay
  as first raised, even when a process moves from the warning tier to the danger tier.
- When a process is stuck, `checkStuckProcess` returns before removing its idle alert, so an
  idle alert survives.
- The idle test looks for the literal substring `Daemon` in the display name.
- Raising a new alert into a full map evicts the oldest alert, whichever it is. That can be
  another process's alert, or `total-mem` itself.
- The string port `"0"` is truthy and so is reported out of range. The number `0` is falsy
  and is reported as missing.
- A float port is truncated toward zero; `true` is the integer 1.
- A process whose only marker is `android studio` or `com.google.android.studio` stays in
  the `java` bucket.

## Model

| member | source | states |
|---|---|---|
| Uptime.FormatUptimeComponents | app.py:1171-1184 | the units printed give the age truncated to the lower unit: seconds are exact below an hour, minutes below a day, whole hours beyond; the lower unit stays below its modulus |
| Uptime.FormatUptime | app.py:1171-1184 | `format_uptime`: what its text means is stated by `FormatUptimeComponents` and `ParseFormatUptime` |
| Uptime.UnitsOfPair | app.py:874-879 | `parseUptime`'s regex lookups read back the number in front of each unit of a two-unit text, and 0 for an absent unit |
| Uptime.ParseUptime | app.py:871-881 | `parseUptime`: what it reads back from the server's text is stated by `UnitsOfPair` and `ParseFormatUptime` |
| Uptime.ParseFormatUptime | app.py:871-881 | round trip: parsing the formatted age gives `seconds / 60` below a day, `seconds / 3600 * 60` beyond, never more than the real minutes, and 0 for a negative age |
| Uptime.IdleUptimeThreshold | app.py:903-905 | on a server-formatted uptime, "over 30 minutes" holds exactly from 31 minutes of age |
| Patterns.RunEnd | app.py:1273 | the scan of a character class stops at the end of the maximal run |
| Patterns.UnitCountRegex | app.py:874-876 | the `(\d+)d`, `(\d+)h` and `(\d+)m` scan matches at a position exactly when the regular expression does there, and captures the same digits |
| Patterns.MaxHeapRegex | app.py:1273 | the `-Xmx(\d+[mgMG])` scan matches at a position exactly when the regular expression does, and its capture is the only one possible there |
| Patterns.GradleVersionRegex | app.py:1285 | the `GradleDaemon\s+(\d+\.\d+)` scan matches exactly when the regular expression does, with the greedy capture: every possible capture there is a prefix of it |
| Patterns.AvdNameRegex | app.py:1298 | the `-avd\s+([^\s]+)` scan matches exactly when the regular expression does, capturing the whole whitespace-free token |
| Patterns.StudioVersionRegex | app.py:1312 | the `android-studio[/-](\d+\.\d+)` scan matches exactly when the regular expression does, with the greedy capture |
| Patterns.FirstMatchIndex | app.py:1273 | the first position at or after `i` where the pattern matches: none before it, a match at it |
| Patterns.SearchFromIsLeftmost | app.py:1273 | `re.search` reports the capture of the leftmost match, or nothing when no position matches |
| Patterns.SearchFindsNothing | app.py:1274 | a search finds nothing exactly when no position of the text matches |
| Patterns.SearchIsRegex | app.py:1273-1274 | `re.search` and `String.prototype.match`: nothing exactly when the expression matches nowhere; otherwise exactly the greedy capture of the leftmost match |
| Classifier.Classify | app.py:1245-1246 | a process is skipped exactly when none of the seven relevance flags holds |
| Classifier.Branch | app.py:1277-1349 | the if/elif chain; that it is first-match over the rule table is stated by `ClassifyFollowsPriority` |
| Classifier.HeapSize | app.py:1269-1275 | the heap annotation; its meaning is stated by `HeapSizeFromFlag` |
| Classifier.GradleDaemonName | app.py:1284-1287 | the daemon's display name; its meaning is stated by `GradleDaemonNamed` |
| Classifier.EmulatorName | app.py:1295-1304 | the emulator's display name; its meaning is stated by `EmulatorNamed` |
| Classifier.StudioName | app.py:1308-1313 | the Studio display name; its meaning is stated by `StudioNamed` |
| Classifier.StudioBranch | app.py:1305-1320 | a process in the `studio` bucket took the ADB branch exactly when it is an adb server, else the main-process branch when its marker is present, else the file watcher or the browser helper |
| Classifier.IdeName | app.py:1321-1343 | the IDE product lookup; its meaning is stated by `IdeNamed` |
| Classifier.FirstFiring | app.py:1277-1349 | the index of the first rule of a table whose test holds: no earlier rule fires |
| Classifier.ClassifyFollowsPriority | app.py:1277-1349 | the chain is first-match over the priority table: the bucket is that of the first rule that fires, and `java` when none does |
| Classifier.GradleDaemonWins | app.py:1281-1283 | `GradleDaemon` in the command line makes the process relevant and puts it in `gradle`, whatever else matches |
| Classifier.GradleDaemonNamed | app.py:1284-1287 | a Gradle daemon is named `GradleDaemon <v>` exactly when `v` is the greedy capture of the leftmost `GradleDaemon\s+(\d+\.\d+)` match, and plain `GradleDaemon` exactly when that expression matches nowhere |
| Classifier.HeapSizeFromFlag | app.py:1269-1275 | the heap is empty exactly when `-Xmx(\d+[mgMG])` matches nowhere; otherwise it is the leftmost match's capture upper-cased: that flag's digits and unit, and that flag occurs |
| Classifier.EmulatorNamed | app.py:1295-1304 | an emulator is named `Emulator: <avd>` after the leftmost `-avd\s+([^\s]+)` capture; without one, `QEMU (Android Emulator)` exactly for a process name containing `qemu-system`, else `Android Emulator` |
| Classifier.StudioNamed | app.py:1305-1320 | in the `studio` bucket: `ADB Server` exactly for an adb server; the main process named after the leftmost `android-studio[/-](\d+\.\d+)` capture of the lower-cased command line, or plain `Android Studio` without one; otherwise the file watcher or the browser helper |
| Classifier.UnmatchedKeepsCommandLine | app.py:1268-1279 | a process no rule names stays in `java` under the first 100 characters of its command line; it has a Java or Studio marker and no Gradle, Kotlin, IDE or emulator one |
| Classifier.IdeNamed | app.py:1321-1343 | an IDE process carries an IDE flag and is named after the first product of the table, in the source's order, whose marker it carries; `IDE` exactly when it carries none |
| Classifier.FirstMarked | app.py:1324-1343 | the index of the first product whose marker is present: no earlier product's marker is |
| Processes.JoinArgsContains | app.py:1204 | every argument occurs in the space-joined command line |
| Processes.JoinArgs | app.py:1204 | `' '.join(cmdline)`; stated by `JoinArgsContains` |
| Processes.UserName | app.py:1251 | `pinfo['username'] or 'unknown'`: the reported owner unless it is missing or empty, and never an empty user |
| Processes.UptimeSeconds | app.py:1254-1255 | the age in seconds, 0 without a start time; its text is stated by `Uptime.FormatUptimeComponents` |
| Processes.Describe | app.py:1202-1360 | the loop body for one entry; what the loop makes of all of them is stated by `GetAllProcesses` and `EachTrackedInOneBucket` |
| Processes.GradleDaemonArgumentIsGradle | app.py:1204-1283 | a process with an argument naming `GradleDaemon` is tracked in the `gradle` bucket |
| Processes.GetAllProcesses | app.py:1199-1362 | the loop fills all six lists; each list holds exactly the records classified into it, in enumeration order |
| Processes.Bucketed | app.py:1187-1196 | the bucket dictionary always has its six keys |
| Processes.SumMemoryConcat | app.py:1409 | the memory sum of two lists concatenated is the sum of their sums |
| Processes.AddOne | app.py:1362 | appending a record to one list adds exactly that record, and its memory, to the concatenation of all six |
| Processes.EachTrackedInOneBucket | app.py:1406-1408 | the six lists concatenated are a permutation of the tracked records: same length, same multiset, same memory sum |
| Processes.TotalMemoryOfSnapshot | app.py:1406-1409 | `total_memory` is the memory of every tracked process, each counted once |
| Registry.Find | app.py:800-801 | the position of an id, or -1 exactly when absent |
| Registry.Raise | app.py:798-813 | `addAlert`; stated by `RaiseKeyed`, `RaiseRefreshes`, `RaiseAppends` and `RaiseKeys` |
| Registry.Remove | app.py:815-818 | `removeAlert`; stated by `RemoveMembers`, `RemoveAbsent`, `RemoveDeletesOne`, `RemoveKeyed` and `RemoveKeys` |
| Registry.Sweep | app.py:824-829 | the stale-alert sweep; stated by `SweepMembers`, `SweepIdempotent` and `SweepConcat` |
| Registry.RaiseKeyed | app.py:798-813 | `addAlert` keeps the ids distinct, leaves the id present, and never grows the map past 50 |
| Registry.RaiseRefreshes | app.py:799-803 | re-raising a present id changes only its time; its severity, message, position and every other entry stay |
| Registry.RaiseAppends | app.py:805-811 | a new id is appended last with the given severity, message and time; below 50 nothing else changes, at 50 the oldest entry is evicted |
| Registry.RaiseKeys | app.py:805-811 | raising adds no id but its own, and loses none unless the map was full, the id was new, and the lost id was the oldest |
| Registry.RemoveMembers | app.py:815-818 | `removeAlert` keeps exactly the entries with another id |
| Registry.RemoveAbsent | app.py:815-816 | removing an absent id leaves the map as it was |
| Registry.RemoveDeletesOne | app.py:815-816 | in a well-formed map, removing a present id deletes exactly that entry and keeps the order of the rest |
| Registry.RemoveKeyed | app.py:815-816 | removal keeps the ids distinct and leaves the id absent |
| Registry.RemoveKeys | app.py:815-816 | after removal an id is present exactly when it was present and is not the removed one |
| Registry.SweepMembers | app.py:824-829 | the cleanup sweep keeps exactly the alerts at most 300000 ms old, keeps the ids distinct, and never grows the map |
| Registry.SweepIdempotent | app.py:824-829 | sweeping twice at the same time removes nothing more |
| Registry.SweepConcat | app.py:824-829 | the sweep filters each part of the map in place, keeping the order |
| CpuHistory.FindPid | app.py:887-888 | the position of a pid, or -1 exactly when it is not tracked |
| CpuHistory.Push | app.py:889-890 | the window push; stated by `PushKeepsLatest` and `PushAllIsLatest` |
| CpuHistory.Record | app.py:886-890 | recording a reading; stated by `RecordWindows` |
| CpuHistory.Trim | app.py:831-837 | the history cap; stated by `TrimKeepsNewest` |
| CpuHistory.KeepSeen | app.py:956-958 | the dead-pid pass on the history; stated by `KeepSeenMembers`, `KeepSeenConcat` and `KeepSeenPids` |
| CpuHistory.PushKeepsLatest | app.py:889-890 | pushing onto a window of at most six readings keeps the latest six, and the new reading is last |
| CpuHistory.PushAllIsLatest | app.py:886-890 | after any run of readings the window is exactly the latest six of them |
| CpuHistory.RecordWindows | app.py:886-890 | recording pushes onto that pid's window only, appends a new pid last, and keeps pids distinct and windows bounded |
| CpuHistory.TrimKeepsNewest | app.py:831-837 | above 100 pids the earliest inserted are deleted: the newest 100 remain in order with their windows |
| CpuHistory.KeepSeenMembers | app.py:956-958 | the dead-pid pass keeps exactly the history entries of pids seen in this poll, in order |
| CpuHistory.KeepSeenConcat | app.py:956-958 | the pass filters each entry by itself and keeps the survivors in their original order: it distributes over concatenation |
| CpuHistory.KeepSeenPids | app.py:956-958 | after the pass a pid is tracked exactly when it was tracked and was seen; windows stay bounded |
| CpuHistory.KeepSeenDistinct | app.py:956-958 | the pass keeps the pids distinct |
| Detector.CpuLevel | app.py:937-943 | `danger` exactly above 80%, `warning` exactly in (50%, 80%], nothing at or below 50% |
| Detector.MemLevel | app.py:946-952 | `danger` exactly above 2 GiB, `warning` exactly in (1 GiB, 2 GiB], nothing at or below 1 GiB |
| Detector.CheckStuck | app.py:883-913 | `checkStuckProcess`; stated by `CheckStuckOutcome` and `StuckKeepsIdleAlert` |
| Detector.ProcStep | app.py:928-952 | one iteration of the `forEach`; stated by `ProcStepValid`, `ProcStepTiers` and `ProcStepKeys` |
| Detector.RunProcsSnoc | app.py:928-953 | one more process runs its step in the state the processes before it left |
| Detector.RunProcsStates | app.py:928-953 | the `forEach` is the left fold of the step over the processes in order: no processes change nothing, and each prefix's state is the step of the previous prefix's |
| Detector.RunProcsStatuses | app.py:928-953 | each process's status is the one its own step reports, in the state the processes before it left |
| Detector.ProcStepValid | app.py:883-952 | one poll step keeps both maps well formed: distinct ids, at most 50 alerts, distinct pids, windows of at most six readings |
| Detector.RunProcsValid | app.py:928-953 | the whole per-process loop keeps the state invariant |
| Detector.CheckAlertsValid | app.py:915-964 | `checkAlerts` and `cleanupStaleData` both keep the state invariant |
| Detector.CheckStuckOutcome | app.py:883-913 | the status is `stuck` exactly when the window holds six readings all above 85%; `idle` exactly when not stuck and the daemon is idle; the matching alerts are present or absent accordingly |
| Detector.StuckKeepsIdleAlert | app.py:895-898 | the early `return 'stuck'` leaves a present idle alert in place |
| Detector.ApplyOutcome | app.py:936-952 | a tier raises its alert (a new one with the tier's severity, a present one keeping its severity); no tier removes it |
| Detector.CpuTier | app.py:936-944 | for a non-stuck process the CPU alert is present exactly above 50%, new ones at the tier's severity |
| Detector.MemTier | app.py:946-952 | the memory alert is present exactly above 1 GiB, new ones at the tier's severity |
| Detector.ProcStepTiers | app.py:928-952 | with room in the map, a poll step leaves the CPU alert present exactly above 50% when not stuck, adds none when stuck, and leaves the memory alert present exactly above 1 GiB |
| Detector.StuckStepKeepsCpu | app.py:883-913 | the stuck and idle check never adds a CPU alert |
| Detector.ProcStepKeys | app.py:928-952 | a poll step adds and removes no alert but the process's own (with room), growing the map by at most three |
| Detector.RunProcsKeepsTotal | app.py:928-953 | the per-process loop never adds `total-mem`, and keeps it when there is room |
| Detector.ClearDeadMembers | app.py:956-964 | the dead-pid pass keeps exactly the alerts that do not belong to a dead pid |
| Detector.RunProcsPids | app.py:886-887 | after the poll steps a pid is tracked exactly when it was tracked before or was polled |
| Detector.TotalMemAlert | app.py:917-921 | `total-mem` is absent after a poll at or below 4 GiB; above it, it is raised, and stays to the end when there is room |
| Detector.DeadPidsCleared | app.py:955-964 | after `checkAlerts` the history tracks exactly this poll's pids; every vanished pid has none of its four alerts; no other alert is removed |
| Detector.ClearDead | app.py:956-964 | the dead-pid pass on the alerts; stated by `ClearDeadMembers` |
| Detector.Cleanup | app.py:821-841 | `cleanupStaleData`; the invariant it keeps is stated by `CheckAlertsValid` |
| Detector.CheckAlertsSpec | app.py:915-964 | `checkAlerts`; stated by `CheckAlertsValid`, `TotalMemAlert` and `DeadPidsCleared` |
| Dashboard.AlertMonitor.constructor | app.py:769-770 | both maps start empty, and the state invariant holds |
| Dashboard.AlertMonitor.FindAlert | app.py:800 | the lookup loop finds the position `Find` specifies |
| Dashboard.AlertMonitor.FindHistory | app.py:887-888 | the lookup loop finds the position `FindPid` specifies |
| Dashboard.AlertMonitor.AddAlert | app.py:798-813 | the map becomes `Raise` of the old map; the history is untouched; the map stays well formed |
| Dashboard.AlertMonitor.RemoveAlert | app.py:815-818 | the map becomes `Remove` of the old map; the history is untouched |
| Dashboard.AlertMonitor.CleanupStaleData | app.py:821-841 | the state becomes `Cleanup` of the old state, and the invariant is kept |
| Dashboard.AlertMonitor.SweepAlerts | app.py:824-829 | deleting stale alerts while walking the map leaves exactly `Sweep` of the old map |
| Dashboard.AlertMonitor.TrimHistory | app.py:831-837 | deleting the oldest pids one by one leaves exactly `Trim` of the old history |
| Dashboard.AlertMonitor.RecordReading | app.py:886-890 | the history becomes `Record` of the old one, and the window returned is the pid's new window |
| Dashboard.AlertMonitor.CheckStuckProcess | app.py:883-913 | state and status are those `CheckStuck` gives for the old state |
| Dashboard.AlertMonitor.PollProcess | app.py:928-952 | state and status are those of one `ProcStep` |
| Dashboard.AlertMonitor.ClearPidAlerts | app.py:959-962 | the four per-pid alerts of a pid are removed and nothing else changes |
| Dashboard.AlertMonitor.ForgetDeadPids | app.py:955-964 | the history keeps only the seen pids, and the alerts are cleared for every dead pid |
| Dashboard.AlertMonitor.ClearDeadAlerts | app.py:956-964 | removing the four alerts of each unseen pid in order leaves `ClearDead` of the old map |
| Dashboard.AlertMonitor.DropUnseenHistory | app.py:956-958 | deleting unseen pids while walking the history leaves `KeepSeen` of the old history |
| Dashboard.AlertMonitor.CheckAlerts | app.py:915-964 | state and statuses are exactly those of `CheckAlertsSpec` for the concatenated bucket lists; the invariant is kept |
| PortConfig.Trunc | app.py:1479 | `int()` of a float truncates toward zero: the result has the float's sign and lies within 1 of it |
| PortConfig.PortField | app.py:1472-1473 | `(request.get_json() or {}).get('port')`; stated by `MissingPort` |
| PortConfig.StripLeft | app.py:1479 | the suffix left after removing the leading whitespace `int()` skips (`str.isspace()` without U+001C-U+001F): everything removed is such whitespace, and what is left starts with another character |
| PortConfig.StripRight | app.py:1479 | the prefix left after removing the trailing whitespace `int()` skips (`str.isspace()` without U+001C-U+001F): everything removed is such whitespace, and what is left ends with another character |
| PortConfig.ParseDigits | app.py:1479 | an unsigned literal converts exactly when it is digits with single underscores between digits |
| PortConfig.ParsePyInt | app.py:1479 | `int()` on a string; stated by `ParseIntToString`, `ParsePaddedNat`, `ParseZeroPadded` and `ParseGroups` |
| PortConfig.ParseZeroPadded | app.py:1479 | leading zeros do not change the value: the digits `0…0` followed by `str(n)` convert to `n` |
| PortConfig.ParseGroups | app.py:1479 | an underscore between two digit groups is dropped: `a_b` converts, and to the same value as `ab` |
| PortConfig.ParsePaddedNat | app.py:1479 | a zero-padded decimal `str(n)` with any whitespace `int()` skips around it converts to `n` |
| PortConfig.ToInt | app.py:1478-1483 | `int()` on a JSON value; stated by `SameConversion`, `FloatPortTruncated`, `NonNumericPorts` and `SpecialFloatPorts` |
| PortConfig.ParseIntToString | app.py:1479 | round trip: `int()` of `str(n)`, surrounded by any whitespace `int()` skips, gives back `n` |
| PortConfig.SeparatorPaddedPorts | app.py:1478-1483 | a string port that begins or ends with one of U+001C-U+001F is refused by `int()` and answered 400 "Invalid port number" |
| PortConfig.Decide | app.py:1480-1500 | a converted port is accepted exactly in 1024..65535; it is reported unchanged exactly when it is the running port, and saved exactly when it differs and the save succeeds |
| PortConfig.ChangePort | app.py:1470-1500 | the route; stated by `Accepted`, `MissingPort`, `StringPortAsNumber` and `SeparatorPaddedPorts` |
| PortConfig.Accepted | app.py:1470-1486 | a port is accepted exactly when the body's `port` is truthy and converts to an integer in range; `Unchanged` means the running port, `Saved` a different one written successfully |
| PortConfig.MissingPort | app.py:1471-1483 | "Port is required" exactly for a missing or falsy port of an object body; an uncaught exception exactly for a truthy non-object body or an infinite port |
| PortConfig.StringPortAsNumber | app.py:1475-1481 | a port sent as a decimal string, padded with whitespace `int()` skips, is decided as the same number, except that `"0"` is out of range where `0` is missing |
| PortConfig.SameConversion | app.py:1478-1486 | a truthy port is decided only by the integer it converts to |
| PortConfig.FloatPortTruncated | app.py:1478-1481 | a float port is decided as its truncation toward zero |
| PortConfig.NonNumericPorts | app.py:1478-1483 | non-empty arrays and objects are invalid numbers, empty ones are missing, and `true` is out of range |
| PortConfig.SpecialFloatPorts | app.py:1478-1483 | `NaN` is an invalid number, and an infinity escapes as an uncaught exception |

## Left out

- The process table, the clock, and the file system are not read. The table is a parameter:
  one `RawProcess` per entry psutil yields. Entries that vanish or deny access while being
  read (app.py:1364-1365) are taken to be absent from that parameter.
- The working directory is kept as psutil reports it. The rewrite of the home directory to
  `~` (app.py:1259-1265) is not modelled, because it depends on the user's environment.
- Uptime is computed on whole seconds. The source subtracts float timestamps; `format_uptime`
  truncates with `int()` and `//`, which gives the same text for non-negative ages.
- `formatBytes`, `toFixed` and the alert message text are not modelled. Each message is the
  structured data it is made from (name, pid, CPU, memory, total).
- Rendering (`renderAlerts`, the process lists, the theme, the port dialog), `console`
  logging, the self-check on the dashboard's own memory (app.py:966-969) and the
  `setInterval` scheduling are not modelled. They have no effect on the two maps.
- The JavaScript `Map`s are sequences of key/value pairs searched linearly. Iterating a `Map`
  while deleting the current key is modelled as a walk over the entries present when the walk
  started. Deleting only the current key makes that equivalent.
- Dashboard.AlertMonitor.ForgetDeadPids: the source deletes a dead pid's history entry and its
  four alerts in one loop. The model makes two passes, alerts first, then history. The
  passes touch different maps, and the pid order is the history's in both, so the resulting
  state is the same.
- Detector.ProcStepTiers: stated only when the alert map has room for the step's three raises.
  On a full map, a new raise evicts the oldest alert, and that can be the process's own CPU
  alert.
- Detector.TotalMemAlert: presence of `total-mem` at the end of a poll is stated only when the
  map has room for every raise of the poll, for the same reason.
- Detector.StuckKeepsIdleAlert: stated only when raising the stuck alert cannot evict.
- Detector.ProcStepKeys: keeping other processes' alerts is stated only with room, for the
  same reason.
- Detector.RunProcsKeepsTotal: keeping `total-mem` is stated only with room, for the same
  reason.
- Flask's request parsing is not modelled: a non-JSON content type or a malformed body is
  answered before the route runs. The body arrives already parsed, or as none.
- Loading and writing the config file, and `get_port`/`CURRENT_PORT`, are not modelled. The
  running port and whether `save_config` succeeds are parameters.
- PortConfig.ParsePyInt: ASCII digits only. Python's `int()` also accepts other Unicode
  decimal digits, and it refuses strings of more than 4300 digits.
- Python's `str.lower()` and `str.upper()` are modelled on ASCII letters only, and `\d` on
  ASCII digits. Whitespace for `\s` and `strip()` is Python's full `str.isspace()` set; `int()`
  skips the same set except the separators U+001C-U+001F, which make it raise `ValueError`.
- The rest of `app.py` is not part of this model: the other routes, the HTML template, stopping
  processes and `get_app_stats`.
