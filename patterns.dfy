/** Hand-written scanners for the five regular expressions of the core:

      /(\d+)d/, /(\d+)h/, /(\d+)m/      parseUptime            app.py:874-876
      -Xmx(\d+[mgMG])                    heap annotation        app.py:1273
      GradleDaemon\s+(\d+\.\d+)          Gradle daemon version  app.py:1285
      -avd\s+([^\s]+)                    emulator AVD name      app.py:1298
      android-studio[/-](\d+\.\d+)       Android Studio version app.py:1312

    Each pattern is a literal followed by character-class runs. A regex engine tries the
    start positions left to right and, at each, takes every `+` run greedily; a shorter run
    never helps, because the character that follows a run in these patterns is never in the
    run's own class. So a match at `i` is fully determined by the maximal runs from `i`,
    which is what `MatchAt` computes, and `Search` returns the capture of the leftmost match. */
module Patterns {
  import opened Text
  import opened Wrappers

  datatype CharClass = Digits | Spaces | NonSpaces

  predicate InClass(c: char, k: CharClass) {
    match k
    case Digits => IsDigit(c)
    case Spaces => IsSpace(c)
    case NonSpaces => !IsSpace(c)
  }

  /** The end of the maximal run of `k` characters that starts at `i`. */
  function RunEnd(s: string, i: nat, k: CharClass): (j: nat)
    requires i <= |s|
    ensures i <= j <= |s|
    ensures forall m :: i <= m < j ==> InClass(s[m], k)
    ensures j < |s| ==> !InClass(s[j], k)
    decreases |s| - i
  {
    if i < |s| && InClass(s[i], k) then RunEnd(s, i + 1, k) else i
  }

  datatype Pattern =
    | UnitCount(unit: char)  // (\d+)<unit>, for a non-digit unit
    | MaxHeap                // -Xmx(\d+[mgMG])
    | GradleVersion          // GradleDaemon\s+(\d+\.\d+)
    | AvdName                // -avd\s+([^\s]+)
    | StudioVersion          // android-studio[/-](\d+\.\d+)

  /** `v` has the shape `\d+\.\d+`. */
  predicate IsVersion(v: string) {
    exists k | 0 < k < |v| - 1 :: v[k] == '.' && AllDigits(v[..k]) && AllDigits(v[k + 1..])
  }

  /** The end of a `\d+\.\d+` that starts at `j`, or -1 when there is none. */
  function VersionEnd(s: string, j: nat): (e: int)
    requires j <= |s|
    ensures e == -1 || (j + 3 <= e <= |s| && IsVersion(s[j..e]))
  {
    var d := RunEnd(s, j, Digits);
    if d > j && d < |s| && s[d] == '.' then
      var f := RunEnd(s, d + 1, Digits);
      if f > d + 1 then
        VersionOfRuns(s, j, d, f);
        f
      else -1
    else -1
  }

  /** Two digit runs joined by the dot at `d` form a version. */
  lemma VersionOfRuns(s: string, j: nat, d: nat, f: nat)
    requires j < d < f <= |s| && d + 1 < f && s[d] == '.'
    requires forall m :: j <= m < d ==> IsDigit(s[m])
    requires forall m :: d + 1 <= m < f ==> IsDigit(s[m])
    ensures IsVersion(s[j..f])
  {
    var v := s[j..f];
    var k := d - j;
    assert v[k] == '.';
    assert v[..k] == s[j..d];
    assert v[k + 1..] == s[d + 1..f];
    assert AllDigits(v[..k]) && AllDigits(v[k + 1..]);
  }

  /** The capture group of a match of `p` that starts exactly at `i`. */
  function MatchAt(p: Pattern, s: string, i: nat): (r: Option<string>)
    requires i <= |s|
    ensures p.UnitCount? && r.Some? ==> |r.value| > 0 && AllDigits(r.value)
  {
    match p
    case UnitCount(u) => UnitCountAt(s, i, u)
    case MaxHeap => MaxHeapAt(s, i)
    case GradleVersion => GradleVersionAt(s, i)
    case AvdName => AvdNameAt(s, i)
    case StudioVersion => StudioVersionAt(s, i)
  }

  function UnitCountAt(s: string, i: nat, u: char): (r: Option<string>)
    requires i <= |s|
    ensures r.Some? ==> |r.value| > 0 && AllDigits(r.value)
  {
    var d := RunEnd(s, i, Digits);
    if d > i && d < |s| && s[d] == u then Some(s[i..d]) else None
  }

  function MaxHeapAt(s: string, i: nat): (r: Option<string>)
    requires i <= |s|
    ensures r.Some? ==> StartsAt(s, i, "-Xmx") && StartsAt(s, i + 4, r.value)
    ensures r.Some? ==> |r.value| >= 2 && AllDigits(r.value[..|r.value| - 1]) && r.value[|r.value| - 1] in "mgMG"
  {
    if !StartsAt(s, i, "-Xmx") then None
    else
      var d := RunEnd(s, i + 4, Digits);
      if d > i + 4 && d < |s| && s[d] in "mgMG" then
        assert s[i + 4..d + 1][..d - i - 4] == s[i + 4..d];
        Some(s[i + 4..d + 1])
      else None
  }

  function GradleVersionAt(s: string, i: nat): (r: Option<string>)
    requires i <= |s|
    ensures r.Some? ==> StartsAt(s, i, "GradleDaemon") && IsVersion(r.value) && Contains(s, r.value)
  {
    if !StartsAt(s, i, "GradleDaemon") then None
    else
      var w := RunEnd(s, i + 12, Spaces);
      var e := VersionEnd(s, w);
      if w > i + 12 && e >= 0 then
        assert StartsAt(s, w, s[w..e]);
        Some(s[w..e])
      else None
  }

  function AvdNameAt(s: string, i: nat): (r: Option<string>)
    requires i <= |s|
    ensures r.Some? ==> StartsAt(s, i, "-avd") && Contains(s, r.value)
    ensures r.Some? ==> |r.value| > 0 && forall k :: 0 <= k < |r.value| ==> !IsSpace(r.value[k])
  {
    if !StartsAt(s, i, "-avd") then None
    else
      var w := RunEnd(s, i + 4, Spaces);
      var e := RunEnd(s, w, NonSpaces);
      if w > i + 4 && e > w then
        assert StartsAt(s, w, s[w..e]);
        Some(s[w..e])
      else None
  }

  function StudioVersionAt(s: string, i: nat): (r: Option<string>)
    requires i <= |s|
    ensures r.Some? ==> IsVersion(r.value)
  {
    if !StartsAt(s, i, "android-studio") || i + 14 >= |s| || s[i + 14] !in "/-" then None
    else
      var e := VersionEnd(s, i + 15);
      if e >= 0 then Some(s[i + 15..e]) else None
  }

  /** No match of `p` starts anywhere in `[i, j)`. */
  predicate NoMatchBetween(p: Pattern, s: string, i: nat, j: nat)
    requires j <= |s| + 1
  {
    forall k | i <= k < j :: MatchAt(p, s, k).None?
  }

  /** `re.search` / `String.prototype.match`: the capture of the leftmost match at or after `i`. */
  function SearchFrom(p: Pattern, s: string, i: nat): (r: Option<string>)
    requires i <= |s|
    ensures p.UnitCount? && r.Some? ==> |r.value| > 0 && AllDigits(r.value)
    decreases |s| - i
  {
    if MatchAt(p, s, i).Some? then MatchAt(p, s, i)
    else if i == |s| then None
    else SearchFrom(p, s, i + 1)
  }

  /** The first position at or after `i` where `p` matches, or `|s| + 1` when there is none. */
  function FirstMatchIndex(p: Pattern, s: string, i: nat): (j: nat)
    requires i <= |s| + 1
    ensures i <= j <= |s| + 1
    ensures NoMatchBetween(p, s, i, j)
    ensures j <= |s| ==> MatchAt(p, s, j).Some?
    decreases |s| + 1 - i
  {
    if i > |s| || MatchAt(p, s, i).Some? then i else FirstMatchIndex(p, s, i + 1)
  }

  /** `SearchFrom` reports the capture at the leftmost matching position, and nothing when no
      position matches. */
  lemma {:induction false} SearchFromIsLeftmost(p: Pattern, s: string, i: nat)
    requires i <= |s|
    ensures var j := FirstMatchIndex(p, s, i);
      SearchFrom(p, s, i) == if j <= |s| then MatchAt(p, s, j) else None
    decreases |s| - i
  {
    if MatchAt(p, s, i).None? && i < |s| {
      SearchFromIsLeftmost(p, s, i + 1);
    }
  }

  function Search(p: Pattern, s: string): Option<string> {
    SearchFrom(p, s, 0)
  }

  /** A match with nothing before it is the one `Search` reports. */
  lemma SearchFindsLeftmost(p: Pattern, s: string, j: nat)
    requires j <= |s| && MatchAt(p, s, j).Some? && NoMatchBetween(p, s, 0, j)
    ensures Search(p, s) == MatchAt(p, s, j)
  {
    SearchFromIsLeftmost(p, s, 0);
  }

  /** `Search` finds nothing exactly when no position matches. */
  lemma SearchFindsNothing(p: Pattern, s: string)
    ensures Search(p, s).None? <==> NoMatchBetween(p, s, 0, |s| + 1)
  {
    SearchFromIsLeftmost(p, s, 0);
    var j := FirstMatchIndex(p, s, 0);
    if j <= |s| {
      assert !NoMatchBetween(p, s, 0, |s| + 1) by { assert MatchAt(p, s, j).Some?; }
    }
  }

  // ---- The regular expressions' own meaning, and the scanners proved against it ----

  /** `s[a..b]` is a non-empty run of whitespace and `v` follows it: `\s+` then `v`. */
  predicate AfterSpaces(s: string, a: nat, v: string) {
    exists w | a < w <= |s| :: SpaceRun(s, a, w) && StartsAt(s, w, v)
  }

  predicate SpaceRun(s: string, a: nat, w: nat) {
    a <= w <= |s| && forall m :: a <= m < w ==> IsSpace(s[m])
  }

  predicate NoSpaceIn(v: string) {
    forall k :: 0 <= k < |v| ==> !IsSpace(v[k])
  }

  /** The regular expression `p` matches at `i` with capture `v`, read off the pattern
      directly, with no reference to how the scanners work. */
  predicate Matches(p: Pattern, s: string, i: nat, v: string) {
    match p
    case UnitCount(u) => |v| > 0 && AllDigits(v) && StartsAt(s, i, v + [u])
    case MaxHeap =>
      && StartsAt(s, i, "-Xmx") && StartsAt(s, i + 4, v)
      && |v| >= 2 && AllDigits(v[..|v| - 1]) && v[|v| - 1] in "mgMG"
    case GradleVersion => StartsAt(s, i, "GradleDaemon") && IsVersion(v) && AfterSpaces(s, i + 12, v)
    case AvdName => StartsAt(s, i, "-avd") && |v| > 0 && NoSpaceIn(v) && AfterSpaces(s, i + 4, v)
    case StudioVersion =>
      && StartsAt(s, i, "android-studio") && i + 14 < |s| && s[i + 14] in "/-"
      && IsVersion(v) && StartsAt(s, i + 15, v)
  }

  /** The scanner for `p` at `i` agrees with the regular expression: it captures exactly when
      the expression matches there, and its capture is the greedy one, of which every other
      possible capture is a prefix. */
  ghost predicate ScansAsRegex(p: Pattern, s: string, i: nat)
    requires i <= |s|
  {
    && (MatchAt(p, s, i).Some? ==> Matches(p, s, i, MatchAt(p, s, i).value))
    && (forall v :: Matches(p, s, i, v) ==> MatchAt(p, s, i).Some? && v <= MatchAt(p, s, i).value)
  }

  /** A run that is all in the class and stops at a character outside it is the maximal run. */
  lemma {:induction false} RunEndAt(s: string, a: nat, b: nat, k: CharClass)
    requires a <= b <= |s|
    requires forall m :: a <= m < b ==> InClass(s[m], k)
    requires b == |s| || !InClass(s[b], k)
    ensures RunEnd(s, a, k) == b
    decreases b - a
  {
    if a < b {
      RunEndAt(s, a + 1, b, k);
    }
  }

  /** The maximal run reaches at least as far as any run of the class. */
  lemma {:induction false} RunEndPast(s: string, a: nat, b: nat, k: CharClass)
    requires a <= b <= |s|
    requires forall m :: a <= m < b ==> InClass(s[m], k)
    ensures RunEnd(s, a, k) >= b
    decreases b - a
  {
    if a < b {
      RunEndPast(s, a + 1, b, k);
    }
  }

  /** `v` occurs at `j` as a prefix of what it stands in front of. */
  lemma PrefixAt(s: string, j: nat, v: string, e: nat)
    requires StartsAt(s, j, v) && j + |v| <= e <= |s|
    ensures v <= s[j..e]
  {
    assert s[j..e][..|v|] == s[j..j + |v|];
  }

  /** A version `v` at `j` is scanned to an end at least as far as `v` reaches. */
  lemma VersionEndOf(s: string, j: nat, v: string)
    requires StartsAt(s, j, v) && IsVersion(v)
    ensures VersionEnd(s, j) >= j + |v|
  {
    var k :| 0 < k < |v| - 1 && v[k] == '.' && AllDigits(v[..k]) && AllDigits(v[k + 1..]);
    assert forall m :: 0 <= m < |v| ==> s[j + m] == v[m] by {
      forall m | 0 <= m < |v| ensures s[j + m] == v[m] {
        assert s[j..j + |v|][m] == v[m];
      }
    }
    forall m | j <= m < j + k ensures IsDigit(s[m]) {
      assert v[..k][m - j] == v[m - j];
    }
    RunEndAt(s, j, j + k, Digits);
    forall m | j + k + 1 <= m < j + |v| ensures IsDigit(s[m]) {
      assert v[k + 1..][m - j - k - 1] == v[m - j];
    }
    RunEndPast(s, j + k + 1, j + |v|, Digits);
  }

  /** A version starts with a digit. */
  lemma VersionStartsWithDigit(v: string)
    requires IsVersion(v)
    ensures |v| > 0 && IsDigit(v[0])
  {
    var k :| 0 < k < |v| - 1 && v[k] == '.' && AllDigits(v[..k]) && AllDigits(v[k + 1..]);
    assert v[..k][0] == v[0];
  }

  /** `(\d+)<unit>` for a non-digit unit: the digits before the unit, which are unique. */
  lemma UnitCountRegex(s: string, i: nat, u: char)
    requires i <= |s| && !IsDigit(u)
    ensures ScansAsRegex(UnitCount(u), s, i)
  {
    var r := MatchAt(UnitCount(u), s, i);
    if r.Some? {
      var d := RunEnd(s, i, Digits);
      assert s[i..d + 1] == s[i..d] + [u];
    }
    forall v | Matches(UnitCount(u), s, i, v) ensures r.Some? && v <= r.value {
      assert forall m :: 0 <= m < |v| ==> s[i + m] == v[m] by {
        forall m | 0 <= m < |v| ensures s[i + m] == v[m] {
          assert s[i..i + |v| + 1][m] == (v + [u])[m];
        }
      }
      assert s[i + |v|] == s[i..i + |v| + 1][|v|] == u;
      RunEndAt(s, i, i + |v|, Digits);
      assert s[i..i + |v|] == s[i..i + |v| + 1][..|v|] == v;
    }
  }

  /** `-Xmx(\d+[mgMG])`: the digits and the unit letter after the flag, which are unique. */
  lemma MaxHeapRegex(s: string, i: nat)
    requires i <= |s|
    ensures ScansAsRegex(MaxHeap, s, i)
  {
    var r := MatchAt(MaxHeap, s, i);
    forall v | Matches(MaxHeap, s, i, v) ensures r.Some? && v <= r.value {
      var d := i + 3 + |v|;
      forall m | i + 4 <= m < d ensures IsDigit(s[m]) {
        assert s[i + 4..i + 4 + |v|][m - i - 4] == v[m - i - 4] == v[..|v| - 1][m - i - 4];
      }
      assert s[d] == s[i + 4..i + 4 + |v|][|v| - 1] == v[|v| - 1];
      RunEndAt(s, i + 4, d, Digits);
      assert s[i + 4..d + 1] == v;
    }
  }

  /** `GradleDaemon\s+(\d+\.\d+)`: the longest version after the marker and its whitespace. */
  lemma GradleVersionRegex(s: string, i: nat)
    requires i <= |s|
    ensures ScansAsRegex(GradleVersion, s, i)
  {
    var r := MatchAt(GradleVersion, s, i);
    if r.Some? {
      var w := RunEnd(s, i + 12, Spaces);
      assert SpaceRun(s, i + 12, w) && StartsAt(s, w, r.value);
    }
    forall v | Matches(GradleVersion, s, i, v) ensures r.Some? && v <= r.value {
      var w :| i + 12 < w <= |s| && SpaceRun(s, i + 12, w) && StartsAt(s, w, v);
      VersionStartsWithDigit(v);
      assert s[w] == s[w..w + |v|][0] == v[0];
      RunEndAt(s, i + 12, w, Spaces);
      VersionEndOf(s, w, v);
      PrefixAt(s, w, v, VersionEnd(s, w));
    }
  }

  /** `-avd\s+([^\s]+)`: the whole token after the flag and its whitespace. */
  lemma AvdNameRegex(s: string, i: nat)
    requires i <= |s|
    ensures ScansAsRegex(AvdName, s, i)
  {
    var r := MatchAt(AvdName, s, i);
    if r.Some? {
      var w := RunEnd(s, i + 4, Spaces);
      assert SpaceRun(s, i + 4, w) && StartsAt(s, w, r.value);
    }
    forall v | Matches(AvdName, s, i, v) ensures r.Some? && v <= r.value {
      var w :| i + 4 < w <= |s| && SpaceRun(s, i + 4, w) && StartsAt(s, w, v);
      forall m | w <= m < w + |v| ensures !IsSpace(s[m]) {
        assert s[w..w + |v|][m - w] == v[m - w];
      }
      RunEndAt(s, i + 4, w, Spaces);
      RunEndPast(s, w, w + |v|, NonSpaces);
      PrefixAt(s, w, v, RunEnd(s, w, NonSpaces));
    }
  }

  /** `android-studio[/-](\d+\.\d+)`: the longest version after the marker and separator. */
  lemma StudioVersionRegex(s: string, i: nat)
    requires i <= |s|
    ensures ScansAsRegex(StudioVersion, s, i)
  {
    var r := MatchAt(StudioVersion, s, i);
    if r.Some? {
      assert StartsAt(s, i + 15, r.value);
    }
    forall v | Matches(StudioVersion, s, i, v) ensures r.Some? && v <= r.value {
      VersionEndOf(s, i + 15, v);
      PrefixAt(s, i + 15, v, VersionEnd(s, i + 15));
    }
  }

  lemma MatchAtIsRegex(p: Pattern, s: string, i: nat)
    requires i <= |s| && (p.UnitCount? ==> !IsDigit(p.unit))
    ensures ScansAsRegex(p, s, i)
  {
    match p
    case UnitCount(u) => UnitCountRegex(s, i, u);
    case MaxHeap => MaxHeapRegex(s, i);
    case GradleVersion => GradleVersionRegex(s, i);
    case AvdName => AvdNameRegex(s, i);
    case StudioVersion => StudioVersionRegex(s, i);
  }

  /** `p` matches nowhere in `s`. */
  ghost predicate NoMatch(p: Pattern, s: string) {
    forall k, v :: 0 <= k <= |s| ==> !Matches(p, s, k, v)
  }

  /** `v` is the capture of the leftmost match, which starts at `j`, taken greedily. */
  ghost predicate Leftmost(p: Pattern, s: string, j: nat, v: string) {
    && j <= |s| && Matches(p, s, j, v)
    && (forall k, u :: 0 <= k < j ==> !Matches(p, s, k, u))
    && (forall u :: Matches(p, s, j, u) ==> u <= v)
  }

  /** `v` is the capture `re.search` (or `String.prototype.match`) reports for `p` in `s`. */
  ghost predicate Found(p: Pattern, s: string, v: string) {
    exists j | 0 <= j <= |s| :: Leftmost(p, s, j, v)
  }

  /** `Search` is the regular-expression search: nothing exactly when the expression matches
      nowhere, and otherwise exactly the greedy capture of the leftmost match. */
  lemma SearchIsRegex(p: Pattern, s: string)
    requires p.UnitCount? ==> !IsDigit(p.unit)
    ensures Search(p, s).None? <==> NoMatch(p, s)
    ensures forall v :: Found(p, s, v) <==> Search(p, s) == Some(v)
  {
    SearchFromIsLeftmost(p, s, 0);
    var j := FirstMatchIndex(p, s, 0);
    forall k, u | 0 <= k < j && k <= |s| ensures !Matches(p, s, k, u) {
      MatchAtIsRegex(p, s, k);
      assert MatchAt(p, s, k).None?;
    }
    if j <= |s| {
      var r := MatchAt(p, s, j).value;
      MatchAtIsRegex(p, s, j);
      assert Leftmost(p, s, j, r);
      forall v | Found(p, s, v) ensures v == r {
        var j' :| 0 <= j' <= |s| && Leftmost(p, s, j', v);
        if j' < j {
          assert false;
        } else if j < j' {
          assert false;
        }
        assert v <= r && r <= v;
      }
      assert Found(p, s, r);
    }
  }
}
