/** The uptime text shown for every process: `format_uptime` on the server (app.py:1171-1184)
    and its reader `parseUptime` in the dashboard script (app.py:871-881), whose value in
    minutes drives idle-daemon detection. Seconds are whole seconds. */
module Uptime {
  import opened Text
  import opened Wrappers
  import opened Patterns

  const SecondsPerMinute := 60
  const SecondsPerHour := 3600
  const SecondsPerDay := 86400

  /** `format_uptime`: "Ns" below a minute, "Mm Ss" below an hour, "Hh Mm" below a day,
      "Dd Hh" beyond. A negative age (clock moved backwards) prints as "-Ns". */
  function FormatUptime(seconds: int): string {
    if seconds < SecondsPerMinute then
      IntToString(seconds) + "s"
    else if seconds < SecondsPerHour then
      NatToString(seconds / 60) + "m " + NatToString(seconds % 60) + "s"
    else if seconds < SecondsPerDay then
      NatToString(seconds / 3600) + "h " + NatToString(seconds % 3600 / 60) + "m"
    else
      NatToString(seconds / 86400) + "d " + NatToString(seconds % 86400 / 3600) + "h"
  }

  /** The number in front of the first `unit` in `s` (`s.match(/(\d+)<unit>/)`), or 0 when none. */
  function UnitValue(s: string, unit: char): nat {
    match Search(UnitCount(unit), s)
    case Some(d) => DigitsValue(d)
    case None => 0
  }

  /** `parseUptime`: days, hours and minutes found in the text, in minutes; seconds are ignored. */
  function ParseUptime(s: string): nat {
    UnitValue(s, 'd') * 24 * 60 + UnitValue(s, 'h') * 60 + UnitValue(s, 'm')
  }

  // ---- How the scanner reads the text `FormatUptime` builds ----

  lemma {:induction false} MatchShift(u: char, a: string, b: string, k: nat)
    requires k <= |b|
    ensures MatchAt(UnitCount(u), a + b, |a| + k) == MatchAt(UnitCount(u), b, k)
  {
    var s := a + b;
    var d := RunEnd(s, |a| + k, Digits);
    var e := RunEnd(b, k, Digits);
    assert forall m :: k <= m < |b| ==> s[|a| + m] == b[m];
    assert d == |a| + e;
    if d > |a| + k && d < |s| {
      assert s[|a| + k..d] == b[k..e];
    }
  }

  lemma {:induction false} SearchShift(u: char, a: string, b: string, k: nat)
    requires k <= |b|
    ensures SearchFrom(UnitCount(u), a + b, |a| + k) == SearchFrom(UnitCount(u), b, k)
    decreases |b| - k
  {
    var p := UnitCount(u);
    MatchShift(u, a, b, k);
    if MatchAt(p, b, k).None? && k < |b| {
      SearchShift(u, a, b, k + 1);
      assert SearchFrom(p, a + b, |a| + k) == SearchFrom(p, a + b, |a| + k + 1);
      assert SearchFrom(p, b, k) == SearchFrom(p, b, k + 1);
    }
  }

  lemma {:induction false} SearchSkip(u: char, s: string, i: nat, j: nat)
    requires i <= j <= |s| && NoMatchBetween(UnitCount(u), s, i, j)
    ensures SearchFrom(UnitCount(u), s, i) == SearchFrom(UnitCount(u), s, j)
    decreases j - i
  {
    if i < j {
      SearchSkip(u, s, i + 1, j);
    }
  }

  /** A number followed by a non-digit other than the unit is passed over. */
  lemma SearchPast(x: nat, c: char, rest: string, u: char)
    requires !IsDigit(c) && c != u
    ensures Search(UnitCount(u), NatToString(x) + [c] + rest) == Search(UnitCount(u), rest)
  {
    var n := NatToString(x);
    var s := n + [c] + rest;
    assert s[|n|] == c;
    forall k | 0 <= k < |n| + 1 ensures MatchAt(UnitCount(u), s, k).None? {
      assert forall m :: k <= m < |n| ==> s[m] == n[m];
      assert RunEnd(s, k, Digits) == if k < |n| then |n| else k;
    }
    SearchSkip(u, s, 0, |n| + 1);
    assert s == (n + [c]) + rest;
    SearchShift(u, n + [c], rest, 0);
  }

  /** A number followed by the unit is what is found. */
  lemma SearchHit(x: nat, u: char, rest: string)
    requires !IsDigit(u)
    ensures Search(UnitCount(u), NatToString(x) + [u] + rest) == Some(NatToString(x))
  {
    var n := NatToString(x);
    var s := n + [u] + rest;
    assert s[|n|] == u;
    assert forall m :: 0 <= m < |n| ==> s[m] == n[m];
    assert RunEnd(s, 0, Digits) == |n|;
    assert s[0..|n|] == n;
  }

  /** A leading non-digit is passed over. */
  lemma SearchSkipChar(c: char, rest: string, u: char)
    requires !IsDigit(c)
    ensures Search(UnitCount(u), [c] + rest) == Search(UnitCount(u), rest)
  {
    var s := [c] + rest;
    assert RunEnd(s, 0, Digits) == 0;
    SearchSkip(u, s, 0, 1);
    SearchShift(u, [c], rest, 0);
  }

  lemma SearchEmpty(u: char)
    ensures Search(UnitCount(u), []) == None
  {
    assert RunEnd([], 0, Digits) == 0;
  }

  /** The two-component text `X<a> Y<b>`, read for every unit. */
  lemma UnitsOfPair(x: nat, a: char, y: nat, b: char, u: char)
    requires !IsDigit(a) && !IsDigit(b) && !IsDigit(u) && a != b
    ensures UnitValue(NatToString(x) + [a] + " " + NatToString(y) + [b], u)
         == if u == a then x else if u == b then y else 0
  {
    var s := NatToString(x) + [a] + " " + NatToString(y) + [b];
    var tail := NatToString(y) + [b] + [];
    assert s == NatToString(x) + [a] + ([' '] + tail);
    DigitsValueOfNatToString(x);
    DigitsValueOfNatToString(y);
    if u == a {
      SearchHit(x, a, [' '] + tail);
    } else {
      SearchPast(x, a, [' '] + tail, u);
      SearchSkipChar(' ', tail, u);
      if u == b {
        SearchHit(y, b, []);
      } else {
        SearchPast(y, b, [], u);
        SearchEmpty(u);
      }
    }
  }

  /** The one-component text `X<a>`, read for every unit. */
  lemma UnitsOfSingle(x: nat, a: char, u: char)
    requires !IsDigit(a) && !IsDigit(u)
    ensures UnitValue(NatToString(x) + [a], u) == if u == a then x else 0
  {
    var s := NatToString(x) + [a];
    assert s == NatToString(x) + [a] + [];
    DigitsValueOfNatToString(x);
    if u == a {
      SearchHit(x, a, []);
    } else {
      SearchPast(x, a, [], u);
      SearchEmpty(u);
    }
  }

  // ---- What the uptime text says ----

  /** The texts of the four brackets, written as number, unit letter, space, number, unit letter. */
  lemma FormatUptimeShape(seconds: int)
    ensures 60 <= seconds < 3600 ==>
      FormatUptime(seconds) == NatToString(seconds / 60) + ['m'] + " " + NatToString(seconds % 60) + ['s']
    ensures 3600 <= seconds < 86400 ==>
      FormatUptime(seconds) == NatToString(seconds / 3600) + ['h'] + " " + NatToString(seconds % 3600 / 60) + ['m']
    ensures 86400 <= seconds ==>
      FormatUptime(seconds) == NatToString(seconds / 86400) + ['d'] + " " + NatToString(seconds % 86400 / 3600) + ['h']
  {
  }

  /** Each bracket names its two units, the lower one below its modulus, and together they
      give the age truncated to the lower unit; seconds are exact below an hour. */
  lemma FormatUptimeComponents(seconds: int)
    requires seconds >= 0
    ensures var t := FormatUptime(seconds);
      var d, h, m, s := UnitValue(t, 'd'), UnitValue(t, 'h'), UnitValue(t, 'm'), UnitValue(t, 's');
      && (seconds < 60 ==> d == 0 && h == 0 && m == 0 && s == seconds)
      && (60 <= seconds < 3600 ==> d == 0 && h == 0 && s < 60 && m * 60 + s == seconds)
      && (3600 <= seconds < 86400 ==>
            d == 0 && s == 0 && m < 60 && h * 3600 + m * 60 <= seconds < h * 3600 + m * 60 + 60)
      && (86400 <= seconds ==>
            m == 0 && s == 0 && h < 24 && d * 86400 + h * 3600 <= seconds < d * 86400 + h * 3600 + 3600)
  {
    FormatUptimeShape(seconds);
    if seconds < 60 {
      forall u | u in "dhms" ensures UnitValue(FormatUptime(seconds), u) == if u == 's' then seconds else 0 {
        UnitsOfSingle(seconds, 's', u);
      }
    } else if seconds < 3600 {
      forall u | u in "dhms" ensures UnitValue(FormatUptime(seconds), u)
        == if u == 'm' then seconds / 60 else if u == 's' then seconds % 60 else 0 {
        UnitsOfPair(seconds / 60, 'm', seconds % 60, 's', u);
      }
    } else if seconds < 86400 {
      forall u | u in "dhms" ensures UnitValue(FormatUptime(seconds), u)
        == if u == 'h' then seconds / 3600 else if u == 'm' then seconds % 3600 / 60 else 0 {
        UnitsOfPair(seconds / 3600, 'h', seconds % 3600 / 60, 'm', u);
      }
    } else {
      forall u | u in "dhms" ensures UnitValue(FormatUptime(seconds), u)
        == if u == 'd' then seconds / 86400 else if u == 'h' then seconds % 86400 / 3600 else 0 {
        UnitsOfPair(seconds / 86400, 'd', seconds % 86400 / 3600, 'h', u);
      }
    }
  }

  /** Reading back the uptime text gives the whole minutes of the age below a day; beyond a
      day the minutes are not printed, so only whole hours come back. A negative age reads as 0. */
  lemma ParseFormatUptime(seconds: int)
    ensures seconds < 0 ==> ParseUptime(FormatUptime(seconds)) == 0
    ensures 0 <= seconds < 86400 ==> ParseUptime(FormatUptime(seconds)) == seconds / 60
    ensures 86400 <= seconds ==> ParseUptime(FormatUptime(seconds)) == seconds / 3600 * 60
    ensures 0 <= seconds ==> ParseUptime(FormatUptime(seconds)) <= seconds / 60
  {
    var t := FormatUptime(seconds);
    if seconds < 0 {
      var n := NatToString(-seconds);
      assert t == ['-'] + (n + ['s']);
      forall u | u in "dhm" ensures UnitValue(t, u) == 0 {
        SearchSkipChar('-', n + ['s'], u);
        UnitsOfSingle(-seconds, 's', u);
      }
    } else {
      FormatUptimeComponents(seconds);
      var d, h, m := UnitValue(t, 'd'), UnitValue(t, 'h'), UnitValue(t, 'm');
      assert ParseUptime(t) == d * 1440 + h * 60 + m;
      if seconds < 3600 {
        assert d == 0 && h == 0;
      } else if seconds < 86400 {
        assert d == 0;
        assert h * 60 + m == seconds / 60;
      } else {
        assert m == 0;
        assert d * 24 + h == seconds / 3600;
      }
    }
  }

  /** The idle test's "uptime over 30 minutes", on a server-formatted uptime, holds exactly
      from 31 minutes of age on. */
  lemma IdleUptimeThreshold(seconds: int)
    ensures ParseUptime(FormatUptime(seconds)) > 30 <==> seconds >= 31 * 60
  {
    ParseFormatUptime(seconds);
  }
}
