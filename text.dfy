/** Text helpers shared by the classifier, the uptime codec and the port parser.
    Python's `str.lower()`, `str.upper()` and the regex class `\d` are modelled on ASCII
    only; whitespace is Python's full set. */
module Text {

  predicate IsDigit(c: char) { '0' <= c <= '9' }

  /** Python's whitespace (`str.isspace()`), which `\s` in a `re` pattern and `str.strip()`
      use: the ASCII blanks, the separators U+001C-U+001F, and the Unicode spaces. */
  predicate IsSpace(c: char) {
    || c == ' ' || '\t' <= c <= '\r' || '\U{001C}' <= c <= '\U{001F}'
    || c == '\U{0085}' || c == '\U{00A0}' || c == '\U{1680}' || '\U{2000}' <= c <= '\U{200A}'
    || c == '\U{2028}' || c == '\U{2029}' || c == '\U{202F}' || c == '\U{205F}' || c == '\U{3000}'
  }

  function LowerChar(c: char): (r: char)
    ensures IsDigit(r) <==> IsDigit(c)
  {
    if 'A' <= c <= 'Z' then (c as int + 32) as char else c
  }

  function UpperChar(c: char): char {
    if 'a' <= c <= 'z' then (c as int - 32) as char else c
  }

  /** `s.lower()` on ASCII. */
  function Lower(s: string): (r: string)
    ensures |r| == |s|
    ensures forall i :: 0 <= i < |s| ==> r[i] == LowerChar(s[i])
  {
    seq(|s|, i requires 0 <= i < |s| => LowerChar(s[i]))
  }

  /** `s.upper()` on ASCII. */
  function Upper(s: string): (r: string)
    ensures |r| == |s|
    ensures forall i :: 0 <= i < |s| ==> r[i] == UpperChar(s[i])
  {
    seq(|s|, i requires 0 <= i < |s| => UpperChar(s[i]))
  }

  /** `s[:n]` in Python. */
  function Take(s: string, n: nat): (r: string)
    ensures |r| == if |s| < n then |s| else n
    ensures r == s[..|r|]
  {
    if |s| < n then s else s[..n]
  }

  /** `sub` occurs in `s` starting at index `i`. */
  predicate StartsAt(s: string, i: int, sub: string) {
    0 <= i && i + |sub| <= |s| && s[i..i + |sub|] == sub
  }

  /** Python's `sub in s` and JavaScript's `s.includes(sub)`. */
  predicate Contains(s: string, sub: string) {
    exists i | 0 <= i <= |s| :: StartsAt(s, i, sub)
  }

  /** Case-folding keeps an occurrence: `sub in s` implies `sub.lower() in s.lower()`. */
  lemma ContainsLower(s: string, sub: string)
    requires Contains(s, sub)
    ensures Contains(Lower(s), Lower(sub))
  {
    var i :| 0 <= i <= |s| && StartsAt(s, i, sub);
    assert Lower(s)[i..i + |sub|] == Lower(sub) by {
      forall k | 0 <= k < |sub| ensures Lower(s)[i..i + |sub|][k] == Lower(sub)[k] {
        assert s[i..i + |sub|][k] == sub[k];
      }
    }
    assert StartsAt(Lower(s), i, Lower(sub));
  }

  /** An occurrence inside a prefix or suffix is an occurrence in the whole. */
  lemma ContainsInfix(a: string, b: string, c: string, sub: string)
    requires Contains(b, sub)
    ensures Contains(a + b + c, sub)
  {
    var i :| 0 <= i <= |b| && StartsAt(b, i, sub);
    assert (a + b + c)[|a| + i..|a| + i + |sub|] == b[i..i + |sub|];
    assert StartsAt(a + b + c, |a| + i, sub);
  }

  /** An occurrence of `a + b` contains an occurrence of `a`. */
  lemma ContainsPrefix(s: string, a: string, b: string)
    requires Contains(s, a + b)
    ensures Contains(s, a)
  {
    var i :| 0 <= i <= |s| && StartsAt(s, i, a + b);
    assert s[i..i + |a|] == s[i..i + |a + b|][..|a|] == (a + b)[..|a|] == a;
    assert StartsAt(s, i, a);
  }

  /** A character that never occurs in `s` cannot start an occurrence there. */
  lemma AbsentChar(s: string, c: char)
    requires forall k :: 0 <= k < |s| ==> s[k] != c
    ensures !Contains(s, [c])
  {
    forall i | 0 <= i <= |s| ensures !StartsAt(s, i, [c]) {
      if i + 1 <= |s| {
        assert s[i..i + 1][0] == s[i];
      }
    }
  }

  function DigitChar(d: nat): (c: char)
    requires d < 10
    ensures IsDigit(c)
  {
    ('0' as int + d) as char
  }

  function DigitValue(c: char): (d: nat)
    requires IsDigit(c)
    ensures d < 10
  {
    c as int - '0' as int
  }

  predicate AllDigits(s: string) {
    forall k :: 0 <= k < |s| ==> IsDigit(s[k])
  }

  /** Decimal rendering of a natural number, as Python's `str(n)` and JavaScript's template literals. */
  function NatToString(n: nat): (r: string)
    ensures |r| > 0 && AllDigits(r)
    ensures n < 10 <==> |r| == 1
    decreases n
  {
    if n < 10 then [DigitChar(n)] else NatToString(n / 10) + [DigitChar(n % 10)]
  }

  /** Decimal rendering of an integer, with a leading '-' when negative. */
  function IntToString(n: int): (r: string)
    ensures |r| > 0
    ensures n >= 0 ==> AllDigits(r)
    ensures n < 0 ==> r[0] == '-' && AllDigits(r[1..])
  {
    if n >= 0 then NatToString(n) else "-" + NatToString(-n)
  }

  /** The value of a non-empty run of decimal digits (`parseInt` / `int` on digits only). */
  function DigitsValue(s: string): (v: nat)
    requires AllDigits(s)
    ensures |s| == 1 ==> v == DigitValue(s[0])
    decreases |s|
  {
    if s == [] then 0 else DigitsValue(s[..|s| - 1]) * 10 + DigitValue(s[|s| - 1])
  }

  function Pow10(k: nat): (r: nat)
    ensures r >= 1
  {
    if k == 0 then 1 else 10 * Pow10(k - 1)
  }

  /** Reading digits is positional: the digits of `a` are worth `10^|b|` times more. */
  lemma {:induction false} DigitsValueConcat(a: string, b: string)
    requires AllDigits(a) && AllDigits(b)
    ensures DigitsValue(a + b) == DigitsValue(a) * Pow10(|b|) + DigitsValue(b)
    decreases |b|
  {
    if b == [] {
      assert a + b == a;
    } else {
      var init := b[..|b| - 1];
      var d := DigitValue(b[|b| - 1]);
      assert (a + b)[..|a + b| - 1] == a + init;
      assert (a + b)[|a + b| - 1] == b[|b| - 1];
      DigitsValueConcat(a, init);
      var x, p, y := DigitsValue(a), Pow10(|init|), DigitsValue(init);
      assert DigitsValue(a + b) == DigitsValue(a + init) * 10 + d;
      assert b[..|b| - 1] == init;
      assert DigitsValue(b) == y * 10 + d;
      assert Pow10(|b|) == p * 10;
      ShiftDigit(x, p, y, d);
    }
  }

  /** Appending a digit to `x·p + y` multiplies the shift `p` by ten. */
  lemma ShiftDigit(x: nat, p: nat, y: nat, d: nat)
    ensures (x * p + y) * 10 + d == x * (p * 10) + (y * 10 + d)
  {
  }

  /** A run of zeros reads as 0. */
  lemma {:induction false} ZerosValue(zs: string)
    requires forall k :: 0 <= k < |zs| ==> zs[k] == '0'
    ensures AllDigits(zs) && DigitsValue(zs) == 0
    decreases |zs|
  {
    if zs != [] {
      ZerosValue(zs[..|zs| - 1]);
    }
  }

  lemma {:induction false} DigitsValueOfNatToString(n: nat)
    ensures DigitsValue(NatToString(n)) == n
    decreases n
  {
    if n >= 10 {
      var s := NatToString(n);
      assert s[..|s| - 1] == NatToString(n / 10);
      DigitsValueOfNatToString(n / 10);
    }
  }
}
