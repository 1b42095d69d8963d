/** The port change request (`POST /api/config/port`, app.py:1470-1500): the JSON body is
    read, its `port` field tested for truthiness, converted with Python's `int()`, checked
    against the unprivileged port range and the running port, and saved. Only the decision
    is modelled; whether writing the config file succeeds is a parameter. */
module PortConfig {
  import opened Wrappers
  import opened Text

  /** A parsed JSON value as Python's `json` module returns it. Objects keep the last value of
      a repeated key, so a map is exact. `JFloat` is a finite float; the module also accepts
      `NaN`, `Infinity` and `-Infinity`, and reads a number too large for a float (`1e400`)
      as an infinity. */
  datatype JsonValue =
    | JNull
    | JBool(b: bool)
    | JInt(i: int)
    | JFloat(r: real)
    | JNaN
    | JInfinity(negative: bool)
    | JString(s: string)
    | JArray(items: seq<JsonValue>)
    | JObject(fields: map<string, JsonValue>)

  const MinPort := 1024
  const MaxPort := 65535

  /** Why a request is turned down. */
  datatype Reason = PortRequired | OutOfRange | InvalidNumber | SaveFailed

  /** The route's answer: an error with its HTTP status, success without saving, success after
      saving, or an exception the route does not catch (Flask answers 500). */
  datatype Response =
    | Rejected(status: nat, reason: Reason)
    | Unchanged(port: int)
    | Saved(port: int)
    | Uncaught

  /** Python's truth value of a JSON value (`not x` is its negation). */
  predicate Truthy(v: JsonValue) {
    match v
    case JNull => false
    case JBool(b) => b
    case JInt(i) => i != 0
    case JFloat(r) => r != 0.0
    case JNaN => true
    case JInfinity(_) => true
    case JString(s) => |s| > 0
    case JArray(items) => |items| > 0
    case JObject(fields) => |fields| > 0
  }

  /** `request.get_json() or {}`: no body and a falsy body both become the empty object. */
  function Data(body: Option<JsonValue>): (d: JsonValue)
    ensures body.Some? && Truthy(body.value) ==> d == body.value
    ensures body.None? || !Truthy(body.value) ==> d == JObject(map[])
  {
    match body
    case Some(v) => if Truthy(v) then v else JObject(map[])
    case None => JObject(map[])
  }

  /** `data.get('port')`: the field, `None` (here `JNull`) when it is absent; `None` (here
      `Option.None`) when `data` is not a dict and `.get` raises. */
  function PortField(data: JsonValue): Option<JsonValue> {
    match data
    case JObject(fields) => Some(if "port" in fields then fields["port"] else JNull)
    case _ => None
  }

  /** Python's `int(x)` on a float: truncation toward zero. */
  function Trunc(r: real): (t: int)
    ensures r >= 0.0 ==> 0.0 <= t as real <= r < t as real + 1.0
    ensures r < 0.0 ==> t as real - 1.0 < r <= t as real <= 0.0
  {
    if r >= 0.0 then r.Floor else -((-r).Floor)
  }

  /** The whitespace `int()` skips around a literal: the ASCII blanks ` \t\n\v\f\r` and the
      non-ASCII spaces of `str.isspace()`. Unlike `str.strip()`, `int()` does not skip the
      separators U+001C-U+001F. */
  predicate IntSpace(c: char) {
    IsSpace(c) && !('\U{001C}' <= c <= '\U{001F}')
  }

  /** Leading whitespace removed, as `int()` skips it. */
  function StripLeft(s: string): (r: string)
    ensures |r| <= |s| && r == s[|s| - |r|..]
    ensures r == [] || !IntSpace(r[0])
    ensures forall k :: 0 <= k < |s| - |r| ==> IntSpace(s[k])
    decreases |s|
  {
    if |s| > 0 && IntSpace(s[0]) then StripLeft(s[1..]) else s
  }

  /** Trailing whitespace removed, as `int()` skips it. */
  function StripRight(s: string): (r: string)
    ensures |r| <= |s| && r == s[..|r|]
    ensures r == [] || !IntSpace(r[|r| - 1])
    ensures forall k :: |r| <= k < |s| ==> IntSpace(s[k])
    decreases |s|
  {
    if |s| > 0 && IntSpace(s[|s| - 1]) then StripRight(s[..|s| - 1]) else s
  }

  /** Leading and trailing whitespace removed, as `int()` does before parsing. */
  function Strip(s: string): string {
    StripRight(StripLeft(s))
  }

  predicate AllSpace(s: string) {
    forall k :: 0 <= k < |s| ==> IntSpace(s[k])
  }

  /** The digits of a literal that `int()` accepts in base 10: a non-empty run of digits in
      which single underscores may separate two digits. */
  predicate Grouped(b: string) {
    && |b| > 0
    && IsDigit(b[0]) && IsDigit(b[|b| - 1])
    && (forall k :: 0 <= k < |b| ==> IsDigit(b[k]) || b[k] == '_')
    && (forall k :: 0 <= k < |b| - 1 ==> b[k] == '_' ==> b[k + 1] != '_')
  }

  /** The literal with its underscores dropped. */
  function Unscore(b: string): (r: string)
    ensures |r| <= |b|
    ensures (forall k :: 0 <= k < |b| ==> IsDigit(b[k]) || b[k] == '_') ==> AllDigits(r)
    ensures AllDigits(b) ==> r == b
    decreases |b|
  {
    if b == [] then []
    else Unscore(b[..|b| - 1]) + (if b[|b| - 1] == '_' then [] else [b[|b| - 1]])
  }

  /** The value of an unsigned literal, or `None` when `int()` raises `ValueError`. */
  function ParseDigits(b: string): (r: Option<nat>)
    ensures r.Some? <==> Grouped(b)
  {
    if Grouped(b) then Some(DigitsValue(Unscore(b))) else None
  }

  /** A stripped literal: an optional sign, then the digits. */
  function ParseLiteral(t: string): (r: Option<int>)
    ensures r.Some? ==> |t| > 0
  {
    if |t| > 0 && (t[0] == '+' || t[0] == '-') then
      match ParseDigits(t[1..])
      case Some(v) => Some(if t[0] == '-' then -(v as int) else v as int)
      case None => None
    else
      match ParseDigits(t)
      case Some(v) => Some(v as int)
      case None => None
  }

  /** Python's `int(s)` on a string in base 10 (ASCII digits and whitespace only), or `None`
      when it raises `ValueError`. */
  function ParsePyInt(s: string): Option<int> {
    ParseLiteral(Strip(s))
  }

  /** The outcome of Python's `int(x)`: a value, `ValueError` or `TypeError` (which the route
      catches), or `OverflowError` (which it does not). */
  datatype Conversion = Converted(value: int) | Invalid | Overflow

  /** Python's `int(x)` on a JSON value. Booleans are integers in Python; a float is
      truncated, `NaN` raises `ValueError` and an infinity `OverflowError`. */
  function ToInt(v: JsonValue): Conversion {
    match v
    case JBool(b) => Converted(if b then 1 else 0)
    case JInt(i) => Converted(i)
    case JFloat(r) => Converted(Trunc(r))
    case JNaN => Invalid
    case JInfinity(_) => Overflow
    case JString(s) => if ParsePyInt(s).Some? then Converted(ParsePyInt(s).value) else Invalid
    case _ => Invalid
  }

  /** What the route does with a port that converted to the integer `p`. */
  function Decide(p: int, current: int, saveSucceeds: bool): (r: Response)
    ensures r.Unchanged? || r.Saved? ==> r.port == p && MinPort <= p <= MaxPort
    ensures r.Unchanged? <==> MinPort <= p <= MaxPort && p == current
    ensures r.Saved? <==> MinPort <= p <= MaxPort && p != current && saveSucceeds
    ensures r == Rejected(400, OutOfRange) <==> p < MinPort || p > MaxPort
    ensures !r.Uncaught? && (r.Rejected? && r.reason != OutOfRange ==> r == Rejected(500, SaveFailed))
  {
    if p < MinPort || p > MaxPort then Rejected(400, OutOfRange)
    else if p == current then Unchanged(p)
    else if saveSucceeds then Saved(p)
    else Rejected(500, SaveFailed)
  }

  /** `change_port()` (app.py:1470-1500) for a request body, the running port and the outcome
      of writing the config file. */
  function ChangePort(body: Option<JsonValue>, current: int, saveSucceeds: bool): Response {
    match PortField(Data(body))
    case None => Uncaught
    case Some(v) =>
      if !Truthy(v) then Rejected(400, PortRequired)
      else match ToInt(v)
        case Invalid => Rejected(400, InvalidNumber)
        case Overflow => Uncaught
        case Converted(p) => Decide(p, current, saveSucceeds)
  }

  /** A request body `{"port": v}`. */
  function PortBody(v: JsonValue): Option<JsonValue> {
    Some(JObject(map["port" := v]))
  }

  /** A port is accepted (saved or reported unchanged) exactly when the body holds a truthy
      `port` that converts to an integer in 1024..65535; it is reported unchanged exactly when
      that integer is the running port, and saved only when writing the config succeeded. */
  lemma Accepted(body: Option<JsonValue>, current: int, saveSucceeds: bool, p: int)
    ensures var r := ChangePort(body, current, saveSucceeds);
      (r == Unchanged(p) || r == Saved(p)) <==>
        (exists v :: PortField(Data(body)) == Some(v) && Truthy(v) && ToInt(v) == Converted(p))
        && MinPort <= p <= MaxPort && (p == current || saveSucceeds)
    ensures ChangePort(body, current, saveSucceeds) == Unchanged(p) ==> p == current
    ensures ChangePort(body, current, saveSucceeds) == Saved(p) ==> p != current && saveSucceeds
  {
    var r := ChangePort(body, current, saveSucceeds);
    if r == Unchanged(p) || r == Saved(p) {
      var v := PortField(Data(body)).value;
      assert PortField(Data(body)) == Some(v) && Truthy(v) && ToInt(v) == Converted(p);
    }
  }

  /** A missing body, a body without `port`, and a falsy port (`null`, `false`, `0`, `0.0`,
      `""`, `[]`, `{}`) are all answered "Port is required"; a truthy body that is not an
      object makes `.get` raise, and so does `int()` on an infinite port. */
  lemma MissingPort(body: Option<JsonValue>, current: int, saveSucceeds: bool)
    ensures var d := Data(body);
      d.JObject? && ("port" !in d.fields || !Truthy(d.fields["port"])) <==>
        ChangePort(body, current, saveSucceeds) == Rejected(400, PortRequired)
    ensures var d := Data(body);
      ChangePort(body, current, saveSucceeds).Uncaught? <==>
        || (body.Some? && Truthy(body.value) && !body.value.JObject?)
        || (d.JObject? && "port" in d.fields && d.fields["port"].JInfinity?)
  {
  }

  /** `int()` on strings undoes `str()` on integers, whatever whitespace surrounds the digits. */
  lemma ParseIntToString(n: int, before: string, after: string)
    requires AllSpace(before) && AllSpace(after)
    ensures ParsePyInt(before + IntToString(n) + after) == Some(n)
  {
    StripPadded(before, IntToString(n), after);
    ParseIntLiteral(n);
  }

  /** The literal `str(n)` parses back to `n`. */
  lemma ParseIntLiteral(n: int)
    ensures ParseLiteral(IntToString(n)) == Some(n)
  {
    var x := IntToString(n);
    if n >= 0 {
      ParseNatToString(n);
      assert x[0] != '+' && x[0] != '-';
    } else {
      assert x[1..] == NatToString(-n);
      ParseNatToString(-n);
    }
  }

  /** The digits of `str(n)` parse back to `n`. */
  lemma ParseNatToString(n: nat)
    ensures ParseDigits(NatToString(n)) == Some(n)
  {
    var x := NatToString(n);
    DigitsValueOfNatToString(n);
    assert Unscore(x) == x;
    assert Grouped(x);
  }

  /** Dropping underscores works piece by piece. */
  lemma {:induction false} UnscoreConcat(a: string, b: string)
    ensures Unscore(a + b) == Unscore(a) + Unscore(b)
    decreases |b|
  {
    if b == [] {
      assert a + b == a;
    } else {
      var init := b[..|b| - 1];
      assert (a + b)[..|a + b| - 1] == a + init;
      assert (a + b)[|a + b| - 1] == b[|b| - 1];
      UnscoreConcat(a, init);
    }
  }

  /** Leading zeros do not change the value: `int("08080") == 8080`. */
  lemma ParseZeroPadded(zs: string, n: nat)
    requires forall k :: 0 <= k < |zs| ==> zs[k] == '0'
    ensures ParseDigits(zs + NatToString(n)) == Some(n)
  {
    var x := NatToString(n);
    ZerosValue(zs);
    var t := zs + x;
    assert AllDigits(t);
    assert Grouped(t);
    assert Unscore(t) == t;
    DigitsValueConcat(zs, x);
    DigitsValueOfNatToString(n);
  }

  /** An underscore between two digit groups is ignored: `int("5_050") == int("5050")`. */
  lemma ParseGroups(a: string, b: string)
    requires Grouped(a) && Grouped(b)
    ensures ParseDigits(a + b).Some?
    ensures ParseDigits(a + "_" + b) == ParseDigits(a + b)
  {
    var t := a + "_" + b;
    var u := a + b;
    GroupedJoined(a, b);
    GroupedAdjacent(a, b);
    UnscoreJoin(a, b);
  }

  lemma UnscoreJoin(a: string, b: string)
    ensures Unscore(a + "_" + b) == Unscore(a + b)
  {
    assert Unscore("_") == [] by {
      assert "_"[..0] == [];
    }
    UnscoreConcat(a, "_");
    UnscoreConcat(a + "_", b);
    UnscoreConcat(a, b);
  }

  /** Two digit groups joined by one underscore form a literal of digit groups. */
  lemma GroupedJoined(a: string, b: string)
    requires Grouped(a) && Grouped(b)
    ensures Grouped(a + "_" + b)
  {
    var t := a + "_" + b;
    assert t[0] == a[0] && t[|t| - 1] == b[|b| - 1];
    forall k | 0 <= k < |t| ensures IsDigit(t[k]) || t[k] == '_' {
      if k < |a| {
        assert t[k] == a[k];
      } else if k > |a| {
        assert t[k] == b[k - |a| - 1];
      }
    }
    forall k | 0 <= k < |t| - 1 ensures t[k] == '_' ==> t[k + 1] != '_' {
      if k < |a| - 1 {
        assert t[k] == a[k] && t[k + 1] == a[k + 1];
      } else if k == |a| - 1 {
        assert t[k] == a[k];
      } else if k == |a| {
        assert t[k + 1] == b[0];
      } else {
        assert t[k] == b[k - |a| - 1] && t[k + 1] == b[k - |a|];
      }
    }
  }

  /** Two digit groups side by side form a literal of digit groups. */
  lemma GroupedAdjacent(a: string, b: string)
    requires Grouped(a) && Grouped(b)
    ensures Grouped(a + b)
  {
    var u := a + b;
    assert u[0] == a[0] && u[|u| - 1] == b[|b| - 1];
    forall k | 0 <= k < |u| ensures IsDigit(u[k]) || u[k] == '_' {
      if k < |a| {
        assert u[k] == a[k];
      } else {
        assert u[k] == b[k - |a|];
      }
    }
    forall k | 0 <= k < |u| - 1 ensures u[k] == '_' ==> u[k + 1] != '_' {
      if k < |a| - 1 {
        assert u[k] == a[k] && u[k + 1] == a[k + 1];
      } else if k == |a| - 1 {
        assert u[k + 1] == b[0];
      } else {
        assert u[k] == b[k - |a|] && u[k + 1] == b[k - |a| + 1];
      }
    }
  }

  /** `int()` of a zero-padded decimal with whitespace around it is its value. */
  lemma ParsePaddedNat(before: string, zs: string, n: nat, after: string)
    requires AllSpace(before) && AllSpace(after)
    requires forall k :: 0 <= k < |zs| ==> zs[k] == '0'
    ensures ParsePyInt(before + zs + NatToString(n) + after) == Some(n)
  {
    var y := NatToString(n);
    var x := zs + y;
    assert before + zs + y + after == before + x + after;
    ParseZeroPadded(zs, n);
    assert Grouped(x);
    UnsignedLiteral(x);
    GroupedPadded(before, x, after);
  }

  /** A literal of digit groups carries no sign. */
  lemma UnsignedLiteral(x: string)
    requires Grouped(x)
    ensures ParseLiteral(x) == ParseDigits(x)
  {
    assert IsDigit(x[0]);
  }

  /** `int()` strips the whitespace around a literal of digit groups. */
  lemma GroupedPadded(before: string, x: string, after: string)
    requires AllSpace(before) && AllSpace(after) && Grouped(x)
    ensures ParsePyInt(before + x + after) == ParseLiteral(x)
  {
    assert IsDigit(x[0]) && IsDigit(x[|x| - 1]);
    StripPadded(before, x, after);
  }

  /** Stripping removes exactly the padding around a string that begins and ends with a
      non-space. */
  lemma StripPadded(before: string, x: string, after: string)
    requires AllSpace(before) && AllSpace(after)
    requires |x| > 0 && !IntSpace(x[0]) && !IntSpace(x[|x| - 1])
    ensures Strip(before + x + after) == x
  {
    StripLeftSpaces(before, x + after);
    assert before + x + after == before + (x + after);
    StripRightSpaces(x, after);
  }

  lemma {:induction false} StripLeftSpaces(ws: string, x: string)
    requires AllSpace(ws) && |x| > 0 && !IntSpace(x[0])
    ensures StripLeft(ws + x) == x
    decreases |ws|
  {
    if ws != [] {
      assert (ws + x)[1..] == ws[1..] + x;
      StripLeftSpaces(ws[1..], x);
    } else {
      assert ws + x == x;
    }
  }

  lemma {:induction false} StripRightSpaces(x: string, ws: string)
    requires AllSpace(ws) && |x| > 0 && !IntSpace(x[|x| - 1])
    ensures StripRight(x + ws) == x
    decreases |ws|
  {
    if ws != [] {
      assert (x + ws)[..|x + ws| - 1] == x + ws[..|ws| - 1];
      StripRightSpaces(x, ws[..|ws| - 1]);
    } else {
      assert x + ws == x;
    }
  }

  /** A port sent as a string is decided as the same port sent as a number, except that the
      string "0" is truthy and so reaches the range check where the number 0 is "required". */
  lemma StringPortAsNumber(n: int, before: string, after: string, current: int, saveSucceeds: bool)
    requires AllSpace(before) && AllSpace(after)
    ensures var r := ChangePort(PortBody(JString(before + IntToString(n) + after)), current, saveSucceeds);
      r == if n == 0 then Rejected(400, OutOfRange) else ChangePort(PortBody(JInt(n)), current, saveSucceeds)
  {
    var s := before + IntToString(n) + after;
    ParseIntToString(n, before, after);
    assert |s| > 0;
    SameConversion(JString(s), current, saveSucceeds);
    if n != 0 {
      SameConversion(JInt(n), current, saveSucceeds);
    }
  }

  /** `int()` does not skip the separators U+001C-U+001F: a string port that begins or ends
      with one raises `ValueError`, answered "Invalid port number", whatever else it holds. */
  lemma SeparatorPaddedPorts(c: char, s: string, current: int, saveSucceeds: bool)
    requires '\U{001C}' <= c <= '\U{001F}'
    ensures ParsePyInt([c] + s) == None && ParsePyInt(s + [c]) == None
    ensures ChangePort(PortBody(JString([c] + s)), current, saveSucceeds) == Rejected(400, InvalidNumber)
    ensures ChangePort(PortBody(JString(s + [c])), current, saveSucceeds) == Rejected(400, InvalidNumber)
  {
    LeadingSeparator(c, s);
    TrailingSeparator(c, s);
    InvalidStringPort([c] + s, current, saveSucceeds);
    InvalidStringPort(s + [c], current, saveSucceeds);
  }

  /** A non-empty string that `int()` refuses is answered "Invalid port number". */
  lemma InvalidStringPort(s: string, current: int, saveSucceeds: bool)
    requires |s| > 0 && ParsePyInt(s).None?
    ensures ChangePort(PortBody(JString(s)), current, saveSucceeds) == Rejected(400, InvalidNumber)
  {
    assert PortField(Data(PortBody(JString(s)))) == Some(JString(s));
    assert ToInt(JString(s)) == Invalid;
  }

  lemma LeadingSeparator(c: char, s: string)
    requires '\U{001C}' <= c <= '\U{001F}'
    ensures ParsePyInt([c] + s) == None
  {
    var x := [c] + s;
    assert StripLeft(x) == x;
    var t := StripRight(x);
    assert t == [] || t[0] == c;
    NoLiteral(t);
  }

  lemma TrailingSeparator(c: char, s: string)
    requires '\U{001C}' <= c <= '\U{001F}'
    ensures ParsePyInt(s + [c]) == None
  {
    var x := s + [c];
    assert !IntSpace(x[|x| - 1]);
    var l := StripLeft(x);
    assert |l| > 0;
    assert l[|l| - 1] == x[|x| - 1];
    assert StripRight(l) == l;
    NoLiteral(l);
  }

  /** A text that is empty, or starts with neither a digit nor a sign, or ends with a
      non-digit, is no literal. */
  lemma NoLiteral(t: string)
    requires t == [] || (!IsDigit(t[0]) && t[0] != '+' && t[0] != '-') || !IsDigit(t[|t| - 1])
    ensures ParseLiteral(t) == None
  {
    if |t| > 0 && (t[0] == '+' || t[0] == '-') {
      assert t[1..] == [] || t[1..][|t[1..]| - 1] == t[|t| - 1];
    }
  }

  /** A truthy port that converts to `p` is decided on `p` alone. */
  lemma SameConversion(v: JsonValue, current: int, saveSucceeds: bool)
    requires Truthy(v) && ToInt(v).Converted?
    ensures ChangePort(PortBody(v), current, saveSucceeds) == Decide(ToInt(v).value, current, saveSucceeds)
  {
    assert PortField(Data(PortBody(v))) == Some(v);
  }

  /** A fractional port is truncated toward zero before the range check: 5050.9 and -5050.9
      are decided as 5050 and -5050. */
  lemma FloatPortTruncated(r: real, current: int, saveSucceeds: bool)
    requires Trunc(r) != 0
    ensures ChangePort(PortBody(JFloat(r)), current, saveSucceeds)
      == ChangePort(PortBody(JInt(Trunc(r))), current, saveSucceeds)
  {
  }

  /** Arrays and objects are rejected as invalid numbers (`int()` raises `TypeError`), and
      `true` is the integer 1, outside the range. */
  lemma NonNumericPorts(v: JsonValue, current: int, saveSucceeds: bool)
    requires v.JArray? || v.JObject?
    ensures Truthy(v) ==> ChangePort(PortBody(v), current, saveSucceeds) == Rejected(400, InvalidNumber)
    ensures !Truthy(v) ==> ChangePort(PortBody(v), current, saveSucceeds) == Rejected(400, PortRequired)
    ensures ChangePort(PortBody(JBool(true)), current, saveSucceeds) == Rejected(400, OutOfRange)
  {
  }

  /** `NaN` is rejected as an invalid number (`int()` raises `ValueError`); an infinity makes
      `int()` raise `OverflowError`, which the route does not catch. */
  lemma SpecialFloatPorts(negative: bool, current: int, saveSucceeds: bool)
    ensures ChangePort(PortBody(JNaN), current, saveSucceeds) == Rejected(400, InvalidNumber)
    ensures ChangePort(PortBody(JInfinity(negative)), current, saveSucceeds) == Uncaught
  {
    assert PortField(Data(PortBody(JNaN))) == Some(JNaN);
    assert PortField(Data(PortBody(JInfinity(negative)))) == Some(JInfinity(negative));
  }
}
