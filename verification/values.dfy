/** Python values as they arrive in a decoded JSON request body, and the
    few built-in conversions the preprocessing code applies to them. */
module Values {
  import opened Wrappers

  /** A JSON-shaped Python value. `Int` and `Float` are kept apart because
      the source formats and converts them differently. */
  datatype Value =
    | Null
    | Bool(b: bool)
    | Int(i: int)
    | Float(r: real)
    | Str(s: string)
    | List(items: seq<Value>)
    | Dict(fields: map<string, Value>)

  /** An operation's keyword parameters (a Python `dict` with string keys). */
  type Params = map<string, Value>

  /** Python truthiness, `bool(v)`. */
  predicate Truthy(v: Value) {
    match v
    case Null => false
    case Bool(b) => b
    case Int(i) => i != 0
    case Float(r) => r != 0.0
    case Str(s) => s != ""
    case List(xs) => |xs| > 0
    case Dict(m) => |m| > 0
  }

  /** Python's type name, as it appears in a TypeError or AttributeError. */
  function TypeName(v: Value): string {
    match v
    case Null => "NoneType"
    case Bool(_) => "bool"
    case Int(_) => "int"
    case Float(_) => "float"
    case Str(_) => "str"
    case List(_) => "list"
    case Dict(_) => "dict"
  }

  /** Lists and dicts cannot be dictionary keys: `x in some_dict` raises
      `TypeError` for them. */
  predicate Hashable(v: Value) {
    !v.List? && !v.Dict?
  }

  /** `d.get(key, default)`. */
  function Get(d: Params, key: string, default: Value): Value {
    if key in d then d[key] else default
  }

  /** The value as a Python number, if arithmetic on it is defined
      (`bool` is a subclass of `int`). */
  function AsNumber(v: Value): Option<real> {
    match v
    case Bool(b) => Some(if b then 1.0 else 0.0)
    case Int(i) => Some(i as real)
    case Float(r) => Some(r)
    case _ => None
  }

  /** Number-valued parameter lookup with a numeric default; `None` when the
      value present cannot take part in arithmetic. */
  function Number(d: Params, key: string, default: real): Option<real> {
    if key in d then AsNumber(d[key]) else Some(default)
  }

  /** Python's `int(x)` on a float: truncation toward zero. */
  function Trunc(r: real): (t: int)
    ensures 0.0 <= r ==> t as real <= r < t as real + 1.0
    ensures r < 0.0 ==> t as real - 1.0 < r <= t as real
  {
    if r >= 0.0 then r.Floor else -((-r).Floor)
  }

  /** Python's `n | 1` on an arbitrary-precision (two's complement) integer:
      bit 0 is set, every other bit is kept. */
  function OrOne(n: int): (r: int)
    ensures r == 2 * (n / 2) + 1
    ensures r % 2 == 1
    ensures n % 2 == 1 ==> r == n
    ensures n % 2 == 0 ==> r == n + 1
  {
    if n % 2 == 0 then n + 1 else n
  }

  /** `max(3, n | 1)`: the "force odd, at least 3" kernel-size rule used for
      Gaussian, unsharp-mask and threshold block sizes. */
  function OddAtLeast3(n: int): (r: int)
    ensures r % 2 == 1 && r >= 3
    ensures n % 2 == 1 && n >= 3 ==> r == n
    ensures r <= if n < 3 then 3 else n + 1
  {
    if OrOne(n) < 3 then 3 else OrOne(n)
  }

  /** `max(lo, min(hi, x))` on integers. */
  function ClampInt(lo: int, hi: int, x: int): (r: int)
    ensures lo <= hi ==> lo <= r <= hi
    ensures lo <= x <= hi ==> r == x
    ensures x < lo ==> r == lo
  {
    if (if hi < x then hi else x) < lo then lo else if hi < x then hi else x
  }

  /** `max(lo, min(hi, x))` on reals. */
  function ClampReal(lo: real, hi: real, x: real): (r: real)
    ensures lo <= hi ==> lo <= r <= hi
    ensures lo <= x <= hi ==> r == x
    ensures x < lo ==> r == lo
    ensures lo <= hi && hi < x ==> r == hi
  {
    if (if hi < x then hi else x) < lo then lo else if hi < x then hi else x
  }

  /** Python's `min` and `max` on two integers. */
  function Min(a: int, b: int): int {
    if a <= b then a else b
  }

  function Max(a: int, b: int): int {
    if a >= b then a else b
  }

  function Abs(x: real): (r: real)
    ensures r >= 0.0 && (r == x || r == -x)
  {
    if x < 0.0 then -x else x
  }

  // ------------------------------------------------------------------
  // decimal text
  // ------------------------------------------------------------------

  predicate IsDigit(c: char) {
    '0' <= c <= '9'
  }

  /** `x.isdigit()` on ASCII text: non-empty and all digits. */
  predicate AllDigits(s: string) {
    |s| > 0 && forall i :: 0 <= i < |s| ==> IsDigit(s[i])
  }

  /** `int(s)` of a digit string. */
  function DecimalValue(s: string): (r: nat)
    requires forall i :: 0 <= i < |s| ==> IsDigit(s[i])
  {
    if |s| == 0 then 0
    else
      assert IsDigit(s[|s| - 1]);
      DecimalValue(s[..|s| - 1]) * 10 + (s[|s| - 1] as int - '0' as int) as nat
  }

  /** `str(n)`. */
  function DecimalString(n: nat): (r: string)
    ensures AllDigits(r)
    ensures n > 0 ==> r[0] != '0'
  {
    if n < 10 then [('0' as int + n) as char]
    else DecimalString(n / 10) + [('0' as int + n % 10) as char]
  }

  /** Reading back a written page number gives the number. */
  lemma {:induction false} DecimalRoundTrip(n: nat)
    ensures DecimalValue(DecimalString(n)) == n
  {
    if n >= 10 {
      var s := DecimalString(n);
      assert s[..|s| - 1] == DecimalString(n / 10);
      DecimalRoundTrip(n / 10);
    }
  }

  /** `str(n)` of any integer. */
  function IntText(n: int): (r: string)
    ensures |r| > 0
  {
    if n < 0 then "-" + DecimalString(-n) else DecimalString(n)
  }

  /** A sign, if any, then decimal digits: the plain forms of integer text
      `int()` accepts. */
  function ParseInt(s: string): (r: Option<int>)
    ensures AllDigits(s) ==> r == Some(DecimalValue(s))
    ensures |s| == 0 ==> r.None?
  {
    if AllDigits(s) then Some(DecimalValue(s) as int)
    else if |s| > 1 && s[0] == '-' && AllDigits(s[1..]) then Some(-(DecimalValue(s[1..]) as int))
    else if |s| > 1 && s[0] == '+' && AllDigits(s[1..]) then Some(DecimalValue(s[1..]) as int)
    else None
  }

  /** Python's `int(v)`: booleans and integers as they are, floats truncated
      toward zero, integer text parsed; `None` where it raises. */
  function IntOf(v: Value): (r: Option<int>)
    ensures AsNumber(v).Some? ==> r.Some? && r.value == Trunc(AsNumber(v).value)
    ensures v.Null? || v.List? || v.Dict? ==> r.None?
  {
    match v
    case Bool(b) => Some(if b then 1 else 0)
    case Int(i) => Some(i)
    case Float(x) => Some(Trunc(x))
    case Str(s) => ParseInt(s)
    case _ => None
  }

  /** `int(str(n)) == n`. */
  lemma IntTextRoundTrip(n: int)
    ensures IntOf(Str(IntText(n))) == Some(n)
  {
    if n < 0 {
      var s := IntText(n);
      assert s[1..] == DecimalString(-n);
      assert !AllDigits(s) by { assert !IsDigit(s[0]); }
      DecimalRoundTrip(-n);
    } else {
      DecimalRoundTrip(n);
    }
  }

  /** `str(v)` as it appears inside a message. Floats, lists and dicts show
      their type name only. */
  function Display(v: Value): (r: string)
    ensures v.Str? ==> r == v.s
    ensures v.Int? ==> IntOf(Str(r)) == Some(v.i)
  {
    match v
    case Null => "None"
    case Bool(b) => if b then "True" else "False"
    case Int(i) => IntTextRoundTrip(i); IntText(i)
    case Float(_) => "<float>"
    case Str(s) => s
    case List(_) => "<list>"
    case Dict(_) => "<dict>"
  }
}
