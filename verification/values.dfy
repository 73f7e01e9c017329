/** Decoded JSON values as the solver's Python code sees them, together with
    the few Python built-ins the answer-handling code applies to them:
    truthiness, `float()`, `int()`, `list()` and `str.lower()`. */
module Values {

  datatype Option<+T> = None | Some(value: T) {
    /** `x or default` for an optional value whose present values are all kept. */
    function GetOr(default: T): T {
      if Some? then value else default
    }
  }

  /** A computation that either returns a value or raises a Python exception.
      Raising is kept as a value so that a caller can catch it where the
      source does, after the effects that preceded it. */
  datatype Outcome<+T> = Return(value: T) | Raise

  /** A JSON value. Integers and floats are both `Num`; the key order of an
      object is not modelled (no caller here depends on it). */
  datatype Value =
    | Null
    | Bool(b: bool)
    | Num(n: real)
    | Str(s: string)
    | Arr(items: seq<Value>)
    | Obj(fields: map<string, Value>)

  /** `dict.get(key)`: an absent key reads as `None`. */
  function Get(fields: map<string, Value>, key: string): (v: Value)
    ensures key !in fields ==> v == Null
    ensures key in fields ==> v == fields[key]
  {
    if key in fields then fields[key] else Null
  }

  /** Python truthiness of a JSON value. */
  predicate Truthy(v: Value) {
    match v
    case Null => false
    case Bool(b) => b
    case Num(n) => n != 0.0
    case Str(s) => |s| > 0
    case Arr(items) => |items| > 0
    case Obj(fields) => |fields| > 0
  }

  /** `isinstance(v, collections.abc.Sequence)`: among JSON values, lists and strings. */
  predicate IsSequence(v: Value) {
    v.Arr? || v.Str?
  }

  /** `list(v)` for a sequence: a string splits into one-character strings. */
  function ListOf(v: Value): (r: seq<Value>)
    requires IsSequence(v)
    ensures v.Arr? ==> r == v.items
    ensures v.Str? ==> |r| == |v.s| && forall i :: 0 <= i < |r| ==> r[i] == Str([v.s[i]])
  {
    if v.Arr? then v.items else seq(|v.s|, i requires 0 <= i < |v.s| => Str([v.s[i]]))
  }

  predicate IsDigit(c: char) {
    '0' <= c <= '9'
  }

  /** Value of a string of decimal digits. */
  function DigitsValue(s: string): (n: nat)
    requires forall i :: 0 <= i < |s| ==> IsDigit(s[i])
    decreases |s|
  {
    if |s| == 0 then 0
    else
      assert IsDigit(s[|s| - 1]);
      10 * DigitsValue(s[..|s| - 1]) + ((s[|s| - 1] as int) - ('0' as int))
  }

  /** The strings `int()` and `float()` accept here: an optional sign and at
      least one decimal digit. */
  function ParseInt(s: string): (r: Option<int>)
    ensures |s| == 0 ==> r == None
  {
    var signed := |s| > 0 && (s[0] == '+' || s[0] == '-');
    var digits := if signed then s[1..] else s;
    if |digits| == 0 || exists i :: 0 <= i < |digits| && !IsDigit(digits[i]) then None
    else if signed && s[0] == '-' then Some(-(DigitsValue(digits) as int))
    else Some(DigitsValue(digits))
  }

  /** Truncation toward zero, as Python's `int()` applies it to a float. */
  function Trunc(r: real): (n: int)
    ensures r >= 0.0 ==> 0 <= n && n as real <= r < n as real + 1.0
    ensures r < 0.0 ==> n <= 0 && n as real - 1.0 < r <= n as real
  {
    if r >= 0.0 then r.Floor else -((-r).Floor)
  }

  /** `float(v)`, or None where Python raises TypeError or ValueError. */
  function ToFloat(v: Value): (r: Option<real>)
    ensures v.Num? ==> r == Some(v.n)
    ensures v.Null? || v.Arr? || v.Obj? ==> r == None
  {
    match v
    case Num(n) => Some(n)
    case Bool(b) => Some(if b then 1.0 else 0.0)
    case Str(s) => (match ParseInt(s) case Some(k) => Some(k as real) case None => None)
    case _ => None
  }

  /** `int(v)`, or None where Python raises TypeError or ValueError. */
  function ToInt(v: Value): (r: Option<int>)
    ensures v.Num? ==> r == Some(Trunc(v.n))
    ensures v.Null? || v.Arr? || v.Obj? ==> r == None
  {
    match v
    case Num(n) => Some(Trunc(n))
    case Bool(b) => Some(if b then 1 else 0)
    case Str(s) => ParseInt(s)
    case _ => None
  }

  /** ASCII lower-casing. No other character lower-cases to a letter of
      "drag", the only word compared after lower-casing here. */
  function Lower(s: string): (r: string)
    ensures |r| == |s|
  {
    seq(|s|, i requires 0 <= i < |s| => if 'A' <= s[i] <= 'Z' then (s[i] as int + 32) as char else s[i])
  }
}
