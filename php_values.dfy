/** The PHP values an entity holds, and the few PHP conversions and loose
    comparisons (PHP 8 rules) that the validation rules depend on. */
module PhpValues {
  import opened Wrappers

  /** PHP_INT_MAX and ~PHP_INT_MAX on a 64-bit platform. */
  const IntMax: int := 0x7FFF_FFFF_FFFF_FFFF
  const IntMin: int := -0x8000_0000_0000_0000

  /** PHP_INT_MAX after conversion to a double, as PHP compares it with a float. */
  const IntMaxAsFloat: real := 9223372036854775808.0

  /** The two bounds as PHP writes them out when it compares them with a
      non-numeric string. */
  const IntMaxText := "9223372036854775807"
  const IntMinText := "-9223372036854775808"

  type Int64 = i: int | IntMin <= i <= IntMax

  /** A PHP value. Arrays and objects are kept by their entries only. */
  datatype Value =
    | Null
    | Bool(b: bool)
    | Int(i: Int64)
    | Float(r: real)
    | Str(s: string)
    | Arr(entries: map<string, Value>)
    | Obj(props: map<string, Value>)

  /** PHP's `empty()`. */
  predicate IsEmpty(v: Value) {
    match v
    case Null => true
    case Bool(b) => !b
    case Int(i) => i == 0
    case Float(r) => r == 0.0
    case Str(s) => s == "" || s == "0"
    case Arr(e) => e == map[]
    case Obj(_) => false
  }

  /** The number a value stands for when `is_numeric()` accepts it;
      `numericString` decides which strings are numeric and what they denote. */
  function NumberOf(v: Value, numericString: string -> Option<real>): Option<real> {
    match v
    case Int(i) => Some(i as real)
    case Float(r) => Some(r)
    case Str(s) => numericString(s)
    case _ => None
  }

  /** Truncation toward zero. */
  function Trunc(x: real): (t: int)
    ensures x >= 0.0 ==> 0 <= t && t as real <= x < t as real + 1.0
    ensures x < 0.0 ==> t <= 0 && t as real - 1.0 < x <= t as real
  {
    if x >= 0.0 then x.Floor else -((-x).Floor)
  }

  /** `intval()` of a number within the 64-bit range. Out of that range the
      model yields 0, where PHP saturates a numeric string and wraps or
      zeroes a float; so a numeric string just past the range, which PHP
      accepts as an integer after comparing as doubles, is refused here. */
  function Intval(x: real): Int64 {
    var t := Trunc(x);
    if IntMin <= t <= IntMax then t else 0
  }

  /** The rule `!is_numeric($value) || intval($value) != $value`. */
  predicate NotInteger(v: Value, numericString: string -> Option<real>) {
    match NumberOf(v, numericString)
    case None => true
    case Some(x) => Intval(x) as real != x
  }

  /** Decimal text of an integer, as PHP converts an int to a string. */
  function IntToString(i: int): string {
    if i < 0 then "-" + NatToString(-i) else NatToString(i)
  }

  function NatToString(n: nat): (s: string)
    ensures |s| > 0 && '0' <= s[0] <= '9'
  {
    if n < 10 then [Digit(n)] else NatToString(n / 10) + [Digit(n % 10)]
  }

  function Digit(d: nat): (c: char)
    requires d < 10
    ensures '0' <= c <= '9'
  {
    "0123456789"[d]
  }

  /** Byte-wise `strcmp(a, b) <= 0`. */
  predicate StrLe(a: string, b: string)
    decreases |a|
  {
    |a| == 0 || (|b| > 0 && (a[0] < b[0] || (a[0] == b[0] && StrLe(a[1..], b[1..]))))
  }

  /** PHP 8 `$value == $n` for an integer `n`. */
  predicate LooseEqualsInt(v: Value, n: int, numericString: string -> Option<real>) {
    match v
    case Null => n == 0
    case Bool(b) => b == (n != 0)
    case Int(i) => i == n
    case Float(r) => r == n as real
    case Str(s) =>
      if numericString(s).Some? then numericString(s).value == n as real else s == IntToString(n)
    case Arr(_) => false
    case Obj(_) => n == 1
  }

  /** PHP 8 `$v <= PHP_INT_MAX && $v >= ~PHP_INT_MAX`: integers are always
      in range, floats and numeric strings are compared with the bounds
      converted to doubles, other strings are compared with the bounds' text
      byte by byte, booleans with `true`, an array is always greater, and an
      object is converted to the integer 1 (with a notice), which is in
      range. */
  predicate WithinPhpIntRange(v: Value, numericString: string -> Option<real>) {
    match v
    case Null => false
    case Bool(b) => b
    case Int(_) => true
    case Float(r) => -IntMaxAsFloat <= r <= IntMaxAsFloat
    case Str(s) =>
      if numericString(s).Some? then -IntMaxAsFloat <= numericString(s).value <= IntMaxAsFloat
      else StrLe(s, IntMaxText) && StrLe(IntMinText, s)
    case Arr(_) => false
    case Obj(_) => true
  }
}
