/**
 * The part of JavaScript's relational comparison that decides
 * `array > number` when the array holds plain objects: the array becomes a
 * string, the string becomes a number, and `NaN` compares false.
 */
module JsCoercion {

  /** A JavaScript number, as far as the comparison here needs it. */
  datatype JsNumber = NaN | Finite(value: int)

  /** `String(obj)` for an object that does not override `toString`. */
  const PlainObjectString: string := "[object Object]"

  /**
   * `String(a)`, i.e. `a.join(",")`, for an array whose elements are plain
   * objects: one `[object Object]` per element, separated by commas.
   */
  function ArrayToString<T>(a: seq<T>): (r: string)
    ensures r == [] <==> a == []
    ensures a != [] ==> r[0] == '[' && |r| == 16 * |a| - 1
    decreases |a|
  {
    if a == [] then ""
    else if |a| == 1 then PlainObjectString
    else PlainObjectString + "," + ArrayToString(a[1..])
  }

  predicate IsDigit(c: char)
  {
    '0' <= c <= '9'
  }

  /** The value of a string of decimal digits. */
  function DecimalValue(s: string): (n: nat)
    requires forall i :: 0 <= i < |s| ==> IsDigit(s[i])
    decreases |s|
  {
    if s == [] then 0
    else
      assert IsDigit(s[|s| - 1]);
      10 * DecimalValue(s[..|s| - 1]) + (s[|s| - 1] as int - '0' as int)
  }

  /**
   * `Number(s)` restricted to what an array of plain objects can produce:
   * the empty string is 0, a string of decimal digits is its value, and every
   * other string is `NaN`. That last case is exact for strings starting with
   * `[`, which cannot begin a numeric literal; blanks, signs, fractions,
   * exponents, hexadecimal and `Infinity` are not modelled.
   */
  function ToNumber(s: string): (n: JsNumber)
    ensures s == [] ==> n == Finite(0)
    ensures s != [] && !IsDigit(s[0]) ==> n == NaN
    ensures n.Finite? ==> n.value >= 0
  {
    if s == [] then Finite(0)
    else if forall i :: 0 <= i < |s| ==> IsDigit(s[i]) then Finite(DecimalValue(s))
    else NaN
  }

  /** `x > k` for a JavaScript number `x`: any comparison with `NaN` is false. */
  function GreaterThan(x: JsNumber, k: int): (b: bool)
  {
    match x
    case NaN => false
    case Finite(v) => v > k
  }

  /**
   * `a > k` for an array `a` of plain objects and a number `k`: an empty
   * array compares as 0, any other array as `NaN`, which is greater than nothing.
   */
  function ArrayGreaterThan<T>(a: seq<T>, k: int): (b: bool)
    ensures a == [] ==> b == (0 > k)
    ensures a != [] ==> !b
  {
    GreaterThan(ToNumber(ArrayToString(a)), k)
  }

  /** An array of plain objects is never greater than a non-negative number, whatever its length. */
  lemma ArrayNeverGreaterThan<T>(a: seq<T>, k: int)
    requires k >= 0
    ensures !ArrayGreaterThan(a, k)
  {
    if a != [] {
      assert !IsDigit(ArrayToString(a)[0]);
    }
  }
}
