/** The few JavaScript number semantics the modelled code depends on, for values
    that are integers or `NaN`.

    JavaScript's `%` truncates toward zero (the remainder takes the sign of the
    dividend) and yields `NaN` when the divisor is zero; Dafny's `%` is Euclidean.
    Reading `array[i]` yields `undefined` unless `i` is an integer index in range;
    a remainder of `-0` is read as index `0`, because property keys are strings
    and `-0` converts to `"0"`. Floating-point values other than integers and
    `NaN` are not modelled. */
module JsNumber {
  import opened Wrappers

  datatype Number = Num(v: int) | NaN

  function Add(a: Number, b: Number): (r: Number)
    ensures r.Num? <==> a.Num? && b.Num?
  {
    if a.Num? && b.Num? then Num(a.v + b.v) else NaN
  }

  function Sub(a: Number, b: Number): (r: Number)
    ensures r.Num? <==> a.Num? && b.Num?
  {
    if a.Num? && b.Num? then Num(a.v - b.v) else NaN
  }

  lemma MulAtLeast(n: int, k: int)
    requires n > 0 && k >= 1
    ensures n * k >= n
  {
  }

  /** The Euclidean remainder is the only one in [0, n): any `x == n * q + r`
      with `r` in that range has `x % n == r`. */
  lemma ModUnique(x: int, n: int, q: int, r: int)
    requires n > 0 && 0 <= r < n && x == n * q + r
    ensures x % n == r
  {
    var q', r' := x / n, x % n;
    assert x == n * q' + r';
    if q > q' {
      MulAtLeast(n, q - q');
    } else if q < q' {
      MulAtLeast(n, q' - q);
    }
  }

  /** Truncating remainder of integers by a positive divisor, `-0` read as `0`:
      the remainder that ECMAScript's `%` defines, which has the sign of the
      dividend, is smaller than the divisor in magnitude, and differs from the
      dividend by a multiple of the divisor. Those three facts fix it. */
  function TruncRem(a: int, n: int): (r: int)
    requires n > 0
    ensures a >= 0 ==> 0 <= r < n
    ensures a < 0 ==> -n < r <= 0
    ensures (a - r) % n == 0
    ensures a >= 0 ==> r == a % n
  {
    if a >= 0 then
      ModUnique(a - a % n, n, a / n, 0);
      a % n
    else
      var m := -a;
      ModUnique(a + m % n, n, -(m / n), 0);
      -(m % n)
  }

  /** JavaScript `a % n`: `NaN` unless both operands are numbers and the divisor
      is non-zero; otherwise the truncating remainder. */
  function Rem(a: Number, n: Number): (r: Number)
    requires n.Num? ==> n.v >= 0
    ensures r.Num? <==> a.Num? && n.Num? && n.v > 0
    ensures r.Num? && a.v >= 0 ==> 0 <= r.v < n.v
    ensures r.Num? && a.v < 0 ==> -n.v < r.v <= 0
    ensures r.Num? ==> (a.v - r.v) % n.v == 0
  {
    if a.Num? && n.Num? && n.v > 0 then Num(TruncRem(a.v, n.v)) else NaN
  }

  /** JavaScript `s[i]`: `None` stands for `undefined`. */
  function Index<T>(s: seq<T>, i: Number): (r: Option<T>)
    ensures r.Some? <==> i.Num? && 0 <= i.v < |s|
    ensures r.Some? ==> r.value == s[i.v]
  {
    if i.Num? && 0 <= i.v < |s| then Some(s[i.v]) else None
  }

  /** For a non-negative dividend and a positive divisor the JavaScript and the
      Euclidean remainder agree. */
  lemma RemNonNegative(a: int, n: int)
    requires a >= 0 && n > 0
    ensures Rem(Num(a), Num(n)) == Num(a % n)
  {
  }
}
