/**
 * The few pieces of JavaScript arithmetic that the page logic relies on,
 * stated over Dafny's unbounded integers and exact reals.
 */
module JsMath {

  /** A value returned by Math.random(): a real in [0, 1). */
  type Draw = r: real | 0.0 <= r < 1.0

  datatype Option<+T> = None | Some(value: T)

  /**
   * Math.floor(r * n): the idiom the page uses to turn a random draw into an
   * index below n (hexagon-bg.js:93 and :157, script.js:161, :165 and :368).
   */
  function ScaledFloor(r: Draw, n: nat): (k: int)
    ensures n > 0 ==> 0 <= k < n
    ensures n == 0 ==> k == 0
  {
    ScaledBelow(r, n);
    (r * n as real).Floor
  }

  lemma ScaledBelow(r: Draw, n: nat)
    ensures 0.0 <= r * n as real
    ensures n > 0 ==> r * n as real < n as real
  {
    if n > 0 {
      assert r * n as real < 1.0 * n as real;
    }
  }

  /** Every index below n is the outcome of some draw: the draw k/n picks index k. */
  lemma ScaledFloorReaches(n: nat, k: nat)
    requires k < n
    ensures 0.0 <= k as real / n as real < 1.0
    ensures ScaledFloor(k as real / n as real, n) == k
  {
    var r := k as real / n as real;
    assert r * n as real == k as real;
    assert r < n as real / n as real;
    assert n as real / n as real == 1.0;
  }

  /**
   * The `%` operator of JavaScript on integers: the remainder takes the sign of
   * the dividend (truncating division), unlike Dafny's Euclidean `%`.
   */
  function JsRem(a: int, b: int): (r: int)
    requires b != 0
    ensures a >= 0 ==> 0 <= r < (if b > 0 then b else -b)
    ensures a <= 0 ==> -(if b > 0 then b else -b) < r <= 0
    ensures exists q: int :: a == q * b + r
  {
    var m := if b > 0 then b else -b;
    var r := if a >= 0 then a % m else -((-a) % m);
    assert a >= 0 ==> a == (a / m) * m + r;
    assert a < 0 ==> a == -((-a) / m) * m + r;
    if b > 0 then
      assert a == (if a >= 0 then a / m else -((-a) / m)) * b + r;
      r
    else
      assert a == -(if a >= 0 then a / m else -((-a) / m)) * b + r;
      r
  }

  /** JavaScript's `%` agrees with the Euclidean remainder when both operands are positive. */
  lemma JsRemNonNegative(a: int, b: int)
    requires a >= 0 && b > 0
    ensures JsRem(a, b) == a % b
  {
    var r := JsRem(a, b);
    var q :| a == q * b + r;
    RemainderUnique(a, b, q, r);
  }

  /** A remainder below the divisor is the remainder: a == q*n + r with 0 <= r < n fixes r and q. */
  lemma RemainderUnique(a: int, n: int, q: int, r: int)
    requires n > 0 && 0 <= r < n && a == q * n + r
    ensures a % n == r && a / n == q
  {
    var q0, r0 := a / n, a % n;
    assert a == q0 * n + r0;
    var d := q - q0;
    assert d * n == r0 - r;
  }
}
