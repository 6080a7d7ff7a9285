/** Small shared definitions: an optional value and the index arithmetic of the host library. */
module Util {

  datatype Option<T> = None | Some(value: T) {
    function GetOr(default: T): T {
      if Some? then value else default
    }
  }

  /** A product n * d with n > 0 lies strictly between -n and n only for d == 0. */
  lemma SmallMultipleIsZero(n: int, d: int)
    requires n > 0
    requires -n < n * d < n
    ensures d == 0
  {
  }

  /** Euclidean division is determined by quotient and remainder. */
  lemma EuclidUnique(i: int, n: int, q: int, r: int)
    requires n > 0 && 0 <= r < n && i == n * q + r
    ensures i % n == r && i / n == q
  {
    var q', r' := i / n, i % n;
    assert n * (q - q') == r' - r;
    SmallMultipleIsZero(n, q - q');
  }

  /** The quotient of JavaScript's truncating division (`Math.trunc(i / n)`). */
  function JsQuot(i: int, n: int): int
    requires n > 0
  {
    if i >= 0 then i / n else -((-i) / n)
  }

  /** The remainder of JavaScript's `%`: truncates toward zero, so it takes the sign of `i`. */
  function JsRem(i: int, n: int): (r: int)
    requires n > 0
    ensures -n < r < n
    ensures i >= 0 ==> r >= 0
    ensures i < 0 ==> r <= 0
    ensures i == n * JsQuot(i, n) + r
  {
    if i >= 0 then i % n else -((-i) % n)
  }

  /**
   * The numeric case of the host library's `getIndex(i, elements)` for a non-empty
   * collection of `n` elements (`i %= length; return i < 0 ? i + length : i`):
   * every integer, negative ones included, wraps around to a valid position.
   */
  function Wrap(i: int, n: int): (r: nat)
    requires n > 0
    ensures r < n
  {
    var t := JsRem(i, n);
    if t < 0 then t + n else t
  }

  /** The wrapped position is the Euclidean remainder of `i`. */
  lemma WrapIsEuclideanRemainder(i: int, n: int)
    requires n > 0
    ensures Wrap(i, n) == i % n
  {
    var t := JsRem(i, n);
    if t < 0 {
      EuclidUnique(i, n, JsQuot(i, n) - 1, t + n);
    } else {
      EuclidUnique(i, n, JsQuot(i, n), t);
    }
  }

  /** A position already in range is its own wrap. */
  lemma WrapInRange(i: int, n: int)
    requires 0 <= i < n
    ensures Wrap(i, n) == i
  {
  }

  /** Stepping from `index` by the wrapped distance to `k` lands on `k`. */
  lemma WrapDistance(index: int, k: int, n: int)
    requires 0 <= k < n
    ensures Wrap(index + Wrap(k - index, n), n) == k
  {
    var j := Wrap(k - index, n);
    WrapIsEuclideanRemainder(k - index, n);
    var q := (k - index) / n;
    assert k - index == n * q + j;
    assert index + j == n * (-q) + k;
    EuclidUnique(index + j, n, -q, k);
    WrapIsEuclideanRemainder(index + j, n);
  }
}
