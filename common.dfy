/** Failure-carrying wrappers and the JavaScript integer operators the engine relies on. */
module Common {

  datatype Option<T> = None | Some(value: T) {
    function GetOr(default: T): T {
      match this
      case Some(v) => v
      case None => default
    }
  }

  datatype Result<T, E> = Success(value: T) | Failure(error: E)

  datatype Outcome<E> = Pass | Fail(error: E)

  /** JavaScript's `a % m` on integers: the remainder takes the sign of the dividend. */
  function JsRem(a: int, m: int): (r: int)
    requires m > 0
    ensures a >= 0 ==> r == a % m
    ensures a < 0 ==> r == -((-a) % m)
    ensures -m < r < m
  {
    if a >= 0 then a % m else -((-a) % m)
  }

  lemma MulAtLeast(k: int, m: int)
    requires k >= 1 && m > 0
    ensures k * m >= m
  {
  }

  lemma MulSub(a: int, b: int, m: int)
    ensures a * m - b * m == (a - b) * m
  {
  }

  /** The Euclidean remainder is the unique `r` in `[0, m)` with `a == q * m + r`. */
  lemma ModUnique(a: int, m: int, q: int, r: int)
    requires m > 0 && 0 <= r < m && a == q * m + r
    ensures a % m == r
  {
    var q0, r0 := a / m, a % m;
    assert a == q0 * m + r0;
    MulSub(q0, q, m);
    if q0 > q {
      MulAtLeast(q0 - q, m);
    } else if q0 < q {
      MulAtLeast(q - q0, m);
    }
  }

  /** Truncating and Euclidean remainder agree up to one multiple of the modulus. */
  lemma JsRemShift(a: int, m: int)
    requires m > 0
    ensures JsRem(a, m) >= 0 ==> JsRem(a, m) == a % m
    ensures JsRem(a, m) < 0 ==> JsRem(a, m) + m == a % m
  {
    if a < 0 {
      var q := (-a) / m;
      var s := (-a) % m;
      assert -a == q * m + s;
      if s != 0 {
        assert a == (-q - 1) * m + (m - s);
        ModUnique(a, m, -q - 1, m - s);
      } else {
        assert a == (-q) * m + 0;
        ModUnique(a, m, -q, 0);
      }
    }
  }

  /** Concatenation regroups freely. */
  lemma AppendAssoc<T>(a: seq<T>, b: seq<T>, c: seq<T>)
    ensures a + (b + c) == (a + b) + c
  {
  }
}
