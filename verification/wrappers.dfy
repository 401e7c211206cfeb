/** Failure-compatible wrappers shared by every module of the model. */
module Wrappers {
  /** An optional value: the C++ code's null pointers and "not found" results. */
  datatype Option<+T> = None | Some(value: T)

  /** The outcome of an operation that can abort on a failed ASSERT_* check or throw. */
  datatype Result<+T> = Ok(value: T) | Fail(reason: string)
}

/** C++ integer division and remainder, which truncate toward zero. */
module CInt {
  /** `a / b` as C++ computes it on `int`: the quotient truncated toward zero. */
  function Div(a: int, b: int): (q: int)
    requires b != 0
  {
    if a >= 0 && b > 0 then a / b
    else if a >= 0 then -(a / -b)
    else if b > 0 then -((-a) / b)
    else (-a) / (-b)
  }

  /** `a % b` as C++ computes it on `int`: the remainder takes the sign of `a`. */
  function Mod(a: int, b: int): (m: int)
    requires b != 0
  {
    a - b * Div(a, b)
  }

  /** Truncating division and remainder recombine to the dividend, the remainder is
      smaller in magnitude than the divisor, and it is never of opposite sign to the dividend. */
  lemma DivModProperties(a: int, b: int)
    requires b != 0
    ensures a == b * Div(a, b) + Mod(a, b)
    ensures -Abs(b) < Mod(a, b) < Abs(b)
    ensures a >= 0 ==> Mod(a, b) >= 0
    ensures a < 0 ==> Mod(a, b) <= 0
    ensures a >= 0 && b > 0 ==> Div(a, b) == a / b && Mod(a, b) == a % b
  {
  }

  function Abs(x: int): int { if x < 0 then -x else x }

  /** Multiplying by a non-negative factor keeps the order. */
  lemma MulLe(a: int, b: int, w: int)
    requires a <= b && w >= 0
    ensures a * w <= b * w
  {
    assert b * w - a * w == (b - a) * w;
  }

  /** Euclidean division: a quotient and remainder that recombine are the ones. */
  lemma DivModUnique(a: int, w: int, q: int, r: int)
    requires w > 0 && 0 <= r < w && a == q * w + r
    ensures a / w == q && a % w == r
  {
    var q', r' := a / w, a % w;
    assert a == q' * w + r';
    if q' < q {
      MulLe(q' + 1, q, w);
    } else if q' > q {
      MulLe(q + 1, q', w);
    }
  }
}
