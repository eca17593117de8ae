/** Integer arithmetic the scheduler relies on: minimum and maximum, the integer
    ceiling square root that replaces `(x as f64).sqrt().ceil() as usize`, and
    the facts about multiplication and Euclidean division the proofs need. */
module Arith {

  function Min(x: int, y: int): int { if x <= y then x else y }

  function Max(x: int, y: int): int { if x <= y then y else x }

  /** The least `s` with `s * s >= x`. */
  function CeilSqrt(x: nat): (s: nat)
    ensures s * s >= x
    ensures s == 0 || (s - 1) * (s - 1) < x
    ensures s == 0 <==> x == 0
  {
    CeilSqrtFrom(x, 0)
  }

  /** Searches upwards from `t`, every candidate below which is too small. */
  function CeilSqrtFrom(x: nat, t: nat): (s: nat)
    requires t == 0 || (t - 1) * (t - 1) < x
    ensures s * s >= x
    ensures s == 0 || (s - 1) * (s - 1) < x
    decreases x - t
  {
    if t * t >= x then t
    else
      assert t <= t * t by { if t > 0 { MulMonotone(1, t, t); } }
      CeilSqrtFrom(x, t + 1)
  }

  /** No `s` smaller than the ceiling square root squares to `x` or more. */
  lemma {:induction false} CeilSqrtLeast(x: nat, s: nat)
    requires s * s >= x
    ensures CeilSqrt(x) <= s
  {
    var r := CeilSqrt(x);
    if r > s {
      MulMonotone(s, r - 1, s);
      MulMonotone(s, r - 1, r - 1);
      assert false;
    }
  }

  lemma {:induction false} MulMonotone(a: int, b: int, c: nat)
    requires a <= b
    ensures a * c <= b * c
  {
    if c > 0 {
      MulMonotone(a, b, c - 1);
      assert a * c == a * (c - 1) + a;
      assert b * c == b * (c - 1) + b;
    }
  }

  lemma MulSucc(a: int, b: int)
    ensures (a + 1) * b == a * b + b
  {
  }

  /** Euclidean division of `q * s + t` by `s` recovers `q` and `t`. */
  lemma DivMulAdd(q: nat, s: nat, t: nat)
    requires t < s
    ensures (q * s + t) / s == q
    ensures (q * s + t) % s == t
  {
    var r := q * s + t;
    var d := r / s;
    assert r == d * s + r % s;
    if d < q {
      MulMonotone(d + 1, q, s);
      assert false;
    } else if d > q {
      MulMonotone(q + 1, d, s);
      assert false;
    }
  }

  /** Euclidean quotient and remainder of naturals are naturals. */
  lemma DivisionBounds(x: nat, d: nat)
    requires d > 0
    ensures x / d >= 0 && 0 <= x % d < d
  {
  }

  /** `k` is at most `n / g` exactly when `k * g` does not exceed `n`. */
  lemma DivBound(n: nat, g: nat, k: nat)
    requires g > 0
    ensures k <= n / g <==> k * g <= n
  {
    var q := n / g;
    assert n == q * g + n % g;
    if k <= q {
      MulMonotone(k, q, g);
    } else {
      MulMonotone(q + 1, k, g);
    }
  }
}
