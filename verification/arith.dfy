/** Facts about multiplication and Euclidean division by a positive width, proved from
    the division identity so that the readers' byte arithmetic stays linear. */
module Arith {

  lemma MulGe(a: int, d: int)
    requires a >= 1 && d > 0
    ensures a * d >= d
  {
    if a > 1 {
      MulGe(a - 1, d);
      assert a * d == (a - 1) * d + d;
    }
  }

  lemma MulSucc(a: int, c: int)
    ensures (a + 1) * c == a * c + c
  {
  }

  lemma MulMono(a: int, b: int, c: nat)
    requires a <= b
    ensures a * c <= b * c
  {
    if a < b && c > 0 {
      MulGe(b - a, c);
      assert b * c - a * c == (b - a) * c;
    }
  }

  /** Quotient and remainder are determined by the division identity. */
  lemma DivUnique(x: int, d: int, q: int, r: int)
    requires d > 0 && 0 <= r < d && x == q * d + r
    ensures x / d == q && x % d == r
  {
    var q0 := x / d;
    var r0 := x % d;
    assert x == q0 * d + r0;
    assert (q - q0) * d == r0 - r;
    if q > q0 {
      MulGe(q - q0, d);
    } else if q < q0 {
      MulGe(q0 - q, d);
    }
  }

  lemma MulDivCancel(m: int, w: int)
    requires w > 0
    ensures (m * w) / w == m
    ensures (m * w) % w == 0
  {
    DivUnique(m * w, w, m, 0);
  }

  /** A byte count no larger than m samples holds at most m whole samples. */
  lemma DivBelow(got: nat, m: nat, w: nat)
    requires w > 0
    requires got <= m * w
    ensures got / w <= m
  {
    var q := got / w;
    assert got == q * w + got % w;
    if q > m {
      MulMono(m + 1, q, w);
    }
  }

  /** ceil(n / d) is the c with (c - 1) * d < n <= c * d. */
  lemma CeilDivUnique(n: nat, d: nat, c: nat)
    requires d > 0
    requires (c - 1) * d < n <= c * d
    ensures (n + d - 1) / d == c
  {
    assert (c - 1) * d == c * d - d;
    DivUnique(n + d - 1, d, c, n + d - 1 - c * d);
  }
}
