/** Integer helpers: minimum, and the uniqueness of Euclidean division. */
module Arith {

  function Min(a: int, b: int): (m: int)
    ensures m <= a && m <= b && (m == a || m == b)
  {
    if a < b then a else b
  }

  /** A product grows with its left factor. */
  lemma MulMonotone(a: int, b: int, w: int)
    requires a <= b && w >= 0
    ensures a * w <= b * w
  {
    assert b * w - a * w == (b - a) * w;
  }

  /** Quotient and remainder are the only pair that splits `x` around a multiple of `w`. */
  lemma DivUnique(x: int, w: int, q: int, r: int)
    requires w > 0 && x == q * w + r && 0 <= r < w
    ensures x / w == q && x % w == r
  {
    var q', r' := x / w, x % w;
    assert x == q' * w + r';
    if q' < q {
      assert (q' + 1) * w == q' * w + w;
      MulMonotone(q' + 1, q, w);
    } else if q < q' {
      assert (q + 1) * w == q * w + w;
      MulMonotone(q + 1, q', w);
    }
  }

  /** The ceiling of `n / w`: the number of windows of width `w` needed to cover `n` items. */
  function CeilDiv(n: nat, w: nat): nat
    requires w >= 1
  {
    (n + w - 1) / w
  }

  /** `c` is the ceiling of `n / w` exactly when `c` windows cover `n` and `c - 1` do not. */
  lemma CeilDivChar(n: nat, w: nat, c: nat)
    requires w >= 1
    ensures CeilDiv(n, w) == c <==> (c - 1) * w < n <= c * w || (n == 0 && c == 0)
  {
    var q, r := (n + w - 1) / w, (n + w - 1) % w;
    assert n + w - 1 == q * w + r;
    assert q * w + r - w + 1 == (q - 1) * w + r + 1;
    if (c - 1) * w < n <= c * w {
      assert n + w - 1 == c * w + (n - 1 - (c - 1) * w);
      assert (c - 1) * w == c * w - w;
      DivUnique(n + w - 1, w, c, n - 1 - (c - 1) * w);
    } else if n == 0 && c == 0 {
      DivUnique(n + w - 1, w, 0, w - 1);
    }
    if CeilDiv(n, w) == c {
      assert (c - 1) * w == c * w - w;
      if n > 0 {
        assert c * w >= n by {
          assert c * w + r == n + w - 1;
        }
      } else {
        DivUnique(n + w - 1, w, 0, w - 1);
      }
    }
  }
}
