/** The few facts about quotients and remainders that the proofs need. */
module Arithmetic {

  lemma {:induction false} MulMonotone(a: int, b: int, w: int)
    requires a <= b && 0 <= w
    ensures a * w <= b * w
  {
    assert 0 <= (b - a) * w;
  }

  lemma {:induction false} QuotientUnique(w: int, q: int, r: int, q': int, r': int)
    requires 0 <= r < w && 0 <= r' < w
    requires q * w + r == q' * w + r'
    ensures q == q' && r == r'
  {
    if q < q' {
      MulMonotone(q + 1, q', w);
    } else if q' < q {
      MulMonotone(q' + 1, q, w);
    }
  }

  lemma {:induction false} DivModOf(n: int, w: int, q: int, r: int)
    requires 0 <= r < w && n == q * w + r
    ensures n / w == q && n % w == r
  {
    var q', r' := n / w, n % w;
    assert n == q' * w + r';
    QuotientUnique(w, q, r, q', r');
  }

  lemma {:induction false} SmallMod(n: int, w: int)
    requires 0 < w
    ensures 0 <= n < w ==> n % w == n
  {
    if 0 <= n < w {
      DivModOf(n, w, 0, n);
    }
  }

  lemma {:induction false} ModMinus(n: int, w: int)
    requires 0 < w
    ensures n % w == (n - w) % w
    ensures n / w == (n - w) / w + 1
    ensures 0 <= n % w < w
  {
    var q, r := (n - w) / w, (n - w) % w;
    assert n - w == q * w + r;
    assert (q + 1) * w == q * w + w;
    DivModOf(n, w, q + 1, r);
  }
}
