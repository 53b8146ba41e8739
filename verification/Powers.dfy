/** Powers of two and the integer logarithm. */
module Powers {

  function Pow2(n: nat): nat {
    if n == 0 then 1 else 2 * Pow2(n - 1)
  }

  lemma {:induction false} Pow2Positive(n: nat)
    ensures 1 <= Pow2(n)
  {
    if n > 0 {
      Pow2Positive(n - 1);
    }
  }

  lemma {:induction false} Pow2Monotone(m: nat, n: nat)
    requires m <= n
    ensures Pow2(m) <= Pow2(n)
  {
    if m < n {
      Pow2Monotone(m, n - 1);
      Pow2Positive(n - 1);
    }
  }

  lemma {:induction false} Pow2Add(m: nat, n: nat)
    ensures Pow2(m + n) == Pow2(m) * Pow2(n)
  {
    if m > 0 {
      Pow2Add(m - 1, n);
      assert Pow2(m) * Pow2(n) == 2 * (Pow2(m - 1) * Pow2(n));
    }
  }

  lemma Pow2Double(n: nat)
    ensures Pow2(2 * n) == Pow2(n) * Pow2(n)
  {
    Pow2Add(n, n);
    assert n + n == 2 * n;
  }

  lemma Pow2At64()
    ensures Pow2(64) == 0x1_0000_0000_0000_0000
  {
    Pow2Add(2, 2);
    Pow2Add(4, 4);
    Pow2Add(8, 8);
    Pow2Add(16, 16);
    Pow2Add(32, 32);
  }

  /** The integer part of the binary logarithm, and 0 at 0. */
  function Log2(v: nat): nat {
    if v < 2 then 0 else 1 + Log2(v / 2)
  }

  /** The logarithm is the exponent of the power-of-two bucket that holds the value. */
  lemma {:induction false} Log2Bounds(v: nat)
    ensures v < Pow2(Log2(v) + 1)
    ensures 1 <= v ==> Pow2(Log2(v)) <= v
  {
    if v >= 2 {
      Log2Bounds(v / 2);
      assert Pow2(Log2(v)) == 2 * Pow2(Log2(v / 2));
    }
  }

  lemma Log2Monotone(v: nat, w: nat)
    requires v <= w
    ensures Log2(v) <= Log2(w)
  {
    if Log2(w) < Log2(v) {
      Pow2Monotone(Log2(w) + 1, Log2(v));
      Log2Bounds(v);
      Log2Bounds(w);
    }
  }

  /** Shifting right by i lowers the logarithm by i. */
  lemma {:induction false} Log2Shift(v: nat, i: nat)
    requires Pow2(i) <= v
    ensures Pow2(i) > 0 && 1 <= v / Pow2(i)
    ensures Log2(v) == i + Log2(v / Pow2(i))
  {
    Pow2Positive(i);
    if i > 0 {
      var h := Pow2(i - 1);
      Pow2Positive(i - 1);
      assert h <= v / 2;
      Log2Shift(v / 2, i - 1);
      assert v / (2 * h) == v / 2 / h by {
        DivTwice(v, h);
      }
    }
  }

  lemma DivTwice(v: nat, h: nat)
    requires 1 <= h
    ensures v / (2 * h) == v / 2 / h
  {
    var q := v / 2 / h;
    var r := v / 2 % h;
    assert v / 2 == q * h + r;
    assert v == q * (2 * h) + (2 * r + v % 2);
    DivUnique(v, 2 * h, q, 2 * r + v % 2);
  }

  lemma DivUnique(v: nat, d: nat, q: nat, r: nat)
    requires v == q * d + r && r < d
    ensures v / d == q
  {
    var q' := v / d;
    assert v == q' * d + v % d;
    if q' < q {
      MulMonotone(q' + 1, q, d);
    } else if q < q' {
      MulMonotone(q + 1, q', d);
    }
  }

  lemma DivBelow(v: nat, p: nat)
    requires 0 < p && v < p * p
    ensures v / p < p
  {
    var q := v / p;
    assert v == q * p + v % p;
    if p <= q {
      MulMonotone(p, q, p);
    }
  }

  lemma MulMonotone(a: nat, b: nat, d: nat)
    requires a <= b
    ensures a * d <= b * d
  {
  }
}
