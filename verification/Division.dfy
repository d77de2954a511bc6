/** Division with remainder. */
module Division {

  lemma Multiples(d: nat, x: int)
    ensures x >= 1 ==> d * x >= d
    ensures x <= -1 ==> d * x + d <= 0
  {
    assert d * x == d + d * (x - 1) == d * (x + 1) - d;
  }

  /** Division with remainder is unique. */
  lemma DivModIs(n: nat, d: nat, q: nat, r: nat)
    requires r < d && n == d * q + r
    ensures n / d == q && n % d == r
  {
    assert n == d * (n / d) + n % d;
    assert d * (q - n / d) == n % d - r;
    Multiples(d, q - n / d);
  }

  lemma ModStep(k: nat, d: nat)
    requires d > 0
    ensures (k + 1) % d == if k % d + 1 == d then 0 else k % d + 1
    ensures (k + 1) / d == if k % d + 1 == d then k / d + 1 else k / d
  {
    var q, r := k / d, k % d;
    if r + 1 == d {
      assert d * (q + 1) == d * q + d;
      DivModIs(k + 1, d, q + 1, 0);
    } else {
      DivModIs(k + 1, d, q, r + 1);
    }
  }

  lemma ModWithin(n: nat, k: nat, d: nat)
    requires d > 0 && n % d + k < d
    ensures (n + k) % d == n % d + k
  {
    DivModIs(n + k, d, n / d, n % d + k);
  }
}
