/** Facts about quotients and remainders that the solver does not find on its own. */
module Arithmetic {

  lemma TimesMonotone(a: nat, b: nat, n: nat)
    requires a <= b
    ensures a * n <= b * n
  {
    assert b * n == a * n + (b - a) * n;
  }

  lemma RemainderUnique(a: nat, n: nat, q: nat, r: nat)
    requires 0 < n && r < n && a == q * n + r
    ensures a % n == r && a / n == q
  {
    var q' := a / n;
    assert a == q' * n + a % n;
    assert (q + 1) * n == q * n + n && (q' + 1) * n == q' * n + n;
    if q < q' {
      TimesMonotone(q + 1, q', n);
    } else if q' < q {
      TimesMonotone(q' + 1, q, n);
    }
  }

  lemma MultiplesStep(a: nat, n: nat)
    requires 0 < n <= a
    ensures (a - n) % n == a % n
  {
    var q, r := (a - n) / n, (a - n) % n;
    assert a - n == q * n + r;
    assert (q + 1) * n == q * n + n;
    RemainderUnique(a, n, q + 1, r);
  }
}
