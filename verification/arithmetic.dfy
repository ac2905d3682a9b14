/** Division by a variable, where the verifier needs the quotient spelled out. */
module Arithmetic {
  // x == n * q + r with r in range determines both quotient and remainder.
  lemma DivisionIsUnique(x: int, n: nat, q: int, r: nat)
    requires n > 0 && x == n * q + r && r < n
    ensures x / n == q && x % n == r
  {
    var d := x / n - q;
    assert n * d == r - x % n;
    assert d >= 1 ==> n * d >= n;
    assert d <= -1 ==> n * d + n <= 0;
  }

  lemma MultipleHasNoRemainder(r: nat, n: nat)
    requires n > 0
    ensures (r * n) % n == 0 && (r * n) / n == r
  {
    assert r * n == n * r + 0;
    DivisionIsUnique(r * n, n, r, 0);
  }
}
