/**
 Division rounded up.
 */
module Arithmetic {

  function CeilDiv(x: nat, n: nat): nat
    requires n >= 1
  {
    (x + n - 1) / n
  }

  lemma ScaleLe(a: nat, b: nat, n: nat)
    requires a <= b
    ensures a * n <= b * n && (a + 1) * n == a * n + n
    ensures a > 0 ==> (a - 1) * n == a * n - n
  {
    assert b * n == a * n + (b - a) * n;
  }

  /** A quotient rounded up is the number of blocks of size n that x needs. */
  lemma CeilDivBounds(x: nat, n: nat)
    requires n >= 1
    ensures (CeilDiv(x, n) - 1) * n < x <= CeilDiv(x, n) * n || (x == 0 && CeilDiv(x, n) == 0)
  {
    var y := x + n - 1;
    var q, r := y / n, y % n;
    assert y == q * n + r;
    assert (q - 1) * n == q * n - n;
    if x == 0 {
      assert y / n == 0;
    }
  }

  /** The bounds determine the quotient. */
  lemma CeilDivUnique(x: nat, n: nat, k: nat)
    requires n >= 1
    requires (k - 1) * n < x <= k * n
    ensures CeilDiv(x, n) == k
  {
    var q := CeilDiv(x, n);
    CeilDivBounds(x, n);
    if q < k {
      ScaleLe(q, k - 1, n);
    } else if q > k {
      ScaleLe(k, q - 1, n);
    }
  }
}
