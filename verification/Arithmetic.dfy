/** Integer arithmetic as C does it, and products the solver does not know. */
module Arithmetic {

  /** C division and remainder: towards zero. */
  function Quot(a: int, b: int): int
    requires b > 0
  {
    if a >= 0 then a / b else -(-a / b)
  }

  function Rem(a: int, b: int): int
    requires b > 0
  {
    a - b * Quot(a, b)
  }

  /** C division by magnitude and sign. */
  lemma QuotRem(z: int, b: int)
    requires z >= 0 && b > 0
    ensures Quot(z, b) == z / b && Rem(z, b) == z % b && Quot(-z, b) == -(z / b) && Rem(-z, b) == -(z % b)
  {}

  lemma {:induction false} MulGrows(k: nat, n: nat)
    requires k >= 1
    ensures k * n >= n
  {
    if k > 1 {
      MulGrows(k - 1, n);
      assert k * n == (k - 1) * n + n;
    }
  }

  /** A product of natural numbers is one. */
  function MulNat(a: nat, b: nat): (r: nat)
    ensures r == a * b
  {
    NonNegative(a, b);
    a * b
  }

  lemma NonNegative(a: nat, b: nat)
    ensures a * b >= 0
  {}

  lemma RowColumn(a: nat, b: nat, n: nat)
    requires a < n
    ensures (a + b * n) / n == b && (a + b * n) % n == a
  {
    var q, r := (a + b * n) / n, (a + b * n) % n;
    assert (q - b) * n == a - r by { assert a + b * n == q * n + r; assert (q - b) * n == q * n - b * n; }
    assert (b - q) * n == -((q - b) * n);
    if q > b { MulGrows(q - b, n); }
    if q < b { MulGrows(b - q, n); }
  }
}
