/** Integer arithmetic shared by the numeric modules. */
module Arithmetic {

  function Abs(n: int): nat {
    if n < 0 then -n else n
  }

  /** Quotient and remainder of natural numbers, as repeated subtraction, which keeps the solver's work linear. */
  function Quot(a: nat, b: int): (q: int)
    requires b > 0
    ensures q >= 0
  {
    if a < b then 0 else 1 + Quot(a - b, b)
  }

  function Rem(a: nat, b: int): (r: int)
    requires b > 0
    ensures 0 <= r < b
  {
    if a < b then a else Rem(a - b, b)
  }

  /** Division of C++, which truncates toward zero. */
  function TruncDiv(a: int, b: int): int
    requires b > 0
  {
    if a >= 0 then Quot(a, b) else -Quot(-a, b)
  }

  /** The remainder of C++, which has the sign of the dividend. */
  function TruncMod(a: int, b: int): int
    requires b > 0
  {
    if a >= 0 then Rem(a, b) else -Rem(-a, b)
  }

  lemma AtLeastOneTime(k: int, d: int)
    requires d > 0 && k >= 1
    ensures k * d >= d
  {
  }

  lemma UniqueQuotient(n: int, d: int, q: int, r: int)
    requires d > 0 && 0 <= r < d && n == q * d + r
    ensures n / d == q && n % d == r
  {
    var q', r' := n / d, n % d;
    var k := q - q';
    assert k * d == r' - r by {
      assert q * d - q' * d == (q - q') * d;
    }
    if k >= 1 {
      AtLeastOneTime(k, d);
    } else if k <= -1 {
      assert (-k) * d == -(k * d);
      AtLeastOneTime(-k, d);
    }
  }

  lemma Division(n: int, d: int) returns (q: int, r: int)
    requires d > 0
    ensures q == n / d && r == n % d && n == q * d + r && 0 <= r < d
  {
    q, r := n / d, n % d;
  }

  lemma {:induction false} QuotRem(a: nat, b: int)
    requires b > 0
    ensures a == Quot(a, b) * b + Rem(a, b) && Rem(a, b) < b
  {
    if a < b {
    } else {
      QuotRem(a - b, b);
      assert (1 + Quot(a - b, b)) * b == b + Quot(a - b, b) * b;
    }
  }

  /** Repeated subtraction is division. */
  lemma QuotIsDivision(a: nat, b: int)
    requires b > 0
    ensures Quot(a, b) == a / b && Rem(a, b) == a % b
  {
    QuotRem(a, b);
    UniqueQuotient(a, b, Quot(a, b), Rem(a, b));
  }

  lemma UniqueQuot(a: nat, b: int, q: nat, r: nat)
    requires b > 0 && r < b && a == q * b + r
    ensures Quot(a, b) == q && Rem(a, b) == r
  {
    QuotIsDivision(a, b);
    UniqueQuotient(a, b, q, r);
  }

  lemma {:induction false} QuotBelow(a: nat, b: int, n: nat)
    requires b > 0 && a < n * b
    ensures Quot(a, b) < n
  {
    if a >= b {
      QuotBelow(a - b, b, n - 1);
    } else if n == 0 {
      assert false;
    }
  }
}
