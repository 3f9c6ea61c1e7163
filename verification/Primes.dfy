/**
 The prime numbers of `utils`: a test by trial division with 6k-1 and 6k+1, and the search for the
 next bucket count of the rehashing tables.
 */
module Primes {
  import opened Arithmetic
  import opened Wrappers

  ghost predicate Divides(d: int, n: int)
    requires d > 0
  {
    n % d == 0
  }

  ghost predicate Prime(n: int) {
    n >= 2 && forall d :: 2 <= d < n ==> !Divides(d, n)
  }

  // ----- Divisibility -----

  lemma DividesProduct(d: int, n: int, k: int)
    requires d > 0 && n == d * k
    ensures Divides(d, n)
  {
    UniqueQuotient(n, d, k, 0);
  }

  lemma DividesTransitive(a: int, b: int, n: int)
    requires a > 0 && b > 0 && Divides(a, b) && Divides(b, n)
    ensures Divides(a, n)
  {
    var k, m := b / a, n / b;
    assert n == b * m == a * k * m == a * (k * m);
    DividesProduct(a, n, k * m);
  }

  lemma DividesDifference(d: int, m: int, n: int)
    requires d > 0 && Divides(d, m) && Divides(d, n)
    ensures Divides(d, m - n)
  {
    assert m == d * (m / d) && n == d * (n / d);
    assert m - n == d * (m / d - n / d);
    DividesProduct(d, m - n, m / d - n / d);
  }

  // ----- There are infinitely many primes -----

  ghost function Factorial(n: nat): nat
    ensures Factorial(n) >= 1
  {
    if n == 0 then 1 else
      assert n * Factorial(n - 1) >= 1;
      n * Factorial(n - 1)
  }

  lemma {:induction false} DividesFactorial(d: nat, n: nat)
    requires 1 <= d <= n
    ensures Divides(d, Factorial(n))
  {
    if d == n {
      DividesProduct(d, Factorial(n), Factorial(n - 1));
    } else {
      DividesFactorial(d, n - 1);
      var k := Factorial(n - 1) / d;
      assert Factorial(n - 1) == d * k;
      assert Factorial(n) == n * (d * k) == d * (n * k);
      DividesProduct(d, Factorial(n), n * k);
    }
  }

  /** The least divisor from `d` on of a number that none below `d` divides. */
  lemma {:induction false} LeastDivisor(n: int, d: int) returns (p: int)
    requires 2 <= d <= n && forall c :: 2 <= c < d ==> !Divides(c, n)
    ensures Prime(p) && Divides(p, n)
    decreases n - d
  {
    if Divides(d, n) {
      p := d;
      forall c | 2 <= c < p
        ensures !Divides(c, p)
      {
        if Divides(c, p) {
          DividesTransitive(c, p, n);
        }
      }
    } else {
      if d == n {
        DividesProduct(n, n, 1);
      }
      p := LeastDivisor(n, d + 1);
    }
  }

  lemma Euclid(n: nat) returns (p: int)
    ensures Prime(p) && p > n
  {
    var f := Factorial(n) + 1;
    p := LeastDivisor(f, 2);
    if p <= n {
      DividesFactorial(p, n);
      DividesDifference(p, f, Factorial(n));
      assert false;
    }
  }

  // ----- The prime test -----

  function Square(n: int): int {
    n * n
  }

  lemma SquareIsLarger(n: nat)
    ensures Square(n) >= n
  {
  }

  /** The square root rounded up, exactly. */
  function CeilSqrt(n: nat, from: nat := 0): (r: nat)
    requires from == 0 || Square(from - 1) < n
    ensures n <= Square(r) && (r == 0 || Square(r - 1) < n)
    decreases n - from
  {
    if n <= Square(from) then from
    else
      SquareIsLarger(from);
      CeilSqrt(n, from + 1)
  }

  lemma AtMostOneTime(c: int, d: int)
    requires d > 0 && c <= 1
    ensures d * c <= d
  {
  }

  lemma Cofactor(n: int, d: int) returns (c: int)
    requires 2 <= d < n && Divides(d, n)
    ensures 2 <= c < n && n == d * c
  {
    c := n / d;
    BetweenOneAndAll(n, d, c);
  }

  lemma BetweenOneAndAll(n: int, d: int, c: int)
    requires 2 <= d < n && n == d * c
    ensures 2 <= c < n
  {
    if c <= 1 {
      AtMostOneTime(c, d);
    }
    assert d * c == 2 * c + (d - 2) * c;
  }

  lemma SquareBound(a: int, b: int, root: nat)
    requires a > root && b > root
    ensures a * b > Square(root)
  {
    assert a * b >= (root + 1) * b >= (root + 1) * (root + 1);
  }

  /** A number that is not prime has a divisor no larger than its square root. */
  lemma SmallDivisor(n: int, root: nat, d: int) returns (c: int)
    requires 2 <= d < n && Divides(d, n) && n <= Square(root)
    ensures 2 <= c <= root && c < n && Divides(c, n)
  {
    if d <= root {
      c := d;
    } else {
      c := Cofactor(n, d);
      if c > root {
        SquareBound(d, c, root);
      }
      DividesProduct(c, n, d);
    }
  }

  /** A number that 2 and 3 do not divide is divided by no multiple of them. */
  lemma NoMultiple(n: int, d: int)
    requires n % 2 != 0 && n % 3 != 0 && d > 0 && (d % 2 == 0 || d % 3 == 0)
    ensures !Divides(d, n)
  {
    if Divides(d, n) {
      DividesTransitive(if d % 2 == 0 then 2 else 3, d, n);
    }
  }

  lemma SixResidues(i: int, k: int)
    requires i == 6 * k + 5
    ensures (i + 1) % 2 == 0 && (i + 3) % 2 == 0 && (i + 4) % 3 == 0 && (i + 5) % 2 == 0
  {
    DividesProduct(2, i + 1, 3 * k + 3);
    DividesProduct(2, i + 3, 3 * k + 4);
    DividesProduct(3, i + 4, 2 * k + 3);
    DividesProduct(2, i + 5, 3 * k + 5);
  }

  ghost predicate NoneBelow(n: int, i: int) {
    forall d :: 2 <= d < i ==> !Divides(d, n)
  }

  lemma NoneBelowFive(n: int)
    requires n % 2 != 0 && n % 3 != 0
    ensures NoneBelow(n, 5)
  {
    NoMultiple(n, 4);
  }

  lemma SixMore(n: int, i: int, k: int)
    requires n % 2 != 0 && n % 3 != 0 && i > 0 && i == 6 * k + 5
    requires n % i != 0 && n % (i + 2) != 0 && NoneBelow(n, i)
    ensures NoneBelow(n, i + 6)
  {
    assert !Divides(i, n) && !Divides(i + 2, n);
    SixResidues(i, k);
    NoMultiple(n, i + 1);
    NoMultiple(n, i + 3);
    NoMultiple(n, i + 4);
    NoMultiple(n, i + 5);
  }

  lemma RootIsSmall(n: int, root: nat)
    requires root >= 5 && Square(root - 1) < n
    ensures root + 2 < n
  {
    assert (root - 1) * (root - 1) >= 4 * (root - 1);
  }

  lemma DivisorFound(num: int, root: nat, i: int)
    requires 5 <= i <= root && Square(root - 1) < num
    requires num % i == 0 || num % (i + 2) == 0
    ensures !Prime(num)
  {
    RootIsSmall(num, root);
    assert Divides(i, num) || Divides(i + 2, num);
  }

  lemma NoDivisorFound(num: int, root: nat, i: int)
    requires num >= 2 && num <= Square(root) && NoneBelow(num, i) && i > root
    ensures Prime(num)
  {
    forall d | 2 <= d < num
      ensures !Divides(d, num)
    {
      if Divides(d, num) {
        var c := SmallDivisor(num, root, d);
      }
    }
  }

  method IsPrime(num: int) returns (prime: bool)
    ensures prime <==> Prime(num)
  {
    if num <= 1 {
      return false;
    }
    if num <= 3 {
      return true;
    }
    if num % 2 == 0 || num % 3 == 0 {
      assert Divides(2, num) || Divides(3, num);
      return false;
    }
    NoneBelowFive(num);
    var root := CeilSqrt(num);
    var i := 5;
    ghost var k := 0;
    while i <= root
      invariant i == 6 * k + 5 >= 5
      invariant NoneBelow(num, i)
    {
      if num % i == 0 || num % (i + 2) == 0 {
        DivisorFound(num, root, i);
        return false;
      }
      SixMore(num, i, k);
      i, k := i + 6, k + 1;
    }
    NoDivisorFound(num, root, i);
    return true;
  }

  // ----- The next bucket count -----

  /** `p` is the least prime that is at least `low`. */
  ghost predicate IsNextPrime(low: int, p: int) {
    p >= low && Prime(p) && forall q :: low <= q < p ==> !Prime(q)
  }

  lemma EvenIsNotPrime(n: int)
    requires n > 2 && n % 2 == 0
    ensures !Prime(n)
  {
    assert Divides(2, n);
  }

  /** The least prime from 2n+1 on; `None` stands for the `invalid_argument` exception. */
  method GetDoublePrimeNumber(n: int) returns (r: Option<int>)
    ensures r.None? <==> n <= 0
    ensures r.Some? ==> IsNextPrime(2 * n + 1, r.value)
  {
    if n <= 0 {
      return None;
    }
    var num := 2 * n + 1;
    ghost var p := Euclid(num);
    if p % 2 == 0 {
      EvenIsNotPrime(p);
    }
    while true
      invariant 2 * n + 1 <= num <= p && num % 2 == 1
      invariant forall q :: 2 * n + 1 <= q < num ==> !Prime(q)
      decreases p - num
    {
      var prime := IsPrime(num);
      if prime {
        return Some(num);
      }
      EvenIsNotPrime(num + 1);
      num := num + 2;
    }
  }

  /** Search for the least prime from `low` to the prime `p`. */
  lemma {:induction false} LeastPrime(low: int, p: int) returns (q: int)
    requires low <= p && Prime(p)
    ensures IsNextPrime(low, q)
    decreases p - low
  {
    if Prime(low) {
      q := low;
    } else {
      q := LeastPrime(low + 1, p);
    }
  }

  lemma NextPrimeExists(low: nat)
    ensures exists p :: IsNextPrime(low, p)
  {
    var p := Euclid(low);
    var q := LeastPrime(low, p);
  }

  /** The bucket count that follows `n`. */
  ghost function NextCount(n: nat): (p: int)
    requires n > 0
    ensures IsNextPrime(2 * n + 1, p)
  {
    NextPrimeExists(2 * n + 1);
    var p :| IsNextPrime(2 * n + 1, p);
    p
  }

  lemma NextCountIsUnique(n: nat, p: int)
    requires n > 0 && IsNextPrime(2 * n + 1, p)
    ensures p == NextCount(n)
  {
    var q := NextCount(n);
  }
}
