/**
 Signed integers as words of `w` bits, for any width of at least two: sign and magnitude ("original
 code"), ones' complement and two's complement, with two algorithms for each complement, the decoders
 and a ripple-carry adder.  A word is a sequence of bits, the least significant one first.
 */
module SignedEncoding {
  import opened Arithmetic

  type Bin = seq<bool>

  datatype Result<T> = Ok(value: T) | Overflow

  // ----- Words and the numbers they stand for -----

  function Pow2(n: nat): (r: int)
    ensures r >= 1
  {
    if n == 0 then 1 else 2 * Pow2(n - 1)
  }

  function Digit(b: bool): nat {
    if b then 1 else 0
  }

  function Value(b: Bin): nat {
    if b == [] then 0 else Value(b[..|b| - 1]) + Digit(b[|b| - 1]) * Pow2(|b| - 1)
  }

  /** The number that a two's complement word stands for. */
  function Signed(b: Bin): int
    requires |b| >= 1
  {
    Value(b) - Digit(b[|b| - 1]) * Pow2(|b|)
  }

  predicate InRange(n: int, w: nat)
    requires w >= 1
  {
    -Pow2(w - 1) <= n < Pow2(w - 1)
  }

  /** `n` divided by two `i` times, rounding down. */
  function Halves(n: int, i: nat): int {
    if i == 0 then n else Halves(n, i - 1) / 2
  }

  /** Bit `i` of the two's complement of `n`, which is what `n & (1 << i)` tests. */
  function TestBit(n: int, i: nat): bool {
    Halves(n, i) % 2 == 1
  }

  function Bits(n: int, w: nat): Bin {
    seq(w, i requires 0 <= i < w => TestBit(n, i))
  }

  function Flip(b: Bin): Bin {
    seq(|b|, i requires 0 <= i < |b| => !b[i])
  }

  /** Conversion of an integer to a signed word of `w` bits. */
  function Narrow(n: int, w: nat): int
    requires w >= 1
  {
    (n + Pow2(w - 1)) % Pow2(w) - Pow2(w - 1)
  }

  lemma {:induction false} ValueBound(b: Bin)
    ensures Value(b) < Pow2(|b|)
  {
    if b == [] {
    } else {
      ValueBound(b[..|b| - 1]);
    }
  }

  lemma PrefixValue(b: Bin, i: nat)
    requires i < |b|
    ensures Value(b[..i + 1]) == Value(b[..i]) + Digit(b[i]) * Pow2(i)
  {
    assert b[..i + 1][..i] == b[..i];
  }

  lemma {:induction false} ValueIsInjective(a: Bin, b: Bin)
    requires |a| == |b| && Value(a) == Value(b)
    ensures a == b
  {
    if a == [] {
    } else {
      var n := |a| - 1;
      ValueBound(a[..n]);
      ValueBound(b[..n]);
      ValueIsInjective(a[..n], b[..n]);
      assert a == a[..n] + [a[n]] && b == b[..n] + [b[n]];
    }
  }

  /** The lowest bit of the quotient by `p` belongs to the remainder by twice `p`. */
  lemma SplitModulus(n: int, p: int)
    requires p > 0
    ensures n / (2 * p) == n / p / 2
    ensures n % (2 * p) == n % p + if n / p % 2 == 1 then p else 0
  {
    var q, r := Division(n, p);
    Regroup(q / 2, p, r);
    UniqueQuotient(n, 2 * p, q / 2, if q % 2 == 1 then p + r else r);
  }

  lemma Regroup(h: int, p: int, r: int)
    ensures 2 * h * p + r == h * (2 * p) + r
    ensures (2 * h + 1) * p + r == h * (2 * p) + (p + r)
  {
  }

  lemma {:induction false} HalvesIsQuotient(n: int, i: nat)
    ensures Halves(n, i) == n / Pow2(i)
  {
    if i == 0 {
    } else {
      HalvesIsQuotient(n, i - 1);
      SplitModulus(n, Pow2(i - 1));
    }
  }

  lemma {:induction false} ValueOfBits(n: int, w: nat)
    ensures Value(Bits(n, w)) == n % Pow2(w)
  {
    if w == 0 {
    } else {
      assert Bits(n, w)[..w - 1] == Bits(n, w - 1);
      ValueOfBits(n, w - 1);
      SplitModulus(n, Pow2(w - 1));
      HalvesIsQuotient(n, w - 1);
    }
  }

  lemma ValueOfSmall(n: nat, w: nat)
    requires n < Pow2(w)
    ensures Value(Bits(n, w)) == n
  {
    ValueOfBits(n, w);
    UniqueQuotient(n, Pow2(w), 0, n);
  }

  lemma {:induction false} ValueOfFlip(b: Bin)
    ensures Value(Flip(b)) == Pow2(|b|) - 1 - Value(b)
  {
    if b == [] {
    } else {
      assert Flip(b)[..|b| - 1] == Flip(b[..|b| - 1]);
      ValueOfFlip(b[..|b| - 1]);
    }
  }

  lemma ValueWithTop(b: Bin, top: bool)
    ensures Value(b + [top]) == Value(b) + Digit(top) * Pow2(|b|)
  {
    assert (b + [top])[..|b|] == b;
  }

  // ----- The adder -----

  method FakeAddBits(a: bool, b: bool, c: bool) returns (sum: bool, carry: bool)
    ensures Digit(sum) + 2 * Digit(carry) == Digit(a) + Digit(b) + Digit(c)
  {
    sum, carry := false, false;
    var count := 0;
    if a {
      count := count + 1;
    }
    if b {
      count := count + 1;
    }
    if c {
      count := count + 1;
    }
    if count == 1 {
      sum := true;
    } else if count == 2 {
      sum := false;
      carry := true;
    } else if count == 3 {
      sum := true;
      carry := true;
    }
  }

  predicate IsSum(a: Bin, b: Bin, sum: Bin, carry: bool) {
    |a| == |b| == |sum| && Value(sum) + Digit(carry) * Pow2(|a|) == Value(a) + Value(b)
  }

  /** One more bit of the sum. */
  lemma OneMoreBit(a: Bin, b: Bin, sum: Bin, carry: bool, i: nat, s: bool, c: bool)
    requires |a| == |b| == |sum| && i < |a|
    requires Value(sum[..i]) + Digit(carry) * Pow2(i) == Value(a[..i]) + Value(b[..i])
    requires Digit(s) + 2 * Digit(c) == Digit(a[i]) + Digit(b[i]) + Digit(carry)
    ensures Value(sum[i := s][..i + 1]) + Digit(c) * Pow2(i + 1) == Value(a[..i + 1]) + Value(b[..i + 1])
  {
    PrefixValue(a, i);
    PrefixValue(b, i);
    PrefixValue(sum[i := s], i);
    assert sum[i := s][..i] == sum[..i];
    DigitsTimes(s, c, a[i], b[i], carry, Pow2(i));
  }

  /** The sum and the carry out of the top bit make up exactly the sum of the two unsigned numbers. */
  method FakeAdd(a: Bin, b: Bin) returns (sum: Bin, carry: bool)
    requires |a| == |b|
    ensures IsSum(a, b, sum, carry)
  {
    var w := |a|;
    sum := seq(w, i => false);
    carry := false;
    for i := 0 to w
      invariant |sum| == w
      invariant Value(sum[..i]) + Digit(carry) * Pow2(i) == Value(a[..i]) + Value(b[..i])
    {
      var s, c := FakeAddBits(a[i], b[i], carry);
      OneMoreBit(a, b, sum, carry, i, s, c);
      sum := sum[i := s];
      carry := c;
    }
    assert sum[..w] == sum && a[..w] == a && b[..w] == b;
  }

  lemma DigitsTimes(s: bool, c: bool, a: bool, b: bool, carry: bool, p: int)
    requires Digit(s) + 2 * Digit(c) == Digit(a) + Digit(b) + Digit(carry)
    ensures Digit(s) * p + Digit(c) * (2 * p) == Digit(a) * p + Digit(b) * p + Digit(carry) * p
  {
  }

  /** The overflow test on the sign bits of the two operands and of their sum. */
  predicate DetectOverflow(a: bool, b: bool, s: bool) {
    (!a && !b && s) || (a && b && !s)
  }

  lemma SignedBound(b: Bin)
    requires |b| >= 1
    ensures InRange(Signed(b), |b|) && (Signed(b) < 0 <==> b[|b| - 1])
  {
    ValueBound(b[..|b| - 1]);
    ValueBound(b);
  }

  /** The test finds exactly the sums that no word of this width represents; the other sums are right. */
  lemma OverflowIffUnrepresentable(a: Bin, b: Bin, sum: Bin, carry: bool)
    requires |a| >= 1 && IsSum(a, b, sum, carry)
    ensures var top := |a| - 1;
            && (DetectOverflow(a[top], b[top], sum[top]) <==> !InRange(Signed(a) + Signed(b), |a|))
            && (!DetectOverflow(a[top], b[top], sum[top]) ==> Signed(sum) == Signed(a) + Signed(b))
  {
    SignedBound(a);
    SignedBound(b);
    SignedBound(sum);
    assert Pow2(|a|) == 2 * Pow2(|a| - 1);
  }

  // ----- The machine representation -----

  /** The bits of the word itself are the two's complement of `n`. */
  method WordToMachine(n: int, w: nat) returns (result: Bin)
    requires w >= 1 && InRange(n, w)
    ensures result == Bits(n, w)
  {
    result := seq(w, i => false);
    for i := 0 to w
      invariant |result| == w
      invariant forall j :: 0 <= j < i ==> result[j] == TestBit(n, j)
    {
      result := result[i := TestBit(n, i)];
    }
  }

  lemma ValueOfMachine(n: int, w: nat)
    requires w >= 1 && InRange(n, w)
    ensures Value(Bits(n, w)) == if n < 0 then n + Pow2(w) else n
  {
    ValueOfBits(n, w);
    if n < 0 {
      UniqueQuotient(n, Pow2(w), -1, n + Pow2(w));
    } else {
      UniqueQuotient(n, Pow2(w), 0, n);
    }
  }

  /** Every number of the range is read back from its machine representation. */
  lemma MachineRoundTrip(n: int, w: nat)
    requires w >= 1 && InRange(n, w)
    ensures Signed(Bits(n, w)) == n
  {
    ValueOfMachine(n, w);
    SignedBound(Bits(n, w));
    ValueBound(Bits(n, w)[..w - 1]);
  }

  /** Every word is the machine representation of the number it stands for. */
  lemma MachineIsOnto(b: Bin)
    requires |b| >= 1
    ensures InRange(Signed(b), |b|) && Bits(Signed(b), |b|) == b
  {
    SignedBound(b);
    ValueOfMachine(Signed(b), |b|);
    ValueIsInjective(Bits(Signed(b), |b|), b);
  }

  // ----- Sign and magnitude -----

  function OriginalCode(n: int, w: nat): Bin
    requires w >= 1
  {
    Bits(Abs(n), w - 1) + [n < 0]
  }

  lemma HalvesOfMinimum(k: nat)
    ensures TruncDiv(-Pow2(k + 1), 2) == -Pow2(k)
  {
    QuotIsDivision(Pow2(k + 1), 2);
  }

  lemma NoHalfLeft(n: nat, w: nat)
    ensures Halves(n, w) == 0 <==> n < Pow2(w)
  {
    HalvesIsQuotient(n, w);
    var q, r := Division(n, Pow2(w));
    if n < Pow2(w) {
      UniqueQuotient(n, Pow2(w), 0, n);
    }
  }

  lemma {:induction false} HalvesOfNatural(n: nat, i: nat)
    ensures Halves(n, i) >= 0
  {
    if i == 0 {
    } else {
      HalvesOfNatural(n, i - 1);
    }
  }

  lemma NarrowKeeps(n: int, w: nat)
    requires w >= 1 && InRange(n, w)
    ensures Narrow(n, w) == n
  {
    UniqueQuotient(n + Pow2(w - 1), Pow2(w), 0, n + Pow2(w - 1));
  }

  lemma NarrowOfMinimum(w: nat)
    requires w >= 1
    ensures Narrow(Pow2(w - 1), w) == -Pow2(w - 1)
  {
    UniqueQuotient(2 * Pow2(w - 1), Pow2(w), 1, 0);
  }

  /**
   Short division.  The least number of the range has no magnitude of `w` - 1 bits: its absolute value
   is narrowed to the number itself, whose halves do not reach zero.
   */
  method WordToOriginalCode(n: int, w: nat) returns (r: Result<Bin>)
    requires w >= 2 && InRange(n, w)
    ensures r == if n == -Pow2(w - 1) then Overflow else Ok(OriginalCode(n, w))
  {
    var result: Bin := seq(w, i => false);
    result := result[w - 1 := n < 0];
    var m := Narrow(Abs(n), w);
    if n == -Pow2(w - 1) {
      NarrowOfMinimum(w);
    } else {
      NarrowKeeps(Abs(n), w);
    }
    for i := 0 to w - 1
      invariant |result| == w && result[w - 1] == (n < 0)
      invariant n == -Pow2(w - 1) ==> m == -Pow2(w - 1 - i)
      invariant n != -Pow2(w - 1) ==> m == Halves(Abs(n), i)
      invariant n != -Pow2(w - 1) ==> forall j :: 0 <= j < i ==> result[j] == TestBit(Abs(n), j)
    {
      result := result[i := TruncMod(m, 2) != 0];
      if n == -Pow2(w - 1) {
        HalvesOfMinimum(w - 2 - i);
      } else {
        HalvesOfNatural(Abs(n), i);
        QuotIsDivision(m, 2);
      }
      m := TruncDiv(m, 2);
    }
    NoHalfLeft(Abs(n), w - 1);
    if m != 0 {
      return Overflow;
    }
    assert result == OriginalCode(n, w);
    return Ok(result);
  }

  // ----- Ones' complement -----

  /** The complement of a negative number is what is missing from the magnitude to a word of ones. */
  function OnesComplement(n: int, w: nat): Bin {
    Bits(if n < 0 then Pow2(w) - 1 - Abs(n) else n, w)
  }

  lemma ValueOfOnesComplement(n: int, w: nat)
    requires w >= 1 && InRange(n, w)
    ensures Value(OnesComplement(n, w)) == if n < 0 then Pow2(w) - 1 - Abs(n) else n
  {
    ValueOfSmall(if n < 0 then Pow2(w) - 1 - Abs(n) else n, w);
  }

  /** Negation flips every bit. */
  lemma NegationIsFlip(n: int, w: nat)
    requires w >= 1 && n != 0 && Abs(n) < Pow2(w - 1)
    ensures OnesComplement(-n, w) == Flip(OnesComplement(n, w))
  {
    ValueOfOnesComplement(n, w);
    ValueOfOnesComplement(-n, w);
    ValueOfFlip(OnesComplement(n, w));
    ValueIsInjective(OnesComplement(-n, w), Flip(OnesComplement(n, w)));
  }

  /** The top bit is the sign of every number but the least of the range. */
  lemma SignBitIffNotMinimum(n: int, w: nat)
    requires w >= 1 && InRange(n, w)
    ensures OnesComplement(n, w)[w - 1] == (n < 0) <==> n != -Pow2(w - 1)
  {
    var code := OnesComplement(n, w);
    ValueOfOnesComplement(n, w);
    ValueBound(code[..w - 1]);
    assert Pow2(w) == 2 * Pow2(w - 1);
  }

  lemma ValueOfOriginalCode(n: int, w: nat)
    requires w >= 1 && Abs(n) < Pow2(w - 1)
    ensures Value(OriginalCode(n, w)[..w - 1]) == Abs(n)
    ensures Value(OriginalCode(n, w)) == Abs(n) + Digit(n < 0) * Pow2(w - 1)
  {
    assert OriginalCode(n, w)[..w - 1] == Bits(Abs(n), w - 1);
    ValueOfSmall(Abs(n), w - 1);
    ValueWithTop(Bits(Abs(n), w - 1), n < 0);
  }

  lemma FlippedMagnitude(n: int, w: nat)
    requires w >= 2 && Abs(n) < Pow2(w - 1)
    ensures n < 0 ==> Flip(Bits(Abs(n), w - 1)) + [true] == OnesComplement(n, w)
    ensures n >= 0 ==> OriginalCode(n, w) == OnesComplement(n, w)
  {
    ValueOfSmall(Abs(n), w - 1);
    ValueOfOnesComplement(n, w);
    if n < 0 {
      var flipped := Flip(Bits(Abs(n), w - 1));
      ValueOfFlip(Bits(Abs(n), w - 1));
      ValueWithTop(flipped, true);
      ValueIsInjective(flipped + [true], OnesComplement(n, w));
    } else {
      ValueOfOriginalCode(n, w);
      ValueIsInjective(OriginalCode(n, w), OnesComplement(n, w));
    }
  }

  /** First algorithm: flip the magnitude of the original code. */
  method WordToOnesComplement(n: int, w: nat) returns (r: Result<Bin>)
    requires w >= 2 && InRange(n, w)
    ensures r == if n == -Pow2(w - 1) then Overflow else Ok(OnesComplement(n, w))
  {
    var original := WordToOriginalCode(n, w);
    if original.Overflow? {
      return Overflow;
    }
    var code := original.value;
    FlippedMagnitude(n, w);
    if n < 0 {
      for i := 0 to w - 1
        invariant |code| == w && code[i..] == original.value[i..]
        invariant forall j :: 0 <= j < i ==> code[j] == !original.value[j]
      {
        code := code[i := !code[i]];
      }
      assert code == Flip(Bits(Abs(n), w - 1)) + [true];
    }
    return Ok(code);
  }

  /** Second algorithm: flip the absolute value.  It succeeds on the whole range. */
  method WordToOnesComplement1(n: int, w: nat) returns (r: Bin)
    requires w >= 2 && InRange(n, w)
    ensures r == OnesComplement(n, w)
  {
    var code := Bits(Abs(n), w);
    r := if n >= 0 then code else Flip(code);
    ValueOfSmall(Abs(n), w);
    ValueOfFlip(code);
    ValueOfOnesComplement(n, w);
    ValueIsInjective(r, OnesComplement(n, w));
  }

  // ----- Two's complement -----

  /** First algorithm: ones' complement plus one. */
  method WordToTwosComplement(n: int, w: nat) returns (r: Result<Bin>)
    requires w >= 2 && InRange(n, w)
    ensures r == if n == -Pow2(w - 1) then Overflow else Ok(Bits(n, w))
  {
    var ones := WordToOnesComplement(n, w);
    if ones.Overflow? {
      return Overflow;
    }
    var code := ones.value;
    ValueOfOnesComplement(n, w);
    if n < 0 {
      var carry;
      code, carry := FakeAdd(code, Bits(1, w));
      ValueOfSmall(1, w);
      ValueBound(code);
    }
    ValueOfMachine(n, w);
    ValueIsInjective(code, Bits(n, w));
    return Ok(code);
  }

  /** Second algorithm: 2 to the `w` - 1 less the absolute value, with the sign bit set. */
  method WordToTwosComplement1(n: int, w: nat) returns (r: Result<Bin>)
    requires w >= 2 && InRange(n, w)
    ensures r == Ok(Bits(n, w))
  {
    ValueOfMachine(n, w);
    if n < 0 {
      var code := Bits(Pow2(w - 1) - Abs(n), w);
      ComplementToSign(Pow2(w - 1) - Abs(n), w);
      code := code[w - 1 := true];
      ValueIsInjective(code, Bits(n, w));
      return Ok(code);
    } else {
      r := WordToOriginalCode(n, w);
      ValueOfOriginalCode(n, w);
      ValueIsInjective(r.value, Bits(n, w));
    }
  }

  lemma ComplementToSign(m: nat, w: nat)
    requires w >= 2 && m < Pow2(w - 1)
    ensures Value(Bits(m, w)[w - 1 := true]) == m + Pow2(w - 1)
  {
    assert Bits(m, w)[w - 1 := true] == Bits(m, w - 1) + [true];
    ValueWithTop(Bits(m, w - 1), true);
    ValueOfSmall(m, w - 1);
  }

  // ----- The decoders -----

  lemma PrefixBound(b: Bin, i: nat)
    requires i < |b|
    ensures Value(b[..i]) < Pow2(|b| - 1)
  {
    ValueBound(b[..i]);
    PowMonotone(i, |b| - 1);
  }

  lemma {:induction false} PowMonotone(i: nat, j: nat)
    requires i <= j
    ensures Pow2(i) <= Pow2(j)
  {
    if i == j {
    } else {
      PowMonotone(i, j - 1);
    }
  }

  /** `n += weight` on a signed word: within the magnitude nothing is lost. */
  method AddWeight(n: int, weight: int, b: Bin, i: nat) returns (sum: int)
    requires i < |b| - 1 && n == Value(b[..i]) && weight == Digit(b[i]) * Pow2(i)
    ensures sum == Value(b[..i + 1])
  {
    PrefixValue(b, i);
    PrefixBound(b, i + 1);
    NarrowKeeps(Value(b[..i + 1]), |b|);
    sum := Narrow(n + weight, |b|);
  }

  method TwosComplementToWord(twos: Bin) returns (n: int)
    requires |twos| >= 2
    ensures n == Signed(twos)
  {
    var w := |twos|;
    n := 0;
    for i := 0 to w - 1
      invariant n == Value(twos[..i])
    {
      n := AddWeight(n, if twos[i] then Pow2(i) else 0, twos, i);
    }
    PrefixValue(twos, w - 1);
    assert twos[..w] == twos;
    var weighted := n + -1 * if twos[w - 1] then Pow2(w - 1) else 0;
    assert weighted == Signed(twos);
    SignedBound(twos);
    NarrowKeeps(weighted, w);
    n := Narrow(weighted, w);
  }

  /** The number that an original code stands for. */
  function Original(b: Bin): int
    requires |b| >= 1
  {
    var magnitude: int := Value(b[..|b| - 1]);
    if b[|b| - 1] then -magnitude else magnitude
  }

  method OrigCodeToWord(orig: Bin) returns (n: int)
    requires |orig| >= 2
    ensures n == Original(orig)
  {
    var w := |orig|;
    n := 0;
    for i := 0 to w - 1
      invariant n == Value(orig[..i])
    {
      n := AddWeight(n, if orig[i] then Pow2(i) else 0, orig, i);
    }
    n := if orig[w - 1] then -n else n;
  }

  /** The decoder of ones' complements reads every word as if it were negative. */
  function DecodedOnes(b: Bin): int
    requires |b| >= 1
  {
    var magnitude := Pow2(|b| - 1) - 1 - Value(b[..|b| - 1]);
    if b[|b| - 1] then -magnitude else magnitude
  }

  method OnesComplementToWord(ones: Bin) returns (n: int)
    requires |ones| >= 2
    ensures n == DecodedOnes(ones)
  {
    var w := |ones|;
    n := 0;
    for i := 0 to w - 1
      invariant n == Pow2(i) - 1 - Value(ones[..i])
    {
      PrefixValue(ones, i);
      PrefixBound(ones, i + 1);
      PowMonotone(i + 1, w - 1);
      ValueBound(ones[..i + 1]);
      NarrowKeeps(Pow2(i + 1) - 1 - Value(ones[..i + 1]), w);
      n := Narrow(n + if ones[i] then 0 else Pow2(i), w);
    }
    n := if ones[w - 1] then -n else n;
  }

  // ----- Round trips -----

  /** The decoder of original codes inverts the encoder wherever the encoder succeeds. */
  lemma OriginalRoundTrip(n: int, w: nat)
    requires w >= 2 && Abs(n) < Pow2(w - 1)
    ensures Original(OriginalCode(n, w)) == n
  {
    ValueOfOriginalCode(n, w);
  }

  function NegativeZero(w: nat): Bin
    requires w >= 1
  {
    seq(w - 1, i => false) + [true]
  }

  lemma {:induction false} ValueOfZeros(n: nat)
    ensures Value(seq(n, i => false)) == 0
  {
    if n == 0 {
    } else {
      assert seq(n, i => false)[..n - 1] == seq(n - 1, i => false);
      ValueOfZeros(n - 1);
    }
  }

  /** Conversely the encoder inverts the decoder on every word but one, the negative zero. */
  lemma OriginalIsOntoButNegativeZero(b: Bin)
    requires |b| >= 2
    ensures OriginalCode(Original(b), |b|) == b <==> b != NegativeZero(|b|)
  {
    var w := |b|;
    var low := b[..w - 1];
    ValueBound(low);
    ValueOfSmall(Value(low), w - 1);
    ValueIsInjective(Bits(Value(low), w - 1), low);
    assert b == low + [b[w - 1]];
    ValueOfZeros(w - 1);
    if Value(low) == 0 {
      ValueIsInjective(low, seq(w - 1, i => false));
    }
    assert b == NegativeZero(w) ==> low == seq(w - 1, i => false);
  }

  /**
   The decoder of ones' complements inverts the encoder, over the whole range, exactly for the negative
   numbers that have a magnitude: for all but the least of them.
   */
  lemma OnesRoundTripIff(n: int, w: nat)
    requires w >= 2 && InRange(n, w)
    ensures DecodedOnes(OnesComplement(n, w)) == n <==> -Pow2(w - 1) < n < 0
  {
    if n == -Pow2(w - 1) {
      var code := OnesComplement(n, w);
      ValueOfOnesComplement(n, w);
      ValueBound(code[..w - 1]);
    } else {
      MagnitudeRoundTrip(n, w);
    }
  }

  lemma MagnitudeRoundTrip(n: int, w: nat)
    requires w >= 2 && Abs(n) < Pow2(w - 1)
    ensures DecodedOnes(OnesComplement(n, w)) == n <==> n < 0
  {
    FlippedMagnitude(n, w);
    ValueOfSmall(Abs(n), w - 1);
    if n < 0 {
      var flipped := Flip(Bits(Abs(n), w - 1));
      ValueOfFlip(Bits(Abs(n), w - 1));
      assert OnesComplement(n, w)[..w - 1] == flipped;
    } else {
      assert OnesComplement(n, w)[..w - 1] == Bits(Abs(n), w - 1);
      assert Pow2(w - 1) == 2 * Pow2(w - 2);
    }
  }

  /** On every word: what it computes is the original code with the same sign bit and the flipped magnitude. */
  lemma DecodedOnesIsFlippedOriginal(b: Bin)
    requires |b| >= 1
    ensures DecodedOnes(b) == Original(Flip(b[..|b| - 1]) + [b[|b| - 1]])
  {
    var low := b[..|b| - 1];
    ValueOfFlip(low);
    assert (Flip(low) + [b[|b| - 1]])[..|b| - 1] == Flip(low);
  }

  function AllOnes(w: nat): Bin {
    seq(w, i => true)
  }

  lemma {:induction false} ValueOfAllOnes(w: nat)
    ensures Value(AllOnes(w)) == Pow2(w) - 1
  {
    if w == 0 {
    } else {
      assert AllOnes(w)[..w - 1] == AllOnes(w - 1);
      ValueOfAllOnes(w - 1);
    }
  }

  /** Conversely the encoder inverts the decoder exactly on the words with the sign bit set, but for all ones. */
  lemma OnesIsOntoIff(b: Bin)
    requires |b| >= 2
    ensures OnesComplement(DecodedOnes(b), |b|) == b <==> b[|b| - 1] && b != AllOnes(|b|)
  {
    var w := |b|;
    var low := b[..w - 1];
    ValueBound(low);
    ValueOfOnesComplement(DecodedOnes(b), w);
    if b[w - 1] {
      ValueOfAllOnes(w);
      if b != AllOnes(w) && Value(b) == Value(AllOnes(w)) {
        ValueIsInjective(b, AllOnes(w));
      }
      if Value(OnesComplement(DecodedOnes(b), w)) == Value(b) {
        ValueIsInjective(OnesComplement(DecodedOnes(b), w), b);
      }
    } else {
      assert Pow2(w - 1) == 2 * Pow2(w - 2);
    }
  }

  /** Concrete words on which the round trip fails: the decoder reads zero as 127, and -128 as zero. */
  lemma OnesRoundTripFailures()
    ensures DecodedOnes(OnesComplement(0, 8)) == 127
    ensures DecodedOnes(OnesComplement(-128, 8)) == 0
  {
    assert Pow2(7) == 128;
    ValueOfOnesComplement(0, 8);
    FlippedMagnitude(0, 8);
    ValueOfOriginalCode(0, 8);
    ValueOfOnesComplement(-128, 8);
    ValueBound(OnesComplement(-128, 8)[..7]);
  }

  /** Adding two encoded numbers yields the encoding of their sum whenever that is in the range. */
  lemma AdditionOfMachineWords(m: int, n: int, w: nat, sum: Bin, carry: bool)
    requires w >= 1 && InRange(m, w) && InRange(n, w) && InRange(m + n, w)
    requires IsSum(Bits(m, w), Bits(n, w), sum, carry)
    ensures sum == Bits(m + n, w)
  {
    MachineRoundTrip(m, w);
    MachineRoundTrip(n, w);
    OverflowIffUnrepresentable(Bits(m, w), Bits(n, w), sum, carry);
    MachineIsOnto(sum);
  }
}
