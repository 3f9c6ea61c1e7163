/**
 The stream operator for durations: a count of ticks, of which `resolution` make a second, is printed
 digit by digit as a decimal fraction of seconds.
 */
module DurationPrinter {
  import opened Arithmetic
  import opened Wrappers

  function Pow10(n: nat): (r: int)
    ensures r >= 1
  {
    if n == 0 then 1 else 10 * Pow10(n - 1)
  }

  // ----- Decimal numerals -----

  predicate IsDigit(c: char) {
    '0' <= c <= '9'
  }

  predicate AllDigits(s: string) {
    forall i :: 0 <= i < |s| ==> IsDigit(s[i])
  }

  function DigitChar(d: nat): char
    requires d < 10
  {
    '0' + d as char
  }

  /** What the stream prints for an integer. */
  function Decimal(n: nat): string {
    if n < 10 then [DigitChar(n)] else Decimal(n / 10) + [DigitChar(n % 10)]
  }

  function ToString(n: int): string {
    if n < 0 then "-" + Decimal(-n) else Decimal(n)
  }

  /** The number that a string of digits stands for. */
  function Number(s: string): nat
    requires AllDigits(s)
  {
    if s == "" then 0 else 10 * Number(s[..|s| - 1]) + (s[|s| - 1] - '0') as nat
  }

  lemma {:induction false} NumberOfDecimal(n: nat)
    ensures AllDigits(Decimal(n)) && Decimal(n) != "" && Number(Decimal(n)) == n
  {
    if n < 10 {
    } else {
      NumberOfDecimal(n / 10);
      assert Decimal(n)[..|Decimal(n)| - 1] == Decimal(n / 10);
    }
  }

  lemma {:induction false} NoLeadingZero(n: nat)
    ensures |Decimal(n)| >= 1 && (|Decimal(n)| > 1 ==> Decimal(n)[0] != '0') && (Decimal(n) == "0" <==> n == 0)
  {
    if n < 10 {
    } else {
      NoLeadingZero(n / 10);
    }
  }

  lemma ShiftDigits(n: int, k: nat)
    ensures n * Pow10(k + 1) == 10 * (n * Pow10(k))
    ensures n * Pow10(k + 1) == 10 * n * Pow10(k)
  {
  }

  lemma {:induction false} NumberOfConcat(a: string, b: string)
    requires AllDigits(a) && AllDigits(b)
    ensures AllDigits(a + b) && Number(a + b) == Number(a) * Pow10(|b|) + Number(b)
  {
    if b == "" {
      assert a + b == a;
    } else {
      NumberOfConcat(a, b[..|b| - 1]);
      assert (a + b)[..|a + b| - 1] == a + b[..|b| - 1];
      ShiftDigits(Number(a), |b| - 1);
    }
  }

  lemma DigitFirst(d: nat, s: string)
    requires d < 10 && AllDigits(s)
    ensures Number([DigitChar(d)]) == d
    ensures AllDigits([DigitChar(d)] + s) && Number([DigitChar(d)] + s) == d * Pow10(|s|) + Number(s)
  {
    assert [DigitChar(d)][..0] == "";
    NumberOfConcat([DigitChar(d)], s);
  }

  // ----- The printer -----

  /** `out` followed by what is still printed, if it is. */
  function Then(out: string, more: Option<string>): Option<string> {
    if more.None? then None else Some(out + more.value)
  }

  lemma ThenIsAssociative(a: string, b: string, more: Option<string>)
    ensures Then(a, Then(b, more)) == Then(a + b, more)
  {
    if more.Some? {
      assert a + (b + more.value) == a + b + more.value;
    }
  }

  /** The digits that the loop prints, unless it divides by zero. */
  function Fraction(frac: int, div: int): Option<string>
    requires div > 0
    decreases div
  {
    var rest := TruncMod(frac, div);
    if rest == 0 then Some("")
    else if div / 10 == 0 then None
    else Then(ToString(TruncDiv(rest, div / 10)), Fraction(rest, div / 10))
  }

  function Printed(ticks: int, resolution: int): Option<string>
    requires resolution > 0
  {
    Then(ToString(TruncDiv(ticks, resolution)) + ".", Fraction(ticks, resolution))
  }

  // ----- When the loop divides by zero -----

  function LeadingDigit(r: int): int
    requires r > 0
  {
    if r < 10 then r else LeadingDigit(r / 10)
  }

  lemma {:induction false} LeadingOneEnds(frac: int, div: int)
    requires div > 0 && LeadingDigit(div) == 1
    ensures Fraction(frac, div).Some?
    decreases div
  {
    if div < 10 {
    } else {
      LeadingOneEnds(TruncMod(frac, div), div / 10);
    }
  }

  /** One tick is the remainder at every step, down to the leading digit, and there it is left over. */
  lemma {:induction false} OtherLeadingDigitFails(div: int)
    requires div > 0 && LeadingDigit(div) != 1
    ensures Fraction(1, div).None?
    decreases div
  {
    if div < 10 {
    } else {
      OtherLeadingDigitFails(div / 10);
    }
  }

  /** The loop divides by zero for no count of ticks if, and only if, the resolution begins with the digit one. */
  lemma NeverDividesByZeroIff(r: int)
    requires r > 0
    ensures (forall t: int :: Printed(t, r).Some?) <==> LeadingDigit(r) == 1
    ensures Printed(1, r).Some? <==> LeadingDigit(r) == 1
  {
    if LeadingDigit(r) == 1 {
      forall t: int
        ensures Printed(t, r).Some?
      {
        LeadingOneEnds(t, r);
      }
    } else {
      OtherLeadingDigitFails(r);
      assert Printed(1, r).None?;
    }
  }

  method Print(ticks: int, resolution: int) returns (stream: Option<string>)
    requires resolution > 0
    ensures stream == Printed(ticks, resolution)
    ensures LeadingDigit(resolution) == 1 ==> stream.Some?
  {
    if LeadingDigit(resolution) == 1 {
      LeadingOneEnds(ticks, resolution);
    }
    var out := ToString(TruncDiv(ticks, resolution)) + ".";
    var div := resolution;
    var frac := ticks;
    while true
      invariant div > 0
      invariant Then(out, Fraction(frac, div)) == Printed(ticks, resolution)
      decreases div
    {
      frac := TruncMod(frac, div);
      if frac == 0 {
        assert out + "" == out;
        return Some(out);
      }
      div := div / 10;
      if div == 0 {
        return None;
      }
      ThenIsAssociative(out, ToString(TruncDiv(frac, div)), Fraction(frac, div));
      out := out + ToString(TruncDiv(frac, div));
    }
  }

  // ----- What is printed for any resolution -----

  function Texts(quotients: seq<int>): string {
    if quotients == [] then "" else ToString(quotients[0]) + Texts(quotients[1..])
  }

  /** The quotients, each times the divisor that it is a quotient by: `div` / 10, a tenth of that, and so on. */
  function Weighted(quotients: seq<int>, div: int): int
  {
    if quotients == [] then 0 else quotients[0] * (div / 10) + Weighted(quotients[1..], div / 10)
  }

  /** The quotient is the greatest for what is left, so that less than the divisor is left after it. */
  ghost predicate Greedy(quotients: seq<int>, div: int) {
    quotients != [] ==> Abs(Weighted(quotients[1..], div / 10)) < div / 10 && Greedy(quotients[1..], div / 10)
  }

  lemma TruncDivMod(a: int, b: int)
    requires b > 0
    ensures a == TruncDiv(a, b) * b + TruncMod(a, b) && Abs(TruncMod(a, b)) < b
  {
    QuotRem(Abs(a), b);
  }

  /**
   Whatever the resolution, what follows the point are quotients that, weighted by their divisors, add up
   to exactly the remainder of the ticks, each as great as it can be.
   */
  lemma {:induction false} FractionAddsUp(frac: int, div: int) returns (quotients: seq<int>)
    requires div > 0 && Fraction(frac, div).Some?
    ensures Fraction(frac, div).value == Texts(quotients)
    ensures Weighted(quotients, div) == TruncMod(frac, div) && Greedy(quotients, div)
    decreases div
  {
    var rest := TruncMod(frac, div);
    if rest == 0 {
      quotients := [];
    } else {
      var others := FractionAddsUp(rest, div / 10);
      TruncDivMod(rest, div / 10);
      quotients := [TruncDiv(rest, div / 10)] + others;
      assert quotients[1..] == others;
    }
  }

  /** So the text is the whole seconds, a point and those quotients, and together they make up the ticks. */
  lemma PrintedAddsUp(ticks: int, resolution: int) returns (whole: int, quotients: seq<int>)
    requires resolution > 0 && Printed(ticks, resolution).Some?
    ensures Printed(ticks, resolution).value == ToString(whole) + "." + Texts(quotients)
    ensures ticks == whole * resolution + Weighted(quotients, resolution)
    ensures Abs(Weighted(quotients, resolution)) < resolution && Greedy(quotients, resolution)
  {
    whole := TruncDiv(ticks, resolution);
    quotients := FractionAddsUp(ticks, resolution);
    TruncDivMod(ticks, resolution);
  }

  // ----- Powers of ten -----

  lemma {:induction false} PowSum(a: nat, b: nat)
    ensures Pow10(a + b) == Pow10(a) * Pow10(b)
  {
    if a == 0 {
    } else {
      PowSum(a - 1, b);
      assert 10 * (Pow10(a - 1) * Pow10(b)) == 10 * Pow10(a - 1) * Pow10(b);
    }
  }

  lemma FirstQuotient(rest: nat, p: int)
    requires p > 0 && rest < 10 * p
    ensures Quot(rest, p) < 10 && rest == Quot(rest, p) * p + Rem(rest, p) && Rem(rest, p) < p
  {
    QuotRem(rest, p);
    QuotBelow(rest, p, 10);
  }

  /**
   For a power of ten the loop prints one digit for each quotient.  The digits are those of the
   remainder, without trailing zeros.
   */
  lemma {:induction false} FractionOfPower(t: nat, k: nat)
    ensures var p, digits := Pow10(k), Fraction(t, Pow10(k));
            && digits.Some? && |digits.value| <= k && AllDigits(digits.value)
            && Number(digits.value) * Pow10(k - |digits.value|) == Rem(t, p)
            && (digits.value != "" ==> digits.value[|digits.value| - 1] != '0')
  {
    var rest := Rem(t, Pow10(k));
    if k == 0 || rest == 0 {
      assert Number("") * Pow10(k) == 0;
    } else {
      var p := Pow10(k - 1);
      var d := Quot(rest, p);
      FirstQuotient(rest, p);
      FractionOfPower(rest, k - 1);
      var g := Fraction(rest, p).value;
      assert Fraction(t, Pow10(k)).value == [DigitChar(d)] + g;
      DigitBefore(d, g, k - 1, rest);
    }
  }

  /** A digit put before the digits of a remainder below its place. */
  lemma DigitBefore(d: nat, g: string, k: nat, rest: nat)
    requires d < 10 && rest > 0 && AllDigits(g) && |g| <= k
    requires rest == d * Pow10(k) + Number(g) * Pow10(k - |g|)
    ensures var s := [DigitChar(d)] + g; AllDigits(s) && Number(s) * Pow10(k + 1 - |s|) == rest
    ensures g == "" ==> d != 0
  {
    DigitFirst(d, g);
    PowSum(|g|, k - |g|);
    Distribute(d, Pow10(|g|), Number(g), Pow10(k - |g|));
  }

  lemma Distribute(d: int, a: int, n: int, b: int)
    ensures (d * a + n) * b == d * (a * b) + n * b
  {
  }

  // ----- The printed text as a number -----

  /** `s` is a numeral with its decimal point at `p`. */
  predicate IsNumeral(s: string, p: nat) {
    1 <= p < |s| && s[p] == '.' && AllDigits(s[..p]) && AllDigits(s[p + 1..])
  }

  /** The decimal number with integral part `whole` and the `places` digits of `n` after the point is `t` / `r`. */
  predicate IsValue(whole: int, n: int, places: nat, t: int, r: int) {
    (whole * Pow10(places) + n) * r == t * Pow10(places)
  }

  predicate HasValue(s: string, p: nat, t: int, r: int)
    requires IsNumeral(s, p)
  {
    IsValue(Number(s[..p]), Number(s[p + 1..]), |s| - p - 1, t, r)
  }

  /** `s` is a decimal numeral whose value is exactly `t` / `r`. */
  ghost predicate Denotes(s: string, t: int, r: int) {
    exists p: nat :: IsNumeral(s, p) && HasValue(s, p, t, r)
  }

  ghost predicate PrintsExactly(t: int, r: int)
    requires r > 0
  {
    Printed(t, r).Some? && Denotes(Printed(t, r).value, t, r)
  }

  lemma Parts(a: string, b: string)
    ensures var s := a + "." + b; s[..|a|] == a && s[|a|] == '.' && s[|a| + 1..] == b
  {
  }

  lemma PartsDenote(whole: string, digits: string, t: int, r: int)
    requires whole != "" && AllDigits(whole) && AllDigits(digits)
    requires IsValue(Number(whole), Number(digits), |digits|, t, r)
    ensures Denotes(whole + "." + digits, t, r)
  {
    var s := whole + "." + digits;
    Parts(whole, digits);
    assert IsNumeral(s, |whole|) && HasValue(s, |whole|, t, r);
  }

  lemma SamePoint(s: string, p: nat, q: nat)
    requires IsNumeral(s, p) && IsNumeral(s, q)
    ensures p == q
  {
    forall i | 0 <= i < q
      ensures s[i] != '.'
    {
      assert IsDigit(s[..q][i]);
    }
    forall i | 0 <= i < p
      ensures s[i] != '.'
    {
      assert IsDigit(s[..p][i]);
    }
  }

  lemma ExactValue(t: nat, whole: nat, n: nat, len: nat, k: nat)
    requires len <= k && t == whole * Pow10(k) + n * Pow10(k - len)
    ensures IsValue(whole, n, len, t, Pow10(k))
  {
    PowSum(len, k - len);
    var a, b := Pow10(len), Pow10(k - len);
    assert Pow10(k) == a * b;
    assert (whole * a + n) * (a * b) == (whole * (a * b) + n * b) * a;
  }

  lemma FractionIsExact(t: nat, k: nat) returns (digits: string)
    ensures Fraction(t, Pow10(k)) == Some(digits) && AllDigits(digits)
    ensures digits != "" ==> digits[|digits| - 1] != '0'
    ensures IsValue(Quot(t, Pow10(k)), Number(digits), |digits|, t, Pow10(k))
  {
    FractionOfPower(t, k);
    digits := Fraction(t, Pow10(k)).value;
    QuotRem(t, Pow10(k));
    ExactValue(t, Quot(t, Pow10(k)), Number(digits), |digits|, k);
  }

  /** For a power of ten the text is exactly the number of seconds, and ends in no superfluous zero. */
  lemma PrintIsExact(t: nat, k: nat)
    ensures PrintsExactly(t, Pow10(k))
    ensures var s := Printed(t, Pow10(k)).value; s[|s| - 1] != '0'
  {
    var digits := FractionIsExact(t, k);
    var whole := Quot(t, Pow10(k));
    NumberOfDecimal(whole);
    PartsDenote(ToString(whole), digits, t, Pow10(k));
    assert Printed(t, Pow10(k)) == Some(ToString(whole) + "." + digits);
  }

  // ----- Equal texts are equal durations -----

  lemma TimesTen(t: nat, p: int)
    requires p > 0
    ensures Rem(10 * t, 10 * p) == 10 * Rem(t, p) && Quot(10 * t, 10 * p) == Quot(t, p)
  {
    QuotRem(t, p);
    assert 10 * t == Quot(t, p) * (10 * p) + 10 * Rem(t, p);
    UniqueQuot(10 * t, 10 * p, Quot(t, p), 10 * Rem(t, p));
  }

  lemma {:induction false} FractionOfTenTimes(t: nat, k: nat)
    ensures Fraction(10 * t, Pow10(k + 1)) == Fraction(t, Pow10(k))
  {
    TimesTen(t, Pow10(k));
    var rest := Rem(t, Pow10(k));
    if k == 0 || rest == 0 {
    } else {
      TimesTen(rest, Pow10(k - 1));
      FractionOfTenTimes(rest, k - 1);
    }
  }

  lemma PrintedTenTimes(t: nat, k: nat)
    ensures Printed(10 * t, Pow10(k + 1)) == Printed(t, Pow10(k))
  {
    FractionOfTenTimes(t, k);
    TimesTen(t, Pow10(k));
  }

  lemma {:induction false} PrintedScaled(t: nat, j: nat, n: nat)
    ensures Printed(t, Pow10(j)) == Printed(t * Pow10(n), Pow10(j + n))
    decreases n
  {
    if n == 0 {
    } else {
      PrintedTenTimes(t, j);
      PrintedScaled(10 * t, j + 1, n - 1);
      ShiftDigits(t, n - 1);
      assert j + 1 + (n - 1) == j + n;
    }
  }

  lemma MultiplyOut(a: int, b: int, c: int)
    ensures a * (b * c) == a * b * c
  {
  }

  lemma Cancel(a: int, b: int, e: int)
    requires e > 0 && a * e == b * e
    ensures a == b
  {
    assert (a - b) * e == 0;
  }

  lemma CrossMultiply(x: int, p: int, q: int, t: int, u: int, e: int)
    requires e > 0 && x * p == t * e && x * q == u * e
    ensures t * q == u * p
  {
    assert t * q * e == t * e * q == x * p * q == x * q * p == u * e * p == u * p * e;
    Cancel(t * q, u * p, e);
  }

  lemma SameTextSameValue(s: string, t: int, p: int, u: int, q: int)
    requires Denotes(s, t, p) && Denotes(s, u, q)
    ensures t * q == u * p
  {
    var i: nat :| IsNumeral(s, i) && HasValue(s, i, t, p);
    var j: nat :| IsNumeral(s, j) && HasValue(s, j, u, q);
    SamePoint(s, i, j);
    SameValue(Number(s[..i]), Number(s[i + 1..]), |s| - i - 1, t, p, u, q);
  }

  lemma SameValue(whole: int, n: int, places: nat, t: int, p: int, u: int, q: int)
    requires IsValue(whole, n, places, t, p) && IsValue(whole, n, places, u, q)
    ensures t * q == u * p
  {
    CrossMultiply(whole * Pow10(places) + n, p, q, t, u, Pow10(places));
  }

  lemma SameValueSameText(t: nat, j: nat, u: nat, k: nat)
    requires j <= k && t * Pow10(k) == u * Pow10(j)
    ensures Printed(t, Pow10(j)) == Printed(u, Pow10(k))
  {
    PowSum(k - j, j);
    MultiplyOut(t, Pow10(k - j), Pow10(j));
    Cancel(t * Pow10(k - j), u, Pow10(j));
    PrintedScaled(t, j, k - j);
  }

  /** Two durations, of whatever resolutions, are printed alike exactly when they are equally long. */
  lemma AlikeIffEqual(t: nat, j: nat, u: nat, k: nat)
    ensures Printed(t, Pow10(j)) == Printed(u, Pow10(k)) <==> t * Pow10(k) == u * Pow10(j)
  {
    PrintIsExact(t, j);
    PrintIsExact(u, k);
    if Printed(t, Pow10(j)) == Printed(u, Pow10(k)) {
      SameTextSameValue(Printed(t, Pow10(j)).value, t, Pow10(j), u, Pow10(k));
    } else if t * Pow10(k) == u * Pow10(j) {
      if j <= k {
        SameValueSameText(t, j, u, k);
      } else {
        SameValueSameText(u, k, t, j);
      }
    }
  }

  // ----- Which resolutions are printed right -----

  lemma {:induction false} OneTick(div: int)
    requires div >= 2 && Fraction(1, div).Some?
    ensures AllDigits(Fraction(1, div).value) && Number(Fraction(1, div).value) == 1
    decreases div
  {
    var d := div / 10;
    if d == 1 {
      assert Fraction(1, div).value == "1";
      assert "1"[..0] == "" && Number("1") == 1;
    } else {
      OneTick(d);
      assert Fraction(1, div).value == "0" + Fraction(1, d).value;
      DigitFirst(0, Fraction(1, d).value);
    }
  }

  ghost predicate IsPowerOfTen(r: int) {
    exists k: nat :: r == Pow10(k)
  }

  lemma OneInLastPlace(places: nat, r: int)
    requires IsValue(0, 1, places, 1, r)
    ensures IsPowerOfTen(r)
  {
    assert r == Pow10(places);
  }

  /** One tick is printed as a one in the last place. */
  lemma OneTickIsExact(r: int)
    requires r > 0 && PrintsExactly(1, r)
    ensures IsPowerOfTen(r)
  {
    if r == 1 {
      assert r == Pow10(0);
    } else {
      OneTick(r);
      var digits := Fraction(1, r).value;
      var s := Printed(1, r).value;
      assert ToString(TruncDiv(1, r)) == "0" && "0"[..0] == "" && Number("0") == 0;
      assert s == "0" + "." + digits;
      Parts("0", digits);
      var p: nat :| IsNumeral(s, p) && HasValue(s, p, 1, r);
      SamePoint(s, p, 1);
      OneInLastPlace(|digits|, r);
    }
  }

  lemma AllExact(k: nat)
    ensures forall t: nat :: PrintsExactly(t, Pow10(k))
  {
    forall t: nat
      ensures PrintsExactly(t, Pow10(k))
    {
      PrintIsExact(t, k);
    }
  }

  /** Every count of ticks is printed exactly if, and only if, the resolution is a power of ten. */
  lemma ExactIffPowerOfTen(r: int)
    requires r > 0
    ensures (forall t: nat :: PrintsExactly(t, r)) <==> IsPowerOfTen(r)
  {
    if IsPowerOfTen(r) {
      var k: nat :| r == Pow10(k);
      AllExact(k);
    } else if forall t: nat :: PrintsExactly(t, r) {
      assert PrintsExactly(1, r);
      OneTickIsExact(r);
    }
  }

  /** One tick divides by zero at sixty ticks a second; at fifteen it is printed, as a wrong number. */
  lemma SixtyAndFifteen()
    ensures Printed(1, 60).None?
    ensures (forall t: int :: Printed(t, 15).Some?) && !PrintsExactly(1, 15)
  {
    assert LeadingDigit(60) == 6 && LeadingDigit(15) == 1;
    NeverDividesByZeroIff(60);
    NeverDividesByZeroIff(15);
    if PrintsExactly(1, 15) {
      OneTickIsExact(15);
      FifteenIsNoPower();
    }
  }

  lemma FifteenIsNoPower()
    ensures !IsPowerOfTen(15)
  {
    forall k: nat
      ensures Pow10(k) != 15
    {
      if k > 0 {
        assert Pow10(k) == 10 * Pow10(k - 1);
      }
    }
  }

  // ----- Negative durations -----

  predicate IsInteger(s: string) {
    if s != "" && s[0] == '-' then |s| > 1 && AllDigits(s[1..]) else s != "" && AllDigits(s)
  }

  /** A decimal numeral with an optional sign in front. */
  ghost predicate WellFormed(s: string) {
    exists p: nat :: p < |s| && s[p] == '.' && IsInteger(s[..p]) && AllDigits(s[p + 1..])
  }

  lemma IntegerIsWellFormed(n: int)
    ensures IsInteger(ToString(n)) && '.' !in ToString(n) && (n < 0 ==> '-' in ToString(n))
  {
    NumberOfDecimal(Abs(n));
    if n < 0 {
      assert ToString(n)[1..] == Decimal(-n);
    }
  }

  /** Every quotient of a negative remainder is printed with a sign of its own. */
  lemma {:induction false} FractionOfNegative(t: int, k: nat)
    requires t < 0
    ensures var digits := Fraction(t, Pow10(k));
            digits.Some? && (TruncMod(t, Pow10(k)) == 0 <==> digits.value == "") &&
            (TruncMod(t, Pow10(k)) != 0 ==> '-' in digits.value)
    decreases k
  {
    var rest := TruncMod(t, Pow10(k));
    if k == 0 || rest == 0 {
    } else {
      var p := Pow10(k - 1);
      FractionOfNegative(rest, k - 1);
      var d := TruncDiv(rest, p);
      IntegerIsWellFormed(d);
      var first, others := ToString(d), Fraction(rest, p).value;
      assert Fraction(t, Pow10(k)) == Some(first + others);
      if d < 0 {
        assert '-' in first + others;
      } else {
        QuotRem(-rest, p);
        assert '-' in first + others;
      }
    }
  }

  lemma NoPointInInteger(s: string)
    requires IsInteger(s)
    ensures '.' !in s
  {
    forall i | 0 <= i < |s|
      ensures s[i] != '.'
    {
      if i > 0 && s[0] == '-' {
        assert s[i] == s[1..][i - 1];
      }
    }
  }

  lemma SignInFraction(whole: string, digits: string)
    requires '.' !in whole && '-' in digits && whole != ""
    ensures !WellFormed(whole + "." + digits)
  {
    var s := whole + "." + digits;
    Parts(whole, digits);
    forall p: nat | p < |s| && s[p] == '.' && IsInteger(s[..p])
      ensures p == |whole|
    {
      NoPointInInteger(s[..p]);
      assert forall i :: 0 <= i < p ==> s[i] == s[..p][i];
    }
  }

  /** The text of a duration is a numeral exactly if the ticks are not negative or make whole seconds. */
  lemma WellFormedIff(t: int, k: nat)
    ensures Printed(t, Pow10(k)).Some?
    ensures WellFormed(Printed(t, Pow10(k)).value) <==> t >= 0 || TruncMod(t, Pow10(k)) == 0
  {
    var p := Pow10(k);
    var whole := ToString(TruncDiv(t, p));
    IntegerIsWellFormed(TruncDiv(t, p));
    if t >= 0 {
      FractionOfPower(t, k);
    } else {
      FractionOfNegative(t, k);
    }
    var digits := Fraction(t, p).value;
    var s := Printed(t, p).value;
    assert s == whole + "." + digits;
    Parts(whole, digits);
    if t >= 0 || TruncMod(t, p) == 0 {
      assert IsInteger(s[..|whole|]) && AllDigits(s[|whole| + 1..]);
    } else {
      SignInFraction(whole, digits);
    }
  }

  /** The value of a numeral with an optional sign in front. */
  ghost predicate DenotesSigned(s: string, t: int, r: int) {
    if s != "" && s[0] == '-' then Denotes(s[1..], -t, r) else Denotes(s, t, r)
  }

  lemma DenotingIsWellFormed(s: string, t: int, r: int)
    requires DenotesSigned(s, t, r)
    ensures WellFormed(s)
  {
    if s != "" && s[0] == '-' {
      var p: nat :| IsNumeral(s[1..], p) && HasValue(s[1..], p, -t, r);
      assert s[..p + 1][1..] == s[1..][..p] && s[p + 2..] == s[1..][p + 1..];
      assert s[p + 1] == '.' && IsInteger(s[..p + 1]) && AllDigits(s[p + 1 + 1..]);
    } else {
      var p: nat :| IsNumeral(s, p) && HasValue(s, p, t, r);
      assert s[..p][0] == s[0] && IsInteger(s[..p]);
    }
  }

  /** Negative whole seconds are printed as a sign and the same number of seconds. */
  lemma NegativeWholeSeconds(t: int, p: int)
    requires p > 0 && t < 0 && TruncMod(t, p) == 0
    ensures Printed(-t, p).Some? && Printed(t, p) == Some("-" + Printed(-t, p).value)
  {
    QuotRem(-t, p);
    assert Quot(-t, p) != 0;
    var whole := Decimal(Quot(-t, p));
    assert "-" + whole + "." + "" == "-" + (whole + "." + "");
  }

  /** The text is the exact value of the duration if the ticks are not negative or make whole seconds, and no other. */
  lemma ExactIffWellFormed(t: int, k: nat)
    ensures Printed(t, Pow10(k)).Some?
    ensures DenotesSigned(Printed(t, Pow10(k)).value, t, Pow10(k)) <==> t >= 0 || TruncMod(t, Pow10(k)) == 0
  {
    WellFormedIff(t, k);
    var s := Printed(t, Pow10(k)).value;
    if DenotesSigned(s, t, Pow10(k)) {
      DenotingIsWellFormed(s, t, Pow10(k));
    }
    if t >= 0 {
      PrintIsExact(t, k);
      NumeralHasNoSign(s);
    } else if TruncMod(t, Pow10(k)) == 0 {
      PrintIsExact(-t, k);
      NegativeWholeSeconds(t, Pow10(k));
      assert s[1..] == Printed(-t, Pow10(k)).value;
    }
  }

  lemma NumeralHasNoSign(s: string)
    requires exists p: nat :: IsNumeral(s, p)
    ensures s != "" && s[0] != '-'
  {
    var p: nat :| IsNumeral(s, p);
    assert IsDigit(s[..p][0]);
  }
}
