/** The probability of at least x successes in N independent draws, by its formula and draw by
    draw. */
module BinomialTail {

  const UINT64_LIMIT: nat := 0x1_0000_0000_0000_0000
  const MAX_FACTORIAL: nat := 20

  function Factorial(n: nat): (f: nat)
    ensures f >= 1
  {
    if n <= 1 then 1 else n * Factorial(n - 1)
  }

  /** The number of ways to pick k of n. */
  function Choose(n: nat, k: nat): (c: nat)
    ensures k > n ==> c == 0
    ensures k <= n ==> c >= 1
  {
    if k == 0 then 1 else if n == 0 then 0 else Choose(n - 1, k - 1) + Choose(n - 1, k)
  }

  lemma {:induction false} FactorialSplits(n: nat, k: nat)
    requires k <= n
    ensures Factorial(n) == Choose(n, k) * (Factorial(k) * Factorial(n - k))
    decreases n
  {
    if k == 0 {
      assert Choose(n, 0) == 1 && Factorial(0) == 1;
    } else if k == n {
      FactorialSplits(n - 1, n - 1);
      assert Choose(n, n) == Choose(n - 1, n - 1) + Choose(n - 1, n);
      ChooseAll(n);
    } else {
      FactorialSplits(n - 1, k - 1);
      FactorialSplits(n - 1, k);
      var a, b := Choose(n - 1, k - 1), Choose(n - 1, k);
      var f, g := Factorial(k - 1), Factorial(n - k - 1);
      assert Factorial(k) == k * f;
      assert Factorial(n - k) == (n - k) * g;
      PascalProduct(n, k, a, b, f, g, Factorial(n - 1));
      assert Factorial(n) == n * Factorial(n - 1);
    }
  }

  lemma {:induction false} ChooseAll(n: nat)
    ensures Choose(n, n) == 1
  {
    if n > 0 {
      ChooseAll(n - 1);
    }
  }

  lemma PascalProduct(n: nat, k: nat, a: nat, b: nat, f: nat, g: nat, whole: nat)
    requires 0 < k < n
    requires whole == a * (f * ((n - k) * g))
    requires whole == b * ((k * f) * g)
    ensures n * whole == (a + b) * ((k * f) * ((n - k) * g))
  {
    var m := n - k;
    calc {
      (a + b) * ((k * f) * (m * g));
      a * ((k * f) * (m * g)) + b * ((k * f) * (m * g));
      { ProductShuffle(a, k, f, m * g); ProductShuffle(b, m, k * f, g); }
      k * (a * (f * (m * g))) + m * (b * ((k * f) * g));
      k * whole + m * whole;
      n * whole;
    }
  }

  lemma ProductShuffle(a: nat, k: nat, f: nat, g: nat)
    ensures a * ((k * f) * g) == k * (a * (f * g))
    ensures a * (f * (k * g)) == k * (a * (f * g))
  {
    assert (k * f) * g == k * (f * g);
    assert f * (k * g) == k * (f * g);
    assert a * (k * (f * g)) == k * (a * (f * g));
  }

  lemma {:induction false} FactorialGrows(m: nat, n: nat)
    requires m <= n
    ensures Factorial(m) <= Factorial(n)
    decreases n
  {
    if m < n {
      FactorialGrows(m, n - 1);
      AtLeastOnce(n, Factorial(n - 1));
    }
  }

  lemma FactorialFits(n: nat)
    requires n <= MAX_FACTORIAL
    ensures 1 <= Factorial(n) < UINT64_LIMIT
  {
    FactorialGrows(n, 20);
    TwentyFits();
  }

  /** Up to twenty, nothing the coefficient is computed from leaves 64 bits, and the division
      is exact. */
  lemma {:induction false} CoefficientExact(n: nat, x: nat)
    requires x <= n <= MAX_FACTORIAL
    ensures Factorial(n) < UINT64_LIMIT
    ensures Factorial(x) < UINT64_LIMIT && Factorial(n - x) < UINT64_LIMIT
    ensures 1 <= Factorial(x) * Factorial(n - x) < UINT64_LIMIT
    ensures Factorial(n) % (Factorial(x) * Factorial(n - x)) == 0
    ensures Factorial(n) / (Factorial(x) * Factorial(n - x)) == Choose(n, x)
  {
    FactorialFits(n);
    FactorialFits(x);
    FactorialFits(n - x);
    FactorialSplits(n, x);
    AtLeastOnce(Factorial(x), Factorial(n - x));
    ExactQuotient(Factorial(n), Factorial(x) * Factorial(n - x), Choose(n, x));
  }

  lemma ExactQuotient(whole: nat, d: nat, c: nat)
    requires d >= 1 && c >= 1 && whole == c * d
    ensures whole / d == c && whole % d == 0 && d <= whole
  {
    UniqueQuotient(d, whole / d, whole % d, c);
    AtLeastOnce(c, d);
  }

  lemma UniqueQuotient(d: nat, q: int, r: nat, c: int)
    requires r < d && d * q + r == c * d
    ensures q == c && r == 0
  {
    if q < c {
      AtLeastOnce(c - q, d);
    } else if q > c {
      AtLeastOnce(q - c, d);
    }
  }

  lemma AtLeastOnce(k: int, d: nat)
    requires k >= 1
    ensures k * d >= d
  {
    assert k * d == d + (k - 1) * d;
  }

  lemma TwentyFits()
    ensures Factorial(20) == 2432902008176640000
  {
    assert Factorial(5) == 120;
    assert Factorial(10) == 3628800;
    assert Factorial(15) == 1307674368000;
  }

  // ----- Probabilities

  function Power(p: real, k: nat): real {
    if k == 0 then 1.0 else p * Power(p, k - 1)
  }

  /** What a draw that succeeds with probability p makes of its two continuations. */
  function Mix(p: real, hit: real, miss: real): real {
    p * hit + (1.0 - p) * miss
  }

  /** Exactly k successes in n draws, draw by draw. */
  function Exactly(k: int, n: nat, p: real): real {
    if k < 0 || k > n then 0.0
    else if n == 0 then 1.0
    else Mix(p, Exactly(k - 1, n - 1, p), Exactly(k, n - 1, p))
  }

  /** At least x successes in n draws, draw by draw. */
  function AtLeast(x: int, n: nat, p: real): real {
    if x <= 0 then 1.0
    else if n == 0 then 0.0
    else Mix(p, AtLeast(x - 1, n - 1, p), AtLeast(x, n - 1, p))
  }

  /** The binomial formula. */
  function Formula(k: nat, n: nat, p: real): real
    requires k <= n
  {
    Power(p, k) * Power(1.0 - p, n - k) * Choose(n, k) as real
  }

  lemma FormulaStep(p: real, q: real, s: real, f: real, g: real, a: real, b: real)
    requires f == q * g
    ensures (p * s) * f * (a + b) == p * (s * f * a) + q * ((p * s) * g * b)
  {
    assert (p * s) * f * (a + b) == (p * s) * f * a + (p * s) * f * b;
    assert (p * s) * f * a == p * (s * f * a);
    assert (p * s) * (q * g) * b == q * ((p * s) * g * b);
  }

  lemma FormulaInside(k: nat, n: nat, p: real)
    requires 0 < k < n
    ensures Formula(k, n, p) == Mix(p, Formula(k - 1, n - 1, p), Formula(k, n - 1, p))
  {
    var s, f, g := Power(p, k - 1), Power(1.0 - p, n - k), Power(1.0 - p, n - 1 - k);
    var a, b := Choose(n - 1, k - 1) as real, Choose(n - 1, k) as real;
    FormulaStep(p, 1.0 - p, s, f, g, a, b);
    assert Choose(n, k) as real == a + b;
  }

  lemma FormulaAtZero(n: nat, p: real)
    requires n > 0
    ensures Formula(0, n, p) == Mix(p, 0.0, Formula(0, n - 1, p))
  {
    var g := Power(1.0 - p, n - 1);
    assert Formula(0, n - 1, p) == 1.0 * g * 1.0;
    assert Formula(0, n, p) == 1.0 * ((1.0 - p) * g) * 1.0;
  }

  lemma FormulaAtEnd(n: nat, p: real)
    requires n > 0
    ensures Formula(n, n, p) == Mix(p, Formula(n - 1, n - 1, p), 0.0)
  {
    var s := Power(p, n - 1);
    ChooseAll(n);
    ChooseAll(n - 1);
    assert Formula(n - 1, n - 1, p) == s * 1.0 * 1.0;
    assert Formula(n, n, p) == (p * s) * 1.0 * 1.0;
  }

  /** The formula gives the probability of exactly k successes. */
  lemma {:induction false} FormulaIsExactly(k: nat, n: nat, p: real)
    requires k <= n
    ensures Formula(k, n, p) == Exactly(k, n, p)
    decreases n
  {
    if n == 0 {
      assert Power(p, 0) == 1.0 && Power(1.0 - p, 0) == 1.0;
    } else if k == 0 {
      FormulaIsExactly(0, n - 1, p);
      FormulaAtZero(n, p);
    } else if k == n {
      FormulaIsExactly(k - 1, n - 1, p);
      FormulaAtEnd(n, p);
    } else {
      FormulaIsExactly(k - 1, n - 1, p);
      FormulaIsExactly(k, n - 1, p);
      FormulaInside(k, n, p);
    }
  }

  /** The sum of the probabilities from x to n. */
  function TailSum(x: int, n: nat, p: real): real
    decreases n + 1 - x
  {
    if x > n then 0.0 else Exactly(x, n, p) + TailSum(x + 1, n, p)
  }

  lemma MixSum(p: real, a: real, b: real, c: real, d: real)
    ensures Mix(p, a, b) + Mix(p, c, d) == Mix(p, a + c, b + d)
  {
  }

  lemma MixSame(p: real, a: real)
    ensures Mix(p, a, a) == a
  {
  }

  lemma {:induction false} TailSumByFirstDraw(x: int, n: nat, p: real)
    requires n >= 1 && x >= 0
    ensures TailSum(x, n, p) == Mix(p, TailSum(x - 1, n - 1, p), TailSum(x, n - 1, p))
    decreases n + 1 - x
  {
    if x <= n {
      TailSumByFirstDraw(x + 1, n, p);
      MixSum(p, Exactly(x - 1, n - 1, p), Exactly(x, n - 1, p), TailSum(x, n - 1, p), TailSum(x + 1, n - 1, p));
    } else {
      MixSame(p, 0.0);
    }
  }

  /** Summing the formula from x gives the probability of at least x, for every x, n and p. */
  lemma {:induction false} TailSumIsAtLeast(x: int, n: nat, p: real)
    requires x >= -1
    ensures TailSum(x, n, p) == AtLeast(x, n, p)
    decreases n, if x < 0 then 1 else 0
  {
    if x == -1 {
      TailSumIsAtLeast(0, n, p);
    } else if n > 0 {
      TailSumByFirstDraw(x, n, p);
      TailSumIsAtLeast(x - 1, n - 1, p);
      TailSumIsAtLeast(x, n - 1, p);
      if x == 0 {
        MixSame(p, 1.0);
      }
    }
  }

  // ----- Order

  lemma MixOrdered(p: real, a: real, b: real, c: real, d: real)
    requires 0.0 <= p <= 1.0 && a <= c && b <= d
    ensures Mix(p, a, b) <= Mix(p, c, d)
  {
    NonNegative(p, c - a);
    NonNegative(1.0 - p, d - b);
    MixDifference(p, a, b, c, d);
  }

  lemma MixDifference(p: real, a: real, b: real, c: real, d: real)
    ensures Mix(p, c, d) - Mix(p, a, b) == p * (c - a) + (1.0 - p) * (d - b)
  {
  }

  lemma NonNegative(a: real, b: real)
    requires 0.0 <= a && 0.0 <= b
    ensures 0.0 <= a * b
  {
  }

  lemma ProductOrdered(p: real, a: real, c: real)
    requires 0.0 <= p && a <= c
    ensures p * a <= p * c
  {
    assert p * (c - a) >= 0.0;
  }

  lemma {:induction false} AtLeastBounds(x: int, n: nat, p: real)
    requires 0.0 <= p <= 1.0
    ensures 0.0 <= AtLeast(x, n, p) <= 1.0
    decreases n
  {
    if x > 0 && n > 0 {
      AtLeastBounds(x - 1, n - 1, p);
      AtLeastBounds(x, n - 1, p);
      MixSame(p, 0.0);
      MixSame(p, 1.0);
      MixOrdered(p, 0.0, 0.0, AtLeast(x - 1, n - 1, p), AtLeast(x, n - 1, p));
      MixOrdered(p, AtLeast(x - 1, n - 1, p), AtLeast(x, n - 1, p), 1.0, 1.0);
    }
  }

  /** Asking for more successes is no likelier. */
  lemma {:induction false} AtLeastFallsWithX(x: int, n: nat, p: real)
    requires 0.0 <= p <= 1.0
    ensures AtLeast(x + 1, n, p) <= AtLeast(x, n, p)
    decreases n
  {
    if x <= 0 {
      AtLeastBounds(x + 1, n, p);
    } else if n > 0 {
      AtLeastFallsWithX(x - 1, n - 1, p);
      AtLeastFallsWithX(x, n - 1, p);
      MixOrdered(p, AtLeast(x, n - 1, p), AtLeast(x + 1, n - 1, p), AtLeast(x - 1, n - 1, p), AtLeast(x, n - 1, p));
    }
  }

  lemma MixGrows(p: real, r: real, hit: real, miss: real)
    requires p <= r && miss <= hit
    ensures Mix(p, hit, miss) <= Mix(r, hit, miss)
  {
    ProductOrdered(r - p, miss, hit);
    assert Mix(r, hit, miss) - Mix(p, hit, miss) == (r - p) * hit - (r - p) * miss;
  }

  /** A larger share of the network makes it no less likely. */
  lemma {:induction false} AtLeastGrowsWithP(x: int, n: nat, p: real, r: real)
    requires 0.0 <= p <= r <= 1.0
    ensures AtLeast(x, n, p) <= AtLeast(x, n, r)
    decreases n
  {
    if x > 0 && n > 0 {
      AtLeastGrowsWithP(x - 1, n - 1, p, r);
      AtLeastGrowsWithP(x, n - 1, p, r);
      AtLeastFallsWithX(x - 1, n - 1, p);
      MixGrows(p, r, AtLeast(x - 1, n - 1, p), AtLeast(x, n - 1, p));
      MixOrdered(r, AtLeast(x - 1, n - 1, p), AtLeast(x, n - 1, p), AtLeast(x - 1, n - 1, r), AtLeast(x, n - 1, r));
    }
  }

  /** The coefficient, by factorials in 64 bits. */
  method Coefficient(k: nat, n: nat, whole: nat) returns (c: nat)
    requires k <= n <= MAX_FACTORIAL && whole == Factorial(n)
    ensures c == Choose(n, k)
  {
    CoefficientExact(n, k);
    c := whole / (Factorial(k) * Factorial(n - k));
  }

  method Summand(k: nat, n: nat, p: real, coefficient: nat) returns (term: real)
    requires k <= n && coefficient == Choose(n, k)
    ensures term == Exactly(k, n, p)
  {
    FormulaIsExactly(k, n, p);
    term := Power(p, k) * Power(1.0 - p, n - k) * coefficient as real;
  }

  /** The loop of the source, in exact arithmetic. */
  method PWin(x: nat, n: nat, p: real) returns (result: real)
    requires n <= MAX_FACTORIAL
    ensures result == AtLeast(x, n, p)
  {
    result := 0.0;
    var k := x;
    var whole := Factorial(n);
    while k <= n
      invariant x <= k
      invariant TailSum(x, n, p) == result + TailSum(k, n, p)
      decreases n + 1 - k
    {
      var coefficient := Coefficient(k, n, whole);
      var term := Summand(k, n, p, coefficient);
      result := result + term;
      k := k + 1;
    }
    TailSumIsAtLeast(x, n, p);
  }
}
