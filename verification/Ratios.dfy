/** Rates as ratios of integers, ordered by cross-multiplication, and the
    greatest common divisor that keeps them in lowest terms. */
module Ratios {
  import opened Money
  import Positional

  datatype Ratio = Ratio(n: nat, d: nat)

  /** `a <= b`, without leaving the integers. */
  predicate Le(a: Ratio, b: Ratio) {
    a.n * b.d <= b.n * a.d
  }

  lemma LeTransitive(a: Ratio, b: Ratio, c: Ratio)
    requires b.d > 0 && Le(a, b) && Le(b, c)
    ensures Le(a, c)
  {
    MulLe(a.n * b.d, b.n * a.d, c.d);
    MulLe(b.n * c.d, c.n * b.d, a.d);
    Swap3(a.n, b.d, c.d);
    Swap3(b.n, a.d, c.d);
    Swap3(c.n, b.d, a.d);
    MulCancel(a.n * c.d, c.n * a.d, b.d);
  }

  lemma Swap3(x: nat, y: nat, z: nat)
    ensures (x * y) * z == (x * z) * y
  {}

  function Scale(a: Ratio, k: nat): Ratio { Ratio(a.n * k, a.d) }

  lemma LeScale(a: Ratio, b: Ratio, k: nat)
    requires Le(a, b)
    ensures Le(Scale(a, k), Scale(b, k))
  {
    MulLe(a.n * b.d, b.n * a.d, k);
    Swap3(a.n, b.d, k);
    Swap3(b.n, a.d, k);
  }

  /** Dividing both terms by a common factor changes no comparison. */
  lemma LeReduced(a: Ratio, g: nat, b: Ratio)
    requires g > 0
    ensures Le(Ratio(a.n * g, a.d * g), b) <==> Le(a, b)
    ensures Le(b, Ratio(a.n * g, a.d * g)) <==> Le(b, a)
  {
    Swap3(a.n, g, b.d);
    assert b.n * (a.d * g) == (b.n * a.d) * g;
    assert b.n * (a.d * g) == (b.n * a.d) * g;
    assert (a.n * b.d) * g <= (b.n * a.d) * g ==> a.n * b.d <= b.n * a.d by {
      if (a.n * b.d) * g <= (b.n * a.d) * g { MulCancel(a.n * b.d, b.n * a.d, g); }
    }
    assert (b.n * a.d) * g <= (a.n * b.d) * g ==> b.n * a.d <= a.n * b.d by {
      if (b.n * a.d) * g <= (a.n * b.d) * g { MulCancel(b.n * a.d, a.n * b.d, g); }
    }
    if a.n * b.d <= b.n * a.d { MulLe(a.n * b.d, b.n * a.d, g); }
    if b.n * a.d <= a.n * b.d { MulLe(b.n * a.d, a.n * b.d, g); }
  }

  /** The exact mean of two rates. */
  function Mean(a: Ratio, b: Ratio): Ratio {
    Ratio(a.n * b.d + b.n * a.d, a.d * b.d * 2)
  }

  lemma MeanBetween(a: Ratio, b: Ratio)
    requires Le(a, b)
    ensures Le(a, Mean(a, b)) && Le(Mean(a, b), b)
  {
    var x, y := a.n * b.d, b.n * a.d;
    MulLe(x, y, a.d);
    MulLe(x, y, b.d);
    assert a.n * (a.d * b.d * 2) == (x * a.d) * 2 by { Swap3(a.n, b.d, a.d); assert a.n * (a.d * b.d) == (a.n * a.d) * b.d; }
    assert (x + y) * a.d == x * a.d + y * a.d;
    assert b.n * (a.d * b.d * 2) == (y * b.d) * 2 by { assert b.n * (a.d * b.d) == (b.n * a.d) * b.d; }
    assert (x + y) * b.d == x * b.d + y * b.d;
  }

  // ----- greatest common divisor -----

  ghost predicate Divides(c: nat, a: nat) {
    exists k: nat :: a == c * k
  }

  /** Division by repeated subtraction. Proofs use only the law below, so that no
      product of amounts meets a machine division. */
  function Quotient(a: nat, b: nat): nat
    requires b > 0
  {
    if a < b then 0 else 1 + Quotient(a - b, b)
  }

  function Remainder(a: nat, b: nat): (r: nat)
    requires b > 0
    ensures r < b
  {
    if a < b then a else Remainder(a - b, b)
  }

  lemma {:induction false} QuotientRemainder(a: nat, b: nat)
    requires b > 0
    ensures a == b * Quotient(a, b) + Remainder(a, b)
  {
    if a >= b {
      QuotientRemainder(a - b, b);
      assert b * (1 + Quotient(a - b, b)) == b + b * Quotient(a - b, b);
    }
  }

  /** They are what the machine computes. */
  lemma MachineDivision(a: nat, b: nat)
    requires b > 0
    ensures Quotient(a, b) == a / b && Remainder(a, b) == a % b
  {
    QuotientRemainder(a, b);
    assert b * Quotient(a, b) == Quotient(a, b) * b;
    Positional.DivMod(Quotient(a, b), Remainder(a, b), b);
  }

  function Gcd(a: nat, b: nat): nat
    decreases b
  {
    if b == 0 then a else Gcd(b, Remainder(a, b))
  }

  lemma DividesSum(c: nat, b: nat, q: nat, r: nat)
    requires Divides(c, b) && Divides(c, r)
    ensures Divides(c, b * q + r)
  {
    var y: nat :| b == c * y;
    var z: nat :| r == c * z;
    assert b * q == c * (y * q);
    assert b * q + r == c * (y * q + z);
  }

  lemma DividesDifference(c: nat, b: nat, q: nat, r: nat)
    requires b > 0 && Divides(c, b) && Divides(c, b * q + r)
    ensures Divides(c, r)
  {
    var y: nat :| b == c * y;
    var x: nat :| b * q + r == c * x;
    var k := x - y * q;
    Factor(c, x, y, q);
    assert r == c * k;
    NonNegativeFactor(c, k);
  }

  lemma Factor(c: nat, x: int, y: int, q: int)
    ensures c * x - (c * y) * q == c * (x - y * q)
  {}

  lemma NonNegativeFactor(c: nat, k: int)
    requires c > 0 && c * k >= 0
    ensures k >= 0
  {
    assert k <= -1 ==> c * k + c <= 0;
  }

  lemma DividesRemainder(c: nat, a: nat, b: nat)
    requires b > 0 && Divides(c, b)
    ensures Divides(c, a) <==> Divides(c, Remainder(a, b))
  {
    QuotientRemainder(a, b);
    if Divides(c, Remainder(a, b)) { DividesSum(c, b, Quotient(a, b), Remainder(a, b)); }
    if Divides(c, a) { DividesDifference(c, b, Quotient(a, b), Remainder(a, b)); }
  }

  /** It divides both, and every common divisor divides it. */
  lemma {:induction false} GcdDivides(a: nat, b: nat)
    ensures Divides(Gcd(a, b), a) && Divides(Gcd(a, b), b)
    decreases b
  {
    if b == 0 {
      assert a == a * 1 && b == a * 0;
    } else {
      GcdDivides(b, Remainder(a, b));
      DividesRemainder(Gcd(a, b), a, b);
    }
  }

  lemma {:induction false} GcdGreatest(a: nat, b: nat, c: nat)
    requires Divides(c, a) && Divides(c, b)
    ensures Divides(c, Gcd(a, b))
    decreases b
  {
    if b != 0 {
      DividesRemainder(c, a, b);
      GcdGreatest(b, Remainder(a, b), c);
    }
  }

  lemma {:induction false} GcdPositive(a: nat, b: nat)
    requires a > 0 || b > 0
    ensures Gcd(a, b) > 0
    decreases b
  {
    if b != 0 { GcdPositive(b, Remainder(a, b)); }
  }

  /** `greatest_common_divisor`: Euclid's loop. */
  method GreatestCommonDivisor(left: nat, right: nat) returns (g: nat)
    ensures g == if left == 0 && right == 0 then 1 else Gcd(left, right)
  {
    var a, b := left, right;
    while b != 0
      invariant Gcd(a, b) == Gcd(left, right)
      invariant a == 0 && b == 0 ==> left == 0 && right == 0
      decreases b
    {
      MachineDivision(a, b);
      a, b := b, a % b;
    }
    if left > 0 || right > 0 { GcdPositive(left, right); }
    g := if a == 0 then 1 else a;
  }

  /** No integer above one divides both terms. */
  ghost predicate LowestTerms(a: Ratio) {
    forall c: nat :: Divides(c, a.n) && Divides(c, a.d) ==> c == 1
  }

  function Reduce(a: Ratio): Ratio
    requires a.n > 0
  {
    GcdPositive(a.n, a.d);
    Ratio(Quotient(a.n, Gcd(a.n, a.d)), Quotient(a.d, Gcd(a.n, a.d)))
  }

  lemma ExactQuotient(a: nat, g: nat)
    requires g > 0 && Divides(g, a)
    ensures a == Quotient(a, g) * g
  {
    var k: nat :| a == g * k;
    QuotientRemainder(a, g);
    OnlyQuotient(k, Quotient(a, g), Remainder(a, g), g);
  }

  lemma OnlyQuotient(k: nat, q: nat, r: nat, g: nat)
    requires g * k == g * q + r && r < g
    ensures k == q && r == 0
  {
    assert g * (k - q) == r;
    assert k - q >= 1 ==> g * (k - q) >= g;
    assert k - q <= -1 ==> g * (k - q) + g <= 0;
  }

  /** Reducing keeps the value and leaves no common divisor. */
  lemma ReduceExact(a: Ratio)
    requires a.n > 0 && a.d > 0
    ensures var r := Reduce(a); var g := Gcd(a.n, a.d);
            g > 0 && a.n == r.n * g && a.d == r.d * g && r.n > 0 && r.d > 0 && LowestTerms(r)
  {
    var g, r := Gcd(a.n, a.d), Reduce(a);
    GcdPositive(a.n, a.d);
    GcdDivides(a.n, a.d);
    ExactQuotient(a.n, g);
    ExactQuotient(a.d, g);
    forall c: nat | Divides(c, r.n) && Divides(c, r.d) ensures c == 1 {
      CommonDivisorIsOne(a, r, g, c);
    }
  }

  lemma CommonDivisorIsOne(a: Ratio, r: Ratio, g: nat, c: nat)
    requires g > 0 && g == Gcd(a.n, a.d) && a.n == r.n * g && a.d == r.d * g
    requires Divides(c, r.n) && Divides(c, r.d)
    ensures c == 1
  {
    var x: nat :| r.n == c * x;
    var y: nat :| r.d == c * y;
    assert a.n == (c * g) * x by { Swap3(c, x, g); }
    assert a.d == (c * g) * y by { Swap3(c, y, g); }
    assert Divides(c * g, a.n) && Divides(c * g, a.d);
    GcdGreatest(a.n, a.d, c * g);
    var k: nat :| g == (c * g) * k;
    assert g == (c * k) * g by { Swap3(c, g, k); }
    assert (c * k - 1) * g == 0;
    var e := c * k - 1;
    assert e >= 1 ==> e * g >= g;
    assert e <= -1 ==> e * g + g <= 0;
    UnitFactor(c, k);
  }

  lemma UnitFactor(c: nat, k: nat)
    requires c * k == 1
    ensures c == 1
  {
    assert k >= 1 ==> c * k >= c;
    assert k == 0 ==> c * k == 0;
  }
}
