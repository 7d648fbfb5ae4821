/** Big-endian positional notation in any base, used by the decimal printer of
    the money types and by both halves of the Base58 codec. */
module Positional {
  function Value(ds: seq<nat>, b: nat): nat
  {
    if ds == [] then 0 else Value(ds[..|ds| - 1], b) * b + ds[|ds| - 1]
  }

  predicate AllBelow(ds: seq<nat>, b: nat)
  {
    forall i :: 0 <= i < |ds| ==> ds[i] < b
  }

  /** A numeral without leading zeros; zero itself is the empty numeral. */
  predicate Canonical(ds: seq<nat>, b: nat)
  {
    AllBelow(ds, b) && (ds == [] || ds[0] != 0)
  }

  lemma DivShrinks(n: nat, b: nat)
    requires n > 0 && b >= 2
    ensures n / b < n && n == (n / b) * b + n % b && 0 <= n % b < b
  {
  }

  /** The canonical numeral of `n`. */
  function Digits(n: nat, b: nat): (ds: seq<nat>)
    requires b >= 2
    ensures Canonical(ds, b) && Value(ds, b) == n
    decreases n
  {
    if n == 0 then []
    else
      DivShrinks(n, b);
      var front := Digits(n / b, b);
      assert (front + [n % b])[..|front|] == front;
      front + [n % b]
  }

  lemma DivMod(q: nat, r: nat, b: nat)
    requires r < b
    ensures (q * b + r) / b == q && (q * b + r) % b == r
  {
    var n := q * b + r;
    assert n == (n / b) * b + n % b;
    var d := n / b - q;
    assert d * b == r - n % b;
    assert d >= 1 ==> d * b >= b;
    assert d <= -1 ==> d * b + b <= 0;
  }

  lemma {:induction false} ValuePositive(ds: seq<nat>, b: nat)
    requires b >= 2 && ds != [] && ds[0] != 0
    ensures Value(ds, b) > 0
  {
    if |ds| > 1 {
      var front := ds[..|ds| - 1];
      ValuePositive(front, b);
      assert Value(front, b) * b >= 1 * b;
    }
  }

  /** `Digits` inverts `Value` on canonical numerals. */
  lemma {:induction false} DigitsOfValue(ds: seq<nat>, b: nat)
    requires b >= 2 && Canonical(ds, b)
    ensures Digits(Value(ds, b), b) == ds
  {
    if ds != [] {
      var front, last := ds[..|ds| - 1], ds[|ds| - 1];
      ValuePositive(ds, b);
      DigitsOfValue(front, b);
      DivMod(Value(front, b), last, b);
      assert ds == front + [last];
    }
  }

  lemma {:induction false} LeadingZeros(k: nat, ds: seq<nat>, b: nat)
    ensures Value(seq(k, _ => 0) + ds, b) == Value(ds, b)
  {
    var zs := seq(k, _ => 0);
    if ds != [] {
      LeadingZeros(k, ds[..|ds| - 1], b);
      assert (zs + ds)[..|zs + ds| - 1] == zs + ds[..|ds| - 1];
    } else if k > 0 {
      LeadingZeros(k - 1, [], b);
      var rest: seq<nat> := seq(k - 1, _ => 0);
      assert zs + ds == zs;
      assert zs[..k - 1] == rest;
      assert rest + [] == rest;
    }
  }

  function Pow(b: nat, k: nat): nat
  {
    if k == 0 then 1 else b * Pow(b, k - 1)
  }

  lemma {:induction false} TrailingZeros(ds: seq<nat>, k: nat, b: nat)
    ensures Value(ds + seq(k, _ => 0), b) == Value(ds, b) * Pow(b, k)
  {
    var whole := ds + seq(k, _ => 0);
    if k == 0 {
      assert whole == ds;
    } else {
      TrailingZeros(ds, k - 1, b);
      var rest: seq<nat> := seq(k - 1, _ => 0);
      assert whole[..|whole| - 1] == ds + rest;
      MulRegroup(Value(ds, b), Pow(b, k - 1), b);
    }
  }

  lemma MulRegroup(x: nat, y: nat, z: nat)
    ensures x * y * z == x * (z * y)
  {}

  lemma {:induction false} PowAdd(b: nat, i: nat, j: nat)
    ensures Pow(b, i + j) == Pow(b, i) * Pow(b, j)
  {
    if i > 0 {
      PowAdd(b, i - 1, j);
      assert b * (Pow(b, i - 1) * Pow(b, j)) == b * Pow(b, i - 1) * Pow(b, j);
    }
  }

  lemma {:induction false} PowPositive(b: nat, k: nat)
    requires b > 0
    ensures Pow(b, k) > 0
  {
    if k > 0 {
      PowPositive(b, k - 1);
      assert b * Pow(b, k - 1) >= 1 * Pow(b, k - 1);
    }
  }

  /** The last `width` digits of `n`, leading zeros included. */
  function FixedDigits(n: nat, width: nat, b: nat): (ds: seq<nat>)
    requires b >= 2
    ensures |ds| == width && AllBelow(ds, b)
    decreases width
  {
    if width == 0 then [] else FixedDigits(n / b, width - 1, b) + [n % b]
  }

  lemma QuotientBelow(n: nat, b: nat, p: nat)
    requires b >= 2 && n < b * p
    ensures n / b < p && n == (n / b) * b + n % b
  {
    var q := n / b;
    assert n == q * b + n % b;
    assert q >= p ==> q * b >= p * b;
  }

  /** A number that fits is read back from its fixed-width digits. */
  lemma {:induction false} FixedValue(n: nat, width: nat, b: nat)
    requires b >= 2 && n < Pow(b, width)
    ensures Value(FixedDigits(n, width, b), b) == n
    decreases width
  {
    if width > 0 {
      QuotientBelow(n, b, Pow(b, width - 1));
      FixedValue(n / b, width - 1, b);
      var ds := FixedDigits(n, width, b);
      assert ds[..|ds| - 1] == FixedDigits(n / b, width - 1, b);
    }
  }
}
