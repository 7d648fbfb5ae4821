/** Raw token amounts: 256-bit unsigned integers with checked arithmetic, the
    round-up conversion every quote rests on, and their decimal text. */
module Money {
  import opened Common
  import Positional

  const U256_LIMIT: nat := 0x1_0000_0000_0000_0000_0000_0000_0000_0000_0000_0000_0000_0000_0000_0000_0000_0000

  type U256 = n: nat | n < U256_LIMIT
  /** A payable amount: every parsing constructor refuses zero. */
  type Amount = n: U256 | n > 0 witness 1
  type U64 = n: nat | n < 0x1_0000_0000_0000_0000
  type U32 = n: nat | n < 0x1_0000_0000

  const U32_MAX: U32 := 0xFFFF_FFFF

  datatype MoneyError = AmountMustBePositive | InvalidRawAmount | RawAmountOverflow | DivisionByZero

  /** A product by repeated addition. Products of two unknown amounts next to the
      256-bit bound are reasoned about only through `ProductIs`. */
  function Product(a: nat, b: nat): nat {
    if b == 0 then 0 else a + Product(a, b - 1)
  }

  lemma {:induction false} ProductIs(a: nat, b: nat)
    ensures Product(a, b) == a * b
  {
    if b > 0 {
      ProductIs(a, b - 1);
      assert a * b == a + a * (b - 1);
    }
  }

  lemma ProductPositive(a: nat, b: nat)
    requires a > 0 && b > 0
    ensures Product(a, b) > 0
  {
    ProductIs(a, b);
    MulGrows(a, b);
  }

  function CheckedMul(a: U256, b: U256): Option<U256> {
    if Product(a, b) < U256_LIMIT then Some(Product(a, b)) else None
  }

  /** `RawAmount::positive`. */
  function Positive(n: U256): (r: Result<U256, MoneyError>) {
    if n == 0 then Err(AmountMustBePositive) else Ok(n)
  }

  // ----- multiply, divide, round up -----

  /** `v` is the least integer with `v * d >= p`. */
  predicate IsCeil(v: int, p: int, d: int) {
    (v - 1) * d < p <= v * d
  }

  lemma CeilQuotient(p: nat, d: nat)
    requires d > 0
    ensures p % d == 0 ==> IsCeil(p / d, p, d) && p / d <= p
    ensures p % d != 0 ==> IsCeil(p / d + 1, p, d) && p / d + 1 <= p
    ensures p > 0 && p % d == 0 ==> p / d > 0
  {
    assert p == (p / d) * d + p % d;
    CeilOfParts(p / d, p % d, d);
  }

  lemma CeilOfParts(q: nat, r: nat, d: nat)
    requires r < d
    ensures r == 0 ==> IsCeil(q, q * d, d) && q <= q * d
    ensures r != 0 ==> IsCeil(q + 1, q * d + r, d) && q + 1 <= q * d + r
    ensures q == 0 ==> q * d == 0
  {
    assert (q - 1) * d == q * d - d;
    assert (q + 1) * d == q * d + d;
    MulGrows(q, d);
  }

  lemma MulGrows(q: nat, d: nat)
    requires d > 0
    ensures q <= q * d
  {}

  /** A quotient rounded up: never more than 256 bits when the product fits. */
  function RoundUp(product: U256, denominator: U256): (r: Result<U256, MoneyError>)
    requires denominator > 0
  {
    CeilQuotient(product, denominator);
    var quotient := product / denominator;
    var remainder := product % denominator;
    if remainder == 0 then Positive(quotient)
    else if quotient + 1 >= U256_LIMIT then Err(RawAmountOverflow)
    else Positive(quotient + 1)
  }

  lemma RoundUpIsCeil(product: U256, denominator: U256)
    requires denominator > 0
    ensures var r := RoundUp(product, denominator);
            if product > 0 then r.Ok? && IsCeil(r.value, product, denominator) && r.value > 0
            else r == Err(AmountMustBePositive)
  {
    CeilQuotient(product, denominator);
  }

  /** `mul_div_ceil`: multiply, divide, round up. */
  function MulDivCeil(multiplier: U64, numerator: U256, denominator: U256): (r: Result<U256, MoneyError>)
    ensures r.Ok? ==> IsCeil(r.value, Product(multiplier, numerator), denominator) && r.value > 0
    ensures r.Ok? <==> denominator != 0 && 0 < Product(multiplier, numerator) < U256_LIMIT
    ensures r == Err(DivisionByZero) <==> denominator == 0
    ensures r == Err(RawAmountOverflow) <==> denominator != 0 && Product(multiplier, numerator) >= U256_LIMIT
  {
    if denominator == 0 then Err(DivisionByZero)
    else
      var product := Product(multiplier, numerator);
      if product >= U256_LIMIT then Err(RawAmountOverflow)
      else
        RoundUpIsCeil(product, denominator);
        RoundUp(product, denominator)
  }

  /** The least amount `v` with `v * denominator >= multiplier * numerator`, and
      exactly which inputs are refused. The round-up itself never overflows. */
  lemma MulDivCeilIsLeast(m: U64, n: U256, d: U256)
    ensures var r := MulDivCeil(m, n, d);
            && (r.Ok? ==> IsCeil(r.value, m * n, d) && r.value > 0)
            && (r.Ok? <==> d != 0 && 0 < m * n < U256_LIMIT)
            && (r == Err(DivisionByZero) <==> d == 0)
            && (r == Err(RawAmountOverflow) <==> d != 0 && m * n >= U256_LIMIT)
            && (r == Err(AmountMustBePositive) <==> d != 0 && m * n == 0)
  {
    ProductIs(m, n);
  }

  /** Rounding up respects the order of rates: a rate that is no larger never
      converts to a larger amount. */
  lemma MulDivCeilMonotone(m: U64, n1: U256, d1: U256, n2: U256, d2: U256)
    requires d1 > 0 && d2 > 0 && n1 * d2 <= n2 * d1
    requires MulDivCeil(m, n1, d1).Ok? && MulDivCeil(m, n2, d2).Ok?
    ensures MulDivCeil(m, n1, d1).value <= MulDivCeil(m, n2, d2).value
  {
    var v1, v2 := MulDivCeil(m, n1, d1).value, MulDivCeil(m, n2, d2).value;
    ProductIs(m, n1);
    ProductIs(m, n2);
    ScaledOrder(m, n1, d1, n2, d2);
    CeilOrder(m * n1, m * n2, d1, d2, v1, v2);
  }

  lemma ScaledOrder(m: nat, n1: nat, d1: nat, n2: nat, d2: nat)
    requires n1 * d2 <= n2 * d1
    ensures (m * n1) * d2 <= (m * n2) * d1
  {
    MulLe(n1 * d2, n2 * d1, m);
    assert m * (n1 * d2) == (m * n1) * d2;
    assert m * (n2 * d1) == (m * n2) * d1;
  }

  lemma CeilOrder(a1: nat, a2: nat, d1: nat, d2: nat, v1: int, v2: int)
    requires d1 > 0 && d2 > 0 && a1 * d2 <= a2 * d1
    requires IsCeil(v1, a1, d1) && IsCeil(v2, a2, d2)
    ensures v1 <= v2
  {
    MulLe(a2, v2 * d2, d1);
    assert (v2 * d2) * d1 == (v2 * d1) * d2;
    MulCancel(a1, v2 * d1, d2);
    MulCancelStrict(v1 - 1, v2, d1);
  }

  lemma MulLe(a: int, b: int, c: nat)
    requires a <= b
    ensures a * c <= b * c && c * a <= c * b
  {
    assert (b - a) * c >= 0;
    assert (b - a) * c == b * c - a * c;
  }

  lemma MulCancel(a: int, b: int, c: nat)
    requires c > 0 && a * c <= b * c
    ensures a <= b
  {
    assert (a - b) * c == a * c - b * c;
    assert a - b >= 1 ==> (a - b) * c >= c;
  }

  lemma MulCancelStrict(a: int, b: int, c: nat)
    requires c > 0 && a * c < b * c
    ensures a < b
  {
    assert (a - b) * c == a * c - b * c;
    assert a - b >= 0 ==> (a - b) * c >= 0;
  }

  // ----- decimal text -----

  predicate IsDigit(c: char) { '0' <= c <= '9' }

  function DigitChar(d: nat): (c: char)
    requires d < 10
    ensures IsDigit(c) && CharDigit(c) == d
  {
    '0' + d as char
  }

  function CharDigit(c: char): (d: nat)
    requires IsDigit(c)
    ensures d < 10
  {
    (c - '0') as nat
  }

  predicate AllDigits(s: string) {
    forall i :: 0 <= i < |s| ==> IsDigit(s[i])
  }

  function Numerals(s: string): (ds: seq<nat>)
    requires AllDigits(s)
    ensures |ds| == |s| && Positional.AllBelow(ds, 10)
    ensures forall i :: 0 <= i < |s| ==> ds[i] == CharDigit(s[i])
  {
    seq(|s|, i requires 0 <= i < |s| => CharDigit(s[i]))
  }

  function Spell(ds: seq<nat>): (s: string)
    requires Positional.AllBelow(ds, 10)
    ensures |s| == |ds| && AllDigits(s) && Numerals(s) == ds
  {
    seq(|ds|, i requires 0 <= i < |ds| => DigitChar(ds[i]))
  }

  lemma SpellNumerals(s: string)
    requires AllDigits(s)
    ensures Spell(Numerals(s)) == s
  {
    forall i | 0 <= i < |s| ensures Spell(Numerals(s))[i] == s[i] {
      assert CharDigit(Spell(Numerals(s))[i]) == CharDigit(s[i]);
    }
  }

  /** The number a string of digits names. */
  function DigitsValue(s: string): nat
    requires AllDigits(s)
  {
    Positional.Value(Numerals(s), 10)
  }

  /** `Display` of a raw amount: plain base 10 without leading zeros. */
  function ToText(n: nat): (s: string)
    ensures s != "" && AllDigits(s) && DigitsValue(s) == n
    ensures s[0] == '0' ==> s == "0"
  {
    if n == 0 then
      assert Numerals("0") == [0];
      "0"
    else
      var ds := Positional.Digits(n, 10);
      assert Numerals(Spell(ds))[0] == ds[0];
      Spell(ds)
  }

  lemma ToTextInjective(m: nat, n: nat)
    ensures ToText(m) == ToText(n) ==> m == n
  {
    assert DigitsValue(ToText(m)) == m && DigitsValue(ToText(n)) == n;
  }

  /** `RawAmount::from_str`: digits only, within 256 bits, not zero. */
  function FromText(s: string): (r: Result<U256, MoneyError>)
    ensures r.Ok? ==> r.value > 0
  {
    if s == "" || !AllDigits(s) then Err(InvalidRawAmount)
    else if DigitsValue(s) >= U256_LIMIT then Err(InvalidRawAmount)
    else Positive(DigitsValue(s))
  }

  /** What text is an amount: digits only and within 256 bits, and not zero. */
  lemma FromTextExactly(s: string)
    ensures var digits := s != "" && AllDigits(s) && DigitsValue(s) < U256_LIMIT;
            && (FromText(s) == Err(InvalidRawAmount) <==> !digits)
            && (FromText(s) == Err(AmountMustBePositive) <==> digits && DigitsValue(s) == 0)
            && (digits && DigitsValue(s) > 0 ==> FromText(s) == Ok(DigitsValue(s)))
  {}

  /** Parsing undoes printing, and printing undoes parsing up to the leading
      zeros the parser drops. */
  lemma TextRoundTrip(n: U256)
    requires n > 0
    ensures FromText(ToText(n)) == Ok(n)
  {
    assert DigitsValue(ToText(n)) == n;
  }

  function TrimStart(s: string, c: char): (t: string)
    ensures |t| <= |s| && t == s[|s| - |t|..]
    ensures t != "" ==> t[0] != c
    ensures forall i :: 0 <= i < |s| - |t| ==> s[i] == c
  {
    if s != "" && s[0] == c then TrimStart(s[1..], c) else s
  }

  /** Zeros in front of a numeral do not change the number. */
  lemma LeadingZerosText(s: string, t: string)
    requires AllDigits(t) && |t| <= |s| && s[|s| - |t|..] == t
    requires forall i :: 0 <= i < |s| - |t| ==> s[i] == '0'
    ensures AllDigits(s) && DigitsValue(s) == DigitsValue(t)
  {
    var k := |s| - |t|;
    forall i | 0 <= i < |s| ensures IsDigit(s[i]) && (i >= k ==> s[i] == t[i - k]) {
      if i >= k { assert s[i] == s[k..][i - k]; }
    }
    var zeros: seq<nat> := seq(k, _ => 0);
    assert Numerals(s) == zeros + Numerals(t);
    Positional.LeadingZeros(k, Numerals(t), 10);
  }

  /** Zeros behind a numeral multiply it by a power of ten. */
  lemma TrailingZerosText(s: string, t: string)
    requires AllDigits(t) && |t| <= |s| && s[..|t|] == t
    requires forall i :: |t| <= i < |s| ==> s[i] == '0'
    ensures AllDigits(s) && DigitsValue(s) == DigitsValue(t) * Positional.Pow(10, |s| - |t|)
  {
    var k := |s| - |t|;
    forall i | 0 <= i < |s| ensures IsDigit(s[i]) && (i < |t| ==> s[i] == t[i]) {
      if i < |t| { assert s[i] == s[..|t|][i]; }
    }
    var zeros: seq<nat> := seq(k, _ => 0);
    assert Numerals(s) == Numerals(t) + zeros;
    Positional.TrailingZeros(Numerals(t), k, 10);
  }

  /** A numeral without leading zeros is what its value prints as. */
  lemma PrintOfCanonical(t: string)
    requires AllDigits(t) && t != "" && t[0] != '0'
    ensures DigitsValue(t) > 0 && ToText(DigitsValue(t)) == t
  {
    assert CharDigit(t[0]) != 0;
    assert Numerals(t)[0] == CharDigit(t[0]);
    Positional.ValuePositive(Numerals(t), 10);
    Positional.DigitsOfValue(Numerals(t), 10);
    SpellNumerals(t);
  }

  /** Parsing a digit string and printing the amount only drops leading zeros. */
  lemma ParsePrint(s: string)
    requires FromText(s).Ok?
    ensures ToText(FromText(s).value) == TrimStart(s, '0')
  {
    var t := TrimStart(s, '0');
    assert AllDigits(t);
    LeadingZerosText(s, t);
    if t != "" { PrintOfCanonical(t); }
  }

  // ----- whole tokens for people -----

  function TrimEnd(s: string, c: char): (t: string)
    ensures |t| <= |s| && t == s[..|t|]
    ensures t != "" ==> t[|t| - 1] != c
    ensures forall i :: |t| <= i < |s| ==> s[i] == c
  {
    if s != "" && s[|s| - 1] == c then TrimEnd(s[..|s| - 1], c) else s
  }

  function PadLeft(s: string, width: nat): (t: string)
    ensures |t| == Max(|s|, width) && t[|t| - |s|..] == s
    ensures forall i :: 0 <= i < |t| - |s| ==> t[i] == '0'
  {
    if |s| >= width then s else seq(width - |s|, _ => '0') + s
  }

  /** Splits off the last `decimals` digits and drops the fraction's trailing zeros. */
  function Cut(padded: string, decimals: nat): (s: string)
    requires |padded| >= decimals
  {
    var whole := padded[..|padded| - decimals];
    var fraction := TrimEnd(padded[|padded| - decimals..], '0');
    if fraction == "" then whole else whole + "." + fraction
  }

  /** `RawAmount::to_decimal_string`. */
  function ToDecimal(n: nat, decimals: nat): (s: string)
  {
    if decimals == 0 then ToText(n) else Cut(PadLeft(ToText(n), decimals + 1), decimals)
  }

  /** Reads decimal notation: `mantissa / 10^scale` for `whole[.fraction]`. */
  function ReadDecimal(s: string): (r: Option<(nat, nat)>)
  {
    var parts := SplitAtDot(s);
    if parts.0 == "" || !AllDigits(parts.0) || !AllDigits(parts.1) then None
    else Some((DigitsValue(parts.0 + parts.1), |parts.1|))
  }

  function SplitAtDot(s: string): (r: (string, string))
  {
    if s == "" then ("", "")
    else if s[0] == '.' then ("", s[1..])
    else var rest := SplitAtDot(s[1..]); ([s[0]] + rest.0, rest.1)
  }

  lemma {:induction false} SplitJoined(whole: string, fraction: string)
    requires AllDigits(whole)
    ensures SplitAtDot(whole + "." + fraction) == (whole, fraction)
    ensures SplitAtDot(whole) == (whole, "")
  {
    var s := whole + "." + fraction;
    if whole == "" {
      assert s[1..] == fraction;
    } else {
      SplitJoined(whole[1..], fraction);
      assert s[1..] == whole[1..] + "." + fraction;
      assert [whole[0]] + whole[1..] == whole;
    }
  }

  /** `s` is decimal notation for exactly `n / 10^decimals`. */
  predicate Denotes(s: string, n: nat, decimals: nat)
  {
    var r := ReadDecimal(s);
    && r.Some?
    && r.value.1 <= decimals
    && r.value.0 * Positional.Pow(10, decimals - r.value.1) == n
  }

  predicate NoTrailingZero(s: string) {
    ReadDecimal(s).Some? && ReadDecimal(s).value.1 > 0 ==> s[|s| - 1] != '0'
  }

  lemma JoinedDenotes(whole: string, fraction: string, padded: string, decimals: nat)
    requires AllDigits(whole) && AllDigits(fraction) && whole != ""
    requires |fraction| <= decimals && |padded| == |whole| + decimals
    requires padded[..|whole| + |fraction|] == whole + fraction
    requires forall i :: |whole| + |fraction| <= i < |padded| ==> padded[i] == '0'
    ensures AllDigits(padded)
    ensures Denotes(whole + "." + fraction, DigitsValue(padded), decimals)
    ensures fraction == "" ==> Denotes(whole, DigitsValue(padded), decimals) && NoTrailingZero(whole)
    ensures fraction != "" && fraction[|fraction| - 1] != '0' ==> NoTrailingZero(whole + "." + fraction)
  {
    SplitJoined(whole, fraction);
    assert AllDigits(whole + fraction);
    TrailingZerosText(padded, whole + fraction);
    assert fraction == "" ==> whole + fraction == whole + "" == whole;
  }

  /** The decimal text denotes exactly `n / 10^decimals`, never with a trailing
      zero in its fraction. */
  lemma DecimalExact(n: nat, decimals: nat)
    ensures Denotes(ToDecimal(n, decimals), n, decimals) && NoTrailingZero(ToDecimal(n, decimals))
  {
    var digits := ToText(n);
    if decimals == 0 {
      JoinedDenotes(digits, "", digits, 0);
    } else {
      LeadingZerosText(PadLeft(digits, decimals + 1), digits);
      CutDenotes(PadLeft(digits, decimals + 1), decimals);
    }
  }

  lemma CutDenotes(padded: string, decimals: nat)
    requires AllDigits(padded) && |padded| > decimals
    ensures Denotes(Cut(padded, decimals), DigitsValue(padded), decimals)
    ensures NoTrailingZero(Cut(padded, decimals))
  {
    var whole := padded[..|padded| - decimals];
    var fraction := TrimEnd(padded[|padded| - decimals..], '0');
    TrimmedTail(padded, |padded| - decimals);
    JoinedDenotes(whole, fraction, padded, decimals);
    CutChooses(padded, decimals, whole, fraction);
  }

  lemma TrimmedTail(padded: string, k: nat)
    requires k <= |padded|
    ensures var fraction := TrimEnd(padded[k..], '0');
            && padded[..k + |fraction|] == padded[..k] + fraction
            && (forall i :: 0 <= i < |fraction| ==> fraction[i] == padded[k + i])
            && forall i :: k + |fraction| <= i < |padded| ==> padded[i] == '0'
  {
    var tail := padded[k..];
    assert forall i :: 0 <= i < |tail| ==> tail[i] == padded[k + i];
    assert forall i :: k <= i < |padded| ==> padded[i] == tail[i - k];
  }

  lemma CutChooses(padded: string, decimals: nat, whole: string, fraction: string)
    requires |padded| >= decimals && whole == padded[..|padded| - decimals]
    requires fraction == TrimEnd(padded[|padded| - decimals..], '0')
    ensures fraction == "" ==> Cut(padded, decimals) == whole
    ensures fraction != "" ==> Cut(padded, decimals) == whole + "." + fraction
  {}

  lemma DenotesOne(s: string, m: nat, n: nat, decimals: nat)
    requires Denotes(s, m, decimals) && Denotes(s, n, decimals)
    ensures m == n
  {}

  /** For fixed decimals no two amounts print alike. */
  lemma DecimalInjective(m: nat, n: nat, decimals: nat)
    requires ToDecimal(m, decimals) == ToDecimal(n, decimals)
    ensures m == n
  {
    DecimalExact(m, decimals);
    DecimalExact(n, decimals);
    DenotesOne(ToDecimal(m, decimals), m, n, decimals);
  }
}
