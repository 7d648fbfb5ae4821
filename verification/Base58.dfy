/** Base58 and the checksummed address form built on it
    (tools/chain-simulator/simulator.py). */
module Base58 {
  import opened Common
  import opened Positional

  // ----- the alphabet -----

  /** The alphabet by runs of consecutive characters. */
  function Glyph(d: nat): char
    requires d < 58
  {
    if d < 9 then '1' + d as char
    else if d < 17 then 'A' + (d - 9) as char
    else if d < 22 then 'J' + (d - 17) as char
    else if d < 33 then 'P' + (d - 22) as char
    else if d < 44 then 'a' + (d - 33) as char
    else 'm' + (d - 44) as char
  }

  predicate InAlphabet(c: char) {
    '1' <= c <= '9' || 'A' <= c <= 'H' || 'J' <= c <= 'N' || 'P' <= c <= 'Z' || 'a' <= c <= 'k' || 'm' <= c <= 'z'
  }

  function Index(c: char): (r: nat)
    requires InAlphabet(c)
    ensures r < 58 && Glyph(r) == c
  {
    if c <= '9' then (c - '1') as nat
    else if c <= 'H' then 9 + (c - 'A') as nat
    else if c <= 'N' then 17 + (c - 'J') as nat
    else if c <= 'Z' then 22 + (c - 'P') as nat
    else if c <= 'k' then 33 + (c - 'a') as nat
    else 44 + (c - 'm') as nat
  }

  lemma IndexOfGlyph(d: nat)
    requires d < 58
    ensures InAlphabet(Glyph(d)) && Index(Glyph(d)) == d
  {}

  // ----- big-endian bytes -----

  predicate IsBytes(data: seq<nat>) { AllBelow(data, 256) }

  function BitLength(n: nat): nat { |Digits(n, 2)| }

  /** The numeral of length `k` lies between two powers. */
  lemma {:induction false} LengthBounds(ds: seq<nat>, b: nat)
    requires b >= 2 && Canonical(ds, b)
    ensures Value(ds, b) < Pow(b, |ds|) && (ds != [] ==> Value(ds, b) >= Pow(b, |ds| - 1))
  {
    if ds != [] {
      var front := ds[..|ds| - 1];
      LengthBounds(front, b);
      BelowNext(Value(front, b), ds[|ds| - 1], b, Pow(b, |front|));
      if front != [] {
        AtLeastNext(Value(front, b), ds[|ds| - 1], b, Pow(b, |front| - 1));
      } else {
        assert Value(front, b) == 0;
      }
    }
  }

  lemma BelowNext(v: nat, d: nat, b: nat, p: nat)
    requires v < p && d < b
    ensures v * b + d < b * p
  {
    assert (v + 1) * b <= p * b;
  }

  lemma AtLeastNext(v: nat, d: nat, b: nat, p: nat)
    requires p <= v
    ensures b * p <= v * b + d
  {}

  lemma {:induction false} PowMonotone(b: nat, i: nat, j: nat)
    requires b > 0 && i <= j
    ensures Pow(b, i) <= Pow(b, j)
  {
    if i < j {
      PowMonotone(b, i, j - 1);
      Grows(b, Pow(b, j - 1));
    }
  }

  lemma Grows(b: nat, x: nat)
    requires b > 0
    ensures x <= b * x
  {}

  lemma {:induction false} BytePowers(k: nat)
    ensures Pow(256, k) == Pow(2, 8 * k)
  {
    if k > 0 {
      BytePowers(k - 1);
      PowAdd(2, 8, 8 * (k - 1));
      assert Pow(2, 8) == 256;
    }
  }

  lemma {:induction false} FixedWidth(n: nat, length: nat)
    requires n < Pow(256, length) && (length > 0 ==> n >= Pow(256, length - 1))
    ensures FixedDigits(n, length, 256) == Digits(n, 256)
  {
    if length > 0 {
      PowPositive(256, length - 1);
      assert n > 0;
      Quotients(n, length);
      FixedWidth(n / 256, length - 1);
    }
  }

  lemma Quotients(n: nat, length: nat)
    requires length > 0 && Pow(256, length - 1) <= n < Pow(256, length)
    ensures n / 256 < Pow(256, length - 1) && (length > 1 ==> n / 256 >= Pow(256, length - 2))
  {}

  lemma ByteCount(bits: nat)
    requires bits > 0
    ensures var k := (bits + 7) / 8; k > 0 && 8 * (k - 1) <= bits - 1 && bits <= 8 * k
  {}

  /** The number of bytes taken from the bit length is exactly enough. */
  lemma MinimalBytes(n: nat)
    requires n > 0
    ensures FixedDigits(n, (BitLength(n) + 7) / 8, 256) == Digits(n, 256)
  {
    var bits := BitLength(n);
    ByteCount(bits);
    BitBounds(n, bits);
    BytesEnough(n, bits, (bits + 7) / 8);
  }

  lemma BitBounds(n: nat, bits: nat)
    requires n > 0 && bits == BitLength(n)
    ensures bits > 0 && Pow(2, bits - 1) <= n < Pow(2, bits)
  {
    LengthBounds(Digits(n, 2), 2);
  }

  lemma BytesEnough(n: nat, bits: nat, k: nat)
    requires bits > 0 && k > 0 && 8 * (k - 1) <= bits - 1 && bits <= 8 * k && Pow(2, bits - 1) <= n < Pow(2, bits)
    ensures FixedDigits(n, k, 256) == Digits(n, 256)
  {
    BytePowers(k);
    BytePowers(k - 1);
    PowMonotone(2, bits, 8 * k);
    PowMonotone(2, 8 * (k - 1), bits - 1);
    FixedWidth(n, k);
  }

  // ----- encode and decode -----

  function Zeros(k: nat): (r: seq<nat>)
    ensures |r| == k && forall i :: 0 <= i < k ==> r[i] == 0
  {
    seq(k, _ => 0)
  }

  function Ones(k: nat): (r: string)
    ensures |r| == k && forall i :: 0 <= i < k ==> r[i] == '1'
  {
    seq(k, _ => '1')
  }

  /** How many zeros a byte string starts with. */
  function LeadingOf(ds: seq<nat>): (k: nat)
    ensures k <= |ds| && (forall i :: 0 <= i < k ==> ds[i] == 0) && (k < |ds| ==> ds[k] != 0)
  {
    if ds == [] || ds[0] != 0 then 0 else 1 + LeadingOf(ds[1..])
  }

  function LeadingOnes(text: string): (k: nat)
    ensures k <= |text| && (forall i :: 0 <= i < k ==> text[i] == '1') && (k < |text| ==> text[k] != '1')
  {
    if text == "" || text[0] != '1' then 0 else 1 + LeadingOnes(text[1..])
  }

  function Spell(ds: seq<nat>): (text: string)
    requires AllBelow(ds, 58)
    ensures |text| == |ds|
  {
    seq(|ds|, i requires 0 <= i < |ds| => Glyph(ds[i]))
  }

  predicate Spelled(text: string) { forall i :: 0 <= i < |text| ==> InAlphabet(text[i]) }

  function Unspell(text: string): (ds: seq<nat>)
    requires Spelled(text)
    ensures |ds| == |text| && AllBelow(ds, 58)
  {
    seq(|text|, i requires 0 <= i < |text| => Index(text[i]))
  }

  function Encode(data: seq<nat>): string
    requires IsBytes(data)
  {
    Ones(LeadingOf(data)) + Spell(Digits(Value(data, 256), 58))
  }

  datatype AddressError = NotBase58 | WrongPrefixOrLength | EmptyText | WrongLength | ChecksumMismatch | WrongPrefix

  function Decode(text: string): (r: Result<seq<nat>, AddressError>)
    ensures r.Ok? ==> IsBytes(r.value)
  {
    if !Spelled(text) then Err(NotBase58)
    else
      var number := Value(Unspell(text), 58);
      Ok(Zeros(LeadingOnes(text)) + Digits(number, 256))
  }

  // ----- mutual inverses -----

  lemma SpellUnspell(ds: seq<nat>)
    requires AllBelow(ds, 58)
    ensures Spelled(Spell(ds)) && Unspell(Spell(ds)) == ds
  {
    forall i | 0 <= i < |ds| ensures InAlphabet(Spell(ds)[i]) && Index(Spell(ds)[i]) == ds[i] { IndexOfGlyph(ds[i]); }
  }

  lemma UnspellSpell(text: string)
    requires Spelled(text)
    ensures Spell(Unspell(text)) == text
  {}

  lemma OneIsZero(c: char)
    requires InAlphabet(c)
    ensures Index(c) == 0 <==> c == '1'
  {
    IndexOfGlyph(0);
  }

  /** Leading ones of a text are the leading zeros of its digits. */
  lemma OnesAreZeros(text: string)
    requires Spelled(text)
    ensures LeadingOnes(text) == LeadingOf(Unspell(text))
  {
    var k, ds := LeadingOnes(text), Unspell(text);
    forall i | 0 <= i < |text| ensures ds[i] == 0 <==> text[i] == '1' { OneIsZero(text[i]); }
    LeadingUnique(ds, k);
  }

  lemma {:induction false} LeadingUnique(ds: seq<nat>, k: nat)
    requires k <= |ds| && (forall i :: 0 <= i < k ==> ds[i] == 0) && (k < |ds| ==> ds[k] != 0)
    ensures LeadingOf(ds) == k
  {
    if k > 0 { LeadingUnique(ds[1..], k - 1); }
  }

  /** Any digits are their leading zeros followed by a canonical numeral. */
  lemma SplitZeros(ds: seq<nat>, b: nat)
    requires AllBelow(ds, b)
    ensures var k := LeadingOf(ds); ds == Zeros(k) + ds[k..] && Canonical(ds[k..], b)
  {}

  lemma LeadingOfJoined(k: nat, ds: seq<nat>, b: nat)
    requires Canonical(ds, b)
    ensures LeadingOf(Zeros(k) + ds) == k
  {
    LeadingUnique(Zeros(k) + ds, k);
  }

  /** The digits of an encoding: as many zeros as the data starts with, then its
      number in base 58. */
  lemma EncodedDigits(data: seq<nat>)
    requires IsBytes(data)
    ensures Spelled(Encode(data)) && Unspell(Encode(data)) == Zeros(LeadingOf(data)) + Digits(Value(data, 256), 58)
  {
    var k, ds := LeadingOf(data), Digits(Value(data, 256), 58);
    var whole := Zeros(k) + ds;
    SpellUnspell(whole);
    assert Spell(whole) == Encode(data);
  }

  /** Decoding an encoding gives the bytes back, leading zeros included. */
  lemma DecodeEncode(data: seq<nat>)
    requires IsBytes(data)
    ensures Decode(Encode(data)) == Ok(data)
  {
    var k, n := LeadingOf(data), Value(data, 256);
    EncodedDigits(data);
    OnesAreZeros(Encode(data));
    LeadingOfJoined(k, Digits(n, 58), 58);
    LeadingZeros(k, Digits(n, 58), 58);
    SplitZeros(data, 256);
    LeadingZeros(k, data[k..], 256);
    DigitsOfValue(data[k..], 256);
  }

  /** And encoding a decoding gives the text back, leading ones included. */
  lemma EncodeDecode(text: string)
    requires Spelled(text)
    ensures Encode(Decode(text).value) == text
  {
    var ds := Unspell(text);
    var k, n := LeadingOnes(text), Value(ds, 58);
    var data := Zeros(k) + Digits(n, 256);
    OnesAreZeros(text);
    SplitZeros(ds, 58);
    LeadingZeros(k, ds[k..], 58);
    DigitsOfValue(ds[k..], 58);
    LeadingOfJoined(k, Digits(n, 256), 256);
    LeadingZeros(k, Digits(n, 256), 256);
    EncodedDigits(data);
    UnspellSpell(text);
    UnspellSpell(Encode(data));
  }

  // ----- the loops -----

  function Numeral(number: nat): string { Spell(Digits(number, 58)) }

  /** One turn of the division loop: the remainder is the last digit. */
  lemma NumeralEnds(number: nat, encoded: string)
    requires number > 0
    ensures number / 58 < number
    ensures Numeral(number / 58) + ([Glyph(number % 58)] + encoded) == Numeral(number) + encoded
  {
    var front := Digits(number / 58, 58);
    assert Digits(number, 58) == front + [number % 58];
  }

  method EncodeBytes(data: seq<nat>) returns (text: string)
    requires IsBytes(data)
    ensures text == Encode(data)
  {
    var number, encoded := Value(data, 256), "";
    ghost var whole := Numeral(number);
    while number > 0
      invariant Numeral(number) + encoded == whole
    {
      NumeralEnds(number, encoded);
      number, encoded := number / 58, [Glyph(number % 58)] + encoded;
    }
    return Ones(LeadingOf(data)) + encoded;
  }

  method ReadNumber(text: string) returns (number: Option<nat>)
    ensures number == if Spelled(text) then Some(Value(Unspell(text), 58)) else None
  {
    var n := 0;
    for k := 0 to |text|
      invariant Spelled(text[..k]) && n == Value(Unspell(text[..k]), 58)
    {
      if !InAlphabet(text[k]) {
        return None;
      }
      n := n * 58 + Index(text[k]);
      assert Unspell(text[..k + 1])[..k] == Unspell(text[..k]);
    }
    assert text[..|text|] == text;
    return Some(n);
  }

  method DecodeText(text: string) returns (r: Result<seq<nat>, AddressError>)
    ensures r == Decode(text)
  {
    var number := ReadNumber(text);
    if number.None? {
      return Err(NotBase58);
    }
    var body := [];
    if number.value > 0 {
      MinimalBytes(number.value);
      body := FixedDigits(number.value, (BitLength(number.value) + 7) / 8, 256);
    }
    return Ok(Zeros(LeadingOnes(text)) + body);
  }

  // ----- addresses -----

  const TRON_PREFIX: nat := 0x41
  const ADDRESS_BYTES: nat := 21

  /** A checksum of four bytes; which one does not matter here. */
  ghost predicate IsChecksum(checksum: seq<nat> -> seq<nat>) {
    forall p :: |checksum(p)| == 4 && IsBytes(checksum(p))
  }

  predicate IsAddress(a: seq<nat>) { |a| == ADDRESS_BYTES && IsBytes(a) && a[0] == TRON_PREFIX }

  function ToBase58(a: seq<nat>, checksum: seq<nat> -> seq<nat>): Result<string, AddressError>
    requires IsChecksum(checksum) && IsBytes(a)
  {
    if |a| != ADDRESS_BYTES || a[0] != TRON_PREFIX then Err(WrongPrefixOrLength) else Ok(Encode(a + checksum(a)))
  }

  predicate IsSpace(c: char) { c in [' ', '\t', '\n', '\r', '\U{0B}', '\U{0C}', '\U{1C}', '\U{1D}', '\U{1E}', '\U{1F}'] }

  function StripStart(text: string): string {
    if text != "" && IsSpace(text[0]) then StripStart(text[1..]) else text
  }

  function StripEnd(text: string): string {
    if text != "" && IsSpace(text[|text| - 1]) then StripEnd(text[..|text| - 1]) else text
  }

  function Strip(text: string): string { StripEnd(StripStart(text)) }

  function FromBase58(text: string, checksum: seq<nat> -> seq<nat>): Result<seq<nat>, AddressError> {
    if text == "" then Err(EmptyText)
    else
      var raw := Decode(Strip(text));
      if raw.Err? then Err(raw.error)
      else if |raw.value| != ADDRESS_BYTES + 4 then Err(WrongLength)
      else
        var payload := raw.value[..ADDRESS_BYTES];
        if checksum(payload) != raw.value[ADDRESS_BYTES..] then Err(ChecksumMismatch)
        else if payload[0] != TRON_PREFIX then Err(WrongPrefix)
        else Ok(payload)
  }

  lemma PrintedIsAccepted(text: string, a: seq<nat>, checksum: seq<nat> -> seq<nat>)
    requires IsChecksum(checksum) && IsAddress(a) && Ok(Strip(text)) == ToBase58(a, checksum)
    ensures FromBase58(text, checksum) == Ok(a)
  {
    var raw := a + checksum(a);
    DecodeEncode(raw);
    assert raw[..ADDRESS_BYTES] == a && raw[ADDRESS_BYTES..] == checksum(a);
    assert Decode("") == Ok([]);
  }

  lemma AcceptedWasPrinted(text: string, a: seq<nat>, checksum: seq<nat> -> seq<nat>)
    requires IsChecksum(checksum) && FromBase58(text, checksum) == Ok(a)
    ensures IsAddress(a) && Ok(Strip(text)) == ToBase58(a, checksum)
  {
    var raw := Decode(Strip(text)).value;
    assert raw == a + checksum(a);
    EncodeDecode(Strip(text));
  }

  /** A text is accepted as an address exactly when, spaces around it aside, it is
      what printing that address gives. */
  lemma AcceptedExactly(text: string, a: seq<nat>, checksum: seq<nat> -> seq<nat>)
    requires IsChecksum(checksum)
    ensures FromBase58(text, checksum) == Ok(a) <==> IsAddress(a) && Ok(Strip(text)) == ToBase58(a, checksum)
  {
    if FromBase58(text, checksum) == Ok(a) { AcceptedWasPrinted(text, a, checksum); }
    if IsAddress(a) && Ok(Strip(text)) == ToBase58(a, checksum) { PrintedIsAccepted(text, a, checksum); }
  }

  /** Only spaces are stripped, and all of them at either end. */
  lemma {:induction false} StripStartSays(text: string)
    ensures var r := StripStart(text);
            && |r| <= |text| && r == text[|text| - |r|..] && (r != "" ==> !IsSpace(r[0]))
            && forall i :: 0 <= i < |text| - |r| ==> IsSpace(text[i])
  {
    if text != "" && IsSpace(text[0]) { StripStartSays(text[1..]); }
  }

  lemma {:induction false} StripEndSays(text: string)
    ensures var r := StripEnd(text);
            && |r| <= |text| && r == text[..|r|] && (r != "" ==> !IsSpace(r[|r| - 1]))
            && forall i :: |r| <= i < |text| ==> IsSpace(text[i])
  {
    if text != "" && IsSpace(text[|text| - 1]) { StripEndSays(text[..|text| - 1]); }
  }

  /** Why a text is no address: empty, foreign characters, not twenty-five bytes, a
      wrong checksum or a wrong prefix, in that order; and only a 21-byte address
      that begins with 0x41 is printed. */
  lemma AddressRefusals(text: string, a: seq<nat>, checksum: seq<nat> -> seq<nat>)
    requires IsChecksum(checksum) && IsBytes(a)
    ensures var r, raw := FromBase58(text, checksum), Decode(Strip(text));
            && (r == Err(EmptyText) <==> text == "")
            && (r == Err(NotBase58) <==> text != "" && !Spelled(Strip(text)))
            && (text != "" && Spelled(Strip(text)) ==>
                  && raw.Ok? && (r == Err(WrongLength) <==> |raw.value| != 25)
                  && (|raw.value| == 25 ==>
                        && (r == Err(ChecksumMismatch) <==> checksum(raw.value[..21]) != raw.value[21..])
                        && (r == Err(WrongPrefix) <==> checksum(raw.value[..21]) == raw.value[21..] && raw.value[0] != 0x41)))
    ensures if |a| == 21 && a[0] == 0x41 then ToBase58(a, checksum).Ok? else ToBase58(a, checksum) == Err(WrongPrefixOrLength)
  {}

  /** Printing then parsing is the identity on every address. */
  lemma AddressRoundTrip(a: seq<nat>, checksum: seq<nat> -> seq<nat>)
    requires IsChecksum(checksum) && IsAddress(a)
    ensures ToBase58(a, checksum).Ok? && FromBase58(ToBase58(a, checksum).value, checksum) == Ok(a)
  {
    var text := Encode(a + checksum(a));
    EncodedDigits(a + checksum(a));
    PlainText(text);
    AcceptedExactly(text, a, checksum);
  }

  /** Base58 text has nothing to strip. */
  lemma PlainText(text: string)
    requires Spelled(text)
    ensures Strip(text) == text
  {
    assert forall i :: 0 <= i < |text| ==> !IsSpace(text[i]);
  }
}
