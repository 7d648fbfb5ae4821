/** The byte streams behind the two request digests: each field after its length,
    big-endian (crates/gateway-application/src/operations.rs,
    crates/gateway-domain/src/chain.rs). */
module Framing {
  import opened Common
  import opened Money
  import opened Positional
  import E = Evidence

  type Bytes = seq<nat>

  function Ascii(s: string): (b: Bytes)
    ensures |b| == |s| && forall i :: 0 <= i < |s| ==> b[i] == s[i] as nat
  {
    seq(|s|, i requires 0 <= i < |s| => s[i] as nat)
  }

  lemma AsciiInjective(s: string, t: string)
    requires Ascii(s) == Ascii(t)
    ensures s == t
  {
    forall i | 0 <= i < |s| ensures s[i] == t[i] {
      assert Ascii(s)[i] == Ascii(t)[i];
    }
  }

  /** A length in `width` bytes, the largest of them standing for all too long. */
  function LengthPrefix(n: nat, width: nat): (p: Bytes)
    ensures |p| == width
  {
    PowPositive(256, width);
    FixedDigits(Min(n, Pow(256, width) - 1), width, 256)
  }

  function Frame(f: Bytes, width: nat): Bytes { LengthPrefix(|f|, width) + f }

  function Framed(fields: seq<Bytes>, width: nat): Bytes {
    if fields == [] then [] else Frame(fields[0], width) + Framed(fields[1..], width)
  }

  predicate Fits(fields: seq<Bytes>, width: nat) {
    forall i :: 0 <= i < |fields| ==> |fields[i]| < Pow(256, width)
  }

  // ----- unique decoding -----

  lemma LengthIsRead(n: nat, m: nat, width: nat)
    requires n < Pow(256, width) && m < Pow(256, width) && LengthPrefix(n, width) == LengthPrefix(m, width)
    ensures n == m
  {
    FixedValue(n, width, 256);
    FixedValue(m, width, 256);
  }

  /** The first frame of a stream can be told from what follows. */
  lemma FrameIsRead(x: Bytes, y: Bytes, a: Bytes, b: Bytes, width: nat)
    requires |x| < Pow(256, width) && |y| < Pow(256, width) && Frame(x, width) + a == Frame(y, width) + b
    ensures x == y && a == b
  {
    var s := Frame(x, width) + a;
    assert s[..width] == LengthPrefix(|x|, width) && s[..width] == LengthPrefix(|y|, width);
    LengthIsRead(|x|, |y|, width);
    assert s[width..width + |x|] == x && s[width..width + |x|] == y;
    assert s[width + |x|..] == a && s[width + |x|..] == b;
  }

  /** Streams of equally many fields decode uniquely, whatever comes after. */
  lemma {:induction false} StreamIsRead(xs: seq<Bytes>, ys: seq<Bytes>, a: Bytes, b: Bytes, width: nat)
    requires |xs| == |ys| && Fits(xs, width) && Fits(ys, width) && Framed(xs, width) + a == Framed(ys, width) + b
    ensures xs == ys && a == b
    decreases |xs|
  {
    if xs == [] {
      assert Framed(xs, width) + a == a && Framed(ys, width) + b == b;
    } else {
      var s, t := Framed(xs[1..], width) + a, Framed(ys[1..], width) + b;
      Assoc(Frame(xs[0], width), Framed(xs[1..], width), a);
      Assoc(Frame(ys[0], width), Framed(ys[1..], width), b);
      FrameIsRead(xs[0], ys[0], s, t, width);
      StreamIsRead(xs[1..], ys[1..], a, b, width);
      assert xs == [xs[0]] + xs[1..] && ys == [ys[0]] + ys[1..];
    }
  }

  lemma StreamsEqual(xs: seq<Bytes>, ys: seq<Bytes>, width: nat)
    requires |xs| == |ys| && Fits(xs, width) && Fits(ys, width) && Framed(xs, width) == Framed(ys, width)
    ensures xs == ys
  {
    assert Framed(xs, width) + [] == Framed(ys, width) + [];
    StreamIsRead(xs, ys, [], [], width);
  }

  lemma {:induction false} FramedConcat(xs: seq<Bytes>, ys: seq<Bytes>, width: nat)
    ensures Framed(xs + ys, width) == Framed(xs, width) + Framed(ys, width)
  {
    if xs == [] {
      assert xs + ys == ys;
    } else {
      FramedConcat(xs[1..], ys, width);
      assert (xs + ys)[1..] == xs[1..] + ys;
      Assoc(Frame(xs[0], width), Framed(xs[1..], width), Framed(ys, width));
    }
  }

  /** Feeds a digest field by field; the digest sees exactly the framed stream. */
  method Feed(fields: seq<Bytes>, width: nat) returns (fed: Bytes)
    ensures fed == Framed(fields, width)
  {
    fed := [];
    for n := 0 to |fields|
      invariant fed == Framed(fields[..n], width)
    {
      FramedConcat(fields[..n], [fields[n]], width);
      assert fields[..n + 1] == fields[..n] + [fields[n]];
      assert Framed([fields[n]], width) == Frame(fields[n], width) + Framed([], width);
      var length := LengthPrefix(|fields[n]|, width);
      fed := fed + length;
      fed := fed + fields[n];
    }
    assert fields[..|fields|] == fields;
  }

  // ----- manual resolutions -----

  datatype Action = Honor | Reject | RecordRemainderDisposition

  datatype Disposition = RefundedExternally | CreditedExternally | DonatedExternally | RetainedByAgreement

  datatype ManualResolution = ManualResolution(
    action: Action, transfer: Id, intent: Option<Id>, attempt: Option<Id>, allocate: Option<nat>, remainder: Option<nat>,
    disposition: Option<Disposition>, reference: Option<Bytes>, reason: Bytes)

  function ActionText(a: Action): string {
    match a
    case Honor => "honor"
    case Reject => "reject"
    case RecordRemainderDisposition => "record_remainder_disposition"
  }

  function DispositionText(d: Disposition): string {
    match d
    case RefundedExternally => "refunded_externally"
    case CreditedExternally => "credited_externally"
    case DonatedExternally => "donated_externally"
    case RetainedByAgreement => "retained_by_agreement"
  }

  /** Identifiers print injectively and never as nothing. */
  ghost predicate Naming(name: Id -> Bytes) {
    (forall i :: name(i) != []) && forall i, j :: name(i) == name(j) ==> i == j
  }

  function OptionalId(i: Option<Id>, name: Id -> Bytes): Bytes { if i.Some? then name(i.value) else [] }

  function OptionalAmount(n: Option<nat>): Bytes { if n.Some? then Ascii(ToText(n.value)) else [] }

  function Texts(m: ManualResolution, name: Id -> Bytes): (r: seq<Bytes>)
    ensures |r| == 9
  {
    [Ascii(ActionText(m.action)), name(m.transfer), OptionalId(m.intent, name), OptionalId(m.attempt, name),
     OptionalAmount(m.allocate), OptionalAmount(m.remainder),
     if m.disposition.Some? then Ascii(DispositionText(m.disposition.value)) else [],
     if m.reference.Some? then m.reference.value else [], m.reason]
  }

  /** The nine texts of a command, in order, with the words the gateway uses. */
  lemma ManualLayout(m: ManualResolution, name: Id -> Bytes)
    ensures var x := Texts(m, name);
            && (m.action.Honor? ==> x[0] == Ascii("honor")) && (m.action.Reject? ==> x[0] == Ascii("reject"))
            && (m.action.RecordRemainderDisposition? ==> x[0] == Ascii("record_remainder_disposition"))
            && x[1] == name(m.transfer) && x[2] == (if m.intent.Some? then name(m.intent.value) else [])
            && x[3] == (if m.attempt.Some? then name(m.attempt.value) else [])
            && x[4] == (if m.allocate.Some? then Ascii(ToText(m.allocate.value)) else [])
            && x[5] == (if m.remainder.Some? then Ascii(ToText(m.remainder.value)) else [])
            && (m.disposition.None? ==> x[6] == [])
            && x[7] == (if m.reference.Some? then m.reference.value else []) && x[8] == m.reason
  {}

  /** An absent reference and an empty one are written alike. */
  function Canonical(m: ManualResolution): ManualResolution {
    if m.reference == Some([]) then m.(reference := None) else m
  }

  lemma SameOptionalId(a: Option<Id>, b: Option<Id>, name: Id -> Bytes)
    requires Naming(name) && OptionalId(a, name) == OptionalId(b, name)
    ensures a == b
  {}

  lemma SameOptionalAmount(a: Option<nat>, b: Option<nat>)
    requires OptionalAmount(a) == OptionalAmount(b)
    ensures a == b
  {
    if a.Some? && b.Some? { SameAmount(a.value, b.value); }
  }

  lemma SameAction(a: Action, b: Action)
    requires Ascii(ActionText(a)) == Ascii(ActionText(b))
    ensures a == b
  {
    AsciiInjective(ActionText(a), ActionText(b));
  }

  lemma SameDisposition(a: Disposition, b: Disposition)
    requires Ascii(DispositionText(a)) == Ascii(DispositionText(b))
    ensures a == b
  {
    AsciiInjective(DispositionText(a), DispositionText(b));
    assert DispositionText(a)[0] == DispositionText(b)[0] && DispositionText(a)[2] == DispositionText(b)[2];
  }

  lemma SameTexts(m: ManualResolution, n: ManualResolution, name: Id -> Bytes)
    requires Naming(name) && Texts(m, name) == Texts(n, name)
    ensures Canonical(m) == Canonical(n)
  {
    var x, y := Texts(m, name), Texts(n, name);
    assert x[0] == y[0] && x[1] == y[1] && x[2] == y[2] && x[3] == y[3] && x[4] == y[4];
    assert x[5] == y[5] && x[6] == y[6] && x[7] == y[7] && x[8] == y[8];
    SameAction(m.action, n.action);
    SameOptionalId(m.intent, n.intent, name);
    SameOptionalId(m.attempt, n.attempt, name);
    SameOptionalAmount(m.allocate, n.allocate);
    SameOptionalAmount(m.remainder, n.remainder);
    if m.disposition.Some? && n.disposition.Some? { SameDisposition(m.disposition.value, n.disposition.value); }
  }

  /** Two commands feed the same bytes exactly when they are the same command, an
      empty reference counting as none; the digest uses eight-byte lengths. */
  lemma ManualStreams(m: ManualResolution, n: ManualResolution, name: Id -> Bytes, width: nat)
    requires Naming(name) && Fits(Texts(m, name), width) && Fits(Texts(n, name), width)
    ensures Framed(Texts(m, name), width) == Framed(Texts(n, name), width) <==> Canonical(m) == Canonical(n)
  {
    if Framed(Texts(m, name), width) == Framed(Texts(n, name), width) {
      StreamsEqual(Texts(m, name), Texts(n, name), width);
      SameTexts(m, n, name);
    }
    CanonicalTexts(m, name);
    CanonicalTexts(n, name);
  }

  /** An empty reference is written like none. */
  lemma CanonicalTexts(m: ManualResolution, name: Id -> Bytes)
    ensures Texts(Canonical(m), name) == Texts(m, name)
  {}

  /** So distinct commands feed distinct bytes once no reference is empty, which
      validation sees to. */
  lemma ValidatedStreams(m: ManualResolution, n: ManualResolution, name: Id -> Bytes, width: nat)
    requires Naming(name) && Fits(Texts(m, name), width) && Fits(Texts(n, name), width)
    requires m.reference != Some([]) && n.reference != Some([])
    ensures Framed(Texts(m, name), width) == Framed(Texts(n, name), width) <==> m == n
  {
    ManualStreams(m, n, name, width);
  }

  // ----- observation claims -----

  datatype Environment = Testnet | Mainnet
  type I32 = x: int | -0x8000_0000 <= x < 0x8000_0000
  type I64 = x: int | -0x8000_0000_0000_0000 <= x < 0x8000_0000_0000_0000

  /** What one source claims about one event, as far as the digest looks. */
  datatype Claim = Claim(
    source: Bytes, chain: Bytes, network: Bytes, environment: Environment, kind: E.Kind, txHash: Bytes, index: I32,
    blockHash: Option<Bytes>, status: E.Status, finality: E.Finality, token: Bytes, recipient: Bytes, amount: nat,
    memo: Option<Bytes>, head: Option<I64>)

  function KindText(k: E.Kind): string {
    match k
    case FastDetect => "fast_detect"
    case CursorScan => "cursor_scan"
    case TargetedLookup => "targeted_lookup"
  }

  function FinalityText(f: E.Finality): string {
    match f
    case Seen => "seen"
    case Confirmed => "confirmed"
    case Finalized => "finalized"
  }

  /** Two's complement, big-endian. */
  function Signed(x: int, width: nat): Bytes {
    FixedDigits(if x >= 0 then x else Max(0, Pow(256, width) + x), width, 256)
  }

  function OrEmpty(b: Option<Bytes>): Bytes { if b.Some? then b.value else [] }

  function Fourteen(a: Bytes, b: Bytes, c: Bytes, d: Bytes, e: Bytes, f: Bytes, g: Bytes, h: Bytes, i: Bytes, j: Bytes,
                    k: Bytes, l: Bytes, m: Bytes, n: Bytes): (r: seq<Bytes>)
    ensures |r| == 14 && r[0] == a && r[1] == b && r[2] == c && r[3] == d && r[4] == e && r[5] == f && r[6] == g
    ensures r[7] == h && r[8] == i && r[9] == j && r[10] == k && r[11] == l && r[12] == m && r[13] == n
  {
    [a, b, c, d, e, f, g, h, i, j, k, l, m, n]
  }

  function CommonFields(c: Claim): (r: seq<Bytes>)
    ensures |r| == 14
  {
    Fourteen(c.source, c.chain, c.network, Ascii(if c.environment.Testnet? then "testnet" else "mainnet"), Ascii(KindText(c.kind)),
             c.txHash, Signed(c.index, 4), OrEmpty(c.blockHash), Ascii(if c.status.Success? then "success" else "failed"),
             Ascii(FinalityText(c.finality)), c.token, c.recipient, Ascii(ToText(c.amount)), OrEmpty(c.memo))
  }

  /** The fourteen texts every claim feeds, in order, with the words the gateway uses. */
  lemma ClaimLayout(c: Claim)
    ensures var x := CommonFields(c);
            && x[0] == c.source && x[1] == c.chain && x[2] == c.network && x[5] == c.txHash && x[6] == Signed(c.index, 4)
            && x[7] == (if c.blockHash.Some? then c.blockHash.value else []) && x[10] == c.token && x[11] == c.recipient
            && x[12] == Ascii(ToText(c.amount)) && x[13] == (if c.memo.Some? then c.memo.value else [])
            && (c.environment.Testnet? ==> x[3] == Ascii("testnet")) && (c.environment.Mainnet? ==> x[3] == Ascii("mainnet"))
            && (c.status.Success? ==> x[8] == Ascii("success")) && (c.status.Failed? ==> x[8] == Ascii("failed"))
  {}

  lemma ClaimWords(c: Claim)
    ensures var x := CommonFields(c);
            && (c.kind.FastDetect? ==> x[4] == Ascii("fast_detect")) && (c.kind.CursorScan? ==> x[4] == Ascii("cursor_scan"))
            && (c.kind.TargetedLookup? ==> x[4] == Ascii("targeted_lookup"))
            && (c.finality.Seen? ==> x[9] == Ascii("seen")) && (c.finality.Confirmed? ==> x[9] == Ascii("confirmed"))
            && (c.finality.Finalized? ==> x[9] == Ascii("finalized"))
  {}

  /** The head is part of the claim only for the verifier's own re-read. */
  function HeadField(c: Claim): (r: seq<Bytes>)
    ensures |r| == if c.kind.TargetedLookup? then 1 else 0
  {
    if c.kind.TargetedLookup? then [Signed(if c.head.Some? then c.head.value else -1, 8)] else []
  }

  function ClaimFields(c: Claim): seq<Bytes> { CommonFields(c) + HeadField(c) }

  /** What the digest cannot tell apart: an absent block hash or memo from an empty
      one, an absent head from minus one, and any head outside a re-read. */
  function Essence(c: Claim): Claim {
    c.(blockHash := if c.blockHash == Some([]) then None else c.blockHash,
       memo := if c.memo == Some([]) then None else c.memo,
       head := if !c.kind.TargetedLookup? || c.head == Some(-1) then None else c.head)
  }

  lemma SignedInjective(x: int, y: int, width: nat)
    requires width > 0 && -(Pow(256, width) / 2) <= x < Pow(256, width) / 2 && -(Pow(256, width) / 2) <= y < Pow(256, width) / 2
    requires Signed(x, width) == Signed(y, width)
    ensures x == y
  {
    var p := Pow(256, width);
    FixedValue(if x >= 0 then x else p + x, width, 256);
    FixedValue(if y >= 0 then y else p + y, width, 256);
  }

  lemma WidthEight()
    ensures Pow(256, 8) == 0x1_0000_0000_0000_0000
  {
    PowAdd(256, 4, 4);
  }

  lemma SameKind(a: E.Kind, b: E.Kind)
    requires Ascii(KindText(a)) == Ascii(KindText(b))
    ensures a == b
  {
    AsciiInjective(KindText(a), KindText(b));
    assert KindText(a)[0] == KindText(b)[0];
  }

  lemma SameFinality(a: E.Finality, b: E.Finality)
    requires Ascii(FinalityText(a)) == Ascii(FinalityText(b))
    ensures a == b
  {
    AsciiInjective(FinalityText(a), FinalityText(b));
  }

  lemma SameFlags(c: Claim, d: Claim)
    requires Ascii(if c.environment.Testnet? then "testnet" else "mainnet")
             == Ascii(if d.environment.Testnet? then "testnet" else "mainnet")
    requires Ascii(if c.status.Success? then "success" else "failed") == Ascii(if d.status.Success? then "success" else "failed")
    ensures c.environment == d.environment && c.status == d.status
  {
    AsciiInjective(if c.environment.Testnet? then "testnet" else "mainnet", if d.environment.Testnet? then "testnet" else "mainnet");
    AsciiInjective(if c.status.Success? then "success" else "failed", if d.status.Success? then "success" else "failed");
  }

  lemma SameIndex(x: I32, y: I32)
    requires Signed(x, 4) == Signed(y, 4)
    ensures x == y
  {
    SignedInjective(x, y, 4);
  }

  lemma SameAmount(x: nat, y: nat)
    requires Ascii(ToText(x)) == Ascii(ToText(y))
    ensures x == y
  {
    AsciiInjective(ToText(x), ToText(y));
    ToTextInjective(x, y);
  }

  ghost predicate SameParties(c: Claim, d: Claim) {
    && c.source == d.source && c.chain == d.chain && c.network == d.network && c.txHash == d.txHash
    && c.token == d.token && c.recipient == d.recipient
  }

  ghost predicate SameWords(c: Claim, d: Claim) {
    && Ascii(if c.environment.Testnet? then "testnet" else "mainnet") == Ascii(if d.environment.Testnet? then "testnet" else "mainnet")
    && Ascii(if c.status.Success? then "success" else "failed") == Ascii(if d.status.Success? then "success" else "failed")
    && Ascii(KindText(c.kind)) == Ascii(KindText(d.kind)) && Ascii(FinalityText(c.finality)) == Ascii(FinalityText(d.finality))
  }

  ghost predicate SameRest(c: Claim, d: Claim) {
    && Signed(c.index, 4) == Signed(d.index, 4) && Ascii(ToText(c.amount)) == Ascii(ToText(d.amount))
    && OrEmpty(c.blockHash) == OrEmpty(d.blockHash) && OrEmpty(c.memo) == OrEmpty(d.memo)
  }

  lemma FieldsAgree(c: Claim, d: Claim)
    requires CommonFields(c) == CommonFields(d)
    ensures SameParties(c, d) && SameWords(c, d) && SameRest(c, d)
  {}

  lemma AgreedEssence(c: Claim, d: Claim)
    requires SameParties(c, d) && SameWords(c, d) && SameRest(c, d)
    ensures Essence(c).(head := None) == Essence(d).(head := None)
  {
    SameFlags(c, d);
    SameKind(c.kind, d.kind);
    SameFinality(c.finality, d.finality);
    SameIndex(c.index, d.index);
    SameAmount(c.amount, d.amount);
  }

  lemma SameCommon(c: Claim, d: Claim)
    requires CommonFields(c) == CommonFields(d)
    ensures Essence(c).(head := None) == Essence(d).(head := None)
  {
    FieldsAgree(c, d);
    AgreedEssence(c, d);
  }

  lemma SameHead(c: Claim, d: Claim)
    requires c.kind == d.kind && HeadField(c) == HeadField(d)
    ensures Essence(c).head == Essence(d).head
  {
    if c.kind.TargetedLookup? {
      assert HeadField(c)[0] == HeadField(d)[0];
      WidthEight();
      SignedInjective(if c.head.Some? then c.head.value else -1, if d.head.Some? then d.head.value else -1, 8);
    }
  }

  lemma EssenceDecides(c: Claim, d: Claim)
    requires Essence(c) == Essence(d)
    ensures ClaimFields(c) == ClaimFields(d)
  {
    assert OrEmpty(c.blockHash) == OrEmpty(d.blockHash) && OrEmpty(c.memo) == OrEmpty(d.memo);
    assert CommonFields(c) == CommonFields(d);
  }

  /** Two claims feed the same bytes exactly when their essences agree, although
      only one kind has the extra field. */
  lemma ClaimStreams(c: Claim, d: Claim)
    requires Fits(ClaimFields(c), 4) && Fits(ClaimFields(d), 4)
    ensures Framed(ClaimFields(c), 4) == Framed(ClaimFields(d), 4) <==> Essence(c) == Essence(d)
  {
    if Framed(ClaimFields(c), 4) == Framed(ClaimFields(d), 4) {
      SplitFits(CommonFields(c), HeadField(c), 4);
      SplitFits(CommonFields(d), HeadField(d), 4);
      FramedConcat(CommonFields(c), HeadField(c), 4);
      FramedConcat(CommonFields(d), HeadField(d), 4);
      StreamIsRead(CommonFields(c), CommonFields(d), Framed(HeadField(c), 4), Framed(HeadField(d), 4), 4);
      SameCommon(c, d);
      StreamsEqual(HeadField(c), HeadField(d), 4);
      SameHead(c, d);
    }
    if Essence(c) == Essence(d) { EssenceDecides(c, d); }
  }

  lemma SplitFits(xs: seq<Bytes>, ys: seq<Bytes>, width: nat)
    requires Fits(xs + ys, width)
    ensures Fits(xs, width) && Fits(ys, width)
  {
    forall i | 0 <= i < |xs| ensures |xs[i]| < Pow(256, width) { assert (xs + ys)[i] == xs[i]; }
    forall i | 0 <= i < |ys| ensures |ys[i]| < Pow(256, width) { assert (xs + ys)[|xs| + i] == ys[i]; }
  }

  /** In particular when no block hash is empty, no memo is empty and no head is
      minus one, distinct claims of re-reads feed distinct bytes. */
  lemma RereadStreams(c: Claim, d: Claim)
    requires Fits(ClaimFields(c), 4) && Fits(ClaimFields(d), 4) && c.kind == E.TargetedLookup && d.kind == E.TargetedLookup
    requires c.blockHash != Some([]) && d.blockHash != Some([]) && c.memo != Some([]) && d.memo != Some([])
    requires c.head != Some(-1) && d.head != Some(-1)
    ensures Framed(ClaimFields(c), 4) == Framed(ClaimFields(d), 4) <==> c == d
  {
    ClaimStreams(c, d);
  }
}
