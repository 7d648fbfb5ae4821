/** The settlement export as a file
    (crates/gateway-application/src/accounting.rs). */
module CsvExport {
  import opened Common
  import opened Money
  import opened Accounting
  import opened Csv

  const COLUMNS: nat := 13

  const HEADER: seq<string> := ["row_type", "day", "merchant_id", "merchant_external_id", "asset_id", "fiat_currency",
    "payments", "partial_payments", "overpaid_payments", "allocated_raw", "fiat_minor", "remainder_raw", "control_balanced"]

  /** A signed number in decimal. */
  function SignedText(n: int): string { if n < 0 then "-" + ToText(-n) else ToText(n) }

  /** A record of thirteen columns. */
  function Line(a: string, b: string, c: string, d: string, e: string, f: string, g: string, h: string, i: string, j: string,
                k: string, l: string, m: string): (r: seq<string>)
    ensures |r| == 13 && r[0] == a && r[1] == b && r[2] == c && r[3] == d && r[4] == e && r[5] == f && r[6] == g
    ensures r[7] == h && r[8] == i && r[9] == j && r[10] == k && r[11] == l && r[12] == m
  {
    [a, b, c, d, e, f, g, h, i, j, k, l, m]
  }

  /** Row identifiers print as their text; `name` stands for it. */
  function DayRow(d: Day, name: Id -> string): (r: seq<string>)
    ensures |r| == COLUMNS
  {
    Line("day", d.day, name(d.merchant), d.merchantName, name(d.key.asset), d.key.currency,
         ToText(d.figures.payments), ToText(d.figures.partials), ToText(d.figures.overpaid),
         ToText(d.figures.allocatedRaw), SignedText(d.figures.fiatMinor), ToText(d.figures.remainder), "")
  }

  function TotalRow(t: Total, name: Id -> string): (r: seq<string>)
    ensures |r| == COLUMNS
  {
    Line("total", "", "", "", name(t.key.asset), t.key.currency,
         ToText(t.figures.payments), ToText(t.figures.partials), ToText(t.figures.overpaid),
         ToText(t.figures.allocatedRaw), SignedText(t.figures.fiatMinor), ToText(t.figures.remainder), "")
  }

  function ControlRow(c: Control, balanced: bool, name: Id -> string): (r: seq<string>)
    ensures |r| == COLUMNS
  {
    Line("control", "", "", "", name(c.asset), "", ToText(c.rows), "", "", ToText(c.allocatedRaw), "", "",
         if balanced then "true" else "false")
  }

  function DayRows(days: seq<Day>, name: Id -> string): (r: seq<seq<string>>)
    ensures |r| == |days| && forall i :: 0 <= i < |days| ==> r[i] == DayRow(days[i], name)
  {
    seq(|days|, i requires 0 <= i < |days| => DayRow(days[i], name))
  }

  function TotalRows(totals: seq<Total>, name: Id -> string): (r: seq<seq<string>>)
    ensures |r| == |totals| && forall i :: 0 <= i < |totals| ==> r[i] == TotalRow(totals[i], name)
  {
    seq(|totals|, i requires 0 <= i < |totals| => TotalRow(totals[i], name))
  }

  function ControlRows(controls: seq<Control>, balanced: bool, name: Id -> string): (r: seq<seq<string>>)
    ensures |r| == |controls| && forall i :: 0 <= i < |controls| ==> r[i] == ControlRow(controls[i], balanced, name)
  {
    seq(|controls|, i requires 0 <= i < |controls| => ControlRow(controls[i], balanced, name))
  }

  /** The header, then a row per day, per total and per control asset. */
  function Rows(days: seq<Day>, e: Export, controls: seq<Control>, name: Id -> string): seq<seq<string>> {
    [HEADER] + DayRows(days, name) + TotalRows(e.totals, name) + ControlRows(controls, e.balanced, name)
  }

  /** The figures of a row, under the names the header gives them. */
  predicate FiguresAt(r: seq<string>, f: Figures) {
    && |r| == 13 && r[6] == ToText(f.payments) && r[7] == ToText(f.partials) && r[8] == ToText(f.overpaid)
    && r[9] == ToText(f.allocatedRaw) && r[10] == SignedText(f.fiatMinor) && r[11] == ToText(f.remainder)
  }

  lemma HeaderNames()
    ensures HEADER[0] == "row_type" && HEADER[1] == "day" && HEADER[2] == "merchant_id" && HEADER[3] == "merchant_external_id"
    ensures HEADER[4] == "asset_id" && HEADER[5] == "fiat_currency"
    ensures HEADER[6..] == ["payments", "partial_payments", "overpaid_payments", "allocated_raw", "fiat_minor", "remainder_raw",
                            "control_balanced"]
  {}

  /** Every column of a day's row holds what the header names. */
  lemma DayColumns(d: Day, name: Id -> string)
    ensures var r := DayRow(d, name);
            && FiguresAt(r, d.figures) && r[0] == "day" && r[1] == d.day && r[2] == name(d.merchant) && r[3] == d.merchantName
            && r[4] == name(d.key.asset) && r[5] == d.key.currency && r[12] == ""
  {}

  /** A total's row is that of a day without the day and the merchant. */
  lemma TotalColumns(t: Total, name: Id -> string)
    ensures var r := TotalRow(t, name);
            && FiguresAt(r, t.figures) && r[0] == "total" && r[1] == "" && r[2] == "" && r[3] == "" && r[4] == name(t.key.asset)
            && r[5] == t.key.currency && r[12] == ""
  {}

  /** A control's row names its asset, its rows, its sum and whether all balances. */
  lemma ControlColumns(c: Control, balanced: bool, name: Id -> string)
    ensures var r := ControlRow(c, balanced, name);
            && |r| == 13 && r[0] == "control" && r[4] == name(c.asset) && r[6] == ToText(c.rows) && r[9] == ToText(c.allocatedRaw)
            && r[12] == (if balanced then "true" else "false")
            && forall i :: 0 <= i < 13 && i !in {0, 4, 6, 9, 12} ==> r[i] == ""
  {}

  lemma AllThirteen(days: seq<Day>, e: Export, controls: seq<Control>, name: Id -> string)
    ensures |Rows(days, e, controls, name)| == 1 + |days| + |e.totals| + |controls|
    ensures forall i :: 0 <= i < |Rows(days, e, controls, name)| ==> |Rows(days, e, controls, name)[i]| == COLUMNS
  {}

  /** For any merchant text: reading the file gives the header and one record of
      thirteen fields per day, total and control, each field as written after
      defusing. */
  lemma ExportReads(days: seq<Day>, e: Export, controls: seq<Control>, name: Id -> string)
    ensures var rows := Rows(days, e, controls, name);
            ReadFile(RowsFrom(rows, 0)) == Some(DefuseRows(rows)) && |DefuseRows(rows)| == 1 + |days| + |e.totals| + |controls|
            && forall i :: 0 <= i < |rows| ==> |DefuseRows(rows)[i]| == COLUMNS
  {
    AllThirteen(days, e, controls, name);
    RowsRead(Rows(days, e, controls, name));
  }

  /** Amounts and counts are digits, so defusing leaves them alone; only a
      negative fiat sum is written with an apostrophe. */
  lemma NumbersAreInert(n: int)
    ensures Defuse(SignedText(n)) == if n < 0 then "'" + SignedText(n) else SignedText(n)
    ensures n >= 0 ==> Field(SignedText(n)) == SignedText(n)
  {
    if n >= 0 { DigitsArePlain(ToText(n)); }
  }

  lemma DigitsArePlain(s: string)
    requires s != "" && AllDigits(s)
    ensures Defuse(s) == s && !NeedsQuotes(s)
  {
    assert '0' <= s[0] <= '9';
    assert forall i :: 0 <= i < |s| ==> '0' <= s[i] <= '9';
  }

  method ToCsv(days: seq<Day>, e: Export, controls: seq<Control>, name: Id -> string) returns (out: string)
    ensures out == RowsFrom(Rows(days, e, controls, name), 0)
  {
    out := WriteRows(Rows(days, e, controls, name));
  }
}
