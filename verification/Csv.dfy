/** Comma-separated text: the fields an export writes and a reader of the grammar
    in section 2 of RFC 4180, with every character other than comma, quote,
    carriage return and line feed taken as text
    (crates/gateway-application/src/accounting.rs). */
module Csv {
  import opened Common

  predicate IsSpecial(c: char) { c == ',' || c == '"' || c == '\n' || c == '\r' }

  predicate IsFormula(c: char) { c == '=' || c == '+' || c == '-' || c == '@' || c == '\t' || c == '\r' }

  // ----- writing -----

  /** A text a spreadsheet would run gets an apostrophe in front. */
  function Defuse(value: string): string {
    if value != "" && IsFormula(value[0]) then ['\''] + value else value
  }

  /** No field a reader sees starts a formula. */
  lemma DefusedIsInert(value: string)
    ensures Defuse(value) != "" ==> Defuse(value)[0] !in {'=', '+', '-', '@', '\t', '\r'}
    ensures Defuse(value) == value <==> value == "" || value[0] !in {'=', '+', '-', '@', '\t', '\r'}
    ensures Defuse(value) == value || Defuse(value) == "'" + value
  {}

  /** A field is quoted exactly when a reader would otherwise split or end it. */
  lemma QuotedWhenNeeded(value: string)
    ensures var d := Defuse(value);
            if ',' in d || '"' in d || '\n' in d || '\r' in d then Field(value) == "\"" + Escape(d) + "\"" else Field(value) == d
  {}

  /** Two texts are written alike only if one is the other with the apostrophe
      that guards it. */
  lemma DefuseCollides(v: string, w: string)
    ensures Defuse(v) == Defuse(w) <==>
            v == w || (v == ['\''] + w && w != "" && IsFormula(w[0])) || (w == ['\''] + v && v != "" && IsFormula(v[0]))
  {
    assert (['\''] + v)[1..] == v && (['\''] + w)[1..] == w;
  }

  /** Every quote doubled. */
  function Escape(s: string): string {
    if s == "" then "" else Escape(s[..|s| - 1]) + (if s[|s| - 1] == '"' then "\"\"" else [s[|s| - 1]])
  }

  predicate NeedsQuotes(s: string) { exists i :: 0 <= i < |s| && IsSpecial(s[i]) }

  function Field(value: string): string {
    var d := Defuse(value);
    if NeedsQuotes(d) then "\"" + Escape(d) + "\"" else d
  }

  /** The fields from the `i`-th on, each after its comma. */
  function FieldsFrom(fields: seq<string>, i: nat): string
    requires i <= |fields|
    decreases |fields| - i
  {
    if i == |fields| then "" else (if i > 0 then "," else "") + Field(fields[i]) + FieldsFrom(fields, i + 1)
  }

  function Record(fields: seq<string>): string { FieldsFrom(fields, 0) + "\r\n" }

  /** The rows from the `i`-th on. */
  function RowsFrom(rows: seq<seq<string>>, i: nat): string
    requires i <= |rows|
    decreases |rows| - i
  {
    if i == |rows| then "" else Record(rows[i]) + RowsFrom(rows, i + 1)
  }

  // ----- reading -----

  /** The inside of an escaped field, up to the quote that closes it. */
  function ReadQuoted(s: string): (r: Option<(string, string)>)
    ensures r.Some? ==> |r.value.1| < |s|
  {
    if s == "" then None
    else if s[0] == '"' then
      if |s| > 1 && s[1] == '"' then
        var rest := ReadQuoted(s[2..]);
        if rest.None? then None else Some(("\"" + rest.value.0, rest.value.1))
      else Some(("", s[1..]))
    else
      var rest := ReadQuoted(s[1..]);
      if rest.None? then None else Some(([s[0]] + rest.value.0, rest.value.1))
  }

  function ReadPlain(s: string): (r: (string, string))
    ensures |r.1| <= |s|
  {
    if s == "" || IsSpecial(s[0]) then ("", s)
    else var rest := ReadPlain(s[1..]); ([s[0]] + rest.0, rest.1)
  }

  function ReadField(s: string): (r: Option<(string, string)>)
    ensures r.Some? ==> |r.value.1| <= |s|
  {
    if s != "" && s[0] == '"' then ReadQuoted(s[1..]) else Some(ReadPlain(s))
  }

  function ReadRecord(s: string): (r: Option<(seq<string>, string)>)
    ensures r.Some? ==> |r.value.1| <= |s|
    decreases |s|
  {
    var f := ReadField(s);
    if f.None? then None
    else if f.value.1 != "" && f.value.1[0] == ',' then
      var rest := ReadRecord(f.value.1[1..]);
      if rest.None? then None else Some(([f.value.0] + rest.value.0, rest.value.1))
    else Some(([f.value.0], f.value.1))
  }

  /** Records separated by line breaks, the last one optional. */
  function ReadFile(s: string): Option<seq<seq<string>>>
    decreases |s|
  {
    var r := ReadRecord(s);
    if r.None? then None
    else if r.value.1 == "" then Some([r.value.0])
    else if |r.value.1| >= 2 && r.value.1[..2] == "\r\n" then
      if r.value.1[2..] == "" then Some([r.value.0])
      else
        var rest := ReadFile(r.value.1[2..]);
        if rest.None? then None else Some([r.value.0] + rest.value)
    else None
  }

  // ----- reading what was written -----

  /** What may follow a field: the end, a comma or a line break. */
  predicate Ends(rest: string) { rest == "" || rest[0] == ',' || rest[0] == '\r' }

  lemma {:induction false} PlainReads(d: string, rest: string)
    requires !NeedsQuotes(d) && Ends(rest)
    ensures ReadPlain(d + rest) == (d, rest)
  {
    if d == "" {
      assert d + rest == rest;
    } else {
      assert !IsSpecial(d[0]);
      assert forall i :: 0 <= i < |d| - 1 ==> d[1..][i] == d[i + 1];
      PlainReads(d[1..], rest);
      assert (d + rest)[1..] == d[1..] + rest && d == [d[0]] + d[1..];
    }
  }

  lemma {:induction false} EscapeFirst(s: string)
    requires s != ""
    ensures Escape(s) == (if s[0] == '"' then "\"\"" else [s[0]]) + Escape(s[1..])
  {
    if |s| == 1 {
      assert s[..0] == "" && s[1..] == "";
      assert Escape(s[..0]) == "";
    } else {
      var front, last := s[..|s| - 1], if s[|s| - 1] == '"' then "\"\"" else [s[|s| - 1]];
      EscapeFirst(front);
      assert s[1..][..|s[1..]| - 1] == front[1..];
      var head := if s[0] == '"' then "\"\"" else [s[0]];
      assert head + Escape(front[1..]) + last == head + (Escape(front[1..]) + last);
    }
  }

  lemma {:induction false} QuotedReads(d: string, rest: string)
    requires rest == "" || rest[0] != '"'
    ensures ReadQuoted(Escape(d) + "\"" + rest) == Some((d, rest))
    decreases |d|
  {
    var text := Escape(d) + "\"" + rest;
    if d == "" {
      assert text == "\"" + rest;
      assert text[1..] == rest;
    } else {
      EscapeFirst(d);
      QuotedReads(d[1..], rest);
      var inner := Escape(d[1..]) + "\"" + rest;
      if d[0] == '"' {
        assert text == "\"\"" + inner;
        assert text[2..] == inner;
      } else {
        assert text == [d[0]] + inner;
        assert text[1..] == inner;
      }
      assert d == [d[0]] + d[1..];
    }
  }

  lemma OpenQuote(a: string, b: string, c: string)
    ensures "\"" + a + b + c == ['"'] + (a + b + c)
  {}

  lemma QuotedFieldReads(d: string, rest: string)
    requires Ends(rest)
    ensures ReadField("\"" + Escape(d) + "\"" + rest) == Some((d, rest))
  {
    QuotedReads(d, rest);
    OpenQuote(Escape(d), "\"", rest);
  }

  lemma PlainFieldReads(d: string, rest: string)
    requires !NeedsQuotes(d) && Ends(rest)
    ensures ReadField(d + rest) == Some((d, rest))
  {
    PlainReads(d, rest);
    if d == "" { assert d + rest == rest; } else { assert !IsSpecial(d[0]); }
  }

  /** Every field reads back as its defused text. */
  lemma FieldReads(value: string, rest: string)
    requires Ends(rest)
    ensures ReadField(Field(value) + rest) == Some((Defuse(value), rest))
  {
    var d := Defuse(value);
    if NeedsQuotes(d) { QuotedFieldReads(d, rest); } else { PlainFieldReads(d, rest); }
  }

  function DefuseAll(fields: seq<string>): (r: seq<string>)
    ensures |r| == |fields| && forall i :: 0 <= i < |fields| ==> r[i] == Defuse(fields[i])
  {
    seq(|fields|, i requires 0 <= i < |fields| => Defuse(fields[i]))
  }

  lemma LastFieldReads(value: string, rest: string)
    requires rest != "" && rest[0] == '\r'
    ensures ReadRecord(Field(value) + rest) == Some(([Defuse(value)], rest))
  {
    FieldReads(value, rest);
  }

  lemma NextFieldReads(value: string, next: string)
    requires ReadRecord(next).Some?
    ensures ReadRecord(Field(value) + ([','] + next)) == Some(([Defuse(value)] + ReadRecord(next).value.0, ReadRecord(next).value.1))
  {
    var tail := [','] + next;
    FieldReads(value, tail);
  }

  /** The text of a record from the `i`-th field on, and what follows it. */
  function Rest(fields: seq<string>, i: nat, rest: string): string
    requires i < |fields|
    decreases |fields| - i
  {
    Field(fields[i]) + if i + 1 == |fields| then rest else [','] + Rest(fields, i + 1, rest)
  }

  lemma {:induction false} RestReads(fields: seq<string>, i: nat, rest: string)
    requires i < |fields| && rest != "" && rest[0] == '\r'
    ensures ReadRecord(Rest(fields, i, rest)) == Some((DefuseAll(fields[i..]), rest))
    decreases |fields| - i
  {
    DefuseAllStep(fields, i);
    if i + 1 == |fields| {
      LastFieldReads(fields[i], rest);
    } else {
      RestReads(fields, i + 1, rest);
      NextFieldReads(fields[i], Rest(fields, i + 1, rest));
    }
  }

  lemma DefuseAllStep(fields: seq<string>, i: nat)
    requires i < |fields|
    ensures DefuseAll(fields[i..]) == [Defuse(fields[i])] + DefuseAll(fields[i + 1..])
    ensures i + 1 == |fields| ==> DefuseAll(fields[i..]) == [Defuse(fields[i])]
  {}

  lemma {:induction false} RestIsWritten(fields: seq<string>, i: nat, rest: string)
    requires i < |fields|
    ensures FieldsFrom(fields, i) + rest == (if i > 0 then "," else "") + Rest(fields, i, rest)
    decreases |fields| - i
  {
    var comma, f, more := if i > 0 then "," else "", Field(fields[i]), FieldsFrom(fields, i + 1);
    Assoc(comma + f, more, rest);
    if i + 1 == |fields| {
      assert more + rest == rest;
    } else {
      RestIsWritten(fields, i + 1, rest);
    }
    Assoc(comma, f, more + rest);
  }

  lemma WholeRecordReads(fields: seq<string>, rest: string)
    requires fields != []
    ensures ReadRecord(Record(fields) + rest) == Some((DefuseAll(fields), "\r\n" + rest))
  {
    var end := "\r\n" + rest;
    Assoc(FieldsFrom(fields, 0), "\r\n", rest);
    RestIsWritten(fields, 0, end);
    assert "" + Rest(fields, 0, end) == Rest(fields, 0, end);
    RestReads(fields, 0, end);
    assert fields[0..] == fields;
  }

  function DefuseRows(rows: seq<seq<string>>): (r: seq<seq<string>>)
    ensures |r| == |rows| && forall i :: 0 <= i < |rows| ==> r[i] == DefuseAll(rows[i])
  {
    seq(|rows|, i requires 0 <= i < |rows| => DefuseAll(rows[i]))
  }

  /** One record, then the rest of the file. */
  lemma FileStep(fields: seq<string>, rest: string)
    requires fields != []
    ensures ReadFile(Record(fields) + rest) ==
            if rest == "" then Some([DefuseAll(fields)])
            else if ReadFile(rest).None? then None
            else Some([DefuseAll(fields)] + ReadFile(rest).value)
  {
    WholeRecordReads(fields, rest);
    var end := "\r\n" + rest;
    assert end[..2] == "\r\n" && end[2..] == rest;
  }

  lemma {:induction false} RowsReadFrom(rows: seq<seq<string>>, i: nat)
    requires i < |rows| && forall k :: 0 <= k < |rows| ==> rows[k] != []
    ensures ReadFile(RowsFrom(rows, i)) == Some(DefuseRows(rows[i..]))
    decreases |rows| - i
  {
    FileStep(rows[i], RowsFrom(rows, i + 1));
    DefuseRowsStep(rows, i);
    if i + 1 < |rows| {
      RowsReadFrom(rows, i + 1);
    }
  }

  lemma DefuseRowsStep(rows: seq<seq<string>>, i: nat)
    requires i < |rows|
    ensures DefuseRows(rows[i..]) == [DefuseAll(rows[i])] + DefuseRows(rows[i + 1..])
    ensures i + 1 == |rows| ==> DefuseRows(rows[i..]) == [DefuseAll(rows[i])]
  {}

  /** Whatever the fields hold, reading the written rows gives back exactly those
      rows, each field defused. */
  lemma RowsRead(rows: seq<seq<string>>)
    requires rows != [] && forall k :: 0 <= k < |rows| ==> rows[k] != []
    ensures ReadFile(RowsFrom(rows, 0)) == Some(DefuseRows(rows))
  {
    RowsReadFrom(rows, 0);
    assert rows[0..] == rows;
  }

  // ----- the loops -----

  method WriteField(value: string) returns (text: string)
    ensures text == Field(value)
  {
    var defused := Defuse(value);
    if !NeedsQuotes(defused) {
      return defused;
    }
    var quoted := "\"";
    for n := 0 to |defused|
      invariant quoted == "\"" + Escape(defused[..n])
    {
      assert defused[..n + 1][..n] == defused[..n];
      if defused[n] == '"' {
        quoted := quoted + "\"";
      }
      quoted := quoted + [defused[n]];
    }
    assert defused[..|defused|] == defused;
    return quoted + "\"";
  }

  method PushRow(out: string, fields: seq<string>) returns (text: string)
    ensures text == out + Record(fields)
  {
    text := out;
    for n := 0 to |fields|
      invariant text + FieldsFrom(fields, n) == out + FieldsFrom(fields, 0)
    {
      var field := WriteField(fields[n]);
      Regroup(text, if n > 0 then "," else "", field, FieldsFrom(fields, n + 1));
      if n > 0 {
        text := text + ",";
      }
      text := text + field;
    }
    assert text + "" == text;
    Assoc(out, FieldsFrom(fields, 0), "\r\n");
    text := text + "\r\n";
  }

  method WriteRows(rows: seq<seq<string>>) returns (out: string)
    ensures out == RowsFrom(rows, 0)
  {
    out := "";
    for n := 0 to |rows|
      invariant out + RowsFrom(rows, n) == RowsFrom(rows, 0)
    {
      RowMoves(out, rows, n);
      out := PushRow(out, rows[n]);
    }
  }

  lemma RowMoves(out: string, rows: seq<seq<string>>, n: nat)
    requires n < |rows|
    ensures out + RowsFrom(rows, n) == (out + Record(rows[n])) + RowsFrom(rows, n + 1)
  {
    Assoc(out, Record(rows[n]), RowsFrom(rows, n + 1));
  }

  lemma Regroup(a: string, b: string, c: string, d: string)
    ensures a + (b + c + d) == a + b + c + d
    ensures b == "" ==> a + (b + c + d) == a + c + d
  {}
}
