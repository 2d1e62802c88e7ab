/** The CSV export: the file name, the header and one row per transaction,
    each field wrapped in double quotes, fields joined by commas and lines by
    newlines. The readers here are the inverses that show what the text
    carries. */
module ExportCodec {
  import opened Wrappers
  import opened Text
  import opened Calendar
  import opened Transactions
  import opened LedgerStore

  /** The stored spelling of a transaction type. */
  function KindName(k: Kind): string {
    match k
    case Income => "income"
    case Expense => "expense"
  }

  function ParseKind(s: string): Option<Kind> {
    if s == "income" then Some(Income)
    else if s == "expense" then Some(Expense)
    else None
  }

  /** `YYYY-MM-DD`, the stored form of a date. */
  function IsoDate(d: Date): string {
    PadLeft(NatToString(d.year), 4) + "-" + PadLeft(NatToString(d.month), 2) + "-" + PadLeft(NatToString(d.day), 2)
  }

  /** Reads a `YYYY-MM-DD` text naming a valid date. */
  function ParseIsoDate(s: string): Option<Date> {
    if |s| == 10 && s[4] == '-' && s[7] == '-' && AllDigits(s[..4]) && AllDigits(s[5..7]) && AllDigits(s[8..]) then
      var d := Ymd(DigitsValue(s[..4]), DigitsValue(s[5..7]), DigitsValue(s[8..]));
      if ValidDate(d) then Some(d) else None
    else None
  }

  const Header: seq<string> := ["Date", "Type", "Category", "Description", "Amount", "Balance"]

  /** The six fields exported for a transaction; a missing description is
      the empty string. */
  function RowFields(t: Transaction): seq<string> {
    [IsoDate(t.date), KindName(t.kind), t.category, t.description, IntToString(t.amount), IntToString(t.balance)]
  }

  function Quote(field: string): string {
    "\"" + field + "\""
  }

  function QuoteAll(fields: seq<string>): (r: seq<string>)
    ensures |r| == |fields| && forall i :: 0 <= i < |fields| ==> r[i] == Quote(fields[i])
  {
    seq(|fields|, i requires 0 <= i < |fields| => Quote(fields[i]))
  }

  /** One CSV line: every field quoted, joined by commas. */
  function RowText(fields: seq<string>): string {
    Join(QuoteAll(fields), ",")
  }

  function Rows(ts: seq<Transaction>): (r: seq<seq<string>>)
    ensures |r| == |ts| && forall i :: 0 <= i < |ts| ==> r[i] == RowFields(ts[i])
  {
    seq(|ts|, i requires 0 <= i < |ts| => RowFields(ts[i]))
  }

  function Lines(rows: seq<seq<string>>): (r: seq<string>)
    ensures |r| == |rows| && forall i :: 0 <= i < |rows| ==> r[i] == RowText(rows[i])
  {
    seq(|rows|, i requires 0 <= i < |rows| => RowText(rows[i]))
  }

  /** The whole file: the header line, then one line per transaction in
      ledger order, separated by newlines. */
  function GenerateCsv(ts: seq<Transaction>): string {
    CsvText([Header] + Rows(ts))
  }

  /** Rows written as lines separated by newlines. */
  function CsvText(rows: seq<seq<string>>): string {
    Join(Lines(rows), "\n")
  }

  /** Reads one line of quoted, comma-separated fields. A field runs from an
      opening quote to the next quote. */
  function ParseRow(line: string): Option<seq<string>>
    decreases |line|
  {
    if |line| == 0 || line[0] != '"' then None
    else match IndexOf(line[1..], '"')
      case None => None
      case Some(i) =>
        var field := line[1..i + 1];
        var rest := line[i + 2..];
        if |rest| == 0 then Some([field])
        else if rest[0] != ',' then None
        else match ParseRow(rest[1..])
          case None => None
          case Some(fields) => Some([field] + fields)
  }

  function ParseRows(lines: seq<string>): Option<seq<seq<string>>>
    decreases |lines|
  {
    if |lines| == 0 then Some([])
    else match (ParseRow(lines[0]), ParseRows(lines[1..]))
      case (Some(row), Some(rows)) => Some([row] + rows)
      case _ => None
  }

  /** Reads a whole file: its newline-separated lines, each parsed as a row. */
  function ParseCsv(text: string): Option<seq<seq<string>>> {
    ParseRows(Split(text, '\n'))
  }

  /** What an exported row carries about a transaction: everything but its
      id. */
  datatype ExportedRow = ExportedRow(date: Date, kind: Kind, category: string, description: string, amount: int, balance: int)

  function Exported(t: Transaction): ExportedRow {
    ExportedRow(t.date, t.kind, t.category, t.description, t.amount, t.balance)
  }

  function Exports(ts: seq<Transaction>): (r: seq<ExportedRow>)
    ensures |r| == |ts| && forall i :: 0 <= i < |ts| ==> r[i] == Exported(ts[i])
  {
    seq(|ts|, i requires 0 <= i < |ts| => Exported(ts[i]))
  }

  function DecodeRow(fields: seq<string>): Option<ExportedRow> {
    if |fields| != 6 then None
    else match (ParseIsoDate(fields[0]), ParseKind(fields[1]), ParseInt(fields[4]), ParseInt(fields[5]))
      case (Some(d), Some(k), Some(a), Some(b)) => Some(ExportedRow(d, k, fields[2], fields[3], a, b))
      case _ => None
  }

  function DecodeRows(rows: seq<seq<string>>): Option<seq<ExportedRow>>
    decreases |rows|
  {
    if |rows| == 0 then Some([])
    else match (DecodeRow(rows[0]), DecodeRows(rows[1..]))
      case (Some(e), Some(es)) => Some([e] + es)
      case _ => None
  }

  /** Reads an exported file back: the header line, then one decoded row per
      line. */
  function ImportCsv(text: string): Option<seq<ExportedRow>> {
    match ParseCsv(text)
    case None => None
    case Some(rows) => if |rows| >= 1 && rows[0] == Header then DecodeRows(rows[1..]) else None
  }

  /** The exported file: its download name and its content. */
  datatype CsvFile = CsvFile(name: string, content: string)

  /** The export action: nothing for an empty ledger, otherwise the CSV of
      the transactions named after `today`, the current UTC date. */
  function Export(l: Ledger, today: Date): Option<CsvFile> {
    if |l.transactions| == 0 then None
    else Some(CsvFile("transactions_" + IsoDate(today) + ".csv", GenerateCsv(l.transactions)))
  }

  // ---------------------------------------------------------------------
  // Round trips

  /** Text the exporter writes unescaped reads back only if it holds no
      quote and no newline. */
  predicate PlainText(s: string) {
    '"' !in s && '\n' !in s
  }

  /** A non-empty row of plain fields. */
  predicate PlainRow(fields: seq<string>) {
    |fields| >= 1 && forall j :: 0 <= j < |fields| ==> PlainText(fields[j])
  }

  predicate PlainFields(t: Transaction) {
    PlainText(t.category) && PlainText(t.description)
  }

  lemma IsoDateSpec(d: Date)
    ensures |IsoDate(d)| == 10
    ensures ParseIsoDate(IsoDate(d)) == Some(d)
  {
    var y := PadLeft(NatToString(d.year), 4);
    var m := PadLeft(NatToString(d.month), 2);
    var dd := PadLeft(NatToString(d.day), 2);
    assert Pow10(2) == 100 && Pow10(4) == 10000;
    PaddedNumber(d.year, 4);
    PaddedNumber(d.month, 2);
    PaddedNumber(d.day, 2);
    var s := IsoDate(d);
    assert s == y + "-" + m + "-" + dd;
    assert s[..4] == y && s[4] == '-' && s[5..7] == m && s[7] == '-' && s[8..] == dd;
  }

  /** A quoted field without quotes is read up to its closing quote. */
  lemma ParseRowHead(f: string, tail: string)
    requires '"' !in f
    ensures var line := Quote(f) + tail;
            && |line| > 0 && line[0] == '"'
            && IndexOf(line[1..], '"') == Some(|f|)
            && line[1..|f| + 1] == f
            && line[|f| + 2..] == tail
  {
    var line := Quote(f) + tail;
    assert line[1..] == f + "\"" + tail;
    assert (f + "\"" + tail)[..|f|] == f;
    IndexOfAt(line[1..], '"', |f|);
  }

  lemma RowTextCons(fields: seq<string>)
    requires |fields| > 1
    ensures RowText(fields) == Quote(fields[0]) + "," + RowText(fields[1..])
  {
    assert QuoteAll(fields)[1..] == QuoteAll(fields[1..]);
  }

  lemma ParseRowSingle(f: string)
    requires '"' !in f
    ensures ParseRow(Quote(f)) == Some([f])
  {
    ParseRowHead(f, "");
    assert Quote(f) + "" == Quote(f);
  }

  lemma ParseRowCons(f: string, more: string)
    requires '"' !in f
    ensures ParseRow(Quote(f) + "," + more) ==
              if ParseRow(more).Some? then Some([f] + ParseRow(more).value) else None
  {
    var line := Quote(f) + "," + more;
    ParseRowHead(f, "," + more);
    assert Quote(f) + ("," + more) == line;
    var rest := line[|f| + 2..];
    assert rest[1..] == more;
  }

  /** Every line of plain fields reads back as those fields. */
  lemma {:induction false} RowRoundTrip(fields: seq<string>)
    requires |fields| >= 1
    requires forall i :: 0 <= i < |fields| ==> '"' !in fields[i]
    ensures ParseRow(RowText(fields)) == Some(fields)
    decreases |fields|
  {
    var f := fields[0];
    if |fields| == 1 {
      ParseRowSingle(f);
      assert fields == [f];
    } else {
      RowTextCons(fields);
      ParseRowCons(f, RowText(fields[1..]));
      RowRoundTrip(fields[1..]);
      assert fields == [f] + fields[1..];
    }
  }

  lemma {:induction false} RowsRoundTrip(rows: seq<seq<string>>)
    requires forall i :: 0 <= i < |rows| ==> PlainRow(rows[i])
    ensures ParseRows(Lines(rows)) == Some(rows)
    decreases |rows|
  {
    if |rows| > 0 {
      RowRoundTrip(rows[0]);
      assert Lines(rows)[1..] == Lines(rows[1..]);
      RowsRoundTrip(rows[1..]);
      assert rows == [rows[0]] + rows[1..];
    }
  }

  /** A line of fields without newlines holds no newline. */
  lemma RowTextSingleLine(fields: seq<string>)
    requires forall i :: 0 <= i < |fields| ==> '\n' !in fields[i]
    ensures '\n' !in RowText(fields)
  {
    JoinAvoids(QuoteAll(fields), ",", '\n');
  }

  /** The exported fields of a transaction with plain text fields are
      plain: the date, type and numbers never hold quotes or newlines. */
  lemma RowFieldsPlain(t: Transaction)
    requires PlainFields(t)
    ensures |RowFields(t)| == 6
    ensures forall j :: 0 <= j < 6 ==> PlainText(RowFields(t)[j])
  {
    IntPlain(t.amount);
    IntPlain(t.balance);
    DatePlain(t.date);
    var r := RowFields(t);
    assert PlainText(r[1]) by {
      assert r[1] == "income" || r[1] == "expense";
    }
  }

  lemma DigitsPlain(s: string)
    requires AllDigits(s)
    ensures PlainText(s)
  {
    assert forall j :: 0 <= j < |s| ==> IsDigit(s[j]);
  }

  lemma IntPlain(n: int)
    ensures PlainText(IntToString(n))
  {
    var a := if n < 0 then -n else n;
    NatToStringSpec(a);
    DigitsPlain(NatToString(a));
  }

  lemma DatePlain(d: Date)
    ensures PlainText(IsoDate(d))
  {
    assert Pow10(2) == 100 && Pow10(4) == 10000;
    PaddedNumber(d.year, 4);
    PaddedNumber(d.month, 2);
    PaddedNumber(d.day, 2);
    DigitsPlain(PadLeft(NatToString(d.year), 4));
    DigitsPlain(PadLeft(NatToString(d.month), 2));
    DigitsPlain(PadLeft(NatToString(d.day), 2));
  }

  lemma PlainRows(ts: seq<Transaction>)
    requires forall i :: 0 <= i < |ts| ==> PlainFields(ts[i])
    ensures forall i :: 0 <= i < |ts| + 1 ==> PlainRow(([Header] + Rows(ts))[i])
  {
    var rows := [Header] + Rows(ts);
    forall i | 0 <= i < |rows| ensures PlainRow(rows[i]) {
      if i > 0 {
        RowFieldsPlain(ts[i - 1]);
      } else {
        assert forall j :: 0 <= j < 6 ==> PlainText(Header[j]);
      }
    }
  }

  lemma LinesSingle(rows: seq<seq<string>>)
    requires forall i :: 0 <= i < |rows| ==> PlainRow(rows[i])
    ensures forall i :: 0 <= i < |rows| ==> '\n' !in Lines(rows)[i]
  {
    forall i | 0 <= i < |rows| ensures '\n' !in Lines(rows)[i] {
      RowTextSingleLine(rows[i]);
    }
  }

  /** Rows of plain fields are written one per line and read back as
      themselves. */
  lemma CsvTextRoundTrip(rows: seq<seq<string>>)
    requires |rows| >= 1
    requires forall i :: 0 <= i < |rows| ==> PlainRow(rows[i])
    ensures Split(CsvText(rows), '\n') == Lines(rows)
    ensures ParseCsv(CsvText(rows)) == Some(rows)
  {
    LinesSingle(rows);
    SplitJoin(Lines(rows), '\n');
    RowsRoundTrip(rows);
  }

  /** The file holds one line more than there are transactions: the header,
      then each transaction's row in ledger order; read back, it gives
      exactly these rows, provided no category or description holds a quote
      or a newline. */
  lemma CsvRoundTrip(ts: seq<Transaction>)
    requires forall i :: 0 <= i < |ts| ==> PlainFields(ts[i])
    ensures Split(GenerateCsv(ts), '\n') == Lines([Header] + Rows(ts))
    ensures ParseCsv(GenerateCsv(ts)) == Some([Header] + Rows(ts))
  {
    PlainRows(ts);
    CsvTextRoundTrip([Header] + Rows(ts));
  }

  /** A row decodes to the transaction's exported content. */
  lemma DecodeRowSpec(t: Transaction)
    ensures DecodeRow(RowFields(t)) == Some(Exported(t))
  {
    IsoDateSpec(t.date);
    IntRoundTrip(t.amount);
    IntRoundTrip(t.balance);
  }

  lemma {:induction false} DecodeRowsOf(rows: seq<seq<string>>, es: seq<ExportedRow>)
    requires |rows| == |es|
    requires forall i :: 0 <= i < |rows| ==> DecodeRow(rows[i]) == Some(es[i])
    ensures DecodeRows(rows) == Some(es)
    decreases |rows|
  {
    if |rows| > 0 {
      DecodeRowsOf(rows[1..], es[1..]);
      assert es == [es[0]] + es[1..];
    }
  }

  /** The rows of a ledger decode to the exported content of its
      transactions, in order. */
  lemma DecodeRowsSpec(ts: seq<Transaction>)
    ensures DecodeRows(Rows(ts)) == Some(Exports(ts))
  {
    forall i | 0 <= i < |ts| ensures DecodeRow(Rows(ts)[i]) == Some(Exports(ts)[i]) {
      DecodeRowSpec(ts[i]);
    }
    DecodeRowsOf(Rows(ts), Exports(ts));
  }

  /** Importing an export gives back date, type, category, description,
      amount and balance of every transaction, in ledger order, provided no
      category or description holds a quote or a newline. */
  lemma ImportExportRoundTrip(ts: seq<Transaction>)
    requires forall i :: 0 <= i < |ts| ==> PlainFields(ts[i])
    ensures ImportCsv(GenerateCsv(ts)) == Some(Exports(ts))
  {
    CsvRoundTrip(ts);
    ImportParsed(GenerateCsv(ts), Rows(ts));
    DecodeRowsSpec(ts);
  }

  /** A text that parses to the header and then `rest` imports as `rest`
      decoded. */
  lemma ImportParsed(text: string, rest: seq<seq<string>>)
    requires ParseCsv(text) == Some([Header] + rest)
    ensures ImportCsv(text) == DecodeRows(rest)
  {
    assert ([Header] + rest)[1..] == rest;
  }

  /** Export refuses an empty ledger; otherwise the file is named
      `transactions_<today>.csv` and its content reads back as the ledger's
      transactions. */
  lemma ExportSpec(l: Ledger, today: Date)
    ensures Export(l, today).None? <==> |l.transactions| == 0
    ensures Export(l, today).Some? ==>
              var name := Export(l, today).value.name;
              && |name| == 27
              && name[..13] == "transactions_"
              && ParseIsoDate(name[13..23]) == Some(today)
              && name[23..] == ".csv"
    ensures Export(l, today).Some? && (forall i :: 0 <= i < |l.transactions| ==> PlainFields(l.transactions[i])) ==>
              ImportCsv(Export(l, today).value.content) == Some(Exports(l.transactions))
  {
    if |l.transactions| > 0 {
      FileNameSpec(today);
      if forall i :: 0 <= i < |l.transactions| ==> PlainFields(l.transactions[i]) {
        ImportExportRoundTrip(l.transactions);
      }
    }
  }

  lemma FileNameSpec(today: Date)
    ensures var name := "transactions_" + IsoDate(today) + ".csv";
            && |name| == 27
            && name[..13] == "transactions_"
            && ParseIsoDate(name[13..23]) == Some(today)
            && name[23..] == ".csv"
  {
    IsoDateSpec(today);
    var name := "transactions_" + IsoDate(today) + ".csv";
    assert name[13..23] == IsoDate(today);
  }

  /** The fields are quoted but quotes inside them are not doubled, so a
      description holding a quote does not read back. */
  lemma QuoteInFieldBreaksRow()
    ensures ParseRow(RowText(["say \"hi\""])) == None
  {
    var line := RowText(["say \"hi\""]);
    assert line == "\"say \"hi\"\"";
    assert line[1..][..4] == "say ";
    IndexOfAt(line[1..], '"', 4);
    assert line[6..][0] == 'h';
  }
}
