/**
 * The reports page (client/src/pages/reports.tsx): CSV serialisation of a
 * report's rows, the carrier-analysis rows, and the interaction history
 * collected adjuster by adjuster and sorted newest first.
 */
module Reports {
  import opened Wrappers
  import opened Strings
  import opened Seqs
  import opened Sorting
  import opened Records
  import opened ByCarrier

  /** A JavaScript value held in a report cell. */
  datatype Value = Str(s: string) | Num(n: int) | Bool(b: bool) | Null | Undefined

  /** JavaScript truthiness of a cell value. */
  predicate Truthy(v: Value) {
    match v
    case Str(s) => s != ""
    case Num(n) => n != 0
    case Bool(b) => b
    case Null => false
    case Undefined => false
  }

  /** `String(v || '')`: a falsy value prints as the empty string. */
  function CellText(v: Value): (r: string)
    ensures !Truthy(v) ==> r == ""
    ensures v.Str? ==> r == v.s
    ensures v.Num? && v.n != 0 ==> r == IntToString(v.n)
  {
    match v
    case Str(s) => s
    case Num(n) => if n == 0 then "" else IntToString(n)
    case Bool(b) => if b then "true" else ""
    case Null => ""
    case Undefined => ""
  }

  /** `s.replace(/"/g, '""')`: every double quote doubled. */
  function DoubleQuotes(s: string): (r: string)
    ensures '"' !in s ==> r == s
    ensures forall c :: c in r ==> c in s || c == '"'
    ensures |r| >= |s|
  {
    if |s| == 0 then ""
    else (if s[0] == '"' then "\"\"" else [s[0]]) + DoubleQuotes(s[1..])
  }

  /** A data field as written to the file: quoted, with inner quotes doubled. */
  function Quote(s: string): string {
    "\"" + DoubleQuotes(s) + "\""
  }

  /**
   * Reads the rest of a quoted field after its opening quote (RFC 4180,
   * section 2 rule 7): a doubled quote stands for one quote, a single quote
   * closes the field. Gives the content and the text after the closing quote.
   */
  function ReadQuoted(s: string): (r: Option<(string, string)>)
    ensures r.Some? ==> |r.value.1| < |s|
  {
    if |s| == 0 then None
    else if s[0] == '"' then
      if |s| >= 2 && s[1] == '"' then
        match ReadQuoted(s[2..])
        case None => None
        case Some(p) => Some((['"'] + p.0, p.1))
      else Some(("", s[1..]))
    else
      match ReadQuoted(s[1..])
      case None => None
      case Some(p) => Some(([s[0]] + p.0, p.1))
  }

  /** Parses a record of quoted fields separated by commas. */
  function ParseRecord(s: string): Option<seq<string>>
    decreases |s|
  {
    if |s| == 0 || s[0] != '"' then None
    else
      match ReadQuoted(s[1..])
      case None => None
      case Some(p) =>
        if p.1 == "" then Some([p.0])
        else if p.1[0] != ',' then None
        else
          match ParseRecord(p.1[1..])
          case None => None
          case Some(fields) => Some([p.0] + fields)
  }

  /** One escaped character in front of the rest of a quoted field adds that character to its content. */
  lemma ReadQuotedCons(ch: char, t: string, content: string, after: string)
    requires ReadQuoted(t) == Some((content, after))
    ensures ReadQuoted((if ch == '"' then "\"\"" else [ch]) + t) == Some(([ch] + content, after))
  {
    var x := (if ch == '"' then "\"\"" else [ch]) + t;
    if ch == '"' {
      assert x[2..] == t;
    } else {
      assert x[1..] == t;
    }
  }

  /** The closing quote ends the field. */
  lemma ReadQuotedClose(rest: string)
    ensures rest == "" || rest[0] != '"' ==> ReadQuoted("\"" + rest) == Some(("", rest))
  {
    assert ("\"" + rest)[1..] == rest;
  }

  /** A field's escaped text followed by the closing quote reads back as the field. */
  lemma {:induction false} ReadQuotedEscaped(c: string, rest: string)
    requires rest == "" || rest[0] != '"'
    ensures ReadQuoted(DoubleQuotes(c) + "\"" + rest) == Some((c, rest))
  {
    if |c| == 0 {
      assert DoubleQuotes(c) + "\"" + rest == "\"" + rest;
      ReadQuotedClose(rest);
    } else {
      var t := DoubleQuotes(c[1..]) + "\"" + rest;
      ReadQuotedEscaped(c[1..], rest);
      var pre := if c[0] == '"' then "\"\"" else [c[0]];
      ReadQuotedCons(c[0], t, c[1..], rest);
      assert DoubleQuotes(c) == pre + DoubleQuotes(c[1..]);
      AppendAssoc4(pre, DoubleQuotes(c[1..]), "\"", rest);
      assert [c[0]] + c[1..] == c;
    }
  }

  /** The quoted form of each field (`headers.map(h => "..." )`). */
  function QuotedFields(fields: seq<string>): (r: seq<string>)
    ensures |r| == |fields|
    ensures forall i :: 0 <= i < |fields| ==> r[i] == Quote(fields[i])
  {
    seq(|fields|, i requires 0 <= i < |fields| => Quote(fields[i]))
  }

  /** A quoted field followed by the end of the line or a comma is read as one field. */
  lemma ParseRecordField(f: string, after: string)
    requires after == "" || after[0] == ','
    ensures after == "" ==> ParseRecord(Quote(f) + after) == Some([f])
    ensures forall fields :: after != "" && ParseRecord(after[1..]) == Some(fields) ==>
      ParseRecord(Quote(f) + after) == Some([f] + fields)
  {
    var s := Quote(f) + after;
    ReadQuotedEscaped(f, after);
    AppendAssoc4("\"", DoubleQuotes(f), "\"", after);
    assert s[1..] == DoubleQuotes(f) + "\"" + after;
  }

  /**
   * A line of quoted fields parses back to exactly those fields: commas and
   * quotes inside a field never split it.
   */
  lemma {:induction false} ParseQuotedLine(fields: seq<string>)
    requires |fields| >= 1
    ensures ParseRecord(Join(QuotedFields(fields), ",")) == Some(fields)
  {
    var q := QuotedFields(fields);
    if |fields| == 1 {
      ParseRecordField(fields[0], "");
      assert Quote(fields[0]) + "" == Quote(fields[0]);
      assert Join(q, ",") == q[0];
      assert [fields[0]] == fields;
    } else {
      var rest := fields[1..];
      ParseQuotedLine(rest);
      QuotedFieldsTail(fields);
      var tail := Join(QuotedFields(rest), ",");
      assert Join(q, ",") == q[0] + "," + tail;
      AppendAssoc3(Quote(fields[0]), ",", tail);
      assert ("," + tail)[1..] == tail;
      ParseRecordField(fields[0], "," + tail);
      assert [fields[0]] + rest == fields;
    }
  }

  lemma QuotedFieldsTail(fields: seq<string>)
    requires |fields| >= 1
    ensures QuotedFields(fields)[1..] == QuotedFields(fields[1..])
  {
  }

  /** A report row: an object's (key, value) entries in insertion order. */
  type Row = seq<(string, Value)>

  /** `row[key]`: the value of the first entry with that key, undefined when there is none. */
  function Get(row: Row, key: string): (v: Value)
    ensures (forall i :: 0 <= i < |row| ==> row[i].0 != key) ==> v == Undefined
    ensures v == Undefined || exists i :: 0 <= i < |row| && row[i] == (key, v)
  {
    if |row| == 0 then Undefined
    else if row[0].0 == key then
      assert row[0] == (key, row[0].1);
      row[0].1
    else
      var v := Get(row[1..], key);
      assert forall i :: 1 <= i < |row| ==> row[1..][i - 1] == row[i];
      v
  }

  /** `Object.keys(row)`. */
  function Keys(row: Row): (r: seq<string>)
    ensures |r| == |row|
    ensures forall i :: 0 <= i < |row| ==> r[i] == row[i].0
  {
    seq(|row|, i requires 0 <= i < |row| => row[i].0)
  }

  /** `Object.keys(data[0] || {})`: the columns come from the first row only. */
  function Headers(data: seq<Row>): seq<string> {
    if |data| == 0 then [] else Keys(data[0])
  }

  /** The texts of a row's cells, one per header. */
  function Cells(row: Row, headers: seq<string>): (r: seq<string>)
    ensures |r| == |headers|
    ensures forall i :: 0 <= i < |headers| ==> r[i] == CellText(Get(row, headers[i]))
  {
    seq(|headers|, i requires 0 <= i < |headers| => CellText(Get(row, headers[i])))
  }

  function DataLine(row: Row, headers: seq<string>): string {
    Join(QuotedFields(Cells(row, headers)), ",")
  }

  /** One quoted line per row, in order. */
  function DataLines(data: seq<Row>, headers: seq<string>): (r: seq<string>)
    ensures |r| == |data|
    ensures forall i :: 0 <= i < |data| ==> r[i] == DataLine(data[i], headers)
  {
    seq(|data|, i requires 0 <= i < |data| => DataLine(data[i], headers))
  }

  /** The lines of the CSV file: the bare header line, then one quoted line per row. */
  function CsvLines(data: seq<Row>): (r: seq<string>)
    ensures |r| == |data| + 1
    ensures r[0] == Join(Headers(data), ",")
    ensures forall i :: 0 <= i < |data| ==> r[i + 1] == DataLine(data[i], Headers(data))
  {
    var lines := DataLines(data, Headers(data));
    ConsIndex(Join(Headers(data), ","), lines);
    [Join(Headers(data), ",")] + lines
  }

  /** `csvContent`: the header line comes first, then a line break when there are rows. */
  function Csv(data: seq<Row>): (r: string)
    ensures |data| == 0 ==> r == ""
    ensures |data| > 0 ==> Join(Headers(data), ",") + "\n" <= r
  {
    var lines := CsvLines(data);
    assert |data| > 0 ==> Join(lines, "\n") == lines[0] + "\n" + Join(lines[1..], "\n");
    Join(lines, "\n")
  }

  /**
   * Every data line has exactly one field per column, and parsing it gives
   * back each cell's text.
   */
  lemma DataLineFields(data: seq<Row>, i: nat)
    requires i < |data| && |Headers(data)| >= 1
    ensures ParseRecord(CsvLines(data)[i + 1]) == Some(Cells(data[i], Headers(data)))
    ensures |Cells(data[i], Headers(data))| == |Headers(data)|
  {
    ParseQuotedLine(Cells(data[i], Headers(data)));
  }

  /** A falsy cell is written as an empty quoted field. */
  lemma FalsyCellIsEmpty(v: Value)
    requires !Truthy(v)
    ensures Quote(CellText(v)) == "\"\""
  {
  }

  /** The header line splits back into the column names when none holds a comma. */
  lemma HeaderLineFields(data: seq<Row>)
    requires |Headers(data)| >= 1
    requires forall h :: h in Headers(data) ==> ',' !in h
    ensures Split(CsvLines(data)[0], ',') == Headers(data)
  {
    SplitJoin(Headers(data), ',');
  }

  lemma QuotedNoChar(fields: seq<string>, c: char)
    requires c != '"' && c != ','
    requires forall f :: f in fields ==> c !in f
    ensures c !in Join(QuotedFields(fields), ",")
  {
    var q := QuotedFields(fields);
    forall w | w in q ensures c !in w {
      var i :| 0 <= i < |q| && q[i] == w;
      assert c !in fields[i];
    }
    JoinChars(q, ",", c);
  }

  /**
   * With no line break in any column name or cell, the file has exactly one
   * line for the header and one per row.
   */
  lemma CsvLineCount(data: seq<Row>)
    requires forall h :: h in Headers(data) ==> '\n' !in h
    requires forall row, h :: row in data && h in Headers(data) ==> '\n' !in CellText(Get(row, h))
    ensures Split(Csv(data), '\n') == CsvLines(data)
    ensures |Split(Csv(data), '\n')| == |data| + 1
  {
    var lines := CsvLines(data);
    var headers := Headers(data);
    JoinChars(headers, ",", '\n');
    forall w | w in lines ensures '\n' !in w {
      var k :| 0 <= k < |lines| && lines[k] == w;
      if k > 0 {
        assert data[k - 1] in data;
        DataLineNoBreak(data[k - 1], headers);
      }
    }
    SplitJoin(lines, '\n');
  }

  /** A data line has no line break when none of its cells has one. */
  lemma DataLineNoBreak(row: Row, headers: seq<string>)
    requires forall h :: h in headers ==> '\n' !in CellText(Get(row, h))
    ensures '\n' !in DataLine(row, headers)
  {
    var cells := Cells(row, headers);
    forall f | f in cells ensures '\n' !in f {
      var j :| 0 <= j < |cells| && cells[j] == f;
      assert headers[j] in headers;
    }
    QuotedNoChar(cells, '\n');
  }

  /** A row of the carrier-analysis report. */
  datatype CarrierRow = CarrierRow(
    carrier: string,
    totalAdjusters: nat,
    totalClaims: nat,
    openClaims: nat,
    resolvedClaims: nat,
    highRiskAdjusters: nat)

  /**
   * One carrier's row: its adjusters and claims by trimmed carrier name, the
   * open and resolved claims among them, and its adjusters whose impression
   * mentions "high".
   */
  function CarrierRowOf(adjusters: seq<Adjuster>, claims: seq<Claim>, carrier: string): (r: CarrierRow)
    ensures r.carrier == carrier
    ensures r.totalAdjusters == |AdjustersOf(adjusters, carrier)|
    ensures r.totalClaims == |ClaimsOf(claims, carrier)|
    ensures r.openClaims + r.resolvedClaims <= r.totalClaims
    ensures r.highRiskAdjusters <= r.totalAdjusters
  {
    var carrierAdjusters := AdjustersOf(adjusters, carrier);
    var carrierClaims := ClaimsOf(claims, carrier);
    OpenResolvedBound(carrierClaims);
    CarrierRow(
      carrier,
      |carrierAdjusters|,
      |carrierClaims|,
      Count(carrierClaims, HasStatus("open")),
      Count(carrierClaims, HasStatus("resolved")),
      Count(carrierAdjusters, Mentions("high")))
  }

  /** The carrier-analysis data: one row per distinct carrier, in order of first appearance. */
  function CarrierAnalysis(adjusters: seq<Adjuster>, claims: seq<Claim>): (r: seq<CarrierRow>)
    ensures |r| == |DistinctCarriers(adjusters)|
    ensures forall i :: 0 <= i < |r| ==> r[i] == CarrierRowOf(adjusters, claims, DistinctCarriers(adjusters)[i])
  {
    var carriers := DistinctCarriers(adjusters);
    seq(|carriers|, i requires 0 <= i < |carriers| => CarrierRowOf(adjusters, claims, carriers[i]))
  }

  /**
   * The report has exactly one row per non-empty trimmed carrier name, no
   * carrier twice, each with at least one adjuster.
   */
  lemma CarrierAnalysisRows(adjusters: seq<Adjuster>, claims: seq<Claim>)
    ensures forall a :: a in adjusters && Trim(a.carrier) != "" ==>
      exists i :: 0 <= i < |CarrierAnalysis(adjusters, claims)| && CarrierAnalysis(adjusters, claims)[i].carrier == Trim(a.carrier)
    ensures forall i, j :: 0 <= i < j < |CarrierAnalysis(adjusters, claims)| ==>
      CarrierAnalysis(adjusters, claims)[i].carrier != CarrierAnalysis(adjusters, claims)[j].carrier
    ensures forall i :: 0 <= i < |CarrierAnalysis(adjusters, claims)| ==>
      CarrierAnalysis(adjusters, claims)[i].totalAdjusters >= 1 && CarrierAnalysis(adjusters, claims)[i].carrier != ""
  {
    var carriers := DistinctCarriers(adjusters);
    var rows := CarrierAnalysis(adjusters, claims);
    assert forall i :: 0 <= i < |rows| ==> rows[i].carrier == carriers[i];
    forall a | a in adjusters && Trim(a.carrier) != ""
      ensures exists i :: 0 <= i < |rows| && rows[i].carrier == Trim(a.carrier)
    {
      var i :| 0 <= i < |carriers| && carriers[i] == Trim(a.carrier);
      assert rows[i].carrier == carriers[i];
    }
    forall i, j | 0 <= i < j < |rows| ensures rows[i].carrier != rows[j].carrier {
      assert carriers[i] != carriers[j];
    }
    forall i | 0 <= i < |rows| ensures rows[i].totalAdjusters >= 1 && rows[i].carrier != "" {
      assert carriers[i] in carriers;
      CarrierHasAdjuster(adjusters, carriers[i]);
    }
  }

  /** The object the report builds for a carrier row, with the report's column names. */
  function CarrierRowCells(r: CarrierRow): Row {
    [ ("Carrier", Str(r.carrier)),
      ("Total Adjusters", Num(r.totalAdjusters)),
      ("Total Claims", Num(r.totalClaims)),
      ("Open Claims", Num(r.openClaims)),
      ("Resolved Claims", Num(r.resolvedClaims)),
      ("High Risk Adjusters", Num(r.highRiskAdjusters)) ]
  }

  /** Because 0 is falsy, a zero count is written as an empty field, not as "0". */
  lemma ZeroCountIsEmpty(r: CarrierRow)
    requires r.openClaims == 0
    ensures Get(CarrierRowCells(r), "Open Claims") == Num(0)
    ensures Quote(CellText(Get(CarrierRowCells(r), "Open Claims"))) == "\"\""
  {
    var k := "Open Claims";
    var cells := CarrierRowCells(r);
    assert |cells[0].0| != |k| && |cells[1].0| != |k| && |cells[2].0| != |k|;
    assert Get(cells, k) == Get(cells[1..], k);
    assert Get(cells[1..], k) == Get(cells[2..], k) by { assert cells[1..][1..] == cells[2..]; }
    assert Get(cells[2..], k) == Get(cells[3..], k) by { assert cells[2..][1..] == cells[3..]; }
    assert cells[3..][0] == (k, Num(r.openClaims));
  }

  /** A row of the interaction-history report. */
  datatype HistoryRow = HistoryRow(
    date: int,
    adjuster: string,
    carrier: string,
    kind: string,
    description: string,
    outcome: string,
    claimId: string)

  /** The object pushed for one interaction of one adjuster. */
  function HistoryRowOf(adj: Adjuster, i: Interaction): HistoryRow {
    HistoryRow(i.date, adj.name, adj.carrier, i.kind, i.description, OrElse(i.outcome, ""), OrElse(i.claimId, "N/A"))
  }

  function RowDate(r: HistoryRow): int {
    r.date
  }

  /** The rows of one adjuster's interactions, in their order. */
  function RowsOf(adj: Adjuster, list: seq<Interaction>): (r: seq<HistoryRow>)
    ensures |r| == |list|
    ensures forall j :: 0 <= j < |list| ==> r[j] == HistoryRowOf(adj, list[j])
  {
    seq(|list|, j requires 0 <= j < |list| => HistoryRowOf(adj, list[j]))
  }

  /**
   * The rows the nested loops push, adjuster by adjuster. `fetch(id)` stands
   * for the interactions of `/api/adjusters/<id>`, None when the response has
   * none.
   */
  function Collected(adjusters: seq<Adjuster>, fetch: string -> Option<seq<Interaction>>): seq<HistoryRow> {
    if |adjusters| == 0 then []
    else
      var last := adjusters[|adjusters| - 1];
      Collected(adjusters[..|adjusters| - 1], fetch)
        + (if fetch(last.id).Some? then RowsOf(last, fetch(last.id).value) else [])
  }

  /** Every interaction of every adjuster yields a row. */
  lemma {:induction false} CollectedComplete(adjusters: seq<Adjuster>, fetch: string -> Option<seq<Interaction>>, k: nat, j: nat)
    requires k < |adjusters| && fetch(adjusters[k].id).Some? && j < |fetch(adjusters[k].id).value|
    ensures HistoryRowOf(adjusters[k], fetch(adjusters[k].id).value[j]) in Collected(adjusters, fetch)
  {
    var n := |adjusters|;
    if k < n - 1 {
      CollectedComplete(adjusters[..n - 1], fetch, k, j);
    } else {
      var rows := RowsOf(adjusters[k], fetch(adjusters[k].id).value);
      assert rows[j] in rows;
    }
  }

  /** Every row comes from an interaction of one of the adjusters. */
  lemma {:induction false} CollectedSound(adjusters: seq<Adjuster>, fetch: string -> Option<seq<Interaction>>, r: HistoryRow)
    requires r in Collected(adjusters, fetch)
    ensures exists a, i :: a in adjusters && fetch(a.id).Some? && i in fetch(a.id).value && r == HistoryRowOf(a, i)
  {
    var n := |adjusters|;
    var last := adjusters[n - 1];
    if r in Collected(adjusters[..n - 1], fetch) {
      CollectedSound(adjusters[..n - 1], fetch, r);
      var a, i :| a in adjusters[..n - 1] && fetch(a.id).Some? && i in fetch(a.id).value && r == HistoryRowOf(a, i);
      assert a in adjusters;
    } else {
      var list := fetch(last.id).value;
      var j :| 0 <= j < |list| && RowsOf(last, list)[j] == r;
      assert list[j] in list;
    }
  }

  /**
   * The interaction-history report: the nested loops push one row per
   * interaction, adjuster by adjuster; the result is those rows sorted newest
   * date first.
   */
  method InteractionHistory(adjusters: seq<Adjuster>, fetch: string -> Option<seq<Interaction>>) returns (rows: seq<HistoryRow>)
    ensures SortedDesc(rows, RowDate)
    ensures multiset(rows) == multiset(Collected(adjusters, fetch))
  {
    var interactions: seq<HistoryRow> := [];
    for k := 0 to |adjusters|
      invariant interactions == Collected(adjusters[..k], fetch)
    {
      var adj := adjusters[k];
      var full := fetch(adj.id);
      assert adjusters[..k + 1][..k] == adjusters[..k];
      if full.Some? {
        var list := full.value;
        for j := 0 to |list|
          invariant interactions == Collected(adjusters[..k], fetch) + RowsOf(adj, list[..j])
        {
          assert RowsOf(adj, list[..j + 1]) == RowsOf(adj, list[..j]) + [HistoryRowOf(adj, list[j])];
          interactions := interactions + [HistoryRowOf(adj, list[j])];
        }
        assert list[..|list|] == list;
      }
    }
    assert adjusters[..|adjusters|] == adjusters;
    rows := SortDesc(interactions, RowDate);
  }

  /**
   * The object the report builds for a history row, with the report's column
   * names. The source writes the server's date text, which is never empty; the
   * model writes the decimal text of the timestamp, which is never empty either.
   */
  function HistoryRowCells(r: HistoryRow): Row {
    [ ("Date", Str(IntToString(r.date))),
      ("Adjuster", Str(r.adjuster)),
      ("Carrier", Str(r.carrier)),
      ("Type", Str(r.kind)),
      ("Description", Str(r.description)),
      ("Outcome", Str(r.outcome)),
      ("Claim ID", Str(r.claimId)) ]
  }

  /** The column names of the interaction-history export. */
  const HistoryHeaders: seq<string> := ["Date", "Adjuster", "Carrier", "Type", "Description", "Outcome", "Claim ID"]

  /**
   * The exported history file: a header line of the seven column names, then
   * one line per collected row, which reads back as that row's cells; the date
   * field is never empty.
   */
  lemma HistoryCsv(rows: seq<HistoryRow>)
    requires |rows| > 0
    ensures Headers(Map(rows, HistoryRowCells)) == HistoryHeaders
    ensures |CsvLines(Map(rows, HistoryRowCells))| == |rows| + 1
    ensures forall i :: 0 <= i < |rows| ==>
      ParseRecord(CsvLines(Map(rows, HistoryRowCells))[i + 1]) == Some(Cells(HistoryRowCells(rows[i]), HistoryHeaders))
    ensures forall i :: 0 <= i < |rows| ==> CellText(Get(HistoryRowCells(rows[i]), "Date")) != ""
  {
    var data := Map(rows, HistoryRowCells);
    assert Keys(data[0]) == HistoryHeaders;
    forall i | 0 <= i < |rows|
      ensures ParseRecord(CsvLines(data)[i + 1]) == Some(Cells(HistoryRowCells(rows[i]), HistoryHeaders))
    {
      DataLineFields(data, i);
    }
  }
}
