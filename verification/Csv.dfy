/**
 The CSV printer and the character-level CSV parser of the report engine, and exactly
 when the parser undoes the printer.
 */
module Csv {
  import opened Common

  /** A JSON cell value. A number carries its rendering; an array or object its compact JSON. */
  datatype Cell = Null | Bool(b: bool) | Number(lexeme: string) | Text(s: string) | Nested(json: string)

  type Row = map<string, Cell>

  datatype Report = Report(columns: seq<string>, rows: seq<Row>)

  const BOM: char := '\U{FEFF}'

  // ===== printing =====

  predicate IsSeparator(c: char) {
    c == ',' || c == '\n' || c == '\r'
  }

  predicate NeedsQuotes(s: string) {
    exists c :: c in s && (IsSeparator(c) || c == '"')
  }

  /** `s.replace('"', "\"\"")`. */
  function Doubled(s: string): string {
    if s == [] then [] else (if s[0] == '"' then ['"', '"'] else [s[0]]) + Doubled(s[1..])
  }

  function Quote(s: string): string {
    if NeedsQuotes(s) then ['"'] + Doubled(s) + ['"'] else s
  }

  /** The text a cell stands for. */
  function CellText(c: Cell): string {
    match c
    case Null => ""
    case Bool(b) => if b then "true" else "false"
    case Number(lexeme) => lexeme
    case Text(s) => s
    case Nested(json) => json
  }

  /** What the printer writes: only strings are quoted. */
  function CellOut(c: Cell): string {
    if c.Text? then Quote(c.s) else CellText(c)
  }

  function Joined(outs: seq<string>): string {
    if outs == [] then ""
    else if |outs| == 1 then outs[0]
    else outs[0] + [','] + Joined(outs[1..])
  }

  /** The cells of a row in column order; a missing key prints like null. */
  function CellsOf(columns: seq<string>, row: Row): (cells: seq<Cell>)
    ensures |cells| == |columns|
  {
    seq(|columns|, k requires 0 <= k < |columns| => if columns[k] in row then row[columns[k]] else Null)
  }

  function Outs(cells: seq<Cell>): (outs: seq<string>)
    ensures |outs| == |cells|
  {
    seq(|cells|, k requires 0 <= k < |cells| => CellOut(cells[k]))
  }

  function Texts(cells: seq<Cell>): (texts: seq<string>)
    ensures |texts| == |cells|
  {
    seq(|cells|, k requires 0 <= k < |cells| => CellText(cells[k]))
  }

  function HeaderCells(columns: seq<string>): (cells: seq<Cell>)
    ensures |cells| == |columns|
  {
    seq(|columns|, k requires 0 <= k < |columns| => Text(columns[k]))
  }

  /** The records of the file: the header, then one per row. */
  function RecordsOf(r: Report): seq<seq<Cell>> {
    [HeaderCells(r.columns)] + seq(|r.rows|, i requires 0 <= i < |r.rows| => CellsOf(r.columns, r.rows[i]))
  }

  function PrintRecords(records: seq<seq<Cell>>, eol: string): string {
    if records == [] then "" else Joined(Outs(records[0])) + eol + PrintRecords(records[1..], eol)
  }

  /** `to_csv` with a chosen record terminator; the printer itself writes LF. */
  function Print(r: Report, eol: string): string {
    PrintRecords(RecordsOf(r), eol)
  }

  lemma {:induction false} JoinedSnoc(outs: seq<string>, last: string)
    ensures Joined(outs + [last]) == if outs == [] then last else Joined(outs) + [','] + last
  {
    if |outs| > 0 {
      assert (outs + [last])[1..] == outs[1..] + [last];
      JoinedSnoc(outs[1..], last);
    }
  }

  method JoinOuts(cells: seq<Cell>) returns (line: string)
    ensures line == Joined(Outs(cells))
  {
    line := "";
    for k := 0 to |cells|
      invariant line == Joined(Outs(cells[..k]))
    {
      assert Outs(cells[..k + 1]) == Outs(cells[..k]) + [CellOut(cells[k])];
      JoinedSnoc(Outs(cells[..k]), CellOut(cells[k]));
      if k > 0 {
        line := line + [','];
      }
      line := line + CellOut(cells[k]);
    }
    assert cells[..|cells|] == cells;
  }

  lemma {:induction false} PrintRecordsSnoc(records: seq<seq<Cell>>, last: seq<Cell>, eol: string)
    ensures PrintRecords(records + [last], eol) == PrintRecords(records, eol) + Joined(Outs(last)) + eol
  {
    if records == [] {
      assert (records + [last])[1..] == [];
    } else {
      assert (records + [last])[1..] == records[1..] + [last];
      PrintRecordsSnoc(records[1..], last, eol);
    }
  }

  method ToCsv(res: Report) returns (s: string)
    ensures s == Print(res, "\n")
  {
    ghost var records := RecordsOf(res);
    s := JoinOuts(HeaderCells(res.columns));
    s := s + "\n";
    assert records[..1] == [HeaderCells(res.columns)];
    assert PrintRecords(records[..1], "\n") == s by {
      PrintRecordsSnoc([], HeaderCells(res.columns), "\n");
      assert [] + [HeaderCells(res.columns)] == [HeaderCells(res.columns)];
    }
    for i := 0 to |res.rows|
      invariant s == PrintRecords(records[..i + 1], "\n")
    {
      var line := JoinOuts(CellsOf(res.columns, res.rows[i]));
      assert records[..i + 2] == records[..i + 1] + [CellsOf(res.columns, res.rows[i])];
      PrintRecordsSnoc(records[..i + 1], CellsOf(res.columns, res.rows[i]), "\n");
      s := s + line;
      s := s + "\n";
    }
    assert records[..|res.rows| + 1] == records;
  }

  // ===== parsing =====

  /** The parser's variables between two characters. */
  datatype State = State(records: seq<seq<string>>, record: seq<string>, field: string, inQuotes: bool, pending: bool)

  const START := State([], [], "", false, false)

  function EndField(st: State): State {
    st.(record := st.record + [st.field], field := "", pending := false)
  }

  function EndRecord(st: State): State {
    st.(records := st.records + [st.record + [st.field]], record := [], field := "", pending := false)
  }

  /** One turn of the loop on a non-empty rest of the input: the new state and what is left. */
  function Step(st: State, s: string): (r: (State, string))
    requires s != []
    ensures |r.1| < |s|
  {
    var c := s[0];
    var doubled := |s| > 1 && s[1] == '"';
    var crlf := |s| > 1 && s[1] == '\n';
    if st.inQuotes then
      if c == '"' then
        if doubled then (st.(field := st.field + ['"']), s[2..]) else (st.(inQuotes := false), s[1..])
      else (st.(field := st.field + [c]), s[1..])
    else if c == '"' && !st.pending then (st.(inQuotes := true, pending := true), s[1..])
    else if c == ',' then (EndField(st), s[1..])
    else if c == '\r' then (EndRecord(st), if crlf then s[2..] else s[1..])
    else if c == '\n' then (EndRecord(st), s[1..])
    else (st.(field := st.field + [c], pending := true), s[1..])
  }

  function Scan(st: State, s: string): State
    decreases |s|
  {
    if s == [] then st else Scan(Step(st, s).0, Step(st, s).1)
  }

  /** Flush a last record that had no terminator. */
  function Flushed(st: State): seq<seq<string>> {
    if st.field != "" || st.record != [] then st.records + [st.record + [st.field]] else st.records
  }

  predicate Distinct(columns: seq<string>) {
    forall i, j :: 0 <= i < j < |columns| ==> columns[i] != columns[j]
  }

  /** The map built by inserting the first `n` columns in order; a short record reads as empty. */
  function RowFrom(columns: seq<string>, rec: seq<string>, n: nat): Row
    requires n <= |columns|
  {
    if n == 0 then map[]
    else RowFrom(columns, rec, n - 1)[columns[n - 1] := Text(if n - 1 < |rec| then rec[n - 1] else "")]
  }

  function Assemble(records: seq<seq<string>>): Result<Report, Error> {
    if records == [] then Err(Invalid)
    else if !Distinct(records[0]) then Err(Invalid)
    else if exists i :: 1 <= i < |records| && |records[i]| > |records[0]| then Err(Invalid)
    else
      var columns := records[0];
      Ok(Report(columns, seq(|records| - 1,
        i requires 0 <= i < |records| - 1 => RowFrom(columns, records[i + 1], |columns|))))
  }

  function WithoutBom(input: string): string {
    if input != [] && input[0] == BOM then input[1..] else input
  }

  function Parse(input: string): Result<Report, Error> {
    Assemble(Flushed(Scan(START, WithoutBom(input))))
  }

  /** The character loop of `from_csv`, with the flush of an unterminated last record. */
  method ReadRecords(text: string) returns (records: seq<seq<string>>)
    ensures records == Flushed(Scan(START, text))
  {
    records := [];
    var record: seq<string> := [];
    var field: string := "";
    var inQuotes, pending := false, false;
    var i := 0;
    while i < |text|
      invariant 0 <= i <= |text|
      invariant Scan(State(records, record, field, inQuotes, pending), text[i..]) == Scan(START, text)
    {
      ghost var st := State(records, record, field, inQuotes, pending);
      ghost var rest := text[i..];
      var c := text[i];
      var peek := if i + 1 < |text| then Some(text[i + 1]) else None;
      if inQuotes {
        if c == '"' {
          if peek == Some('"') {
            field := field + ['"'];
            i := i + 1;
          } else {
            inQuotes := false;
          }
        } else {
          field := field + [c];
        }
      } else if c == '"' && !pending {
        inQuotes, pending := true, true;
      } else if c == '"' {
        field := field + ['"'];
      } else if c == ',' {
        record, field := record + [field], "";
        pending := false;
      } else if c == '\r' {
        if peek == Some('\n') {
          i := i + 1;
        }
        records, record, field := records + [record + [field]], [], "";
        pending := false;
      } else if c == '\n' {
        records, record, field := records + [record + [field]], [], "";
        pending := false;
      } else {
        field := field + [c];
        pending := true;
      }
      i := i + 1;
      assert Step(st, rest) == (State(records, record, field, inQuotes, pending), text[i..]);
    }
    if field != "" || record != [] {
      records := records + [record + [field]];
    }
  }

  /** `from_csv`: strip the mark, read the records, check the header, build the row maps. */
  method FromCsv(input: string) returns (r: Result<Report, Error>)
    ensures r == Parse(input)
  {
    var text := input;
    if text != [] && text[0] == BOM {
      text := text[1..];
    }
    var records := ReadRecords(text);
    r := BuildReport(records);
  }

  method AllDistinct(columns: seq<string>) returns (distinct: bool)
    ensures distinct <==> Distinct(columns)
  {
    var seen: set<string> := {};
    for k := 0 to |columns|
      invariant forall x :: x in seen <==> x in columns[..k]
      invariant forall i, j :: 0 <= i < j < k ==> columns[i] != columns[j]
    {
      if columns[k] in seen {
        return false;
      }
      assert columns[..k + 1] == columns[..k] + [columns[k]];
      assert forall j :: 0 <= j < k ==> columns[j] in columns[..k];
      seen := seen + {columns[k]};
    }
    return true;
  }

  method BuildReport(records: seq<seq<string>>) returns (r: Result<Report, Error>)
    ensures r == Assemble(records)
  {
    if records == [] {
      return Err(Invalid);
    }
    var columns := records[0];
    var distinct := AllDistinct(columns);
    if !distinct {
      return Err(Invalid);
    }
    var rows: seq<Row> := [];
    for n := 1 to |records|
      invariant |rows| == n - 1
      invariant forall m :: 1 <= m < n ==>
        |records[m]| <= |columns| && rows[m - 1] == RowFrom(columns, records[m], |columns|)
    {
      var rec := records[n];
      if |rec| > |columns| {
        return Err(Invalid);
      }
      var m: Row := map[];
      for k := 0 to |columns|
        invariant m == RowFrom(columns, rec, k)
      {
        m := m[columns[k] := Text(if k < |rec| then rec[k] else "")];
      }
      rows := rows + [m];
    }
    assert rows == seq(|records| - 1, i requires 0 <= i < |records| - 1 => RowFrom(columns, records[i + 1], |columns|));
    return Ok(Report(columns, rows));
  }

  // ===== the parser undoes the printer =====

  /** What a `Cell` of a result can be: number renderings and compact JSON have this shape. */
  predicate WellFormed(c: Cell) {
    match c
    case Number(lexeme) => forall x :: x in lexeme ==> '0' <= x <= '9' || x in "+-.eE"
    case Nested(json) => json != [] && json[0] in "[{"
    case _ => true
  }

  predicate SafeCell(c: Cell) {
    c.Nested? ==> forall x :: x in c.json ==> !IsSeparator(x)
  }

  predicate WellFormedReport(r: Report) {
    forall i, k :: 0 <= i < |r.rows| && k in r.rows[i] ==> WellFormed(r.rows[i][k])
  }

  predicate SafeReport(r: Report) {
    forall i, c :: 0 <= i < |r.rows| && c in CellsOf(r.columns, r.rows[i]) ==> SafeCell(c)
  }

  /** The first column name would be printed bare and starts with a byte-order mark. */
  predicate LosesBom(columns: seq<string>) {
    columns != [] && columns[0] != "" && columns[0][0] == BOM && !NeedsQuotes(columns[0])
  }

  /** The same columns, and the text of every cell. */
  function TextReport(r: Report): Report {
    Report(r.columns, seq(|r.rows|, i requires 0 <= i < |r.rows| =>
      RowFrom(r.columns, Texts(CellsOf(r.columns, r.rows[i])), |r.columns|)))
  }

  predicate Survives(r: Report) {
    r.columns != [] && Distinct(r.columns) && !LosesBom(r.columns) && SafeReport(r)
  }

  function Fresh(records: seq<seq<string>>, record: seq<string>): State {
    State(records, record, "", false, false)
  }

  /** Bare text without separators is taken verbatim; a quote inside it is literal. */
  lemma {:induction false} ScanBare(st: State, t: string, rest: string)
    requires !st.inQuotes
    requires forall x :: x in t ==> !IsSeparator(x)
    requires st.pending || t == "" || t[0] != '"'
    ensures Scan(st, t + rest) == Scan(st.(field := st.field + t, pending := st.pending || t != ""), rest)
    decreases |t|
  {
    if t == "" {
      assert t + rest == rest;
      assert st.field + t == st.field;
    } else {
      var st' := st.(field := st.field + [t[0]], pending := true);
      assert t[0] in t && (t + rest)[1..] == t[1..] + rest;
      assert Step(st, t + rest) == (st', t[1..] + rest);
      ScanBare(st', t[1..], rest);
      assert st.field + [t[0]] + t[1..] == st.field + t;
    }
  }

  /** Doubled text up to its closing quote gives the text back. */
  lemma {:induction false} ScanQuoted(st: State, s: string, rest: string)
    requires st.inQuotes && st.pending
    requires rest != "" && rest[0] != '"'
    ensures Scan(st, Doubled(s) + ['"'] + rest) == Scan(st.(field := st.field + s, inQuotes := false), rest)
    decreases |s|
  {
    var input := Doubled(s) + ['"'] + rest;
    if s == "" {
      assert input == ['"'] + rest;
      assert input[1..] == rest;
      assert st.field + s == st.field;
      assert Step(st, input) == (st.(inQuotes := false), rest);
    } else {
      var st' := st.(field := st.field + [s[0]]);
      var tail := Doubled(s[1..]) + ['"'] + rest;
      if s[0] == '"' {
        assert input == ['"', '"'] + tail;
        assert input[2..] == tail;
      } else {
        assert input == [s[0]] + tail;
        assert input[1..] == tail;
      }
      assert Step(st, input) == (st', tail);
      ScanQuoted(st', s[1..], rest);
      assert st.field + [s[0]] + s[1..] == st.field + s;
    }
  }

  /** Any safe cell, printed and followed by a separator, leaves its text in `field`. */
  lemma ScanCell(records: seq<seq<string>>, record: seq<string>, c: Cell, rest: string)
    requires WellFormed(c) && SafeCell(c)
    requires rest != "" && IsSeparator(rest[0])
    ensures exists p :: Scan(Fresh(records, record), CellOut(c) + rest)
                     == Scan(State(records, record, CellText(c), false, p), rest)
  {
    var st := Fresh(records, record);
    var t := CellText(c);
    assert "" + t == t;
    if c.Text? && NeedsQuotes(c.s) {
      var inside := State(records, record, "", true, true);
      var tail := Doubled(c.s) + ['"'] + rest;
      assert CellOut(c) + rest == ['"'] + tail;
      assert (['"'] + tail)[1..] == tail;
      assert Step(st, ['"'] + tail) == (inside, tail);
      ScanQuoted(inside, c.s, rest);
      assert Scan(st, CellOut(c) + rest) == Scan(State(records, record, t, false, true), rest);
    } else {
      BareCell(c);
      ScanBare(st, t, rest);
      assert Scan(st, CellOut(c) + rest) == Scan(State(records, record, t, false, t != ""), rest);
    }
  }

  lemma BareCell(c: Cell)
    requires WellFormed(c) && SafeCell(c) && !(c.Text? && NeedsQuotes(c.s))
    ensures forall x :: x in CellText(c) ==> !IsSeparator(x)
    ensures CellText(c) == "" || CellText(c)[0] != '"'
  {
    if c.Text? && c.s != "" {
      assert c.s[0] in c.s;
    }
    if c.Number? && c.lexeme != "" {
      assert c.lexeme[0] in c.lexeme;
    }
  }

  predicate IsEol(eol: string) {
    eol == "\n" || eol == "\r\n"
  }

  predicate AllSafe(cells: seq<Cell>) {
    forall c :: c in cells ==> SafeCell(c)
  }

  predicate AllWellFormed(cells: seq<Cell>) {
    forall c :: c in cells ==> WellFormed(c)
  }

  lemma ScanEol(st: State, eol: string, rest: string)
    requires IsEol(eol) && !st.inQuotes
    ensures Scan(st, eol + rest) == Scan(EndRecord(st), rest)
  {
    assert (eol + rest)[|eol|..] == rest;
    assert Step(st, eol + rest) == (EndRecord(st), rest);
  }

  lemma TextsOfRest(cells: seq<Cell>, record: seq<string>)
    requires cells != []
    ensures record + [CellText(cells[0])] + Texts(cells[1..]) == record + Texts(cells)
  {
  }

  /** A record of one cell. */
  lemma ScanLastCell(records: seq<seq<string>>, record: seq<string>, c: Cell, eol: string, rest: string)
    requires IsEol(eol) && WellFormed(c) && SafeCell(c)
    ensures Scan(Fresh(records, record), CellOut(c) + (eol + rest))
      == Scan(Fresh(records + [record + [CellText(c)]], []), rest)
  {
    ScanCell(records, record, c, eol + rest);
    var p :| Scan(Fresh(records, record), CellOut(c) + (eol + rest))
      == Scan(State(records, record, CellText(c), false, p), eol + rest);
    ScanEol(State(records, record, CellText(c), false, p), eol, rest);
  }

  /** A printed record comes back as its texts. */
  lemma {:induction false} ScanRecord(
      records: seq<seq<string>>, record: seq<string>, cells: seq<Cell>, eol: string, rest: string)
    requires cells != [] && IsEol(eol) && AllWellFormed(cells) && AllSafe(cells)
    ensures Scan(Fresh(records, record), Joined(Outs(cells)) + eol + rest)
         == Scan(Fresh(records + [record + Texts(cells)], []), rest)
    decreases |cells|
  {
    var c := cells[0];
    if |cells| == 1 {
      assert Outs(cells) == [CellOut(c)];
      assert Joined(Outs(cells)) + eol + rest == CellOut(c) + (eol + rest);
      ScanLastCell(records, record, c, eol, rest);
      assert Texts(cells) == [CellText(c)];
    } else {
      SplitRecord(cells, eol, rest);
      var tail := Joined(Outs(cells[1..])) + eol + rest;
      ScanFirstCell(records, record, c, tail);
      ScanRecord(records, record + [CellText(c)], cells[1..], eol, rest);
      TextsOfRest(cells, record);
    }
  }

  lemma SplitRecord(cells: seq<Cell>, eol: string, rest: string)
    requires |cells| > 1
    ensures Joined(Outs(cells)) + eol + rest
         == CellOut(cells[0]) + ([','] + (Joined(Outs(cells[1..])) + eol + rest))
  {
    assert Outs(cells)[1..] == Outs(cells[1..]);
    assert Joined(Outs(cells)) == CellOut(cells[0]) + [','] + Joined(Outs(cells[1..]));
    Regroup(CellOut(cells[0]), Joined(Outs(cells[1..])), eol, rest);
  }

  lemma Regroup(cell: string, others: string, eol: string, rest: string)
    ensures cell + [','] + others + eol + rest == cell + ([','] + (others + eol + rest))
  {
  }

  lemma ScanFirstCell(records: seq<seq<string>>, record: seq<string>, c: Cell, tail: string)
    requires WellFormed(c) && SafeCell(c)
    ensures Scan(Fresh(records, record), CellOut(c) + ([','] + tail))
      == Scan(Fresh(records, record + [CellText(c)]), tail)
  {
    ScanCell(records, record, c, [','] + tail);
    var p :| Scan(Fresh(records, record), CellOut(c) + ([','] + tail))
      == Scan(State(records, record, CellText(c), false, p), [','] + tail);
    var st := State(records, record, CellText(c), false, p);
    assert ([','] + tail)[1..] == tail;
    assert Step(st, [','] + tail) == (EndField(st), tail);
  }

  function AllTexts(records: seq<seq<Cell>>): (texts: seq<seq<string>>)
    ensures |texts| == |records|
  {
    seq(|records|, i requires 0 <= i < |records| => Texts(records[i]))
  }

  predicate WellFormedRecords(records: seq<seq<Cell>>) {
    forall i :: 0 <= i < |records| ==> records[i] != [] && AllWellFormed(records[i])
  }

  predicate SafeRecords(records: seq<seq<Cell>>) {
    forall i :: 0 <= i < |records| ==> records[i] != [] && AllWellFormed(records[i]) && AllSafe(records[i])
  }

  lemma TextsOfFirst(records: seq<seq<Cell>>, before: seq<seq<string>>)
    requires records != []
    ensures before + [Texts(records[0])] + AllTexts(records[1..]) == before + AllTexts(records)
  {
  }

  lemma PrintsFirst(records: seq<seq<Cell>>, eol: string, rest: string)
    requires records != []
    ensures PrintRecords(records, eol) + rest
      == Joined(Outs(records[0])) + eol + (PrintRecords(records[1..], eol) + rest)
  {
  }

  lemma {:induction false} ScanRecords(before: seq<seq<string>>, records: seq<seq<Cell>>, eol: string, rest: string)
    requires IsEol(eol) && SafeRecords(records)
    ensures Scan(Fresh(before, []), PrintRecords(records, eol) + rest)
      == Scan(Fresh(before + AllTexts(records), []), rest)
    decreases |records|
  {
    if records == [] {
      assert PrintRecords(records, eol) + rest == rest;
      assert before + AllTexts(records) == before;
    } else {
      var more := PrintRecords(records[1..], eol) + rest;
      PrintsFirst(records, eol, rest);
      ScanRecord(before, [], records[0], eol, more);
      assert [] + Texts(records[0]) == Texts(records[0]);
      ScanRecords(before + [Texts(records[0])], records[1..], eol, rest);
      TextsOfFirst(records, before);
    }
  }

  /** Nothing already parsed is ever taken back. */
  lemma {:induction false} ScanKeeps(st: State, s: string)
    ensures var f := Flushed(Scan(st, s));
            && st.records <= f
            && (st.record != [] ==> |st.records| < |f| && st.record <= f[|st.records|])
    decreases |s|
  {
    if s != [] {
      ScanKeeps(Step(st, s).0, Step(st, s).1);
    }
  }

  /** Record `i` is there, has a cell `k`, and it is not `text`. */
  ghost predicate Differs(f: seq<seq<string>>, i: nat, k: nat, text: string) {
    i < |f| && k < |f[i]| && f[i][k] != text
  }

  /** An array or object holding a separator is cut there: its column reads something else. */
  lemma ScanUnsafeCell(records: seq<seq<string>>, record: seq<string>, c: Cell, rest: string)
    requires WellFormed(c) && !SafeCell(c)
    ensures Differs(Flushed(Scan(Fresh(records, record), CellOut(c) + rest)), |records|, |record|, CellText(c))
  {
    var n := FirstSeparator(c.json);
    var u, v := c.json[..n], c.json[n + 1..] + rest;
    var sep := c.json[n];
    assert CellOut(c) + rest == u + ([sep] + v);
    ScanBare(Fresh(records, record), u, [sep] + v);
    assert "" + u == u;
    var st := State(records, record, u, false, u != "");
    var (st', left) := Step(st, [sep] + v);
    ScanKeeps(st', left);
    var f := Flushed(Scan(st', left));
    assert Scan(st, [sep] + v) == Scan(st', left);
    if sep == ',' {
      assert st'.record[|record|] == u;
    } else {
      assert st'.records[|records|][|record|] == u;
    }
    assert f[|records|][|record|] == u;
    assert |u| < |c.json|;
  }

  lemma {:induction false} FirstSeparator(s: string) returns (n: nat)
    requires exists x :: x in s && IsSeparator(x)
    ensures n < |s| && IsSeparator(s[n]) && forall x :: x in s[..n] ==> !IsSeparator(x)
  {
    n := 0;
    while !IsSeparator(s[n])
      invariant n < |s| && (forall x :: x in s[..n] ==> !IsSeparator(x))
      invariant exists j :: n <= j < |s| && IsSeparator(s[j])
      decreases |s| - n
    {
      var j :| n <= j < |s| && IsSeparator(s[j]);
      n := n + 1;
    }
  }

  /** The first cell of a record and what follows it. */
  function AfterFirst(cells: seq<Cell>, eol: string, rest: string): string
    requires cells != []
  {
    if |cells| == 1 then eol + rest else [','] + (Joined(Outs(cells[1..])) + eol + rest)
  }

  lemma FirstAndRest(cells: seq<Cell>, eol: string, rest: string)
    requires cells != []
    ensures Joined(Outs(cells)) + eol + rest == CellOut(cells[0]) + AfterFirst(cells, eol, rest)
  {
    if |cells| == 1 {
      assert Outs(cells) == [CellOut(cells[0])];
    } else {
      SplitRecord(cells, eol, rest);
    }
  }

  /** The parse shows cell `k` of the record being read changed. */
  ghost predicate CellChanges(
      records: seq<seq<string>>, record: seq<string>, cells: seq<Cell>, eol: string, rest: string, k: nat)
  {
    && k < |cells|
    && Differs(Flushed(Scan(Fresh(records, record), Joined(Outs(cells)) + eol + rest)),
               |records|, |record| + k, CellText(cells[k]))
  }

  lemma FirstCellChanges(records: seq<seq<string>>, record: seq<string>, cells: seq<Cell>, eol: string, rest: string)
    requires cells != [] && WellFormed(cells[0]) && !SafeCell(cells[0])
    ensures CellChanges(records, record, cells, eol, rest, 0)
  {
    FirstAndRest(cells, eol, rest);
    ScanUnsafeCell(records, record, cells[0], AfterFirst(cells, eol, rest));
  }

  lemma LaterCellChanges(
      records: seq<seq<string>>, record: seq<string>, cells: seq<Cell>, eol: string, rest: string, m: nat)
    requires |cells| > 1 && WellFormed(cells[0]) && SafeCell(cells[0])
    requires CellChanges(records, record + [CellText(cells[0])], cells[1..], eol, rest, m)
    ensures CellChanges(records, record, cells, eol, rest, m + 1)
  {
    FirstAndRest(cells, eol, rest);
    ScanFirstCell(records, record, cells[0], Joined(Outs(cells[1..])) + eol + rest);
  }

  lemma {:induction false} ScanUnsafeRecord(
      records: seq<seq<string>>, record: seq<string>, cells: seq<Cell>, eol: string, rest: string)
    returns (k: nat)
    requires IsEol(eol) && AllWellFormed(cells) && !AllSafe(cells)
    ensures CellChanges(records, record, cells, eol, rest, k)
    decreases |cells|
  {
    if !SafeCell(cells[0]) {
      FirstCellChanges(records, record, cells, eol, rest);
      k := 0;
    } else {
      var c :| c in cells && !SafeCell(c);
      assert c in cells[1..];
      var m := ScanUnsafeRecord(records, record + [CellText(cells[0])], cells[1..], eol, rest);
      LaterCellChanges(records, record, cells, eol, rest, m);
      k := m + 1;
    }
  }

  lemma UnsafeTail(records: seq<seq<Cell>>)
    requires WellFormedRecords(records) && !SafeRecords(records) && AllSafe(records[0])
    ensures WellFormedRecords(records[1..]) && !SafeRecords(records[1..])
  {
    var i :| 0 <= i < |records| && !AllSafe(records[i]);
    assert records[1..][i - 1] == records[i];
  }

  lemma SafeRecordFirst(before: seq<seq<string>>, records: seq<seq<Cell>>, eol: string)
    requires IsEol(eol) && WellFormedRecords(records) && records != [] && records[0] != [] && AllSafe(records[0])
    ensures Scan(Fresh(before, []), PrintRecords(records, eol))
      == Scan(Fresh(before + [Texts(records[0])], []), PrintRecords(records[1..], eol))
  {
    ScanRecord(before, [], records[0], eol, PrintRecords(records[1..], eol));
    assert [] + Texts(records[0]) == Texts(records[0]);
  }

  /** The parse of the records shows cell `k` of record `i` changed. */
  ghost predicate ShowsChange(before: seq<seq<string>>, records: seq<seq<Cell>>, eol: string, i: nat, k: nat) {
    && i < |records| && k < |records[i]|
    && Differs(Flushed(Scan(Fresh(before, []), PrintRecords(records, eol))), |before| + i, k, CellText(records[i][k]))
  }

  lemma ChangeInFirst(before: seq<seq<string>>, records: seq<seq<Cell>>, eol: string) returns (k: nat)
    requires IsEol(eol) && WellFormedRecords(records) && records != [] && !AllSafe(records[0])
    ensures ShowsChange(before, records, eol, 0, k)
  {
    k := ScanUnsafeRecord(before, [], records[0], eol, PrintRecords(records[1..], eol));
  }

  lemma ChangeInLater(before: seq<seq<string>>, records: seq<seq<Cell>>, eol: string, i: nat, k: nat)
    requires IsEol(eol) && WellFormedRecords(records) && records != [] && records[0] != [] && AllSafe(records[0])
    requires ShowsChange(before + [Texts(records[0])], records[1..], eol, i, k)
    ensures ShowsChange(before, records, eol, i + 1, k)
  {
    SafeRecordFirst(before, records, eol);
    assert records[1..][i] == records[i + 1];
  }

  lemma {:induction false} ScanUnsafeRecords(
      before: seq<seq<string>>, records: seq<seq<Cell>>, eol: string)
    returns (i: nat, k: nat)
    requires IsEol(eol) && WellFormedRecords(records) && !SafeRecords(records)
    ensures ShowsChange(before, records, eol, i, k)
    decreases |records|
  {
    if !AllSafe(records[0]) {
      i := 0;
      k := ChangeInFirst(before, records, eol);
    } else {
      UnsafeTail(records);
      var j;
      j, k := ScanUnsafeRecords(before + [Texts(records[0])], records[1..], eol);
      i := j + 1;
      ChangeInLater(before, records, eol, j, k);
    }
  }

  // ---- row maps ----

  lemma {:induction false} RowLookup(columns: seq<string>, rec: seq<string>, n: nat, k: nat)
    requires Distinct(columns) && k < n <= |columns|
    ensures columns[k] in RowFrom(columns, rec, n)
    ensures RowFrom(columns, rec, n)[columns[k]] == Text(if k < |rec| then rec[k] else "")
    decreases n
  {
    if k < n - 1 {
      RowLookup(columns, rec, n - 1, k);
    }
  }

  // ---- the theorem ----

  lemma RecordsWellFormed(r: Report)
    requires WellFormedReport(r)
    ensures forall i :: 0 <= i < |RecordsOf(r)| ==> AllWellFormed(RecordsOf(r)[i]) && |RecordsOf(r)[i]| == |r.columns|
    ensures r.columns != [] ==> (SafeRecords(RecordsOf(r)) <==> SafeReport(r))
  {
    var rs := RecordsOf(r);
    forall i | 0 <= i < |rs|
      ensures AllWellFormed(rs[i]) && |rs[i]| == |r.columns|
    {
    }
    assert AllSafe(rs[0]);
    if SafeReport(r) {
      forall i | 1 <= i < |rs|
        ensures AllSafe(rs[i])
      {
        assert rs[i] == CellsOf(r.columns, r.rows[i - 1]);
      }
    }
    if SafeRecords(rs) {
      forall i, c | 0 <= i < |r.rows| && c in CellsOf(r.columns, r.rows[i])
        ensures SafeCell(c)
      {
        assert c in rs[i + 1];
      }
    }
  }

  lemma HeaderTexts(columns: seq<string>)
    ensures Texts(HeaderCells(columns)) == columns
  {
  }

  /** The mark is stripped exactly when the first column shows it bare. */
  lemma BomStripped(r: Report, eol: string)
    requires IsEol(eol)
    ensures WithoutBom(Print(r, eol)) != Print(r, eol) <==> LosesBom(r.columns)
  {
    var rs := RecordsOf(r);
    var line := Joined(Outs(rs[0]));
    assert Print(r, eol) == line + eol + PrintRecords(rs[1..], eol);
    if r.columns != [] {
      assert Outs(rs[0])[0] == Quote(r.columns[0]);
      if r.columns[0] != "" {
        assert r.columns[0][0] in r.columns[0];
        assert line[0] == Quote(r.columns[0])[0];
      }
    }
  }

  /** The records a reader of the file sees: the first name is short of a bare mark. */
  function SeenRecords(r: Report): seq<seq<Cell>> {
    var rs := RecordsOf(r);
    if LosesBom(r.columns) then rs[0 := rs[0][0 := Text(r.columns[0][1..])]] else rs
  }

  lemma SeenPrint(r: Report, eol: string)
    requires IsEol(eol)
    ensures WithoutBom(Print(r, eol)) == PrintRecords(SeenRecords(r), eol)
  {
    BomStripped(r, eol);
    if LosesBom(r.columns) {
      SeenHeader(r);
      var rs, seen := RecordsOf(r), SeenRecords(r);
      assert seen[1..] == rs[1..];
      TailOfLine(Joined(Outs(rs[0])), eol, PrintRecords(rs[1..], eol));
    }
  }

  lemma TailOfLine(line: string, eol: string, more: string)
    requires line != []
    ensures (line + eol + more)[1..] == line[1..] + eol + more
  {
  }

  /** The header line without its mark is the line of the shortened first name. */
  lemma SeenHeader(r: Report)
    requires LosesBom(r.columns)
    ensures Joined(Outs(RecordsOf(r)[0]))[1..] == Joined(Outs(SeenRecords(r)[0])) && Joined(Outs(RecordsOf(r)[0])) != []
  {
    var rs, seen := RecordsOf(r), SeenRecords(r);
    forall x | x in r.columns[0][1..]
      ensures !IsSeparator(x) && x != '"'
    {
      assert x in r.columns[0];
    }
    assert Outs(rs[0])[0] == r.columns[0] && Outs(seen[0])[0] == r.columns[0][1..];
    assert Outs(rs[0])[1..] == Outs(seen[0])[1..];
  }

  /** The header a bare mark leaves behind is not the header that was printed. */
  lemma MarkedHeader(r: Report, eol: string)
    requires IsEol(eol) && LosesBom(r.columns)
    ensures var f := Flushed(Scan(START, WithoutBom(Print(r, eol)))); f != [] && f[0] != r.columns
  {
    var header := SeenRecords(r)[0];
    var more := PrintRecords(SeenRecords(r)[1..], eol);
    SeenPrint(r, eol);
    ScanRecord([], [], header, eol, more);
    assert [] + Texts(header) == Texts(header);
    assert [] + [Texts(header)] == [Texts(header)];
    ScanKeeps(Fresh([Texts(header)], []), more);
    assert Texts(header)[0] == r.columns[0][1..];
  }

  /** With safe cells the parser sees exactly the printed texts, whichever terminator is used. */
  lemma ParsedTexts(r: Report, eol: string)
    requires IsEol(eol) && WellFormedReport(r) && r.columns != [] && SafeReport(r)
    ensures Parse(Print(r, eol)) == Assemble(AllTexts(SeenRecords(r)))
  {
    var rs := SeenRecords(r);
    RecordsWellFormed(r);
    SeenPrint(r, eol);
    assert SafeRecords(rs);
    ScanRecords([], rs, eol, "");
    assert PrintRecords(rs, eol) + "" == PrintRecords(rs, eol);
    assert [] + AllTexts(rs) == AllTexts(rs);
  }

  lemma AssembledTexts(r: Report)
    requires r.columns != [] && Distinct(r.columns)
    ensures Assemble(AllTexts(RecordsOf(r))) == Ok(TextReport(r))
  {
    var texts := AllTexts(RecordsOf(r));
    RecordTexts(r);
    var out := Assemble(texts).value;
    assert |out.rows| == |r.rows|;
    assert forall i :: 0 <= i < |r.rows| ==> out.rows[i] == RowFrom(r.columns, texts[i + 1], |r.columns|);
    assert out.rows == TextReport(r).rows;
  }

  lemma RecordTexts(r: Report)
    ensures var texts := AllTexts(RecordsOf(r));
      && |texts| == |r.rows| + 1 && texts[0] == r.columns
      && (forall i :: 0 <= i < |r.rows| ==> texts[i + 1] == Texts(CellsOf(r.columns, r.rows[i])))
      && (forall i :: 1 <= i < |texts| ==> |texts[i]| == |r.columns|)
  {
    var texts := AllTexts(RecordsOf(r));
    HeaderTexts(r.columns);
    forall i | 0 <= i < |r.rows|
      ensures texts[i + 1] == Texts(CellsOf(r.columns, r.rows[i]))
    {
      assert RecordsOf(r)[i + 1] == CellsOf(r.columns, r.rows[i]);
    }
    assert forall i :: 1 <= i < |texts| ==> texts[i] == texts[(i - 1) + 1];
  }

  lemma SurvivorsComeBack(r: Report, eol: string)
    requires IsEol(eol) && WellFormedReport(r) && Survives(r)
    ensures Parse(Print(r, eol)) == Ok(TextReport(r))
  {
    ParsedTexts(r, eol);
    AssembledTexts(r);
  }

  /** No columns: the empty header line reads as one column named "". */
  lemma NoColumnsHeader(r: Report, eol: string)
    requires IsEol(eol) && r.columns == []
    ensures var f := Flushed(Scan(START, WithoutBom(Print(r, eol)))); f != [] && f[0] != r.columns
  {
    var more := PrintRecords(RecordsOf(r)[1..], eol);
    BomStripped(r, eol);
    assert Print(r, eol) == eol + more;
    ScanEol(START, eol, more);
    ScanKeeps(EndRecord(START), more);
  }

  lemma PlainHeader(r: Report, eol: string)
    requires IsEol(eol) && r.columns != [] && !LosesBom(r.columns)
    ensures var f := Flushed(Scan(START, WithoutBom(Print(r, eol)))); f != [] && f[0] == r.columns
  {
    var header := HeaderCells(r.columns);
    var more := PrintRecords(RecordsOf(r)[1..], eol);
    BomStripped(r, eol);
    assert Print(r, eol) == Joined(Outs(header)) + eol + more;
    HeaderTexts(r.columns);
    ScanRecord([], [], header, eol, more);
    assert [] + Texts(header) == r.columns;
    assert [] + [r.columns] == [r.columns];
    ScanKeeps(Fresh([r.columns], []), more);
  }

  /** One cell that reads differently makes its row a different row. */
  lemma DifferentRow(r: Report, f: seq<seq<string>>, i: nat, k: nat)
    requires r.columns != [] && Distinct(r.columns) && f != [] && f[0] == r.columns
    requires i < |r.rows| && k < |r.columns| && Differs(f, i + 1, k, CellText(CellsOf(r.columns, r.rows[i])[k]))
    ensures Assemble(f) != Ok(TextReport(r))
  {
    if Assemble(f).Ok? {
      var out := Assemble(f).value;
      var texts := Texts(CellsOf(r.columns, r.rows[i]));
      RowLookup(r.columns, f[i + 1], |r.columns|, k);
      RowLookup(r.columns, texts, |r.columns|, k);
      assert out.rows[i][r.columns[k]] != TextReport(r).rows[i][r.columns[k]];
    }
  }

  /** A change is in a row, the header having come back. */
  lemma ChangeInRow(r: Report, f: seq<seq<string>>, i: nat, k: nat) returns (n: nat)
    requires f != [] && f[0] == r.columns && i < |RecordsOf(r)| && k < |RecordsOf(r)[i]|
    requires Differs(f, i, k, CellText(RecordsOf(r)[i][k]))
    ensures n < |r.rows| && k < |r.columns| && Differs(f, n + 1, k, CellText(CellsOf(r.columns, r.rows[n])[k]))
  {
    assert forall j :: 0 <= j < |r.columns| ==> CellText(RecordsOf(r)[0][j]) == r.columns[j];
    n := i - 1;
  }

  lemma UnsafeCellDiffers(r: Report, eol: string)
    requires IsEol(eol) && WellFormedReport(r) && !SafeReport(r) && r.columns != [] && Distinct(r.columns)
    requires !LosesBom(r.columns)
    requires Flushed(Scan(START, Print(r, eol))) != [] && Flushed(Scan(START, Print(r, eol)))[0] == r.columns
    ensures Assemble(Flushed(Scan(START, Print(r, eol)))) != Ok(TextReport(r))
  {
    var f := Flushed(Scan(START, Print(r, eol)));
    RecordsWellFormed(r);
    var i, k := ScanUnsafeRecords([], RecordsOf(r), eol);
    var n := ChangeInRow(r, f, i, k);
    DifferentRow(r, f, n, k);
  }

  lemma OthersDoNot(r: Report, eol: string)
    requires IsEol(eol) && WellFormedReport(r) && !Survives(r)
    ensures Parse(Print(r, eol)) != Ok(TextReport(r))
  {
    if r.columns == [] {
      NoColumnsHeader(r, eol);
    } else if LosesBom(r.columns) {
      MarkedHeader(r, eol);
    } else {
      PlainHeader(r, eol);
      BomStripped(r, eol);
      if Distinct(r.columns) {
        UnsafeCellDiffers(r, eol);
      }
    }
  }

  /**
   The round trip, for every result: the same columns and cell texts come back if and only
   if there is a column, the names are distinct, the first does not show a bare byte-order
   mark, and no array or object cell has a separator in its JSON.
   */
  lemma RoundTripIff(r: Report)
    requires WellFormedReport(r)
    ensures Parse(Print(r, "\n")) == Ok(TextReport(r)) <==> Survives(r)
  {
    if Survives(r) {
      SurvivorsComeBack(r, "\n");
    } else {
      OthersDoNot(r, "\n");
    }
  }

  /** CRLF instead of LF at every record end gives the same parse, errors included. */
  lemma CrlfSameParse(r: Report)
    requires WellFormedReport(r) && r.columns != [] && SafeReport(r)
    ensures Parse(Print(r, "\r\n")) == Parse(Print(r, "\n"))
  {
    ParsedTexts(r, "\n");
    ParsedTexts(r, "\r\n");
  }

  lemma {:induction false} ScanInside(st: State, s: string)
    requires st.inQuotes && '"' !in s
    ensures Scan(st, s) == st.(field := st.field + s)
    decreases |s|
  {
    if s != "" {
      assert s[0] in s;
      ScanInside(st.(field := st.field + [s[0]]), s[1..]);
      assert st.field + [s[0]] + s[1..] == st.field + s;
    } else {
      assert st.field + s == st.field;
    }
  }

  /**
   One row under two columns, whose first cell opens a quote after a comma and does not close
   it, as `["x,"]` does with `["x` before the comma and `]` after the quote.
   */
  function OpenQuote(a: string, b: string, before: string, after: string): Report {
    Report([a, b], [map[a := Nested(before + [','] + ['"'] + after)]])
  }

  /** Bare text, then a comma and a quote, read to the end of the file. */
  lemma OpenQuoteScan(records: seq<seq<string>>, before: string, tail: string)
    requires before != "" && before[0] != '"' && (forall x :: x in before ==> !IsSeparator(x)) && '"' !in tail
    ensures Scan(Fresh(records, []), before + ([','] + (['"'] + tail))) == State(records, [before], tail, true, true)
  {
    var rest := ['"'] + tail;
    ScanBare(Fresh(records, []), before, [','] + rest);
    assert "" + before == before && "" + tail == tail;
    var st := State(records, [], before, false, true);
    assert ([','] + rest)[1..] == rest && rest[1..] == tail;
    assert [] + [before] == [before];
    assert Step(st, [','] + rest) == (Fresh(records, [before]), rest);
    assert Step(Fresh(records, [before]), rest) == (State(records, [before], "", true, true), tail);
    ScanInside(State(records, [before], "", true, true), tail);
  }

  lemma OpenQuotePrint(a: string, b: string, before: string, after: string, eol: string)
    requires a != b
    ensures Print(OpenQuote(a, b, before, after), eol)
      == Joined(Outs(HeaderCells([a, b]))) + eol + (before + ([','] + (['"'] + (after + [','] + eol))))
  {
    var r := OpenQuote(a, b, before, after);
    var cells, json := CellsOf(r.columns, r.rows[0]), before + [','] + ['"'] + after;
    assert Outs(cells) == [json, ""] && Outs(cells)[1..] == [""];
    assert RecordsOf(r) == [HeaderCells([a, b]), cells] && RecordsOf(r)[1..] == [cells];
    assert Joined([json, ""]) == json + [','] + "";
    PrintRecordsSnoc([], cells, eol);
    assert [] + [cells] == [cells];
    assert json + [','] + "" + eol == before + ([','] + (['"'] + (after + [','] + eol)));
  }

  lemma TwoRecords(header: seq<string>, before: string, tail: string)
    requires tail != ""
    ensures Flushed(State([header], [before], tail, true, true)) == [header, [before, tail]]
  {
    assert [before] + [tail] == [before, tail] && [header] + [[before, tail]] == [header, [before, tail]];
  }

  lemma OpenQuoteParse(a: string, b: string, before: string, after: string, eol: string)
    requires a != b && !LosesBom([a, b]) && IsEol(eol)
    requires before != "" && before[0] != '"' && (forall x :: x in before ==> !IsSeparator(x)) && '"' !in after
    ensures Parse(Print(OpenQuote(a, b, before, after), eol)) == Assemble([[a, b], [before, after + [','] + eol]])
  {
    var header := HeaderCells([a, b]);
    var tail := after + [','] + eol;
    BomStripped(OpenQuote(a, b, before, after), eol);
    OpenQuotePrint(a, b, before, after, eol);
    ScanRecord([], [], header, eol, before + ([','] + (['"'] + tail)));
    assert [] + Texts(header) == [a, b] && [] + [[a, b]] == [[a, b]];
    OpenQuoteScan([[a, b]], before, tail);
    TwoRecords([a, b], before, tail);
  }

  /** There the terminator matters: it ends up in the text of the second cell. */
  lemma CrlfParseDiffers(a: string, b: string, before: string, after: string)
    requires a != b && !LosesBom([a, b])
    requires before != "" && before[0] != '"' && (forall x :: x in before ==> !IsSeparator(x)) && '"' !in after
    ensures var r := OpenQuote(a, b, before, after); Parse(Print(r, "\r\n")) != Parse(Print(r, "\n"))
  {
    OpenQuoteParse(a, b, before, after, "\n");
    OpenQuoteParse(a, b, before, after, "\r\n");
    DifferentCells([a, b], before, after + [','] + "\n", after + [','] + "\r\n");
  }

  lemma DifferentCells(columns: seq<string>, first: string, x: string, y: string)
    requires |columns| == 2 && Distinct(columns) && x != y
    ensures Assemble([columns, [first, x]]) != Assemble([columns, [first, y]])
  {
    RowLookup(columns, [first, x], 2, 1);
    RowLookup(columns, [first, y], 2, 1);
    var p, q := Assemble([columns, [first, x]]), Assemble([columns, [first, y]]);
    assert p.value.rows[0][columns[1]] != q.value.rows[0][columns[1]];
  }

  /** A two-element array in a cell is enough to break the round trip. */
  lemma ArrayCellBreaks()
    ensures var r := Report(["a"], [map["a" := Nested("[1,2]")]]);
            WellFormedReport(r) && Parse(Print(r, "\n")) != Ok(TextReport(r))
  {
    var r := Report(["a"], [map["a" := Nested("[1,2]")]]);
    var cells := CellsOf(r.columns, r.rows[0]);
    assert cells[0] == Nested("[1,2]") && Nested("[1,2]") in cells;
    assert !SafeCell(Nested("[1,2]")) by {
      assert "[1,2]"[2] == ',' && ',' in "[1,2]";
    }
    assert !Survives(r);
    OthersDoNot(r, "\n");
  }

  /** The cell text under each column is the text of the value, empty when absent or null. */
  lemma TextReportCells(r: Report, i: nat, k: nat)
    requires Distinct(r.columns) && i < |r.rows| && k < |r.columns|
    ensures var col, out := r.columns[k], TextReport(r).rows[i];
            && col in out
            && out[col] == Text(if col in r.rows[i] then CellText(r.rows[i][col]) else "")
  {
    RowLookup(r.columns, Texts(CellsOf(r.columns, r.rows[i])), |r.columns|, k);
  }

  /**
   Printed and parsed, a result has under each of its columns exactly this text: `true` or `false`
   for a boolean, the rendering of a number, a string itself, the JSON of an array or object, and
   nothing for null or for a row without the column.
   */
  lemma CellsComeBack(r: Report, i: nat, k: nat)
    requires WellFormedReport(r) && Survives(r) && i < |r.rows| && k < |r.columns|
    ensures var parsed := Parse(Print(r, "\n"));
      && parsed.Ok? && parsed.value.columns == r.columns && |parsed.value.rows| == |r.rows|
      && r.columns[k] in parsed.value.rows[i]
    ensures var col := r.columns[k]; var text := Parse(Print(r, "\n")).value.rows[i][col];
      && (col !in r.rows[i] ==> text == Text(""))
      && (col in r.rows[i] ==>
            match r.rows[i][col]
            case Null => text == Text("")
            case Bool(true) => text == Text("true")
            case Bool(false) => text == Text("false")
            case Number(lexeme) => text == Text(lexeme)
            case Text(s) => text == Text(s)
            case Nested(json) => text == Text(json))
  {
    RoundTripIff(r);
    TextReportCells(r, i, k);
  }

  /** A return ends the record with or without a newline after it, and takes only that newline along. */
  lemma ReturnEndsRecord(st: State, rest: string)
    requires !st.inQuotes
    ensures var done := State(st.records + [st.record + [st.field]], [], "", false, false);
      && Scan(st, "\r\n" + rest) == Scan(done, rest)
      && (rest == "" || rest[0] != '\n' ==> Scan(st, "\r" + rest) == Scan(done, rest))
  {
    assert ("\r\n" + rest)[2..] == rest && ("\r" + rest)[1..] == rest;
  }
}
