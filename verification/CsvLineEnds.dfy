/** Exactly when a printed report parses alike with CRLF and with LF at its record ends. */
module CsvLineEnds {
  import opened Common
  import opened Csv

  // ===== cells and records do not end in a carriage return =====

  /** Compact JSON of an array or object closes with its bracket. */
  predicate Closes(c: Cell) {
    c.Nested? ==> c.json != [] && c.json[|c.json| - 1] in "]}"
  }

  predicate BracketedReport(r: Report) {
    forall i, k :: 0 <= i < |r.rows| && k in r.rows[i] ==> Closes(r.rows[i][k])
  }

  predicate NoTrailingReturn(s: string) {
    s != "" ==> s[|s| - 1] != '\r'
  }

  lemma CellTail(c: Cell)
    requires WellFormed(c) && Closes(c)
    ensures NoTrailingReturn(CellOut(c))
  {
    var out := CellOut(c);
    if c.Text? && !NeedsQuotes(c.s) && c.s != "" {
      assert c.s[|c.s| - 1] in c.s;
    }
    if c.Number? && c.lexeme != "" {
      assert c.lexeme[|c.lexeme| - 1] in c.lexeme;
    }
  }

  predicate Plain(cells: seq<Cell>) {
    forall c :: c in cells ==> WellFormed(c) && Closes(c)
  }

  lemma {:induction false} RecordTail(cells: seq<Cell>)
    requires Plain(cells)
    ensures NoTrailingReturn(Joined(Outs(cells)))
    decreases |cells|
  {
    if cells != [] {
      CellTail(cells[0]);
      RecordTail(cells[1..]);
      assert Outs(cells)[1..] == Outs(cells[1..]) && Outs(cells)[0] == CellOut(cells[0]);
    }
  }

  // ===== reading up to a record end =====

  predicate EndsRecord(tail: string) {
    tail != "" && (tail[0] == '\n' || tail[0] == '\r')
  }

  lemma StepThrough(st: State, body: string, tail: string)
    requires body != "" && NoTrailingReturn(body) && EndsRecord(tail)
    ensures Step(st, body + tail) == (Step(st, body).0, Step(st, body).1 + tail)
    ensures NoTrailingReturn(Step(st, body).1)
  {
    assert (body + tail)[0] == body[0] && (body + tail)[1..] == body[1..] + tail;
    if |body| == 1 {
      assert (body + tail)[1] == tail[0];
    } else {
      assert (body + tail)[1] == body[1] && (body + tail)[2..] == body[2..] + tail;
    }
  }

  /** What is read up to a record end does not depend on what follows. */
  lemma {:induction false} ScanThrough(st: State, body: string, tail: string)
    requires NoTrailingReturn(body) && EndsRecord(tail)
    ensures Scan(st, body + tail) == Scan(Scan(st, body), tail)
    decreases |body|
  {
    if body == "" {
      assert body + tail == tail;
    } else {
      StepThrough(st, body, tail);
      ScanThrough(Step(st, body).0, Step(st, body).1, tail);
    }
  }

  /** Inside quotes a record end is text. */
  lemma EolInside(st: State, eol: string, rest: string)
    requires IsEol(eol) && st.inQuotes
    ensures Scan(st, eol + rest) == Scan(st.(field := st.field + eol), rest)
  {
    var input := eol + rest;
    if eol == "\n" {
      assert input[1..] == rest && [input[0]] == eol;
    } else {
      var st' := st.(field := st.field + ['\r']);
      assert input[0] == '\r' && input[1..] == "\n" + rest && input[1..][1..] == rest;
      assert Step(st, input) == (st', "\n" + rest);
      assert Step(st', "\n" + rest) == (st'.(field := st'.field + ['\n']), rest);
      assert st.field + ['\r'] + ['\n'] == st.field + eol;
    }
  }

  /** The state after a record's text and its end. */
  function Ended(s: State, eol: string): State {
    if s.inQuotes then s.(field := s.field + eol) else EndRecord(s)
  }

  lemma ScanLine(st: State, records: seq<seq<Cell>>, eol: string)
    requires records != [] && Plain(records[0]) && IsEol(eol)
    ensures Scan(st, PrintRecords(records, eol))
      == Scan(Ended(Scan(st, Joined(Outs(records[0]))), eol), PrintRecords(records[1..], eol))
  {
    var body, rest := Joined(Outs(records[0])), PrintRecords(records[1..], eol);
    var s := Scan(st, body);
    RecordTail(records[0]);
    assert body + eol + rest == body + (eol + rest);
    ScanThrough(st, body, eol + rest);
    if s.inQuotes {
      EolInside(s, eol, rest);
    } else {
      ScanEol(s, eol, rest);
    }
  }

  predicate AllPlain(records: seq<seq<Cell>>) {
    forall i :: 0 <= i < |records| ==> Plain(records[i])
  }

  /** No record's text ends inside quotes, reading from `st`. */
  predicate ClosedEnds(st: State, records: seq<seq<Cell>>)
    decreases |records|
  {
    records == []
    || (var s := Scan(st, Joined(Outs(records[0])));
        !s.inQuotes && ClosedEnds(EndRecord(s), records[1..]))
  }

  /** Then the record ends make no difference. */
  lemma {:induction false} ClosedReadAlike(st: State, records: seq<seq<Cell>>)
    requires AllPlain(records) && ClosedEnds(st, records)
    ensures Scan(st, PrintRecords(records, "\r\n")) == Scan(st, PrintRecords(records, "\n"))
    decreases |records|
  {
    if records != [] {
      ScanLine(st, records, "\n");
      ScanLine(st, records, "\r\n");
      ClosedReadAlike(EndRecord(Scan(st, Joined(Outs(records[0])))), records[1..]);
    }
  }

  // ===== otherwise one field shows which it was =====

  /** The field being read only grows. */
  lemma {:induction false} FieldGrows(st: State, s: string)
    requires st.field != ""
    ensures var f := Flushed(Scan(st, s));
      |st.records| < |f| && |st.record| < |f[|st.records|]| && st.field <= f[|st.records|][|st.record|]
    decreases |s|
  {
    if s != "" {
      var (st', left) := Step(st, s);
      if st'.records == st.records && st'.record == st.record {
        FieldGrows(st', left);
      } else {
        ScanKeeps(st', left);
      }
    }
  }

  /** Two parses whose cell `j` of record `i` begins with a text and then each its own record end. */
  ghost predicate PartAt(lf: seq<seq<string>>, crlf: seq<seq<string>>, i: nat, j: nat, text: string) {
    && i < |lf| && j < |lf[i]| && text + "\n" <= lf[i][j]
    && i < |crlf| && j < |crlf[i]| && text + "\r\n" <= crlf[i][j]
  }

  lemma PartDiffer(lf: seq<seq<string>>, crlf: seq<seq<string>>, i: nat, j: nat, text: string)
    requires PartAt(lf, crlf, i, j, text)
    ensures lf[i][j] != crlf[i][j]
  {
    assert lf[i][j][|text|] == (text + "\n")[|text|] == '\n';
    assert crlf[i][j][|text|] == (text + "\r\n")[|text|] == '\r';
  }

  lemma {:induction false} OpenEndsPart(st: State, records: seq<seq<Cell>>) returns (i: nat, j: nat, text: string)
    requires AllPlain(records) && !ClosedEnds(st, records)
    ensures PartAt(Flushed(Scan(st, PrintRecords(records, "\n"))), Flushed(Scan(st, PrintRecords(records, "\r\n"))),
      i, j, text)
    ensures i >= |st.records|
    decreases |records|
  {
    var s := Scan(st, Joined(Outs(records[0])));
    ScanLine(st, records, "\n");
    ScanLine(st, records, "\r\n");
    ScanOnlyAdds(st, Joined(Outs(records[0])));
    if s.inQuotes {
      FieldGrows(Ended(s, "\n"), PrintRecords(records[1..], "\n"));
      FieldGrows(Ended(s, "\r\n"), PrintRecords(records[1..], "\r\n"));
      i, j, text := |s.records|, |s.record|, s.field;
    } else {
      i, j, text := OpenEndsPart(EndRecord(s), records[1..]);
    }
  }

  lemma {:induction false} ScanOnlyAdds(st: State, s: string)
    ensures st.records <= Scan(st, s).records
    decreases |s|
  {
    if s != "" {
      ScanOnlyAdds(Step(st, s).0, Step(st, s).1);
    }
  }

  // ===== either way the records have the same shape =====

  predicate SameLengths(f: seq<seq<string>>, g: seq<seq<string>>) {
    |f| == |g| && forall i :: 0 <= i < |f| ==> |f[i]| == |g[i]|
  }

  predicate SameShape(a: State, b: State) {
    && SameLengths(a.records, b.records) && |a.record| == |b.record|
    && (a.field == "" <==> b.field == "") && a.inQuotes == b.inQuotes && a.pending == b.pending
  }

  lemma StepShape(a: State, b: State, s: string)
    requires SameShape(a, b) && s != ""
    ensures SameShape(Step(a, s).0, Step(b, s).0) && Step(a, s).1 == Step(b, s).1
  {
  }

  lemma {:induction false} ScanShape(a: State, b: State, s: string)
    requires SameShape(a, b)
    ensures SameShape(Scan(a, s), Scan(b, s))
    decreases |s|
  {
    if s != "" {
      StepShape(a, b, s);
      ScanShape(Step(a, s).0, Step(b, s).0, Step(a, s).1);
    }
  }

  lemma {:induction false} RecordsShape(a: State, b: State, records: seq<seq<Cell>>)
    requires SameShape(a, b) && AllPlain(records)
    ensures SameShape(Scan(a, PrintRecords(records, "\n")), Scan(b, PrintRecords(records, "\r\n")))
    decreases |records|
  {
    if records != [] {
      var body := Joined(Outs(records[0]));
      ScanLine(a, records, "\n");
      ScanLine(b, records, "\r\n");
      ScanShape(a, b, body);
      RecordsShape(Ended(Scan(a, body), "\n"), Ended(Scan(b, body), "\r\n"), records[1..]);
    }
  }

  lemma AssembleShape(f: seq<seq<string>>, g: seq<seq<string>>)
    requires SameLengths(f, g) && f != [] && f[0] == g[0]
    ensures Assemble(f).Err? <==> Assemble(g).Err?
  {
  }

  lemma AssembleDiffers(f: seq<seq<string>>, g: seq<seq<string>>, i: nat, j: nat)
    requires SameLengths(f, g) && 1 <= i < |f| && j < |f[i]| && f[i][j] != g[i][j] && f[0] == g[0]
    requires Assemble(f).Ok? && Assemble(g).Ok?
    ensures Assemble(f) != Assemble(g)
  {
    var columns := f[0];
    RowLookup(columns, f[i], |columns|, j);
    RowLookup(columns, g[i], |columns|, j);
    assert Assemble(f).value.rows[i - 1] == RowFrom(columns, f[i], |columns|);
    assert Assemble(g).value.rows[i - 1] == RowFrom(columns, g[i], |columns|);
  }

  // ===== the whole file =====

  lemma SeenArePlain(r: Report)
    requires WellFormedReport(r) && BracketedReport(r)
    ensures AllPlain(SeenRecords(r)) && SeenRecords(r) != [] && AllSafe(SeenRecords(r)[0])
  {
    var rs, seen := RecordsOf(r), SeenRecords(r);
    RecordsWellFormed(r);
    forall i | 0 <= i < |rs|
      ensures Plain(rs[i])
    {
      if i > 0 {
        assert rs[i] == CellsOf(r.columns, r.rows[i - 1]);
      }
    }
    forall i | 1 <= i < |seen|
      ensures Plain(seen[i])
    {
      assert seen[i] == rs[i];
    }
  }

  /** The header ends outside quotes. */
  lemma HeaderCloses(header: seq<Cell>)
    requires Plain(header) && AllSafe(header)
    ensures !Scan(START, Joined(Outs(header))).inQuotes
  {
    var body := Joined(Outs(header));
    if header != [] && Scan(START, body).inQuotes {
      ScanRecord([], [], header, "\n", "");
      assert body + "\n" + "" == body + ("\n" + "");
      RecordTail(header);
      ScanThrough(START, body, "\n" + "");
      EolInside(Scan(START, body), "\n", "");
      assert false;
    }
  }

  /** After the header both parses are in one state, with the header as their first record. */
  lemma AfterHeader(r: Report) returns (st: State)
    requires WellFormedReport(r) && BracketedReport(r)
    ensures var seen := SeenRecords(r);
      && seen != [] && AllPlain(seen[1..]) && |st.records| == 1
      && (ClosedEnds(START, seen) <==> ClosedEnds(st, seen[1..]))
      && (forall eol :: IsEol(eol) ==>
            WithoutBom(Print(r, eol)) == PrintRecords(seen, eol)
            && Scan(START, PrintRecords(seen, eol)) == Scan(st, PrintRecords(seen[1..], eol)))
  {
    var seen := SeenRecords(r);
    SeenArePlain(r);
    HeaderCloses(seen[0]);
    st := EndRecord(Scan(START, Joined(Outs(seen[0]))));
    HeaderIsOneRecord(seen[0]);
    forall eol | IsEol(eol)
      ensures WithoutBom(Print(r, eol)) == PrintRecords(seen, eol)
      ensures Scan(START, PrintRecords(seen, eol)) == Scan(st, PrintRecords(seen[1..], eol))
    {
      SeenPrint(r, eol);
      ScanLine(START, seen, eol);
    }
  }

  lemma HeaderIsOneRecord(header: seq<Cell>)
    requires Plain(header) && AllSafe(header) && !Scan(START, Joined(Outs(header))).inQuotes
    ensures |EndRecord(Scan(START, Joined(Outs(header)))).records| == 1
  {
    var body := Joined(Outs(header));
    if header != [] {
      ScanRecord([], [], header, "\n", "");
      assert body + "\n" + "" == body + ("\n" + "");
      RecordTail(header);
      ScanThrough(START, body, "\n" + "");
      ScanEol(Scan(START, body), "\n", "");
    }
  }

  /** What the parser makes of the two files, from the state after the header. */
  lemma OpenEndsDiffer(st: State, records: seq<seq<Cell>>)
    requires AllPlain(records) && |st.records| == 1 && !ClosedEnds(st, records)
    ensures var f := Flushed(Scan(st, PrintRecords(records, "\n")));
      var g := Flushed(Scan(st, PrintRecords(records, "\r\n")));
      (Assemble(f) == Assemble(g)) <==> Assemble(f).Err?
  {
    var f := Flushed(Scan(st, PrintRecords(records, "\n")));
    var g := Flushed(Scan(st, PrintRecords(records, "\r\n")));
    RecordsShape(st, st, records);
    ScanKeeps(st, PrintRecords(records, "\n"));
    ScanKeeps(st, PrintRecords(records, "\r\n"));
    assert f[0] == st.records[0] == g[0];
    AssembleShape(f, g);
    var i, j, text := OpenEndsPart(st, records);
    PartDiffer(f, g, i, j, text);
    if Assemble(f).Ok? {
      AssembleDiffers(f, g, i, j);
    } else {
      OneError(f);
      OneError(g);
    }
  }

  lemma OneError(f: seq<seq<string>>)
    ensures Assemble(f).Err? ==> Assemble(f) == Err(Invalid)
  {
  }

  /**
   With CRLF for LF at its record ends a printed report parses alike, errors included, iff it
   does not parse at all or no record's text ends inside quotes.
   */
  lemma CrlfSameIff(r: Report)
    requires WellFormedReport(r) && BracketedReport(r)
    ensures Parse(Print(r, "\r\n")) == Parse(Print(r, "\n"))
      <==> Parse(Print(r, "\n")).Err? || ClosedEnds(START, SeenRecords(r))
  {
    var st := AfterHeader(r);
    var rest := SeenRecords(r)[1..];
    if ClosedEnds(st, rest) {
      ClosedReadAlike(st, rest);
    } else {
      OpenEndsDiffer(st, rest);
    }
  }
}
