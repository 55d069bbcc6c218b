/** usuarios.txt as text: one printed row per line, read back line by line with sscanf
    (the db_* functions) or in one free-running fscanf scan (get_user_info). */
module Rows {
  import opened Text

  datatype Row = Row(name: string, connected: int, ip: string, port: int, lastId: nat) {
    /** The values the five scanf conversions can deliver, and so the rows that can be printed back. */
    predicate Fits() {
      IsToken(name, 255) && IsInt32(connected) && IsToken(ip, 19) && IsInt32(port) && IsUint32(lastId)
    }
  }

  predicate AllFit(rows: seq<Row>) {
    forall i :: 0 <= i < |rows| ==> rows[i].Fits()
  }

  /** snprintf(…, "%s %d %s %d %u\n", …) before any truncation. */
  function PrintRow(r: Row): (s: string) {
    r.name + " " + Dec(r.connected) + " " + r.ip + " " + Dec(r.port) + " " + Dec(r.lastId) + "\n"
  }

  function PrintRows(rows: seq<Row>): string {
    if rows == [] then "" else PrintRows(rows[..|rows| - 1]) + PrintRow(rows[|rows| - 1])
  }

  /** scanf with "%255s %d %19s %d %u" when all five conversions succeed: the row and the input left. */
  function ScanRow(s: string): (r: Option<(Row, string)>)
    ensures r.Some? ==> r.value.0.Fits() && |r.value.1| < |s|
  {
    var (name, s1) :- ScanToken(s, 255);
    var (connected, s2) :- ScanInt(s1);
    var (ip, s3) :- ScanToken(s2, 19);
    var (port, s4) :- ScanInt(s3);
    var (lastId, s5) :- ScanInt(s4);
    Some((Row(name, ToInt32(connected), ip, ToInt32(port), ToUint32(lastId)), s5))
  }

  const LINE_BUFFER: nat := 512

  /** How many bytes read_line_sys takes from s: up to and including a newline, at most max. */
  function LineLength(s: string, max: nat): (n: nat)
    ensures n <= |s| && n <= max
    ensures s != "" && max > 0 ==> n > 0
  {
    if s == "" || max == 0 then 0
    else if s[0] == '\n' then 1
    else 1 + LineLength(s[1..], max - 1)
  }

  function ParseLine(line: string): (rows: seq<Row>)
    ensures AllFit(rows)
  {
    match ScanRow(line)
    case None => []
    case Some((row, _)) => [row]
  }

  /** The rows the line-by-line readers see; lines that do not parse are skipped. */
  function RowsOf(u: string): (rows: seq<Row>)
    ensures AllFit(rows)
    decreases |u|
  {
    if u == "" then []
    else
      var n := LineLength(u, LINE_BUFFER - 1);
      ParseLine(u[..n]) + RowsOf(u[n..])
  }

  /** The rows the fscanf loop sees: it stops at the first failed conversion. */
  function StreamRows(u: string): (rows: seq<Row>)
    decreases |u|
  {
    match ScanRow(u)
    case None => []
    case Some((row, rest)) => [row] + StreamRows(rest)
  }

  function FindFirst(rows: seq<Row>, name: string): (r: Option<Row>)
    ensures r.None? <==> forall i :: 0 <= i < |rows| ==> rows[i].name != name
    ensures r.Some? ==> r.value in rows && r.value.name == name
  {
    if rows == [] then None else if rows[0].name == name then Some(rows[0]) else FindFirst(rows[1..], name)
  }

  function FindLast(rows: seq<Row>, name: string): (r: Option<Row>)
    ensures r.None? <==> forall i :: 0 <= i < |rows| ==> rows[i].name != name
    ensures r.Some? ==> r.value in rows && r.value.name == name
  {
    if rows == [] then None
    else
      var last := rows[|rows| - 1];
      if last.name == name then Some(last) else FindLast(rows[..|rows| - 1], name)
  }

  /** The free-running scan stops at the first row with the name, the others keep the last. */
  lemma {:induction false} FirstAndLast(rows: seq<Row>, i: nat, k: nat)
    requires i < |rows| && k < |rows| && rows[i].name == rows[k].name
    requires forall j :: 0 <= j < i ==> rows[j].name != rows[i].name
    requires forall j :: k < j < |rows| ==> rows[j].name != rows[i].name
    ensures FindFirst(rows, rows[i].name) == Some(rows[i])
    ensures FindLast(rows, rows[i].name) == Some(rows[k])
  {
    FindsFirst(rows, i);
    FindsLast(rows, k);
  }

  lemma {:induction false} FindsFirst(rows: seq<Row>, i: nat)
    requires i < |rows| && forall j :: 0 <= j < i ==> rows[j].name != rows[i].name
    ensures FindFirst(rows, rows[i].name) == Some(rows[i])
  {
    if i > 0 {
      FindsFirst(rows[1..], i - 1);
    }
  }

  lemma {:induction false} FindsLast(rows: seq<Row>, k: nat)
    requires k < |rows| && forall j :: k < j < |rows| ==> rows[j].name != rows[k].name
    ensures FindLast(rows, rows[k].name) == Some(rows[k])
  {
    if k < |rows| - 1 {
      FindsLast(rows[..|rows| - 1], k);
    }
  }

  /** A line longer than the buffer is read in pieces of 511 bytes. */
  lemma LongLineIsCut(u: string)
    requires |u| >= 511 && forall i :: 0 <= i < 511 ==> u[i] != '\n'
    ensures RowsOf(u) == ParseLine(u[..511]) + RowsOf(u[511..])
  {
    NoNewline(u, 511);
  }

  lemma {:induction false} NoNewline(s: string, max: nat)
    requires max <= |s| && forall i :: 0 <= i < max ==> s[i] != '\n'
    ensures LineLength(s, max) == max
  {
    if max > 0 {
      NoNewline(s[1..], max - 1);
    }
  }

  // ------------------------------------------------------------ printing

  lemma PrintedRowLength(r: Row)
    requires r.Fits()
    ensures |PrintRow(r)| <= 311
  {
    DecLengths(r.connected);
    DecLengths(r.port);
    DecLengths(r.lastId);
  }

  lemma {:induction false} PrintRowsConcat(a: seq<Row>, b: seq<Row>)
    ensures PrintRows(a + b) == PrintRows(a) + PrintRows(b)
  {
    hide PrintRow;
    if b == [] {
      assert a + b == a;
    } else {
      var b', line := b[..|b| - 1], PrintRow(b[|b| - 1]);
      PrintRowsConcat(a, b');
      assert (a + b)[..|a + b| - 1] == a + b';
      assert PrintRows(a) + (PrintRows(b') + line) == (PrintRows(a) + PrintRows(b')) + line;
    }
  }

  lemma PrintRowsFirst(rows: seq<Row>)
    requires rows != []
    ensures PrintRows(rows) == PrintRow(rows[0]) + PrintRows(rows[1..])
  {
    assert rows == [rows[0]] + rows[1..];
    PrintRowsConcat([rows[0]], rows[1..]);
  }

  // ---------------------------------------------------------- round trips

  lemma PrintedRowNested(a: string, b: string, c: string, d: string, e: string, t: string)
    ensures a + " " + b + " " + c + " " + d + " " + e + "\n" + t
         == a + (" " + (b + (" " + (c + (" " + (d + (" " + (e + ("\n" + t)))))))))
  {
    var e' := " " + (e + ("\n" + t));
    assert " " + e + "\n" + t == e';
    var d' := " " + (d + e');
    assert " " + d + " " + e + "\n" + t == d';
    var c' := " " + (c + d');
    assert " " + c + " " + d + " " + e + "\n" + t == c';
  }

  lemma ScanPrintedRow(r: Row, s: string, t: string)
    requires r.Fits()
    requires SkipSpaces(s) == PrintRow(r) + t
    ensures ScanRow(s) == Some((r, "\n" + t))
  {
    var s5 := "\n" + t;
    var s4 := " " + (Dec(r.lastId) + s5);
    var s3 := " " + (Dec(r.port) + s4);
    var s2 := " " + (r.ip + s3);
    var s1 := " " + (Dec(r.connected) + s2);
    assert PrintRow(r) + t == r.name + s1 by {
      hide Dec;
      PrintedRowNested(r.name, Dec(r.connected), r.ip, Dec(r.port), Dec(r.lastId), t);
    }
    hide ScanToken, ScanInt, SkipSpaces, Dec, PrintRow;
    ScanTokenWhole(s, r.name, s1, 255);
    ScanNextInt(r.connected, s2);
    ScanNextToken(r.ip, s3, 19);
    ScanNextInt(r.port, s4);
    ScanNextInt(r.lastId, s5);
  }

  lemma {:induction false} LineLengthWhole(line: string, rest: string, max: nat)
    requires line != "" && line[|line| - 1] == '\n' && |line| <= max
    requires forall i :: 0 <= i < |line| - 1 ==> line[i] != '\n'
    ensures LineLength(line + rest, max) == |line|
  {
    if |line| > 1 {
      assert (line + rest)[1..] == line[1..] + rest;
      LineLengthWhole(line[1..], rest, max - 1);
    }
  }

  lemma PrintedRowStart(r: Row, rest: string)
    requires r.Fits()
    ensures PrintRow(r) != "" && !IsSpace((PrintRow(r) + rest)[0])
  {
    assert PrintRow(r)[0] == r.name[0] && r.name[0] in r.name;
  }

  /** No newline inside a printed row. */
  lemma PrintedRowIsOneLine(r: Row)
    requires r.Fits()
    ensures var line := PrintRow(r);
            line[|line| - 1] == '\n' && forall i :: 0 <= i < |line| - 1 ==> line[i] != '\n'
  {
    var body := r.name + " " + Dec(r.connected) + " " + r.ip + " " + Dec(r.port) + " " + Dec(r.lastId);
    assert PrintRow(r) == body + "\n";
    assert forall c :: c in body ==>
      c in r.name || c in Dec(r.connected) || c in r.ip || c in Dec(r.port) || c in Dec(r.lastId) || c == ' ';
    assert '\n' !in body;
  }

  /** The 512-byte reader and sscanf give back the printed row and leave the rest of the file. */
  lemma RowRoundTrip(r: Row, rest: string)
    requires r.Fits()
    ensures LineLength(PrintRow(r) + rest, LINE_BUFFER - 1) == |PrintRow(r)| < LINE_BUFFER
    ensures ParseLine(PrintRow(r)) == [r]
    ensures RowsOf(PrintRow(r) + rest) == [r] + RowsOf(rest)
  {
    var line := PrintRow(r);
    PrintedRowIsOneLine(r);
    PrintedRowLength(r);
    LineLengthWhole(line, rest, LINE_BUFFER - 1);
    assert line[0] == r.name[0] && r.name[0] in r.name;
    assert line + "" == line;
    ScanPrintedRow(r, line, "");
    assert (line + rest)[..|line|] == line && (line + rest)[|line|..] == rest;
  }

  /** Splitting a concatenation of printed rows gives back exactly those rows. */
  lemma {:induction false} RowsOfPrinted(rows: seq<Row>)
    requires AllFit(rows)
    ensures RowsOf(PrintRows(rows)) == rows
  {
    hide PrintRow;
    if rows != [] {
      PrintRowsFirst(rows);
      RowRoundTrip(rows[0], PrintRows(rows[1..]));
      RowsOfPrinted(rows[1..]);
    }
  }

  /** The fscanf scan and the line reader agree on every table of printed rows. The Readers
      module settles the tables that hold lines of names that are not one word. */
  lemma {:induction false} ReadersAgree(rows: seq<Row>)
    requires AllFit(rows)
    ensures StreamRows(PrintRows(rows)) == rows == RowsOf(PrintRows(rows))
  {
    RowsOfPrinted(rows);
    StreamRowsPrinted(PrintRows(rows), rows);
  }

  lemma NothingToScan(s: string)
    requires s == "" || s == "\n"
    ensures ScanRow(s).None?
  {
    assert SkipSpaces("") == "" && (s != "" ==> s[1..] == "");
  }

  lemma SkipNothing(s: string)
    requires s == "" || !IsSpace(s[0])
    ensures SkipSpaces(s) == s
  {
  }

  lemma {:induction false} StreamRowsPrinted(s: string, rows: seq<Row>)
    requires AllFit(rows)
    requires s == PrintRows(rows) || s == "\n" + PrintRows(rows)
    ensures StreamRows(s) == rows
    decreases |rows|
  {
    hide PrintRow, ScanRow, SkipSpaces;
    var p := PrintRows(rows);
    if rows == [] {
      NothingToScan(s);
    } else {
      var r, tail := rows[0], PrintRows(rows[1..]);
      PrintRowsFirst(rows);
      PrintedRowStart(r, tail);
      SkipOneSpace('\n', p);
      assert SkipSpaces(p) == p by { SkipNothing(p); }
      ScanPrintedRow(r, s, tail);
      StreamRowsPrinted("\n" + tail, rows[1..]);
    }
  }
}
