/** The two ways usuarios.txt is read, on every table the store can write: the db_* functions
    go on after a line that does not parse, the fscanf scan of get_user_info stops there. */
module Readers {
  import opened Text
  import opened Rows
  import opened Files
  import S = MessageStore

  // ------------------------------------------------ texts that end a line

  predicate Ends(s: string) {
    s != "" && s[|s| - 1] == '\n'
  }

  predicate Blank(s: string) {
    SkipSpaces(s) == ""
  }

  /** Complete lines, each of which fits the line buffer. */
  predicate WholeLines(u: string)
    decreases |u|
  {
    u == "" ||
    (var n := LineLength(u, LINE_BUFFER - 1); u[n - 1] == '\n' && WholeLines(u[n..]))
  }

  /** What the fscanf scan has not read when it stops. */
  function StreamRest(u: string): (r: string)
    ensures ScanRow(r).None?
    decreases |u|
  {
    match ScanRow(u)
    case None => u
    case Some((_, rest)) => StreamRest(rest)
  }

  /** Both scans read the same rows, and the fscanf scan stops only at the end. */
  predicate InStep(u: string) {
    StreamRows(u) == RowsOf(u) && Blank(StreamRest(u))
  }

  lemma {:induction false} LineLengthThen(u: string, t: string, max: nat)
    requires u != "" && max > 0
    requires u[LineLength(u, max) - 1] == '\n'
    ensures LineLength(u + t, max) == LineLength(u, max)
  {
    if u[0] != '\n' {
      assert (u + t)[1..] == u[1..] + t;
      if |u| > 1 && max > 1 {
        LineLengthThen(u[1..], t, max - 1);
      }
    }
  }

  lemma Parts(u: string, t: string, n: nat)
    requires n <= |u|
    ensures (u + t)[..n] == u[..n] && (u + t)[n..] == u[n..] + t
  {
  }

  /** The line reader reads whole lines independently of what follows. */
  lemma {:induction false} RowsOfThen(u: string, t: string)
    requires WholeLines(u)
    ensures RowsOf(u + t) == RowsOf(u) + RowsOf(t)
    decreases |u|
  {
    hide LineLength, ParseLine;
    if u == "" {
      assert u + t == t;
    } else {
      var n := LineLength(u, LINE_BUFFER - 1);
      LineLengthThen(u, t, LINE_BUFFER - 1);
      Parts(u, t, n);
      RowsOfThen(u[n..], t);
      assert ParseLine(u[..n]) + RowsOf(u[n..]) + RowsOf(t) == ParseLine(u[..n]) + (RowsOf(u[n..]) + RowsOf(t));
    }
  }

  lemma {:induction false} WholeLinesThen(u: string, t: string)
    requires WholeLines(u) && WholeLines(t)
    ensures WholeLines(u + t)
    decreases |u|
  {
    if u == "" {
      assert u + t == t;
    } else {
      var n := LineLength(u, LINE_BUFFER - 1);
      LineLengthThen(u, t, LINE_BUFFER - 1);
      assert (u + t)[n..] == u[n..] + t;
      WholeLinesThen(u[n..], t);
    }
  }

  lemma {:induction false} LineLengthShort(s: string, max: nat)
    requires Ends(s) && |s| <= max
    ensures LineLength(s, max) > 0 && s[LineLength(s, max) - 1] == '\n'
  {
    if s[0] != '\n' {
      LineLengthShort(s[1..], max - 1);
    }
  }

  /** A text that fits the buffer and ends a line is whole lines, whatever newlines it holds. */
  lemma {:induction false} ShortIsWhole(s: string)
    requires s == "" || Ends(s)
    requires |s| <= LINE_BUFFER - 1
    ensures WholeLines(s)
    decreases |s|
  {
    if s != "" {
      LineLengthShort(s, LINE_BUFFER - 1);
      ShortIsWhole(s[LineLength(s, LINE_BUFFER - 1)..]);
    }
  }

  // ----------------------------------- a conversion and what follows a line

  lemma {:induction false} SkipThen(s: string, t: string)
    ensures SkipSpaces(s + t) == if Blank(s) then SkipSpaces(t) else SkipSpaces(s) + t
    ensures Ends(s) && !Blank(s) ==> Ends(SkipSpaces(s))
  {
    if s == "" {
      assert s + t == t;
    } else {
      assert (s + t)[1..] == s[1..] + t;
      if IsSpace(s[0]) {
        SkipThen(s[1..], t);
      }
    }
  }

  lemma {:induction false} TokenThen(s: string, t: string, max: nat)
    requires Ends(s)
    ensures TokenLength(s + t, max) == TokenLength(s, max) < |s|
  {
    if max > 0 && !EndsToken(s[0]) {
      assert (s + t)[1..] == s[1..] + t;
      assert |s| > 1;
      TokenThen(s[1..], t, max - 1);
    }
  }

  lemma ScanTokenThen(s: string, t: string, max: nat)
    requires Ends(s) && !Blank(s)
    ensures match ScanToken(s, max)
            case None => ScanToken(s + t, max).None?
            case Some((tok, rest)) => Ends(rest) && ScanToken(s + t, max) == Some((tok, rest + t))
  {
    hide SkipSpaces, TokenLength;
    var u := SkipSpaces(s);
    SkipThen(s, t);
    TokenThen(u, t, max);
    Parts(u, t, TokenLength(u, max));
  }

  lemma {:induction false} DigitsThen(s: string, t: string, acc: nat)
    requires Ends(s)
    ensures var (v, rest) := ScanDigits(s, acc);
      Ends(rest) && ScanDigits(s + t, acc) == (v, rest + t)
  {
    if IsDigit(s[0]) {
      assert (s + t)[1..] == s[1..] + t;
      assert |s| > 1;
      DigitsThen(s[1..], t, 10 * acc + (s[0] as int - '0' as int));
    }
  }

  lemma ScanIntThen(s: string, t: string)
    requires Ends(s) && ScanInt(s).Some?
    ensures Ends(ScanInt(s).value.1)
    ensures ScanInt(s + t) == Some((ScanInt(s).value.0, ScanInt(s).value.1 + t))
  {
    hide ScanDigits, SkipSpaces;
    SkipThen(s, t);
    var v := SkipSpaces(s);
    assert SkipSpaces(s + t) == v + t;
    var u := if v[0] == '-' || v[0] == '+' then v[1..] else v;
    assert (v + t)[1..] == v[1..] + t;
    assert (u + t)[1..] == u[1..] + t;
    assert Ends(u[1..]);
    DigitsThen(u[1..], t, u[0] as int - '0' as int);
  }

  lemma BlankScans(s: string, max: nat)
    requires Blank(s)
    ensures ScanToken(s, max).None? && ScanInt(s).None?
  {
  }

  /** A row scanned from a text that ends a line is scanned the same whatever follows. */
  lemma ScanRowThen(s: string, t: string)
    requires Ends(s) && ScanRow(s).Some?
    ensures Ends(ScanRow(s).value.1)
    ensures ScanRow(s + t) == Some((ScanRow(s).value.0, ScanRow(s).value.1 + t))
  {
    hide ScanToken, ScanInt;
    if Blank(s) { BlankScans(s, 255); }
    ScanTokenThen(s, t, 255);
    var (name, s1) := ScanToken(s, 255).value;
    ScanIntThen(s1, t);
    var (connected, s2) := ScanInt(s1).value;
    if Blank(s2) { BlankScans(s2, 19); }
    ScanTokenThen(s2, t, 19);
    var (ip, s3) := ScanToken(s2, 19).value;
    ScanIntThen(s3, t);
    var (port, s4) := ScanInt(s3).value;
    ScanIntThen(s4, t);
  }

  lemma {:induction false} StreamThen(s: string, t: string)
    requires Ends(s)
    ensures StreamRows(s + t) == StreamRows(s) + StreamRows(StreamRest(s) + t)
    ensures StreamRest(s + t) == StreamRest(StreamRest(s) + t)
    ensures Ends(StreamRest(s))
    decreases |s|
  {
    hide ScanRow;
    if ScanRow(s).Some? {
      var (row, rest) := ScanRow(s).value;
      ScanRowThen(s, t);
      StreamThen(rest, t);
      assert [row] + StreamRows(rest) + StreamRows(StreamRest(rest) + t) ==
        [row] + (StreamRows(rest) + StreamRows(StreamRest(rest) + t));
    }
  }

  /** White space in front changes nothing but the text left when nothing scans. */
  lemma BlankThen(s: string, t: string)
    requires Blank(s)
    ensures StreamRows(s + t) == StreamRows(t)
    ensures Blank(StreamRest(s + t)) <==> Blank(StreamRest(t))
  {
    SkipThen(s, t);
    assert ScanToken(s + t, 255) == ScanToken(t, 255);
    assert ScanRow(s + t) == ScanRow(t);
  }

  /** What a second text adds to a table that is in step. */
  lemma InStepThen(u: string, t: string)
    requires WholeLines(u) && InStep(u)
    ensures StreamRows(u + t) == RowsOf(u) + StreamRows(t)
    ensures RowsOf(u + t) == RowsOf(u) + RowsOf(t)
    ensures InStep(u + t) <==> InStep(t)
  {
    RowsOfThen(u, t);
    hide RowsOf, StreamRows, WholeLines;
    if u == "" {
      assert u + t == t;
      assert RowsOf("") == [] by { EmptyTableRows(); }
    } else {
      WholeEnds(u);
      StreamThen(u, t);
      BlankThen(StreamRest(u), t);
    }
    if RowsOf(u) + StreamRows(t) == RowsOf(u) + RowsOf(t) {
      assert (RowsOf(u) + StreamRows(t))[|RowsOf(u)|..] == StreamRows(t);
    }
  }

  lemma EmptyTableRows()
    ensures RowsOf("") == []
  {
  }

  lemma {:induction false} WholeEnds(u: string)
    requires WholeLines(u) && u != ""
    ensures Ends(u)
    decreases |u|
  {
    var n := LineLength(u, LINE_BUFFER - 1);
    if u[n..] != "" {
      WholeEnds(u[n..]);
    }
  }

  // --------------------------------------- the tables the store can write

  /** usuarios.txt after these names were appended by db_register. */
  function Registered(names: seq<string>): string {
    if names == [] then "" else RegisterLine(names[0]) + Registered(names[1..])
  }

  lemma RegisterLineIsWhole(name: string)
    requires |name| <= 255
    ensures WholeLines(RegisterLine(name)) && Ends(RegisterLine(name))
  {
    ShortIsWhole(RegisterLine(name));
  }

  lemma {:induction false} PrintedInStep(rows: seq<Row>)
    requires Rows.AllFit(rows)
    ensures WholeLines(PrintRows(rows)) && InStep(PrintRows(rows)) && RowsOf(PrintRows(rows)) == rows
  {
    hide PrintRow, RowsOf, StreamRows, StreamRest;
    if rows == [] {
      NothingInStep();
    } else {
      PrintRowsFirst(rows);
      RowInStep(rows[0]);
      PrintedInStep(rows[1..]);
      WholeLinesThen(PrintRow(rows[0]), PrintRows(rows[1..]));
      InStepThen(PrintRow(rows[0]), PrintRows(rows[1..]));
    }
  }

  lemma NothingInStep()
    ensures InStep("") && RowsOf("") == []
  {
    NothingToScan("");
  }

  lemma RowInStep(r: Row)
    requires r.Fits()
    ensures WholeLines(PrintRow(r)) && InStep(PrintRow(r)) && RowsOf(PrintRow(r)) == [r]
  {
    hide RowsOf, PrintRow, ScanRow;
    PrintedRowIsOneLine(r);
    PrintedRowLength(r);
    ShortIsWhole(PrintRow(r));
    RowRoundTrip(r, "");
    assert PrintRow(r) + "" == PrintRow(r);
    EmptyTableRows();
    PrintedRowStart(r, "");
    SkipNothing(PrintRow(r));
    ScanPrintedRow(r, PrintRow(r), "");
    assert "\n" + "" == "\n";
    NothingToScan("\n");
    assert StreamRest("\n") == "\n" && StreamRows("\n") == [];
    assert "\n"[1..] == "";
  }

  predicate AllTokens(names: seq<string>) {
    forall i :: 0 <= i < |names| ==> IsToken(names[i], 255)
  }

  function NewRows(names: seq<string>): (rows: seq<Row>)
    ensures |rows| == |names|
  {
    seq(|names|, i requires 0 <= i < |names| => Row(names[i], 0, S.NO_IP, 0, 0))
  }

  lemma NewRowPrinted(user: string)
    requires IsToken(user, 255)
    ensures var row := Row(user, 0, S.NO_IP, 0, 0);
            row.Fits() && PrintRow(row) == RegisterLine(user)
  {
    assert !IsSpace('0') && !IsSpace('.');
    assert Dec(0) == "0";
    assert " 0 0.0.0.0 0 0\n" == " " + "0" + " " + S.NO_IP + " " + "0" + " " + "0" + "\n";
  }

  /** Names of one word are appended as printed rows. */
  lemma {:induction false} RegisteredIsPrinted(names: seq<string>)
    requires AllTokens(names)
    ensures Rows.AllFit(NewRows(names)) && Registered(names) == PrintRows(NewRows(names))
  {
    hide PrintRow, RegisterLine, IsToken, Row.Fits;
    if names != [] {
      NewRowPrinted(names[0]);
      RegisteredIsPrinted(names[1..]);
      PrintRowsFirst(NewRows(names));
      assert NewRows(names)[1..] == NewRows(names[1..]);
      assert NewRows(names) == [NewRows(names)[0]] + NewRows(names[1..]);
    }
  }

  ghost predicate Agree(u: string) {
    StreamRows(u) == RowsOf(u)
  }

  /** The two scans agree now and after any further registrations of one-word names if and only
      if the table is in step. */
  lemma {:induction false} AgreeIffInStep(u: string)
    requires WholeLines(u)
    ensures (forall later :: AllTokens(later) ==> Agree(u + Registered(later))) <==> InStep(u)
  {
    hide RowsOf, StreamRows, StreamRest, WholeLines, RegisterLine;
    if InStep(u) {
      forall later | AllTokens(later) ensures Agree(u + Registered(later)) {
        RegisteredIsPrinted(later);
        PrintedInStep(NewRows(later));
        InStepThen(u, Registered(later));
      }
    }
    if forall later :: AllTokens(later) ==> Agree(u + Registered(later)) {
      assert u + Registered([]) == u && AllTokens([]);
      assert Agree(u);
      if !Blank(StreamRest(u)) {
        StuckScanMissesARow(u);
      }
    }
  }

  lemma FirstScanned(s: string)
    requires StreamRows(s) != []
    ensures ScanToken(s, 255).Some? && StreamRows(s)[0].name == ScanToken(s, 255).value.0
  {
  }

  /** Behind a text that the fscanf scan cannot get past, some new user's row is not read. */
  lemma StuckScanMissesARow(u: string)
    requires WholeLines(u) && Agree(u) && !Blank(StreamRest(u))
    ensures exists later :: AllTokens(later) && !Agree(u + Registered(later))
  {
    hide RowsOf, StreamRows, StreamRest, WholeLines, RegisterLine, ScanToken;
    if u == "" {
      NothingInStep();
    }
    WholeEnds(u);
    var r := StreamRest(u);
    StreamThen(u, "");
    assert u + "" == u && r + "" == r;
    var tok := ScanToken(r, 255);
    var name := if tok.Some? && tok.value.0 == "x" then "y" else "x";
    var later := [name];
    var t := Registered(later);
    assert AllTokens(later);
    RegisteredIsPrinted(later);
    PrintedInStep(NewRows(later));
    RowsOfThen(u, t);
    StreamThen(u, t);
    ScanTokenThen(r, t, 255);
    if Agree(u + t) {
      assert (StreamRows(u) + StreamRows(r + t))[|RowsOf(u)|..] == NewRows(later);
      FirstScanned(r + t);
    }
  }

  // ---------------------------------------------- histories of the table

  /** The two ways a db_* function writes the table. */
  datatype Write = Added(name: string) | Rewrote(op: Rewrite)

  predicate WriteFits(w: Write) {
    match w
    case Added(name) => IsCString(name, 255)
    case Rewrote(op) => OpFits(op)
  }

  predicate AllWritesFit(ws: seq<Write>) {
    forall i :: 0 <= i < |ws| ==> WriteFits(ws[i])
  }

  function After(u: string, w: Write): string {
    match w
    case Added(name) => u + RegisterLine(name)
    case Rewrote(op) => PrintRows(RewriteRows(op, RowsOf(u)))
  }

  /** The table after these writes, from the empty one. */
  function Written(ws: seq<Write>): string {
    if ws == [] then "" else After(Written(ws[..|ws| - 1]), ws[|ws| - 1])
  }

  lemma {:induction false} RewriteFits(op: Rewrite, rows: seq<Row>)
    requires Rows.AllFit(rows) && OpFits(op)
    ensures Rows.AllFit(RewriteRows(op, rows))
  {
    if rows != [] {
      var last := rows[|rows| - 1];
      RewriteFits(op, rows[..|rows| - 1]);
      assert !IsSpace('0') && !IsSpace('.');
      assert forall q :: q in RewriteRow(op, last) ==> q.Fits();
    }
  }

  lemma {:induction false} WrittenIsWhole(ws: seq<Write>)
    requires AllWritesFit(ws)
    ensures WholeLines(Written(ws))
  {
    hide RegisterLine, PrintRows, RewriteRows, RowsOf, WholeLines;
    if ws == [] {
      PrintedInStep([]);
      assert PrintRows([]) == "" by { NothingPrinted(); }
    } else {
      var before, w := Written(ws[..|ws| - 1]), ws[|ws| - 1];
      WrittenIsWhole(ws[..|ws| - 1]);
      if w.Added? {
        RegisterLineIsWhole(w.name);
        WholeLinesThen(before, RegisterLine(w.name));
      } else {
        RewriteFits(w.op, RowsOf(before));
        PrintedInStep(RewriteRows(w.op, RowsOf(before)));
      }
    }
  }

  lemma NothingPrinted()
    ensures PrintRows([]) == ""
  {
  }

  /** A rewrite puts any table in step; a registration keeps a table in step if and only if its
      own line is. */
  lemma WriteInStep(u: string, w: Write)
    requires WholeLines(u) && WriteFits(w)
    ensures w.Rewrote? ==> InStep(After(u, w))
    ensures w.Added? && InStep(u) ==> (InStep(After(u, w)) <==> InStep(RegisterLine(w.name)))
  {
    hide RegisterLine, PrintRows, RewriteRows, RowsOf, WholeLines, InStep;
    if w.Rewrote? {
      RewriteFits(w.op, RowsOf(u));
      PrintedInStep(RewriteRows(w.op, RowsOf(u)));
    } else if InStep(u) {
      InStepThen(u, RegisterLine(w.name));
    }
  }

  predicate NamesInStep(ws: seq<Write>) {
    forall i :: 0 <= i < |ws| && ws[i].Added? ==> InStep(RegisterLine(ws[i].name))
  }

  /** Over any history of registrations of arbitrary names and of rewrites, the table is in step
      throughout if and only if every registered line is in step by itself. */
  lemma {:induction false} HistoryInStep(ws: seq<Write>)
    requires AllWritesFit(ws)
    ensures (forall k :: 0 <= k <= |ws| ==> InStep(Written(ws[..k]))) <==> NamesInStep(ws)
  {
    hide RegisterLine, PrintRows, RewriteRows, RowsOf, WholeLines, InStep, After;
    if ws == [] {
      NothingInStep();
      assert ws[..0] == [];
    } else {
      var before, w := ws[..|ws| - 1], ws[|ws| - 1];
      HistoryInStep(before);
      WrittenIsWhole(before);
      WriteInStep(Written(before), w);
      assert ws[..|ws|] == ws;
      assert forall k :: 0 <= k <= |before| ==> ws[..k] == before[..k];
      assert before[..|before|] == before;
      assert NamesInStep(ws) <==> NamesInStep(before) && (w.Added? ==> InStep(RegisterLine(w.name)));
    }
  }

  // ----------------------------------------------- names on a single line

  /** The number of words in s. */
  function CountWords(s: string): nat {
    if s == "" then 0
    else if IsSpace(s[0]) || (|s| > 1 && !IsSpace(s[1])) then CountWords(s[1..])
    else 1 + CountWords(s[1..])
  }

  lemma {:induction false} WordsDrop(s: string, n: nat)
    requires n <= |s| && forall i :: 0 <= i < n ==> !IsSpace(s[i])
    ensures CountWords(s[n..]) + 1 >= CountWords(s)
  {
    if n == 0 {
      assert s[n..] == s;
    } else {
      assert s[1..][n - 1..] == s[n..];
      if n > 1 {
        assert !IsSpace(s[1]);
        WordsDrop(s[1..], n - 1);
      }
    }
  }

  lemma {:induction false} WordsSkip(s: string)
    ensures CountWords(SkipSpaces(s)) == CountWords(s)
    ensures CountWords(s) == 0 <==> Blank(s)
  {
    if s != "" {
      WordsSkip(s[1..]);
      if !IsSpace(s[0]) && |s| > 1 && !IsSpace(s[1]) {
        assert SkipSpaces(s[1..]) == s[1..];
      }
    }
  }

  lemma {:induction false} WordsConcat(a: string, b: string)
    requires b == "" || IsSpace(b[0])
    ensures CountWords(a + b) == CountWords(a) + CountWords(b)
  {
    if a == "" {
      assert a + b == b;
    } else {
      assert (a + b)[1..] == a[1..] + b;
      WordsConcat(a[1..], b);
    }
  }

  lemma {:induction false} DigitsRead(s: string, acc: nat) returns (n: nat)
    ensures n <= |s| && ScanDigits(s, acc).1 == s[n..] && forall i :: 0 <= i < n ==> IsDigit(s[i])
  {
    if s != "" && IsDigit(s[0]) {
      n := DigitsRead(s[1..], 10 * acc + (s[0] as int - '0' as int));
      assert s[1..][n..] == s[n + 1..];
      assert forall i :: 0 < i < n + 1 ==> s[i] == s[1..][i - 1];
      n := n + 1;
    } else {
      n := 0;
      assert s[0..] == s;
    }
  }

  lemma TokenWords(s: string, max: nat)
    requires ScanToken(s, max).Some?
    ensures CountWords(ScanToken(s, max).value.1) + 1 >= CountWords(s)
  {
    WordsSkip(s);
    WordsDrop(SkipSpaces(s), TokenLength(SkipSpaces(s), max));
  }

  lemma IntWords(s: string)
    requires ScanInt(s).Some?
    ensures CountWords(ScanInt(s).value.1) + 1 >= CountWords(s)
  {
    WordsSkip(s);
    var t := SkipSpaces(s);
    var sign := if t[0] == '-' || t[0] == '+' then 1 else 0;
    var u := t[sign..];
    assert t[0..] == t;
    var n := DigitsRead(u[1..], u[0] as int - '0' as int);
    assert u[1..][n..] == t[sign + 1 + n..];
    assert forall i :: 0 <= i < n ==> t[sign + 1 + i] == u[1..][i];
    WordsDrop(t, sign + 1 + n);
  }

  /** Five conversions take at most five words. */
  lemma RowWords(s: string)
    requires ScanRow(s).Some?
    ensures CountWords(ScanRow(s).value.1) + 5 >= CountWords(s)
  {
    hide ScanToken, ScanInt, CountWords;
    var (_, s1) := ScanToken(s, 255).value;
    var (_, s2) := ScanInt(s1).value;
    var (_, s3) := ScanToken(s2, 19).value;
    var (_, s4) := ScanInt(s3).value;
    TokenWords(s, 255);
    IntWords(s1);
    TokenWords(s2, 19);
    IntWords(s3);
    IntWords(s4);
  }

  const NEW_USER := " 0 0.0.0.0 0 0\n"

  lemma {:induction false} WordAlone(w: string)
    requires w != "" && forall i :: 0 <= i < |w| ==> !IsSpace(w[i])
    ensures CountWords(w) == 1 && CountWords(" " + w) == 1
  {
    assert (" " + w)[1..] == w;
    if |w| > 1 {
      WordAlone(w[1..]);
    }
  }

  lemma WordsAfter(w: string, rest: string)
    requires w != "" && (forall i :: 0 <= i < |w| ==> !IsSpace(w[i])) && (rest == "" || IsSpace(rest[0]))
    ensures CountWords(" " + w + rest) == 1 + CountWords(rest)
  {
    WordAlone(w);
    WordsConcat(" " + w, rest);
  }

  lemma WordsAt(s: string, w: string, rest: string)
    requires s == " " + w + rest
    requires w != "" && (forall i :: 0 <= i < |w| ==> !IsSpace(w[i])) && (rest == "" || IsSpace(rest[0]))
    ensures CountWords(s) == 1 + CountWords(rest)
  {
    WordsAfter(w, rest);
  }

  lemma LastWord()
    ensures CountWords(" 0\n") == 1
  {
    WordsAt(" 0\n", "0", "\n");
    assert CountWords("\n") == 0;
  }

  lemma LastWords()
    ensures CountWords(" 0.0.0.0 0 0\n") == 3
  {
    LastWord();
    hide CountWords;
    WordsAt(" 0 0\n", "0", " 0\n");
    WordsAt(" 0.0.0.0 0 0\n", "0.0.0.0", " 0 0\n");
  }

  lemma NewUserWords()
    ensures CountWords(NEW_USER) == 4
  {
    hide CountWords;
    LastWords();
    WordsAt(NEW_USER, "0", " 0.0.0.0 0 0\n");
  }

  lemma ScanDottedToken(rest: string)
    requires rest != "" && IsSpace(rest[0])
    ensures ScanToken(".0.0.0" + rest, 19) == Some((".0.0.0", rest))
  {
    var s := ".0.0.0" + rest;
    assert SkipSpaces(s) == s;
    ScanTokenWhole(s, ".0.0.0", rest, 19);
  }

  lemma ScanZeroRow(s1: string, s2: string, s3: string, s4: string, s5: string)
    requires s1 == " " + (Dec(0) + s2) && s2 == ".0.0.0" + s3
    requires s3 == " " + (Dec(0) + s4) && s4 == " " + (Dec(0) + s5)
    requires IsSpace(s1[0]) && !IsDigit(s2[0]) && IsSpace(s3[0]) && IsSpace(s4[0]) && (s5 == "" || IsSpace(s5[0]))
    ensures ScanRow(" " + ("0" + s1)) == Some((Row("0", 0, ".0.0.0", 0, 0), s5))
  {
    assert IsToken("0", 255);
    hide SkipSpaces, ScanToken, ScanInt, Dec, TokenLength;
    ScanNextToken("0", s1, 255);
    ScanNextInt(0, s2);
    ScanDottedToken(s3);
    ScanNextInt(0, s4);
    ScanNextInt(0, s5);
  }

  /** A line that holds no newline but its last is read in one go. */
  lemma SingleLine(name: string)
    requires IsCString(name, 255) && '\n' !in name
    ensures RowsOf(RegisterLine(name)) == ParseLine(RegisterLine(name))
  {
    var line := RegisterLine(name);
    LineLengthWhole(line, "", LINE_BUFFER - 1);
    assert line + "" == line && line[..|line|] == line && line[|line|..] == "";
    EmptyTableRows();
  }

  lemma WholeScanInStep(name: string)
    requires IsCString(name, 255) && '\n' !in name
    requires ScanRow(RegisterLine(name)).Some? && ScanRow(RegisterLine(name)).value.1 == "\n"
    ensures InStep(RegisterLine(name))
  {
    hide ScanRow, RegisterLine, RowsOf;
    SingleLine(name);
    NothingToScan("\n");
    assert "\n"[1..] == "";
    assert StreamRest("\n") == "\n" && StreamRows("\n") == [];
  }

  lemma BlankNameScans(name: string)
    requires Blank(name)
    ensures ScanRow(RegisterLine(name)) == Some((Row("0", 0, ".0.0.0", 0, 0), "\n"))
  {
    hide ScanToken, ScanInt, Dec;
    var s1, s2, s3, s4 := " 0.0.0.0 0 0\n", ".0.0.0 0 0\n", " 0 0\n", " 0\n";
    assert Dec(0) == "0" by { ZeroPrinted(); }
    assert NEW_USER == " " + ("0" + s1);
    ScanZeroRow(s1, s2, s3, s4, "\n");
    BlankScansSame(name, NEW_USER);
  }

  lemma ZeroPrinted()
    ensures Dec(0) == "0"
  {
  }

  lemma BlankScansSame(s: string, t: string)
    requires Blank(s)
    ensures ScanToken(s + t, 255) == ScanToken(t, 255) && ScanInt(s + t) == ScanInt(t)
    ensures ScanRow(s + t) == ScanRow(t)
  {
    SkipThen(s, t);
  }

  /** A name of one word is that word with white space around it. */
  lemma SplitName(name: string) returns (w: string, b: string)
    requires IsCString(name, 255) && CountWords(name) == 1
    ensures IsToken(w, 255) && Blank(b) && (b == "" || IsSpace(b[0]))
    ensures SkipSpaces(name) == w + b
  {
    var s := SkipSpaces(name);
    WordsSkip(name);
    SkipKeeps(name);
    var n := TokenLength(s, 255);
    w, b := s[..n], s[n..];
    assert '\0' !in s;
    assert s[0] in s;
    assert forall c :: c in w ==> !EndsToken(c);
    assert s == w + b;
    OneWord(w, b);
  }

  lemma OneWord(w: string, b: string)
    requires w != "" && (forall c :: c in w ==> !IsSpace(c)) && (b == "" || IsSpace(b[0])) && CountWords(w + b) == 1
    ensures Blank(b)
  {
    WordsConcat(w, b);
    WordAlone(w);
    WordsSkip(b);
  }

  lemma NewLine(name: string)
    ensures RegisterLine(name) == name + NEW_USER
  {
  }

  /** White space around the word of a name is not read. */
  lemma OneWordScans(name: string) returns (w: string)
    requires IsCString(name, 255) && CountWords(name) == 1
    ensures IsToken(w, 255) && ScanRow(RegisterLine(name)) == Some((Row(w, 0, S.NO_IP, 0, 0), "\n"))
  {
    hide CountWords, ScanRow, IsToken, SkipSpaces, RegisterLine;
    var b;
    w, b := SplitName(name);
    WordsSkip(name);
    SkipThen(name, NEW_USER);
    NewLine(name);
    assert SkipSpaces(RegisterLine(name)) == w + b + NEW_USER == w + (b + NEW_USER);
    ScanSpacedRow(RegisterLine(name), w, b);
  }

  lemma {:induction false} SkipKeeps(s: string)
    ensures forall c :: c in SkipSpaces(s) ==> c in s
  {
    if s != "" && IsSpace(s[0]) {
      SkipKeeps(s[1..]);
    }
  }

  lemma SameRow(s: string, t: string)
    requires ScanToken(s, 255).Some? && ScanToken(t, 255).Some?
    requires ScanToken(s, 255).value.0 == ScanToken(t, 255).value.0
    requires ScanInt(ScanToken(s, 255).value.1) == ScanInt(ScanToken(t, 255).value.1)
    ensures ScanRow(s) == ScanRow(t)
  {
  }

  lemma NewUserScans(w: string)
    requires IsToken(w, 255)
    ensures SkipSpaces(w + NEW_USER) == w + NEW_USER
    ensures ScanRow(w + NEW_USER) == Some((Row(w, 0, S.NO_IP, 0, 0), "\n"))
  {
    hide ScanRow, PrintRow, Row.Fits;
    var row := Row(w, 0, S.NO_IP, 0, 0);
    NewRowPrinted(w);
    PrintedRowStart(row, "");
    assert w + NEW_USER == RegisterLine(w) == PrintRow(row) == PrintRow(row) + "";
    SkipNothing(w + NEW_USER);
    ScanPrintedRow(row, w + NEW_USER, "");
    assert "\n" + "" == "\n";
  }

  lemma ScanSpacedRow(line: string, w: string, b: string)
    requires IsToken(w, 255) && Blank(b) && (b == "" || IsSpace(b[0]))
    requires SkipSpaces(line) == w + (b + NEW_USER)
    ensures ScanRow(line) == Some((Row(w, 0, S.NO_IP, 0, 0), "\n"))
  {
    hide ScanToken, ScanInt, ScanRow, SkipSpaces;
    NewUserScans(w);
    ScanTokenWhole(line, w, b + NEW_USER, 255);
    ScanTokenWhole(w + NEW_USER, w, NEW_USER, 255);
    BlankScansSame(b, NEW_USER);
    SameRow(line, w + NEW_USER);
  }

  /** The line of a name without newlines is in step if and only if the name is at most one word. */
  lemma {:induction false} NameInStep(name: string)
    requires IsCString(name, 255) && '\n' !in name
    ensures InStep(RegisterLine(name)) <==> CountWords(name) <= 1
  {
    var line := RegisterLine(name);
    WordsSkip(name);
    if CountWords(name) == 0 {
      BlankNameScans(name);
      WholeScanInStep(name);
    } else if CountWords(name) == 1 {
      var _ := OneWordScans(name);
      WholeScanInStep(name);
    } else {
      NewUserWords();
      WordsConcat(name, NEW_USER);
      WordsSkip(line);
      SingleLine(name);
      ManyWordsOutOfStep(line);
    }
  }

  lemma ManyWordsOutOfStep(line: string)
    requires CountWords(line) > 5 && RowsOf(line) == ParseLine(line)
    ensures !InStep(line)
  {
    hide CountWords, RowsOf;
    WordsSkip(line);
    if ScanRow(line).Some? {
      RowWords(line);
      LeftOver(line);
    } else {
      assert StreamRest(line) == line;
    }
  }

  lemma LeftOver(line: string)
    requires ScanRow(line).Some? && CountWords(ScanRow(line).value.1) > 0
    ensures StreamRows(line) == ParseLine(line) ==> !Blank(StreamRest(line))
  {
    hide ScanRow, CountWords;
    var (row, rest) := ScanRow(line).value;
    WordsSkip(rest);
    assert StreamRows(line)[1..] == StreamRows(rest);
    assert StreamRest(line) == StreamRest(rest);
    if StreamRows(rest) == [] {
      assert StreamRest(rest) == rest;
    }
  }

  // ------------------------------------------------------- hidden users

  lemma NoNumberScans(w: string, v: string)
    requires IsToken(w, 255)
    requires v != "" && !IsSpace(v[0]) && !IsDigit(v[0]) && v[0] != '-' && v[0] != '+'
    ensures ScanRow(w + (" " + v)).None? && StreamRows(w + (" " + v)) == []
  {
    var line, rest := w + (" " + v), " " + v;
    assert line[0] == w[0] && w[0] in w;
    SkipNothing(line);
    ScanTokenWhole(line, w, rest, 255);
    SkipOneSpace(' ', v);
  }

  /** A second word that is no number stops the fscanf scan at that line, whatever comes later. */
  lemma SpacedNameStopsScan(rows: seq<Row>, w: string, v: string, t: string)
    requires Rows.AllFit(rows) && IsToken(w, 255)
    requires v != "" && !IsSpace(v[0]) && !IsDigit(v[0]) && v[0] != '-' && v[0] != '+'
    ensures StreamRows(PrintRows(rows) + (RegisterLine(w + " " + v) + t)) == rows
  {
    hide StreamRows, RowsOf, InStep, PrintRows, IsToken, WholeLines;
    var line := RegisterLine(w + " " + v) + t;
    PrintedInStep(rows);
    InStepThen(PrintRows(rows), line);
    assert line == w + (" " + (v + (NEW_USER + t)));
    NoNumberScans(w, v + (NEW_USER + t));
  }

  lemma SpacedLine(t: string)
    ensures ScanRow(RegisterLine("a b")).None? && StreamRows(RegisterLine("a b") + t) == []
  {
    hide StreamRows, ScanRow;
    assert IsToken("a", 255);
    NoNumberScans("a", "b" + NEW_USER);
    NoNumberScans("a", "b" + (NEW_USER + t));
    assert RegisterLine("a b") == "a" + (" " + ("b" + NEW_USER));
    assert RegisterLine("a b") + t == "a" + (" " + ("b" + (NEW_USER + t)));
  }

  lemma WordLine(name: string)
    requires IsToken(name, 255)
    ensures RowsOf(RegisterLine(name)) == [Row(name, 0, S.NO_IP, 0, 0)]
  {
    hide RowsOf;
    var row := Row(name, 0, S.NO_IP, 0, 0);
    NewRowPrinted(name);
    RowInStep(row);
  }

  /** After REGISTER "a b" a user registered next is seen by the db_* functions only. */
  lemma HiddenUser()
    ensures var u := RegisterLine("a b") + RegisterLine("r");
      && StreamRows(u) == []
      && RowsOf(u) == [Row("r", 0, S.NO_IP, 0, 0)]
  {
    hide RowsOf, StreamRows, RegisterLine, WholeLines;
    SpacedLine(RegisterLine("r"));
    SingleLine("a b");
    RegisterLineIsWhole("a b");
    assert IsToken("r", 255);
    WordLine("r");
    RowsOfThen(RegisterLine("a b"), RegisterLine("r"));
  }
}
