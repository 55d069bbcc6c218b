/** database.c: every operation opens, scans and rewrites the files under one mutex.
    Each method is proved against the file function of the same name, for any file contents,
    and says what a stop at any of its file-system calls leaves behind. */
module Database {
  import opened Text
  import opened Rows
  import opened F = Files
  import opened Disk
  import opened Mail
  import S = MessageStore
  import L = Listing
  import opened V = Readers

  // --------------------------------------------------- stops inside a call

  /** A file replaced through a temporary one. */
  datatype Swap = Swap(path: string, temp: string, before: string, after: string)

  /** The file is whole, old or new, or it is absent while the temporary file is the whole new one. */
  predicate SwapState(f: FileMap, w: Swap) {
    if w.path in f then f[w.path] == w.before || f[w.path] == w.after
    else w.temp in f && f[w.temp] == w.after
  }

  ghost predicate Swapped(states: seq<FileMap>, from: nat, w: Swap) {
    forall k :: from <= k < |states| ==> SwapState(states[k], w)
  }

  ghost function TableSwap(start: FileMap, op: Rewrite): Swap
    requires USERS in start
  {
    Swap(USERS, TEMP, start[USERS], PrintRows(RewriteRows(op, RowsOf(start[USERS]))))
  }

  ghost function MailSwap(start: FileMap, user: string, msgId: nat): Swap
    requires MailPath(user) in start
  {
    var data := start[MailPath(user)];
    Swap(MailPath(user), TempMailPath(user), data, Concat(ChunksWithout(Chunks(data), msgId)))
  }

  ghost predicate RewrittenInOneStep(states: seq<FileMap>, from: nat, start: FileMap, op: Rewrite)
    requires USERS in start
  {
    Swapped(states, from, TableSwap(start, op))
  }

  /** The files after the unlink and before the rename. */
  function InGap(start: FileMap, w: Swap): FileMap {
    start[w.temp := w.after] - {w.path}
  }

  /** The files stood like this after one of the calls. */
  ghost predicate Passes(states: seq<FileMap>, from: nat, f: FileMap) {
    exists k :: from <= k < |states| && states[k] == f
  }

  ghost predicate PassesGap(states: seq<FileMap>, from: nat, start: FileMap, op: Rewrite)
    requires USERS in start
  {
    Passes(states, from, InGap(start, TableSwap(start, op)))
  }

  lemma PassesAppend(states: seq<FileMap>, from: nat, f: FileMap, g: FileMap)
    ensures Passes(states, from, f) ==> Passes(states + [g], from, f)
    ensures from <= |states| ==> Passes(states + [g], from, g)
  {
    if Passes(states, from, f) {
      var k :| from <= k < |states| && states[k] == f;
      assert (states + [g])[k] == f;
    }
    assert (states + [g])[|states|] == g;
  }

  /** At every stop: usuarios.txt is the whole old table or the whole new one, or it is absent and
      the temporary file is the whole new one. */
  lemma StopsKeepATable(states: seq<FileMap>, from: nat, start: FileMap, op: Rewrite, k: nat)
    requires USERS in start && RewrittenInOneStep(states, from, start, op) && from <= k < |states|
    ensures var after := PrintRows(RewriteRows(op, RowsOf(start[USERS])));
      || (USERS in states[k] && states[k][USERS] == start[USERS])
      || (USERS in states[k] && states[k][USERS] == after)
      || (USERS !in states[k] && TEMP in states[k] && states[k][TEMP] == after)
  {
    assert SwapState(states[k], TableSwap(start, op));
  }

  /** One of the stops is the one without usuarios.txt. */
  lemma GapIsPassed(states: seq<FileMap>, from: nat, start: FileMap, op: Rewrite)
    requires USERS in start && PassesGap(states, from, start, op)
    ensures var after := PrintRows(RewriteRows(op, RowsOf(start[USERS])));
      exists k :: from <= k < |states| && USERS !in states[k] && TEMP in states[k] && states[k][TEMP] == after
  {
    TablePathsDiffer();
    hide PrintRows, RewriteRows, RowsOf;
    var k :| from <= k < |states| && states[k] == InGap(start, TableSwap(start, op));
    assert USERS !in states[k];
  }

  ghost predicate FileKept(states: seq<FileMap>, from: nat, path: string, content: string) {
    forall k :: from <= k < |states| ==> path in states[k] && states[k][path] == content
  }

  lemma KeptIsSwapped(states: seq<FileMap>, from: nat, w: Swap)
    requires FileKept(states, from, w.path, w.before)
    ensures Swapped(states, from, w)
  {
  }

  lemma SwappedAppend(states: seq<FileMap>, from: nat, w: Swap, f: FileMap)
    requires Swapped(states, from, w) && SwapState(f, w)
    ensures Swapped(states + [f], from, w)
  {
  }

  /** db_init after a stop: usuarios.txt is created empty if it is missing. */
  function Restart(f: FileMap): FileMap {
    if USERS in f then f else f[USERS := ""]
  }

  /** After a stop inside a rewrite and a restart the table is the old or the new one if and only
      if usuarios.txt was there, or one of the two is the empty table. */
  lemma {:induction false} RestartKeepsTable(f: FileMap, before: string, after: string)
    requires SwapState(f, Swap(USERS, TEMP, before, after))
    ensures RowsOf(Restart(f)[USERS]) in {RowsOf(before), RowsOf(after)} <==>
      USERS in f || RowsOf(before) == [] || RowsOf(after) == []
    ensures USERS !in f ==> RowsOf(Restart(f)[USERS]) == []
  {
    EmptyFileRows();
    hide RowsOf;
  }

  lemma EmptyFileRows()
    ensures RowsOf("") == []
  {
  }

  /** The stop that loses every user: each rewrite that succeeds passes this state. */
  lemma GapLosesEveryUser(start: FileMap, op: Rewrite)
    requires USERS in start
    ensures var f := InGap(start, TableSwap(start, op));
      && SwapState(f, TableSwap(start, op)) && USERS !in f
      && RowsOf(Restart(f)[USERS]) == []
      && forall user :: F.RowOf(Restart(f), user).None?
  {
    TablePathsDiffer();
    EmptyFileRows();
    hide RowsOf, PrintRows, RewriteRows;
  }

  /** The same for the pending messages and a stop inside a delete. */
  lemma RestartKeepsMail(start: FileMap, user: string, msgId: nat, f: FileMap)
    requires MailPath(user) in start && SwapState(f, MailSwap(start, user, msgId))
    ensures var before, after := F.Pending(start, user), F.Pending(F.Remove(start, user, msgId), user);
      F.Pending(Restart(f), user) in {before, after} <==> MailPath(user) in f || before == [] || after == []
    ensures MailPath(user) !in f ==> F.Pending(Restart(f), user) == []
  {
    PathsDiffer(user, user);
  }

  /** The stop that loses every pending message of the user: each delete passes this state. */
  lemma GapLosesTheMail(start: FileMap, user: string, msgId: nat)
    requires MailPath(user) in start
    ensures var f := InGap(start, MailSwap(start, user, msgId));
      SwapState(f, MailSwap(start, user, msgId)) && F.Pending(Restart(f), user) == []
  {
    PathsDiffer(user, user);
    hide MailPath, TempMailPath;
  }

  lemma {:induction false} DroppedIsGone(user: string, rows: seq<Row>)
    ensures forall i :: 0 <= i < |RewriteRows(Drop(user), rows)| ==> RewriteRows(Drop(user), rows)[i].name != user
  {
    if rows != [] {
      DroppedIsGone(user, rows[..|rows| - 1]);
    }
  }

  lemma UserDropped(start: FileMap, user: string)
    requires USERS in start
    ensures USERS in Rewritten(start, Drop(user)) && F.RowOf(Rewritten(start, Drop(user)), user).None?
  {
    var rows := RewriteRows(Drop(user), RowsOf(start[USERS]));
    TablePathsDiffer();
    DroppedIsGone(user, RowsOf(start[USERS]));
    RewriteFits(Drop(user), RowsOf(start[USERS]));
    RowsOfPrinted(rows);
    hide RowsOf, PrintRows, RewriteRows;
  }

  /** Registering changes nobody's pending messages. */
  lemma RegisterKeepsPending(files: FileMap, name: string, user: string)
    ensures F.Pending(F.Register(files, name), user) == F.Pending(files, user)
  {
    hide F.RowOf, RegisterLine, MailPath, DecodeAll, Chunks;
    PathsDiffer(user, user);
  }

  /** A stop after the rename of an unregistration and before it unlinks the mailbox: the user is
      gone, and whoever registers the name next has the old messages pending. After the
      whole unregistration nothing is pending. */
  lemma MailOutlivesUser(start: FileMap, user: string)
    requires F.RowOf(start, user).Some?
    ensures var f := Rewritten(start, Drop(user));
      && F.RowOf(Restart(f), user).None?
      && F.Pending(F.Register(Restart(f), user), user) == F.Pending(start, user)
      && F.Pending(F.Register(F.Unregister(start, user), user), user) == []
      && (F.Pending(F.Register(Restart(f), user), user) != [] <==> HasRecord(start, user))
  {
    SomePending(start, user);
    hide F.RowOf, F.Register, RowsOf, PrintRows, RewriteRows, MailPath, DecodeAll, Chunks;
    assert USERS in start by { RowMeansTable(start, user); }
    PathsDiffer(user, user);
    UserDropped(start, user);
    RegisterKeepsPending(Rewritten(start, Drop(user)), user, user);
    RegisterKeepsPending(F.Unregister(start, user), user, user);
  }

  /** There is a mailbox with at least one record. */
  predicate HasRecord(files: FileMap, user: string) {
    MailPath(user) in files && |files[MailPath(user)]| >= RECORD
  }

  lemma SomePending(files: FileMap, user: string)
    ensures F.Pending(files, user) != [] <==> HasRecord(files, user)
  {
    if MailPath(user) in files {
      ChunksAt(files[MailPath(user)]);
    }
  }

  /** Whatever the files: whoever registers a name has messages pending if and only if its
      mailbox is there with at least one record. */
  lemma NewcomerInherits(files: FileMap, user: string)
    ensures F.Pending(F.Register(files, user), user) == F.Pending(files, user)
    ensures F.Pending(F.Register(files, user), user) != [] <==> HasRecord(files, user)
  {
    RegisterKeepsPending(files, user, user);
    SomePending(files, user);
  }

  /** After a stop in the gap of any rewrite and a restart every mailbox outlives its user:
      whoever registers the name next has what was pending, and anything at all if and only
      if the mailbox held a record. */
  lemma GapKeepsEveryMailbox(start: FileMap, op: Rewrite, user: string)
    requires USERS in start
    ensures var f := Restart(InGap(start, TableSwap(start, op)));
      && F.RowOf(f, user).None?
      && F.Pending(F.Register(f, user), user) == F.Pending(start, user)
      && (F.Pending(F.Register(f, user), user) != [] <==> HasRecord(start, user))
  {
    hide F.RowOf, F.Register, RowsOf, PrintRows, RewriteRows, MailPath, DecodeAll, Chunks;
    PathsDiffer(user, user);
    GapLosesEveryUser(start, op);
    NewcomerInherits(Restart(InGap(start, TableSwap(start, op))), user);
  }

  lemma RowMeansTable(files: FileMap, user: string)
    requires F.RowOf(files, user).Some?
    ensures USERS in files
  {
  }

  // --------------------------------------------------------- loop lemmas

  function Next(done: seq<Row>, row: Option<Row>): seq<Row> {
    if row.Some? then done + [row.value] else done
  }

  /** done are the rows before the position of the descriptor. */
  ghost predicate Positioned(fd: Reader, done: seq<Row>)
    reads fd
  {
    fd.pos <= |fd.data| && RowsOf(fd.data) == done + RowsOf(fd.data[fd.pos..])
  }

  /** read_line_sys(fd, line_buf, sizeof(line_buf)) and sscanf(line_buf, …) */
  method NextRow(fd: Reader, ghost done: seq<Row>) returns (n: nat, row: Option<Row>)
    requires Positioned(fd, done)
    modifies fd
    ensures Positioned(fd, Next(done, row)) && fd.pos == old(fd.pos) + n <= |fd.data|
    ensures n == 0 ==> row.None? && done == RowsOf(fd.data)
    ensures row.Some? ==> row.value.Fits()
  {
    hide RowsOf, LineLength, ScanRow;
    var buf := new char[LINE_BUFFER];
    n := fd.ReadLine(buf);
    var line := buf[..n];
    LineStep(fd.data, old(fd.pos), n);
    row := match ScanRow(line) case None => None case Some((r, _)) => Some(r);
    LineEnd(fd.data, old(fd.pos), n);
  }

  lemma LineEnd(data: string, pos: nat, n: nat)
    requires pos + n <= |data| && n == LineLength(data[pos..], LINE_BUFFER - 1)
    ensures n == 0 ==> ParseLine(data[pos..pos + n]) == [] && RowsOf(data[pos + n..]) == []
  {
    if n == 0 {
      assert data[pos..] == "" && data[pos..pos + n] == "";
    }
  }

  /** The temporary file holds the rewrite of the rows done so far, and usuarios.txt was there
      unchanged after every call since the copy began. */
  ghost predicate Copied(fs: FileSystem, start: FileMap, from: nat, op: Rewrite, done: seq<Row>)
    requires USERS in start
    reads fs
  {
    && fs.files == start[TEMP := PrintRows(RewriteRows(op, done))]
    && from <= |fs.states|
    && FileKept(fs.states, from, USERS, start[USERS])
  }

  lemma CopyStep(op: Rewrite, done: seq<Row>, r: Row)
    ensures var copied := PrintRows(RewriteRows(op, done));
            PrintRows(RewriteRows(op, done + [r])) ==
              if RewriteRow(op, r) == [] then copied else copied + PrintRow(RewriteRow(op, r)[0])
  {
    assert (done + [r])[..|done|] == done;
    var a, b := RewriteRows(op, done), RewriteRow(op, r);
    if b == [] {
      assert a + b == a;
    } else {
      assert (a + b)[..|a|] == a;
    }
  }

  lemma RowNotTruncated(q: Row)
    requires q.Fits()
    ensures Snprintf(LINE_BUFFER, PrintRow(q)) == PrintRow(q)
  {
    PrintedRowLength(q);
  }

  lemma KeptByTemp(states: seq<FileMap>, from: nat, start: FileMap, temp: string)
    requires USERS in start && FileKept(states, from, USERS, start[USERS])
    ensures FileKept(states + [start[TEMP := temp]], from, USERS, start[USERS])
  {
    TablePathsDiffer();
  }

  lemma SkipRow(fs: FileSystem, start: FileMap, from: nat, op: Rewrite, done: seq<Row>, r: Row)
    requires USERS in start && Copied(fs, start, from, op, done) && RewriteRow(op, r) == []
    ensures Copied(fs, start, from, op, done + [r])
  {
    CopyStep(op, done, r);
  }

  lemma FindLastEmpty(name: string)
    ensures FindLast([], name) == None
  {
  }

  lemma FoundInFile(fd: Reader, done: seq<Row>, r: Row)
    requires Positioned(fd, done + [r])
    ensures FindLast(RowsOf(fd.data), r.name).Some?
  {
    assert RowsOf(fd.data)[|done|] == r;
  }

  lemma FindLastAppend(done: seq<Row>, r: Row, name: string)
    ensures FindLast(done + [r], name) == if r.name == name then Some(r) else FindLast(done, name)
  {
    assert (done + [r])[..|done|] == done;
  }

  /** The out-parameters of db_prepare_message. */
  datatype Noted = Noted(msgId: nat, connected: int, ip: string, port: int) {
    predicate From(sender: Option<Row>, receiver: Option<Row>) {
      && (sender.Some? ==> msgId == S.NextId(sender.value.lastId))
      && (receiver.Some? ==> connected == receiver.value.connected && ip == receiver.value.ip && port == receiver.value.port)
    }
  }

  lemma NothingNoted(noted: Noted, sender: string, receiver: string)
    ensures noted.From(FindLast([], sender), FindLast([], receiver))
  {
  }

  class Database {
    const fs: FileSystem

    constructor (fs: FileSystem)
      ensures this.fs == fs
    {
      this.fs := fs;
    }

    /** open(usuarios.txt, O_RDONLY) */
    method OpenTable() returns (fd: Reader)
      requires USERS in fs.files
      ensures fresh(fd)
      ensures fd.data == fs.files[USERS] && fd.pos == 0 && Positioned(fd, [])
    {
      fd := new Reader(fs.files[USERS]);
      assert fd.data[0..] == fd.data;
    }

    /** lseek(fd, 0, SEEK_SET) */
    method Rewind(fd: Reader)
      modifies fd
      ensures fd.pos == 0 && Positioned(fd, [])
    {
      fd.pos := 0;
      assert fd.data[0..] == fd.data;
    }

    /** open(temp, O_WRONLY | O_CREAT | O_TRUNC): whatever an earlier stop left there is gone. */
    method StartCopy(ghost op: Rewrite)
      requires USERS in fs.files
      modifies fs
      ensures Copied(fs, old(fs.files), |old(fs.states)|, op, [])
    {
      TablePathsDiffer();
      fs.Truncate(TEMP);
    }

    /** snprintf(line_buf, 512, …) and write(fd_temp, line_buf, len): nothing is cut off. */
    method WriteRow(q: Row, ghost start: FileMap, ghost from: nat, ghost op: Rewrite, ghost done: seq<Row>, ghost r: Row)
      requires USERS in start && Copied(fs, start, from, op, done)
      requires q.Fits() && RewriteRow(op, r) == [q]
      modifies fs
      ensures Copied(fs, start, from, op, done + [r])
    {
      hide PrintRow, PrintRows, RewriteRow, RewriteRows, Snprintf, Row.Fits, FileKept;
      CopyStep(op, done, r);
      RowNotTruncated(q);
      KeptByTemp(fs.states, from, start, PrintRows(RewriteRows(op, done + [r])));
      var line := Snprintf(LINE_BUFFER, PrintRow(q));
      fs.Write(TEMP, line);
      assert fs.files == start[TEMP := PrintRows(RewriteRows(op, done + [r]))];
    }

    /** unlink(usuarios.txt); rename(temp, usuarios.txt) */
    method SwapTables(ghost start: FileMap, ghost from: nat, ghost op: Rewrite)
      requires USERS in start && Copied(fs, start, from, op, RowsOf(start[USERS]))
      modifies fs
      ensures fs.files == Rewritten(start, op)
      ensures from <= |fs.states| && RewrittenInOneStep(fs.states, from, start, op)
      ensures PassesGap(fs.states, from, start, op) && Passes(fs.states, from, fs.files)
    {
      TablePathsDiffer();
      hide RowsOf, PrintRows, RewriteRows, FileKept, Swapped, Passes;
      ghost var w := TableSwap(start, op);
      KeptIsSwapped(fs.states, from, w);
      ReplaceFile(USERS, TEMP, from, w);
    }

    /** unlink(temp) when the table stays as it was */
    method DropCopy(ghost start: FileMap, ghost from: nat, ghost op: Rewrite)
      requires USERS in start && Copied(fs, start, from, op, RowsOf(start[USERS]))
      modifies fs
      ensures fs.files == start - {TEMP}
      ensures RewrittenInOneStep(fs.states, from, start, op)
    {
      TablePathsDiffer();
      hide RowsOf, PrintRows, RewriteRows, FileKept, Swapped;
      ghost var w := TableSwap(start, op);
      KeptIsSwapped(fs.states, from, w);
      fs.Unlink(TEMP);
      SwappedAppend(old(fs.states), from, w, fs.files);
    }

    /** db_register */
    method Register(user: string) returns (code: int)
      requires IsCString(user, 255)
      modifies fs
      ensures code == F.RegisterCode(old(fs.files), user)
      ensures fs.files == F.Register(old(fs.files), user)
    {
      hide RowsOf, PrintRow, Positioned, FindLast;
      if USERS in fs.files {
        var fd := OpenTable();
        ghost var done: seq<Row> := [];
        FindLastEmpty(user);
        var n, row := NextRow(fd, done);
        while n > 0
          invariant Positioned(fd, Next(done, row)) && fd.pos <= |fd.data|
          invariant n == 0 ==> row.None? && done == RowsOf(fd.data)
          invariant row.Some? ==> row.value.Fits()
          invariant FindLast(done, user).None?
          invariant fs.files == old(fs.files)
          decreases |fd.data| - fd.pos, n
        {
          if row.Some? {
            var r := row.value;
            FindLastAppend(done, r, user);
            if r.name == user {
              FoundInFile(fd, done, r);
              return 1;
            }
          }
          done := Next(done, row);
          n, row := NextRow(fd, done);
        }
      }
      fs.OpenAppend(USERS);
      var line := Snprintf(LINE_BUFFER, RegisterLine(user));
      fs.Write(USERS, line);
      code := 0;
    }

    /** db_unregister */
    method Unregister(user: string) returns (code: int)
      requires IsCString(user, 255)
      modifies fs
      ensures code == F.UnregisterCode(old(fs.files), user)
      ensures fs.files == F.Unregister(old(fs.files), user)
      ensures USERS in old(fs.files) ==>
        RewrittenInOneStep(fs.states, |old(fs.states)|, old(fs.files), Drop(user))
      ensures USERS in old(fs.files) && code == 0 ==>
        PassesGap(fs.states, |old(fs.states)|, old(fs.files), Drop(user))
      ensures USERS in old(fs.files) && code == 0 ==>
        Passes(fs.states, |old(fs.states)|, Rewritten(old(fs.files), Drop(user)))
    {
      if USERS !in fs.files { return 1; }
      hide RowsOf, PrintRow, PrintRows, RewriteRows, MailPath, Copied, Positioned, Row.Fits, FindLast;
      ghost var start, from, op := fs.files, |fs.states|, Drop(user);
      var fd := OpenTable();
      StartCopy(op);
      var found := false;
      ghost var done: seq<Row> := [];
      FindLastEmpty(user);
      var n, row := NextRow(fd, done);
      while n > 0
        invariant Positioned(fd, Next(done, row)) && fd.pos <= |fd.data|
        invariant n == 0 ==> row.None? && done == RowsOf(fd.data)
        invariant row.Some? ==> row.value.Fits()
        invariant found == FindLast(done, user).Some?
        invariant Copied(fs, start, from, op, done)
        decreases |fd.data| - fd.pos, n
      {
        if row.Some? {
          var r := row.value;
          FindLastAppend(done, r, user);
          if r.name == user {
            found := true;
            SkipRow(fs, start, from, op, done, r);
          } else {
            WriteRow(r, start, from, op, done, r);
          }
        }
        done := Next(done, row);
        n, row := NextRow(fd, done);
      }
      if found {
        SwapTables(start, from, op);
        UnlinkMailbox(user, start, from, op);
        code := 0;
      } else {
        DropCopy(start, from, op);
        code := 1;
      }
    }

    method UnlinkMailbox(user: string, ghost start: FileMap, ghost from: nat, ghost op: Rewrite)
      requires USERS in start && fs.files == Rewritten(start, op)
      requires from <= |fs.states| && RewrittenInOneStep(fs.states, from, start, op)
      requires PassesGap(fs.states, from, start, op) && Passes(fs.states, from, fs.files)
      modifies fs
      ensures fs.files == Rewritten(start, op) - {MailPath(user)}
      ensures RewrittenInOneStep(fs.states, from, start, op)
      ensures PassesGap(fs.states, from, start, op) && Passes(fs.states, from, Rewritten(start, op))
    {
      PathsDiffer(user, user);
      hide RowsOf, PrintRows, RewriteRows, Swapped, Passes, MailPath;
      fs.Unlink(MailPath(user));
      SwappedAppend(old(fs.states), from, TableSwap(start, op), fs.files);
      PassesAppend(old(fs.states), from, Rewritten(start, op), fs.files);
      PassesAppend(old(fs.states), from, InGap(start, TableSwap(start, op)), fs.files);
    }

    /** One row of the db_connect loop. */
    method ConnectRow(r: Row, user: string, ip: string, port: int, status: int,
                      ghost start: FileMap, ghost from: nat, ghost done: seq<Row>)
      returns (status': int)
      requires USERS in start && Copied(fs, start, from, GoOnline(user, ip, port), done)
      requires r.Fits() && IsToken(ip, 19) && IsInt32(port)
      requires status == F.ConnectStatus(FindLast(done, user))
      modifies fs
      ensures Copied(fs, start, from, GoOnline(user, ip, port), done + [r])
      ensures status' == F.ConnectStatus(FindLast(done + [r], user))
    {
      hide FindLast, Copied;
      ghost var op := GoOnline(user, ip, port);
      FindLastAppend(done, r, user);
      status' := status;
      var q := r;
      if r.name == user {
        if r.connected == 1 {
          status' := 2;
        } else {
          status' := 0;
          q := Row(r.name, 1, ip, port, r.lastId);
        }
      }
      WriteRow(q, start, from, op, done, r);
    }

    /** db_connect */
    method Connect(user: string, ip: string, port: int) returns (status: int)
      requires IsCString(user, 255) && IsToken(ip, 19) && IsInt32(port)
      modifies fs
      ensures status == F.ConnectCode(old(fs.files), user)
      ensures fs.files == F.Connect(old(fs.files), user, ip, port)
      ensures USERS in old(fs.files) ==>
        RewrittenInOneStep(fs.states, |old(fs.states)|, old(fs.files), GoOnline(user, ip, port))
      ensures USERS in old(fs.files) && status == 0 ==>
        PassesGap(fs.states, |old(fs.states)|, old(fs.files), GoOnline(user, ip, port))
    {
      if USERS !in fs.files { return 1; }
      hide RowsOf, PrintRow, PrintRows, RewriteRows, Copied, Positioned, FindLast, Row.Fits, IsToken;
      ghost var start, from, op := fs.files, |fs.states|, GoOnline(user, ip, port);
      var fd := OpenTable();
      StartCopy(op);
      status := 1;
      ghost var done: seq<Row> := [];
      FindLastEmpty(user);
      var n, row := NextRow(fd, done);
      while n > 0
        invariant Positioned(fd, Next(done, row)) && fd.pos <= |fd.data|
        invariant n == 0 ==> row.None? && done == RowsOf(fd.data)
        invariant row.Some? ==> row.value.Fits()
        invariant status == F.ConnectStatus(FindLast(done, user))
        invariant Copied(fs, start, from, op, done)
        decreases |fd.data| - fd.pos, n
      {
        if row.Some? {
          status := ConnectRow(row.value, user, ip, port, status, start, from, done);
        }
        done := Next(done, row);
        n, row := NextRow(fd, done);
      }
      if status == 0 {
        SwapTables(start, from, op);
      } else {
        DropCopy(start, from, op);
      }
    }

    /** One row of the db_disconnect loop. */
    method DisconnectRow(r: Row, user: string, status: int, ghost start: FileMap, ghost from: nat, ghost done: seq<Row>)
      returns (status': int)
      requires USERS in start && Copied(fs, start, from, GoOffline(user), done)
      requires r.Fits() && status == F.DisconnectStatus(FindLast(done, user))
      modifies fs
      ensures Copied(fs, start, from, GoOffline(user), done + [r])
      ensures status' == F.DisconnectStatus(FindLast(done + [r], user))
    {
      hide FindLast, Copied;
      FindLastAppend(done, r, user);
      NoIpFits();
      status' := status;
      var q := r;
      if r.name == user {
        if r.connected == 0 {
          status' := 2;
        } else {
          status' := 0;
          q := Row(r.name, 0, S.NO_IP, 0, r.lastId);
        }
      }
      WriteRow(q, start, from, GoOffline(user), done, r);
    }

    /** db_disconnect */
    method Disconnect(user: string) returns (status: int)
      requires IsCString(user, 255)
      modifies fs
      ensures status == F.DisconnectCode(old(fs.files), user)
      ensures fs.files == F.Disconnect(old(fs.files), user)
      ensures USERS in old(fs.files) ==>
        RewrittenInOneStep(fs.states, |old(fs.states)|, old(fs.files), GoOffline(user))
      ensures USERS in old(fs.files) && status == 0 ==>
        PassesGap(fs.states, |old(fs.states)|, old(fs.files), GoOffline(user))
    {
      if USERS !in fs.files { return 1; }
      hide RowsOf, PrintRow, PrintRows, RewriteRows, Copied, Positioned, FindLast, Row.Fits;
      ghost var start, from, op := fs.files, |fs.states|, GoOffline(user);
      var fd := OpenTable();
      StartCopy(op);
      status := 1;
      ghost var done: seq<Row> := [];
      FindLastEmpty(user);
      var n, row := NextRow(fd, done);
      while n > 0
        invariant Positioned(fd, Next(done, row)) && fd.pos <= |fd.data|
        invariant n == 0 ==> row.None? && done == RowsOf(fd.data)
        invariant row.Some? ==> row.value.Fits()
        invariant status == F.DisconnectStatus(FindLast(done, user))
        invariant Copied(fs, start, from, op, done)
        decreases |fd.data| - fd.pos, n
      {
        if row.Some? {
          status := DisconnectRow(row.value, user, status, start, from, done);
        }
        done := Next(done, row);
        n, row := NextRow(fd, done);
      }
      if status == 0 {
        SwapTables(start, from, op);
      } else {
        DropCopy(start, from, op);
      }
    }

    /** The first pass of db_prepare_message. */
    method BothExist(fd: Reader, sender: string, receiver: string)
      returns (senderExists: bool, receiverExists: bool)
      requires Positioned(fd, [])
      modifies fd
      ensures senderExists == FindLast(RowsOf(fd.data), sender).Some?
      ensures receiverExists == FindLast(RowsOf(fd.data), receiver).Some?
    {
      hide RowsOf, Positioned, FindLast;
      senderExists, receiverExists := false, false;
      ghost var done: seq<Row> := [];
      FindLastEmpty(sender);
      FindLastEmpty(receiver);
      var n, row := NextRow(fd, done);
      while n > 0
        invariant Positioned(fd, Next(done, row)) && fd.pos <= |fd.data|
        invariant n == 0 ==> row.None? && done == RowsOf(fd.data)
        invariant row.Some? ==> row.value.Fits()
        invariant senderExists == FindLast(done, sender).Some?
        invariant receiverExists == FindLast(done, receiver).Some?
        decreases |fd.data| - fd.pos, n
      {
        if row.Some? {
          var r := row.value;
          FindLastAppend(done, r, sender);
          FindLastAppend(done, r, receiver);
          if r.name == sender { senderExists := true; }
          if r.name == receiver { receiverExists := true; }
        }
        done := Next(done, row);
        n, row := NextRow(fd, done);
      }
    }

    /** One row of the second pass of db_prepare_message. */
    method PrepareRow(r: Row, sender: string, receiver: string, noted: Noted,
                      ghost start: FileMap, ghost from: nat, ghost done: seq<Row>)
      returns (noted': Noted)
      requires USERS in start && Copied(fs, start, from, CountSend(sender), done)
      requires r.Fits() && noted.From(FindLast(done, sender), FindLast(done, receiver))
      modifies fs
      ensures Copied(fs, start, from, CountSend(sender), done + [r])
      ensures noted'.From(FindLast(done + [r], sender), FindLast(done + [r], receiver))
    {
      hide FindLast, Copied;
      FindLastAppend(done, r, sender);
      FindLastAppend(done, r, receiver);
      CountedRow(sender, r);
      hide RewriteRow, Row.Fits;
      noted' := noted;
      var lastId := r.lastId;
      if r.name == sender {
        if lastId == UINT_MAX { lastId := 0; }
        lastId := lastId + 1;
        noted' := noted'.(msgId := lastId);
      }
      if r.name == receiver {
        noted' := noted'.(connected := r.connected, ip := r.ip, port := r.port);
      }
      WriteRow(Row(r.name, r.connected, r.ip, r.port, lastId), start, from, CountSend(sender), done, r);
    }

    /** db_prepare_message */
    method Prepare(sender: string, receiver: string) returns (code: int, noted: Noted)
      requires IsCString(sender, 255) && IsCString(receiver, 255)
      modifies fs
      ensures code == F.PrepareCode(old(fs.files), sender, receiver)
      ensures fs.files == F.Prepare(old(fs.files), sender, receiver)
      ensures code == 0 ==> noted.From(F.RowOf(old(fs.files), sender), F.RowOf(old(fs.files), receiver))
      ensures USERS in old(fs.files) ==>
        RewrittenInOneStep(fs.states, |old(fs.states)|, old(fs.files), CountSend(sender))
      ensures USERS in old(fs.files) && code == 0 ==>
        PassesGap(fs.states, |old(fs.states)|, old(fs.files), CountSend(sender))
    {
      noted := Noted(0, 0, "", 0);
      if USERS !in fs.files { code := 2; return; }
      hide RowsOf, PrintRow, PrintRows, RewriteRows, Copied, Positioned, Row.Fits, FindLast, Noted.From;
      ghost var start, from, op := fs.files, |fs.states|, CountSend(sender);
      var fd := OpenTable();
      var senderExists, receiverExists := BothExist(fd, sender, receiver);
      if !senderExists || !receiverExists { code := 1; return; }
      Rewind(fd);
      StartCopy(op);
      noted := SecondPass(fd, sender, receiver, start, from);
      SwapTables(start, from, op);
      code := 0;
    }

    method SecondPass(fd: Reader, sender: string, receiver: string, ghost start: FileMap, ghost from: nat)
      returns (noted: Noted)
      requires Positioned(fd, []) && USERS in start && fd.data == start[USERS]
      requires Copied(fs, start, from, CountSend(sender), [])
      modifies fs, fd
      ensures Copied(fs, start, from, CountSend(sender), RowsOf(start[USERS]))
      ensures noted.From(FindLast(RowsOf(fd.data), sender), FindLast(RowsOf(fd.data), receiver))
    {
      hide RowsOf, PrintRow, PrintRows, RewriteRows, Copied, Positioned, Row.Fits, FindLast, Noted.From;
      noted := Noted(0, 0, "", 0);
      ghost var done: seq<Row> := [];
      NothingNoted(noted, sender, receiver);
      var n, row := NextRow(fd, done);
      while n > 0
        invariant Positioned(fd, Next(done, row)) && fd.pos <= |fd.data|
        invariant n == 0 ==> row.None? && done == RowsOf(fd.data)
        invariant row.Some? ==> row.value.Fits()
        invariant noted.From(FindLast(done, sender), FindLast(done, receiver))
        invariant Copied(fs, start, from, CountSend(sender), done)
        decreases |fd.data| - fd.pos, n
      {
        if row.Some? {
          noted := PrepareRow(row.value, sender, receiver, noted, start, from, done);
        }
        done := Next(done, row);
        n, row := NextRow(fd, done);
      }
    }

    /** db_store_message */
    method Deposit(receiver: string, sender: string, msgId: nat, message: string, fileName: string)
      requires IsCString(receiver, 255) && IsUint32(msgId)
      modifies fs
      ensures fs.files == F.Deposit(old(fs.files), receiver, PendingMsg(sender, msgId, message, fileName))
    {
      var path := MailPath(receiver);
      fs.OpenAppend(path);
      fs.Write(path, Field(sender) + IdBytes(msgId) + Field(message) + Field(fileName));
    }

    /** The db_delete_message loop: the structs with another id go to the temporary file. */
    method CopyOthers(data: string, temp: string, msgId: nat)
      modifies fs
      ensures fs.files == old(fs.files)[temp := Concat(ChunksWithout(Chunks(data), msgId))]
      ensures |old(fs.states)| <= |fs.states|
      ensures forall p :: p in old(fs.files) && p != temp ==>
        FileKept(fs.states, |old(fs.states)|, p, old(fs.files)[p])
    {
      hide RecordId, Chunks, ChunksWithout, Concat;
      fs.Truncate(temp);
      var pos := 0;
      ghost var done: seq<Record> := [];
      assert data[0..] == data;
      CopyNothing(msgId);
      while pos + RECORD <= |data|
        invariant pos <= |data| && Chunks(data) == done + Chunks(data[pos..])
        invariant fs.files == old(fs.files)[temp := Concat(ChunksWithout(done, msgId))]
        invariant |old(fs.states)| <= |fs.states|
        invariant forall p :: p in old(fs.files) && p != temp ==>
          FileKept(fs.states, |old(fs.states)|, p, old(fs.files)[p])
      {
        var msg: Record := data[pos..pos + RECORD];
        ChunkStep(data, pos);
        ChunksWithoutAppend(done, msg, msgId);
        if RecordId(msg) != msgId {
          fs.Write(temp, msg);
        }
        done := done + [msg];
        pos := pos + RECORD;
      }
      ChunksEnd(data[pos..]);
      assert done == Chunks(data);
    }

    /** unlink(path); rename(temp, path) */
    method ReplaceFile(path: string, temp: string, ghost from: nat, ghost w: Swap)
      requires path in fs.files && temp in fs.files && path != temp
      requires w.path == path && w.temp == temp && fs.files[temp] == w.after
      requires from <= |fs.states| && Swapped(fs.states, from, w)
      modifies fs
      ensures fs.files == old(fs.files)[path := old(fs.files)[temp]] - {temp}
      ensures from <= |fs.states| && Swapped(fs.states, from, w)
      ensures Passes(fs.states, from, old(fs.files) - {path}) && Passes(fs.states, from, fs.files)
    {
      hide Swapped, Passes;
      fs.Unlink(path);
      SwappedAppend(old(fs.states), from, w, fs.files);
      PassesAppend(old(fs.states), from, fs.files, fs.files);
      label renaming:
      fs.Rename(temp, path);
      SwappedAppend(old@renaming(fs.states), from, w, fs.files);
      PassesAppend(old@renaming(fs.states), from, old@renaming(fs.files), fs.files);
    }

    /** db_delete_message */
    method Remove(user: string, msgId: nat)
      requires IsCString(user, 255)
      modifies fs
      ensures fs.files == F.Remove(old(fs.files), user, msgId)
      ensures MailPath(user) in old(fs.files) ==>
        && Swapped(fs.states, |old(fs.states)|, MailSwap(old(fs.files), user, msgId))
        && Passes(fs.states, |old(fs.states)|, InGap(old(fs.files), MailSwap(old(fs.files), user, msgId)))
    {
      var path, temp := MailPath(user), TempMailPath(user);
      PathsDiffer(user, user);
      hide MailPath, TempMailPath, RecordId, Chunks, ChunksWithout, Concat;
      if path !in fs.files { return; }
      ghost var from, w := |fs.states|, MailSwap(fs.files, user, msgId);
      CopyOthers(fs.files[path], temp, msgId);
      KeptIsSwapped(fs.states, from, w);
      ReplaceFile(path, temp, from, w);
    }

    /** db_get_pending_messages */
    method GetPending(user: string) returns (msgs: seq<PendingMsg>)
      requires IsCString(user, 255)
      ensures msgs == F.Pending(fs.files, user)
    {
      var path := MailPath(user);
      if path !in fs.files { return []; }
      var data := fs.files[path];
      var size := |data|;
      var numMsgs := size / RECORD;
      ChunksAt(data);
      msgs := seq(numMsgs, i requires 0 <= i < numMsgs => Decode(data[i * RECORD..(i + 1) * RECORD]));
    }

    /** db_get_connected_users: a counting pass, then a pass that fills the array exactly. */
    method GetConnected(requester: string) returns (code: int, list: array<string>)
      requires IsCString(requester, 255)
      ensures code == match F.RowOf(fs.files, requester)
                      case None => 2
                      case Some(r) => if r.connected == 0 then 1 else 0
      ensures fresh(list)
      ensures code == 0 ==> list[..] == L.Entries(RowsOf(fs.files[USERS]))
    {
      list := new string[0];
      if USERS !in fs.files { return 2, list; }
      hide RowsOf, Positioned, FindLast, L.Entries;
      var fd := OpenTable();
      var found, count := CountConnected(fd, requester);
      if found.None? { return 2, list; }
      if found.value.connected == 0 { return 1, list; }
      if count > 0 {
        Rewind(fd);
        list := FillConnected(fd, count);
      }
      code := 0;
    }

    method CountConnected(fd: Reader, requester: string) returns (found: Option<Row>, count: nat)
      requires Positioned(fd, [])
      modifies fd
      ensures found == FindLast(RowsOf(fd.data), requester)
      ensures count == |L.Entries(RowsOf(fd.data))|
    {
      hide RowsOf, Positioned, FindLast, L.Entries;
      found, count := None, 0;
      ghost var done: seq<Row> := [];
      FindLastEmpty(requester);
      EntriesEmpty();
      var n, row := NextRow(fd, done);
      while n > 0
        invariant Positioned(fd, Next(done, row)) && fd.pos <= |fd.data|
        invariant n == 0 ==> row.None? && done == RowsOf(fd.data)
        invariant found == FindLast(done, requester) && count == |L.Entries(done)|
        decreases |fd.data| - fd.pos, n
      {
        if row.Some? {
          FindLastAppend(done, row.value, requester);
          EntriesAppend(done, row.value);
          if row.value.name == requester { found := row; }
          if row.value.connected == 1 { count := count + 1; }
        }
        done := Next(done, row);
        n, row := NextRow(fd, done);
      }
    }

    method FillConnected(fd: Reader, count: nat) returns (list: array<string>)
      requires Positioned(fd, []) && count == |L.Entries(RowsOf(fd.data))|
      modifies fd
      ensures fresh(list) && list[..] == L.Entries(RowsOf(fd.data))
    {
      hide RowsOf, FindLast, L.Entries, L.Entry, Snprintf;
      list := new string[count];
      var idx := 0;
      ghost var done: seq<Row> := [];
      EntriesEmpty();
      var n, row := NextRow(fd, done);
      while n > 0
        invariant Positioned(fd, Next(done, row)) && fd.pos <= |fd.data|
        invariant n == 0 ==> row.None? && done == RowsOf(fd.data)
        invariant row.Some? ==> row.value.Fits()
        invariant idx == |L.Entries(done)| <= list.Length && list[..idx] == L.Entries(done)
        decreases |fd.data| - fd.pos, n
      {
        if row.Some? {
          var r := row.value;
          EntriesAppend(done, r);
          L.EntriesConcat(done + [r], RowsOf(fd.data[fd.pos..]));
          if r.connected == 1 {
            L.EntryNotTruncated(r);
            list[idx] := Snprintf(L.ENTRY_BUFFER, L.Entry(r));
            idx := idx + 1;
          }
        }
        done := Next(done, row);
        n, row := NextRow(fd, done);
      }
    }

    /** get_user_info (funciones.c): one fscanf loop over the whole file. */
    method GetUserInfo(user: string) returns (found: Option<Row>)
      requires IsCString(user, 255)
      ensures found == if USERS in fs.files then FindFirst(StreamRows(fs.files[USERS]), user) else None
    {
      if USERS !in fs.files { return None; }
      var data := fs.files[USERS];
      var scanned := ScanRow(data);
      while scanned.Some?
        invariant FindFirst(StreamRows(fs.files[USERS]), user) == FindFirst(StreamRows(data), user)
        invariant scanned == ScanRow(data)
        decreases |data|
      {
        var (r, rest) := scanned.value;
        assert StreamRows(data)[1..] == StreamRows(rest);
        if r.name == user { return Some(r); }
        data := rest;
        scanned := ScanRow(data);
      }
      found := None;
    }

    /** db_init */
    method Init()
      modifies fs
      ensures fs.files == Restart(old(fs.files))
      ensures fs.files == if USERS in old(fs.files) then old(fs.files) else old(fs.files)[USERS := ""]
    {
      fs.OpenAppend(USERS);
    }
  }

  lemma CountedRow(sender: string, r: Row)
    requires r.Fits()
    ensures var lastId := if r.name == sender then S.NextId(r.lastId) else r.lastId;
            var q := Row(r.name, r.connected, r.ip, r.port, lastId);
            q.Fits() && RewriteRow(CountSend(sender), r) == [q]
  {
  }

  lemma NoIpFits()
    ensures IsToken(S.NO_IP, 19)
  {
    assert !IsSpace('0') && !IsSpace('.');
  }

  lemma EntriesEmpty()
    ensures L.Entries([]) == []
  {
  }

  lemma EntriesAppend(done: seq<Row>, r: Row)
    ensures L.Entries(done + [r]) == if r.connected == 1 then L.Entries(done) + [L.Entry(r)] else L.Entries(done)
  {
    assert (done + [r])[..|done|] == done;
  }

  lemma CopyNothing(id: nat)
    ensures Concat(ChunksWithout([], id)) == ""
  {
  }

  lemma ChunkStep(data: string, pos: nat)
    requires pos + RECORD <= |data|
    ensures Chunks(data[pos..]) == [data[pos..pos + RECORD]] + Chunks(data[pos + RECORD..])
  {
    assert data[pos..][..RECORD] == data[pos..pos + RECORD] && data[pos..][RECORD..] == data[pos + RECORD..];
  }

  lemma ChunksEnd(data: string)
    requires |data| < RECORD
    ensures Chunks(data) == []
  {
  }

  lemma ChunksWithoutAppend(done: seq<Record>, msg: Record, id: nat)
    ensures Concat(ChunksWithout(done + [msg], id)) ==
      if RecordId(msg) != id then Concat(ChunksWithout(done, id)) + msg else Concat(ChunksWithout(done, id))
  {
    assert (done + [msg])[..|done|] == done;
    var a := ChunksWithout(done, id);
    assert (a + [msg])[..|a|] == a;
    assert a + [] == a;
  }

  lemma {:induction false} ChunksAt(data: string)
    ensures |Chunks(data)| == |data| / RECORD
    ensures forall i :: 0 <= i < |Chunks(data)| ==>
      (i + 1) * RECORD <= |data| && Chunks(data)[i] == data[i * RECORD..(i + 1) * RECORD]
    decreases |data|
  {
    if |data| >= RECORD {
      var rest := data[RECORD..];
      ChunksAt(rest);
      forall i | 0 <= i < |Chunks(data)|
        ensures (i + 1) * RECORD <= |data| && Chunks(data)[i] == data[i * RECORD..(i + 1) * RECORD]
      {
        if i > 0 {
          ChunkBelow(data, i);
        }
      }
    }
  }

  lemma ChunkBelow(data: string, i: nat)
    requires |data| >= RECORD && 0 < i && i * RECORD + RECORD <= |data|
    ensures data[RECORD..][(i - 1) * RECORD..(i - 1 + 1) * RECORD] == data[i * RECORD..(i + 1) * RECORD]
  {
  }
}
