/** Every db_* call on the bytes is the corresponding step of the abstract store. */
module Refinement {
  import opened Text
  import opened Rows
  import opened Readers
  import opened F = Files
  import S = MessageStore
  import Mail

  lemma RowOfRepresents(files: FileMap, st: S.Store, user: string)
    requires Represents(files, st)
    ensures user in st.users <==> F.RowOf(files, user).Some?
    ensures user in st.users ==>
      var r := F.RowOf(files, user).value;
      st.users[user] == ToUser(r) && r.Fits() && RowOk(r)
  {
    var rows := RowsOf(files[USERS]);
    UsersLookup(rows, user);
  }

  /** Only usuarios.txt and the table's temporary file changed. */
  lemma MailUntouched(files: FileMap, files': FileMap, boxes: map<string, seq<Mail.PendingMsg>>)
    requires MailRepresents(files, boxes)
    requires forall p :: p != USERS && p != TEMP ==> (p in files <==> p in files') && (p in files ==> files[p] == files'[p])
    ensures MailRepresents(files', boxes)
  {
    forall r
      ensures (MailPath(r) in files' <==> r in boxes)
           && (r in boxes ==> Mail.AllFit(boxes[r]) && files'[MailPath(r)] == Mail.EncodeAll(boxes[r]))
    {
      PathsDiffer(r, r);
      assert MailPath(r) in files <==> r in boxes;
    }
  }

  lemma RewrittenRepresents(files: FileMap, st: S.Store, op: Rewrite)
    requires Represents(files, st) && OpFits(op)
    ensures Represents(Rewritten(files, op), st.(users := RewriteUsers(op, st.users)))
  {
    hide PrintRow, RewriteRow, RewriteRows, RewriteUsers, RowsOf, Users, OpFits, MailRepresents, RowOk;
    var rows := RowsOf(files[USERS]);
    RewriteNames(op, rows);
    RewriteRefines(op, rows);
    RowsOfPrinted(RewriteRows(op, rows));
    TablePathsDiffer();
    MailUntouched(files, Rewritten(files, op), st.boxes);
  }

  lemma TempDropped(files: FileMap, st: S.Store)
    requires Represents(files, st)
    ensures Represents(files - {TEMP}, st)
  {
    TablePathsDiffer();
    MailUntouched(files, files - {TEMP}, st.boxes);
  }

  lemma {:induction false} ConnectRefines(files: FileMap, st: S.Store, user: string, ip: string, port: int)
    requires Represents(files, st) && IsToken(ip, 19) && IsInt32(port)
    ensures F.ConnectCode(files, user) == S.ConnectCode(st, user)
    ensures Represents(F.Connect(files, user, ip, port), S.Connect(st, user, ip, port))
  {
    RowOfRepresents(files, st, user);
    RewrittenRepresents(files, st, GoOnline(user, ip, port));
    TempDropped(files, st);
  }

  lemma {:induction false} DisconnectRefines(files: FileMap, st: S.Store, user: string)
    requires Represents(files, st)
    ensures F.DisconnectCode(files, user) == S.DisconnectCode(st, user)
    ensures Represents(F.Disconnect(files, user), S.Disconnect(st, user))
  {
    RowOfRepresents(files, st, user);
    RewrittenRepresents(files, st, GoOffline(user));
    TempDropped(files, st);
  }

  lemma {:induction false} PrepareRefines(files: FileMap, st: S.Store, sender: string, receiver: string)
    requires Represents(files, st)
    ensures F.PrepareCode(files, sender, receiver) == S.PrepareCode(st, sender, receiver)
    ensures S.PrepareCode(st, sender, receiver) == 0 ==>
      Represents(F.Prepare(files, sender, receiver), S.Prepare(st, sender))
  {
    RowOfRepresents(files, st, sender);
    RowOfRepresents(files, st, receiver);
    RewrittenRepresents(files, st, CountSend(sender));
  }

  lemma {:induction false} UnregisterRefines(files: FileMap, st: S.Store, user: string)
    requires Represents(files, st)
    ensures F.UnregisterCode(files, user) == S.UnregisterCode(st, user)
    ensures Represents(F.Unregister(files, user), S.Unregister(st, user))
  {
    RowOfRepresents(files, st, user);
    TempDropped(files, st);
    if user in st.users {
      RewrittenRepresents(files, st, Drop(user));
      MailboxDropped(Rewritten(files, Drop(user)), st.(users := st.users - {user}), user);
    }
  }

  lemma MailboxDropped(files: FileMap, st: S.Store, user: string)
    requires Represents(files, st)
    ensures Represents(files - {MailPath(user)}, st.(boxes := st.boxes - {user}))
  {
    PathsDiffer(user, user);
    forall r
      ensures MailPath(r) in files - {MailPath(user)} <==> r in st.boxes - {user}
    {
      PathsDiffer(r, user);
      assert MailPath(r) in files <==> r in st.boxes;
    }
  }

  /** A new user is a new last row exactly when the name is one non-empty word. For any other
      new name the old rows stay and the rows of its line, if any, come after them. */
  lemma {:induction false} RegisterRefines(files: FileMap, st: S.Store, user: string)
    requires Represents(files, st) && IsCString(user, 255)
    ensures F.RegisterCode(files, user) == S.RegisterCode(st, user)
    ensures Represents(F.Register(files, user), S.Register(st, user)) <==> user in st.users || IsToken(user, 255)
    ensures user !in st.users ==>
      RowsOf(F.Register(files, user)[USERS]) == RowsOf(files[USERS]) + RowsOf(RegisterLine(user))
    ensures user !in st.users && IsToken(user, 255) ==>
      RowsOf(F.Register(files, user)[USERS]) == RowsOf(files[USERS]) + [Row(user, 0, S.NO_IP, 0, 0)]
  {
    hide RegisterLine, RowsOf, PrintRow, PrintRows, Row.Fits, Users;
    RowOfRepresents(files, st, user);
    if user !in st.users {
      hide F.RowOf, F.Register, S.Register, Represents;
      LineAppended(files, st, user);
      if IsToken(user, 255) {
        NewRow(files, st, user);
      } else {
        NotARow(files, st, user);
      }
    }
  }

  lemma NotARow(files: FileMap, st: S.Store, user: string)
    requires user !in st.users && !IsToken(user, 255)
    ensures !Represents(F.Register(files, user), S.Register(st, user))
  {
    hide F.Register;
    if Represents(F.Register(files, user), S.Register(st, user)) {
      RowOfRepresents(F.Register(files, user), S.Register(st, user), user);
    }
  }

  lemma LineAppended(files: FileMap, st: S.Store, user: string)
    requires Represents(files, st) && user !in st.users
    ensures USERS in F.Register(files, user)
    ensures RowsOf(F.Register(files, user)[USERS]) == RowsOf(files[USERS]) + RowsOf(RegisterLine(user))
  {
    hide RegisterLine;
    RowOfRepresents(files, st, user);
    PrintedInStep(RowsOf(files[USERS]));
    RowsOfThen(files[USERS], RegisterLine(user));
  }

  lemma NewRowOk(rows: seq<Row>, row: Row)
    requires TableOk(rows) && row.Fits() && RowOk(row) && FindLast(rows, row.name).None?
    ensures TableOk(rows + [row])
  {
    hide FindLast;
  }

  lemma NewRow(files: FileMap, st: S.Store, user: string)
    requires Represents(files, st) && user !in st.users && IsToken(user, 255)
    ensures Represents(F.Register(files, user), S.Register(st, user))
    ensures RowsOf(F.Register(files, user)[USERS]) == RowsOf(files[USERS]) + [Row(user, 0, S.NO_IP, 0, 0)]
  {
    hide PrintRow, RegisterLine, RowsOf, Row.Fits, IsToken, MailRepresents;
    var rows := RowsOf(files[USERS]);
    var row := Row(user, 0, S.NO_IP, 0, 0);
    RowOfRepresents(files, st, user);
    NewRowPrinted(user);
    PrintRowsConcat(rows, [row]);
    assert PrintRows([row]) == PrintRows([]) + PrintRow(row);
    assert PrintRows(rows) + PrintRow(row) == PrintRows(rows + [row]);
    NewRowOk(rows, row);
    RowsOfPrinted(rows + [row]);
    UsersAppend(rows, row);
    MailUntouched(files, F.Register(files, user), st.boxes);
  }

  /** Only one mailbox file, and its temporary file, changed. */
  lemma MailboxChanged(files: FileMap, files': FileMap, boxes: map<string, seq<Mail.PendingMsg>>,
                       receiver: string, q: seq<Mail.PendingMsg>)
    requires MailRepresents(files, boxes) && Mail.AllFit(q)
    requires MailPath(receiver) in files' && files'[MailPath(receiver)] == Mail.EncodeAll(q)
    requires forall p :: p != MailPath(receiver) && p != TempMailPath(receiver) ==>
      (p in files <==> p in files') && (p in files ==> files[p] == files'[p])
    ensures MailRepresents(files', boxes[receiver := q])
    ensures forall users :: TableRepresents(files, users) ==> TableRepresents(files', users)
  {
    PathsDiffer(receiver, receiver);
    var boxes' := boxes[receiver := q];
    forall r
      ensures (MailPath(r) in files' <==> r in boxes')
           && (r in boxes' ==> Mail.AllFit(boxes'[r]) && files'[MailPath(r)] == Mail.EncodeAll(boxes'[r]))
    {
      PathsDiffer(r, receiver);
      assert MailPath(r) in files <==> r in boxes;
    }
  }

  lemma {:induction false} DepositRefines(files: FileMap, st: S.Store, receiver: string, m: Mail.PendingMsg)
    requires Represents(files, st) && m.Fits()
    ensures Represents(F.Deposit(files, receiver, m), S.Deposit(st, receiver, m))
  {
    hide Mail.Encode, TableRepresents;
    var q := S.Box(st, receiver);
    assert MailPath(receiver) in files <==> receiver in st.boxes;
    assert Mail.EncodeAll([]) == "";
    Mail.StoreAppends(q, m);
    MailboxChanged(files, F.Deposit(files, receiver, m), st.boxes, receiver, q + [m]);
  }

  lemma {:induction false} RemoveRefines(files: FileMap, st: S.Store, receiver: string, id: nat)
    requires Represents(files, st)
    ensures Represents(F.Remove(files, receiver, id), S.Remove(st, receiver, id))
  {
    hide TableRepresents, Mail.Chunks, Mail.ChunksWithout, Mail.Concat, Mail.WithoutId, Mail.EncodeAll;
    assert MailPath(receiver) in files <==> receiver in st.boxes;
    if receiver in st.boxes {
      var q := st.boxes[receiver];
      PathsDiffer(receiver, receiver);
      Mail.DeleteFilters(q, id);
      MailboxChanged(files, F.Remove(files, receiver, id), st.boxes, receiver, Mail.WithoutId(q, id));
    }
  }

  lemma {:induction false} PendingRefines(files: FileMap, st: S.Store, receiver: string)
    requires Represents(files, st)
    ensures F.Pending(files, receiver) == S.Box(st, receiver)
    ensures Mail.AllFit(S.Box(st, receiver))
  {
    assert MailPath(receiver) in files <==> receiver in st.boxes;
    if receiver in st.boxes {
      Mail.QueueRoundTrip(st.boxes[receiver]);
    }
  }

  /** get_user_info, which scans with fscanf and stops at the first match, reads the same
      row as the line readers, which remember the last match. */
  lemma {:induction false} InfoRefines(files: FileMap, st: S.Store, user: string)
    requires Represents(files, st)
    ensures var r := FindFirst(StreamRows(files[USERS]), user);
      && r == F.RowOf(files, user)
      && (r.Some? <==> user in st.users)
      && (r.Some? ==> ToUser(r.value) == st.users[user] && RowOk(r.value) && r.value.Fits())
  {
    var rows := RowsOf(files[USERS]);
    ReadersAgree(rows);
    RowOfRepresents(files, st, user);
    var a, b := FindFirst(rows, user), FindLast(rows, user);
    if a.Some? && b.Some? {
      var i :| 0 <= i < |rows| && rows[i] == a.value;
      var j :| 0 <= j < |rows| && rows[j] == b.value;
      assert i == j;
    }
  }

  /** What registering an empty name leaves in the table: a user called "0". */
  lemma {:induction false} EmptyNameReadsBackAsZero()
    ensures ParseLine(RegisterLine("")) == [Row("0", 0, ".0.0.0", 0, 0)]
  {
    var s1, s2, s3, s4 := " 0.0.0.0 0 0\n", ".0.0.0 0 0\n", " 0 0\n", " 0\n";
    assert Dec(0) == "0";
    assert RegisterLine("") == " " + ("0" + s1);
    ScanZeroRow(s1, s2, s3, s4, "\n");
  }
}
