/** What each db_* call makes of the files, for whatever they contain, and how the files
    represent the abstract store. */
module Files {
  import opened Text
  import opened Rows
  import opened MessageStore
  import Mail

  type FileMap = map<string, string>

  const USERS := "database/usuarios.txt"
  const TEMP := "database/temp_usuarios.txt"

  function MailPath(user: string): string {
    "database/mensajes_" + user + ".dat"
  }

  function TempMailPath(user: string): string {
    "database/temp_mensajes_" + user + ".dat"
  }

  lemma TablePathsDiffer()
    ensures USERS != TEMP
  {
    assert USERS[9] != TEMP[9];
  }

  lemma PathsDiffer(user: string, other: string)
    ensures MailPath(user) == MailPath(other) ==> user == other
    ensures MailPath(user) != TempMailPath(other)
    ensures MailPath(user) != USERS && MailPath(user) != TEMP
    ensures TempMailPath(user) != USERS && TempMailPath(user) != TEMP
  {
    if MailPath(user) == MailPath(other) {
      assert |user| == |other|;
      forall i | 0 <= i < |user| ensures user[i] == other[i] {
        assert MailPath(user)[18 + i] == user[i] && MailPath(other)[18 + i] == other[i];
      }
    }
    assert MailPath(user)[9] == 'm' && TempMailPath(other)[9] == 't' && USERS[9] == 'u' && TEMP[9] == 't';
    assert TempMailPath(user)[9] == 't' && TempMailPath(user)[14] == 'm' && TEMP[14] == 'u';
  }

  // ------------------------------------------------ rewriting usuarios.txt

  /** The four loops that copy usuarios.txt to the temporary file row by row. */
  datatype Rewrite =
    | Drop(user: string)
    | GoOnline(user: string, ip: string, port: int)
    | GoOffline(user: string)
    | CountSend(user: string)

  function RewriteRow(op: Rewrite, r: Row): seq<Row> {
    if r.name != op.user then [r]
    else
      match op
      case Drop(_) => []
      case GoOnline(_, ip, port) => [if r.connected == 1 then r else r.(connected := 1, ip := ip, port := port)]
      case GoOffline(_) => [if r.connected == 0 then r else r.(connected := 0, ip := NO_IP, port := 0)]
      case CountSend(_) => [r.(lastId := NextId(r.lastId))]
  }

  function RewriteRows(op: Rewrite, rows: seq<Row>): seq<Row> {
    if rows == [] then []
    else RewriteRows(op, rows[..|rows| - 1]) + RewriteRow(op, rows[|rows| - 1])
  }

  /** usuarios.txt rewritten through the temporary file, which the rename consumes. */
  function Rewritten(files: FileMap, op: Rewrite): FileMap
    requires USERS in files
  {
    files[USERS := PrintRows(RewriteRows(op, RowsOf(files[USERS])))] - {TEMP}
  }

  function RowOf(files: FileMap, user: string): Option<Row> {
    if USERS in files then FindLast(RowsOf(files[USERS]), user) else None
  }

  function RegisterLine(user: string): string {
    user + " 0 0.0.0.0 0 0\n"
  }

  function RegisterCode(files: FileMap, user: string): int {
    if RowOf(files, user).Some? then 1 else 0
  }

  function Register(files: FileMap, user: string): FileMap {
    if RowOf(files, user).Some? then files
    else files[USERS := (if USERS in files then files[USERS] else "") + RegisterLine(user)]
  }

  function UnregisterCode(files: FileMap, user: string): int {
    if RowOf(files, user).Some? then 0 else 1
  }

  function Unregister(files: FileMap, user: string): FileMap {
    if RowOf(files, user).Some? then Rewritten(files, Drop(user)) - {MailPath(user)}
    else if USERS in files then files - {TEMP}
    else files
  }

  function ConnectStatus(found: Option<Row>): int {
    match found
    case None => 1
    case Some(r) => if r.connected == 1 then 2 else 0
  }

  function ConnectCode(files: FileMap, user: string): int {
    ConnectStatus(RowOf(files, user))
  }

  function Connect(files: FileMap, user: string, ip: string, port: int): FileMap {
    if ConnectCode(files, user) == 0 then Rewritten(files, GoOnline(user, ip, port))
    else if USERS in files then files - {TEMP}
    else files
  }

  function DisconnectStatus(found: Option<Row>): int {
    match found
    case None => 1
    case Some(r) => if r.connected == 0 then 2 else 0
  }

  function DisconnectCode(files: FileMap, user: string): int {
    DisconnectStatus(RowOf(files, user))
  }

  function Disconnect(files: FileMap, user: string): FileMap {
    if DisconnectCode(files, user) == 0 then Rewritten(files, GoOffline(user))
    else if USERS in files then files - {TEMP}
    else files
  }

  function PrepareCode(files: FileMap, sender: string, receiver: string): int {
    if USERS !in files then 2
    else if RowOf(files, sender).Some? && RowOf(files, receiver).Some? then 0
    else 1
  }

  function Prepare(files: FileMap, sender: string, receiver: string): FileMap {
    if PrepareCode(files, sender, receiver) == 0 then Rewritten(files, CountSend(sender)) else files
  }

  function Deposit(files: FileMap, receiver: string, m: Mail.PendingMsg): FileMap
    requires IsUint32(m.id)
  {
    var path := MailPath(receiver);
    files[path := (if path in files then files[path] else "") + Mail.Encode(m)]
  }

  function Remove(files: FileMap, receiver: string, id: nat): FileMap {
    var path := MailPath(receiver);
    if path !in files then files
    else files[path := Mail.Concat(Mail.ChunksWithout(Mail.Chunks(files[path]), id))] - {TempMailPath(receiver)}
  }

  function Pending(files: FileMap, receiver: string): seq<Mail.PendingMsg> {
    var path := MailPath(receiver);
    if path in files then Mail.DecodeAll(Mail.Chunks(files[path])) else []
  }

  // --------------------------------------------- files represent a store

  function ToUser(r: Row): User {
    User(r.connected == 1, r.ip, r.port, r.lastId)
  }

  function Users(rows: seq<Row>): map<string, User> {
    if rows == [] then map[]
    else
      var last := rows[|rows| - 1];
      Users(rows[..|rows| - 1])[last.name := ToUser(last)]
  }

  /** Unique names, connected in {0, 1}, and offline rows at 0.0.0.0 port 0. */
  ghost predicate TableOk(rows: seq<Row>) {
    && AllFit(rows)
    && (forall i, j :: 0 <= i < j < |rows| ==> rows[i].name != rows[j].name)
    && (forall i :: 0 <= i < |rows| ==> RowOk(rows[i]))
  }

  predicate RowOk(r: Row) {
    (r.connected == 0 && r.ip == NO_IP && r.port == 0) || r.connected == 1
  }

  ghost predicate TableRepresents(files: FileMap, users: map<string, User>) {
    && USERS in files
    && var rows := RowsOf(files[USERS]);
       TableOk(rows) && files[USERS] == PrintRows(rows) && users == Users(rows)
  }

  ghost predicate MailRepresents(files: FileMap, boxes: map<string, seq<Mail.PendingMsg>>) {
    forall r :: (MailPath(r) in files <==> r in boxes)
             && (r in boxes ==> Mail.AllFit(boxes[r]) && files[MailPath(r)] == Mail.EncodeAll(boxes[r]))
  }

  ghost predicate Represents(files: FileMap, st: Store) {
    TableRepresents(files, st.users) && MailRepresents(files, st.boxes)
  }

  // ------------------------------------------------------- table lemmas

  lemma {:induction false} UsersLookup(rows: seq<Row>, name: string)
    ensures name in Users(rows) <==> FindLast(rows, name).Some?
    ensures name in Users(rows) ==> Users(rows)[name] == ToUser(FindLast(rows, name).value)
  {
    if rows != [] {
      UsersLookup(rows[..|rows| - 1], name);
    }
  }

  predicate OpFits(op: Rewrite) {
    op.GoOnline? ==> IsToken(op.ip, 19) && IsInt32(op.port)
  }

  lemma {:induction false} RewriteOthers(op: Rewrite, rows: seq<Row>)
    requires forall i :: 0 <= i < |rows| ==> rows[i].name != op.user
    ensures RewriteRows(op, rows) == rows
  {
    if rows != [] {
      RewriteOthers(op, rows[..|rows| - 1]);
    }
  }

  /** The abstract effect of a rewrite on the user table. */
  function RewriteUsers(op: Rewrite, users: map<string, User>): map<string, User> {
    if op.user !in users then users
    else
      var u := users[op.user];
      match op
      case Drop(_) => users - {op.user}
      case GoOnline(_, ip, port) => if u.online then users else users[op.user := User(true, ip, port, u.lastId)]
      case GoOffline(_) => if u.online then users[op.user := User(false, NO_IP, 0, u.lastId)] else users
      case CountSend(_) => users[op.user := u.(lastId := NextId(u.lastId))]
  }

  lemma RewriteRowKeeps(op: Rewrite, r: Row)
    requires r.Fits() && RowOk(r) && OpFits(op)
    ensures forall q :: q in RewriteRow(op, r) ==> q.name == r.name && q.Fits() && RowOk(q)
    ensures |RewriteRow(op, r)| == if op.Drop? && r.name == op.user then 0 else 1
    ensures r.name != op.user ==> RewriteRow(op, r) == [r]
  {
    assert !IsSpace('0') && !IsSpace('.');
  }

  lemma {:induction false} RewriteNames(op: Rewrite, rows: seq<Row>)
    requires TableOk(rows) && OpFits(op)
    ensures TableOk(RewriteRows(op, rows))
    ensures forall i :: 0 <= i < |RewriteRows(op, rows)| ==>
      exists j :: 0 <= j < |rows| && RewriteRows(op, rows)[i].name == rows[j].name
  {
    if rows != [] {
      var init, last := rows[..|rows| - 1], rows[|rows| - 1];
      RewriteNames(op, init);
      RewriteRowKeeps(op, last);
      var a, b := RewriteRows(op, init), RewriteRow(op, last);
      forall i | 0 <= i < |a| ensures a[i].name != last.name {
        var j :| 0 <= j < |init| && a[i].name == init[j].name;
        assert init[j] == rows[j];
      }
      forall i | 0 <= i < |a + b|
        ensures exists j :: 0 <= j < |rows| && (a + b)[i].name == rows[j].name
      {
        if i < |a| {
          var j :| 0 <= j < |init| && a[i].name == init[j].name;
          assert (a + b)[i].name == rows[j].name;
        } else {
          assert (a + b)[i] in b && (a + b)[i].name == rows[|rows| - 1].name;
        }
      }
    }
  }

  lemma UsersAppend(rows: seq<Row>, last: Row)
    ensures Users(rows + [last]) == Users(rows)[last.name := ToUser(last)]
  {
    assert (rows + [last])[..|rows|] == rows;
  }

  lemma RewriteLastRow(op: Rewrite, init: seq<Row>, last: Row)
    requires last.name == op.user && op.user !in Users(init) && RowOk(last)
    ensures Users(init + RewriteRow(op, last)) == RewriteUsers(op, Users(init)[last.name := ToUser(last)])
  {
    if op.Drop? {
      assert init + RewriteRow(op, last) == init;
      assert Users(init)[last.name := ToUser(last)] - {op.user} == Users(init);
    } else {
      UsersAppend(init, RewriteRow(op, last)[0]);
    }
  }

  lemma RewriteCommutes(op: Rewrite, users: map<string, User>, name: string, u: User)
    requires name != op.user
    ensures RewriteUsers(op, users)[name := u] == RewriteUsers(op, users[name := u])
  {
  }

  /** A rewrite of the rows is the update of the user map. */
  lemma {:induction false} RewriteRefines(op: Rewrite, rows: seq<Row>)
    requires TableOk(rows) && OpFits(op)
    ensures Users(RewriteRows(op, rows)) == RewriteUsers(op, Users(rows))
  {
    if rows != [] {
      hide RewriteRow, RewriteUsers;
      var init, last := rows[..|rows| - 1], rows[|rows| - 1];
      assert TableOk(init) && RowOk(last) && last.Fits();
      if last.name == op.user {
        RewriteOthers(op, init);
        UsersLookup(init, op.user);
        RewriteLastRow(op, init, last);
      } else {
        RewriteRefines(op, init);
        RewriteRowKeeps(op, last);
        UsersAppend(RewriteRows(op, init), last);
        RewriteCommutes(op, Users(init), last.name, ToUser(last));
      }
    }
  }

  /** Without a drop the table keeps its length, its names and every other row. */
  lemma {:induction false} RewriteKeepsOthers(op: Rewrite, rows: seq<Row>)
    requires !op.Drop?
    ensures |RewriteRows(op, rows)| == |rows|
    ensures forall i :: 0 <= i < |rows| ==>
      && RewriteRows(op, rows)[i].name == rows[i].name
      && (rows[i].name != op.user ==> RewriteRows(op, rows)[i] == rows[i])
  {
    if rows != [] {
      RewriteKeepsOthers(op, rows[..|rows| - 1]);
    }
  }

  /** A drop takes out the user's one row and leaves the rest as it was, in order. */
  lemma {:induction false} DropTakesOneRow(user: string, rows: seq<Row>, i: nat)
    requires i < |rows| && rows[i].name == user
    requires forall j :: 0 <= j < |rows| && j != i ==> rows[j].name != user
    ensures RewriteRows(Drop(user), rows) == rows[..i] + rows[i + 1..]
  {
    var init := rows[..|rows| - 1];
    if i == |rows| - 1 {
      RewriteOthers(Drop(user), init);
    } else {
      DropTakesOneRow(user, init, i);
      assert rows[..i] + rows[i + 1..] == init[..i] + init[i + 1..] + [rows[|rows| - 1]];
    }
  }

  /** Without usuarios.txt nobody is known: registering creates it, and every other call fails. */
  lemma NoTable(files: FileMap, user: string, other: string)
    requires USERS !in files
    ensures RowOf(files, user).None?
    ensures RegisterCode(files, user) == 0 && Register(files, user) == files[USERS := user + " 0 0.0.0.0 0 0\n"]
    ensures UnregisterCode(files, user) == 1 && ConnectCode(files, user) == 1 && DisconnectCode(files, user) == 1
    ensures PrepareCode(files, user, other) == 2
    ensures forall ip, port :: Connect(files, user, ip, port) == files
    ensures Unregister(files, user) == Disconnect(files, user) == Prepare(files, user, other) == files
  {
    assert "" + RegisterLine(user) == RegisterLine(user);
  }

  /** The codes read off a row as it stands in the file, whatever its flag is. */
  lemma RowCodes(files: FileMap, user: string)
    requires RowOf(files, user).Some?
    ensures var flag := RowOf(files, user).value.connected;
      && RegisterCode(files, user) == 1 && UnregisterCode(files, user) == 0
      && ConnectCode(files, user) == (if flag == 1 then 2 else 0)
      && DisconnectCode(files, user) == (if flag == 0 then 2 else 0)
  {
  }
}
