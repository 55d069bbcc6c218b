/** The list of connected users: the entries the server builds and the directory the client
    splits them back into. */
module Listing {
  import opened Text
  import opened Rows
  import opened Wire
  import opened Frames
  import F = Files
  import S = MessageStore

  // ---------------------------------------------------------- server side

  const ENTRY_BUFFER: nat := 400

  /** snprintf(…, "%s :: %s :: %d", …) before any truncation. */
  function Entry(r: Row): string {
    r.name + " :: " + (r.ip + " :: " + Dec(r.port))
  }

  /** One entry per connected row, in file order. */
  function Entries(rows: seq<Row>): seq<string> {
    if rows == [] then []
    else
      var last := rows[|rows| - 1];
      Entries(rows[..|rows| - 1]) + if last.connected == 1 then [Entry(last)] else []
  }

  lemma EntryNotTruncated(r: Row)
    requires r.Fits()
    ensures Snprintf(ENTRY_BUFFER, Entry(r)) == Entry(r) && |Entry(r)| <= 293 && ENTRY_BUFFER == 400
  {
    DecLengths(r.port);
  }

  lemma {:induction false} EntriesConcat(a: seq<Row>, b: seq<Row>)
    ensures Entries(a + b) == Entries(a) + Entries(b)
  {
    hide Entry;
    if b == [] {
      assert a + b == a;
    } else {
      EntriesConcat(a, b[..|b| - 1]);
      assert (a + b)[..|a + b| - 1] == a + b[..|b| - 1];
    }
  }

  // ---------------------------------------------------------- client side

  /** The index of the first " :: " in s, or |s|. */
  function FindSeparator(s: string): (k: nat)
    ensures k <= |s| && (k < |s| ==> k + 4 <= |s|)
  {
    if |s| < 4 then |s|
    else if s[..4] == " :: " then 0
    else 1 + FindSeparator(s[1..])
  }

  /** s.split(" :: ") */
  function Split(s: string): seq<string>
    decreases |s|
  {
    var k := FindSeparator(s);
    if k == |s| then [s] else [s[..k]] + Split(s[k + 4..])
  }

  /** int(s) on a plain decimal number; None for ValueError. */
  function PyInt(s: string): Option<int> {
    if s == "" || IsSpace(s[0]) then None
    else
      match ScanInt(s)
      case None => None
      case Some((v, rest)) => if rest == "" then Some(v) else None
  }

  type Directory = map<string, (string, int)>

  /** users_directory after one more entry. */
  function AddEntry(d: Directory, entry: string): Directory {
    var parts := Split(entry);
    if |parts| != 3 || PyInt(parts[2]).None? then d
    else d[parts[0] := (parts[1], PyInt(parts[2]).value)]
  }

  function Rebuild(entries: seq<string>): Directory {
    if entries == [] then map[] else AddEntry(Rebuild(entries[..|entries| - 1]), entries[|entries| - 1])
  }

  /** The client's reading of a USERS reply after its code byte; None if it fails or raises. */
  function ClientUsers(s: string): Option<Directory> {
    var (count, rest) :- ClientField(s);
    var n :- PyInt(count);
    if n <= 0 then Some(map[])
    else
      var (entries, _) :- ClientFields(rest, n);
      Some(Rebuild(entries))
  }

  lemma NoEntries()
    ensures Rebuild([]) == map[]
  {
  }

  lemma RebuildAppend(done: seq<string>, entry: string)
    ensures Rebuild(done + [entry]) == AddEntry(Rebuild(done), entry)
    ensures var parts := Split(entry);
      AddEntry(Rebuild(done), entry) ==
        if |parts| != 3 || PyInt(parts[2]).None? then Rebuild(done)
        else Rebuild(done)[parts[0] := (parts[1], PyInt(parts[2]).value)]
  {
    assert (done + [entry])[..|done|] == done;
  }

  class Client {
    var directory: Directory

    constructor ()
      ensures directory == map[]
    {
      directory := map[];
    }

    /** users and _refresh_users_silent after a reply code of 0. */
    method Users(socket: Socket) returns (ok: bool)
      modifies this, socket`incoming
      ensures ok <==> ClientUsers(old(socket.incoming)).Some?
      ensures ok ==> ClientUsers(old(socket.incoming)) == Some(directory)
    {
      hide Split, PyInt, ClientField, ClientFields, Behind, Rebuild, AddEntry;
      var count := ReceiveString(socket);
      if count.None? { return false; }
      var n := PyInt(count.value);
      if n.None? { return false; }
      directory := map[];
      if n.value <= 0 { return true; }
      ghost var s := socket.incoming;
      var i := 0;
      ghost var done: seq<string> := [];
      BehindNothing(ClientFields(s, n.value), done, s);
      NoEntries();
      while i < n.value
        invariant 0 <= i <= n.value && directory == Rebuild(done)
        invariant ClientFields(s, n.value) == Behind(done, ClientFields(socket.incoming, n.value - i))
      {
        FirstClientField(socket.incoming, n.value - i);
        var entry := ReceiveString(socket);
        if entry.None? {
          BehindField(done, "", None);
          return false;
        }
        BehindField(done, entry.value, ClientFields(socket.incoming, n.value - i - 1));
        RebuildAppend(done, entry.value);
        var parts := Split(entry.value);
        if |parts| == 3 {
          var port := PyInt(parts[2]);
          if port.Some? {
            directory := directory[parts[0] := (parts[1], port.value)];
          }
        }
        done := done + [entry.value];
        i := i + 1;
      }
      FirstClientField(socket.incoming, 0);
      BehindNothing(None, done, socket.incoming);
      ok := true;
    }
  }

  // ------------------------------------------------------- the round trip

  /** The directory a client should hold: connected users only. */
  function Connected(rows: seq<Row>): Directory {
    if rows == [] then map[]
    else
      var last := rows[|rows| - 1];
      var d := Connected(rows[..|rows| - 1]);
      if last.connected == 1 then d[last.name := (last.ip, last.port)] else d
  }

  lemma {:induction false} FindAfterToken(tok: string, rest: string)
    requires ' ' !in tok
    ensures FindSeparator(tok + " :: " + rest) == |tok|
  {
    var s := tok + " :: " + rest;
    if tok == "" {
      assert s[..4] == " :: ";
    } else {
      assert s[0] == tok[0] && s[..4][0] == tok[0];
      assert s[1..] == tok[1..] + " :: " + rest;
      FindAfterToken(tok[1..], rest);
    }
  }

  lemma {:induction false} NoSeparator(tok: string)
    requires ' ' !in tok
    ensures FindSeparator(tok) == |tok|
  {
    if |tok| >= 4 {
      assert tok[..4][0] == tok[0] && tok[0] in tok;
      NoSeparator(tok[1..]);
    }
  }

  lemma SplitEntry(r: Row)
    requires r.Fits()
    ensures Split(Entry(r)) == [r.name, r.ip, Dec(r.port)]
  {
    assert IsSpace(' ') && ' ' !in Dec(r.port) && ' ' !in r.name && ' ' !in r.ip;
    var tail := r.ip + " :: " + Dec(r.port);
    FindAfterToken(r.name, tail);
    assert Entry(r) == r.name + " :: " + tail;
    assert Entry(r)[..|r.name|] == r.name && Entry(r)[|r.name| + 4..] == tail;
    FindAfterToken(r.ip, Dec(r.port));
    assert tail[..|r.ip|] == r.ip && tail[|r.ip| + 4..] == Dec(r.port);
    NoSeparator(Dec(r.port));
    assert Split(Dec(r.port)) == [Dec(r.port)];
    assert Split(tail) == [r.ip] + [Dec(r.port)];
  }

  lemma PyIntOfDec(n: int)
    ensures PyInt(Dec(n)) == Some(n)
  {
    var s := Dec(n);
    assert s[0] in s && !IsSpace(s[0]);
    assert SkipSpaces(s) == s == s + "";
    ScanIntDec(s, n, "");
  }

  lemma {:induction false} RebuildEntries(rows: seq<Row>)
    requires AllFit(rows)
    ensures Rebuild(Entries(rows)) == Connected(rows)
  {
    if rows != [] {
      var init, last := rows[..|rows| - 1], rows[|rows| - 1];
      RebuildEntries(init);
      if last.connected == 1 {
        SplitEntry(last);
        PyIntOfDec(last.port);
        assert Entries(rows)[..|Entries(init)|] == Entries(init);
      } else {
        assert Entries(rows) == Entries(init);
      }
    }
  }

  lemma {:induction false} EntriesNulFree(rows: seq<Row>)
    requires AllFit(rows)
    ensures NulFree(Entries(rows))
  {
    if rows != [] {
      var last := rows[|rows| - 1];
      EntriesNulFree(rows[..|rows| - 1]);
      assert last.Fits() && '\0' !in Entry(last);
    }
  }

  /** f_users after its code byte: the count and the entries, each NUL-terminated. */
  function UsersReply(rows: seq<Row>): string {
    Frame([Dec(|Entries(rows)|)] + Entries(rows))
  }

  /** The client rebuilds precisely the connected users' addresses if and only if every
      entry is ASCII; otherwise decoding raises. */
  lemma DirectoryRoundTrip(rows: seq<Row>)
    requires AllFit(rows)
    ensures ClientUsers(UsersReply(rows)) == if EachAscii(Entries(rows)) then Some(Connected(rows)) else None
  {
    var entries := Entries(rows);
    var count := Dec(|entries|);
    EntriesNulFree(rows);
    DecIsPlain(|entries|);
    PyIntOfDec(|entries|);
    assert ([count] + entries)[1..] == entries;
    ClientFieldWhole(count, Frame(entries));
    ClientFraming(entries);
    RebuildEntries(rows);
  }

  /** On a well-formed table the directory is the map of the online users. */
  lemma {:induction false} ConnectedIsOnline(rows: seq<Row>)
    requires F.TableOk(rows)
    ensures Connected(rows) ==
      map u | u in F.Users(rows) && F.Users(rows)[u].online :: (F.Users(rows)[u].ip, F.Users(rows)[u].port)
  {
    if rows != [] {
      var init, last := rows[..|rows| - 1], rows[|rows| - 1];
      ConnectedIsOnline(init);
      F.UsersLookup(init, last.name);
    }
  }

  /** Whatever the store: a client that asks for the users ends up with exactly the online
      users and their addresses, if and only if the entries are ASCII. */
  lemma {:induction false} DirectoryIsOnlineUsers(files: F.FileMap, st: S.Store)
    requires F.Represents(files, st)
    ensures var rows := RowsOf(files[F.USERS]);
      ClientUsers(UsersReply(rows)) ==
        if EachAscii(Entries(rows))
        then Some(map u | u in st.users && st.users[u].online :: (st.users[u].ip, st.users[u].port))
        else None
  {
    var rows := RowsOf(files[F.USERS]);
    DirectoryRoundTrip(rows);
    ConnectedIsOnline(rows);
  }
}
