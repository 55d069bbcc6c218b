/** The messages on the wire: requests to the server, pushes and acknowledgements to a
    client's listener, and how each side decodes them. */
module Frames {
  import opened Text
  import opened Mail
  import opened Wire

  // -------------------------------------------------- server to listener

  /** SEND_MESSAGE or SEND_MESSAGE_ATTACH with its fields. */
  function PushFields(m: PendingMsg, attach: bool): seq<string> {
    if attach then ["SEND_MESSAGE_ATTACH", m.sender, Dec(m.id), m.message, m.fileName]
    else ["SEND_MESSAGE", m.sender, Dec(m.id), m.message]
  }

  function AckFields(id: nat, attach: bool, fileName: string): seq<string> {
    if attach then ["SEND_MESS_ATTACH_ACK", Dec(id), fileName] else ["SEND_MESS_ACK", Dec(id)]
  }

  /** The drain decides from the stored struct whether there is an attachment. */
  predicate HasAttachment(m: PendingMsg) {
    m.fileName != ""
  }

  /** A message stored, read back and pushed by the drain gives the bytes of the live push,
      except that an attachment with an empty name is drained as a plain message. */
  lemma {:induction false} StoredAndLiveAgree(m: PendingMsg, attach: bool)
    requires m.Fits() && (!attach ==> m.fileName == "")
    ensures var stored := Decode(Encode(m));
      Frame(PushFields(stored, HasAttachment(stored))) == Frame(PushFields(m, attach)) <==> !(attach && m.fileName == "")
  {
    RecordRoundTrip(m);
    if attach && m.fileName == "" {
      var a, b := PushFields(m, true), PushFields(m, false);
      assert Frame(a)[..20] == "SEND_MESSAGE_ATTACH\0";
      assert Frame(b)[12] == '\0' && Frame(a)[12] == '_';
    }
  }

  // ------------------------------------------------------ client decoding

  predicate IsAscii(c: char) {
    (c as int) < 128
  }

  predicate AllAscii(s: string) {
    forall i :: 0 <= i < |s| ==> IsAscii(s[i])
  }

  /** receive_string: up to a NUL or the end of the stream; decoding a byte above 127 raises. */
  function ClientField(s: string): (r: Option<(string, string)>)
    ensures r.Some? ==> |r.value.1| <= |s|
  {
    if s == "" then Some(("", ""))
    else if s[0] == '\0' then Some(("", s[1..]))
    else if !IsAscii(s[0]) then None
    else
      var (f, rest) :- ClientField(s[1..]);
      Some(([s[0]] + f, rest))
  }

  function ClientFields(s: string, n: nat): (r: Option<(seq<string>, string)>)
    ensures r.Some? ==> |r.value.0| == n
    decreases n
  {
    if n == 0 then Some(([], s))
    else
      var (f, s1) :- ClientField(s);
      var (fs, s2) :- ClientFields(s1, n - 1);
      Some(([f] + fs, s2))
  }

  method ReceiveString(socket: Socket) returns (r: Option<string>)
    modifies socket`incoming
    ensures match ClientField(old(socket.incoming))
            case None => r.None?
            case Some((f, rest)) => r == Some(f) && socket.incoming == rest
  {
    var cadena := "";
    ghost var s := socket.incoming;
    assert ClientField(s).Some? ==> "" + ClientField(s).value.0 == ClientField(s).value.0;
    while true
      invariant ClientField(s) == match ClientField(socket.incoming)
                                  case None => None
                                  case Some((f, rest)) => Some((cadena + f, rest))
      decreases |socket.incoming|
    {
      ghost var before := socket.incoming;
      var n, c := socket.ReadByte();
      if n == 0 || c == '\0' {
        assert cadena + "" == cadena;
        return Some(cadena);
      }
      if !IsAscii(c) { return None; }
      ghost var tail := ClientField(socket.incoming);
      assert tail.Some? ==> cadena + ([c] + tail.value.0) == cadena + [c] + tail.value.0;
      cadena := cadena + [c];
    }
  }

  /** What listener_thread does for one connection: print a notice, serve a file, or nothing. */
  datatype Notice =
    | Message(sender: string, id: string, text: string)
    | Attachment(sender: string, id: string, text: string, fileName: string)
    | Delivered(id: string)
    | AttachmentDelivered(id: string, fileName: string)
    | FileServed(fileName: string)
    | Silent

  function Listen(s: string): Notice {
    match ClientField(s)
    case None => Silent
    case Some((op, rest)) =>
      if op == "SEND_MESSAGE" then
        match ClientFields(rest, 3)
        case None => Silent
        case Some((fs, _)) => Message(fs[0], fs[1], fs[2])
      else if op == "SEND_MESS_ACK" then
        match ClientFields(rest, 1)
        case None => Silent
        case Some((fs, _)) => Delivered(fs[0])
      else if op == "SEND_MESSAGE_ATTACH" then
        match ClientFields(rest, 4)
        case None => Silent
        case Some((fs, _)) => if "" in fs then Silent else Attachment(fs[0], fs[1], fs[2], fs[3])
      else if op == "SEND_MESS_ATTACH_ACK" then
        match ClientFields(rest, 2)
        case None => Silent
        case Some((fs, _)) => if "" in fs then Silent else AttachmentDelivered(fs[0], fs[1])
      else if op == "GET_FILE" then
        match ClientFields(rest, 2)
        case None => Silent
        case Some((fs, _)) => if fs[1] == "" then Silent else FileServed(fs[1])
      else Silent
  }

  lemma FirstClientField(s: string, n: nat)
    ensures ClientFields(s, 0) == Some(([], s))
    ensures n > 0 ==> ClientFields(s, n) == match ClientField(s)
                                            case None => None
                                            case Some((f, rest)) => Behind([f], ClientFields(rest, n - 1))
  {
  }

  /** receive_string n times, as the branches of listener_thread do. */
  method ReceiveStrings(socket: Socket, n: nat) returns (r: Option<seq<string>>)
    modifies socket`incoming
    ensures match ClientFields(old(socket.incoming), n)
            case None => r.None?
            case Some((fs, rest)) => r == Some(fs) && socket.incoming == rest
  {
    hide ClientFields, ClientField, Behind;
    var fields := [];
    ghost var s := socket.incoming;
    BehindNothing(ClientFields(s, n), fields, s);
    for i := 0 to n
      invariant |fields| == i
      invariant ClientFields(s, n) == Behind(fields, ClientFields(socket.incoming, n - i))
    {
      FirstClientField(socket.incoming, n - i);
      var f := ReceiveString(socket);
      if f.None? {
        BehindField(fields, "", None);
        return None;
      }
      BehindField(fields, f.value, ClientFields(socket.incoming, n - i - 1));
      fields := fields + [f.value];
    }
    FirstClientField(socket.incoming, 0);
    BehindNothing(None, fields, socket.incoming);
    r := Some(fields);
  }

  /** One connection of listener_thread. */
  method ListenerConnection(socket: Socket) returns (notice: Notice)
    modifies socket`incoming
    ensures notice == Listen(old(socket.incoming))
  {
    notice := Silent;
    var op := ReceiveString(socket);
    if op == Some("SEND_MESSAGE") {
      var fs := ReceiveStrings(socket, 3);
      if fs.Some? { notice := Message(fs.value[0], fs.value[1], fs.value[2]); }
    } else if op == Some("SEND_MESS_ACK") {
      var fs := ReceiveStrings(socket, 1);
      if fs.Some? { notice := Delivered(fs.value[0]); }
    } else if op == Some("SEND_MESSAGE_ATTACH") {
      var fs := ReceiveStrings(socket, 4);
      if fs.Some? && "" !in fs.value { notice := Attachment(fs.value[0], fs.value[1], fs.value[2], fs.value[3]); }
    } else if op == Some("SEND_MESS_ATTACH_ACK") {
      var fs := ReceiveStrings(socket, 2);
      if fs.Some? && "" !in fs.value { notice := AttachmentDelivered(fs.value[0], fs.value[1]); }
    } else if op == Some("GET_FILE") {
      var fs := ReceiveStrings(socket, 2);
      if fs.Some? && fs.value[1] != "" { notice := FileServed(fs.value[1]); }
    }
  }

  lemma {:induction false} ClientFieldWhole(f: string, rest: string)
    requires '\0' !in f
    ensures ClientField(f + "\0" + rest) == if AllAscii(f) then Some((f, rest)) else None
  {
    var s := f + "\0" + rest;
    if f == "" {
      assert s[0] == '\0' && s[1..] == rest;
    } else {
      assert s[1..] == f[1..] + "\0" + rest;
      ClientFieldWhole(f[1..], rest);
      assert [f[0]] + f[1..] == f;
      assert AllAscii(f) <==> IsAscii(f[0]) && AllAscii(f[1..]);
    }
  }

  predicate EachAscii(fields: seq<string>) {
    forall i :: 0 <= i < |fields| ==> AllAscii(fields[i])
  }

  /** The client reads back the fields of a frame if and only if they are ASCII. */
  lemma {:induction false} ClientFraming(fields: seq<string>)
    requires NulFree(fields)
    ensures ClientFields(Frame(fields), |fields|) == if EachAscii(fields) then Some((fields, "")) else None
  {
    if fields != [] {
      var tail := fields[1..];
      ClientFieldWhole(fields[0], Frame(tail));
      ClientFraming(tail);
      assert fields == [fields[0]] + tail;
      assert EachAscii(fields) <==> AllAscii(fields[0]) && EachAscii(tail);
    }
  }

  lemma DecIsPlain(n: nat)
    ensures AllAscii(Dec(n)) && '\0' !in Dec(n)
  {
    forall i | 0 <= i < |Dec(n)| ensures IsAscii(Dec(n)[i]) {
      assert Dec(n)[i] in Dec(n);
    }
  }

  lemma ListenSplits(op: string, fields: seq<string>)
    requires '\0' !in op && AllAscii(op) && NulFree(fields)
    ensures ClientField(Frame([op] + fields)) == Some((op, Frame(fields)))
    ensures ClientFields(Frame(fields), |fields|) == if EachAscii(fields) then Some((fields, "")) else None
  {
    assert ([op] + fields)[1..] == fields;
    ClientFieldWhole(op, Frame(fields));
    ClientFraming(fields);
  }

  /** A push is printed with exactly the stored fields if and only if they are ASCII and, for
      an attachment, none of them is empty. */
  lemma PushShown(m: PendingMsg, attach: bool)
    requires m.Fits()
    ensures
      var shown := if attach then Attachment(m.sender, Dec(m.id), m.message, m.fileName)
                   else Message(m.sender, Dec(m.id), m.message);
      Listen(Frame(PushFields(m, attach))) == shown <==>
        && AllAscii(m.sender) && AllAscii(m.message)
        && (attach ==> AllAscii(m.fileName) && m.sender != "" && m.message != "" && m.fileName != "")
  {
    DecIsPlain(m.id);
    hide Frame, ClientField, ClientFields, Dec;
    if attach {
      var fields := [m.sender, Dec(m.id), m.message, m.fileName];
      assert PushFields(m, attach) == ["SEND_MESSAGE_ATTACH"] + fields;
      ListenSplits("SEND_MESSAGE_ATTACH", fields);
      assert EachAscii(fields) <==> AllAscii(fields[0]) && AllAscii(fields[1]) && AllAscii(fields[2]) && AllAscii(fields[3]);
    } else {
      var fields := [m.sender, Dec(m.id), m.message];
      assert PushFields(m, attach) == ["SEND_MESSAGE"] + fields;
      ListenSplits("SEND_MESSAGE", fields);
      assert EachAscii(fields) <==> AllAscii(fields[0]) && AllAscii(fields[1]) && AllAscii(fields[2]);
    }
  }

  /** The same for acknowledgements. */
  lemma AckShown(id: nat, attach: bool, fileName: string)
    requires '\0' !in fileName
    ensures
      var shown := if attach then AttachmentDelivered(Dec(id), fileName) else Delivered(Dec(id));
      Listen(Frame(AckFields(id, attach, fileName))) == shown <==> (attach ==> AllAscii(fileName) && fileName != "")
  {
    DecIsPlain(id);
    hide Frame, ClientField, ClientFields, Dec;
    if attach {
      var fields := [Dec(id), fileName];
      assert AckFields(id, attach, fileName) == ["SEND_MESS_ATTACH_ACK"] + fields;
      ListenSplits("SEND_MESS_ATTACH_ACK", fields);
      assert EachAscii(fields) <==> AllAscii(fields[0]) && AllAscii(fields[1]);
    } else {
      var fields := [Dec(id)];
      assert AckFields(id, attach, fileName) == ["SEND_MESS_ACK"] + fields;
      ListenSplits("SEND_MESS_ACK", fields);
      assert EachAscii(fields) <==> AllAscii(fields[0]);
    }
  }
}
