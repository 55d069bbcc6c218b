/** tratar_peticion: a worker reads the operation and its fields, and who closes the socket. */
module Requests {
  import opened Text
  import opened Wire
  import Mail

  datatype Request =
    | Register(user: string)
    | Unregister(user: string)
    | Connect(user: string, port: int)
    | Disconnect(user: string)
    | Send(user: string, to: string, text: string)
    | Users(user: string)
    | SendAttach(user: string, to: string, text: string, fileName: string)

  /** What the client sends, in order. */
  function Fields(req: Request): seq<string> {
    match req
    case Register(u) => ["REGISTER", u]
    case Unregister(u) => ["UNREGISTER", u]
    case Connect(u, port) => ["CONNECT", u, Dec(port)]
    case Disconnect(u) => ["DISCONNECT", u]
    case Send(u, to, text) => ["SEND", u, to, text]
    case Users(u) => ["USERS", u]
    case SendAttach(u, to, text, fileName) => ["SENDATTACH", u, to, text, fileName]
  }

  /** How a request ends: with a request to serve, cut short, or with an unknown operation. */
  datatype Head = Got(req: Request) | Cut | Unknown

  /** strtol saturates at the ends of a 64-bit long. */
  function Saturate(v: int): int {
    if v < -0x8000_0000_0000_0000 then -0x8000_0000_0000_0000
    else if v > 0x7fff_ffff_ffff_ffff then 0x7fff_ffff_ffff_ffff
    else v
  }

  /** (int)strtol(s, NULL, 10) */
  function StrToInt(s: string): (r: int)
    ensures IsInt32(r)
  {
    match ScanInt(s)
    case None => 0
    case Some((v, _)) => ToInt32(Saturate(v))
  }

  function FieldCount(op: string): nat {
    if op == "CONNECT" then 2
    else if op == "SEND" then 3
    else if op == "SENDATTACH" then 4
    else 1
  }

  function Build(op: string, fs: seq<string>): Head
    requires |fs| == FieldCount(op)
  {
    if op == "REGISTER" then Got(Register(fs[0]))
    else if op == "UNREGISTER" then Got(Unregister(fs[0]))
    else if op == "CONNECT" then Got(Connect(fs[0], StrToInt(fs[1])))
    else if op == "DISCONNECT" then Got(Disconnect(fs[0]))
    else if op == "SEND" then Got(Send(fs[0], fs[1], fs[2]))
    else if op == "USERS" then Got(Users(fs[0]))
    else if op == "SENDATTACH" then Got(SendAttach(fs[0], fs[1], fs[2], fs[3]))
    else Unknown
  }

  predicate Known(op: string) {
    op in {"REGISTER", "UNREGISTER", "CONNECT", "DISCONNECT", "SEND", "USERS", "SENDATTACH"}
  }

  function ParseHead(s: string): Head {
    match ReadField(s)
    case None => Cut
    case Some((op, rest)) =>
      if !Known(op) then Unknown
      else
        match ReadFields(rest, FieldCount(op))
        case None => Cut
        case Some((fs, _)) => ReadFieldsCount(rest, FieldCount(op)); Build(op, fs)
  }

  /** What is left on the socket when the request has been read: nothing if it was cut short. */
  function Unread(s: string): string {
    match ReadField(s)
    case None => ""
    case Some((op, rest)) =>
      if !Known(op) then rest
      else
        match ReadFields(rest, FieldCount(op))
        case None => ""
        case Some((_, left)) => left
  }

  lemma {:induction false} ReadFieldsCount(s: string, n: nat)
    ensures ReadFields(s, n).Some? ==> |ReadFields(s, n).value.0| == n
  {
    if n > 0 && ReadField(s).Some? {
      ReadFieldsCount(ReadField(s).value.1, n - 1);
    }
  }

  lemma {:induction false} ReadFieldsFit(s: string, n: nat)
    requires ReadFields(s, n).Some?
    ensures forall i :: 0 <= i < |ReadFields(s, n).value.0| ==> IsCString(ReadFields(s, n).value.0[i], 255)
  {
    if n > 0 {
      ReadFieldsFit(ReadField(s).value.1, n - 1);
    }
  }

  /** Fields that fit the 256-byte buffers, and a port that fits an int. */
  predicate Fits(req: Request) {
    match req
    case Connect(u, port) => IsCString(u, 255) && IsInt32(port)
    case Send(u, to, text) => IsCString(u, 255) && IsCString(to, 255) && IsCString(text, 255)
    case SendAttach(u, to, text, fileName) =>
      IsCString(u, 255) && IsCString(to, 255) && IsCString(text, 255) && IsCString(fileName, 255)
    case _ => IsCString(req.user, 255)
  }

  /** Whatever bytes arrive, a parsed request fits the buffers it was read into. */
  lemma ParsedFits(s: string)
    ensures ParseHead(s).Got? ==> Fits(ParseHead(s).req)
  {
    if ParseHead(s).Got? {
      var (op, rest) := ReadField(s).value;
      ReadFieldsCount(rest, FieldCount(op));
      ReadFieldsFit(rest, FieldCount(op));
    }
  }

  /** leer_cadena into fresh 256-byte buffers, as often as the operation needs. */
  method LeerCampos(socket: Socket, n: nat) returns (r: Option<seq<string>>)
    modifies socket`incoming
    ensures match ReadFields(old(socket.incoming), n)
            case None => r.None? && socket.incoming == ""
            case Some((fs, rest)) => r == Some(fs) && socket.incoming == rest
    ensures r.Some? ==> |r.value| == n
  {
    hide ReadFields, ReadField, Behind, Mail.CString;
    var fields := [];
    ghost var s := socket.incoming;
    BehindNothing(ReadFields(s, n), fields, s);
    for i := 0 to n
      invariant |fields| == i
      invariant ReadFields(s, n) == Behind(fields, ReadFields(socket.incoming, n - i))
    {
      FirstField(socket.incoming, n - i);
      var buffer := new char[SHORT_MSG_SIZE];
      var leidos := LeerCadena(socket, buffer);
      if leidos <= 0 {
        BehindField(fields, "", None);
        return None;
      }
      var f := Mail.CString(buffer[..leidos]);
      BehindField(fields, f, ReadFields(socket.incoming, n - i - 1));
      fields := fields + [f];
    }
    FirstField(socket.incoming, 0);
    BehindNothing(None, fields, socket.incoming);
    r := Some(fields);
  }

  /** The reading part of tratar_peticion in parte2, with how often it closes the socket:
      on a cut request, and after serving a SENDATTACH, but after no other operation. */
  method TratarPeticion2(socket: Socket) returns (head: Head, closes: nat)
    modifies socket`incoming
    ensures head == ParseHead(old(socket.incoming)) && socket.incoming == Unread(old(socket.incoming))
    ensures closes == if head.Cut? || (head.Got? && head.req.SendAttach?) then 1 else 0
  {
    closes := 0;
    var op := LeerCampos(socket, 1);
    OneField(old(socket.incoming));
    if op.None? { return Cut, 1; }
    if !Known(op.value[0]) { return Unknown, 0; }
    var fs := LeerCampos(socket, FieldCount(op.value[0]));
    if fs.None? { return Cut, 1; }
    head := Build(op.value[0], fs.value);
    if head.Got? && head.req.SendAttach? {
      closes := closes + 1;
    }
  }

  /** The same in parte1, which knows no SENDATTACH and closes the socket once on every path. */
  method TratarPeticion1(socket: Socket) returns (head: Head, closes: nat)
    modifies socket`incoming
    ensures closes == 1
    ensures var op := ReadField(old(socket.incoming));
      if op.Some? && op.value.0 == "SENDATTACH" then head == Unknown && socket.incoming == op.value.1
      else head == ParseHead(old(socket.incoming)) && socket.incoming == Unread(old(socket.incoming))
  {
    closes := 0;
    head := Unknown;
    var op := LeerCampos(socket, 1);
    OneField(old(socket.incoming));
    if op.None? { return Cut, closes + 1; }
    if op.value[0] != "SENDATTACH" && Known(op.value[0]) {
      var fs := LeerCampos(socket, FieldCount(op.value[0]));
      if fs.None? { return Cut, closes + 1; }
      head := Build(op.value[0], fs.value);
    }
    closes := closes + 1;
  }

  lemma OneField(s: string)
    ensures match ReadField(s)
            case None => ReadFields(s, 1).None?
            case Some((f, rest)) => ReadFields(s, 1) == Some(([f], rest))
  {
    if ReadField(s).Some? {
      var (f, rest) := ReadField(s).value;
      assert ReadFields(rest, 0) == Some(([], rest));
      assert [f] + [] == [f];
    }
  }

  lemma ParseKnown(op: string, args: seq<string>)
    requires Known(op) && |args| == FieldCount(op)
    ensures ReadFields(Frame(args), |args|).Some? ==> |ReadFields(Frame(args), |args|).value.0| == |args|
    ensures ParseHead(Frame([op] + args)) == match ReadFields(Frame(args), |args|)
                                             case None => Cut
                                             case Some((fs, _)) => Build(op, fs)
  {
    assert ([op] + args)[1..] == args;
    ReadOneField(op, Frame(args));
    ReadFieldsCount(Frame(args), |args|);
  }

  lemma BuildIsInjective(op: string, fs: seq<string>, gs: seq<string>)
    requires Known(op) && op != "CONNECT" && |fs| == |gs| == FieldCount(op)
    ensures Build(op, fs) == Build(op, gs) ==> fs == gs
  {
  }

  lemma BuildsRequest(req: Request)
    requires req.Connect? ==> IsInt32(req.port)
    ensures var fs := Fields(req);
      && Known(fs[0]) && |fs[1..]| == FieldCount(fs[0]) && (fs[0] == "CONNECT" <==> req.Connect?)
      && Build(fs[0], fs[1..]) == Got(req)
      && fs == [fs[0]] + fs[1..]
  {
    if req.Connect? {
      PortRoundTrip(req.port);
    }
  }

  lemma ConnectRoundTrip(user: string, port: int)
    requires '\0' !in user && 0 < port <= 65535
    ensures ReadFields(Frame([user, Dec(port)]), 2).Some? ==> |ReadFields(Frame([user, Dec(port)]), 2).value.0| == 2
    ensures ReadFields(Frame([user, Dec(port)]), 2).Some? &&
            Build("CONNECT", ReadFields(Frame([user, Dec(port)]), 2).value.0) == Got(Connect(user, port))
            ==> |user| <= 254
  {
    var args := [user, Dec(port)];
    ReadFieldsCount(Frame(args), 2);
    assert args[1..] == [Dec(port)] && Frame(args) == user + "\0" + Frame([Dec(port)]);
    ReadOneField(user, Frame([Dec(port)]));
    if |user| == 255 {
      FieldOf255HidesTheNext(user, Frame([Dec(port)]));
      assert StrToInt("") == 0;
    }
  }

  /** The server understands a request exactly as the client meant it if and only if its
      fields survive the framing. */
  lemma RequestRoundTrip(req: Request)
    requires NulFree(Fields(req)) && (req.Connect? ==> 0 < req.port <= 65535)
    ensures ParseHead(Frame(Fields(req))) == Got(req) <==> Readable(Fields(req))
  {
    BuildsRequest(req);
    var op, args := Fields(req)[0], Fields(req)[1..];
    ParseKnown(op, args);
    assert NulFree(args);
    FramingExact(args);
    assert Readable(Fields(req)) <==> Readable(args);
    if req.Connect? {
      DecLengths(req.port);
      ConnectRoundTrip(req.user, req.port);
      assert args[1..] == [Dec(req.port)];
      assert Readable([Dec(req.port)]) by { assert [Dec(req.port)][1..] == []; }
    } else if ReadFields(Frame(args), |args|).Some? {
      BuildIsInjective(op, ReadFields(Frame(args), |args|).value.0, args);
    }
  }

  lemma PortRoundTrip(port: int)
    requires IsInt32(port)
    ensures StrToInt(Dec(port)) == port
  {
    assert Dec(port)[0] in Dec(port);
    assert Dec(port) + "" == Dec(port);
    ScanIntDec(Dec(port), port, "");
  }
}
