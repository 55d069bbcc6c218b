/** The formats written out: every frame, every line, every record and every decimal as the bytes
    it consists of. */
module Formats {
  import opened Text
  import opened Wire
  import opened Frames
  import Q = Requests
  import Rows
  import Mail
  import L = Listing
  import N = Normalize
  import F = Files

  // -------------------------------------------------------------- requests

  /** Whatever fields a client sends in this order, if each fits, the server serves exactly that
      request. */
  lemma RequestBytes(a: string, b: string, c: string, d: string, port: int)
    requires NulFree([a, b, c, d]) && |a| <= 254 && |b| <= 254 && |c| <= 254 && |d| <= 254
    requires 0 < port <= 65535
    ensures Q.ParseHead("REGISTER\0" + (a + "\0")) == Q.Got(Q.Register(a))
    ensures Q.ParseHead("UNREGISTER\0" + (a + "\0")) == Q.Got(Q.Unregister(a))
    ensures Q.ParseHead("CONNECT\0" + (a + "\0" + (Dec(port) + "\0"))) == Q.Got(Q.Connect(a, port))
    ensures Q.ParseHead("DISCONNECT\0" + (a + "\0")) == Q.Got(Q.Disconnect(a))
    ensures Q.ParseHead("SEND\0" + (a + "\0" + (b + "\0" + (c + "\0")))) == Q.Got(Q.Send(a, b, c))
    ensures Q.ParseHead("SENDATTACH\0" + (a + "\0" + (b + "\0" + (c + "\0" + (d + "\0"))))) == Q.Got(Q.SendAttach(a, b, c, d))
    ensures Q.ParseHead("USERS\0" + (a + "\0")) == Q.Got(Q.Users(a))
  {
    hide *;
    AllNulFree(a, b, c, d);
    NameRequests(a);
    ConnectRequest(a, port);
    SendRequests(a, b, c, d);
  }

  /** Any other operation is unknown: nothing of it but its name is read. */
  lemma UnknownOperation(op: string, rest: string)
    requires '\0' !in op && |op| <= 254
    requires op != "REGISTER" && op != "UNREGISTER" && op != "CONNECT" && op != "DISCONNECT"
    requires op != "SEND" && op != "SENDATTACH" && op != "USERS"
    ensures Q.ParseHead(op + "\0" + rest) == Q.Unknown && Q.Unread(op + "\0" + rest) == rest
  {
    ReadOneField(op, rest);
  }

  /** A request whose peer closes in the middle of a field is cut short, and nothing is left of it. */
  lemma CutRequest(a: string, b: string, part: string)
    requires '\0' !in a && '\0' !in b && '\0' !in part && |a| <= 254 && |b| <= 254 && |part| <= 254
    ensures Q.ParseHead(part) == Q.Cut && Q.Unread(part) == ""
    ensures Q.ParseHead("SEND\0" + (a + "\0" + (b + "\0" + part))) == Q.Cut
  {
    NothingTaken(part, 255);
    ReadOneField("SEND", a + "\0" + (b + "\0" + part));
    assert "SEND" + "\0" + (a + "\0" + (b + "\0" + part)) == "SEND\0" + (a + "\0" + (b + "\0" + part));
    ReadOneField(a, b + "\0" + part);
    ReadOneField(b, part);
    hide ReadField;
    FirstField(part, 1);
    FirstField(b + "\0" + part, 2);
    FirstField(a + "\0" + (b + "\0" + part), 3);
  }

  lemma {:induction false} NothingTaken(s: string, max: nat)
    requires '\0' !in s && |s| < max
    ensures Taken(s, max).None?
  {
    if s != "" {
      NothingTaken(s[1..], max - 1);
    }
  }

  lemma AllNulFree(a: string, b: string, c: string, d: string)
    requires NulFree([a, b, c, d])
    ensures '\0' !in a && '\0' !in b && '\0' !in c && '\0' !in d
  {
    var all := [a, b, c, d];
    assert '\0' !in all[0] && '\0' !in all[1] && '\0' !in all[2] && '\0' !in all[3];
  }

  lemma NameRequests(a: string)
    requires '\0' !in a && |a| <= 254
    ensures Q.ParseHead("REGISTER\0" + (a + "\0")) == Q.Got(Q.Register(a))
    ensures Q.ParseHead("UNREGISTER\0" + (a + "\0")) == Q.Got(Q.Unregister(a))
    ensures Q.ParseHead("DISCONNECT\0" + (a + "\0")) == Q.Got(Q.Disconnect(a))
    ensures Q.ParseHead("USERS\0" + (a + "\0")) == Q.Got(Q.Users(a))
  {
    hide Q.ParseHead, Frame;
    FrameBytes(a, "", "", "");
    RequestFrame(Q.Register(a), "REGISTER", "REGISTER\0", [a]);
    RequestFrame(Q.Unregister(a), "UNREGISTER", "UNREGISTER\0", [a]);
    RequestFrame(Q.Disconnect(a), "DISCONNECT", "DISCONNECT\0", [a]);
    RequestFrame(Q.Users(a), "USERS", "USERS\0", [a]);
  }

  lemma ConnectRequest(a: string, port: int)
    requires '\0' !in a && |a| <= 254 && 0 < port <= 65535
    ensures Q.ParseHead("CONNECT\0" + (a + "\0" + (Dec(port) + "\0"))) == Q.Got(Q.Connect(a, port))
  {
    hide Q.ParseHead, Frame, Dec;
    PlainPort(port);
    FrameBytes(a, Dec(port), "", "");
    RequestFrame(Q.Connect(a, port), "CONNECT", "CONNECT\0", [a, Dec(port)]);
  }

  lemma SendRequests(a: string, b: string, c: string, d: string)
    requires '\0' !in a && '\0' !in b && '\0' !in c && '\0' !in d
    requires |a| <= 254 && |b| <= 254 && |c| <= 254 && |d| <= 254
    ensures Q.ParseHead("SEND\0" + (a + "\0" + (b + "\0" + (c + "\0")))) == Q.Got(Q.Send(a, b, c))
    ensures Q.ParseHead("SENDATTACH\0" + (a + "\0" + (b + "\0" + (c + "\0" + (d + "\0"))))) == Q.Got(Q.SendAttach(a, b, c, d))
  {
    hide Q.ParseHead, Frame;
    FrameBytes(a, b, c, d);
    RequestFrame(Q.Send(a, b, c), "SEND", "SEND\0", [a, b, c]);
    RequestFrame(Q.SendAttach(a, b, c, d), "SENDATTACH", "SENDATTACH\0", [a, b, c, d]);
  }

  lemma PlainPort(port: int)
    requires 0 < port <= 65535
    ensures '\0' !in Dec(port) && |Dec(port)| <= 11
  {
    DecLengths(port);
  }

  lemma FrameBytes(a: string, b: string, c: string, d: string)
    ensures Frame([a]) == a + "\0"
    ensures Frame([a, b]) == a + "\0" + (b + "\0")
    ensures Frame([a, b, c]) == a + "\0" + (b + "\0" + (c + "\0"))
    ensures Frame([a, b, c, d]) == a + "\0" + (b + "\0" + (c + "\0" + (d + "\0")))
  {
    FrameFirst(d, []);
    FrameFirst(c, []);
    FrameFirst(b, []);
    FrameFirst(a, []);
    FrameFirst(c, [d]);
    FrameFirst(b, [c]);
    FrameFirst(b, [c, d]);
    FrameFirst(a, [b]);
    FrameFirst(a, [b, c]);
    FrameFirst(a, [b, c, d]);
    hide Frame;
    assert [a] + [] == [a] && [b] + [] == [b] && [c] + [] == [c] && [d] + [] == [d];
    assert [a] + [b] == [a, b] && [a] + [b, c] == [a, b, c] && [a] + [b, c, d] == [a, b, c, d];
    assert [b] + [c] == [b, c] && [b] + [c, d] == [b, c, d] && [c] + [d] == [c, d];
    assert a + "\0" + "" == a + "\0" && b + "\0" + "" == b + "\0" && c + "\0" + "" == c + "\0" && d + "\0" + "" == d + "\0";
    EmptyFrame();
  }

  lemma FrameFirst(f: string, fields: seq<string>)
    ensures Frame([f] + fields) == f + "\0" + Frame(fields)
  {
    assert ([f] + fields)[1..] == fields;
  }

  lemma RequestFrame(req: Q.Request, op: string, head: string, args: seq<string>)
    requires head == op + "\0"
    requires Q.Fields(req) == [op] + args && NulFree([op] + args)
    requires forall i :: 0 <= i < |args| ==> |args[i]| <= 254
    requires |op| <= 254 && (req.Connect? ==> 0 < req.port <= 65535)
    ensures Q.ParseHead(head + Frame(args)) == Q.Got(req)
  {
    ShortIsReadable([op] + args);
    Q.RequestRoundTrip(req);
    FrameFirst(op, args);
  }

  lemma {:induction false} ShortIsReadable(fields: seq<string>)
    requires forall i :: 0 <= i < |fields| ==> |fields[i]| <= 254
    ensures Readable(fields)
  {
    if fields != [] {
      ShortIsReadable(fields[1..]);
    }
  }

  // ------------------------------------------------------ pushes, lists, files

  lemma OpIsAscii()
    ensures AllAscii("GET_FILE")
  {
  }

  /** The owner of a file is asked for it by its path, which comes after the asking user. */
  lemma FileRequest(user: string, path: string)
    requires '\0' !in user && '\0' !in path
    ensures Listen("GET_FILE\0" + (user + "\0" + (path + "\0"))) ==
      if AllAscii(user) && AllAscii(path) && path != "" then FileServed(path) else Silent
  {
    hide Frame, ClientField, ClientFields, AllAscii;
    var fields := [user, path];
    OpIsAscii();
    ListenSplits("GET_FILE", fields);
    FrameFirst("GET_FILE", fields);
    FrameBytes(user, path, "", "");
    assert EachAscii(fields) <==> AllAscii(fields[0]) && AllAscii(fields[1]);
    assert "GET_FILE" + "\0" == "GET_FILE\0";
  }

  /** The reply with one connected user, and the directory a client makes of it. */
  lemma ListBytes(r: Rows.Row)
    requires r.Fits() && r.connected == 1
    ensures L.UsersReply([r]) == "1\0" + (r.name + " :: " + r.ip + " :: " + Dec(r.port) + "\0")
    ensures AllAscii(r.name) && AllAscii(r.ip) ==>
      L.ClientUsers(L.UsersReply([r])) == Some(map[r.name := (r.ip, r.port)])
  {
    OneEntry(r);
    assert Dec(1) == "1";
    FrameFirst("1", [L.Entry(r)]);
    FrameBytes(L.Entry(r), "", "", "");
    assert ["1"] + [L.Entry(r)] == [Dec(1)] + L.Entries([r]);
    L.DirectoryRoundTrip([r]);
    if AllAscii(r.name) && AllAscii(r.ip) {
      EntryIsAscii(r);
    }
  }

  lemma OneEntry(r: Rows.Row)
    requires r.connected == 1
    ensures L.Entries([r]) == [L.Entry(r)] && L.Entry(r) == r.name + " :: " + r.ip + " :: " + Dec(r.port)
    ensures L.Connected([r]) == map[r.name := (r.ip, r.port)]
  {
    assert [r][..0] == [];
    assert L.Entries([]) == [] && L.Connected([]) == map[];
  }

  lemma EntryIsAscii(r: Rows.Row)
    requires r.Fits() && AllAscii(r.name) && AllAscii(r.ip)
    ensures AllAscii(L.Entry(r)) && EachAscii([L.Entry(r)])
  {
    forall i | 0 <= i < |Dec(r.port)| ensures IsAscii(Dec(r.port)[i]) {
      assert Dec(r.port)[i] in Dec(r.port);
    }
    AsciiConcat(r.ip + " :: ", Dec(r.port));
    AsciiConcat(r.name + " :: ", r.ip + " :: " + Dec(r.port));
  }

  lemma AsciiConcat(a: string, b: string)
    requires AllAscii(a) && AllAscii(b)
    ensures AllAscii(a + b)
  {
  }

  /** Rows of users that are not connected are not listed. */
  lemma NotListed(rows: seq<Rows.Row>, r: Rows.Row)
    requires r.connected != 1
    ensures L.Entries(rows + [r]) == L.Entries(rows)
  {
    assert (rows + [r])[..|rows|] == rows;
  }

  /** A line of usuarios.txt. */
  lemma RowBytes(name: string, ip: string)
    ensures Rows.PrintRow(Rows.Row(name, 1, ip, 4000, 7)) == name + " 1 " + ip + " 4000 7\n"
  {
    DecimalBytes();
    assert name + " " + "1" + " " + ip + " " + "4000" + " " + "7" + "\n" == name + " 1 " + ip + " 4000 7\n";
  }

  lemma NextDigit(n: nat, init: string)
    requires n >= 10 && DecNat(n / 10) == init
    ensures DecNat(n) == init + [Digit(n % 10)]
  {
  }

  /** Decimals as printed. */
  lemma DecimalBytes()
    ensures Dec(0) == "0" && Dec(1) == "1" && Dec(7) == "7" && Dec(10) == "10" && Dec(-25) == "-25"
    ensures Dec(4000) == "4000"
  {
    NextDigit(40, "4");
    NextDigit(400, "40");
    NextDigit(4000, "400");
  }

  /** The largest id. */
  lemma LargestId()
    ensures Dec(4294967295) == "4294967295"
  {
    assert DecNat(4) == "4";
    hide DecNat;
    NextDigit(42, "4");
    NextDigit(429, "42");
    NextDigit(4294, "429");
    NextDigit(42949, "4294");
    NextDigit(429496, "42949");
    NextDigit(4294967, "429496");
    NextDigit(42949672, "4294967");
    NextDigit(429496729, "42949672");
    NextDigit(4294967295, "429496729");
  }

  /** A record: three zero-padded fields of 256 bytes around a little-endian id of four. */
  lemma RecordBytes(sender: string, message: string, fileName: string)
    requires IsCString(sender, 255) && IsCString(message, 255) && IsCString(fileName, 255)
    ensures Mail.Encode(Mail.PendingMsg(sender, 0x0102_0304, message, fileName)) ==
      sender + seq(256 - |sender|, _ => '\0') +
      [4 as char, 3 as char, 2 as char, 1 as char] +
      (message + seq(256 - |message|, _ => '\0')) +
      (fileName + seq(256 - |fileName|, _ => '\0'))
  {
    FieldBytes(sender);
    FieldBytes(message);
    FieldBytes(fileName);
    assert Mail.IdBytes(0x0102_0304) == [4 as char, 3 as char, 2 as char, 1 as char];
  }

  lemma FieldBytes(s: string)
    requires |s| <= 255
    ensures Mail.Field(s) == s + seq(256 - |s|, _ => '\0')
  {
  }

  // ----------------------------------------------------------- white space

  /** The six space characters of the C locale. */
  lemma CSpaces(c: char)
    ensures IsSpace(c) <==> c == ' ' || c == '\t' || c == '\n' || c == 11 as char || c == 12 as char || c == '\r'
  {
  }

  /** The characters Python counts as white space, by code point. */
  lemma PythonSpaces(c: char)
    ensures N.IsWhite(c) <==>
      c as int in {0x09, 0x0A, 0x0B, 0x0C, 0x0D, 0x1C, 0x1D, 0x1E, 0x1F, 0x20, 0x85, 0xA0, 0x1680,
                   0x2000, 0x2001, 0x2002, 0x2003, 0x2004, 0x2005, 0x2006, 0x2007, 0x2008, 0x2009, 0x200A,
                   0x2028, 0x2029, 0x202F, 0x205F, 0x3000}
  {
  }

  /** Two words, however they are spaced, are normalised to themselves with one space between. */
  lemma TwoWords(a: string, b: string, before: string, between: string, after: string)
    requires N.IsWord(a) && N.IsWord(b) && between != ""
    requires forall c :: c in before + between + after ==> N.IsWhite(c)
    ensures N.Normal(before + (a + (between + (b + after)))) == a + " " + b
  {
    var s3 := b + after;
    var s2 := between + s3;
    var s1 := a + s2;
    assert forall c :: c in before || c in between || c in after ==> c in before + between + after;
    WhiteDropped(after, "");
    assert after + "" == after;
    WhiteDropped(between, s3);
    WhiteDropped(before, s1);
    assert s3[0] == b[0] && s1[0] == a[0];
    N.WordsSplit(b, after);
    N.WordsSplit(a, s2);
    N.NormalIsJoin(before + s1);
    WordsDrop(before, s1);
    WordsDrop(between, s3);
    WordsDrop(after, "");
    assert N.Words(before + s1) == [a] + ([b] + []);
    assert [a] + ([b] + []) == [a, b] && [a, b][1..] == [b];
  }

  lemma {:induction false} WhiteDropped(white: string, rest: string)
    requires forall c :: c in white ==> N.IsWhite(c)
    ensures N.DropWhite(white + rest) == N.DropWhite(rest)
  {
    if white == "" {
      assert white + rest == rest;
    } else {
      assert (white + rest)[1..] == white[1..] + rest;
      WhiteDropped(white[1..], rest);
    }
  }

  lemma WordsDrop(white: string, rest: string)
    requires forall c :: c in white ==> N.IsWhite(c)
    ensures N.Words(white + rest) == N.Words(rest)
  {
    WhiteDropped(white, rest);
  }
}
