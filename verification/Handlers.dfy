/** funciones.c on top of the files and the network: every handler is the worker of Protocol
    running alone, on the bytes of the store and the bytes on the wire. */
module Handlers {
  import opened Text
  import opened Mail
  import opened P = Protocol
  import opened Solo
  import opened Wire
  import opened Frames
  import F = Files
  import L = Listing
  import R = Refinement
  import Rows
  import Q = Requests
  import N = Answers
  import S = MessageStore
  import opened Database

  /** A frame written to a connection to this address. */
  datatype Packet = Packet(ip: string, port: int, bytes: string)

  function PacketsOf(e: Event): seq<Packet> {
    match e
    case Pushed(_, ip, port, msg, attach) => [Packet(ip, port, Frame(PushFields(msg, attach)))]
    case Acked(_, ip, port, id, attach, fileName, _) => [Packet(ip, port, Frame(AckFields(id, attach, fileName)))]
    case _ => []
  }

  /** Everything the logged pushes and acknowledgements put on the wire, in order. */
  function WireOf(log: seq<Event>): seq<Packet> {
    if log == [] then [] else WireOf(log[..|log| - 1]) + PacketsOf(log[|log| - 1])
  }

  lemma WireAppend(log: seq<Event>, e: Event)
    ensures WireOf(log + [e]) == WireOf(log) + PacketsOf(e)
  {
    assert (log + [e])[..|log|] == log;
  }

  /** The reply byte. */
  function CodeByte(code: int): string {
    [(code % 256) as char]
  }

  /** A code is sent as the byte of that value. */
  lemma CodeByteIs(code: int)
    requires 0 <= code < 256
    ensures CodeByte(code) == [code as char]
  {
  }

  class Server {
    const db: Database
    var wire: seq<Packet>
    /** Outcomes of the connection attempts to come. */
    var net: Net
    /** The abstract world the files and the wire stand for. */
    ghost var world: World

    ghost predicate Valid()
      reads this, db.fs
    {
      F.Represents(db.fs.files, world.store) && wire == WireOf(world.log)
    }

    constructor (db: Database, ghost store: S.Store, net: Net)
      requires F.Represents(db.fs.files, store)
      ensures Valid() && this.db == db && this.net == net && world == World(store, [])
    {
      this.db := db;
      this.net := net;
      wire := [];
      world := World(store, []);
    }

    /** A step that changed the files and sent nothing. */
    ghost method Note(store: S.Store, e: Event)
      requires F.Represents(db.fs.files, store) && wire == WireOf(world.log) && PacketsOf(e) == []
      modifies this`world
      ensures Valid() && world == World(store, old(world).log + [e])
    {
      WireAppend(world.log, e);
      world := World(store, world.log + [e]);
    }

    /** socket and connect to a listener */
    method Dial() returns (ok: bool)
      modifies this`net
      ensures ok == Up(old(net)) && net == Rest(old(net))
    {
      ok := net != [] && net[0];
      net := if net == [] then [] else net[1..];
    }

    /** Connect, send a message, delete it, acknowledge it: the body of the loop of f_connect,
        which f_send and f_sendattach repeat for one message. */
    method Deliver(to: string, ip: string, port: int, m: PendingMsg, attach: bool) returns (ok: bool)
      requires Valid() && IsCString(to, 255) && m.Fits()
      modifies this, db.fs
      ensures Valid() && ok == Up(old(net))
      ensures var head := Parcel(m, attach);
        (world, net) ==
          if ok then Acknowledge(PushHead(old(world), Route(to, ip, port), head), head, |old(world).log|, Rest(old(net)))
          else (old(world).(store := S.Disconnect(old(world).store, to)), Rest(old(net)))
      ensures !ok ==> wire == old(wire)
      ensures ok ==>
        var s, users := m.sender, old(world).store.users;
        wire == old(wire) + [Packet(ip, port, Frame(PushFields(m, attach)))] +
          if s in users && users[s].online && |old(net)| > 1 && old(net)[1]
          then [Packet(users[s].ip, users[s].port, Frame(AckFields(m.id, attach, m.fileName)))] else []
    {
      hide F.Represents, Frame, PushFields, AckFields;
      ok := Dial();
      if ok {
        SendPush(to, ip, port, m, attach);
        Acknowledgement(m, attach, |old(world).log|);
      } else {
        var _ := Offline(to);
      }
    }

    /** sendMessage for each field of the message, then db_delete_message */
    method SendPush(to: string, ip: string, port: int, m: PendingMsg, attach: bool)
      requires Valid() && IsCString(to, 255) && m.Fits()
      modifies this`wire, this`world, db.fs
      ensures Valid() && world == PushHead(old(world), Route(to, ip, port), Parcel(m, attach))
      ensures wire == old(wire) + [Packet(ip, port, Frame(PushFields(m, attach)))]
    {
      var bytes := "";
      if attach {
        bytes := bytes + "SEND_MESSAGE_ATTACH\0";
        bytes := bytes + (m.sender + "\0");
        bytes := bytes + (Dec(m.id) + "\0");
        bytes := bytes + (m.message + "\0");
        bytes := bytes + (m.fileName + "\0");
      } else {
        bytes := bytes + "SEND_MESSAGE\0";
        bytes := bytes + (m.sender + "\0");
        bytes := bytes + (Dec(m.id) + "\0");
        bytes := bytes + (m.message + "\0");
      }
      PushBytes(m, attach);
      hide F.Represents, Frame, PushFields;
      wire := wire + [Packet(ip, port, bytes)];
      db.Remove(to, m.id);
      R.RemoveRefines(old(db.fs.files), world.store, to, m.id);
      var push := Pushed(to, ip, port, m, attach);
      var del := Deleted(to, m.id, |world.log|);
      WireAppend(world.log, push);
      WireAppend(world.log + [push], del);
      world := PushHead(world, Route(to, ip, port), Parcel(m, attach));
    }

    /** get_user_info of the sender, and the acknowledgement if it is connected */
    method Acknowledgement(m: PendingMsg, attach: bool, ghost push: nat)
      requires Valid() && m.Fits()
      modifies this, db.fs
      ensures Valid()
      ensures (world, net) == Acknowledge(old(world), Parcel(m, attach), push, old(net))
      ensures var s, users := m.sender, old(world).store.users;
        wire == old(wire) +
          if s in users && users[s].online && old(net) != [] && old(net)[0]
          then [Packet(users[s].ip, users[s].port, Frame(AckFields(m.id, attach, m.fileName)))] else []
    {
      hide F.Represents, Frame, AckFields, WireOf;
      var info := UserInfo(m.sender);
      if info.Some? && info.value.connected == 1 {
        assert S.Online(world.store, m.sender);
        var ok := Dial();
        if ok {
          SendAck(info.value.ip, info.value.port, m, attach, push);
        } else {
          var _ := Offline(m.sender);
        }
      } else {
        assert !S.Online(world.store, m.sender);
      }
    }

    method SendAck(ip: string, port: int, m: PendingMsg, attach: bool, ghost push: nat)
      requires Valid()
      modifies this`wire, this`world
      ensures Valid()
      ensures world == Log(old(world), Acked(m.sender, ip, port, m.id, attach, m.fileName, push))
      ensures wire == old(wire) + [Packet(ip, port, Frame(AckFields(m.id, attach, m.fileName)))]
    {
      AckBytes(m.id, attach, m.fileName);
      hide F.Represents, Frame, AckFields;
      var bytes := if attach then "SEND_MESS_ATTACH_ACK\0" + (Dec(m.id) + "\0") + (m.fileName + "\0")
                   else "SEND_MESS_ACK\0" + (Dec(m.id) + "\0");
      wire := wire + [Packet(ip, port, bytes)];
      ghost var e := Acked(m.sender, ip, port, m.id, attach, m.fileName, push);
      WireAppend(world.log, e);
      world := Log(world, e);
    }

    /** get_user_info */
    method UserInfo(user: string) returns (info: Option<Rows.Row>)
      requires Valid() && IsCString(user, 255)
      ensures info.Some? <==> user in world.store.users
      ensures info.Some? ==>
        && F.ToUser(info.value) == world.store.users[user]
        && (info.value.connected == 0 || info.value.connected == 1)
    {
      R.InfoRefines(db.fs.files, world.store, user);
      info := db.GetUserInfo(user);
    }

    /** db_disconnect, on request or after a failed connection */
    method Offline(user: string) returns (res: int)
      requires Valid() && IsCString(user, 255)
      modifies this`world, db.fs
      ensures Valid() && world == old(world).(store := S.Disconnect(old(world).store, user))
      ensures res == S.DisconnectCode(old(world).store, user)
    {
      res := db.Disconnect(user);
      R.DisconnectRefines(old(db.fs.files), world.store, user);
      world := world.(store := S.Disconnect(world.store, user));
    }

    /** f_register: for one non-empty word the abstract step; for any other new name the files
        no longer represent a table. */
    method FRegister(username: string) returns (reply: string)
      requires Valid() && IsCString(username, 255)
      modifies this`world, db.fs
      ensures reply == [(if username in old(world).store.users then 1 else 0) as char]
      ensures db.fs.files == F.Register(old(db.fs.files), username)
      ensures username in old(world).store.users || IsToken(username, 255) ==>
        Valid() && Result(world, S.RegisterCode(old(world).store, username), net) ==
          Serve(old(world), DoRegister(username), old(net))
    {
      hide F.Represents, F.Register, F.RowOf, Rows.RowsOf, IsToken, Serve, WireOf;
      var resultado := db.Register(username);
      R.RegisterRefines(old(db.fs.files), world.store, username);
      ServeRegister(world, username, net);
      if username !in world.store.users && IsToken(username, 255) {
        Note(S.Register(world.store, username), Joined(username));
      }
      CodeByteIs(resultado);
      reply := CodeByte(resultado);
    }

    /** f_unregister */
    method FUnregister(username: string) returns (reply: string)
      requires Valid() && IsCString(username, 255)
      modifies this`world, db.fs
      ensures Valid()
      ensures reply == [(if username in old(world).store.users then 0 else 1) as char]
      ensures var r := Serve(old(world), DoUnregister(username), old(net));
        world == r.world && net == r.net
    {
      hide F.Represents, F.Unregister, Serve, WireOf;
      var resultado := db.Unregister(username);
      R.UnregisterRefines(old(db.fs.files), world.store, username);
      ServeUnregister(world, username, net);
      if username in world.store.users {
        Note(S.Unregister(world.store, username), Left(username));
      }
      CodeByteIs(resultado);
      reply := CodeByte(resultado);
    }

    /** f_disconnect */
    method FDisconnect(username: string, clientIp: string) returns (reply: string)
      requires Valid() && IsCString(username, 255)
      modifies this`world, db.fs
      ensures Valid()
      ensures var users := old(world).store.users;
        reply == [(if username !in users then 1
                   else if users[username].ip != clientIp then 3
                   else if !users[username].online then 2
                   else 0) as char]
      ensures var r := Serve(old(world), DoDisconnect(username, clientIp), old(net));
        world == r.world && net == r.net
    {
      CodeByteIs(1);
      CodeByteIs(3);
      ServeDisconnect(world, username, clientIp, net);
      hide F.Represents, Serve, WireOf;
      var info := UserInfo(username);
      if info.None? { return CodeByte(1); }
      if clientIp != info.value.ip { return CodeByte(3); }
      var res := Offline(username);
      CodeByteIs(res);
      reply := CodeByte(res);
    }

    /** f_connect */
    method FConnect(username: string, clientIp: string, port: int) returns (reply: string)
      requires Valid() && IsCString(username, 255) && IsToken(clientIp, 19) && IsInt32(port)
      modifies this, db.fs
      ensures Valid()
      ensures var users := old(world).store.users;
        reply == [(if username !in users then 1 else if users[username].online then 2 else 0) as char]
      ensures var r := Serve(old(world), DoConnect(username, clientIp, port), old(net));
        world == r.world && net == r.net
    {
      hide F.Represents, Serve;
      var res := db.Connect(username, clientIp, port);
      R.ConnectRefines(old(db.fs.files), world.store, username, clientIp, port);
      ServeConnect(world, username, clientIp, port, net);
      CodeByteIs(res);
      reply := CodeByte(res);
      world := world.(store := S.Connect(world.store, username, clientIp, port));
      if res == 0 {
        DrainPending(username, clientIp, port);
      }
    }

    /** The pending messages of a user that has just connected. */
    method DrainPending(username: string, ip: string, port: int)
      requires Valid() && IsCString(username, 255)
      modifies this, db.fs
      ensures Valid()
      ensures var q := S.Box(old(world).store, username);
        (world, net) == DeliverAll(Log(old(world), Drained(username, q)), Route(username, ip, port), Parcels(q), old(net))
    {
      hide F.Represents;
      var msgs := db.GetPending(username);
      R.PendingRefines(db.fs.files, world.store, username);
      Note(world.store, Drained(username, msgs));
      ghost var route, queue := Route(username, ip, port), Parcels(msgs);
      ghost var w0, net0 := world, net;
      assert queue[0..] == queue;
      for i := 0 to |msgs|
        invariant Valid()
        invariant DeliverAll(world, route, queue[i..], net) == DeliverAll(w0, route, queue, net0)
      {
        assert queue[i..][1..] == queue[i + 1..] && queue[i..][0] == queue[i];
        var ok := Deliver(username, ip, port, msgs[i], HasAttachment(msgs[i]));
        if !ok {
          assert (world, net) == DeliverAll(w0, route, queue, net0);
          return;
        }
      }
      assert queue[|msgs|..] == [];
    }

    /** db_prepare_message, and the message it accepts. */
    method Accept(username: string, to: string, message: string, attach: bool, fileName: string)
      returns (res: int, m: PendingMsg, noted: Noted)
      requires Valid() && IsCString(username, 255) && IsCString(to, 255)
      requires IsCString(message, 255) && IsCString(fileName, 255)
      modifies this`world, db.fs
      ensures Valid() && m.Fits() && res == S.PrepareCode(old(world).store, username, to)
      ensures res != 0 ==> world == old(world)
      ensures res == 0 ==>
        && (world, m) == AcceptedSend(old(world), username, to, message, attach, fileName)
        && to in world.store.users
        && var u := world.store.users[to];
           noted.ip == u.ip && noted.port == u.port && (noted.connected == 1 <==> u.online)
    {
      R.PrepareRefines(db.fs.files, world.store, username, to);
      hide F.Represents, F.RowOf, F.Prepare, WireOf, Noted.From, S.Prepare;
      m := PendingMsg("", 0, "", "");
      res, noted := db.Prepare(username, to);
      if res == 0 {
        NotedFacts(old(db.fs.files), world.store, username, to, noted);
        m := PendingMsg(username, noted.msgId, message, if attach then fileName else "");
        Note(S.Prepare(world.store, username), Accepted(to, m));
      }
    }

    /** f_send (attach false, no file name) and f_sendattach (attach true). */
    method FSend(username: string, to: string, message: string, attach: bool, fileName: string) returns (reply: string)
      requires Valid() && IsCString(username, 255) && IsCString(to, 255)
      requires IsCString(message, 255) && IsCString(fileName, 255)
      modifies this, db.fs
      ensures Valid()
      ensures var r := Serve(old(world), DoSend(username, to, message, attach, fileName), old(net));
        world == r.world && net == r.net
      ensures var users := old(world).store.users;
        reply == if username in users && to in users
                 then [0 as char] + (Dec(if users[username].lastId == 0xffff_ffff then 1 else users[username].lastId + 1) + "\0")
                 else [1 as char]
    {
      ServeSend(world, username, to, message, attach, fileName, net);
      hide Valid, Serve, Dec, DeliverAll, PendingMsg.Fits, IsCString;
      var res, m, noted := Accept(username, to, message, attach, fileName);
      CodeByteIs(res);
      reply := CodeByte(res);
      if res != 0 { return; }
      reply := reply + (Dec(m.id) + "\0");
      StoreMessage(to, m);
      if noted.connected == 1 {
        OneDelivery(world, Route(to, noted.ip, noted.port), Parcel(m, attach), net);
        var _ := Deliver(to, noted.ip, noted.port, m, attach);
      }
    }

    /** db_store_message */
    method StoreMessage(to: string, m: PendingMsg)
      requires Valid() && IsCString(to, 255) && m.Fits()
      modifies this`world, db.fs
      ensures Valid() && world == old(world).(store := S.Deposit(old(world).store, to, m))
    {
      hide F.Represents;
      db.Deposit(to, m.sender, m.id, m.message, m.fileName);
      R.DepositRefines(old(db.fs.files), world.store, to, m);
      world := world.(store := S.Deposit(world.store, to, m));
    }

    /** f_users */
    method FUsers(username: string) returns (reply: string)
      requires Valid() && IsCString(username, 255)
      ensures var users := world.store.users;
        reply == if username !in users then [2 as char]
                 else if !users[username].online then [1 as char]
                 else [0 as char] + L.UsersReply(Rows.RowsOf(db.fs.files[F.USERS]))
    {
      R.RowOfRepresents(db.fs.files, world.store, username);
      hide F.Represents, Rows.RowsOf, L.Entries, Frame, F.RowOf;
      var res, list := db.GetConnected(username);
      CodeByteIs(res);
      reply := CodeByte(res);
      if res == 0 {
        var body := ListBody(list);
        reply := reply + body;
      }
    }

    /** tratar_peticion: read a request from the socket and serve it. */
    method Handle(socket: Socket, clientIp: string) returns (head: Q.Head, reply: string)
      requires Valid() && IsToken(clientIp, 19)
      modifies this, db.fs, socket`incoming
      ensures head == Q.ParseHead(old(socket.incoming))
      ensures !head.Got? || head.req.Users? ==>
        Valid() && world == old(world) && net == old(net) && db.fs.files == old(db.fs.files)
      ensures !head.Got? ==> reply == ""
      // the first byte of the reply
      ensures head.Got? ==> reply != ""
      ensures head.Got? ==>
        var users := old(world).store.users;
        reply[0] as int ==
          (match head.req
          case Register(u) => (if u in users then 1 else 0)
          case Unregister(u) => (if u in users then 0 else 1)
          case Connect(u, _) => (if u !in users then 1 else if users[u].online then 2 else 0)
          case Disconnect(u) =>
            (if u !in users then 1 else if users[u].ip != clientIp then 3 else if !users[u].online then 2 else 0)
          case Send(u, to, _) => (if u in users && to in users then 0 else 1)
          case SendAttach(u, to, _, _) => (if u in users && to in users then 0 else 1)
          case Users(u) => (if u !in users then 2 else if !users[u].online then 1 else 0))
      // the rest of it: an id, the user list, or nothing
      ensures head.Got? && (head.req.Send? || head.req.SendAttach?) && reply[0] == 0 as char ==>
        var last := old(world).store.users[head.req.user].lastId;
        reply[1..] == Dec(if last == 0xffff_ffff then 1 else last + 1) + "\0"
      ensures head.Got? && head.req.Users? && reply[0] == 0 as char ==>
        reply[1..] == L.UsersReply(Rows.RowsOf(old(db.fs.files)[F.USERS]))
      ensures head.Got? && !head.req.Send? && !head.req.SendAttach? && !head.req.Users? ==> |reply| == 1
      // the effect
      ensures head.Got? && head.req.Register? ==>
        var u := head.req.user;
        if u in old(world).store.users || IsToken(u, 255) then
          var r := Serve(old(world), DoRegister(u), old(net)); Valid() && world == r.world && net == r.net
        else db.fs.files == F.Register(old(db.fs.files), u)
      ensures head.Got? && !head.req.Register? ==> Valid()
      ensures head.Got? && head.req.Unregister? ==>
        var r := Serve(old(world), DoUnregister(head.req.user), old(net)); world == r.world && net == r.net
      ensures head.Got? && head.req.Connect? ==>
        var r := Serve(old(world), DoConnect(head.req.user, clientIp, head.req.port), old(net));
        world == r.world && net == r.net
      ensures head.Got? && head.req.Disconnect? ==>
        var r := Serve(old(world), DoDisconnect(head.req.user, clientIp), old(net)); world == r.world && net == r.net
      ensures head.Got? && head.req.Send? ==>
        var r := Serve(old(world), DoSend(head.req.user, head.req.to, head.req.text, false, ""), old(net));
        world == r.world && net == r.net
      ensures head.Got? && head.req.SendAttach? ==>
        var r := Serve(old(world), DoSend(head.req.user, head.req.to, head.req.text, true, head.req.fileName), old(net));
        world == r.world && net == r.net
    {
      Q.ParsedFits(socket.incoming);
      hide Valid, Serve, Q.ParseHead, IsCString, IsToken, Dec, L.UsersReply;
      var closes: nat;
      head, closes := Q.TratarPeticion2(socket);
      reply := "";
      match head
      case Cut =>
      case Unknown =>
      case Got(req) =>
        match req {
          case Register(u) => reply := FRegister(u);
          case Unregister(u) => reply := FUnregister(u);
          case Connect(u, port) => reply := FConnect(u, clientIp, port);
          case Disconnect(u) => reply := FDisconnect(u, clientIp);
          case Send(u, to, text) => reply := FSend(u, to, text, false, "");
          case Users(u) => reply := FUsers(u);
          case SendAttach(u, to, text, fileName) => reply := FSend(u, to, text, true, fileName);
        }
    }

    method ListBody(list: array<string>) returns (body: string)
      ensures body == Frame([Dec(list.Length)] + list[..])
    {
      hide Frame, Dec;
      FrameAppend([], Dec(list.Length));
      EmptyFrame();
      body := Dec(list.Length) + "\0";
      assert [] + [Dec(list.Length)] == [Dec(list.Length)] + list[..0];
      for i := 0 to list.Length
        invariant body == Frame([Dec(list.Length)] + list[..i])
      {
        FrameAppend([Dec(list.Length)] + list[..i], list[i]);
        assert [Dec(list.Length)] + list[..i] + [list[i]] == [Dec(list.Length)] + list[..i + 1];
        body := body + (list[i] + "\0");
      }
      assert list[..list.Length] == list[..];
    }
  }

  /** The out-parameters of db_prepare_message, on the abstract store. */
  lemma NotedFacts(files: F.FileMap, st: S.Store, sender: string, to: string, noted: Noted)
    requires F.Represents(files, st) && S.PrepareCode(st, sender, to) == 0
    requires noted.From(F.RowOf(files, sender), F.RowOf(files, to))
    ensures var users := S.Prepare(st, sender).users;
      && sender in users && to in users
      && IsUint32(noted.msgId) && noted.msgId == users[sender].lastId
      && noted.ip == users[to].ip && noted.port == users[to].port && (noted.connected == 1 <==> users[to].online)
  {
    R.RowOfRepresents(files, st, sender);
    R.RowOfRepresents(files, st, to);
  }

  lemma PushBytes(m: PendingMsg, attach: bool)
    ensures Frame(PushFields(m, attach)) ==
      if attach then
        "" + "SEND_MESSAGE_ATTACH\0" + (m.sender + "\0") + (Dec(m.id) + "\0") + (m.message + "\0") + (m.fileName + "\0")
      else "" + "SEND_MESSAGE\0" + (m.sender + "\0") + (Dec(m.id) + "\0") + (m.message + "\0")
  {
    hide Frame, Dec;
    var op := if attach then "SEND_MESSAGE_ATTACH" else "SEND_MESSAGE";
    FrameOfFour(op, m.sender, Dec(m.id), m.message);
    if attach {
      FrameAppend([op, m.sender, Dec(m.id), m.message], m.fileName);
      assert [op, m.sender, Dec(m.id), m.message] + [m.fileName] == PushFields(m, attach);
    }
  }

  lemma FrameOfFour(a: string, b: string, c: string, d: string)
    ensures Frame([a, b, c, d]) == "" + (a + "\0") + (b + "\0") + (c + "\0") + (d + "\0")
  {
    FrameAppend([], a);
    FrameAppend([a], b);
    FrameAppend([a, b], c);
    FrameAppend([a, b, c], d);
    assert [] + [a] == [a] && [a] + [b] == [a, b] && [a, b] + [c] == [a, b, c] && [a, b, c] + [d] == [a, b, c, d];
  }

  lemma AckBytes(id: nat, attach: bool, fileName: string)
    ensures Frame(AckFields(id, attach, fileName)) ==
      if attach then "SEND_MESS_ATTACH_ACK\0" + (Dec(id) + "\0") + (fileName + "\0")
      else "SEND_MESS_ACK\0" + (Dec(id) + "\0")
  {
    var op := if attach then "SEND_MESS_ATTACH_ACK" else "SEND_MESS_ACK";
    FrameOfTwo(op, Dec(id));
    if attach {
      FrameAppend([op, Dec(id)], fileName);
      assert [op, Dec(id)] + [fileName] == AckFields(id, attach, fileName);
    }
  }

  lemma FrameOfTwo(a: string, b: string)
    ensures Frame([a, b]) == (a + "\0") + (b + "\0")
  {
    EmptyFrame();
    FrameAppend([], a);
    FrameAppend([a], b);
    assert [] + [a] == [a] && [a] + [b] == [a, b];
  }

  // --------------------------------------------------------- on the wire

  /** A push or an acknowledgement is one packet to its own address; nothing else is sent. */
  lemma EventOnTheWire(log: seq<Event>, e: Event)
    ensures e.Pushed? ==>
      WireOf(log + [e]) == WireOf(log) + [Packet(e.ip, e.port, Frame(PushFields(e.msg, e.attach)))]
    ensures e.Acked? ==>
      WireOf(log + [e]) == WireOf(log) + [Packet(e.ip, e.port, Frame(AckFields(e.id, e.attach, e.fileName)))]
    ensures !e.Pushed? && !e.Acked? ==> WireOf(log + [e]) == WireOf(log)
  {
    WireAppend(log, e);
  }

  lemma WholeLog(log: seq<Event>)
    ensures log[..|log|] == log
  {
  }

  /** Every packet is that of some push or acknowledgement in the log. */
  lemma {:induction false} PacketsHaveEvents(log: seq<Event>, from: nat, i: nat) returns (j: nat)
    requires from <= |log| && |WireOf(log[..from])| <= i < |WireOf(log)|
    ensures from <= j < |log| && (log[j].Pushed? || log[j].Acked?)
    ensures log[j].Pushed? ==>
      WireOf(log)[i] == Packet(log[j].ip, log[j].port, Frame(PushFields(log[j].msg, log[j].attach)))
    ensures log[j].Acked? ==>
      WireOf(log)[i] == Packet(log[j].ip, log[j].port, Frame(AckFields(log[j].id, log[j].attach, log[j].fileName)))
  {
    hide *;
    WholeLog(log);
    if from == |log| {
      assert false;
    } else {
      var before, e := log[..|log| - 1], log[|log| - 1];
      assert log == before + [e] && before[..from] == log[..from];
      EventOnTheWire(before, e);
      if i < |WireOf(before)| {
        j := PacketsHaveEvents(before, from, i);
      } else {
        j := |log| - 1;
      }
    }
  }

  /** Every packet a CONNECT puts on the wire is a message of the user's file, pushed to the address
      of that CONNECT, or the acknowledgement of one, sent to its sender's own address. */
  lemma ConnectPackets(w: World, u: string, ip: string, port: int, net: Net, i: nat)
    requires u in w.store.users && !w.store.users[u].online
    requires |WireOf(w.log)| <= i < |WireOf(Serve(w, DoConnect(u, ip, port), net).world.log)|
    ensures var q := if u in w.store.boxes then w.store.boxes[u] else [];
      var users := w.store.users[u := S.User(true, ip, port, w.store.users[u].lastId)];
      var packet := WireOf(Serve(w, DoConnect(u, ip, port), net).world.log)[i];
      exists m :: m in q &&
        (|| packet == Packet(ip, port, Frame(PushFields(m, m.fileName != "")))
         || (m.sender in users && users[m.sender].online &&
             packet == Packet(users[m.sender].ip, users[m.sender].port, Frame(AckFields(m.id, m.fileName != "", m.fileName)))))
  {
    hide *;
    N.ConnectAnswer(w, u, ip, port, net);
    var log := Serve(w, DoConnect(u, ip, port), net).world.log;
    assert log[..|w.log|] == w.log && log[|w.log|].Drained?;
    var j := PacketsHaveEvents(log, |w.log|, i);
    if log[j].Pushed? {
      N.ConnectPush(w, u, ip, port, net, j);
    } else {
      N.ConnectOther(w, u, ip, port, net, j);
      N.ConnectPush(w, u, ip, port, net, j - 2);
    }
  }
}
