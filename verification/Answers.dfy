/** What each request does when it is served without interference, in terms of the users, the
    queues, the log and the outcomes alone: the code, every field that changes, every entry
    logged, with its address and contents. */
module Answers {
  import opened Mail
  import opened MessageStore
  import opened Protocol
  import opened Solo

  // -------------------------------------------------- requests without pushes

  /** REGISTER: 1 for a known name; otherwise 0 and a new offline user whose counter is 0. */
  lemma RegisterAnswer(w: World, u: string, net: Net)
    ensures var r := Serve(w, DoRegister(u), net);
      if u in w.store.users then r == Result(w, 1, net)
      else
        && r.code == 0 && r.net == net
        && r.world.store.users == w.store.users[u := User(false, "0.0.0.0", 0, 0)]
        && r.world.store.boxes == w.store.boxes
        && r.world.log == w.log + [Joined(u)]
  {
    ServeRegister(w, u, net);
  }

  /** UNREGISTER: 1 for an unknown name; otherwise 0, and the user goes with its queue. */
  lemma UnregisterAnswer(w: World, u: string, net: Net)
    ensures var r := Serve(w, DoUnregister(u), net);
      if u !in w.store.users then r == Result(w, 1, net)
      else
        && r.code == 0 && r.net == net
        && r.world.store.users == w.store.users - {u}
        && r.world.store.boxes == w.store.boxes - {u}
        && r.world.log == w.log + [Left(u)]
  {
    ServeUnregister(w, u, net);
  }

  /** DISCONNECT: 1 for an unknown user; 3 from any address but the stored one, whether the user
      is online or not; 2 for an offline user asked for from its stored address; otherwise 0,
      and the user is offline at 0.0.0.0 port 0 with its counter as it was. */
  lemma DisconnectAnswer(w: World, u: string, ip: string, net: Net)
    ensures var r := Serve(w, DoDisconnect(u, ip), net);
      if u !in w.store.users then r == Result(w, 1, net)
      else if w.store.users[u].ip != ip then r == Result(w, 3, net)
      else if !w.store.users[u].online then r == Result(w, 2, net)
      else
        && r.code == 0 && r.net == net && r.world.log == w.log
        && r.world.store.users == w.store.users[u := User(false, "0.0.0.0", 0, w.store.users[u].lastId)]
        && r.world.store.boxes == w.store.boxes
  {
    ServeDisconnect(w, u, ip, net);
  }

  /** The first step of DISCONNECT already settles the answers 1 and 3, in every interleaving. */
  lemma DisconnectFirstStep(w: World, u: string, ip: string, ok: bool)
    ensures Step(w, Start(DoDisconnect(u, ip)), ok) ==
      (w, if u !in w.store.users then Done(1)
          else if w.store.users[u].ip != ip then Done(3)
          else Leaving(u))
  {
  }

  /** CONNECT: 1 for an unknown user, 2 for one that is online already, and nothing changes. */
  lemma ConnectRefused(w: World, u: string, ip: string, port: int, net: Net)
    requires u !in w.store.users || w.store.users[u].online
    ensures Serve(w, DoConnect(u, ip, port), net) == Result(w, if u !in w.store.users then 1 else 2, net)
  {
    ServeConnect(w, u, ip, port, net);
  }

  // ------------------------------------------------------------ SEND, SENDATTACH

  /** Between unknown users: 1, and nothing changes. */
  lemma SendRefused(w: World, s: string, to: string, text: string, attach: bool, fileName: string, net: Net)
    requires s !in w.store.users || to !in w.store.users
    ensures Serve(w, DoSend(s, to, text, attach, fileName), net) == Result(w, 1, net)
  {
    ServeSend(w, s, to, text, attach, fileName, net);
  }

  /** The first step of a send, in every interleaving: the message accepted, the sender's counter,
      and the address and state of the receiver that the worker goes on with. */
  lemma SendFirstStep(w: World, s: string, to: string, text: string, attach: bool, fileName: string, ok: bool)
    requires s in w.store.users && to in w.store.users
    ensures var (w', p') := Step(w, Start(DoSend(s, to, text, attach, fileName)), ok);
      var last := w.store.users[s].lastId;
      var m := PendingMsg(s, if last == 0xffff_ffff then 1 else last + 1, text, if attach then fileName else "");
      && w'.log == w.log + [Accepted(to, m)]
      && w'.store.users == w.store.users[s := w.store.users[s].(lastId := m.id)]
      && w'.store.boxes == w.store.boxes
      && p' == Prepared(Route(to, w.store.users[to].ip, w.store.users[to].port), Parcel(m, attach),
                        w.store.users[to].online, |w.log|)
  {
  }

  /** To an offline receiver: the message goes to the end of its queue, and nobody is dialled. */
  lemma SendStored(w: World, s: string, to: string, text: string, attach: bool, fileName: string, net: Net)
    requires s in w.store.users && to in w.store.users && !w.store.users[to].online
    ensures var r := Serve(w, DoSend(s, to, text, attach, fileName), net);
      var before := w.store.users;
      var id := if before[s].lastId == 0xffff_ffff then 1 else before[s].lastId + 1;
      var m := PendingMsg(s, id, text, if attach then fileName else "");
      && r.code == 0 && r.net == net
      && r.world.log == w.log + [Accepted(to, m)]
      && r.world.store.users == before[s := before[s].(lastId := id)]
      && r.world.store.boxes == w.store.boxes[to := (if to in w.store.boxes then w.store.boxes[to] else []) + [m]]
  {
    ServeSend(w, s, to, text, attach, fileName, net);
  }

  /** To an online receiver whose listener does not answer: the message stays at the end of the
      queue, and the receiver is offline. */
  lemma SendUnreached(w: World, s: string, to: string, text: string, attach: bool, fileName: string, net: Net)
    requires s in w.store.users && to in w.store.users && w.store.users[to].online
    requires net == [] || !net[0]
    ensures var r := Serve(w, DoSend(s, to, text, attach, fileName), net);
      var before := w.store.users;
      var id := if before[s].lastId == 0xffff_ffff then 1 else before[s].lastId + 1;
      var m := PendingMsg(s, id, text, if attach then fileName else "");
      var users := before[s := before[s].(lastId := id)];
      && r.code == 0 && r.net == (if net == [] then [] else net[1..])
      && r.world.log == w.log + [Accepted(to, m)]
      && r.world.store.users == users[to := User(false, "0.0.0.0", 0, users[to].lastId)]
      && r.world.store.boxes == w.store.boxes[to := (if to in w.store.boxes then w.store.boxes[to] else []) + [m]]
  {
    ServeSend(w, s, to, text, attach, fileName, net);
    var (w1, m) := AcceptedSend(w, s, to, text, attach, fileName);
    var u := w1.store.users[to];
    OneDelivery(w1.(store := Deposit(w1.store, to, m)), Route(to, u.ip, u.port), Parcel(m, attach), net);
  }

  /** To an online receiver whose listener answers: the message is pushed to the stored address
      and its id deleted from the queue. Then the sender, if online, is dialled: it gets the
      acknowledgement at its stored address, or is marked offline if that fails. */
  lemma SendPushed(w: World, s: string, to: string, text: string, attach: bool, fileName: string, net: Net)
    requires s in w.store.users && to in w.store.users && w.store.users[to].online
    requires net != [] && net[0]
    ensures var r := Serve(w, DoSend(s, to, text, attach, fileName), net);
      var before := w.store.users;
      var id := if before[s].lastId == 0xffff_ffff then 1 else before[s].lastId + 1;
      var m := PendingMsg(s, id, text, if attach then fileName else "");
      var users := before[s := before[s].(lastId := id)];
      var queue := (if to in w.store.boxes then w.store.boxes[to] else []) + [m];
      var pushed := w.log + [Accepted(to, m), Pushed(to, before[to].ip, before[to].port, m, attach),
                             Deleted(to, id, |w.log| + 1)];
      var acked := |net| > 1 && net[1];
      && r.code == 0
      && r.world.store.boxes == w.store.boxes[to := WithoutId(queue, id)]
      && r.world.log == (if before[s].online && acked
           then pushed + [Acked(s, before[s].ip, before[s].port, id, attach, if attach then fileName else "", |w.log| + 1)]
           else pushed)
      && r.world.store.users == (if before[s].online && !acked then users[s := User(false, "0.0.0.0", 0, id)] else users)
      && r.net == (if !before[s].online || |net| == 1 then net[1..] else net[2..])
  {
    hide *;
    SendReached(w, s, to, text, attach, fileName, net);
    var before := w.store.users;
    var id := if before[s].lastId == 0xffff_ffff then 1 else before[s].lastId + 1;
    var m := PendingMsg(s, id, text, if attach then fileName else "");
    var queue := (if to in w.store.boxes then w.store.boxes[to] else []) + [m];
    var pushed := w.log + [Accepted(to, m), Pushed(to, before[to].ip, before[to].port, m, attach),
                           Deleted(to, id, |w.log| + 1)];
    var w2 := World(Store(before[s := before[s].(lastId := id)], w.store.boxes[to := WithoutId(queue, id)]), pushed);
    AckAnswer(w2, Parcel(m, attach), |w.log| + 1, net[1..]);
    if |net| > 1 { assert net[1..][1..] == net[2..]; }
  }

  /** What is left to do when the message is out is its acknowledgement. */
  lemma SendReached(w: World, s: string, to: string, text: string, attach: bool, fileName: string, net: Net)
    requires s in w.store.users && to in w.store.users && w.store.users[to].online
    requires net != [] && net[0]
    ensures var before := w.store.users;
      var id := if before[s].lastId == 0xffff_ffff then 1 else before[s].lastId + 1;
      var m := PendingMsg(s, id, text, if attach then fileName else "");
      var queue := (if to in w.store.boxes then w.store.boxes[to] else []) + [m];
      var pushed := w.log + [Accepted(to, m), Pushed(to, before[to].ip, before[to].port, m, attach),
                             Deleted(to, id, |w.log| + 1)];
      var w2 := World(Store(before[s := before[s].(lastId := id)], w.store.boxes[to := WithoutId(queue, id)]), pushed);
      var (w3, net') := Acknowledge(w2, Parcel(m, attach), |w.log| + 1, net[1..]);
      Serve(w, DoSend(s, to, text, attach, fileName), net) == Result(w3, 0, net')
  {
    hide Serve, DeliverAll, Acknowledge, PushHead, WithoutId;
    SendDelivers(w, s, to, text, attach, fileName, net);
    var before := w.store.users;
    var id := if before[s].lastId == 0xffff_ffff then 1 else before[s].lastId + 1;
    var m := PendingMsg(s, id, text, if attach then fileName else "");
    var queue := (if to in w.store.boxes then w.store.boxes[to] else []) + [m];
    var boxes := w.store.boxes[to := queue];
    var w1 := World(Store(before[s := before[s].(lastId := id)], boxes), w.log + [Accepted(to, m)]);
    var route := Route(to, before[to].ip, before[to].port);
    OneDelivery(w1, route, Parcel(m, attach), net);
    PushAnswer(w1, route, Parcel(m, attach));
    assert boxes[to := WithoutId(queue, id)] == w.store.boxes[to := WithoutId(queue, id)];
    var push, del := Pushed(to, before[to].ip, before[to].port, m, attach), Deleted(to, id, |w.log| + 1);
    assert w.log + [Accepted(to, m)] + [push, del] == w.log + [Accepted(to, m), push, del];
  }

  /** A send to an online receiver goes on to deliver the one message to the stored address. */
  lemma SendDelivers(w: World, s: string, to: string, text: string, attach: bool, fileName: string, net: Net)
    requires s in w.store.users && to in w.store.users && w.store.users[to].online
    ensures var before := w.store.users;
      var id := if before[s].lastId == 0xffff_ffff then 1 else before[s].lastId + 1;
      var m := PendingMsg(s, id, text, if attach then fileName else "");
      var queue := (if to in w.store.boxes then w.store.boxes[to] else []) + [m];
      var users := before[s := before[s].(lastId := id)];
      var w1 := World(Store(users, w.store.boxes[to := queue]), w.log + [Accepted(to, m)]);
      var (w2, net') := DeliverAll(w1, Route(to, before[to].ip, before[to].port), [Parcel(m, attach)], net);
      Serve(w, DoSend(s, to, text, attach, fileName), net) == Result(w2, 0, net')
  {
    hide DeliverAll, Serve;
    ServeSend(w, s, to, text, attach, fileName, net);
  }

  /** One push: to the address of the route, with the message as it is, and its id deleted. */
  lemma PushAnswer(w: World, route: Route, head: Parcel)
    requires route.to in w.store.boxes
    ensures PushHead(w, route, head) ==
      World(Store(w.store.users, w.store.boxes[route.to := WithoutId(w.store.boxes[route.to], head.msg.id)]),
            w.log + [Pushed(route.to, route.ip, route.port, head.msg, head.attach), Deleted(route.to, head.msg.id, |w.log|)])
  {
  }

  /** One acknowledgement: only an online sender is dialled, at its stored address; it gets the id
      and, for an attachment, the file name, or is marked offline. */
  lemma AckAnswer(w: World, head: Parcel, push: nat, net: Net)
    ensures var s, users := head.msg.sender, w.store.users;
      Acknowledge(w, head, push, net) ==
        if s !in users || !users[s].online then (w, net)
        else if net != [] && net[0] then
          (World(w.store, w.log + [Acked(s, users[s].ip, users[s].port, head.msg.id, head.attach, head.msg.fileName, push)]),
           net[1..])
        else
          (World(Store(users[s := User(false, "0.0.0.0", 0, users[s].lastId)], w.store.boxes), w.log),
           if net == [] then [] else net[1..])
  {
  }

  // ------------------------------------------------------------------ CONNECT

  /** What an entry of a delivery loop says, given the users at its start and its end: pushes go to
      the route's address with a parcel of the queue, each followed by its delete; a sender
      that was online has the acknowledgement at its address next, or ends offline; nothing
      else is logged. */
  predicate EntryFits(users: map<string, User>, route: Route, queue: seq<Parcel>, from: nat, end: World, j: nat)
    requires j < |end.log|
  {
    match end.log[j]
    case Pushed(to, ip, port, msg, attach) =>
      && to == route.to && ip == route.ip && port == route.port && Parcel(msg, attach) in queue
      && j + 1 < |end.log| && end.log[j + 1] == Deleted(to, msg.id, j)
      && var s := msg.sender;
         (s in users && users[s].online ==>
            || (j + 2 < |end.log| &&
                end.log[j + 2] == Acked(s, users[s].ip, users[s].port, msg.id, attach, msg.fileName, j))
            || !Online(end.store, s))
    case Deleted(_, _, push) => from <= push && push + 1 == j && end.log[push].Pushed?
    case Acked(s, ip, port, id, attach, fileName, push) =>
      && from <= push && push + 2 == j && end.log[push].Pushed?
      && end.log[push].msg.sender == s && end.log[push].msg.id == id
      && end.log[push].attach == attach && end.log[push].msg.fileName == fileName
      && s in users && users[s].online && ip == users[s].ip && port == users[s].port
    case _ => false
  }

  /** Users keep their record or go offline. */
  predicate OnlyOffline(users: map<string, User>, users': map<string, User>) {
    && users.Keys == users'.Keys
    && forall s :: s in users ==> users'[s] == users[s] || users'[s] == User(false, "0.0.0.0", 0, users[s].lastId)
  }

  lemma HeadFits(w: World, route: Route, head: Parcel, net: Net)
    ensures var w1 := Acknowledge(PushHead(w, route, head), head, |w.log|, net).0;
      && w.log <= w1.log && OnlyOffline(w.store.users, w1.store.users)
      && forall j :: |w.log| <= j < |w1.log| ==> EntryFits(w.store.users, route, [head], |w.log|, w1, j)
  {
  }

  /** An entry keeps fitting while the loop goes on. */
  lemma StillFits(users: map<string, User>, route: Route, head: Parcel, queue: seq<Parcel>, from: nat, w1: World, end: World,
                  j: nat)
    requires head in queue && j < |w1.log| && EntryFits(users, route, [head], from, w1, j)
    requires w1.log <= end.log && OnlyOffline(w1.store.users, end.store.users)
    ensures EntryFits(users, route, queue, from, end, j)
  {
    assert forall i :: 0 <= i < |w1.log| ==> end.log[i] == w1.log[i];
  }

  /** An entry that fits later users fits the earlier ones. */
  lemma FitsBefore(users: map<string, User>, users1: map<string, User>, route: Route, rest: seq<Parcel>, queue: seq<Parcel>,
                   from: nat, from1: nat, end: World, j: nat)
    requires from <= from1
    requires OnlyOffline(users, users1) && OnlyOffline(users1, end.store.users)
    requires forall p :: p in rest ==> p in queue
    requires j < |end.log| && EntryFits(users1, route, rest, from1, end, j)
    ensures EntryFits(users, route, queue, from, end, j)
  {
  }

  lemma {:induction false} LoopFits(w: World, route: Route, queue: seq<Parcel>, net: Net)
    ensures var end := DeliverAll(w, route, queue, net).0;
      && w.log <= end.log && OnlyOffline(w.store.users, end.store.users)
      && forall j :: |w.log| <= j < |end.log| ==> EntryFits(w.store.users, route, queue, |w.log|, end, j)
    decreases |queue|
  {
    if queue != [] && Up(net) {
      var head, rest := queue[0], queue[1..];
      var (w1, net1) := Acknowledge(PushHead(w, route, head), head, |w.log|, Rest(net));
      var end := DeliverAll(w1, route, rest, net1).0;
      HeadFits(w, route, head, Rest(net));
      LoopFits(w1, route, rest, net1);
      hide Acknowledge, PushHead, EntryFits, OnlyOffline;
      OfflineTwice(w.store.users, w1.store.users, end.store.users);
      forall j | |w.log| <= j < |end.log| ensures EntryFits(w.store.users, route, queue, |w.log|, end, j) {
        if j < |w1.log| {
          StillFits(w.store.users, route, head, queue, |w.log|, w1, end, j);
        } else {
          FitsBefore(w.store.users, w1.store.users, route, rest, queue, |w.log|, |w1.log|, end, j);
        }
      }
    }
  }

  lemma OfflineTwice(a: map<string, User>, b: map<string, User>, c: map<string, User>)
    requires OnlyOffline(a, b) && OnlyOffline(b, c)
    ensures OnlyOffline(a, c)
  {
  }

  lemma ConnectFits(w: World, u: string, ip: string, port: int, net: Net)
    requires u in w.store.users && !w.store.users[u].online
    ensures var r := Serve(w, DoConnect(u, ip, port), net);
      var q := if u in w.store.boxes then w.store.boxes[u] else [];
      var users := w.store.users[u := User(true, ip, port, w.store.users[u].lastId)];
      var from := |w.log| + 1;
      && r.code == 0 && w.log + [Drained(u, q)] <= r.world.log
      && OnlyOffline(users, r.world.store.users)
      && forall j :: from <= j < |r.world.log| ==> EntryFits(users, Route(u, ip, port), Parcels(q), from, r.world, j)
  {
    hide Serve, DeliverAll, EntryFits, OnlyOffline;
    var q := Box(w.store, u);
    var w1 := World(Connect(w.store, u, ip, port), w.log + [Drained(u, q)]);
    ServeConnect(w, u, ip, port, net);
    LoopFits(w1, Route(u, ip, port), Parcels(q), net);
  }

  /** CONNECT of a registered offline user, whatever is pending and whatever fails: 0; the user is
      stored online at its address and the file is drained; apart from that users only go
      offline, and no counter changes. */
  lemma ConnectAnswer(w: World, u: string, ip: string, port: int, net: Net)
    requires u in w.store.users && !w.store.users[u].online
    ensures var r := Serve(w, DoConnect(u, ip, port), net);
      var q := if u in w.store.boxes then w.store.boxes[u] else [];
      var users := w.store.users[u := User(true, ip, port, w.store.users[u].lastId)];
      && r.code == 0 && w.log + [Drained(u, q)] <= r.world.log
      && r.world.store.users.Keys == users.Keys
      && forall s :: s in users ==>
           r.world.store.users[s] == users[s] || r.world.store.users[s] == User(false, "0.0.0.0", 0, users[s].lastId)
  {
    hide Serve;
    ConnectFits(w, u, ip, port, net);
  }

  /** Every push of a CONNECT goes to the address of that CONNECT, with a message of the file, as
      an attachment exactly if it has a file name, and is followed by its delete. A sender that
      was online has the acknowledgement at its own address right behind, with the id, kind and
      file name of the push, or is offline in the end. */
  lemma ConnectPush(w: World, u: string, ip: string, port: int, net: Net, j: nat)
    requires u in w.store.users && !w.store.users[u].online
    requires var log := Serve(w, DoConnect(u, ip, port), net).world.log; |w.log| < j < |log| && log[j].Pushed?
    ensures var r := Serve(w, DoConnect(u, ip, port), net);
      var q := if u in w.store.boxes then w.store.boxes[u] else [];
      var users := w.store.users[u := User(true, ip, port, w.store.users[u].lastId)];
      var log := r.world.log;
      var m := log[j].msg;
      && m in q && log[j] == Pushed(u, ip, port, m, m.fileName != "")
      && j + 1 < |log| && log[j + 1] == Deleted(u, m.id, j)
      && (m.sender in users && users[m.sender].online ==>
            || (j + 2 < |log| && log[j + 2] == Acked(m.sender, users[m.sender].ip, users[m.sender].port,
                                                     m.id, m.fileName != "", m.fileName, j))
            || (m.sender in r.world.store.users && !r.world.store.users[m.sender].online))
  {
    hide Serve, Parcels;
    ConnectFits(w, u, ip, port, net);
    var q := if u in w.store.boxes then w.store.boxes[u] else [];
    ParcelsFlagged(q);
    var users := w.store.users[u := User(true, ip, port, w.store.users[u].lastId)];
    var end := Serve(w, DoConnect(u, ip, port), net).world;
    assert EntryFits(users, Route(u, ip, port), Parcels(q), |w.log| + 1, end, j);
    var e := end.log[j];
    assert Parcel(e.msg, e.attach) in Parcels(q);
  }

  /** Nothing but pushes, their deletes and their acknowledgements is logged; an acknowledgement
      stands two places behind its push, repeats it, and goes to a sender that was online at
      the address it had. */
  lemma ConnectOther(w: World, u: string, ip: string, port: int, net: Net, j: nat)
    requires u in w.store.users && !w.store.users[u].online
    requires var log := Serve(w, DoConnect(u, ip, port), net).world.log; |w.log| < j < |log| && !log[j].Pushed?
    ensures var users := w.store.users[u := User(true, ip, port, w.store.users[u].lastId)];
      var log := Serve(w, DoConnect(u, ip, port), net).world.log;
      || (log[j].Deleted? && |w.log| < j - 1 == log[j].push && log[j - 1].Pushed?)
      || (log[j].Acked? && |w.log| < j - 2 && log[j - 2].Pushed? &&
          var m := log[j - 2].msg;
          && m.sender in users && users[m.sender].online
          && log[j] == Acked(m.sender, users[m.sender].ip, users[m.sender].port, m.id, log[j - 2].attach, m.fileName, j - 2))
  {
    hide Serve;
    ConnectFits(w, u, ip, port, net);
    var q := if u in w.store.boxes then w.store.boxes[u] else [];
    var users := w.store.users[u := User(true, ip, port, w.store.users[u].lastId)];
    assert EntryFits(users, Route(u, ip, port), Parcels(q), |w.log| + 1, Serve(w, DoConnect(u, ip, port), net).world, j);
  }

  lemma ParcelsFlagged(q: seq<PendingMsg>)
    ensures forall p :: p in Parcels(q) ==> p.msg in q && p.attach == (p.msg.fileName != "")
  {
  }

  /** When the listeners answer nobody goes offline, so every online sender is acknowledged. */
  lemma {:induction false} LoopAllUp(w: World, route: Route, queue: seq<Parcel>, net: Net)
    requires 2 * |queue| <= |net| && forall i :: 0 <= i < 2 * |queue| ==> net[i]
    ensures DeliverAll(w, route, queue, net).0.store.users == w.store.users
    decreases |queue|
  {
    if queue != [] {
      var (w', net') := Acknowledge(PushHead(w, route, queue[0]), queue[0], |w.log|, Rest(net));
      assert net' == net[1..] || net' == net[2..];
      LoopAllUp(w', route, queue[1..], net');
    }
  }

  lemma ConnectAllUp(w: World, u: string, ip: string, port: int, net: Net)
    requires u in w.store.users && !w.store.users[u].online
    requires var q := if u in w.store.boxes then w.store.boxes[u] else [];
      2 * |q| <= |net| && forall i :: 0 <= i < 2 * |q| ==> net[i]
    ensures Serve(w, DoConnect(u, ip, port), net).world.store.users ==
      w.store.users[u := User(true, ip, port, w.store.users[u].lastId)]
  {
    var q := Box(w.store, u);
    var w1 := World(Connect(w.store, u, ip, port), w.log + [Drained(u, q)]);
    ServeConnect(w, u, ip, port, net);
    LoopAllUp(w1, Route(u, ip, port), Parcels(q), net);
  }
}
