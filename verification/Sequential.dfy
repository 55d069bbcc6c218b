/** What every run without overlapping handlers keeps, and exactly when a drain loses nothing. */
module Sequential {
  import opened Mail
  import opened Queues
  import opened MessageStore
  import opened Protocol
  import opened Solo
  import opened Delivery

  /** For receiver r: pending messages only while registered and offline; delivered and
      pending together never exceed the accepted ones, and equal them if and only if no file
      drained for r kept a message that shares an id with one it sent; all since r last
      joined or left. */
  predicate Sound(w: World, r: string) {
    var delivered, pending, accepted :=
      multiset(PushedTo(w.log, r)), multiset(Box(w.store, r)), multiset(AcceptedFor(w.log, r));
    && (Box(w.store, r) != [] ==> r in w.store.users && !Online(w.store, r))
    && delivered + pending <= accepted
    && (delivered + pending == accepted <==> DrainsClean(w.log, r, 0))
  }

  /** The last file drained for an online user was sent to its end, so further pushes to it are
      not the drain's. */
  ghost predicate Settled(w: World, r: string) {
    Online(w.store, r) ==> forall n: nat :: DrainsClean(w.log, r, n) <==> DrainsClean(w.log, r, 0)
  }

  ghost predicate Fine(w: World, r: string) {
    Sound(w, r) && Settled(w, r)
  }

  ghost predicate AllFine(w: World) {
    forall r :: Fine(w, r)
  }

  // ------------------------------------------------- each request keeps it

  lemma ConnectDelivers(w: World, u: string, ip: string, port: int, net: Net, r: string)
    requires ConnectCode(w.store, u) == 0
    ensures var q := Box(w.store, u);
      var w1 := World(Connect(w.store, u, ip, port), w.log + [Drained(u, q)]);
      var k := Reached(w1, Route(u, ip, port), Parcels(q), net);
      var w' := Serve(w, DoConnect(u, ip, port), net).world;
      && k <= |q|
      && AcceptedFor(w'.log, r) == AcceptedFor(w.log, r)
      && PushedTo(w'.log, r) == (if r == u then PushedTo(w.log, r) + q[..k] else PushedTo(w.log, r))
      && Box(w'.store, r) == (if r == u then WithoutAll(q, q[..k]) else Box(w.store, r))
      && (r in w'.store.users <==> r in w.store.users)
      && (r != u && Online(w'.store, r) ==> Online(w.store, r))
      && (k < |q| ==> !Online(w'.store, u))
  {
    var q := Box(w.store, u);
    var w1 := World(Connect(w.store, u, ip, port), w.log + [Drained(u, q)]);
    ServeConnect(w, u, ip, port, net);
    MessagesOfParcels(q);
    LogAppend(w.log, Drained(u, q), r);
    DeliverAllEffect(w1, Route(u, ip, port), Parcels(q), net, r);
  }

  lemma ConnectClean(w: World, u: string, ip: string, port: int, net: Net, r: string, n: nat)
    requires ConnectCode(w.store, u) == 0
    ensures var q := Box(w.store, u);
      var w1 := World(Connect(w.store, u, ip, port), w.log + [Drained(u, q)]);
      var k := Reached(w1, Route(u, ip, port), Parcels(q), net);
      var w' := Serve(w, DoConnect(u, ip, port), net).world;
      k <= |q| &&
      (DrainsClean(w'.log, r, n) <==>
        if r == u then NoneShared(q, if n + k < |q| then n + k else |q|) && DrainsClean(w.log, r, 0)
        else DrainsClean(w.log, r, n))
  {
    hide Serve, DeliverAll, Reached, DrainsClean, NoneShared, PushedTo, AcceptedFor, StoreEffect, Connect, Box;
    var q := Box(w.store, u);
    var w1 := World(Connect(w.store, u, ip, port), w.log + [Drained(u, q)]);
    var k := Reached(w1, Route(u, ip, port), Parcels(q), net);
    ServeConnect(w, u, ip, port, net);
    MessagesOfParcels(q);
    CleanAppend(w.log, Drained(u, q), r, if r == u then n + k else n);
    DeliverAllEffect(w1, Route(u, ip, port), Parcels(q), net, r);
  }

  /** What was delivered and is pending after a drain, against what was accepted. */
  lemma DrainSums(p: multiset<PendingMsg>, d: multiset<PendingMsg>, b: multiset<PendingMsg>,
                  q: multiset<PendingMsg>, a: multiset<PendingMsg>)
    requires d + b <= q && p + q <= a
    ensures p + d + b <= a
    ensures p + d + b == a <==> d + b == q && p + q == a
  {
    assert p + d + b == p + (d + b);
    if p + d + b == a {
      assert p + q <= p + (d + b);
      Cancel(p, d + b, q);
      assert p + q == a;
    }
  }

  lemma ConnectKeepsSound(w: World, u: string, ip: string, port: int, net: Net, r: string)
    requires Fine(w, r)
    ensures Fine(Serve(w, DoConnect(u, ip, port), net).world, r)
  {
    hide Fine, Serve, DrainsClean, NoneShared, PushedTo, AcceptedFor, WithoutAll, Reached, Connect, Box;
    if ConnectCode(w.store, u) != 0 {
      ServeConnect(w, u, ip, port, net);
    } else {
      var q := Box(w.store, u);
      var w1 := World(Connect(w.store, u, ip, port), w.log + [Drained(u, q)]);
      var k := Reached(w1, Route(u, ip, port), Parcels(q), net);
      ConnectDelivers(w, u, ip, port, net, r);
      forall n: nat { ConnectClean(w, u, ip, port, net, r, n); }
      ConnectClean(w, u, ip, port, net, r, 0);
      ConnectIsFine(w, Serve(w, DoConnect(u, ip, port), net).world, u, k, r);
    }
  }

  lemma ConnectIsFine(w: World, w': World, u: string, k: nat, r: string)
    requires Fine(w, r) && ConnectCode(w.store, u) == 0 && k <= |Box(w.store, u)|
    requires AcceptedFor(w'.log, r) == AcceptedFor(w.log, r)
    requires var q := Box(w.store, u);
      && PushedTo(w'.log, r) == (if r == u then PushedTo(w.log, r) + q[..k] else PushedTo(w.log, r))
      && Box(w'.store, r) == (if r == u then WithoutAll(q, q[..k]) else Box(w.store, r))
      && (r in w'.store.users <==> r in w.store.users)
      && (r != u && Online(w'.store, r) ==> Online(w.store, r))
      && (k < |q| ==> !Online(w'.store, u))
      && forall n: nat :: DrainsClean(w'.log, r, n) <==>
           if r == u then NoneShared(q, if n + k < |q| then n + k else |q|) && DrainsClean(w.log, r, 0)
           else DrainsClean(w.log, r, n)
    ensures Fine(w', r)
  {
    hide PushedTo, AcceptedFor, DrainsClean, NoneShared, WithoutAll;
    var q := Box(w.store, u);
    if r == u {
      DrainSplit(q, k);
      DrainLeaves(q, k);
      var p := PushedTo(w.log, r);
      assert multiset(p + q[..k]) == multiset(p) + multiset(q[..k]);
      DrainSums(multiset(p), multiset(q[..k]), multiset(WithoutAll(q, q[..k])), multiset(q), multiset(AcceptedFor(w.log, r)));
    }
  }

  /** An accepted and stored message, seen from user r. */
  lemma StoredFor(w: World, s: string, to: string, text: string, attach: bool, fileName: string, r: string)
    requires PrepareCode(w.store, s, to) == 0
    ensures var (w1, m) := AcceptedSend(w, s, to, text, attach, fileName);
      var w2 := w1.(store := Deposit(w1.store, to, m));
      && AcceptedFor(w2.log, r) == (if r == to then AcceptedFor(w.log, r) + [m] else AcceptedFor(w.log, r))
      && PushedTo(w2.log, r) == PushedTo(w.log, r)
      && (forall n: nat :: DrainsClean(w2.log, r, n) <==> DrainsClean(w.log, r, n))
      && Box(w2.store, r) == (if r == to then Box(w.store, r) + [m] else Box(w.store, r))
      && (r in w2.store.users <==> r in w.store.users)
      && Online(w2.store, r) == Online(w.store, r) && Online(w1.store, r) == Online(w.store, r)
      && to in w1.store.users
  {
    var (w1, m) := AcceptedSend(w, s, to, text, attach, fileName);
    LogAppend(w.log, Accepted(to, m), r);
    forall n: nat { CleanAppend(w.log, Accepted(to, m), r, n); }
  }

  lemma StoredIsSound(w: World, w2: World, to: string, m: PendingMsg, r: string)
    requires Fine(w, r) && to in w2.store.users
    requires AcceptedFor(w2.log, r) == if r == to then AcceptedFor(w.log, r) + [m] else AcceptedFor(w.log, r)
    requires PushedTo(w2.log, r) == PushedTo(w.log, r)
    requires forall n: nat :: DrainsClean(w2.log, r, n) <==> DrainsClean(w.log, r, n)
    requires Box(w2.store, r) == if r == to then Box(w.store, r) + [m] else Box(w.store, r)
    requires r in w2.store.users <==> r in w.store.users
    requires Online(w2.store, r) == Online(w.store, r)
    ensures !(r == to && Online(w.store, to)) ==> Sound(w2, r)
    ensures Settled(w2, r)
    ensures r == to && Online(w.store, to) ==> Box(w2.store, to) == [m]
    ensures var p, b, a := multiset(PushedTo(w2.log, r)), multiset(Box(w2.store, r)), multiset(AcceptedFor(w2.log, r));
      p + b <= a && (p + b == a <==> DrainsClean(w2.log, r, 0))
  {
    hide PushedTo, AcceptedFor, DrainsClean;
    if r == to {
      assert multiset(Box(w.store, r) + [m]) == multiset(Box(w.store, r)) + multiset{m};
      assert multiset(AcceptedFor(w.log, r) + [m]) == multiset(AcceptedFor(w.log, r)) + multiset{m};
    }
  }

  /** A live delivery of the one message in the file. */
  lemma DeliveredIsSound(w: World, w': World, to: string, m: PendingMsg, k: nat, r: string)
    requires k <= 1 && LogEffect(w, w', to, [m][..k], r) && StoreEffect(w, w', to, [m][..k], r)
    requires k < 1 ==> !Online(w'.store, to)
    requires to in w.store.users && (r == to ==> Box(w.store, to) == [m]) && (r != to ==> Sound(w, r))
    requires var p, b, a := multiset(PushedTo(w.log, r)), multiset(Box(w.store, r)), multiset(AcceptedFor(w.log, r));
      p + b <= a && (p + b == a <==> DrainsClean(w.log, r, 0))
    requires Settled(w, r) && Online(w.store, to)
    ensures Fine(w', r)
  {
    hide PushedTo, AcceptedFor, DrainsClean, Online, Box, WithoutAll;
    if r == to {
      OneMessage(m, PushedTo(w.log, r));
      assert k == 0 || k == 1;
    }
  }

  lemma OneMessage(m: PendingMsg, p: seq<PendingMsg>)
    ensures [m][..1] == [m] && [m][..0] == [] && p + [] == p
    ensures WithoutAll([m], [m]) == [] && WithoutAll([m], []) == [m]
    ensures multiset(p + [m]) + multiset([]) == multiset(p) + multiset([m])
  {
    assert [m][1..] == [];
    assert WithoutAll([m], [m]) == WithoutAll(WithoutId([m], m.id), []) == [];
  }

  lemma SendKeepsSound(w: World, s: string, to: string, text: string, attach: bool, fileName: string, net: Net, r: string)
    requires Fine(w, r)
    ensures Fine(Serve(w, DoSend(s, to, text, attach, fileName), net).world, r)
  {
    ServeSend(w, s, to, text, attach, fileName, net);
    if PrepareCode(w.store, s, to) == 0 {
      var (w1, m) := AcceptedSend(w, s, to, text, attach, fileName);
      var w2 := w1.(store := Deposit(w1.store, to, m));
      StoredFor(w, s, to, text, attach, fileName, r);
      StoredFor(w, s, to, text, attach, fileName, to);
      var u := w1.store.users[to];
      var route, queue := Route(to, u.ip, u.port), [Parcel(m, attach)];
      hide PushedTo, AcceptedFor, DrainsClean, Box, Sound, Settled, LogEffect, StoreEffect, DeliverAll, Reached, AcceptedSend;
      StoredIsSound(w, w2, to, m, r);
      if u.online {
        DeliverAllEffect(w2, route, queue, net, r);
        OneParcel(m, attach);
        DeliveredIsSound(w2, DeliverAll(w2, route, queue, net).0, to, m, Reached(w2, route, queue, net), r);
      }
    }
  }

  lemma OneParcel(m: PendingMsg, attach: bool)
    ensures Messages([Parcel(m, attach)]) == [m]
  {
  }

  lemma RegisterKeepsSound(w: World, u: string, net: Net, r: string)
    requires Fine(w, r)
    ensures Fine(Serve(w, DoRegister(u), net).world, r)
  {
    ServeRegister(w, u, net);
    LogAppend(w.log, Joined(u), r);
    forall n: nat { CleanAppend(w.log, Joined(u), r, n); }
    hide Serve, PushedTo, AcceptedFor, DrainsClean;
  }

  lemma UnregisterKeepsSound(w: World, u: string, net: Net, r: string)
    requires Fine(w, r)
    ensures Fine(Serve(w, DoUnregister(u), net).world, r)
  {
    ServeUnregister(w, u, net);
    LogAppend(w.log, Left(u), r);
    forall n: nat { CleanAppend(w.log, Left(u), r, n); }
    hide Serve, PushedTo, AcceptedFor, DrainsClean;
  }

  lemma DisconnectKeepsSound(w: World, u: string, ip: string, net: Net, r: string)
    requires Fine(w, r)
    ensures Fine(Serve(w, DoDisconnect(u, ip), net).world, r)
  {
    ServeDisconnect(w, u, ip, net);
    hide Serve, PushedTo, AcceptedFor, DrainsClean;
  }

  lemma ServeKeepsSound(w: World, task: Task, net: Net)
    requires AllFine(w)
    ensures AllFine(Serve(w, task, net).world)
  {
    hide Fine, Serve;
    forall r ensures Fine(Serve(w, task, net).world, r) {
      match task
      case DoConnect(u, ip, port) => ConnectKeepsSound(w, u, ip, port, net, r);
      case DoSend(s, to, text, attach, fileName) => SendKeepsSound(w, s, to, text, attach, fileName, net, r);
      case DoRegister(u) => RegisterKeepsSound(w, u, net, r);
      case DoUnregister(u) => UnregisterKeepsSound(w, u, net, r);
      case DoDisconnect(u, ip) => DisconnectKeepsSound(w, u, ip, net, r);
    }
  }

  /** In every run without overlapping handlers, whatever pushes and acknowledgements fail. */
  lemma {:induction false} NonOverlappingRunsAreSound(acts: seq<Action>, r: string)
    requires NonOverlapping(acts) && Idle(Exec(acts))
    ensures Sound(Exec(acts).world, r)
    ensures var w := Exec(acts).world;
      var pending := if r in w.store.boxes then w.store.boxes[r] else [];
      var out, accepted := multiset(PushedTo(w.log, r)) + multiset(pending), multiset(AcceptedFor(w.log, r));
      && (pending != [] ==> r in w.store.users && !w.store.users[r].online)
      && out <= accepted
      && (out == accepted <==> DrainsClean(w.log, r, 0))
      && (DrainsDistinct(w.log, r) ==> out == accepted)
  {
    forall w, task, net: Net | AllFine(w) ensures AllFine(Serve(w, task, net).world) {
      ServeKeepsSound(w, task, net);
    }
    assert AllFine(EMPTY) by {
      forall q ensures Fine(EMPTY, q) {}
    }
    IdleInvariant(w => AllFine(w), acts);
    assert Fine(Exec(acts).world, r);
    if DrainsDistinct(Exec(acts).world.log, r) {
      DistinctIsClean(Exec(acts).world.log, r, 0);
    }
  }

  // --------------------------------------------------------- one drain

  /** f_connect on a registered offline user, whatever is in the file and whatever pushes
      fail: the messages before the first failing push attempt are pushed in order, the records
      whose id does not occur among them stay (the exact suffix if the ids are distinct), nothing
      stays if no push failed, and the user is offline if one did. */
  lemma {:induction false} DrainResult(w: World, u: string, ip: string, port: int, net: Net)
    requires ConnectCode(w.store, u) == 0
    ensures var q := Box(w.store, u);
      var w1 := World(Connect(w.store, u, ip, port), w.log + [Drained(u, q)]);
      var k := Reached(w1, Route(u, ip, port), Parcels(q), net);
      var w' := Serve(w, DoConnect(u, ip, port), net).world;
      && k <= |q|
      && (forall j :: 0 <= j < k ==> Up(Progress(w1, Route(u, ip, port), Parcels(q), net, j).1))
      && (k < |q| ==> !Up(Progress(w1, Route(u, ip, port), Parcels(q), net, k).1))
      && (q != [] ==> (k == 0 <==> net == [] || !net[0]))
      && PushedTo(w'.log, u) == PushedTo(w.log, u) + q[..k]
      && Box(w'.store, u) == Keep(q[k..], q[..k])
      && (DistinctIds(q) ==> Box(w'.store, u) == q[k..])
      && (k == |q| ==> Box(w'.store, u) == [])
      && (k < |q| ==> !Online(w'.store, u))
  {
    var q := Box(w.store, u);
    var w1 := World(Connect(w.store, u, ip, port), w.log + [Drained(u, q)]);
    var k := Reached(w1, Route(u, ip, port), Parcels(q), net);
    ConnectDelivers(w, u, ip, port, net, u);
    ReachedExactly(w1, Route(u, ip, port), Parcels(q), net);
    if q != [] { ReachesNone(w1, Route(u, ip, port), Parcels(q), net); }
    hide Serve, PushedTo, DistinctIds, WithoutAll, Reached, Progress, Up;
    DrainLeaves(q, k);
    if DistinctIds(q) {
      DistinctSuffix(q, k);
    }
  }

  lemma ReachesNone(w: World, route: Route, queue: seq<Parcel>, net: Net)
    requires queue != []
    ensures Reached(w, route, queue, net) == 0 <==> net == [] || !net[0]
  {
  }

  /** When the listeners answer, a connect delivers everything pending in order and leaves the
      user online with nothing pending. */
  lemma {:induction false} DrainDeliversAll(w: World, u: string, ip: string, port: int, net: Net)
    requires u in w.store.users && !w.store.users[u].online
    requires var n := 2 * |Box(w.store, u)|; n <= |net| && forall i :: 0 <= i < n ==> net[i]
    ensures var w' := Serve(w, DoConnect(u, ip, port), net).world;
      && PushedTo(w'.log, u) == PushedTo(w.log, u) + Box(w.store, u)
      && Box(w'.store, u) == [] && Online(w'.store, u)
  {
    var q := Box(w.store, u);
    var w1 := World(Connect(w.store, u, ip, port), w.log + [Drained(u, q)]);
    DrainResult(w, u, ip, port, net);
    AllUpReaches(w1, Route(u, ip, port), Parcels(q), net, u);
    ServeConnect(w, u, ip, port, net);
    assert q[..|q|] == q;
  }

  /** What an accepted send does to its receiver: stored behind what is pending if the receiver
      is offline, pushed and deleted if its listener answers, and otherwise the one message
      pending for a receiver that is now offline. */
  lemma {:induction false} SendResult(w: World, s: string, to: string, text: string, attach: bool, fileName: string, net: Net)
    requires Sound(w, to) && s in w.store.users && to in w.store.users
    ensures var last := w.store.users[s].lastId;
      var m := PendingMsg(s, if last == 0xffff_ffff then 1 else last + 1, text, if attach then fileName else "");
      var w' := Serve(w, DoSend(s, to, text, attach, fileName), net).world;
      && PushedTo(w'.log, to) == PushedTo(w.log, to) + (if Online(w.store, to) && Up(net) then [m] else [])
      && Box(w'.store, to) == (if !Online(w.store, to) then Box(w.store, to) + [m] else if Up(net) then [] else [m])
      && (!Online(w.store, to) || !Up(net) ==> !Online(w'.store, to))
  {
    hide PushedTo, AcceptedFor, DrainsClean, DeliverAll, Serve, WithoutAll;
    ServeSend(w, s, to, text, attach, fileName, net);
    StoredFor(w, s, to, text, attach, fileName, to);
    var (w1, m) := AcceptedSend(w, s, to, text, attach, fileName);
    var w2 := w1.(store := Deposit(w1.store, to, m));
    var u := w1.store.users[to];
    if u.online {
      var route, queue := Route(to, u.ip, u.port), [Parcel(m, attach)];
      OneParcel(m, attach);
      DeliverAllEffect(w2, route, queue, net, to);
      OneReached(w2, route, m, attach, net);
      OneMessage(m, PushedTo(w.log, to));
      assert Box(w2.store, to) == [m];
    }
  }

  lemma OneReached(w: World, route: Route, m: PendingMsg, attach: bool, net: Net)
    ensures Reached(w, route, [Parcel(m, attach)], net) == if Up(net) then 1 else 0
  {
    assert [Parcel(m, attach)][1..] == [];
  }

  /** Delivered and pending messages of u add up to the same before and after. */
  predicate Conserved(w: World, w': World, u: string) {
    multiset(PushedTo(w'.log, u)) + multiset(Box(w'.store, u)) ==
    multiset(PushedTo(w.log, u)) + multiset(Box(w.store, u))
  }

  /** Outcomes that let exactly k messages out. */
  function NetFor(w: World, route: Route, queue: seq<Parcel>, k: nat): Net
    requires k <= |queue|
    decreases k
  {
    if k == 0 then []
    else
      var w1 := PushHead(w, route, queue[0]);
      if Online(w1.store, queue[0].msg.sender) then
        [true, true] + NetFor(Acknowledge(w1, queue[0], |w.log|, [true]).0, route, queue[1..], k - 1)
      else [true] + NetFor(w1, route, queue[1..], k - 1)
  }

  lemma {:induction false} NetForReaches(w: World, route: Route, queue: seq<Parcel>, k: nat)
    requires k <= |queue|
    ensures Reached(w, route, queue, NetFor(w, route, queue, k)) == k
    decreases k
  {
    if k > 0 {
      var w1 := PushHead(w, route, queue[0]);
      if Online(w1.store, queue[0].msg.sender) {
        var w2 := Acknowledge(w1, queue[0], |w.log|, [true]).0;
        var tail := NetFor(w2, route, queue[1..], k - 1);
        NetForReaches(w2, route, queue[1..], k - 1);
        assert Rest([true, true] + tail) == [true] + tail && Rest([true] + tail) == tail;
        assert Acknowledge(w1, queue[0], |w.log|, [true] + tail) == (w2, tail);
      } else {
        var tail := NetFor(w1, route, queue[1..], k - 1);
        NetForReaches(w1, route, queue[1..], k - 1);
        assert Rest([true] + tail) == tail;
      }
    }
  }

  lemma ConservedAt(w: World, u: string, ip: string, port: int, net: Net)
    requires ConnectCode(w.store, u) == 0
    ensures var q := Box(w.store, u);
      var w1 := World(Connect(w.store, u, ip, port), w.log + [Drained(u, q)]);
      var k := Reached(w1, Route(u, ip, port), Parcels(q), net);
      k <= |q| &&
      (Conserved(w, Serve(w, DoConnect(u, ip, port), net).world, u) <==> NoneShared(q, k))
  {
    hide Serve, PushedTo, DistinctIds, WithoutAll, Reached, NoneShared, Connect;
    var q := Box(w.store, u);
    var w1 := World(Connect(w.store, u, ip, port), w.log + [Drained(u, q)]);
    var k := Reached(w1, Route(u, ip, port), Parcels(q), net);
    ConnectDelivers(w, u, ip, port, net, u);
    DrainSplit(q, k);
    var p, d, b := multiset(PushedTo(w.log, u)), multiset(q[..k]), multiset(WithoutAll(q, q[..k]));
    assert multiset(PushedTo(w.log, u) + q[..k]) == p + d;
    Cancel(p, d + b, multiset(q));
    assert (p + d) + b == p + (d + b);
  }

  lemma Cancel(p: multiset<PendingMsg>, a: multiset<PendingMsg>, b: multiset<PendingMsg>)
    ensures p + a == p + b <==> a == b
  {
    if p + a == p + b {
      assert (p + a) - p == a && (p + b) - p == b;
    }
  }

  /** A drain loses nothing whatever pushes fail if and only if the file holds no id twice. */
  lemma DrainConservesIffDistinct(w: World, u: string, ip: string, port: int)
    requires ConnectCode(w.store, u) == 0
    ensures (forall net: Net :: Conserved(w, Serve(w, DoConnect(u, ip, port), net).world, u)) <==>
      DistinctIds(Box(w.store, u))
  {
    var q := Box(w.store, u);
    var route := Route(u, ip, port);
    var w1 := World(Connect(w.store, u, ip, port), w.log + [Drained(u, q)]);
    if DistinctIds(q) {
      forall net: Net ensures Conserved(w, Serve(w, DoConnect(u, ip, port), net).world, u) {
        ConservedAt(w, u, ip, port, net);
        DistinctSuffix(q, Reached(w1, route, Parcels(q), net));
      }
    } else {
      var i, j :| 0 <= i < j < |q| && q[i].id == q[j].id;
      var net := NetFor(w1, route, Parcels(q), j);
      NetForReaches(w1, route, Parcels(q), j);
      ConservedAt(w, u, ip, port, net);
      assert q[..j][i].id == q[j].id;
      assert Occurs(q[..j], q[j].id);
      assert !Conserved(w, Serve(w, DoConnect(u, ip, port), net).world, u);
    }
  }
}
