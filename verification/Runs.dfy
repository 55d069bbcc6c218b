/** Every served request is a run of the step system, and two concrete facts about runs: one
    that loses a message, and what f_disconnect answers an offline user. */
module Runs {
  import opened Mail
  import opened Queues
  import opened MessageStore
  import opened Protocol
  import opened Solo
  import opened Delivery
  import opened Sequential

  /** The steps that take a lone worker to its end. */
  lemma {:induction false} Finish(acts: seq<Action>, id: nat, net: Net) returns (acts': seq<Action>)
    requires NonOverlapping(acts) && id in Exec(acts).workers
    requires forall k :: k in Exec(acts).workers && k != id ==> Exec(acts).workers[k].Done?
    ensures NonOverlapping(acts') && Idle(Exec(acts'))
    ensures Exec(acts').world == RunAlone(Exec(acts).world, Exec(acts).workers[id], net).world
    ensures Exec(acts').workers.Keys == Exec(acts).workers.Keys
    decreases Stage(Exec(acts).workers[id]), ToDo(Exec(acts).workers[id]), Phase(Exec(acts).workers[id])
  {
    var p := Exec(acts).workers[id];
    if p.Done? {
      acts' := acts;
    } else {
      var acts1 := acts + [Run(id, Up(net))];
      assert acts1[..|acts1| - 1] == acts;
      acts' := Finish(acts1, id, if Dials(p) then Rest(net) else net);
    }
  }

  /** An idle server can serve any request as a run without overlap, with the same result. */
  lemma ServeIsARun(acts: seq<Action>, id: nat, task: Task, net: Net) returns (acts': seq<Action>)
    requires NonOverlapping(acts) && Idle(Exec(acts)) && id !in Exec(acts).workers
    ensures NonOverlapping(acts') && Idle(Exec(acts'))
    ensures Exec(acts').world == Serve(Exec(acts).world, task, net).world
    ensures Exec(acts').workers.Keys == Exec(acts).workers.Keys + {id}
  {
    var acts1 := acts + [Arrive(id, task)];
    assert acts1[..|acts1| - 1] == acts;
    acts' := Finish(acts1, id, net);
  }

  // ------------------------------------------- two senders, the same id

  predicate OfflineUser(w: World, u: string) {
    u in w.store.users && !w.store.users[u].online && w.store.users[u].lastId == 0
  }

  lemma RegisterNew(acts: seq<Action>, id: nat, u: string) returns (acts': seq<Action>)
    requires NonOverlapping(acts) && Idle(Exec(acts)) && id !in Exec(acts).workers
    requires u !in Exec(acts).world.store.users
    ensures NonOverlapping(acts') && Idle(Exec(acts')) && Exec(acts').workers.Keys == Exec(acts).workers.Keys + {id}
    ensures var w, w' := Exec(acts).world, Exec(acts').world;
      w'.store == Register(w.store, u) && w'.log == w.log + [Joined(u)]
  {
    acts' := ServeIsARun(acts, id, DoRegister(u), []);
    ServeRegister(Exec(acts).world, u, []);
  }

  lemma NothingRun()
    ensures NonOverlapping([]) && Idle(Exec([])) && Exec([]) == System(EMPTY, map[])
    ensures AcceptedFor([], "r") == PushedTo([], "r") == []
  {
  }

  lemma ThreeUsers() returns (acts: seq<Action>)
    ensures NonOverlapping(acts) && Idle(Exec(acts)) && Exec(acts).workers.Keys == {0, 1, 2}
    ensures var w := Exec(acts).world;
      && OfflineUser(w, "r") && OfflineUser(w, "a") && OfflineUser(w, "b") && w.store.boxes == map[]
      && AcceptedFor(w.log, "r") == PushedTo(w.log, "r") == []
  {
    NothingRun();
    hide Exec, NonOverlapping, AcceptedFor, PushedTo, DrainsClean;
    acts := RegisterNew([], 0, "r");
    LogAppend([], Joined("r"), "r");
    var log := Exec(acts).world.log;
    acts := RegisterNew(acts, 1, "a");
    LogAppend(log, Joined("a"), "r");
    log := Exec(acts).world.log;
    acts := RegisterNew(acts, 2, "b");
    LogAppend(log, Joined("b"), "r");
  }

  /** A send between two registered users, the receiver offline. */
  lemma SendStored(acts: seq<Action>, id: nat, s: string, to: string, text: string)
    returns (acts': seq<Action>, m: PendingMsg)
    requires NonOverlapping(acts) && Idle(Exec(acts)) && id !in Exec(acts).workers
    requires var w := Exec(acts).world; OfflineUser(w, s) && OfflineUser(w, to) && s != to
    ensures NonOverlapping(acts') && Idle(Exec(acts')) && Exec(acts').workers.Keys == Exec(acts).workers.Keys + {id}
    ensures m.id == 1 && m.sender == s
    ensures var w, w' := Exec(acts).world, Exec(acts').world;
      && w'.log == w.log + [Accepted(to, m)] && Box(w'.store, to) == Box(w.store, to) + [m]
      && (forall u :: !Online(w.store, u) ==> !Online(w'.store, u))
      && (forall u :: u != s && OfflineUser(w, u) ==> OfflineUser(w', u))
  {
    acts' := ServeIsARun(acts, id, DoSend(s, to, text, false, ""), []);
    ServeSend(Exec(acts).world, s, to, text, false, "", []);
    m := PendingMsg(s, 1, text, "");
  }

  /** Two users send their first message to an offline third; when it connects, the first push
      succeeds and the second fails. The delete by id took both: one message was delivered,
      none is pending, and two were accepted. */
  lemma SharedIdLosesAMessage() returns (acts: seq<Action>)
    ensures NonOverlapping(acts) && Idle(Exec(acts))
    ensures var w := Exec(acts).world;
      && |AcceptedFor(w.log, "r")| == 2 && |PushedTo(w.log, "r")| == 1 && Box(w.store, "r") == []
      && !DrainsClean(w.log, "r", 0)
  {
    acts := ThreeUsers();
    hide Exec, AcceptedFor, PushedTo, DrainsClean, Serve;
    var log := Exec(acts).world.log;
    var a, b: PendingMsg;
    acts, a := SendStored(acts, 3, "a", "r", "x");
    LogAppend(log, Accepted("r", a), "r");
    log := Exec(acts).world.log;
    acts, b := SendStored(acts, 4, "b", "r", "y");
    LogAppend(log, Accepted("r", b), "r");
    var w := Exec(acts).world;
    assert Box(w.store, "r") == [a, b] && !Online(w.store, "a");
    SecondPushFails(w, a, b);
    acts := ServeIsARun(acts, 5, DoConnect("r", "127.0.0.1", 4000), [true]);
  }

  lemma SecondPushFails(w: World, a: PendingMsg, b: PendingMsg)
    requires ConnectCode(w.store, "r") == 0 && Box(w.store, "r") == [a, b] && a.id == b.id
    requires a.sender != "r" && !Online(w.store, a.sender)
    ensures var w' := Serve(w, DoConnect("r", "127.0.0.1", 4000), [true]).world;
      && AcceptedFor(w'.log, "r") == AcceptedFor(w.log, "r")
      && PushedTo(w'.log, "r") == PushedTo(w.log, "r") + [a]
      && Box(w'.store, "r") == [] && !DrainsClean(w'.log, "r", 0)
  {
    var q := Box(w.store, "r");
    var route := Route("r", "127.0.0.1", 4000);
    var w1 := World(Connect(w.store, "r", "127.0.0.1", 4000), w.log + [Drained("r", q)]);
    ConnectDelivers(w, "r", "127.0.0.1", 4000, [true], "r");
    ConnectClean(w, "r", "127.0.0.1", 4000, [true], "r", 0);
    assert Parcels(q)[0].msg == a;
    var w2 := PushHead(w1, route, Parcels(q)[0]);
    assert !Online(w2.store, a.sender);
    assert Rest([true]) == [];
    assert Reached(w2, route, Parcels(q)[1..], []) == 0;
    assert Reached(w1, route, Parcels(q), [true]) == 1;
    assert q[..1] == [a] && [a][1..] == [];
    assert WithoutId([a, b], a.id) == [] by {
      assert [a, b][..1] == [a] && [a][..0] == [];
      assert WithoutId([], a.id) == [];
      assert WithoutId([a], a.id) == [];
    }
    assert WithoutAll([], []) == [];
    assert WithoutAll(q, [a]) == WithoutAll(WithoutId(q, a.id), [a][1..]);
    assert Occurs(q[..1], q[1].id) by { assert q[..1][0].id == q[1].id; }
  }

  // ------------------------------------------------ answers to DISCONNECT

  /** Offline users are stored at 0.0.0.0, port 0. */
  predicate OfflineAtZero(st: Store) {
    forall u :: u in st.users && !st.users[u].online ==> st.users[u].ip == NO_IP && st.users[u].port == 0
  }

  lemma {:induction false} AlwaysOfflineAtZero(acts: seq<Action>)
    ensures OfflineAtZero(Exec(acts).world.store)
  {
    if acts != [] {
      var s, a := Exec(acts[..|acts| - 1]), acts[|acts| - 1];
      AlwaysOfflineAtZero(acts[..|acts| - 1]);
      if a.Run? && a.id in s.workers {
        StepKeepsOfflineAtZero(s.world, s.workers[a.id], a.ok);
      }
    }
  }

  lemma StepKeepsOfflineAtZero(w: World, p: Worker, ok: bool)
    requires OfflineAtZero(w.store)
    ensures OfflineAtZero(Step(w, p, ok).0.store)
  {
  }

  /** In every reachable state DISCONNECT for a registered user that is already offline answers 3
      at the first step of its worker, unless the request comes from 0.0.0.0; served without
      interference it answers the documented 2 if and only if it does. */
  lemma {:induction false} DisconnectWhenOffline(acts: seq<Action>, u: string, ip: string)
    requires var st := Exec(acts).world.store; u in st.users && !st.users[u].online
    ensures var w := Exec(acts).world;
      && (forall ok :: Step(w, Start(DoDisconnect(u, ip)), ok) == (w, if ip == NO_IP then Leaving(u) else Done(3)))
      && (forall net: Net :: Serve(w, DoDisconnect(u, ip), net) == Result(w, if ip == NO_IP then 2 else 3, net))
  {
    AlwaysOfflineAtZero(acts);
    var w := Exec(acts).world;
    forall net: Net ensures Serve(w, DoDisconnect(u, ip), net) == Result(w, if ip == NO_IP then 2 else 3, net) {
      ServeDisconnect(w, u, ip, net);
    }
  }
}
