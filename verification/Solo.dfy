/** A worker that runs without interference, in closed form, and what follows for runs whose
    handlers do not overlap. */
module Solo {
  import opened Mail
  import opened MessageStore
  import opened Protocol

  // ------------------------------------------------ running to completion

  /** Outcomes of the connection attempts to come; once they run out, attempts fail. */
  type Net = seq<bool>

  function Up(net: Net): bool {
    net != [] && net[0]
  }

  function Rest(net: Net): Net {
    if net == [] then [] else net[1..]
  }

  predicate Dials(p: Worker) {
    (p.Delivering? && p.queue != []) || p.Acking?
  }

  function Stage(p: Worker): nat {
    match p
    case Start(_) => 4
    case Prepared(_, _, _, _) => 3
    case Joining(_) => 3
    case PushFailed(_) => 1
    case Leaving(_) => 1
    case Done(_) => 0
    case _ => 2
  }

  function ToDo(p: Worker): nat {
    match p
    case Delivering(_, queue) => |queue|
    case HeadPushed(_, _, rest, _) => |rest| + 1
    case HeadDeleted(_, _, rest, _) => |rest| + 1
    case Acking(_, _, rest, _, _, _) => |rest| + 1
    case AckFailed(_, _, rest) => |rest| + 1
    case _ => 0
  }

  function Phase(p: Worker): nat {
    match p
    case Delivering(_, _) => 5
    case HeadPushed(_, _, _, _) => 4
    case HeadDeleted(_, _, _, _) => 3
    case Acking(_, _, _, _, _, _) => 2
    case AckFailed(_, _, _) => 1
    case _ => 0
  }

  datatype Result = Result(world: World, code: int, net: Net)

  /** The worker's steps one after the other until it is done. */
  function RunAlone(w: World, p: Worker, net: Net): Result
    decreases Stage(p), ToDo(p), Phase(p)
  {
    if p.Done? then Result(w, p.code, net)
    else
      var (w', p') := Step(w, p, Up(net));
      RunAlone(w', p', if Dials(p) then Rest(net) else net)
  }

  /** A request served from start to end. */
  function Serve(w: World, task: Task, net: Net): Result {
    RunAlone(w, Start(task), net)
  }

  // --------------------------------------------------- delivery in closed form

  /** The head of the queue pushed and its id deleted from the receiver's file. */
  function PushHead(w: World, route: Route, head: Parcel): World {
    World(Remove(w.store, route.to, head.msg.id),
          w.log + [Pushed(route.to, route.ip, route.port, head.msg, head.attach)]
                + [Deleted(route.to, head.msg.id, |w.log|)])
  }

  /** The acknowledgement of the message pushed at position push, if its sender is online. */
  function Acknowledge(w: World, head: Parcel, push: nat, net: Net): (World, Net) {
    var s := head.msg.sender;
    if !Online(w.store, s) then (w, net)
    else if Up(net) then
      var u := w.store.users[s];
      (Log(w, Acked(s, u.ip, u.port, head.msg.id, head.attach, head.msg.fileName, push)), Rest(net))
    else (w.(store := Disconnect(w.store, s)), Rest(net))
  }

  /** The delivery loop of f_connect, which f_send and f_sendattach run on one message. */
  function DeliverAll(w: World, route: Route, queue: seq<Parcel>, net: Net): (World, Net)
    decreases |queue|
  {
    if queue == [] then (w, net)
    else if !Up(net) then (w.(store := Disconnect(w.store, route.to)), Rest(net))
    else
      var (w', net') := Acknowledge(PushHead(w, route, queue[0]), queue[0], |w.log|, Rest(net));
      DeliverAll(w', route, queue[1..], net')
  }

  /** The steps of a worker from pushing a message to its acknowledgement. */
  lemma RunHead(w: World, route: Route, head: Parcel, rest: seq<Parcel>, push: nat, net: Net)
    ensures var w1 := World(Remove(w.store, route.to, head.msg.id), w.log + [Deleted(route.to, head.msg.id, push)]);
      var (w2, net2) := Acknowledge(w1, head, push, net);
      RunAlone(w, HeadPushed(route, head, rest, push), net) == RunAlone(w2, Delivering(route, rest), net2)
  {
    var w1 := World(Remove(w.store, route.to, head.msg.id), w.log + [Deleted(route.to, head.msg.id, push)]);
    var p1 := HeadDeleted(route, head, rest, push);
    assert RunAlone(w, HeadPushed(route, head, rest, push), net) == RunAlone(w1, p1, net);
    RunAck(w1, route, head, rest, push, net);
  }

  lemma RunAck(w: World, route: Route, head: Parcel, rest: seq<Parcel>, push: nat, net: Net)
    ensures var (w2, net2) := Acknowledge(w, head, push, net);
      RunAlone(w, HeadDeleted(route, head, rest, push), net) == RunAlone(w2, Delivering(route, rest), net2)
  {
    var s := head.msg.sender;
    var (_, p1) := Step(w, HeadDeleted(route, head, rest, push), Up(net));
    assert RunAlone(w, HeadDeleted(route, head, rest, push), net) == RunAlone(w, p1, net);
    if Online(w.store, s) && !Up(net) {
      var p2 := AckFailed(route, head, rest);
      assert RunAlone(w, p1, net) == RunAlone(w, p2, Rest(net));
      assert RunAlone(w, p2, Rest(net)) ==
        RunAlone(w.(store := Disconnect(w.store, s)), Delivering(route, rest), Rest(net));
    }
  }

  lemma {:induction false} RunDelivery(w: World, route: Route, queue: seq<Parcel>, net: Net)
    ensures var (w', net') := DeliverAll(w, route, queue, net);
      RunAlone(w, Delivering(route, queue), net) == Result(w', 0, net')
    decreases |queue|
  {
    if queue == [] {
      assert RunAlone(w, Done(0), net) == Result(w, 0, net);
    } else if !Up(net) {
      var p := PushFailed(route);
      assert RunAlone(w, Delivering(route, queue), net) == RunAlone(w, p, Rest(net));
      var w' := w.(store := Disconnect(w.store, route.to));
      assert RunAlone(w, p, Rest(net)) == RunAlone(w', Done(0), Rest(net)) == Result(w', 0, Rest(net));
    } else {
      var head, rest := queue[0], queue[1..];
      var w1 := Log(w, Pushed(route.to, route.ip, route.port, head.msg, head.attach));
      var p1 := HeadPushed(route, head, rest, |w.log|);
      assert RunAlone(w, Delivering(route, queue), net) == RunAlone(w1, p1, Rest(net));
      RunHead(w1, route, head, rest, |w.log|, Rest(net));
      var (w2, net2) := Acknowledge(PushHead(w, route, head), head, |w.log|, Rest(net));
      RunDelivery(w2, route, rest, net2);
    }
  }

  lemma OneDelivery(w: World, route: Route, head: Parcel, net: Net)
    ensures DeliverAll(w, route, [head], net) ==
      if Up(net) then Acknowledge(PushHead(w, route, head), head, |w.log|, Rest(net))
      else (w.(store := Disconnect(w.store, route.to)), Rest(net))
  {
    var (w', net') := Acknowledge(PushHead(w, route, head), head, |w.log|, Rest(net));
    assert [head][1..] == [];
    assert DeliverAll(w', route, [], net') == (w', net');
  }

  // ------------------------------------------------- requests in closed form

  /** After db_prepare_message has accepted a send. */
  function AcceptedSend(w: World, s: string, to: string, text: string, attach: bool, fileName: string): (World, PendingMsg)
    requires s in w.store.users
  {
    var st := Prepare(w.store, s);
    var m := PendingMsg(s, st.users[s].lastId, text, if attach then fileName else "");
    (World(st, w.log + [Accepted(to, m)]), m)
  }

  lemma ServeSend(w: World, s: string, to: string, text: string, attach: bool, fileName: string, net: Net)
    ensures var r := Serve(w, DoSend(s, to, text, attach, fileName), net);
      if PrepareCode(w.store, s, to) != 0 then r == Result(w, PrepareCode(w.store, s, to), net)
      else
        var (w1, m) := AcceptedSend(w, s, to, text, attach, fileName);
        var u := w1.store.users[to];
        var w2 := w1.(store := Deposit(w1.store, to, m));
        var (w3, net') := if u.online then DeliverAll(w2, Route(to, u.ip, u.port), [Parcel(m, attach)], net) else (w2, net);
        r == Result(w3, 0, net')
  {
    var task := DoSend(s, to, text, attach, fileName);
    var (w1, p1) := Begin(w, task);
    assert Serve(w, task, net) == RunAlone(w1, p1, net);
    if PrepareCode(w.store, s, to) == 0 {
      var (w2, p2) := Step(w1, p1, Up(net));
      assert RunAlone(w1, p1, net) == RunAlone(w2, p2, net);
      if p1.online {
        RunDelivery(w2, p1.route, [p1.parcel], net);
      }
    }
  }

  lemma ServeConnect(w: World, u: string, ip: string, port: int, net: Net)
    ensures var r := Serve(w, DoConnect(u, ip, port), net);
      if ConnectCode(w.store, u) != 0 then r == Result(w, ConnectCode(w.store, u), net)
      else
        var msgs := Box(w.store, u);
        var w1 := World(Connect(w.store, u, ip, port), w.log + [Drained(u, msgs)]);
        var (w2, net') := DeliverAll(w1, Route(u, ip, port), Parcels(msgs), net);
        r == Result(w2, 0, net')
  {
    var task := DoConnect(u, ip, port);
    var (w1, p1) := Begin(w, task);
    assert Serve(w, task, net) == RunAlone(w1, p1, net);
    if ConnectCode(w.store, u) == 0 {
      var (w2, p2) := Step(w1, p1, Up(net));
      assert RunAlone(w1, p1, net) == RunAlone(w2, p2, net);
      RunDelivery(w2, p2.route, p2.queue, net);
    }
  }

  lemma ServeRegister(w: World, u: string, net: Net)
    ensures Serve(w, DoRegister(u), net) ==
      Result(if u in w.store.users then w else World(Register(w.store, u), w.log + [Joined(u)]),
             RegisterCode(w.store, u), net)
  {
    var (w1, p1) := Begin(w, DoRegister(u));
    assert Serve(w, DoRegister(u), net) == RunAlone(w1, p1, net);
  }

  lemma ServeUnregister(w: World, u: string, net: Net)
    ensures Serve(w, DoUnregister(u), net) ==
      Result(if u in w.store.users then World(Unregister(w.store, u), w.log + [Left(u)]) else w,
             UnregisterCode(w.store, u), net)
  {
    var (w1, p1) := Begin(w, DoUnregister(u));
    assert Serve(w, DoUnregister(u), net) == RunAlone(w1, p1, net);
  }

  /** The code f_disconnect answers. */
  function DisconnectReply(st: Store, u: string, ip: string): int {
    if u !in st.users then 1
    else if st.users[u].ip != ip then 3
    else if !st.users[u].online then 2
    else 0
  }

  lemma ServeDisconnect(w: World, u: string, ip: string, net: Net)
    ensures Serve(w, DoDisconnect(u, ip), net) ==
      Result(if DisconnectReply(w.store, u, ip) == 0 then w.(store := Disconnect(w.store, u)) else w,
             DisconnectReply(w.store, u, ip), net)
  {
    var task := DoDisconnect(u, ip);
    var (w1, p1) := Begin(w, task);
    assert Serve(w, task, net) == RunAlone(w1, p1, net);
    if p1.Leaving? {
      var (w2, p2) := Step(w1, p1, Up(net));
      assert RunAlone(w1, p1, net) == RunAlone(w2, p2, net);
    }
  }

  // ---------------------------------------------- runs without overlap

  predicate Idle(s: System) {
    forall id :: id in s.workers ==> s.workers[id].Done?
  }

  /** A request is only taken up when every earlier one has been served. */
  predicate NonOverlapping(acts: seq<Action>) {
    acts == [] ||
    (NonOverlapping(acts[..|acts| - 1]) &&
     (acts[|acts| - 1].Arrive? ==> Idle(Exec(acts[..|acts| - 1]))))
  }

  /** Only this worker is still running, and however it finishes, P will hold. */
  ghost predicate Ending(s: System, id: nat, P: World -> bool) {
    && id in s.workers
    && (forall k :: k in s.workers && k != id ==> s.workers[k].Done?)
    && forall net: Net :: P(RunAlone(s.world, s.workers[id], net).world)
  }

  lemma EndingStep(s: System, id: nat, ok: bool, P: World -> bool)
    requires Ending(s, id, P)
    ensures Ending(Act(s, Run(id, ok)), id, P)
  {
    var s', p := Act(s, Run(id, ok)), s.workers[id];
    forall net: Net ensures P(RunAlone(s'.world, s'.workers[id], net).world) {
      if p.Done? {
        assert P(RunAlone(s.world, p, net).world);
      } else {
        var net0: Net := [ok] + net;
        assert Rest(net0) == net;
        if Dials(p) {
          assert P(RunAlone(s.world, p, net0).world);
        } else {
          StepIgnoresOutcome(s.world, p, ok, Up(net));
          assert P(RunAlone(s.world, p, net).world);
        }
      }
    }
  }

  lemma StepIgnoresOutcome(w: World, p: Worker, a: bool, b: bool)
    requires !Dials(p)
    ensures Step(w, p, a) == Step(w, p, b)
  {
  }

  lemma EndingIdle(s: System, id: nat, P: World -> bool)
    requires Idle(s) && Ending(s, id, P)
    ensures P(s.world)
  {
    assert P(RunAlone(s.world, s.workers[id], []).world);
  }

  /** What every served request keeps holds whenever the server is idle in a run without
      overlapping handlers. */
  lemma {:induction false} SequentialInvariant(P: World -> bool, acts: seq<Action>)
    requires P(EMPTY)
    requires forall w, task, net: Net :: P(w) ==> P(Serve(w, task, net).world)
    requires NonOverlapping(acts)
    ensures var s := Exec(acts);
      (Idle(s) && P(s.world)) || exists id :: Ending(s, id, P)
  {
    if acts != [] {
      var before, a := acts[..|acts| - 1], acts[|acts| - 1];
      SequentialInvariant(P, before);
      var s, s' := Exec(before), Exec(acts);
      if a.Arrive? {
        if exists id :: Ending(s, id, P) {
          var id :| Ending(s, id, P);
          EndingIdle(s, id, P);
        }
        if a.id !in s.workers {
          forall net: Net ensures P(RunAlone(s'.world, s'.workers[a.id], net).world) {
            assert P(Serve(s.world, a.task, net).world);
          }
          assert Ending(s', a.id, P);
        }
      } else if a.id in s.workers {
        if Idle(s) && P(s.world) {
          assert s'.workers == s.workers;
        } else {
          var id :| Ending(s, id, P);
          if id == a.id {
            EndingStep(s, id, a.ok, P);
          } else {
            assert s' == s;
          }
        }
      }
    }
  }

  lemma IdleInvariant(P: World -> bool, acts: seq<Action>)
    requires P(EMPTY)
    requires forall w, task, net: Net :: P(w) ==> P(Serve(w, task, net).world)
    requires NonOverlapping(acts) && Idle(Exec(acts))
    ensures P(Exec(acts).world)
  {
    SequentialInvariant(P, acts);
    var s := Exec(acts);
    if exists id :: Ending(s, id, P) {
      var id :| Ending(s, id, P);
      EndingIdle(s, id, P);
    }
  }
}
