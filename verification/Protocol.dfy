/** The request handlers of funciones.c as workers that interleave. A db_* call is one atomic
    step under the database mutex; a connection attempt to a listener is a step whose outcome
    is arbitrary. The log records what happened, in order. */
module Protocol {
  import opened Mail
  import opened MessageStore

  datatype Task =
    | DoRegister(user: string)
    | DoUnregister(user: string)
    | DoConnect(user: string, ip: string, port: int)
    | DoDisconnect(user: string, ip: string)
    | DoSend(sender: string, to: string, text: string, attach: bool, fileName: string)

  datatype Event =
    | Joined(user: string)
    | Left(user: string)
    | Accepted(to: string, msg: PendingMsg)
    | Drained(to: string, msgs: seq<PendingMsg>)
    | Pushed(to: string, ip: string, port: int, msg: PendingMsg, attach: bool)
    | Deleted(to: string, id: nat, push: nat)
    | Acked(sender: string, ip: string, port: int, id: nat, attach: bool, fileName: string, push: nat)

  datatype World = World(store: Store, log: seq<Event>)

  /** A message on its way, and whether it is sent as an attachment. */
  datatype Parcel = Parcel(msg: PendingMsg, attach: bool)

  /** The receiver and the address this worker uses for it. */
  datatype Route = Route(to: string, ip: string, port: int)

  /** Where a worker stands. accepted and push are the log positions of its last acceptance
      and push. */
  datatype Worker =
    | Start(task: Task)
    | Prepared(route: Route, parcel: Parcel, online: bool, accepted: nat)
    | Joining(route: Route)
    | Delivering(route: Route, queue: seq<Parcel>)
    | HeadPushed(route: Route, head: Parcel, rest: seq<Parcel>, push: nat)
    | HeadDeleted(route: Route, head: Parcel, rest: seq<Parcel>, push: nat)
    | Acking(route: Route, head: Parcel, rest: seq<Parcel>, push: nat, ip: string, port: int)
    | AckFailed(route: Route, head: Parcel, rest: seq<Parcel>)
    | PushFailed(route: Route)
    | Leaving(user: string)
    | Done(code: int)

  function Log(w: World, e: Event): World {
    w.(log := w.log + [e])
  }

  /** The drain takes every pending message as a parcel. */
  function Parcels(msgs: seq<PendingMsg>): (ps: seq<Parcel>)
    ensures |ps| == |msgs|
  {
    seq(|msgs|, i requires 0 <= i < |msgs| => Parcel(msgs[i], msgs[i].fileName != ""))
  }

  function Begin(w: World, task: Task): (World, Worker) {
    match task
    case DoRegister(u) =>
      var code := RegisterCode(w.store, u);
      var w' := w.(store := Register(w.store, u));
      (if code == 0 then Log(w', Joined(u)) else w', Done(code))
    case DoUnregister(u) =>
      var code := UnregisterCode(w.store, u);
      var w' := w.(store := Unregister(w.store, u));
      (if code == 0 then Log(w', Left(u)) else w', Done(code))
    case DoConnect(u, ip, port) =>
      var code := ConnectCode(w.store, u);
      (w.(store := Connect(w.store, u, ip, port)), if code == 0 then Joining(Route(u, ip, port)) else Done(code))
    case DoDisconnect(u, ip) =>
      (w, if u !in w.store.users then Done(1)
          else if w.store.users[u].ip != ip then Done(3)
          else Leaving(u))
    case DoSend(s, to, text, attach, fileName) =>
      if PrepareCode(w.store, s, to) != 0 then (w, Done(PrepareCode(w.store, s, to)))
      else
        var st := Prepare(w.store, s);
        var m := PendingMsg(s, st.users[s].lastId, text, if attach then fileName else "");
        var r := st.users[to];
        (World(st, w.log + [Accepted(to, m)]),
         Prepared(Route(to, r.ip, r.port), Parcel(m, attach), r.online, |w.log|))
  }

  /** One step of a worker; ok is the outcome if the step is a connection attempt. */
  function Step(w: World, p: Worker, ok: bool): (World, Worker) {
    match p
    case Start(task) => Begin(w, task)
    case Prepared(route, parcel, online, _) =>
      (w.(store := Deposit(w.store, route.to, parcel.msg)), if online then Delivering(route, [parcel]) else Done(0))
    case Joining(route) =>
      var msgs := Box(w.store, route.to);
      (Log(w, Drained(route.to, msgs)), Delivering(route, Parcels(msgs)))
    case Delivering(route, queue) =>
      if queue == [] then (w, Done(0))
      else if !ok then (w, PushFailed(route))
      else
        var head := queue[0];
        (Log(w, Pushed(route.to, route.ip, route.port, head.msg, head.attach)),
         HeadPushed(route, head, queue[1..], |w.log|))
    case HeadPushed(route, head, rest, push) =>
      (World(Remove(w.store, route.to, head.msg.id), w.log + [Deleted(route.to, head.msg.id, push)]),
       HeadDeleted(route, head, rest, push))
    case HeadDeleted(route, head, rest, push) =>
      var s := head.msg.sender;
      (w, if Online(w.store, s) then Acking(route, head, rest, push, w.store.users[s].ip, w.store.users[s].port)
          else Delivering(route, rest))
    case Acking(route, head, rest, push, ip, port) =>
      if ok then
        (Log(w, Acked(head.msg.sender, ip, port, head.msg.id, head.attach, head.msg.fileName, push)),
         Delivering(route, rest))
      else (w, AckFailed(route, head, rest))
    case AckFailed(route, head, rest) =>
      (w.(store := Disconnect(w.store, head.msg.sender)), Delivering(route, rest))
    case PushFailed(route) => (w.(store := Disconnect(w.store, route.to)), Done(0))
    case Leaving(u) => (w.(store := Disconnect(w.store, u)), Done(DisconnectCode(w.store, u)))
    case Done(_) => (w, p)
  }

  // ------------------------------------------------------- interleavings

  datatype System = System(world: World, workers: map<nat, Worker>)

  /** A request arrives and gets a worker, or a worker takes its next step. */
  datatype Action = Arrive(id: nat, task: Task) | Run(id: nat, ok: bool)

  function Act(s: System, a: Action): System {
    match a
    case Arrive(id, task) => if id in s.workers then s else s.(workers := s.workers[id := Start(task)])
    case Run(id, ok) =>
      if id !in s.workers then s
      else
        var (w, p) := Step(s.world, s.workers[id], ok);
        System(w, s.workers[id := p])
  }

  const EMPTY := World(Store(map[], map[]), [])

  /** The state after any sequence of actions: every interleaving of any number of workers. */
  function Exec(acts: seq<Action>): System {
    if acts == [] then System(EMPTY, map[])
    else Act(Exec(acts[..|acts| - 1]), acts[|acts| - 1])
  }
}
