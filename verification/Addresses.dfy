/** Where pushes and acknowledgements go, in every interleaving, and what an acknowledgement is. */
module Addresses {
  import opened Mail
  import opened MessageStore
  import opened Protocol
  import opened Safety
  import B = Boundaries

  predicate HasRoute(p: Worker) {
    !p.Start? && !p.Leaving? && !p.Done?
  }

  /** This action is the first step of worker id, and it settles its route: the address a CONNECT
      brings, or the address stored for the receiver of a send at that moment. */
  predicate Settles(s: System, a: Action, id: nat, route: Route) {
    && a.Run? && a.id == id && id in s.workers && s.workers[id].Start?
    && match s.workers[id].task
       case DoConnect(u, ip, port) => route == Route(u, ip, port)
       case DoSend(_, to, _, _, _) =>
         to in s.world.store.users && route == Route(to, s.world.store.users[to].ip, s.world.store.users[to].port)
       case _ => false
  }

  predicate RouteSettled(acts: seq<Action>, id: nat, route: Route) {
    exists k :: 0 <= k < |acts| && Settles(Exec(acts[..k]), acts[k], id, route)
  }

  /** At some point of the run this user was online at this address. */
  predicate WasOnlineAt(acts: seq<Action>, user: string, ip: string, port: int) {
    exists k :: 0 <= k <= |acts| && OnlineAt(Exec(acts[..k]).world.store, user, ip, port)
  }

  predicate OnlineAt(st: Store, user: string, ip: string, port: int) {
    user in st.users && st.users[user].online && st.users[user].ip == ip && st.users[user].port == port
  }

  lemma RouteStays(acts: seq<Action>, a: Action, id: nat, route: Route)
    ensures RouteSettled(acts, id, route) ==> RouteSettled(acts + [a], id, route)
    ensures Settles(Exec(acts), a, id, route) ==> RouteSettled(acts + [a], id, route)
  {
    hide Settles;
    if RouteSettled(acts, id, route) {
      var k :| 0 <= k < |acts| && Settles(Exec(acts[..k]), acts[k], id, route);
      assert (acts + [a])[..k] == acts[..k] && (acts + [a])[k] == acts[k];
    }
    if Settles(Exec(acts), a, id, route) {
      assert (acts + [a])[..|acts|] == acts && (acts + [a])[|acts|] == a;
    }
  }

  lemma OnlineStays(acts: seq<Action>, a: Action, user: string, ip: string, port: int)
    ensures WasOnlineAt(acts, user, ip, port) ==> WasOnlineAt(acts + [a], user, ip, port)
    ensures OnlineAt(Exec(acts).world.store, user, ip, port) ==> WasOnlineAt(acts + [a], user, ip, port)
  {
    hide OnlineAt;
    if WasOnlineAt(acts, user, ip, port) {
      var k :| 0 <= k <= |acts| && OnlineAt(Exec(acts[..k]).world.store, user, ip, port);
      assert (acts + [a])[..k] == acts[..k];
    }
    if OnlineAt(Exec(acts).world.store, user, ip, port) {
      assert (acts + [a])[..|acts|] == acts;
    }
  }

  /** A step settles the route at the start, keeps it afterwards, and looks an acknowledgement's
      address up before it is used. */
  lemma StepRoute(s: System, id: nat, ok: bool)
    requires id in s.workers
    ensures var p, p' := s.workers[id], Step(s.world, s.workers[id], ok).1;
      && (HasRoute(p') ==> Settles(s, Run(id, ok), id, p'.route) || (HasRoute(p) && p'.route == p.route))
      && (p'.Acking? ==> OnlineAt(s.world.store, p'.head.msg.sender, p'.ip, p'.port))
  {
  }

  /** A step logs a push only to the worker's route, and an acknowledgement only to the address
      looked up. */
  lemma StepAddress(w: World, p: Worker, ok: bool)
    ensures var log' := Step(w, p, ok).0.log;
      && w.log <= log' && |log'| <= |w.log| + 1
      && (|log'| > |w.log| && log'[|w.log|].Pushed? ==>
            var e := log'[|w.log|]; HasRoute(p) && Route(e.to, e.ip, e.port) == p.route)
      && (|log'| > |w.log| && log'[|w.log|].Acked? ==>
            var e := log'[|w.log|]; p.Acking? && e.sender == p.head.msg.sender && e.ip == p.ip && e.port == p.port)
  {
  }

  predicate WorkerAddressed(acts: seq<Action>, id: nat)
    requires id in Exec(acts).workers
  {
    var p := Exec(acts).workers[id];
    && (HasRoute(p) ==> RouteSettled(acts, id, p.route))
    && (p.Acking? ==> WasOnlineAt(acts, p.head.msg.sender, p.ip, p.port))
  }

  ghost predicate EntryAddressed(acts: seq<Action>, e: Event) {
    && (e.Pushed? ==> exists id :: RouteSettled(acts, id, Route(e.to, e.ip, e.port)))
    && (e.Acked? ==> WasOnlineAt(acts, e.sender, e.ip, e.port))
  }

  ghost predicate Addressed(acts: seq<Action>) {
    && (forall id :: id in Exec(acts).workers ==> WorkerAddressed(acts, id))
    && (forall j :: 0 <= j < |Exec(acts).world.log| ==> EntryAddressed(acts, Exec(acts).world.log[j]))
  }

  lemma EntryStays(acts: seq<Action>, a: Action, e: Event)
    requires EntryAddressed(acts, e)
    ensures EntryAddressed(acts + [a], e)
  {
    hide RouteSettled, WasOnlineAt;
    if e.Pushed? {
      var id :| RouteSettled(acts, id, Route(e.to, e.ip, e.port));
      RouteStays(acts, a, id, Route(e.to, e.ip, e.port));
    } else if e.Acked? {
      OnlineStays(acts, a, e.sender, e.ip, e.port);
    }
  }

  lemma NewEntry(acts: seq<Action>, a: Action)
    requires Addressed(acts) && a.Run? && a.id in Exec(acts).workers
    ensures var log, log' := Exec(acts).world.log, Act(Exec(acts), a).world.log;
      log <= log' && forall j :: |log| <= j < |log'| ==> EntryAddressed(acts + [a], log'[j])
  {
    hide RouteSettled, WasOnlineAt, Exec;
    var s := Exec(acts);
    var p := s.workers[a.id];
    StepAddress(s.world, p, a.ok);
    assert WorkerAddressed(acts, a.id);
    if HasRoute(p) { RouteStays(acts, a, a.id, p.route); }
    if p.Acking? { OnlineStays(acts, a, p.head.msg.sender, p.ip, p.port); }
  }

  lemma WorkerStays(acts: seq<Action>, a: Action, id: nat)
    requires Addressed(acts) && Exec(acts + [a]) == Act(Exec(acts), a) && id in Exec(acts + [a]).workers
    ensures WorkerAddressed(acts + [a], id)
  {
    hide RouteSettled, WasOnlineAt, Exec, Step, Settles, OnlineAt;
    var s := Exec(acts);
    var p' := Exec(acts + [a]).workers[id];
    if id in s.workers {
      assert WorkerAddressed(acts, id);
      if a.Run? && a.id == id { StepRoute(s, id, a.ok); }
    }
    if HasRoute(p') { RouteStays(acts, a, id, p'.route); }
    if p'.Acking? { OnlineStays(acts, a, p'.head.msg.sender, p'.ip, p'.port); }
  }

  lemma ActAddressed(acts: seq<Action>, a: Action)
    requires Addressed(acts)
    ensures Addressed(acts + [a])
  {
    assert (acts + [a])[..|acts|] == acts;
    B.LastAct(acts + [a]);
    hide EntryAddressed, WorkerAddressed, Exec, Step;
    var log, log' := Exec(acts).world.log, Exec(acts + [a]).world.log;
    if a.Run? && a.id in Exec(acts).workers { NewEntry(acts, a); }
    forall id | id in Exec(acts + [a]).workers ensures WorkerAddressed(acts + [a], id) {
      WorkerStays(acts, a, id);
    }
    forall j | 0 <= j < |log'| ensures EntryAddressed(acts + [a], log'[j]) {
      if j < |log| { EntryStays(acts, a, log[j]); }
    }
  }

  lemma {:induction false} AlwaysAddressed(acts: seq<Action>)
    ensures Addressed(acts)
  {
    if acts != [] {
      hide Addressed;
      AlwaysAddressed(acts[..|acts| - 1]);
      ActAddressed(acts[..|acts| - 1], acts[|acts| - 1]);
      assert acts[..|acts| - 1] + [acts[|acts| - 1]] == acts;
    } else {
      assert Exec(acts) == System(EMPTY, map[]);
    }
  }

  /** In every interleaving each push goes to the receiver and address that some worker settled at
      its first step: those of its CONNECT, or those stored for the receiver of its send. */
  lemma {:induction false} PushesGoToTheRoute(acts: seq<Action>, j: nat)
    requires j < |Exec(acts).world.log| && Exec(acts).world.log[j].Pushed?
    ensures var e := Exec(acts).world.log[j];
      exists id, k :: 0 <= k < |acts| && Settles(Exec(acts[..k]), acts[k], id, Route(e.to, e.ip, e.port))
  {
    AlwaysAddressed(acts);
    hide Exec, Settles;
    var e := Exec(acts).world.log[j];
    assert EntryAddressed(acts, e);
    var id :| RouteSettled(acts, id, Route(e.to, e.ip, e.port));
    var k :| 0 <= k < |acts| && Settles(Exec(acts[..k]), acts[k], id, Route(e.to, e.ip, e.port));
  }

  /** In every interleaving each acknowledgement goes to an address at which its addressee was
      online at some point of the run. */
  lemma {:induction false} AcksGoToTheSender(acts: seq<Action>, j: nat)
    requires j < |Exec(acts).world.log| && Exec(acts).world.log[j].Acked?
    ensures var e := Exec(acts).world.log[j];
      exists k :: 0 <= k <= |acts| && OnlineAt(Exec(acts[..k]).world.store, e.sender, e.ip, e.port)
  {
    AlwaysAddressed(acts);
    hide Exec, OnlineAt;
    assert EntryAddressed(acts, Exec(acts).world.log[j]);
  }

  // ------------------------------------------------- the steps one by one

  /** Pushing: the head of the queue goes to the route's address as it is; if the listener does not
      answer, the receiver is offline after the next step. */
  lemma PushSteps(w: World, route: Route, queue: seq<Parcel>)
    requires queue != []
    ensures Step(w, Delivering(route, queue), true) ==
      (World(w.store, w.log + [Pushed(route.to, route.ip, route.port, queue[0].msg, queue[0].attach)]),
       HeadPushed(route, queue[0], queue[1..], |w.log|))
    ensures Step(w, Delivering(route, queue), false) == (w, PushFailed(route))
    ensures forall ok :: var (w', p') := Step(w, PushFailed(route), ok);
      && p' == Done(0) && w'.log == w.log && w'.store.boxes == w.store.boxes
      && w'.store.users ==
           if route.to in w.store.users && w.store.users[route.to].online
           then w.store.users[route.to := User(false, "0.0.0.0", 0, w.store.users[route.to].lastId)]
           else w.store.users
  {
  }

  /** Acknowledging: the sender is looked up after the delete; if it is online the acknowledgement
      goes to the address found then, with the id, the kind and the file name of the message; if
      its listener does not answer, an online sender is offline after the next step. */
  lemma AckSteps(w: World, route: Route, head: Parcel, rest: seq<Parcel>, push: nat, ip: string, port: int)
    ensures var s := head.msg.sender;
      forall ok :: Step(w, HeadDeleted(route, head, rest, push), ok) ==
        (w, if s in w.store.users && w.store.users[s].online
            then Acking(route, head, rest, push, w.store.users[s].ip, w.store.users[s].port)
            else Delivering(route, rest))
    ensures Step(w, Acking(route, head, rest, push, ip, port), true) ==
      (World(w.store, w.log + [Acked(head.msg.sender, ip, port, head.msg.id, head.attach, head.msg.fileName, push)]),
       Delivering(route, rest))
    ensures Step(w, Acking(route, head, rest, push, ip, port), false) == (w, AckFailed(route, head, rest))
    ensures forall ok :: var (w', p') := Step(w, AckFailed(route, head, rest), ok);
      && p' == Delivering(route, rest) && w'.log == w.log && w'.store.boxes == w.store.boxes
      && (head.msg.sender in w.store.users && w.store.users[head.msg.sender].online ==>
            w'.store.users == w.store.users[head.msg.sender := User(false, "0.0.0.0", 0, w.store.users[head.msg.sender].lastId)])
  {
  }

  /** Storing appends the message to the receiver's queue, whoever is registered by then. The
      worker goes on to push only if the receiver was online when the message was accepted. */
  lemma StoreStep(w: World, route: Route, parcel: Parcel, online: bool, accepted: nat, ok: bool)
    ensures Step(w, Prepared(route, parcel, online, accepted), ok) ==
      (World(Store(w.store.users,
                   w.store.boxes[route.to :=
                     (if route.to in w.store.boxes then w.store.boxes[route.to] else []) + [parcel.msg]]),
             w.log),
       if online then Delivering(route, [parcel]) else Done(0))
  {
  }

  /** Draining takes the whole queue as it is, in order, and leaves the file alone; a message is an
      attachment exactly if it has a file name. */
  lemma DrainStep(w: World, route: Route, ok: bool)
    ensures var (w', p') := Step(w, Joining(route), ok);
      var q := if route.to in w.store.boxes then w.store.boxes[route.to] else [];
      && w' == World(w.store, w.log + [Drained(route.to, q)])
      && p'.Delivering? && p'.route == route && |p'.queue| == |q|
      && forall i :: 0 <= i < |q| ==> p'.queue[i] == Parcel(q[i], q[i].fileName != "")
  {
  }

  /** Deleting takes out every message with the id, and no other, from the receiver's queue. */
  lemma DeleteStep(w: World, route: Route, head: Parcel, rest: seq<Parcel>, push: nat, ok: bool, m: PendingMsg)
    requires route.to in w.store.boxes
    ensures var (w', p') := Step(w, HeadPushed(route, head, rest, push), ok);
      && w'.store.users == w.store.users && w'.store.boxes.Keys == w.store.boxes.Keys
      && (forall r :: r in w.store.boxes && r != route.to ==> w'.store.boxes[r] == w.store.boxes[r])
      && (m in w'.store.boxes[route.to] <==> m in w.store.boxes[route.to] && m.id != head.msg.id)
      && w'.log == w.log + [Deleted(route.to, head.msg.id, push)]
      && p' == HeadDeleted(route, head, rest, push)
  {
    WithoutIdMembers(w.store.boxes[route.to], head.msg.id, m);
  }

  /** Leaving: 0 and offline, 2 if the user went offline since it was looked up, 1 if it went. */
  lemma LeaveStep(w: World, u: string, ok: bool)
    ensures Step(w, Leaving(u), ok) ==
      if u !in w.store.users then (w, Done(1))
      else if !w.store.users[u].online then (w, Done(2))
      else (World(Store(w.store.users[u := User(false, "0.0.0.0", 0, w.store.users[u].lastId)], w.store.boxes), w.log), Done(0))
  {
  }

  /** Connecting: 1 for an unknown user, 2 for an online one; otherwise the user is online at this
      address, and the worker goes on to drain its file. */
  lemma ConnectFirstStep(w: World, u: string, ip: string, port: int, ok: bool)
    ensures Step(w, Start(DoConnect(u, ip, port)), ok) ==
      if u !in w.store.users then (w, Done(1))
      else if w.store.users[u].online then (w, Done(2))
      else (World(Store(w.store.users[u := User(true, ip, port, w.store.users[u].lastId)], w.store.boxes), w.log),
            Joining(Route(u, ip, port)))
  {
  }

  // ------------------------------------------------------- kinds of pushes

  predicate Flagged(p: Worker) {
    forall i :: 0 <= i < |Carried(p)| ==> (Carried(p)[i].msg.fileName != "" ==> Carried(p)[i].attach)
  }

  lemma StepFlagged(w: World, p: Worker, ok: bool)
    requires Flagged(p)
    ensures Flagged(Step(w, p, ok).1)
    ensures var log' := Step(w, p, ok).0.log;
      forall j :: |w.log| <= j < |log'| && log'[j].Pushed? ==> (log'[j].msg.fileName != "" ==> log'[j].attach)
  {
    var (w', p') := Step(w, p, ok);
    if p.Delivering? || p.HeadPushed? || p.HeadDeleted? || p.Acking? || p.AckFailed? {
      if p.Delivering? && p.queue != [] { assert Carried(p)[0] == p.queue[0]; }
      forall i | 0 <= i < |Carried(p')| ensures Carried(p')[i].msg.fileName != "" ==> Carried(p')[i].attach {
        CarriedShift(w, p, ok, i);
      }
    } else if p.Prepared? {
      assert Carried(p)[0] == p.parcel;
    }
  }

  predicate AllFlagged(s: System) {
    && (forall id :: id in s.workers ==> Flagged(s.workers[id]))
    && (forall j :: 0 <= j < |s.world.log| && s.world.log[j].Pushed? && s.world.log[j].msg.fileName != "" ==>
          s.world.log[j].attach)
  }

  lemma ActFlagged(s: System, a: Action)
    requires AllFlagged(s)
    ensures AllFlagged(Act(s, a))
  {
    if a.Run? && a.id in s.workers {
      StepFlagged(s.world, s.workers[a.id], a.ok);
      StepAddress(s.world, s.workers[a.id], a.ok);
      hide Step, Flagged;
    }
  }

  lemma {:induction false} AlwaysFlagged(acts: seq<Action>)
    ensures AllFlagged(Exec(acts))
  {
    if acts != [] {
      AlwaysFlagged(acts[..|acts| - 1]);
      hide AllFlagged, Act;
      ActFlagged(Exec(acts[..|acts| - 1]), acts[|acts| - 1]);
    }
  }

  /** In every interleaving a message with a file name is pushed as an attachment. */
  lemma {:induction false} FilesGoAsAttachments(acts: seq<Action>, j: nat)
    requires j < |Exec(acts).world.log| && Exec(acts).world.log[j].Pushed?
    requires Exec(acts).world.log[j].msg.fileName != ""
    ensures Exec(acts).world.log[j].attach
  {
    AlwaysFlagged(acts);
  }
}
