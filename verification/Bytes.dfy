/** The interleaving workers of Protocol on the bytes of the files: every decision a worker
    takes is read from usuarios.txt or a mailbox file, and a run does what the abstract run
    does for as long as no new name is registered that is not one word. */
module Bytes {
  import opened Text
  import opened Mail
  import opened P = Protocol
  import F = Files
  import R = Refinement
  import S = MessageStore
  import Rows
  import V = Readers
  import Q = Requests

  /** What a request read from the network and the peer address of its connection provide. */
  predicate TaskFits(task: Task) {
    match task
    case DoRegister(u) => IsCString(u, 255)
    case DoUnregister(_) => true
    case DoConnect(_, ip, port) => IsToken(ip, 19) && IsInt32(port)
    case DoDisconnect(_, _) => true
    case DoSend(s, _, text, _, fileName) => IsCString(s, 255) && IsCString(text, 255) && IsCString(fileName, 255)
  }

  /** Whatever bytes a client sends: a request that is served is a task that fits, from any peer
      address of at most 19 bytes. */
  lemma ParsedTasksFit(s: string, ip: string)
    requires Q.ParseHead(s).Got? && IsToken(ip, 19)
    ensures match Q.ParseHead(s).req
            case Register(u) => TaskFits(DoRegister(u))
            case Unregister(u) => TaskFits(DoUnregister(u))
            case Connect(u, port) => TaskFits(DoConnect(u, ip, port))
            case Disconnect(u) => TaskFits(DoDisconnect(u, ip))
            case Send(u, to, text) => TaskFits(DoSend(u, to, text, false, ""))
            case SendAttach(u, to, text, fileName) => TaskFits(DoSend(u, to, text, true, fileName))
            case Users(_) => true
  {
    Q.ParsedFits(s);
    hide Q.ParseHead;
  }

  predicate WorkerFits(p: Worker) {
    (p.Start? ==> TaskFits(p.task)) && (p.Prepared? ==> p.parcel.msg.Fits())
  }

  datatype Disk = Disk(files: F.FileMap, log: seq<Event>)

  function Note(d: Disk, files: F.FileMap, log: seq<Event>): Disk {
    Disk(files, d.log + log)
  }

  /** get_user_info */
  function Info(files: F.FileMap, user: string): Option<Rows.Row> {
    if F.USERS in files then Rows.FindFirst(Rows.StreamRows(files[F.USERS]), user) else None
  }

  function BeginSend(d: Disk, s: string, to: string, text: string, attach: bool, fileName: string): (r: (Disk, Worker))
    requires IsCString(s, 255) && IsCString(text, 255) && IsCString(fileName, 255)
    ensures WorkerFits(r.1)
  {
    var code := F.PrepareCode(d.files, s, to);
    if code != 0 then (d, Done(code))
    else
      var sender, receiver := F.RowOf(d.files, s).value, F.RowOf(d.files, to).value;
      var m := PendingMsg(s, S.NextId(sender.lastId), text, if attach then fileName else "");
      assert sender.Fits();
      (Note(d, F.Prepare(d.files, s, to), [Accepted(to, m)]),
       Prepared(Route(to, receiver.ip, receiver.port), Parcel(m, attach), receiver.connected == 1, |d.log|))
  }

  function Begin(d: Disk, task: Task): (r: (Disk, Worker))
    requires TaskFits(task)
    ensures WorkerFits(r.1)
  {
    match task
    case DoRegister(u) =>
      var code := F.RegisterCode(d.files, u);
      (Note(d, F.Register(d.files, u), if code == 0 then [Joined(u)] else []), Done(code))
    case DoUnregister(u) =>
      var code := F.UnregisterCode(d.files, u);
      (Note(d, F.Unregister(d.files, u), if code == 0 then [Left(u)] else []), Done(code))
    case DoConnect(u, ip, port) =>
      var code := F.ConnectCode(d.files, u);
      (Note(d, F.Connect(d.files, u, ip, port), []), if code == 0 then Joining(Route(u, ip, port)) else Done(code))
    case DoDisconnect(u, ip) =>
      (match Info(d.files, u)
       case None => (d, Done(1))
       case Some(row) => (d, if row.ip != ip then Done(3) else Leaving(u)))
    case DoSend(s, to, text, attach, fileName) => BeginSend(d, s, to, text, attach, fileName)
  }

  /** One step of a worker on the files. */
  function Step(d: Disk, p: Worker, ok: bool): (r: (Disk, Worker))
    requires WorkerFits(p)
    ensures WorkerFits(r.1)
  {
    match p
    case Start(task) => Begin(d, task)
    case Prepared(route, parcel, online, _) =>
      (Note(d, F.Deposit(d.files, route.to, parcel.msg), []), if online then Delivering(route, [parcel]) else Done(0))
    case Joining(route) =>
      var msgs := F.Pending(d.files, route.to);
      (Note(d, d.files, [Drained(route.to, msgs)]), Delivering(route, Parcels(msgs)))
    case Delivering(route, queue) =>
      if queue == [] then (d, Done(0))
      else if !ok then (d, PushFailed(route))
      else
        var head := queue[0];
        (Note(d, d.files, [Pushed(route.to, route.ip, route.port, head.msg, head.attach)]),
         HeadPushed(route, head, queue[1..], |d.log|))
    case HeadPushed(route, head, rest, push) =>
      (Note(d, F.Remove(d.files, route.to, head.msg.id), [Deleted(route.to, head.msg.id, push)]),
       HeadDeleted(route, head, rest, push))
    case HeadDeleted(route, head, rest, push) =>
      (match Info(d.files, head.msg.sender)
       case None => (d, Delivering(route, rest))
       case Some(row) =>
         (d, if row.connected == 1 then Acking(route, head, rest, push, row.ip, row.port) else Delivering(route, rest)))
    case Acking(route, head, rest, push, ip, port) =>
      if ok then
        (Note(d, d.files, [Acked(head.msg.sender, ip, port, head.msg.id, head.attach, head.msg.fileName, push)]),
         Delivering(route, rest))
      else (d, AckFailed(route, head, rest))
    case AckFailed(route, head, rest) =>
      (Note(d, F.Disconnect(d.files, head.msg.sender), []), Delivering(route, rest))
    case PushFailed(route) => (Note(d, F.Disconnect(d.files, route.to), []), Done(0))
    case Leaving(u) => (Note(d, F.Disconnect(d.files, u), []), Done(F.DisconnectCode(d.files, u)))
    case Done(_) => (d, p)
  }

  // -------------------------------------------------------- interleavings

  datatype DiskSystem = DiskSystem(disk: Disk, workers: map<nat, Worker>)

  predicate Fits(s: DiskSystem) {
    forall id :: id in s.workers ==> WorkerFits(s.workers[id])
  }

  predicate ActionFits(a: Action) {
    a.Arrive? ==> TaskFits(a.task)
  }

  function Act(s: DiskSystem, a: Action): (s': DiskSystem)
    requires Fits(s) && ActionFits(a)
    ensures Fits(s')
  {
    match a
    case Arrive(id, task) => if id in s.workers then s else s.(workers := s.workers[id := Start(task)])
    case Run(id, ok) =>
      if id !in s.workers then s
      else
        var (d, p) := Step(s.disk, s.workers[id], ok);
        DiskSystem(d, s.workers[id := p])
  }

  predicate AllFit(acts: seq<Action>) {
    forall i :: 0 <= i < |acts| ==> ActionFits(acts[i])
  }

  /** From the empty table that db_init creates. */
  function Exec(acts: seq<Action>): (s: DiskSystem)
    requires AllFit(acts)
    ensures Fits(s)
  {
    if acts == [] then DiskSystem(Disk(map[F.USERS := ""], []), map[])
    else Act(Exec(acts[..|acts| - 1]), acts[|acts| - 1])
  }

  // ----------------------------------------------------------- refinement

  ghost predicate Stands(d: Disk, w: World) {
    F.Represents(d.files, w.store) && d.log == w.log
  }

  lemma SendRefines(d: Disk, w: World, task: Task)
    requires Stands(d, w) && TaskFits(task) && task.DoSend?
    ensures Stands(Begin(d, task).0, P.Begin(w, task).0) && Begin(d, task).1 == P.Begin(w, task).1
  {
    R.PrepareRefines(d.files, w.store, task.sender, task.to);
    R.RowOfRepresents(d.files, w.store, task.sender);
    R.RowOfRepresents(d.files, w.store, task.to);
    hide F.Represents, F.Prepare, F.RowOf;
  }

  lemma InfoStands(d: Disk, w: World, user: string)
    requires Stands(d, w)
    ensures var info := Info(d.files, user);
      && (info.Some? <==> user in w.store.users)
      && (info.Some? ==> F.ToUser(info.value) == w.store.users[user])
  {
    R.InfoRefines(d.files, w.store, user);
  }

  /** The step registers a new name that is not one word. */
  predicate Breaks(w: World, p: Worker) {
    p.Start? && p.task.DoRegister? && p.task.user !in w.store.users && !IsToken(p.task.user, 255)
  }

  lemma BeginRefines(d: Disk, w: World, task: Task)
    requires Stands(d, w) && TaskFits(task)
    ensures Begin(d, task).1 == P.Begin(w, task).1
    ensures Stands(Begin(d, task).0, P.Begin(w, task).0) <==> !Breaks(w, Start(task))
  {
    hide F.Represents, F.Register, F.Unregister, F.Connect, F.RowOf, Info;
    match task
    case DoRegister(u) => R.RegisterRefines(d.files, w.store, u);
    case DoUnregister(u) => R.UnregisterRefines(d.files, w.store, u);
    case DoConnect(u, ip, port) => R.ConnectRefines(d.files, w.store, u, ip, port);
    case DoDisconnect(u, ip) => InfoStands(d, w, u);
    case DoSend(_, _, _, _, _) => SendRefines(d, w, task);
  }

  /** A step on the files is the abstract step, and they represent the store afterwards if and
      only if it does not register a new name that is not one word. */
  lemma {:induction false} StepRefines(d: Disk, w: World, p: Worker, ok: bool)
    requires Stands(d, w) && WorkerFits(p)
    ensures Step(d, p, ok).1 == P.Step(w, p, ok).1
    ensures Stands(Step(d, p, ok).0, P.Step(w, p, ok).0) <==> !Breaks(w, p)
  {
    hide F.Represents, F.Deposit, F.Pending, F.Remove, F.Disconnect, F.RowOf, Info, Begin, P.Begin;
    match p
    case Start(task) => BeginRefines(d, w, task);
    case Prepared(route, parcel, _, _) => R.DepositRefines(d.files, w.store, route.to, parcel.msg);
    case Joining(route) => R.PendingRefines(d.files, w.store, route.to);
    case HeadPushed(route, head, _, _) => R.RemoveRefines(d.files, w.store, route.to, head.msg.id);
    case HeadDeleted(_, head, _, _) => InfoStands(d, w, head.msg.sender);
    case AckFailed(_, head, _) => R.DisconnectRefines(d.files, w.store, head.msg.sender);
    case PushFailed(route) => R.DisconnectRefines(d.files, w.store, route.to);
    case Leaving(u) => R.DisconnectRefines(d.files, w.store, u);
    case _ =>
  }

  lemma EmptyTable()
    ensures F.Represents(map[F.USERS := ""], S.Store(map[], map[]))
  {
    assert Rows.RowsOf("") == [];
    forall r ensures F.MailPath(r) !in map[F.USERS := ""] {
      F.PathsDiffer(r, r);
    }
  }

  /** After these actions the files represent the abstract store, the events are the same in
      the same order, and every worker stands where the abstract one does. */
  ghost predicate Same(acts: seq<Action>)
    requires AllFit(acts)
  {
    Stands(Exec(acts).disk, P.Exec(acts).world) && Exec(acts).workers == P.Exec(acts).workers
  }

  /** The next action registers a new name that is not one word. */
  predicate BreaksNext(acts: seq<Action>, a: Action) {
    var s := P.Exec(acts);
    a.Run? && a.id in s.workers && Breaks(s.world, s.workers[a.id])
  }

  lemma ActRefines(acts: seq<Action>, a: Action)
    requires AllFit(acts + [a]) && AllFit(acts) && Same(acts)
    ensures Same(acts + [a]) <==> !BreaksNext(acts, a)
  {
    assert (acts + [a])[..|acts|] == acts;
    assert ActionFits((acts + [a])[|acts|]);
    hide Step, P.Step, F.Represents, Breaks;
    var s, s' := Exec(acts), P.Exec(acts);
    if a.Run? && a.id in s.workers {
      StepRefines(s.disk, s'.world, s.workers[a.id], a.ok);
    }
  }

  /** Interleaved runs on the bytes of the files, for arbitrary names: the run is the abstract
      run throughout if and only if no step registers a new name that is not one word. */
  lemma {:induction false} BytesRefine(acts: seq<Action>)
    requires AllFit(acts)
    ensures (forall k :: 0 <= k <= |acts| ==> Same(acts[..k])) <==>
            (forall k :: 0 <= k < |acts| ==> !BreaksNext(acts[..k], acts[k]))
  {
    hide Same, BreaksNext;
    if acts == [] {
      assert acts[..0] == [];
      assert Same([]) by { NothingRun(); }
    } else {
      var before, a := acts[..|acts| - 1], acts[|acts| - 1];
      BytesRefine(before);
      assert acts == before + [a] && before[..|before|] == before && acts[..|acts|] == acts;
      assert forall k :: 0 <= k <= |before| ==> acts[..k] == before[..k];
      assert forall k :: 0 <= k < |before| ==> acts[k] == before[k];
      if Same(before) {
        ActRefines(before, a);
      }
    }
  }

  lemma NothingRun()
    ensures Same([])
  {
    EmptyTable();
  }

  // ------------------------------------------------------- a hidden user

  lemma Then(acts: seq<Action>, a: Action) returns (acts': seq<Action>)
    requires AllFit(acts) && ActionFits(a)
    ensures acts' == acts + [a] && AllFit(acts') && Exec(acts') == Act(Exec(acts), a)
  {
    acts' := acts + [a];
    assert acts'[..|acts'| - 1] == acts;
  }

  lemma RegisterRun(acts: seq<Action>, id: nat, u: string) returns (acts': seq<Action>)
    requires AllFit(acts) && IsCString(u, 255) && id !in Exec(acts).workers
    requires F.RegisterCode(Exec(acts).disk.files, u) == 0
    ensures AllFit(acts')
    ensures Exec(acts').workers == Exec(acts).workers[id := Done(0)]
    ensures Exec(acts').disk.files == F.Register(Exec(acts).disk.files, u)
  {
    hide Exec, F.Register, F.RegisterCode;
    acts' := Then(acts, Arrive(id, DoRegister(u)));
    acts' := Then(acts', Run(id, true));
  }

  lemma DisconnectRun(acts: seq<Action>, id: nat, u: string, ip: string) returns (acts': seq<Action>)
    requires AllFit(acts) && id !in Exec(acts).workers && Info(Exec(acts).disk.files, u).None?
    ensures AllFit(acts')
    ensures Exec(acts').workers == Exec(acts).workers[id := Done(1)]
    ensures Exec(acts').disk.files == Exec(acts).disk.files
  {
    hide Exec, Info;
    acts' := Then(acts, Arrive(id, DoDisconnect(u, ip)));
    acts' := Then(acts', Run(id, true));
  }

  lemma NothingYet()
    ensures Exec([]) == DiskSystem(Disk(map[F.USERS := ""], []), map[])
  {
  }

  /** r registers after "a b" did: DISCONNECT answers r that there is no such user. */
  lemma HiddenUserAnswered() returns (acts: seq<Action>)
    ensures AllFit(acts)
    ensures var s := Exec(acts);
      && F.RowOf(s.disk.files, "r") == Some(Rows.Row("r", 0, S.NO_IP, 0, 0))
      && 1 in s.workers && s.workers[1] == Done(0)
      && 2 in s.workers && s.workers[2] == Done(1)
  {
    hide Exec, F.RegisterLine, Rows.RowsOf, Rows.StreamRows;
    NothingYet();
    RegisteredLines();
    acts := RegisterRun([], 0, "a b");
    acts := RegisterRun(acts, 1, "r");
    acts := DisconnectRun(acts, 2, "r", "127.0.0.1");
  }

  /** The table as the two registrations find and leave it. */
  lemma RegisteredLines()
    ensures Rows.RowsOf("") == [] && Rows.RowsOf("" + F.RegisterLine("a b")) == []
    ensures var u := "" + F.RegisterLine("a b") + F.RegisterLine("r");
      && Rows.StreamRows(u) == []
      && Rows.RowsOf(u) == [Rows.Row("r", 0, S.NO_IP, 0, 0)]
  {
    hide F.RegisterLine;
    assert "" + F.RegisterLine("a b") == F.RegisterLine("a b");
    V.HiddenUser();
    V.SpacedLine("");
    V.SingleLine("a b");
    V.EmptyTableRows();
  }
}
