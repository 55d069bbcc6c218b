/** The safety results on the bytes of the files, for runs with arbitrary names: whatever the
    registrations make of usuarios.txt, the mailboxes and the log behave as in an abstract run. */
module ByteSafety {
  import opened Text
  import opened Mail
  import opened P = Protocol
  import opened Safety
  import A = Acks
  import B = Bytes
  import F = Files
  import R = Refinement
  import S = MessageStore
  import Rows

  // ------------------------------------- a step on any files is some step

  /** The mailbox files are these queues, and there is a table, of whatever shape. */
  ghost predicate Mailed(files: F.FileMap, boxes: map<string, seq<PendingMsg>>) {
    F.USERS in files && F.MailRepresents(files, boxes)
  }

  /** The table as far as it decides the worker's next step. */
  function Seen(d: B.Disk, p: Worker): map<string, S.User> {
    match p
    case Start(DoRegister(u)) => Listed(u, F.RowOf(d.files, u))
    case Start(DoUnregister(u)) => Listed(u, F.RowOf(d.files, u))
    case Start(DoConnect(u, _, _)) => Listed(u, F.RowOf(d.files, u))
    case Start(DoDisconnect(u, _)) => Listed(u, B.Info(d.files, u))
    case Start(DoSend(s, to, _, _, _)) => Listed(s, F.RowOf(d.files, s)) + Listed(to, F.RowOf(d.files, to))
    case HeadDeleted(_, head, _, _) => Listed(head.msg.sender, B.Info(d.files, head.msg.sender))
    case Leaving(u) =>
      (match F.RowOf(d.files, u)
       case None => map[]
       case Some(row) => map[u := F.ToUser(row).(online := row.connected != 0)])
    case _ => map[]
  }

  function Listed(u: string, row: Option<Rows.Row>): map<string, S.User> {
    if row.Some? then map[u := F.ToUser(row.value)] else map[]
  }

  lemma TableOnly(files: F.FileMap, files': F.FileMap, boxes: map<string, seq<PendingMsg>>)
    requires Mailed(files, boxes) && F.USERS in files'
    requires forall p :: p != F.USERS && p != F.TEMP ==> (p in files <==> p in files') && (p in files ==> files[p] == files'[p])
    ensures Mailed(files', boxes)
  {
    R.MailUntouched(files, files', boxes);
  }

  lemma TableOps(files: F.FileMap, boxes: map<string, seq<PendingMsg>>, u: string, v: string, ip: string, port: int)
    requires Mailed(files, boxes)
    ensures Mailed(F.Register(files, u), boxes)
    ensures Mailed(F.Connect(files, u, ip, port), boxes)
    ensures Mailed(F.Disconnect(files, u), boxes)
    ensures Mailed(F.Prepare(files, u, v), boxes)
  {
    hide F.RowOf, F.MailRepresents, F.RegisterLine, Rows.RowsOf, Rows.PrintRows, F.RewriteRows;
    F.TablePathsDiffer();
    TableOnly(files, F.Register(files, u), boxes);
    TableOnly(files, F.Connect(files, u, ip, port), boxes);
    TableOnly(files, F.Disconnect(files, u), boxes);
    TableOnly(files, F.Prepare(files, u, v), boxes);
  }

  lemma UnregisterMail(files: F.FileMap, boxes: map<string, seq<PendingMsg>>, u: string)
    requires Mailed(files, boxes)
    ensures Mailed(F.Unregister(files, u), if F.RowOf(files, u).Some? then boxes - {u} else boxes)
  {
    hide F.RowOf, Rows.RowsOf, Rows.PrintRows, F.RewriteRows, F.MailRepresents;
    F.TablePathsDiffer();
    F.PathsDiffer(u, u);
    if F.RowOf(files, u).Some? {
      TableOnly(files, F.Rewritten(files, F.Drop(u)), boxes);
      MailboxGone(F.Rewritten(files, F.Drop(u)), boxes, u);
    } else {
      TableOnly(files, F.Unregister(files, u), boxes);
    }
  }

  lemma MailboxGone(files: F.FileMap, boxes: map<string, seq<PendingMsg>>, u: string)
    requires F.MailRepresents(files, boxes)
    ensures F.MailRepresents(files - {F.MailPath(u)}, boxes - {u})
  {
    forall r
      ensures F.MailPath(r) in files - {F.MailPath(u)} <==> r in boxes - {u}
    {
      F.PathsDiffer(r, u);
      assert F.MailPath(r) in files <==> r in boxes;
    }
  }

  lemma DepositMail(files: F.FileMap, boxes: map<string, seq<PendingMsg>>, to: string, m: PendingMsg)
    requires Mailed(files, boxes) && m.Fits()
    ensures Mailed(F.Deposit(files, to, m), boxes[to := (if to in boxes then boxes[to] else []) + [m]])
  {
    hide Mail.Encode;
    var q := if to in boxes then boxes[to] else [];
    assert F.MailPath(to) in files <==> to in boxes;
    assert Mail.EncodeAll([]) == "";
    F.PathsDiffer(to, to);
    Mail.StoreAppends(q, m);
    R.MailboxChanged(files, F.Deposit(files, to, m), boxes, to, q + [m]);
  }

  lemma RemoveMail(files: F.FileMap, boxes: map<string, seq<PendingMsg>>, to: string, id: nat)
    requires Mailed(files, boxes)
    ensures Mailed(F.Remove(files, to, id), if to in boxes then boxes[to := WithoutId(boxes[to], id)] else boxes)
  {
    hide Mail.Chunks, Mail.ChunksWithout, Mail.Concat, Mail.WithoutId, Mail.EncodeAll;
    assert F.MailPath(to) in files <==> to in boxes;
    F.PathsDiffer(to, to);
    if to in boxes {
      Mail.DeleteFilters(boxes[to], id);
      R.MailboxChanged(files, F.Remove(files, to, id), boxes, to, Mail.WithoutId(boxes[to], id));
    }
  }

  lemma PendingMail(files: F.FileMap, boxes: map<string, seq<PendingMsg>>, r: string)
    requires F.MailRepresents(files, boxes)
    ensures F.Pending(files, r) == if r in boxes then boxes[r] else []
  {
    assert F.MailPath(r) in files <==> r in boxes;
    if r in boxes {
      Mail.QueueRoundTrip(boxes[r]);
    }
  }

  /** On files of any shape a worker does what it would do on some abstract store with the same
      queues: the same next worker, the same event, the same queues. */
  lemma StepIsSomeStep(d: B.Disk, p: Worker, ok: bool, boxes: map<string, seq<PendingMsg>>)
    requires Mailed(d.files, boxes) && B.WorkerFits(p)
    ensures var (d', p') := B.Step(d, p, ok);
      var (w', q) := P.Step(World(S.Store(Seen(d, p), boxes), d.log), p, ok);
      q == p' && w'.log == d'.log && Mailed(d'.files, w'.store.boxes)
  {
    hide F.Register, F.Unregister, F.Connect, F.Disconnect, F.Prepare, F.Deposit, F.Remove, F.Pending, F.RowOf, B.Info, Mailed;
    match p
    case Start(task) => BeginIsSomeBegin(d, task, boxes);
    case Prepared(route, parcel, _, _) => DepositMail(d.files, boxes, route.to, parcel.msg);
    case Joining(route) => MailedMeans(d.files, boxes); PendingMail(d.files, boxes, route.to);
    case HeadPushed(route, head, _, _) => RemoveMail(d.files, boxes, route.to, head.msg.id);
    case AckFailed(_, head, _) => TableOps(d.files, boxes, head.msg.sender, "", "", 0);
    case PushFailed(route) => TableOps(d.files, boxes, route.to, "", "", 0);
    case Leaving(u) => TableOps(d.files, boxes, u, "", "", 0);
    case _ =>
  }

  lemma MailedMeans(files: F.FileMap, boxes: map<string, seq<PendingMsg>>)
    requires Mailed(files, boxes)
    ensures F.USERS in files && F.MailRepresents(files, boxes)
  {
  }

  lemma SendSeen(files: F.FileMap, boxes: map<string, seq<PendingMsg>>, s: string, to: string)
    requires F.USERS in files
    ensures var st := S.Store(Listed(s, F.RowOf(files, s)) + Listed(to, F.RowOf(files, to)), boxes);
      && S.PrepareCode(st, s, to) == F.PrepareCode(files, s, to)
      && (S.PrepareCode(st, s, to) == 0 ==>
            var st' := S.Prepare(st, s);
            var sender, receiver := F.RowOf(files, s), F.RowOf(files, to);
            && st'.boxes == boxes && sender.Some? && receiver.Some? && s in st'.users && to in st'.users
            && st'.users[s].lastId == S.NextId(sender.value.lastId)
            && st'.users[to].ip == receiver.value.ip && st'.users[to].port == receiver.value.port
            && (st'.users[to].online <==> receiver.value.connected == 1))
  {
    hide F.RowOf;
  }

  lemma SendIsSomeSend(d: B.Disk, task: Task, boxes: map<string, seq<PendingMsg>>)
    requires Mailed(d.files, boxes) && B.TaskFits(task) && task.DoSend?
    ensures var (d', p') := B.Begin(d, task);
      var (w', q) := P.Begin(World(S.Store(Seen(d, Start(task)), boxes), d.log), task);
      q == p' && w'.log == d'.log && Mailed(d'.files, w'.store.boxes)
  {
    hide F.Prepare, F.PrepareCode, F.RowOf, S.Prepare, S.PrepareCode, S.NextId, Mailed, Listed;
    MailedMeans(d.files, boxes);
    TableOps(d.files, boxes, task.sender, task.to, "", 0);
    SendSeen(d.files, boxes, task.sender, task.to);
  }

  lemma BeginIsSomeBegin(d: B.Disk, task: Task, boxes: map<string, seq<PendingMsg>>)
    requires Mailed(d.files, boxes) && B.TaskFits(task)
    ensures var (d', p') := B.Begin(d, task);
      var (w', q) := P.Begin(World(S.Store(Seen(d, Start(task)), boxes), d.log), task);
      q == p' && w'.log == d'.log && Mailed(d'.files, w'.store.boxes)
  {
    MailedMeans(d.files, boxes);
    hide F.Register, F.Unregister, F.Connect, F.Disconnect, F.Prepare, F.PrepareCode, F.RowOf, B.Info, Mailed,
      F.MailRepresents, B.BeginSend;
    match task
    case DoRegister(u) => TableOps(d.files, boxes, u, "", "", 0);
    case DoUnregister(u) => UnregisterMail(d.files, boxes, u);
    case DoConnect(u, ip, port) => TableOps(d.files, boxes, u, "", ip, port);
    case DoDisconnect(u, ip) =>
    case DoSend(_, _, _, _, _) => SendIsSomeSend(d, task, boxes);
  }

  // ------------------------------------------------------------- the runs

  /** An abstract state with the same queues, log and workers; its users are of no account. */
  ghost predicate Shadows(b: B.DiskSystem, s: System) {
    Mailed(b.disk.files, s.world.store.boxes) && s.world.log == b.disk.log && s.workers == b.workers
  }

  predicate Safe(s: System) {
    Genuine(s) && NothingVanished(s) && A.AckInv(s)
  }

  lemma SafeIgnoresUsers(s: System, users: map<string, S.User>)
    requires Safe(s)
    ensures Safe(s.(world := s.world.(store := s.world.store.(users := users))))
  {
    var s' := s.(world := s.world.(store := s.world.store.(users := users)));
    assert forall i :: 0 <= i < |s.world.log| && s.world.log[i].Accepted? ==> (Kept(s.world, i) <==> Kept(s'.world, i));
  }

  lemma ActShadows(b: B.DiskSystem, s: System, a: Action) returns (s': System)
    requires B.Fits(b) && B.ActionFits(a) && Shadows(b, s) && Safe(s)
    ensures Shadows(B.Act(b, a), s') && Safe(s')
  {
    hide B.Step, P.Step, Mailed, Safe, Seen;
    var s0 := s;
    if a.Run? && a.id in b.workers {
      var p := b.workers[a.id];
      s0 := s.(world := s.world.(store := s.world.store.(users := Seen(b.disk, p))));
      SafeIgnoresUsers(s, Seen(b.disk, p));
      StepIsSomeStep(b.disk, p, a.ok, s.world.store.boxes);
    }
    s' := P.Act(s0, a);
    ActKeepsSafe(s0, a);
  }

  lemma ActKeepsSafe(s: System, a: Action)
    requires Safe(s)
    ensures Safe(P.Act(s, a))
  {
    hide Genuine, NothingVanished, A.AckInv, P.Act;
    ActKeepsGenuine(s, a);
    ActKeepsMessages(s, a);
    A.ActKeepsAcks(s, a);
  }

  lemma NothingYet() returns (s: System)
    ensures Shadows(B.Exec([]), s) && Safe(s)
  {
    s := P.System(EMPTY, map[]);
    B.EmptyTable();
  }

  lemma {:induction false} AlwaysShadowed(acts: seq<Action>) returns (s: System)
    requires B.AllFit(acts)
    ensures Shadows(B.Exec(acts), s) && Safe(s)
  {
    if acts == [] {
      s := NothingYet();
    } else {
      hide Shadows, Safe, B.Act;
      s := AlwaysShadowed(acts[..|acts| - 1]);
      s := ActShadows(B.Exec(acts[..|acts| - 1]), s, acts[|acts| - 1]);
    }
  }

  /** In every interleaved run on the bytes, whatever names are registered: an accepted message
      is with the worker about to store it, or in its receiver's mailbox file, or a delete of its
      id or an unregistration of its receiver was logged after the acceptance. */
  lemma {:induction false} NoMessageVanishesOnDisk(acts: seq<Action>, i: nat)
    requires B.AllFit(acts) && i < |B.Exec(acts).disk.log| && B.Exec(acts).disk.log[i].Accepted?
    ensures var b := B.Exec(acts);
      var to, m := b.disk.log[i].to, b.disk.log[i].msg;
      || (exists id :: id in b.workers && PreparedFor(b.workers[id], b.disk.log, i))
      || m in F.Pending(b.disk.files, to)
      || Released(b.disk.log, i, to, m.id)
  {
    var s := AlwaysShadowed(acts);
    PendingMail(B.Exec(acts).disk.files, s.world.store.boxes, s.world.log[i].to);
    hide B.Exec, F.Pending, F.MailRepresents;
    assert Kept(s.world, i) || exists id :: id in s.workers && PreparedFor(s.workers[id], s.world.log, i);
  }

  /** In the same runs every push repeats an earlier acceptance, and deletes and acknowledgements
      follow their own push. */
  lemma {:induction false} LogIsGenuineOnDisk(acts: seq<Action>, j: nat)
    requires B.AllFit(acts) && j < |B.Exec(acts).disk.log|
    ensures var log := B.Exec(acts).disk.log;
      && (log[j].Pushed? ==> AcceptedBefore(log, j, Accepted(log[j].to, log[j].msg)))
      && A.EntryOk(log, j)
  {
    var s := AlwaysShadowed(acts);
    hide B.Exec, A.EntryOk, AcceptedBefore;
  }
}
