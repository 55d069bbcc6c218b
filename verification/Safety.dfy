/** What every interleaving of any number of workers keeps. */
module Safety {
  import opened Mail
  import opened MessageStore
  import opened Protocol

  // ------------------------------------------------- pushes are genuine

  /** The parcels a worker still has to handle, and their receiver. */
  function Carried(p: Worker): seq<Parcel> {
    match p
    case Prepared(_, parcel, _, _) => [parcel]
    case Delivering(_, queue) => queue
    case HeadPushed(_, head, rest, _) => [head] + rest
    case HeadDeleted(_, head, rest, _) => [head] + rest
    case Acking(_, head, rest, _, _, _) => [head] + rest
    case AckFailed(_, head, rest) => [head] + rest
    case _ => []
  }

  function To(p: Worker): string {
    match p
    case Start(_) => ""
    case Leaving(_) => ""
    case Done(_) => ""
    case _ => p.route.to
  }

  predicate CarriesAccepted(log: seq<Event>, p: Worker) {
    forall i :: 0 <= i < |Carried(p)| ==> Accepted(To(p), Carried(p)[i].msg) in log
  }

  predicate BoxesAccepted(w: World) {
    forall r :: r in w.store.boxes ==>
      forall i :: 0 <= i < |w.store.boxes[r]| ==> Accepted(r, w.store.boxes[r][i]) in w.log
  }

  predicate AcceptedBefore(log: seq<Event>, j: nat, e: Event) {
    exists i :: 0 <= i < j <= |log| && log[i] == e
  }

  /** Every push in the log repeats an earlier acceptance for the same receiver. */
  predicate PushesAccepted(log: seq<Event>) {
    forall j :: 0 <= j < |log| && log[j].Pushed? ==> AcceptedBefore(log, j, Accepted(log[j].to, log[j].msg))
  }

  lemma InWithoutId(q: seq<PendingMsg>, id: nat, r: string, log: seq<Event>)
    requires forall i :: 0 <= i < |q| ==> Accepted(r, q[i]) in log
    ensures forall i :: 0 <= i < |WithoutId(q, id)| ==> Accepted(r, WithoutId(q, id)[i]) in log
  {
    forall i | 0 <= i < |WithoutId(q, id)| ensures Accepted(r, WithoutId(q, id)[i]) in log {
      WithoutIdMembers(q, id, WithoutId(q, id)[i]);
      assert WithoutId(q, id)[i] in q;
    }
  }

  lemma StepBoxesAccepted(w: World, p: Worker, ok: bool)
    requires BoxesAccepted(w) && CarriesAccepted(w.log, p)
    ensures BoxesAccepted(Step(w, p, ok).0)
  {
    match p
    case Prepared(route, parcel, _, _) =>
      assert Carried(p)[0] == parcel;
    case HeadPushed(route, head, rest, push) =>
      if route.to in w.store.boxes {
        InWithoutId(w.store.boxes[route.to], head.msg.id, route.to, w.log);
      }
    case _ =>
  }

  /** While delivering, a worker only goes on with parcels it already carries. */
  lemma CarriedShift(w: World, p: Worker, ok: bool, i: nat)
    requires p.Delivering? || p.HeadPushed? || p.HeadDeleted? || p.Acking? || p.AckFailed?
    requires i < |Carried(Step(w, p, ok).1)|
    ensures var p' := Step(w, p, ok).1;
      To(p') == To(p) && exists k :: 0 <= k < |Carried(p)| && Carried(p)[k] == Carried(p')[i]
  {
    var p' := Step(w, p, ok).1;
    var k := if p.AckFailed? || (p'.Delivering? && (p.HeadDeleted? || p.Acking?)) then i + 1 else i;
    assert Carried(p)[k] == Carried(p')[i];
  }

  /** A parcel a worker carries was carried before the step, or comes from the box it drains,
      or was accepted in the step. */
  lemma CarriedOrigin(w: World, p: Worker, ok: bool, i: nat)
    requires i < |Carried(Step(w, p, ok).1)|
    ensures var (w', p') := Step(w, p, ok);
      var m := Carried(p')[i].msg;
      || (To(p') == To(p) && exists k :: 0 <= k < |Carried(p)| && Carried(p)[k].msg == m)
      || m in Box(w.store, To(p'))
      || (w'.log != [] && w'.log[|w'.log| - 1] == Accepted(To(p'), m))
  {
    if p.Delivering? || p.HeadPushed? || p.HeadDeleted? || p.Acking? || p.AckFailed? {
      CarriedShift(w, p, ok, i);
    } else if p.Prepared? {
      assert Carried(p)[0].msg == Carried(Step(w, p, ok).1)[i].msg;
    }
  }

  lemma StepCarriesAccepted(w: World, p: Worker, ok: bool)
    requires BoxesAccepted(w) && CarriesAccepted(w.log, p)
    ensures var (w', p') := Step(w, p, ok);
      w.log <= w'.log && CarriesAccepted(w'.log, p')
  {
    var (w', p') := Step(w, p, ok);
    LogGrows(w, p, ok);
    hide Step;
    forall i | 0 <= i < |Carried(p')| ensures Accepted(To(p'), Carried(p')[i].msg) in w'.log {
      CarriedOrigin(w, p, ok, i);
    }
  }

  /** The log only grows. */
  lemma LogGrows(w: World, p: Worker, ok: bool)
    ensures w.log <= Step(w, p, ok).0.log
  {
  }

  lemma StepPushesAccepted(w: World, p: Worker, ok: bool)
    requires CarriesAccepted(w.log, p) && PushesAccepted(w.log)
    ensures PushesAccepted(Step(w, p, ok).0.log)
  {
    var log' := Step(w, p, ok).0.log;
    if log' != w.log {
      if p.Delivering? { assert Carried(p)[0] == p.queue[0]; }
      StillPushesAccepted(w.log, log'[|w.log|]);
    }
  }

  lemma StillPushesAccepted(log: seq<Event>, e: Event)
    requires PushesAccepted(log) && (e.Pushed? ==> Accepted(e.to, e.msg) in log)
    ensures PushesAccepted(log + [e])
  {
    var log' := log + [e];
    forall j | 0 <= j < |log'| && log'[j].Pushed?
      ensures AcceptedBefore(log', j, Accepted(log'[j].to, log'[j].msg))
    {
      if j < |log| {
        var i :| 0 <= i < j && log[i] == Accepted(log[j].to, log[j].msg);
        assert log'[i] == log[i];
      } else {
        var i :| 0 <= i < |log| && log[i] == Accepted(e.to, e.msg);
        assert log'[i] == log[i];
      }
    }
  }

  lemma CarriesMonotone(log: seq<Event>, log': seq<Event>, p: Worker)
    requires CarriesAccepted(log, p) && log <= log'
    ensures CarriesAccepted(log', p)
  {
  }

  predicate Genuine(s: System) {
    && BoxesAccepted(s.world) && PushesAccepted(s.world.log)
    && forall id :: id in s.workers ==> CarriesAccepted(s.world.log, s.workers[id])
  }

  lemma ActKeepsGenuine(s: System, a: Action)
    requires Genuine(s)
    ensures Genuine(Act(s, a))
  {
    if a.Run? && a.id in s.workers {
      StepBoxesAccepted(s.world, s.workers[a.id], a.ok);
      StepCarriesAccepted(s.world, s.workers[a.id], a.ok);
      StepPushesAccepted(s.world, s.workers[a.id], a.ok);
      var log' := Act(s, a).world.log;
      forall id | id in s.workers ensures CarriesAccepted(log', s.workers[id]) {
        CarriesMonotone(s.world.log, log', s.workers[id]);
      }
    }
  }

  lemma {:induction false} AlwaysGenuine(acts: seq<Action>)
    ensures Genuine(Exec(acts))
  {
    if acts != [] {
      var s, a := Exec(acts[..|acts| - 1]), acts[|acts| - 1];
      AlwaysGenuine(acts[..|acts| - 1]);
      ActKeepsGenuine(s, a);
    }
  }

  /** Every push to a receiver carries the sender, id, text and file name of a send accepted
      for that receiver earlier. */
  lemma PushesAreGenuine(acts: seq<Action>, j: nat)
    requires j < |Exec(acts).world.log| && Exec(acts).world.log[j].Pushed?
    ensures var log := Exec(acts).world.log;
      exists i :: 0 <= i < j && log[i] == Accepted(log[j].to, log[j].msg)
  {
    AlwaysGenuine(acts);
    var log := Exec(acts).world.log;
    assert AcceptedBefore(log, j, Accepted(log[j].to, log[j].msg));
  }

  // -------------------------------------------- no accepted message vanishes

  /** After position i, a message with this id was deleted for this receiver, or the receiver
      was unregistered. */
  predicate Released(log: seq<Event>, i: nat, to: string, id: nat) {
    exists j :: i < j < |log| &&
      (log[j] == Left(to) || (log[j].Deleted? && log[j].to == to && log[j].id == id))
  }

  predicate Kept(w: World, i: nat)
    requires i < |w.log| && w.log[i].Accepted?
  {
    w.log[i].msg in Box(w.store, w.log[i].to) || Released(w.log, i, w.log[i].to, w.log[i].msg.id)
  }

  predicate PreparedFor(p: Worker, log: seq<Event>, i: nat) {
    p.Prepared? && p.accepted == i < |log| && log[i] == Accepted(p.route.to, p.parcel.msg)
  }

  predicate PreparedOk(log: seq<Event>, p: Worker) {
    p.Prepared? ==> PreparedFor(p, log, p.accepted)
  }

  lemma ReleasedMonotone(log: seq<Event>, log': seq<Event>, i: nat, to: string, id: nat)
    requires Released(log, i, to, id) && log <= log'
    ensures Released(log', i, to, id)
  {
    var j :| i < j < |log| && (log[j] == Left(to) || (log[j].Deleted? && log[j].to == to && log[j].id == id));
    assert log'[j] == log[j];
  }

  lemma StillInBox(q: seq<PendingMsg>, id: nat, m: PendingMsg)
    requires m in q && m.id != id
    ensures m in WithoutId(q, id)
  {
    WithoutIdMembers(q, id, m);
  }

  /** A step loses a message from a box only together with a Left or Deleted entry. */
  lemma StepKeepsKept(w: World, p: Worker, ok: bool, i: nat)
    requires i < |w.log| && w.log[i].Accepted? && Kept(w, i)
    ensures var w' := Step(w, p, ok).0;
      w.log <= w'.log && Kept(w', i)
  {
    var w' := Step(w, p, ok).0;
    var to, m := w.log[i].to, w.log[i].msg;
    if Released(w.log, i, to, m.id) {
      ReleasedMonotone(w.log, w'.log, i, to, m.id);
    } else {
      match p
      case HeadPushed(route, head, rest, push) =>
        assert w'.log[|w.log|] == Deleted(route.to, head.msg.id, push);
        if route.to == to && m.id != head.msg.id {
          StillInBox(w.store.boxes[to], head.msg.id, m);
        }
      case Start(task) =>
        if task.DoUnregister? && task.user == to && to in w.store.users {
          assert w'.log[|w.log|] == Left(to);
        }
      case _ =>
    }
  }

  lemma StepStores(w: World, p: Worker, ok: bool)
    requires p.Prepared? && PreparedOk(w.log, p)
    ensures Kept(Step(w, p, ok).0, p.accepted)
  {
    var w' := Step(w, p, ok).0;
    var q := Box(w'.store, p.route.to);
    assert q[|q| - 1] == p.parcel.msg;
  }

  predicate NothingVanished(s: System) {
    && (forall id :: id in s.workers ==> PreparedOk(s.world.log, s.workers[id]))
    && forall i :: 0 <= i < |s.world.log| && s.world.log[i].Accepted? ==>
         Kept(s.world, i) || exists id :: id in s.workers && PreparedFor(s.workers[id], s.world.log, i)
  }

  lemma NewAcceptance(w: World, p: Worker, ok: bool)
    requires PreparedOk(w.log, p)
    ensures var (w', p') := Step(w, p, ok);
      && |w.log| <= |w'.log| <= |w.log| + 1 && w.log <= w'.log
      && PreparedOk(w'.log, p')
      && (|w'.log| > |w.log| && w'.log[|w.log|].Accepted? ==> PreparedFor(p', w'.log, |w.log|))
  {
  }

  lemma {:induction false} NoMessageVanishes(acts: seq<Action>)
    ensures NothingVanished(Exec(acts))
  {
    if acts != [] {
      NoMessageVanishes(acts[..|acts| - 1]);
      ActKeepsMessages(Exec(acts[..|acts| - 1]), acts[|acts| - 1]);
    }
  }

  lemma ActKeepsMessages(s: System, a: Action)
    requires NothingVanished(s)
    ensures NothingVanished(Act(s, a))
  {
    var s' := Act(s, a);
    if a.Run? && a.id in s.workers {
      RunKeepsMessages(s, a.id, a.ok);
    } else if a.Arrive? && a.id !in s.workers {
      assert forall id :: id in s.workers ==> id in s'.workers && s'.workers[id] == s.workers[id];
      forall i | 0 <= i < |s'.world.log| && s'.world.log[i].Accepted?
        ensures Kept(s'.world, i) || exists id :: id in s'.workers && PreparedFor(s'.workers[id], s'.world.log, i)
      {
        if !Kept(s.world, i) {
          var id :| id in s.workers && PreparedFor(s.workers[id], s.world.log, i);
          assert id in s'.workers && PreparedFor(s'.workers[id], s'.world.log, i);
        }
      }
    }
  }

  lemma RunKeepsMessages(s: System, id: nat, ok: bool)
    requires id in s.workers && NothingVanished(s)
    ensures NothingVanished(Act(s, Run(id, ok)))
  {
    var p := s.workers[id];
    var s' := Act(s, Run(id, ok));
    var log, log' := s.world.log, s'.world.log;
    NewAcceptance(s.world, p, ok);
    forall i | 0 <= i < |log'| && log'[i].Accepted?
      ensures Kept(s'.world, i) || exists k :: k in s'.workers && PreparedFor(s'.workers[k], log', i)
    {
      if i == |log| {
        assert PreparedFor(s'.workers[id], log', i);
      } else if Kept(s.world, i) {
        StepKeepsKept(s.world, p, ok, i);
      } else {
        var k :| k in s.workers && PreparedFor(s.workers[k], log, i);
        if k == id {
          StepStores(s.world, p, ok);
        } else {
          assert k in s'.workers && PreparedFor(s'.workers[k], log', i);
        }
      }
    }
    assert PreparedOk(log', s'.workers[id]);
    forall k | k in s'.workers ensures PreparedOk(log', s'.workers[k]) {
      if k != id { assert PreparedOk(log, s.workers[k]); }
    }
  }
}
