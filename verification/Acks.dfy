/** Acknowledgements in every interleaving: each follows its own push and its own delete, and
    there are never more of them than pushes. */
module Acks {
  import opened MessageStore
  import opened Protocol
  import opened Safety

  predicate HasPush(p: Worker) {
    p.HeadPushed? || p.HeadDeleted? || p.Acking?
  }

  /** log[push] is a push of this message id to this receiver. */
  predicate IsPush(log: seq<Event>, push: nat, to: string, id: nat) {
    push < |log| && log[push].Pushed? && log[push].to == to && log[push].msg.id == id
  }

  predicate DeletedAfter(log: seq<Event>, push: nat, until: nat) {
    exists d :: push < d < until <= |log| && log[d].Deleted? && log[d].push == push
  }

  predicate WorkerOk(log: seq<Event>, p: Worker) {
    HasPush(p) ==>
      && IsPush(log, p.push, p.route.to, p.head.msg.id)
      && log[p.push].msg == p.head.msg && log[p.push].attach == p.head.attach
      && (!p.HeadPushed? ==> DeletedAfter(log, p.push, |log|))
  }

  /** A delete follows its own push; an acknowledgement follows its own push and delete, and has
      its sender, id, kind and file name. */
  predicate EntryOk(log: seq<Event>, j: nat)
    requires j < |log|
  {
    match log[j]
    case Deleted(to, id, push) => push < j && IsPush(log, push, to, id)
    case Acked(sender, _, _, id, attach, fileName, push) =>
      && push < j && log[push].Pushed? && log[push].msg.sender == sender && log[push].msg.id == id
      && log[push].attach == attach && log[push].msg.fileName == fileName
      && DeletedAfter(log, push, j)
    case _ => true
  }

  predicate LogOk(log: seq<Event>) {
    forall j :: 0 <= j < |log| ==> EntryOk(log, j)
  }

  lemma DeletedAfterMonotone(log: seq<Event>, e: Event, push: nat, until: nat)
    requires DeletedAfter(log, push, until)
    ensures DeletedAfter(log + [e], push, until) && DeletedAfter(log + [e], push, |log| + 1)
  {
    var d :| push < d < until <= |log| && log[d].Deleted? && log[d].push == push;
    assert (log + [e])[d] == log[d];
  }

  lemma EntryMonotone(log: seq<Event>, e: Event, j: nat)
    requires j < |log| && EntryOk(log, j)
    ensures EntryOk(log + [e], j)
  {
    if log[j].Acked? {
      DeletedAfterMonotone(log, e, log[j].push, j);
    }
  }

  lemma LogOkAppend(log: seq<Event>, e: Event)
    requires LogOk(log) && EntryOk(log + [e], |log|)
    ensures LogOk(log + [e])
  {
    forall j | 0 <= j < |log + [e]| ensures EntryOk(log + [e], j) {
      if j < |log| { EntryMonotone(log, e, j); }
    }
  }

  lemma WorkerOkMonotone(log: seq<Event>, log': seq<Event>, p: Worker)
    requires WorkerOk(log, p) && (log' == log || exists e :: log' == log + [e])
    ensures WorkerOk(log', p)
  {
    if log' != log && HasPush(p) && !p.HeadPushed? {
      DeletedAfterMonotone(log, log'[|log|], p.push, |log|);
    }
  }

  lemma StepLog(w: World, p: Worker, ok: bool)
    requires WorkerOk(w.log, p) && LogOk(w.log)
    ensures var (w', p') := Step(w, p, ok);
      && (w'.log == w.log || (exists e :: w'.log == w.log + [e]))
      && LogOk(w'.log) && WorkerOk(w'.log, p')
  {
    var (w', p') := Step(w, p, ok);
    if w'.log != w.log {
      var e := w'.log[|w.log|];
      assert w'.log == w.log + [e];
      if p.Acking? {
        DeletedAfterMonotone(w.log, e, p.push, |w.log|);
      }
      LogOkAppend(w.log, e);
      if p.HeadPushed? {
        assert w'.log[|w.log|].push == p.push;
      }
    }
  }

  // ----------------------------------------------- one acknowledgement per push

  predicate Unacked(log: seq<Event>, push: nat) {
    forall j :: 0 <= j < |log| && log[j].Acked? ==> log[j].push != push
  }

  predicate AcksDistinct(log: seq<Event>) {
    forall i, j :: 0 <= i < j < |log| && log[i].Acked? && log[j].Acked? ==> log[i].push != log[j].push
  }

  predicate AckInv(s: System) {
    && LogOk(s.world.log) && AcksDistinct(s.world.log)
    && (forall id :: id in s.workers ==> WorkerOk(s.world.log, s.workers[id]))
    && (forall id :: id in s.workers && HasPush(s.workers[id]) ==> Unacked(s.world.log, s.workers[id].push))
    && (forall a, b :: a in s.workers && b in s.workers && a != b && HasPush(s.workers[a]) && HasPush(s.workers[b])
          ==> s.workers[a].push != s.workers[b].push)
  }

  /** What a step does to the worker's own push. */
  lemma StepPush(w: World, p: Worker, ok: bool)
    ensures var (w', p') := Step(w, p, ok);
      && (HasPush(p') ==> (HasPush(p) && p'.push == p.push) || p'.push == |w.log|)
      && (w'.log != w.log ==>
            |w'.log| == |w.log| + 1 && w.log <= w'.log &&
            (w'.log[|w.log|].Acked? ==> HasPush(p) && w'.log[|w.log|].push == p.push && !HasPush(p')))
  {
  }

  lemma NewPushUnacked(log: seq<Event>)
    requires LogOk(log)
    ensures Unacked(log, |log|)
  {
    forall j | 0 <= j < |log| && log[j].Acked? ensures log[j].push != |log| {
      assert EntryOk(log, j);
    }
  }

  lemma RunKeepsAcks(s: System, id: nat, ok: bool)
    requires id in s.workers && AckInv(s)
    ensures AckInv(Act(s, Run(id, ok)))
  {
    var s', p := Act(s, Run(id, ok)), s.workers[id];
    var log, log', p' := s.world.log, s'.world.log, s'.workers[id];
    StepLog(s.world, p, ok);
    StepPush(s.world, p, ok);
    assert forall k :: k in s'.workers && k != id ==> k in s.workers && s'.workers[k] == s.workers[k];
    hide Step;
    forall k | k in s'.workers ensures WorkerOk(log', s'.workers[k]) {
      if k != id { WorkerOkMonotone(log, log', s.workers[k]); }
    }
    forall k | k in s'.workers && HasPush(s'.workers[k]) ensures Unacked(log', s'.workers[k].push) {
      if k != id || HasPush(p) {
        assert Unacked(log, s.workers[k].push);
      } else {
        NewPushUnacked(log);
      }
    }
  }

  lemma {:induction false} AlwaysAckInv(acts: seq<Action>)
    ensures AckInv(Exec(acts))
  {
    if acts != [] {
      AlwaysAckInv(acts[..|acts| - 1]);
      ActKeepsAcks(Exec(acts[..|acts| - 1]), acts[|acts| - 1]);
    }
  }

  lemma ActKeepsAcks(s: System, a: Action)
    requires AckInv(s)
    ensures AckInv(Act(s, a))
  {
    if a.Run? && a.id in s.workers {
      RunKeepsAcks(s, a.id, a.ok);
    }
  }

  /** Every delete follows a push of the same id to the same receiver, and every
      acknowledgement follows its own push and its own delete. */
  lemma AcksFollowPushAndDelete(acts: seq<Action>, j: nat)
    requires j < |Exec(acts).world.log|
    ensures EntryOk(Exec(acts).world.log, j)
    ensures var log := Exec(acts).world.log;
      log[j].Deleted? ==>
        && log[j].push < j && log[log[j].push].Pushed?
        && log[log[j].push].to == log[j].to && log[log[j].push].msg.id == log[j].id
    ensures var log := Exec(acts).world.log;
      log[j].Acked? ==>
        && log[j].push < j && log[log[j].push].Pushed?
        && log[log[j].push].msg.sender == log[j].sender && log[log[j].push].msg.id == log[j].id
        && log[log[j].push].attach == log[j].attach && log[log[j].push].msg.fileName == log[j].fileName
        && exists d :: log[j].push < d < j && log[d].Deleted? && log[d].push == log[j].push
  {
    AlwaysAckInv(acts);
    hide Exec;
    assert EntryOk(Exec(acts).world.log, j);
  }

  function AcksOf(log: seq<Event>, sender: string, id: nat): set<int> {
    set j | 0 <= j < |log| && log[j].Acked? && log[j].sender == sender && log[j].id == id
  }

  function PushesOf(log: seq<Event>, sender: string, id: nat): set<int> {
    set j | 0 <= j < |log| && log[j].Pushed? && log[j].msg.sender == sender && log[j].msg.id == id
  }

  lemma {:induction false} InjectionBound<T>(a: set<T>, b: set<T>, f: map<T, T>)
    requires a <= f.Keys && forall x :: x in a ==> f[x] in b
    requires forall x, y :: x in a && y in a && x != y ==> f[x] != f[y]
    ensures |a| <= |b|
  {
    if a != {} {
      var x :| x in a;
      InjectionBound(a - {x}, b - {f[x]}, f);
    }
  }

  /** For each sender and id the acknowledgements never outnumber the pushes. */
  lemma AcksNeverOutnumberPushes(acts: seq<Action>, sender: string, id: nat)
    ensures var log := Exec(acts).world.log;
      |set j | 0 <= j < |log| && log[j].Acked? && log[j].sender == sender && log[j].id == id| <=
      |set j | 0 <= j < |log| && log[j].Pushed? && log[j].msg.sender == sender && log[j].msg.id == id|
  {
    AlwaysAckInv(acts);
    var log := Exec(acts).world.log;
    var a, b := AcksOf(log, sender, id), PushesOf(log, sender, id);
    var f: map<int, int> := map j | j in a :: log[j].push;
    forall x | x in a ensures f[x] in b {
      assert EntryOk(log, x);
    }
    InjectionBound(a, b, f);
  }

  // ------------------------------------------- where an accepted message is

  /** In every interleaving an accepted message is with the worker that is about to store it,
      or pending, or its receiver was unregistered since, or a message with its id was pushed
      to the receiver and deleted since. */
  lemma AcceptedIsAccountedFor(acts: seq<Action>, i: nat)
    requires i < |Exec(acts).world.log| && Exec(acts).world.log[i].Accepted?
    ensures var s := Exec(acts);
      var log, to, m := s.world.log, s.world.log[i].to, s.world.log[i].msg;
      || (exists id :: id in s.workers && s.workers[id].Prepared? && s.workers[id].accepted == i &&
            s.workers[id].route.to == to && s.workers[id].parcel.msg == m)
      || (to in s.world.store.boxes && m in s.world.store.boxes[to])
      || (exists j :: i < j < |log| && log[j] == Left(to))
      || (exists j :: i < j < |log| && log[j].Deleted? && log[j].to == to && log[j].id == m.id && log[j].push < j &&
            log[log[j].push].Pushed? && log[log[j].push].to == to && log[log[j].push].msg.id == m.id)
  {
    var s := Exec(acts);
    var log := s.world.log;
    NoMessageVanishes(acts);
    AlwaysAckInv(acts);
    hide Exec;
    if Released(log, i, log[i].to, log[i].msg.id) {
      var j :| i < j < |log| &&
        (log[j] == Left(log[i].to) || (log[j].Deleted? && log[j].to == log[i].to && log[j].id == log[i].msg.id));
      assert EntryOk(log, j);
    } else if !Kept(s.world, i) {
      var id :| id in s.workers && PreparedFor(s.workers[id], log, i);
      assert s.workers[id].Prepared?;
    }
  }
}
