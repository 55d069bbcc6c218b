/** For arbitrary interleavings: exactly which store steps leave a message for nobody or out of
    reach of an online receiver, and how often a message can be pushed. */
module Boundaries {
  import opened Mail
  import opened MessageStore
  import opened Protocol
  import opened Safety
  import opened Solo

  // -------------------------------------- pending for registered users only

  predicate OnlyRegistered(w: World) {
    forall r :: r in w.store.boxes && w.store.boxes[r] != [] ==> r in w.store.users
  }

  /** The next action stores a message whose receiver is not registered at that moment. */
  predicate StoresForNobody(s: System, a: Action) {
    a.Run? && a.id in s.workers && s.workers[a.id].Prepared? && s.workers[a.id].route.to !in s.world.store.users
  }

  lemma StepOnlyRegistered(s: System, a: Action)
    requires OnlyRegistered(s.world)
    ensures OnlyRegistered(Act(s, a).world) <==> !StoresForNobody(s, a)
  {
    if a.Run? && a.id in s.workers && s.workers[a.id].Prepared? {
      var p := s.workers[a.id];
      var boxes := Act(s, a).world.store.boxes;
      assert p.route.to in boxes && boxes[p.route.to] != [];
    }
  }

  /** Throughout a run messages are pending for registered users only if and only if no store
      step of the run finds its receiver unregistered. */
  lemma {:induction false} OnlyRegisteredExactly(acts: seq<Action>)
    ensures (forall k :: 0 <= k <= |acts| ==> OnlyRegistered(Exec(acts[..k]).world)) <==>
            (forall k :: 0 <= k < |acts| ==> !StoresForNobody(Exec(acts[..k]), acts[k]))
  {
    hide *;
    if acts == [] {
      assert acts[..0] == [];
      NothingPending();
    } else {
      var before, a := acts[..|acts| - 1], acts[|acts| - 1];
      OnlyRegisteredExactly(before);
      Prefixes(acts);
      LastAct(acts);
      if OnlyRegistered(Exec(before).world) {
        StepOnlyRegistered(Exec(before), a);
      }
    }
  }

  /** If every store step of the run finds its receiver registered, then in the end messages are
      pending for registered users only. */
  lemma {:induction false} PendingForRegistered(acts: seq<Action>, r: string)
    requires forall k :: 0 <= k < |acts| && acts[k].Run? ==>
      var s := Exec(acts[..k]);
      acts[k].id in s.workers && s.workers[acts[k].id].Prepared? ==> s.workers[acts[k].id].route.to in s.world.store.users
    ensures var st := Exec(acts).world.store;
      r in st.boxes && st.boxes[r] != [] ==> r in st.users
  {
    OnlyRegisteredExactly(acts);
    assert acts[..|acts|] == acts;
    hide Exec;
    assert forall k :: 0 <= k < |acts| ==> !StoresForNobody(Exec(acts[..k]), acts[k]);
    assert OnlyRegistered(Exec(acts[..|acts|]).world);
  }

  lemma LastAct(acts: seq<Action>)
    requires acts != []
    ensures Exec(acts) == Act(Exec(acts[..|acts| - 1]), acts[|acts| - 1])
  {
  }

  lemma Prefixes(acts: seq<Action>)
    requires acts != []
    ensures var before := acts[..|acts| - 1];
      && acts[..|acts|] == acts && acts[..|before|] == before[..|before|] == before
      && (forall k :: 0 <= k <= |before| ==> acts[..k] == before[..k])
      && (forall k :: 0 <= k < |before| ==> acts[k] == before[k])
  {
  }

  // ------------------------------------ pending although the user is online

  /** The parcels whose delete is still to come. */
  function Undeleted(p: Worker): seq<Parcel> {
    match p
    case Delivering(_, queue) => queue
    case HeadPushed(_, head, rest, _) => [head] + rest
    case HeadDeleted(_, _, rest, _) => rest
    case Acking(_, _, rest, _, _, _) => rest
    case AckFailed(_, _, rest) => rest
    case _ => []
  }

  /** This worker will still drain the receiver, deliver this message to it, or mark it offline. */
  predicate Covers(p: Worker, r: string, m: PendingMsg) {
    To(p) == r &&
    (p.Joining? || p.PushFailed? || exists i :: 0 <= i < |Undeleted(p)| && Undeleted(p)[i].msg == m)
  }

  predicate Covered(workers: map<nat, Worker>, r: string, m: PendingMsg) {
    exists id :: id in workers && Covers(workers[id], r, m)
  }

  predicate NoneStranded(s: System) {
    forall r :: r in s.world.store.boxes && Online(s.world.store, r) ==>
      forall i :: 0 <= i < |s.world.store.boxes[r]| ==> Covered(s.workers, r, s.world.store.boxes[r][i])
  }

  /** The next action stores a message for a receiver that is online by now, by a worker that
      saw it offline, while no other worker will take care of the message. */
  predicate Strands(s: System, a: Action) {
    a.Run? && a.id in s.workers && s.workers[a.id].Prepared? && !s.workers[a.id].online &&
    Online(s.world.store, s.workers[a.id].route.to) &&
    !Covered(s.workers, s.workers[a.id].route.to, s.workers[a.id].parcel.msg)
  }

  /** What a worker covers it goes on covering until the message is deleted or the receiver is
      offline. */
  lemma StepCovers(w: World, p: Worker, ok: bool, r: string, m: PendingMsg)
    requires Covers(p, r, m)
    ensures var (w', p') := Step(w, p, ok);
      m in Box(w.store, r) && m in Box(w'.store, r) && Online(w'.store, r) ==> Covers(p', r, m)
  {
    var (w', p') := Step(w, p, ok);
    if p.Joining? {
      if m in Box(w.store, r) {
        var i :| 0 <= i < |Box(w.store, r)| && Box(w.store, r)[i] == m;
        assert Undeleted(p')[i].msg == m;
      }
    } else if !p.PushFailed? {
      var i :| 0 <= i < |Undeleted(p)| && Undeleted(p)[i].msg == m;
      UndeletedShift(w, p, ok, r, m, i);
    }
  }

  lemma UndeletedShift(w: World, p: Worker, ok: bool, r: string, m: PendingMsg, i: nat)
    requires i < |Undeleted(p)| && Undeleted(p)[i].msg == m && To(p) == r
    ensures var (w', p') := Step(w, p, ok);
      m in Box(w'.store, r) ==> Covers(p', r, m)
  {
    var (w', p') := Step(w, p, ok);
    if p.HeadPushed? {
      if m in Box(w'.store, r) {
        WithoutIdMembers(w.store.boxes[r], p.head.msg.id, m);
        assert i > 0 && Undeleted(p')[i - 1].msg == m;
      }
    } else {
      assert p'.PushFailed? || Undeleted(p')[i].msg == m;
    }
  }

  /** Where a pending message of an online user comes from. */
  lemma StepPending(w: World, p: Worker, ok: bool, r: string, m: PendingMsg)
    ensures var (w', p') := Step(w, p, ok);
      m in Box(w'.store, r) && Online(w'.store, r) ==>
        || (m in Box(w.store, r) && Online(w.store, r))
        || Covers(p', r, m)
        || (p.Prepared? && p.route.to == r && p.parcel.msg == m && !p.online && Online(w.store, r))
  {
    var (w', p') := Step(w, p, ok);
    match p
    case Prepared(route, parcel, online, _) =>
      if online && route.to == r && parcel.msg == m {
        assert Undeleted(p')[0].msg == m;
      }
    case HeadPushed(route, head, _, _) =>
      if route.to in w.store.boxes {
        WithoutIdMembers(w.store.boxes[route.to], head.msg.id, m);
      }
    case _ =>
  }

  lemma KeepsCovered(s: System, id: nat, ok: bool, r: string, m: PendingMsg)
    requires id in s.workers && Covered(s.workers, r, m)
    requires m in Box(s.world.store, r)
    ensures var s' := Act(s, Run(id, ok));
      m in Box(s'.world.store, r) && Online(s'.world.store, r) ==> Covered(s'.workers, r, m)
  {
    var s' := Act(s, Run(id, ok));
    hide Step, Covers;
    var k :| k in s.workers && Covers(s.workers[k], r, m);
    if k == id {
      StepCovers(s.world, s.workers[id], ok, r, m);
      assert s'.workers[id] == Step(s.world, s.workers[id], ok).1;
    } else {
      assert k in s'.workers && Covers(s'.workers[k], r, m);
    }
  }

  /** A store step that does not strand its message leaves it covered. */
  lemma StoredCovered(s: System, id: nat, ok: bool)
    requires id in s.workers && s.workers[id].Prepared? && !s.workers[id].online
    ensures var s' := Act(s, Run(id, ok));
      var r, m := s.workers[id].route.to, s.workers[id].parcel.msg;
      Covered(s'.workers, r, m) <==> Covered(s.workers, r, m)
  {
    var s' := Act(s, Run(id, ok));
    var r, m := s.workers[id].route.to, s.workers[id].parcel.msg;
    assert !Covers(s.workers[id], r, m) && !Covers(s'.workers[id], r, m);
    assert forall k :: k != id ==> (k in s.workers <==> k in s'.workers);
    assert forall k :: k in s.workers && k != id ==> s'.workers[k] == s.workers[k];
  }

  lemma RunKeepsNoneStranded(s: System, id: nat, ok: bool)
    requires id in s.workers && NoneStranded(s)
    requires !Strands(s, Run(id, ok))
    ensures NoneStranded(Act(s, Run(id, ok)))
  {
    var s', p := Act(s, Run(id, ok)), s.workers[id];
    var store, store' := s.world.store, s'.world.store;
    hide Step, Covers;
    forall r | r in store'.boxes && Online(store', r)
      ensures forall i :: 0 <= i < |store'.boxes[r]| ==> Covered(s'.workers, r, store'.boxes[r][i])
    {
      forall i | 0 <= i < |store'.boxes[r]| ensures Covered(s'.workers, r, store'.boxes[r][i]) {
        var m := store'.boxes[r][i];
        assert m in Box(store', r);
        StepPending(s.world, p, ok, r, m);
        if m in Box(store, r) && Online(store, r) {
          KeepsCovered(s, id, ok, r, m);
        } else if Covers(s'.workers[id], r, m) {
        } else {
          StoredCovered(s, id, ok);
        }
      }
    }
  }

  lemma StrandedStays(s: System, id: nat, ok: bool)
    requires Strands(s, Run(id, ok))
    ensures !NoneStranded(Act(s, Run(id, ok)))
  {
    var s', p := Act(s, Run(id, ok)), s.workers[id];
    StoredCovered(s, id, ok);
    var r := p.route.to;
    var q := Box(s.world.store, r);
    assert s'.world.store.boxes[r] == q + [p.parcel.msg];
    assert s'.world.store.boxes[r][|q|] == p.parcel.msg;
  }

  lemma ActNoneStranded(s: System, a: Action)
    requires NoneStranded(s)
    ensures NoneStranded(Act(s, a)) <==> !Strands(s, a)
  {
    match a
    case Arrive(id, task) =>
      if id !in s.workers {
        var s' := Act(s, a);
        forall r, m | Covered(s.workers, r, m) ensures Covered(s'.workers, r, m) {
          var k :| k in s.workers && Covers(s.workers[k], r, m);
          assert k in s'.workers && s'.workers[k] == s.workers[k];
        }
      }
    case Run(id, ok) =>
      if id in s.workers {
        if Strands(s, a) {
          StrandedStays(s, id, ok);
        } else {
          RunKeepsNoneStranded(s, id, ok);
        }
      }
  }

  lemma NothingPending()
    ensures OnlyRegistered(Exec([]).world) && NoneStranded(Exec([]))
  {
  }

  /** Throughout a run every pending message of an online user is in the hands of a worker if
      and only if no store step of the run strands its message. */
  lemma {:induction false} NoneStrandedExactly(acts: seq<Action>)
    ensures (forall k :: 0 <= k <= |acts| ==> NoneStranded(Exec(acts[..k]))) <==>
            (forall k :: 0 <= k < |acts| ==> !Strands(Exec(acts[..k]), acts[k]))
  {
    hide *;
    if acts == [] {
      assert acts[..0] == [];
      NothingPending();
    } else {
      var before, a := acts[..|acts| - 1], acts[|acts| - 1];
      NoneStrandedExactly(before);
      Prefixes(acts);
      LastAct(acts);
      if NoneStranded(Exec(before)) {
        ActNoneStranded(Exec(before), a);
      }
    }
  }

  /** Without a stranding store step, however handlers overlap: when all of them have finished,
      no online user has a message pending. */
  lemma {:induction false} FinishedMeansDelivered(acts: seq<Action>, r: string)
    requires forall k :: 0 <= k < |acts| ==> !Strands(Exec(acts[..k]), acts[k])
    requires Idle(Exec(acts)) && Online(Exec(acts).world.store, r)
    ensures Box(Exec(acts).world.store, r) == []
  {
    NoneStrandedExactly(acts);
    assert acts[..|acts|] == acts;
    hide Exec;
    var s := Exec(acts);
    var q := Box(s.world.store, r);
    assert NoneStranded(s);
    assert q != [] ==> Covered(s.workers, r, q[0]);
    IdleCoversNothing(s);
  }

  lemma IdleCoversNothing(s: System)
    requires Idle(s)
    ensures forall r, m :: !Covered(s.workers, r, m)
  {
  }
}
