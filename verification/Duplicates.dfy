/** How often a message can be pushed, in every interleaving: as often as it was accepted, and
    once more for every copy that a drain takes over while another worker still has it. */
module Duplicates {
  import opened Mail
  import opened MessageStore
  import opened Protocol
  import opened Safety
  import opened Boundaries
  import A = Acks

  // ------------------------------------------------------ counting copies

  function Count(q: seq<PendingMsg>, m: PendingMsg): nat {
    if q == [] then 0 else (if q[0] == m then 1 else 0) + Count(q[1..], m)
  }

  function CountParcels(ps: seq<Parcel>, m: PendingMsg): nat {
    if ps == [] then 0 else (if ps[0].msg == m then 1 else 0) + CountParcels(ps[1..], m)
  }

  lemma {:induction false} CountOfParcels(q: seq<PendingMsg>, m: PendingMsg)
    ensures CountParcels(Parcels(q), m) == Count(q, m)
  {
    if q != [] {
      CountOfParcels(q[1..], m);
      assert Parcels(q)[1..] == Parcels(q[1..]);
    }
  }

  lemma CountFirst(head: Parcel, rest: seq<Parcel>, m: PendingMsg)
    ensures CountParcels([head] + rest, m) == (if head.msg == m then 1 else 0) + CountParcels(rest, m)
    ensures CountParcels([head], m) == if head.msg == m then 1 else 0
  {
    assert ([head] + rest)[1..] == rest && [head][1..] == [];
  }

  lemma {:induction false} CountAppend(q: seq<PendingMsg>, x: PendingMsg, m: PendingMsg)
    ensures Count(q + [x], m) == Count(q, m) + if x == m then 1 else 0
  {
    if q == [] {
      assert q + [x] == [x];
    } else {
      assert (q + [x])[1..] == q[1..] + [x];
      CountAppend(q[1..], x, m);
    }
  }

  lemma {:induction false} CountWithoutId(q: seq<PendingMsg>, id: nat, m: PendingMsg)
    ensures Count(WithoutId(q, id), m) == if m.id == id then 0 else Count(q, m)
  {
    if q != [] {
      var init, last := q[..|q| - 1], q[|q| - 1];
      CountWithoutId(init, id, m);
      assert q == init + [last];
      CountAppend(init, last, m);
      if last.id != id {
        CountAppend(WithoutId(init, id), last, m);
      } else {
        assert WithoutId(q, id) == WithoutId(init, id);
      }
    }
  }

  lemma {:induction false} CountMember(q: seq<PendingMsg>, m: PendingMsg)
    ensures Count(q, m) > 0 <==> m in q
  {
    if q != [] {
      CountMember(q[1..], m);
      assert q == [q[0]] + q[1..];
    }
  }

  lemma {:induction false} CountSome(ps: seq<Parcel>, m: PendingMsg)
    ensures CountParcels(ps, m) > 0 <==> exists i :: 0 <= i < |ps| && ps[i].msg == m
  {
    if ps != [] {
      CountSome(ps[1..], m);
      if i :| 0 <= i < |ps[1..]| && ps[1..][i].msg == m {
        assert ps[i + 1].msg == m;
      }
      if i :| 0 < i < |ps| && ps[i].msg == m {
        assert ps[1..][i - 1].msg == m;
      }
    }
  }

  // ------------------------------------------------- what the log says of m

  /** How often this event pushes m to r. */
  function PushesIn(e: Event, r: string, m: PendingMsg): nat {
    if e.Pushed? && e.to == r && e.msg == m then 1 else 0
  }

  /** How often this event accepts m for r. */
  function AcceptsIn(e: Event, r: string, m: PendingMsg): nat {
    if e.Accepted? && e.to == r && e.msg == m then 1 else 0
  }

  /** The copies of m in a file drained for r. */
  function DrainedIn(e: Event, r: string, m: PendingMsg): nat {
    if e.Drained? && e.to == r then Count(e.msgs, m) else 0
  }

  function Pushes(log: seq<Event>, r: string, m: PendingMsg): nat {
    if log == [] then 0 else Pushes(log[..|log| - 1], r, m) + PushesIn(log[|log| - 1], r, m)
  }

  function Accepts(log: seq<Event>, r: string, m: PendingMsg): nat {
    if log == [] then 0 else Accepts(log[..|log| - 1], r, m) + AcceptsIn(log[|log| - 1], r, m)
  }

  function DrainedCopies(log: seq<Event>, r: string, m: PendingMsg): nat {
    if log == [] then 0 else DrainedCopies(log[..|log| - 1], r, m) + DrainedIn(log[|log| - 1], r, m)
  }

  lemma LogAppended(log: seq<Event>, e: Event, r: string, m: PendingMsg)
    ensures Pushes(log + [e], r, m) == Pushes(log, r, m) + PushesIn(e, r, m)
    ensures Accepts(log + [e], r, m) == Accepts(log, r, m) + AcceptsIn(e, r, m)
    ensures DrainedCopies(log + [e], r, m) == DrainedCopies(log, r, m) + DrainedIn(e, r, m)
  {
    assert (log + [e])[..|log|] == log;
  }

  lemma {:induction false} PushCounted(log: seq<Event>, j: nat, r: string, m: PendingMsg)
    requires j < |log| && PushesIn(log[j], r, m) > 0
    ensures Pushes(log, r, m) > 0
  {
    if j < |log| - 1 {
      PushCounted(log[..|log| - 1], j, r, m);
    }
  }

  // ------------------------------------------- what the workers have of m

  /** The copies of m that this worker may still push to r without draining a file. */
  function InHand(p: Worker, r: string, m: PendingMsg): nat {
    if To(p) != r then 0
    else
      match p
      case Prepared(_, parcel, _, _) => if parcel.msg == m then 1 else 0
      case HeadPushed(_, _, rest, _) => CountParcels(rest, m)
      case _ => CountParcels(Undeleted(p), m)
  }

  /** The copies of m for r whose delete by this worker is still to come. */
  function Held(p: Worker, r: string, m: PendingMsg): nat {
    if To(p) == r then CountParcels(Undeleted(p), m) else 0
  }

  /** The sum of f over the workers whose number is below n. */
  function Total(workers: map<nat, Worker>, n: nat, f: Worker -> nat): nat {
    if n == 0 then 0
    else Total(workers, n - 1, f) + if n - 1 in workers then f(workers[n - 1]) else 0
  }

  lemma {:induction false} TotalUpdate(workers: map<nat, Worker>, n: nat, id: nat, p: Worker, f: Worker -> nat)
    ensures Total(workers[id := p], n, f) + (if id < n && id in workers then f(workers[id]) else 0)
         == Total(workers, n, f) + (if id < n then f(p) else 0)
  {
    if n > 0 {
      TotalUpdate(workers, n - 1, id, p, f);
    }
  }

  lemma {:induction false} TotalSome(workers: map<nat, Worker>, n: nat, f: Worker -> nat)
    ensures Total(workers, n, f) > 0 <==> exists id :: id < n && id in workers && f(workers[id]) > 0
  {
    if n > 0 {
      TotalSome(workers, n - 1, f);
    }
  }

  lemma {:induction false} TotalAtLeast(workers: map<nat, Worker>, n: nat, f: Worker -> nat, id: nat)
    requires id < n && id in workers
    ensures f(workers[id]) <= Total(workers, n, f)
  {
    if id < n - 1 {
      TotalAtLeast(workers, n - 1, f, id);
    }
  }

  lemma {:induction false} TotalNone(n: nat, f: Worker -> nat)
    ensures Total(map[], n, f) == 0
  {
    if n > 0 {
      TotalNone(n - 1, f);
    }
  }

  function HandOf(r: string, m: PendingMsg): Worker -> nat {
    p => InHand(p, r, m)
  }

  function HeldOf(r: string, m: PendingMsg): Worker -> nat {
    p => Held(p, r, m)
  }

  /** A number above those of all workers in the run. */
  function Bound(acts: seq<Action>): nat {
    if acts == [] then 0
    else
      var b, id := Bound(acts[..|acts| - 1]), acts[|acts| - 1].id;
      if id < b then b else id + 1
  }

  lemma {:induction false} WorkersBelow(acts: seq<Action>)
    ensures forall id :: id in Exec(acts).workers ==> id < Bound(acts)
  {
    if acts != [] {
      WorkersBelow(acts[..|acts| - 1]);
    }
  }

  // ----------------------------------------------------- the balance of a step

  function Excess(box: nat, held: nat): nat {
    if box > held then box - held else 0
  }

  function Least(a: nat, b: nat): nat {
    if a < b then a else b
  }

  /** Copies of m in the file that no worker is about to delete. */
  function Loose(w: World, held: nat, r: string, m: PendingMsg): nat {
    Excess(Count(Box(w.store, r), m), held)
  }

  /** Copies a step takes into hand that some worker, this or another, still holds. */
  function TakenOver(w: World, p: Worker, held: nat, r: string, m: PendingMsg): nat {
    if p.Joining? && p.route.to == r then Least(Count(Box(w.store, r), m), held) else 0
  }

  /** The step's push comes out of the worker's hand; what comes into hand was accepted, or lay
      loose in the file, or is taken over. others is what the other workers hold. */
  predicate Balanced(w: World, p: Worker, w': World, p': Worker, others: nat, r: string, m: PendingMsg) {
    var before := InHand(p, r, m) + Loose(w, others + Held(p, r, m), r, m) + TakenOver(w, p, others + Held(p, r, m), r, m);
    var after := InHand(p', r, m) + Loose(w', others + Held(p', r, m), r, m);
    if w'.log == w.log then after <= before
    else
      && |w'.log| == |w.log| + 1 && w'.log == w.log + [w'.log[|w.log|]]
      && PushesIn(w'.log[|w.log|], r, m) + after <= before + AcceptsIn(w'.log[|w.log|], r, m)
  }

  lemma BalancedIdle(w: World, p: Worker, ok: bool, others: nat, r: string, m: PendingMsg)
    requires p.Start? || p.PushFailed? || p.Leaving? || p.Done?
    ensures var (w', p') := Step(w, p, ok); Balanced(w, p, w', p', others, r, m)
  {
    hide Box, CountParcels;
    IdleFacts(w, p, ok, r, m);
    hide Step;
  }

  lemma IdleFacts(w: World, p: Worker, ok: bool, r: string, m: PendingMsg)
    requires p.Start? || p.PushFailed? || p.Leaving? || p.Done?
    ensures var (w', p') := Step(w, p, ok);
      && (Box(w'.store, r) == Box(w.store, r) || Box(w'.store, r) == [])
      && Held(p, r, m) == Held(p', r, m) == InHand(p, r, m) == 0
      && (if w'.log == w.log then InHand(p', r, m) == 0
          else
            && w'.log == w.log + [w'.log[|w.log|]]
            && InHand(p', r, m) == AcceptsIn(w'.log[|w.log|], r, m) && PushesIn(w'.log[|w.log|], r, m) == 0)
  {
  }

  lemma BalancedStore(w: World, p: Worker, ok: bool, others: nat, r: string, m: PendingMsg)
    requires p.Prepared?
    ensures var (w', p') := Step(w, p, ok); Balanced(w, p, w', p', others, r, m)
  {
    CountFirst(p.parcel, [], m);
    CountAppend(Box(w.store, r), p.parcel.msg, m);
  }

  lemma BalancedDrain(w: World, p: Worker, ok: bool, others: nat, r: string, m: PendingMsg)
    requires p.Joining?
    ensures var (w', p') := Step(w, p, ok); Balanced(w, p, w', p', others, r, m)
  {
    CountOfParcels(Box(w.store, p.route.to), m);
  }

  lemma BalancedPush(w: World, p: Worker, ok: bool, others: nat, r: string, m: PendingMsg)
    requires p.Delivering?
    ensures var (w', p') := Step(w, p, ok); Balanced(w, p, w', p', others, r, m)
  {
    if p.queue != [] {
      CountFirst(p.queue[0], p.queue[1..], m);
      assert p.queue == [p.queue[0]] + p.queue[1..];
    }
  }

  lemma BalancedDelete(w: World, p: Worker, ok: bool, others: nat, r: string, m: PendingMsg)
    requires p.HeadPushed?
    ensures var (w', p') := Step(w, p, ok); Balanced(w, p, w', p', others, r, m)
  {
    CountFirst(p.head, p.rest, m);
    CountWithoutId(Box(w.store, r), p.head.msg.id, m);
  }

  lemma BalancedAck(w: World, p: Worker, ok: bool, others: nat, r: string, m: PendingMsg)
    requires p.HeadDeleted? || p.Acking? || p.AckFailed?
    ensures var (w', p') := Step(w, p, ok); Balanced(w, p, w', p', others, r, m)
  {
  }

  lemma StepBalanced(w: World, p: Worker, ok: bool, others: nat, r: string, m: PendingMsg)
    ensures var (w', p') := Step(w, p, ok); Balanced(w, p, w', p', others, r, m)
  {
    hide *;
    match p
    case Prepared(_, _, _, _) => BalancedStore(w, p, ok, others, r, m);
    case Joining(_) => BalancedDrain(w, p, ok, others, r, m);
    case Delivering(_, _) => BalancedPush(w, p, ok, others, r, m);
    case HeadPushed(_, _, _, _) => BalancedDelete(w, p, ok, others, r, m);
    case HeadDeleted(_, _, _, _) => BalancedAck(w, p, ok, others, r, m);
    case Acking(_, _, _, _, _, _) => BalancedAck(w, p, ok, others, r, m);
    case AckFailed(_, _, _) => BalancedAck(w, p, ok, others, r, m);
    case _ => BalancedIdle(w, p, ok, others, r, m);
  }

  // ------------------------------------------------------ the bound on pushes

  function InHands(s: System, n: nat, r: string, m: PendingMsg): nat {
    Total(s.workers, n, HandOf(r, m))
  }

  function AllHeld(s: System, n: nat, r: string, m: PendingMsg): nat {
    Total(s.workers, n, HeldOf(r, m))
  }

  /** Copies of m for r that this action drains while workers below n hold copies. */
  function OvertakenBy(s: System, a: Action, n: nat, r: string, m: PendingMsg): nat {
    if a.Run? && a.id in s.workers then TakenOver(s.world, s.workers[a.id], AllHeld(s, n, r, m), r, m) else 0
  }

  /** Copies of m for r drained in the run while some worker held copies. */
  function Overtaken(acts: seq<Action>, n: nat, r: string, m: PendingMsg): nat {
    if acts == [] then 0
    else
      var before := acts[..|acts| - 1];
      Overtaken(before, n, r, m) + OvertakenBy(Exec(before), acts[|acts| - 1], n, r, m)
  }

  function Spread(s: System, n: nat, r: string, m: PendingMsg): nat {
    Pushes(s.world.log, r, m) + InHands(s, n, r, m) + Loose(s.world, AllHeld(s, n, r, m), r, m)
  }

  lemma RunBalance(s: System, id: nat, ok: bool, n: nat, r: string, m: PendingMsg)
    requires id in s.workers && id < n
    ensures var s' := Act(s, Run(id, ok));
      Spread(s', n, r, m) + Accepts(s.world.log, r, m) <=
      Spread(s, n, r, m) + Accepts(s'.world.log, r, m) + OvertakenBy(s, Run(id, ok), n, r, m)
  {
    var p := s.workers[id];
    var (w', p') := Step(s.world, p, ok);
    hide Step, InHand, Held, Total, Pushes, Accepts, Loose, TakenOver;
    TotalUpdate(s.workers, n, id, p', HandOf(r, m));
    TotalUpdate(s.workers, n, id, p', HeldOf(r, m));
    TotalAtLeast(s.workers, n, HeldOf(r, m), id);
    StepBalanced(s.world, p, ok, AllHeld(s, n, r, m) - Held(p, r, m), r, m);
    if w'.log != s.world.log {
      LogAppended(s.world.log, w'.log[|s.world.log|], r, m);
    }
  }

  lemma ArriveBalance(s: System, id: nat, task: Task, n: nat, r: string, m: PendingMsg)
    requires id !in s.workers
    ensures Spread(Act(s, Arrive(id, task)), n, r, m) == Spread(s, n, r, m)
  {
    TotalUpdate(s.workers, n, id, Start(task), HandOf(r, m));
    TotalUpdate(s.workers, n, id, Start(task), HeldOf(r, m));
  }

  /** In every interleaving: pushes of m to r, copies in hand and copies loose in the file never
      exceed the acceptances of m for r by more than the copies overtaken. */
  lemma {:induction false} CopiesAreBounded(acts: seq<Action>, n: nat, r: string, m: PendingMsg)
    requires Bound(acts) <= n
    ensures Spread(Exec(acts), n, r, m) <= Accepts(Exec(acts).world.log, r, m) + Overtaken(acts, n, r, m)
  {
    if acts == [] {
      TotalNone(n, HandOf(r, m));
    } else {
      var before, a := acts[..|acts| - 1], acts[|acts| - 1];
      CopiesAreBounded(before, n, r, m);
      var s := Exec(before);
      hide Spread, Accepts, Step, OvertakenBy;
      match a
      case Arrive(id, task) =>
        if id !in s.workers { ArriveBalance(s, id, task, n, r, m); }
      case Run(id, ok) =>
        if id in s.workers { RunBalance(s, id, ok, n, r, m); }
    }
  }

  lemma RunDrains(s: System, id: nat, ok: bool, n: nat, r: string, m: PendingMsg)
    requires id in s.workers
    ensures var s' := Act(s, Run(id, ok));
      DrainedCopies(s.world.log, r, m) + OvertakenBy(s, Run(id, ok), n, r, m) <= DrainedCopies(s'.world.log, r, m)
  {
    var log, log' := s.world.log, Act(s, Run(id, ok)).world.log;
    if log' != log {
      LogAppended(log, log'[|log|], r, m);
    }
  }

  lemma {:induction false} OvertakenWereDrained(acts: seq<Action>, n: nat, r: string, m: PendingMsg)
    ensures Overtaken(acts, n, r, m) <= DrainedCopies(Exec(acts).world.log, r, m)
  {
    if acts != [] {
      var before, a := acts[..|acts| - 1], acts[|acts| - 1];
      OvertakenWereDrained(before, n, r, m);
      hide OvertakenBy, DrainedCopies, Step;
      if a.Run? && a.id in Exec(before).workers {
        RunDrains(Exec(before), a.id, a.ok, n, r, m);
      } else {
        NothingOvertaken(Exec(before), a, n, r, m);
      }
    }
  }

  lemma NothingOvertaken(s: System, a: Action, n: nat, r: string, m: PendingMsg)
    requires !(a.Run? && a.id in s.workers)
    ensures OvertakenBy(s, a, n, r, m) == 0
  {
  }

  /** In every interleaving a message is pushed to a receiver no more often than it was accepted
      for it plus its copies in the files drained for it. */
  lemma {:induction false} PushesAreBounded(acts: seq<Action>, r: string, m: PendingMsg)
    ensures var log := Exec(acts).world.log;
      Pushes(log, r, m) <= Accepts(log, r, m) + DrainedCopies(log, r, m)
  {
    CopiesAreBounded(acts, Bound(acts), r, m);
    OvertakenWereDrained(acts, Bound(acts), r, m);
  }

  // ------------------------------------------------------- overtaking drains

  /** This worker has a copy of m for r whose delete is still to come. */
  predicate Holds(p: Worker, r: string, m: PendingMsg) {
    To(p) == r && exists i :: 0 <= i < |Undeleted(p)| && Undeleted(p)[i].msg == m
  }

  /** The next action drains m for r while some worker still has a copy it has not deleted. */
  predicate Overtakes(s: System, a: Action, r: string, m: PendingMsg) {
    && a.Run? && a.id in s.workers && s.workers[a.id].Joining? && s.workers[a.id].route.to == r
    && m in Box(s.world.store, r)
    && exists id :: id in s.workers && Holds(s.workers[id], r, m)
  }

  predicate NeverOvertaken(acts: seq<Action>, r: string, m: PendingMsg) {
    forall k :: 0 <= k < |acts| ==> !Overtakes(Exec(acts[..k]), acts[k], r, m)
  }

  lemma OvertakesExactly(s: System, a: Action, n: nat, r: string, m: PendingMsg)
    requires forall id :: id in s.workers ==> id < n
    ensures Overtakes(s, a, r, m) <==> OvertakenBy(s, a, n, r, m) > 0
  {
    CountMember(Box(s.world.store, r), m);
    TotalSome(s.workers, n, HeldOf(r, m));
    forall id | id in s.workers ensures HeldOf(r, m)(s.workers[id]) > 0 <==> Holds(s.workers[id], r, m) {
      CountSome(Undeleted(s.workers[id]), m);
    }
  }

  lemma {:induction false} NothingTakenOver(acts: seq<Action>, n: nat, r: string, m: PendingMsg)
    requires Bound(acts) <= n && NeverOvertaken(acts, r, m)
    ensures Overtaken(acts, n, r, m) == 0
  {
    if acts != [] {
      var before, a := acts[..|acts| - 1], acts[|acts| - 1];
      Prefixes(acts);
      WorkersBelow(before);
      hide Overtakes, OvertakenBy, Exec;
      assert forall k :: 0 <= k < |before| ==> !Overtakes(Exec(before[..k]), before[k], r, m);
      NothingTakenOver(before, n, r, m);
      OvertakesExactly(Exec(before), a, n, r, m);
    }
  }

  /** However handlers overlap: without an overtaking drain of m for r, pushes, copies in hand and
      copies loose in the file never exceed the acceptances. */
  lemma {:induction false} PushedAsOftenAsAccepted(acts: seq<Action>, n: nat, r: string, m: PendingMsg)
    requires Bound(acts) <= n && NeverOvertaken(acts, r, m)
    ensures Spread(Exec(acts), n, r, m) <= Accepts(Exec(acts).world.log, r, m)
    ensures Pushes(Exec(acts).world.log, r, m) <= Accepts(Exec(acts).world.log, r, m)
  {
    CopiesAreBounded(acts, n, r, m);
    NothingTakenOver(acts, n, r, m);
  }

  // ---------------------------------------------------------- at most once

  /** Copies of m pushed to r or about to be. */
  function Out(s: System, n: nat, r: string, m: PendingMsg): nat {
    Pushes(s.world.log, r, m) + InHands(s, n, r, m)
  }

  /** Who holds a copy has pushed it or will. */
  lemma HeldIsOut(s: System, id: nat, n: nat, r: string, m: PendingMsg)
    requires A.AckInv(s) && id in s.workers && id < n && Holds(s.workers[id], r, m)
    ensures Out(s, n, r, m) > 0
  {
    var p := s.workers[id];
    CountSome(Undeleted(p), m);
    TotalAtLeast(s.workers, n, HandOf(r, m), id);
    if p.HeadPushed? {
      CountFirst(p.head, p.rest, m);
      if p.head.msg == m {
        assert A.WorkerOk(s.world.log, p);
        PushCounted(s.world.log, p.push, r, m);
      }
    }
  }

  /** An overtaking drain brings a second copy into hand. */
  lemma OvertakingDoubles(acts: seq<Action>, a: Action, n: nat, r: string, m: PendingMsg)
    requires Bound(acts) <= n && Overtakes(Exec(acts), a, r, m)
    ensures Out(Act(Exec(acts), a), n, r, m) >= 2
  {
    var s := Exec(acts);
    A.AlwaysAckInv(acts);
    WorkersBelow(acts);
    var id :| id in s.workers && Holds(s.workers[id], r, m);
    HeldIsOut(s, id, n, r, m);
    DrainTakes(s, a.id, a.ok, n, r, m);
  }

  lemma DrainTakes(s: System, id: nat, ok: bool, n: nat, r: string, m: PendingMsg)
    requires id in s.workers && id < n && s.workers[id].Joining? && s.workers[id].route.to == r
    requires m in Box(s.world.store, r)
    ensures Out(Act(s, Run(id, ok)), n, r, m) > Out(s, n, r, m)
  {
    hide Total, InHand, Pushes;
    var q := Box(s.world.store, r);
    var p' := Step(s.world, s.workers[id], ok).1;
    DrainInHand(s.world, s.workers[id], ok, r, m);
    TotalUpdate(s.workers, n, id, p', HandOf(r, m));
    LogAppended(s.world.log, Drained(r, q), r, m);
  }

  lemma DrainInHand(w: World, p: Worker, ok: bool, r: string, m: PendingMsg)
    requires p.Joining? && p.route.to == r && m in Box(w.store, r)
    ensures InHand(p, r, m) == 0 && InHand(Step(w, p, ok).1, r, m) > 0
  {
    CountOfParcels(Box(w.store, r), m);
    CountMember(Box(w.store, r), m);
  }

  lemma AcceptsGrow(acts: seq<Action>, r: string, m: PendingMsg)
    requires acts != []
    ensures Accepts(Exec(acts[..|acts| - 1]).world.log, r, m) <= Accepts(Exec(acts).world.log, r, m)
  {
    var log, log' := Exec(acts[..|acts| - 1]).world.log, Exec(acts).world.log;
    if log' != log {
      LogAppended(log, log'[|log|], r, m);
    }
  }

  /** Throughout the run at most one copy of m was pushed to r or is about to be. */
  predicate AtMostOnce(acts: seq<Action>, n: nat, r: string, m: PendingMsg) {
    forall k :: 0 <= k <= |acts| ==> Out(Exec(acts[..k]), n, r, m) <= 1
  }

  /** A message accepted once is pushed or about to be pushed at most once, throughout, if and
      only if no step of the run is an overtaking drain of it. */
  lemma {:induction false} AtMostOnceExactly(acts: seq<Action>, n: nat, r: string, m: PendingMsg)
    requires Bound(acts) <= n && Accepts(Exec(acts).world.log, r, m) <= 1
    ensures AtMostOnce(acts, n, r, m) <==> NeverOvertaken(acts, r, m)
  {
    hide Exec, Out, Overtakes, Accepts, Act, Bound;
    if acts == [] {
      PushedAsOftenAsAccepted(acts, n, r, m);
      OutWithinSpread(acts, n, r, m);
      assert acts[..0] == [];
    } else {
      var before, a := acts[..|acts| - 1], acts[|acts| - 1];
      Prefixes(acts);
      LastAct(acts);
      AcceptsGrow(acts, r, m);
      BoundGrows(acts);
      AtMostOnceExactly(before, n, r, m);
      assert NeverOvertaken(acts, r, m) <==> NeverOvertaken(before, r, m) && !Overtakes(Exec(before), a, r, m);
      assert AtMostOnce(acts, n, r, m) <==> AtMostOnce(before, n, r, m) && Out(Exec(acts), n, r, m) <= 1;
      if NeverOvertaken(acts, r, m) {
        PushedAsOftenAsAccepted(acts, n, r, m);
        OutWithinSpread(acts, n, r, m);
      } else if Overtakes(Exec(before), a, r, m) {
        OvertakingDoubles(before, a, n, r, m);
      }
    }
  }

  lemma OutWithinSpread(acts: seq<Action>, n: nat, r: string, m: PendingMsg)
    ensures Out(Exec(acts), n, r, m) <= Spread(Exec(acts), n, r, m)
  {
  }

  lemma BoundGrows(acts: seq<Action>)
    requires acts != []
    ensures Bound(acts[..|acts| - 1]) <= Bound(acts)
  {
  }
}
