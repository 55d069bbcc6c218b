/** The hand-over of an accepted descriptor from the main thread to a new worker through
    sd_global and sd_copiado, under mutex_sd and cond_sd. */
module Handoff {

  /** An accepted connection: its number in the order of accepts, and its descriptor, which
      the system may reuse once closed. */
  datatype Conn = Conn(number: nat, fd: int)

  datatype Main =
    | AtAccept
    | AtLock(c: Conn)
    | AtPublish(c: Conn)
    | AtCreate(c: Conn)
    | AtTest(c: Conn)
    | Waiting(c: Conn)
    | Woken(c: Conn)

  datatype Work =
    | WLock
    | WCopy
    | WSet(got: Conn)
    | WSignal(got: Conn)
    | WUnlock(got: Conn)
    | Serving(got: Conn)

  datatype Owner = Free | ByMain | ByWorker(h: nat)

  /** accepted holds the descriptor of every accept; workers are keyed by the number of the
      connection they were created for, which they do not know. */
  datatype State = State(main: Main, mutex: Owner, sdGlobal: Conn, sdCopiado: bool,
                         workers: map<nat, Work>, accepted: seq<int>)

  datatype Action =
    | Accept(fd: int)          // accept returns a descriptor (a failed accept changes nothing)
    | MainStep(createOk: bool) // the main thread's next step; pthread_create may fail
    | Spurious                 // pthread_cond_wait returns without a signal
    | WorkerStep(h: nat)

  predicate Enabled(s: State, a: Action) {
    match a
    case Accept(_) => s.main.AtAccept?
    case MainStep(_) =>
      (match s.main
       case AtAccept => false
       case Waiting(_) => false
       case AtLock(_) => s.mutex.Free?
       case Woken(_) => s.mutex.Free?
       case _ => true)
    case Spurious => s.main.Waiting?
    case WorkerStep(h) => h in s.workers && !s.workers[h].Serving? && (s.workers[h].WLock? ==> s.mutex.Free?)
  }

  function Act(s: State, a: Action): State {
    if !Enabled(s, a) then s
    else
      match a
      case Accept(fd) => s.(main := AtLock(Conn(|s.accepted|, fd)), accepted := s.accepted + [fd])
      case Spurious => s.(main := Woken(s.main.c))
      case MainStep(createOk) =>
        (match s.main
         case AtLock(c) => s.(main := AtPublish(c), mutex := ByMain)
         case AtPublish(c) => s.(main := AtCreate(c), sdCopiado := false, sdGlobal := c)
         case AtCreate(c) =>
           if createOk then s.(main := AtTest(c), workers := s.workers[c.number := WLock])
           else s.(main := AtAccept, mutex := Free)
         case AtTest(c) => s.(main := if s.sdCopiado then AtAccept else Waiting(c), mutex := Free)
         case Woken(c) => s.(main := AtTest(c), mutex := ByMain)
         case _ => s)
      case WorkerStep(h) =>
        (match s.workers[h]
         case WLock => s.(workers := s.workers[h := WCopy], mutex := ByWorker(h))
         case WCopy => s.(workers := s.workers[h := WSet(s.sdGlobal)])
         case WSet(got) => s.(workers := s.workers[h := WSignal(got)], sdCopiado := true)
         case WSignal(got) =>
           s.(workers := s.workers[h := WUnlock(got)], main := if s.main.Waiting? then Woken(s.main.c) else s.main)
         case WUnlock(got) => s.(workers := s.workers[h := Serving(got)], mutex := Free)
         case Serving(_) => s)
  }

  function Exec(first: Conn, acts: seq<Action>): State {
    if acts == [] then State(AtAccept, Free, first, false, map[], [])
    else Act(Exec(first, acts[..|acts| - 1]), acts[|acts| - 1])
  }

  // -------------------------------------------------------------- invariant

  /** The main thread has created a worker and not yet seen its flag. */
  predicate Handing(m: Main) {
    m.AtTest? || m.Waiting? || m.Woken?
  }

  predicate HoldsMutex(w: Work) {
    !w.WLock? && !w.Serving?
  }

  predicate FlagSet(w: Work) {
    w.WSignal? || w.WUnlock? || w.Serving?
  }

  predicate GotOwn(s: State, h: nat, w: Work) {
    w.WLock? || w.WCopy? || (h < |s.accepted| && w.got == Conn(h, s.accepted[h]))
  }

  predicate MainOk(s: State) {
    && (s.mutex == ByMain <==> s.main.AtPublish? || s.main.AtCreate? || s.main.AtTest?)
    && (!s.main.AtAccept? ==> s.main.c.number == |s.accepted| - 1 && s.main.c.fd == s.accepted[|s.accepted| - 1])
    && (s.main.AtCreate? ==> s.sdGlobal == s.main.c && !s.sdCopiado)
    && (Handing(s.main) ==>
          && s.sdGlobal == s.main.c && s.main.c.number in s.workers
          && var w := s.workers[s.main.c.number];
             (s.sdCopiado <==> FlagSet(w)) && (s.main.Waiting? ==> !w.WUnlock? && !w.Serving?))
  }

  predicate WorkerOk(s: State, h: nat)
    requires h in s.workers
  {
    var w := s.workers[h];
    && h < |s.accepted| && GotOwn(s, h, w)
    && (w.Serving? || (Handing(s.main) && s.main.c.number == h))
    && (s.mutex == ByWorker(h) <==> HoldsMutex(w))
    && ((s.main.AtLock? || s.main.AtPublish? || s.main.AtCreate?) ==> h < |s.accepted| - 1)
  }

  predicate Inv(s: State) {
    && MainOk(s)
    && (forall h :: h in s.workers ==> WorkerOk(s, h))
    && (s.mutex.ByWorker? ==> s.mutex.h in s.workers)
  }

  lemma ActKeepsMainOk(s: State, a: Action)
    requires Inv(s)
    ensures MainOk(Act(s, a))
  {
    if Handing(s.main) { assert WorkerOk(s, s.main.c.number); }
    if a.WorkerStep? && a.h in s.workers { assert WorkerOk(s, a.h); }
  }

  lemma ActKeepsWorkerOk(s: State, a: Action, h: nat)
    requires Inv(s) && h in Act(s, a).workers
    ensures WorkerOk(Act(s, a), h)
  {
    if h in s.workers { assert WorkerOk(s, h); }
    if a.WorkerStep? && a.h in s.workers { assert WorkerOk(s, a.h); }
    if Handing(s.main) { assert WorkerOk(s, s.main.c.number); }
  }

  lemma ActKeepsOwner(s: State, a: Action)
    requires Inv(s)
    ensures Act(s, a).mutex.ByWorker? ==> Act(s, a).mutex.h in Act(s, a).workers
  {
  }

  lemma ActKeepsInv(s: State, a: Action)
    requires Inv(s)
    ensures Inv(Act(s, a))
  {
    ActKeepsMainOk(s, a);
    ActKeepsOwner(s, a);
    hide Act, MainOk, WorkerOk;
    forall h | h in Act(s, a).workers ensures WorkerOk(Act(s, a), h) {
      ActKeepsWorkerOk(s, a, h);
    }
  }

  lemma {:induction false} AlwaysInv(first: Conn, acts: seq<Action>)
    ensures Inv(Exec(first, acts))
  {
    if acts != [] {
      AlwaysInv(first, acts[..|acts| - 1]);
      ActKeepsInv(Exec(first, acts[..|acts| - 1]), acts[|acts| - 1]);
    }
  }

  // ----------------------------------------------------------- consequences

  /** At most one created worker has not copied the descriptor yet; every copy is the
      descriptor accepted for that very worker, so no two workers serve one connection. */
  lemma EveryWorkerGetsItsOwn(first: Conn, acts: seq<Action>, a: nat, b: nat)
    ensures var s := Exec(first, acts);
      && (a in s.workers && b in s.workers && (s.workers[a].WLock? || s.workers[a].WCopy?) ==>
            s.workers[b].WLock? || s.workers[b].WCopy? ==> a == b)
      && (a in s.workers && !s.workers[a].WLock? && !s.workers[a].WCopy? ==>
            a < |s.accepted| && s.workers[a].got == Conn(a, s.accepted[a]))
  {
    var s := Exec(first, acts);
    AlwaysInv(first, acts);
    if a in s.workers { assert WorkerOk(s, a); }
    if b in s.workers { assert WorkerOk(s, b); }
  }

  /** No lost wake-up: while the main thread waits, the worker it waits for has yet to signal,
      and unless that worker has set the flag it is still clear. */
  lemma WaitingForASignal(first: Conn, acts: seq<Action>)
    requires Exec(first, acts).main.Waiting?
    ensures var s := Exec(first, acts);
      && s.main.c.number in s.workers
      && var w := s.workers[s.main.c.number];
         (w.WLock? || w.WCopy? || w.WSet? || w.WSignal?) && (s.sdCopiado <==> w.WSignal?)
  {
    AlwaysInv(first, acts);
  }

  /** What each step does: accept records the descriptor, publishing clears the flag and puts the
      connection in the shared variable, creating makes its worker or gives the connection up,
      testing waits or goes back to accept, and waiting gives the mutex up. */
  lemma MainSteps(s: State, fd: int, ok: bool)
    ensures s.main.AtAccept? ==>
      var s' := Act(s, Accept(fd)); s'.accepted == s.accepted + [fd] && s'.main == AtLock(Conn(|s.accepted|, fd))
    ensures s.main.AtLock? && s.mutex.Free? ==> Act(s, MainStep(ok)) == s.(main := AtPublish(s.main.c), mutex := ByMain)
    ensures s.main.AtPublish? ==>
      Act(s, MainStep(ok)) == s.(main := AtCreate(s.main.c), sdCopiado := false, sdGlobal := s.main.c)
    ensures s.main.AtCreate? ==>
      Act(s, MainStep(ok)) == if ok then s.(main := AtTest(s.main.c), workers := s.workers[s.main.c.number := WLock])
                              else s.(main := AtAccept, mutex := Free)
    ensures s.main.AtTest? ==>
      Act(s, MainStep(ok)) == s.(main := if s.sdCopiado then AtAccept else Waiting(s.main.c), mutex := Free)
    ensures s.main.Woken? && s.mutex.Free? ==> Act(s, MainStep(ok)) == s.(main := AtTest(s.main.c), mutex := ByMain)
    ensures s.main.Waiting? ==> Act(s, MainStep(ok)) == s && Act(s, Spurious) == s.(main := Woken(s.main.c))
    ensures (s.main.AtLock? || s.main.Woken?) && !s.mutex.Free? ==> Act(s, MainStep(ok)) == s
  {
  }

  /** A worker takes the mutex, copies the shared variable, sets the flag, wakes the main thread if
      it waits, and lets the mutex go. */
  lemma WorkerSteps(s: State, h: nat)
    requires h in s.workers
    ensures var w, s' := s.workers[h], Act(s, WorkerStep(h));
      && (w.WLock? && s.mutex.Free? ==> s' == s.(workers := s.workers[h := WCopy], mutex := ByWorker(h)))
      && (w.WLock? && !s.mutex.Free? ==> s' == s)
      && (w.WCopy? ==> s' == s.(workers := s.workers[h := WSet(s.sdGlobal)]))
      && (w.WSet? ==> s' == s.(workers := s.workers[h := WSignal(w.got)], sdCopiado := true))
      && (w.WSignal? ==> s' == s.(workers := s.workers[h := WUnlock(w.got)],
                                  main := if s.main.Waiting? then Woken(s.main.c) else s.main))
      && (w.WUnlock? ==> s' == s.(workers := s.workers[h := Serving(w.got)], mutex := Free))
      && (w.Serving? ==> s' == s)
  {
  }

  function MainRank(s: State): nat {
    match s.main
    case AtAccept => 0
    case AtLock(_) => 20
    case AtPublish(_) => 19
    case AtCreate(_) => 18
    case AtTest(_) => if s.sdCopiado then 1 else 5
    case Waiting(_) => if s.sdCopiado then 3 else 4
    case Woken(_) => if s.sdCopiado then 2 else 6
  }

  function WorkRank(w: Work): nat {
    match w
    case WLock => 5
    case WCopy => 4
    case WSet(_) => 3
    case WSignal(_) => 2
    case WUnlock(_) => 1
    case Serving(_) => 0
  }

  /** An upper bound on the steps before the main thread accepts again. */
  function Remaining(s: State): nat {
    MainRank(s) +
    if Handing(s.main) && s.main.c.number in s.workers then WorkRank(s.workers[s.main.c.number]) else 0
  }

  lemma StepsCountDown(s: State, a: Action)
    requires Inv(s) && Enabled(s, a) && (a.MainStep? || a.WorkerStep?)
    ensures Remaining(Act(s, a)) < Remaining(s)
  {
    if Handing(s.main) { assert WorkerOk(s, s.main.c.number); }
    if a.WorkerStep? { assert WorkerOk(s, a.h); }
  }

  /** No stuck state: whenever the main thread is not back at accept, it or the worker can
      take a step, and each such step brings accept nearer; only spurious wake-ups delay it,
      by two steps each. */
  lemma HandoffProgresses(first: Conn, acts: seq<Action>, a: Action)
    ensures var s := Exec(first, acts);
      && (s.main.AtAccept? <==> Remaining(s) == 0)
      && (!s.main.AtAccept? ==> Enabled(s, MainStep(true)) || exists h :: Enabled(s, WorkerStep(h)))
      && ((a.MainStep? || a.WorkerStep?) && Enabled(s, a) ==> Remaining(Act(s, a)) < Remaining(s))
      && (a.Spurious? ==> Remaining(Act(s, a)) <= Remaining(s) + 2)
  {
    var s := Exec(first, acts);
    AlwaysInv(first, acts);
    if s.mutex.ByWorker? {
      assert WorkerOk(s, s.mutex.h);
      assert Enabled(s, WorkerStep(s.mutex.h));
    }
    if Handing(s.main) {
      var h := s.main.c.number;
      assert WorkerOk(s, h);
      if s.main.Waiting? && s.mutex.Free? {
        assert Enabled(s, WorkerStep(h));
      }
    }
    if (a.MainStep? || a.WorkerStep?) && Enabled(s, a) {
      StepsCountDown(s, a);
    }
  }
}
