/** Message ids in every interleaving: the n-th accepted send since the sender registered
    gets the n-th id of the wrapping counter. */
module Ids {
  import opened Text
  import opened MessageStore
  import opened Protocol

  /** The n-th id: 1, 2, …, 2^32 - 1, 1, 2, … */
  function NthId(n: nat): nat
    requires n > 0
  {
    (n - 1) % UINT_MAX + 1
  }

  /** The counter after n sends. */
  function Counter(n: nat): nat {
    if n == 0 then 0 else NthId(n)
  }

  lemma CounterSteps(n: nat)
    ensures NextId(Counter(n)) == Counter(n + 1) && IsUint32(Counter(n))
  {
  }

  /** Sends accepted from this user since it last registered. */
  function Sends(log: seq<Event>, user: string): nat {
    if log == [] then 0
    else
      var before, last := log[..|log| - 1], log[|log| - 1];
      if last == Joined(user) then 0
      else if last.Accepted? && last.msg.sender == user then Sends(before, user) + 1
      else Sends(before, user)
  }

  lemma SendsAppend(log: seq<Event>, e: Event, user: string)
    ensures Sends(log + [e], user) ==
      if e == Joined(user) then 0
      else if e.Accepted? && e.msg.sender == user then Sends(log, user) + 1
      else Sends(log, user)
  {
    assert (log + [e])[..|log|] == log;
  }

  predicate CountersOk(w: World) {
    forall u :: u in w.store.users ==> w.store.users[u].lastId == Counter(Sends(w.log, u))
  }

  predicate IdOk(log: seq<Event>, i: nat)
    requires i < |log|
  {
    log[i].Accepted? ==> log[i].msg.id == NthId(Sends(log[..i], log[i].msg.sender) + 1)
  }

  predicate IdsOk(log: seq<Event>) {
    forall i :: 0 <= i < |log| ==> IdOk(log, i)
  }

  lemma IdsOkAppend(log: seq<Event>, e: Event)
    requires IdsOk(log) && IdOk(log + [e], |log|)
    ensures IdsOk(log + [e])
  {
    var log' := log + [e];
    forall i | 0 <= i < |log'| ensures IdOk(log', i) {
      if i < |log| {
        assert log'[..i] == log[..i] && IdOk(log, i);
      }
    }
  }

  /** What a step does to the counters: an acceptance advances the sender's, a registration
      starts one at 0, nothing else touches any. */
  lemma StepCounters(w: World, p: Worker, ok: bool, u: string)
    requires u in Step(w, p, ok).0.store.users
    ensures var w' := Step(w, p, ok).0;
      var before := if u in w.store.users then w.store.users[u].lastId else 0;
      && (w'.log == w.log ==> u in w.store.users && w'.store.users[u].lastId == before)
      && (w'.log != w.log ==>
            var e := w'.log[|w.log|];
            && w'.log == w.log + [e]
            && (e == Joined(u) ==> w'.store.users[u].lastId == 0)
            && (e != Joined(u) ==> u in w.store.users)
            && (e.Accepted? && e.msg.sender == u ==>
                  w'.store.users[u].lastId == NextId(before) == e.msg.id)
            && (e != Joined(u) && !(e.Accepted? && e.msg.sender == u) ==> w'.store.users[u].lastId == before))
  {
  }

  lemma StepAccepts(w: World, p: Worker, ok: bool)
    ensures var w' := Step(w, p, ok).0;
      w'.log != w.log && w'.log[|w.log|].Accepted? ==>
        w'.log == w.log + [w'.log[|w.log|]] && w'.log[|w.log|].msg.sender in w'.store.users
  {
  }

  lemma NewIdOk(w: World, p: Worker, ok: bool)
    requires CountersOk(w) && IdsOk(w.log) && Step(w, p, ok).0.log != w.log
    ensures IdsOk(Step(w, p, ok).0.log)
  {
    var w' := Step(w, p, ok).0;
    var e := w'.log[|w.log|];
    if e.Accepted? {
      StepAccepts(w, p, ok);
      StepCounters(w, p, ok, e.msg.sender);
      CounterSteps(Sends(w.log, e.msg.sender));
    }
    assert w'.log == w.log + [e] && w'.log[..|w.log|] == w.log;
    hide Step;
    IdsOkAppend(w.log, e);
  }

  lemma StepKeepsIds(w: World, p: Worker, ok: bool)
    requires CountersOk(w) && IdsOk(w.log)
    ensures CountersOk(Step(w, p, ok).0) && IdsOk(Step(w, p, ok).0.log)
  {
    var w' := Step(w, p, ok).0;
    if w'.log != w.log {
      StepAccepts(w, p, ok);
      NewIdOk(w, p, ok);
    }
    hide Step, NthId, NextId;
    forall u | u in w'.store.users ensures w'.store.users[u].lastId == Counter(Sends(w'.log, u)) {
      StepCounters(w, p, ok, u);
      CounterSteps(Sends(w.log, u));
      if w'.log != w.log { SendsAppend(w.log, w'.log[|w.log|], u); }
    }
  }

  lemma {:induction false} AlwaysIds(acts: seq<Action>)
    ensures CountersOk(Exec(acts).world) && IdsOk(Exec(acts).world.log)
  {
    if acts != [] {
      var s, a := Exec(acts[..|acts| - 1]), acts[|acts| - 1];
      AlwaysIds(acts[..|acts| - 1]);
      if a.Run? && a.id in s.workers {
        StepKeepsIds(s.world, s.workers[a.id], a.ok);
      }
    }
  }

  /** The id of an accepted send is the position of the send since its sender registered,
      whatever else runs; it is never 0. */
  lemma AcceptedIds(acts: seq<Action>, i: nat)
    requires i < |Exec(acts).world.log| && Exec(acts).world.log[i].Accepted?
    ensures var log := Exec(acts).world.log;
      && log[i].msg.id == NthId(Sends(log[..i], log[i].msg.sender) + 1)
      && 1 <= log[i].msg.id <= UINT_MAX
  {
    AlwaysIds(acts);
    assert IdOk(Exec(acts).world.log, i);
  }

  lemma IdsRepeatLate(a: nat, b: nat)
    requires 0 < a < b < a + UINT_MAX
    ensures NthId(a) != NthId(b)
  {
  }

  lemma {:induction false} SendsBetween(log: seq<Event>, i: nat, j: nat, user: string)
    requires i <= j <= |log|
    requires forall k :: i <= k < j ==> log[k] != Joined(user)
    ensures Sends(log[..i], user) <= Sends(log[..j], user)
    ensures i < j && log[i].Accepted? && log[i].msg.sender == user ==> Sends(log[..i], user) < Sends(log[..j], user)
  {
    if i < j {
      assert log[..j][..j - 1] == log[..j - 1];
      SendsBetween(log, i, j - 1, user);
    }
  }

  /** Any 2^32 - 1 consecutive sends of one registration have pairwise distinct ids. */
  lemma IdsDistinctInAWindow(acts: seq<Action>, i: nat, j: nat)
    requires i < j < |Exec(acts).world.log|
    requires var log := Exec(acts).world.log;
      && log[i].Accepted? && log[j].Accepted? && log[i].msg.sender == log[j].msg.sender
      && (forall k :: i <= k < j ==> log[k] != Joined(log[i].msg.sender))
      && Sends(log[..j], log[i].msg.sender) < Sends(log[..i], log[i].msg.sender) + UINT_MAX
    ensures Exec(acts).world.log[i].msg.id != Exec(acts).world.log[j].msg.id
  {
    hide Exec, Sends, NthId;
    var log := Exec(acts).world.log;
    var s := log[i].msg.sender;
    AcceptedIds(acts, i);
    AcceptedIds(acts, j);
    SendsBetween(log, i, j, s);
    IdsRepeatLate(Sends(log[..i], s) + 1, Sends(log[..j], s) + 1);
  }
}
