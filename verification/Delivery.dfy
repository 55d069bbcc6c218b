/** Deliveries when handlers do not overlap: nothing is invented or duplicated, nothing is
    lost unless a drained file holds an id twice, and connected users have nothing pending. */
module Delivery {
  import opened Mail
  import opened Queues
  import opened MessageStore
  import opened Protocol
  import opened Solo

  function Messages(ps: seq<Parcel>): (q: seq<PendingMsg>)
    ensures |q| == |ps|
  {
    seq(|ps|, i requires 0 <= i < |ps| => ps[i].msg)
  }

  lemma MessagesOfParcels(q: seq<PendingMsg>)
    ensures Messages(Parcels(q)) == q
  {
  }

  // ------------------------------------- what was pushed and accepted, from the log

  /** The messages pushed to r, in order, since r last joined or left. */
  function PushedTo(log: seq<Event>, r: string): seq<PendingMsg> {
    if log == [] then []
    else
      var before, e := log[..|log| - 1], log[|log| - 1];
      if e == Joined(r) || e == Left(r) then []
      else if e.Pushed? && e.to == r then PushedTo(before, r) + [e.msg]
      else PushedTo(before, r)
  }

  /** The messages accepted for r since r last joined or left. */
  function AcceptedFor(log: seq<Event>, r: string): seq<PendingMsg> {
    if log == [] then []
    else
      var before, e := log[..|log| - 1], log[|log| - 1];
      if e == Joined(r) || e == Left(r) then []
      else if e.Accepted? && e.to == r then AcceptedFor(before, r) + [e.msg]
      else AcceptedFor(before, r)
  }

  /** Every file drained for r since r last joined or left had pairwise distinct ids. */
  predicate DrainsDistinct(log: seq<Event>, r: string) {
    log == [] ||
    (var before, e := log[..|log| - 1], log[|log| - 1];
     e == Joined(r) || e == Left(r) ||
     (DrainsDistinct(before, r) && (e.Drained? && e.to == r ==> DistinctIds(e.msgs))))
  }

  /** No file drained for r since r last joined or left kept a message that shares an id with one
      it sent; later counts the pushes to r after this log and before the next drain. */
  predicate DrainsClean(log: seq<Event>, r: string, later: nat) {
    log == [] ||
    (var before, e := log[..|log| - 1], log[|log| - 1];
     e == Joined(r) || e == Left(r) ||
     (if e.Pushed? && e.to == r then DrainsClean(before, r, later + 1)
      else if e.Drained? && e.to == r then
        NoneShared(e.msgs, if later < |e.msgs| then later else |e.msgs|) && DrainsClean(before, r, 0)
      else DrainsClean(before, r, later)))
  }

  lemma CleanAppend(log: seq<Event>, e: Event, r: string, later: nat)
    ensures DrainsClean(log + [e], r, later) <==>
      e == Joined(r) || e == Left(r) ||
      (if e.Pushed? && e.to == r then DrainsClean(log, r, later + 1)
       else if e.Drained? && e.to == r then
         NoneShared(e.msgs, if later < |e.msgs| then later else |e.msgs|) && DrainsClean(log, r, 0)
       else DrainsClean(log, r, later))
  {
    assert (log + [e])[..|log|] == log;
  }

  /** Distinct ids in the drained files are enough. */
  lemma {:induction false} DistinctIsClean(log: seq<Event>, r: string, later: nat)
    requires DrainsDistinct(log, r)
    ensures DrainsClean(log, r, later)
    decreases |log|
  {
    if log != [] {
      var before, e := log[..|log| - 1], log[|log| - 1];
      if e != Joined(r) && e != Left(r) {
        hide NoneShared, DistinctIds;
        DistinctIsClean(before, r, later);
        DistinctIsClean(before, r, later + 1);
        DistinctIsClean(before, r, 0);
        if e.Drained? && e.to == r {
          DistinctSuffix(e.msgs, if later < |e.msgs| then later else |e.msgs|);
        }
      }
    }
  }

  lemma LogAppend(log: seq<Event>, e: Event, r: string)
    ensures PushedTo(log + [e], r) ==
      if e == Joined(r) || e == Left(r) then []
      else if e.Pushed? && e.to == r then PushedTo(log, r) + [e.msg]
      else PushedTo(log, r)
    ensures AcceptedFor(log + [e], r) ==
      if e == Joined(r) || e == Left(r) then []
      else if e.Accepted? && e.to == r then AcceptedFor(log, r) + [e.msg]
      else AcceptedFor(log, r)
  {
    assert (log + [e])[..|log|] == log;
  }

  // --------------------------------------------------- the delivery loop

  /** How many messages the delivery loop gets out. */
  function Reached(w: World, route: Route, queue: seq<Parcel>, net: Net): (k: nat)
    ensures k <= |queue|
    decreases |queue|
  {
    if queue == [] || !Up(net) then 0
    else
      var (w', net') := Acknowledge(PushHead(w, route, queue[0]), queue[0], |w.log|, Rest(net));
      1 + Reached(w', route, queue[1..], net')
  }

  /** The world and the outcomes left when k messages are out, deleted and acknowledged. */
  function Progress(w: World, route: Route, queue: seq<Parcel>, net: Net, k: nat): (World, Net)
    requires k <= |queue|
    decreases k
  {
    if k == 0 then (w, net)
    else
      var (w', net') := Acknowledge(PushHead(w, route, queue[0]), queue[0], |w.log|, Rest(net));
      Progress(w', route, queue[1..], net', k - 1)
  }

  /** The loop stops at the first message whose connection attempt fails, and at no other. */
  predicate StopsAtFirstFailure(w: World, route: Route, queue: seq<Parcel>, net: Net, k: nat)
    requires k <= |queue|
  {
    && (forall j :: 0 <= j < k ==> Up(Progress(w, route, queue, net, j).1))
    && (k < |queue| ==> !Up(Progress(w, route, queue, net, k).1))
  }

  lemma {:induction false} ReachedExactly(w: World, route: Route, queue: seq<Parcel>, net: Net)
    ensures StopsAtFirstFailure(w, route, queue, net, Reached(w, route, queue, net))
    decreases |queue|
  {
    if queue != [] && Up(net) {
      var (w', net') := Acknowledge(PushHead(w, route, queue[0]), queue[0], |w.log|, Rest(net));
      var k := Reached(w, route, queue, net);
      ReachedExactly(w', route, queue[1..], net');
      hide Acknowledge, PushHead;
      forall j | 0 <= j < k ensures Up(Progress(w, route, queue, net, j).1) {
        if j > 0 {
          assert Progress(w, route, queue, net, j) == Progress(w', route, queue[1..], net', j - 1);
        }
      }
    }
  }

  /** The first n attempts succeed. */
  predicate AllUp(net: Net, n: nat) {
    n <= |net| && forall i :: 0 <= i < n ==> net[i]
  }

  /** With a push and an acknowledgement that succeed for each, every message gets out and
      nobody goes offline. */
  lemma {:induction false} AllUpReaches(w: World, route: Route, queue: seq<Parcel>, net: Net, u: string)
    requires AllUp(net, 2 * |queue|)
    ensures Reached(w, route, queue, net) == |queue|
    ensures Online(DeliverAll(w, route, queue, net).0.store, u) == Online(w.store, u)
    decreases |queue|
  {
    if queue != [] {
      var (w', net') := Acknowledge(PushHead(w, route, queue[0]), queue[0], |w.log|, Rest(net));
      assert net' == net[1..] || net' == net[2..];
      AllUpReaches(w', route, queue[1..], net', u);
    }
  }

  /** Seen from user r: sent was pushed to the receiver, in order, and nothing else happened
      to what is accepted, pushed or drained. */
  ghost predicate LogEffect(w: World, w': World, to: string, sent: seq<PendingMsg>, r: string) {
    && AcceptedFor(w'.log, r) == AcceptedFor(w.log, r)
    && PushedTo(w'.log, r) == (if r == to then PushedTo(w.log, r) + sent else PushedTo(w.log, r))
    && (forall n: nat :: DrainsClean(w'.log, r, n) <==> DrainsClean(w.log, r, if r == to then n + |sent| else n))
  }

  /** Seen from user r: the ids of sent were deleted from the receiver's file, and users only
      went offline. */
  predicate StoreEffect(w: World, w': World, to: string, sent: seq<PendingMsg>, r: string) {
    && Box(w'.store, r) == (if r == to then WithoutAll(Box(w.store, r), sent) else Box(w.store, r))
    && (r in w'.store.users <==> r in w.store.users)
    && (Online(w'.store, r) ==> Online(w.store, r))
  }

  lemma HeadLogEffect(w: World, route: Route, head: Parcel, net: Net, r: string)
    ensures LogEffect(w, Acknowledge(PushHead(w, route, head), head, |w.log|, net).0, route.to, [head.msg], r)
  {
    hide PushedTo, AcceptedFor, DrainsClean;
    var push := Pushed(route.to, route.ip, route.port, head.msg, head.attach);
    var del := Deleted(route.to, head.msg.id, |w.log|);
    LogAppend(w.log, push, r);
    LogAppend(w.log + [push], del, r);
    var w1 := PushHead(w, route, head);
    var w' := Acknowledge(w1, head, |w.log|, net).0;
    if w'.log != w1.log {
      LogAppend(w1.log, w'.log[|w1.log|], r);
    }
    HeadClean(w, route, head, net, r);
  }

  lemma HeadClean(w: World, route: Route, head: Parcel, net: Net, r: string)
    ensures var w' := Acknowledge(PushHead(w, route, head), head, |w.log|, net).0;
      forall n: nat :: DrainsClean(w'.log, r, n) <==> DrainsClean(w.log, r, if r == route.to then n + 1 else n)
  {
    hide DrainsClean, NoneShared;
    var push := Pushed(route.to, route.ip, route.port, head.msg, head.attach);
    var del := Deleted(route.to, head.msg.id, |w.log|);
    var w1 := PushHead(w, route, head);
    var w' := Acknowledge(w1, head, |w.log|, net).0;
    forall n: nat
      ensures DrainsClean(w'.log, r, n) <==> DrainsClean(w.log, r, if r == route.to then n + 1 else n)
    {
      CleanAppend(w.log, push, r, n);
      CleanAppend(w.log + [push], del, r, n);
      if w'.log != w1.log {
        CleanAppend(w1.log, w'.log[|w1.log|], r, n);
      }
    }
  }

  lemma HeadStoreEffect(w: World, route: Route, head: Parcel, net: Net, r: string)
    ensures StoreEffect(w, Acknowledge(PushHead(w, route, head), head, |w.log|, net).0, route.to, [head.msg], r)
  {
    assert WithoutAll(WithoutId([], head.msg.id), []) == [];
  }

  lemma EffectsCompose(w: World, w1: World, w2: World, to: string, q: seq<PendingMsg>, k: nat, r: string)
    requires 0 < k <= |q|
    requires LogEffect(w, w1, to, [q[0]], r) && LogEffect(w1, w2, to, q[1..][..k - 1], r)
    requires StoreEffect(w, w1, to, [q[0]], r) && StoreEffect(w1, w2, to, q[1..][..k - 1], r)
    ensures LogEffect(w, w2, to, q[..k], r) && StoreEffect(w, w2, to, q[..k], r)
  {
    hide PushedTo, AcceptedFor, DrainsClean, Box, Online;
    var tail := q[1..][..k - 1];
    assert q[..k] == [q[0]] + tail && q[..k][1..] == tail;
    assert PushedTo(w.log, r) + [q[0]] + tail == PushedTo(w.log, r) + q[..k];
    var box := Box(w.store, r);
    assert [q[0]][1..] == [];
    assert WithoutAll(box, [q[0]]) == WithoutId(box, q[0].id);
  }

  lemma NothingSent(w: World, to: string, r: string)
    ensures LogEffect(w, w, to, [], r) && StoreEffect(w, w, to, [], r)
    ensures var w' := w.(store := Disconnect(w.store, to));
      LogEffect(w, w', to, [], r) && StoreEffect(w, w', to, [], r) && !Online(w'.store, to)
  {
    hide PushedTo, AcceptedFor, DrainsClean;
  }

  /** The delivery loop pushes a prefix of its queue in order, deletes the ids of that prefix
      from the receiver's file, and leaves the receiver offline if it was cut short. */
  lemma {:induction false} DeliverAllEffect(w: World, route: Route, queue: seq<Parcel>, net: Net, r: string)
    ensures var w' := DeliverAll(w, route, queue, net).0;
      var k := Reached(w, route, queue, net);
      var sent := Messages(queue)[..k];
      && LogEffect(w, w', route.to, sent, r) && StoreEffect(w, w', route.to, sent, r)
      && (k < |queue| ==> !Online(w'.store, route.to))
    decreases |queue|
  {
    hide Acknowledge, PushHead, LogEffect, StoreEffect, Online, Disconnect;
    var k := Reached(w, route, queue, net);
    var q := Messages(queue);
    if queue == [] || !Up(net) {
      assert q[..k] == [];
      NothingSent(w, route.to, r);
    } else {
      var (w1, net1) := Acknowledge(PushHead(w, route, queue[0]), queue[0], |w.log|, Rest(net));
      HeadLogEffect(w, route, queue[0], Rest(net), r);
      HeadStoreEffect(w, route, queue[0], Rest(net), r);
      DeliverAllEffect(w1, route, queue[1..], net1, r);
      assert Messages(queue[1..]) == q[1..];
      EffectsCompose(w, w1, DeliverAll(w1, route, queue[1..], net1).0, route.to, q, k, r);
    }
  }
}
