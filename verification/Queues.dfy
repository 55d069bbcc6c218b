/** Deleting by id from a queue of pending messages, as the drain does again and again. */
module Queues {
  import opened Mail

  predicate DistinctIds(q: seq<PendingMsg>) {
    forall i, j :: 0 <= i < j < |q| ==> q[i].id != q[j].id
  }

  /** Some message in q carries this id. */
  predicate Occurs(q: seq<PendingMsg>, id: nat) {
    exists i :: 0 <= i < |q| && q[i].id == id
  }

  /** The queue after deleting the id of every sent message in turn. */
  function WithoutAll(q: seq<PendingMsg>, sent: seq<PendingMsg>): seq<PendingMsg>
    decreases |sent|
  {
    if sent == [] then q else WithoutAll(WithoutId(q, sent[0].id), sent[1..])
  }

  /** The messages whose id does not occur in sent, in order. */
  function Keep(q: seq<PendingMsg>, sent: seq<PendingMsg>): seq<PendingMsg> {
    if q == [] then []
    else
      var last := q[|q| - 1];
      Keep(q[..|q| - 1], sent) + if Occurs(sent, last.id) then [] else [last]
  }

  lemma {:induction false} KeepAll(q: seq<PendingMsg>, sent: seq<PendingMsg>)
    requires forall i :: 0 <= i < |q| ==> !Occurs(sent, q[i].id)
    ensures Keep(q, sent) == q
  {
    if q != [] {
      KeepAll(q[..|q| - 1], sent);
    }
  }

  lemma {:induction false} KeepNone(q: seq<PendingMsg>, sent: seq<PendingMsg>)
    requires forall i :: 0 <= i < |q| ==> Occurs(sent, q[i].id)
    ensures Keep(q, sent) == []
  {
    if q != [] {
      KeepNone(q[..|q| - 1], sent);
    }
  }

  lemma OccursFirst(sent: seq<PendingMsg>, id: nat)
    requires sent != []
    ensures Occurs(sent, id) <==> sent[0].id == id || Occurs(sent[1..], id)
  {
    if Occurs(sent[1..], id) {
      var i :| 0 <= i < |sent[1..]| && sent[1..][i].id == id;
      assert sent[i + 1].id == id;
    }
    if Occurs(sent, id) && sent[0].id != id {
      var i :| 0 <= i < |sent| && sent[i].id == id;
      assert sent[1..][i - 1].id == id;
    }
  }

  lemma KeepAppend(q: seq<PendingMsg>, m: PendingMsg, sent: seq<PendingMsg>)
    ensures Keep(q + [m], sent) == if Occurs(sent, m.id) then Keep(q, sent) else Keep(q, sent) + [m]
  {
    assert (q + [m])[..|q|] == q;
  }

  lemma {:induction false} KeepStep(q: seq<PendingMsg>, sent: seq<PendingMsg>)
    requires sent != []
    ensures Keep(WithoutId(q, sent[0].id), sent[1..]) == Keep(q, sent)
  {
    if q != [] {
      var init, last := q[..|q| - 1], q[|q| - 1];
      KeepStep(init, sent);
      OccursFirst(sent, last.id);
      hide Occurs;
      KeepAppend(WithoutId(init, sent[0].id), last, sent[1..]);
      assert WithoutId(init, sent[0].id) + [] == WithoutId(init, sent[0].id);
    }
  }

  /** Deleting one after the other is the order-preserving filter on the ids. */
  lemma {:induction false} WithoutAllIsKeep(q: seq<PendingMsg>, sent: seq<PendingMsg>)
    ensures WithoutAll(q, sent) == Keep(q, sent)
    decreases |sent|
  {
    if sent == [] {
      KeepAll(q, []);
    } else {
      WithoutAllIsKeep(WithoutId(q, sent[0].id), sent[1..]);
      KeepStep(q, sent);
    }
  }

  lemma KeepNothing(sent: seq<PendingMsg>)
    ensures Keep([], sent) == []
  {
  }

  lemma {:induction false} KeepConcat(a: seq<PendingMsg>, b: seq<PendingMsg>, sent: seq<PendingMsg>)
    ensures Keep(a + b, sent) == Keep(a, sent) + Keep(b, sent)
  {
    hide *;
    if b == [] {
      assert a + b == a;
      KeepNothing(sent);
    } else {
      var init, last := b[..|b| - 1], b[|b| - 1];
      KeepConcat(a, init, sent);
      assert a + b == (a + init) + [last] && b == init + [last];
      KeepAppend(a + init, last, sent);
      KeepAppend(init, last, sent);
    }
  }

  lemma {:induction false} KeepCounts(q: seq<PendingMsg>, sent: seq<PendingMsg>)
    ensures multiset(Keep(q, sent)) <= multiset(q)
    ensures |Keep(q, sent)| <= |q|
    ensures |Keep(q, sent)| == |q| ==> forall i :: 0 <= i < |q| ==> !Occurs(sent, q[i].id)
  {
    if q != [] {
      var init, last := q[..|q| - 1], q[|q| - 1];
      KeepCounts(init, sent);
      assert q == init + [last];
      hide Occurs;
      KeepAppend(init, last, sent);
    }
  }

  lemma DrainLeaves(q: seq<PendingMsg>, k: nat)
    requires k <= |q|
    ensures WithoutAll(q, q[..k]) == Keep(q[k..], q[..k])
    ensures k == |q| ==> WithoutAll(q, q[..k]) == []
  {
    var a, b := q[..k], q[k..];
    assert q == a + b;
    WithoutAllIsKeep(q, a);
    KeepConcat(a, b, a);
    forall i | 0 <= i < |a| ensures Occurs(a, a[i].id) {}
    KeepNone(a, a);
  }

  lemma MultisetSizes(a: seq<PendingMsg>, b: seq<PendingMsg>, c: seq<PendingMsg>)
    requires multiset(a) + multiset(b) == multiset(c)
    ensures |a| + |b| == |c|
  {
    assert |multiset(a) + multiset(b)| == |multiset(c)|;
  }

  lemma KeepBalance(a: seq<PendingMsg>, b: seq<PendingMsg>)
    ensures multiset(a) + multiset(Keep(b, a)) <= multiset(a + b)
    ensures multiset(a) + multiset(Keep(b, a)) == multiset(a + b) <==>
      forall j :: 0 <= j < |b| ==> !Occurs(a, b[j].id)
  {
    KeepCounts(b, a);
    if forall j :: 0 <= j < |b| ==> !Occurs(a, b[j].id) {
      KeepAll(b, a);
    }
    if multiset(a) + multiset(Keep(b, a)) == multiset(a + b) {
      MultisetSizes(a, Keep(b, a), a + b);
    }
  }

  lemma BehindShares(q: seq<PendingMsg>, k: nat, sent: seq<PendingMsg>)
    requires k <= |q|
    ensures (forall j :: 0 <= j < |q[k..]| ==> !Occurs(sent, q[k..][j].id)) <==>
            (forall j :: k <= j < |q| ==> !Occurs(sent, q[j].id))
  {
    hide Occurs;
    if forall j :: 0 <= j < |q[k..]| ==> !Occurs(sent, q[k..][j].id) {
      forall j | k <= j < |q| ensures !Occurs(sent, q[j].id) {
        assert q[j] == q[k..][j - k];
      }
    }
    if forall j :: k <= j < |q| ==> !Occurs(sent, q[j].id) {
      forall j | 0 <= j < |q[k..]| ensures !Occurs(sent, q[k..][j].id) {
        assert q[k..][j] == q[k + j];
      }
    }
  }

  /** No message behind the first k shares an id with one of them. */
  predicate NoneShared(q: seq<PendingMsg>, k: nat)
    requires k <= |q|
  {
    forall j :: k <= j < |q| ==> !Occurs(q[..k], q[j].id)
  }

  lemma NoneSharedMeans(q: seq<PendingMsg>, k: nat)
    requires k <= |q|
    ensures NoneShared(q, k) <==> forall j :: k <= j < |q| ==> !Occurs(q[..k], q[j].id)
    ensures k == |q| ==> NoneShared(q, k)
  {
    hide Occurs;
  }

  /** What is left of a queue after its first k messages were sent and their ids deleted: with
      the sent ones never more than the queue, and the whole queue if and only if no message
      behind shares an id with a sent one. */
  lemma {:induction false} DrainSplit(q: seq<PendingMsg>, k: nat)
    requires k <= |q|
    ensures multiset(q[..k]) + multiset(WithoutAll(q, q[..k])) <= multiset(q)
    ensures multiset(q[..k]) + multiset(WithoutAll(q, q[..k])) == multiset(q) <==> NoneShared(q, k)
  {
    hide *;
    NoneSharedMeans(q, k);
    DrainLeaves(q, k);
    KeepBalance(q[..k], q[k..]);
    BehindShares(q, k, q[..k]);
    assert q == q[..k] + q[k..];
  }

  /** With distinct ids exactly the unsent suffix is left. */
  lemma {:induction false} DistinctSuffix(q: seq<PendingMsg>, k: nat)
    requires k <= |q| && DistinctIds(q)
    ensures WithoutAll(q, q[..k]) == q[k..]
    ensures NoneShared(q, k)
  {
    DrainLeaves(q, k);
    KeepAll(q[k..], q[..k]);
  }
}
