/** What overlapping handlers can do: three short runs that show why the stronger results are
    stated for runs whose handlers do not overlap. */
module Overlaps {
  import opened Mail
  import opened MessageStore
  import opened Protocol
  import opened Solo
  import opened Delivery
  import D = Duplicates
  import B = Boundaries

  lemma Then(acts: seq<Action>, a: Action) returns (acts': seq<Action>)
    ensures acts' == acts + [a] && Exec(acts') == Act(Exec(acts), a)
  {
    acts' := acts + [a];
    assert acts'[..|acts'| - 1] == acts;
  }

  const OFFLINE := User(false, NO_IP, 0, 0)
  const HELLO := PendingMsg("a", 1, "hello", "")
  const SENDING := DoSend("a", "r", "hello", false, "")
  const CONNECTING := DoConnect("r", "127.0.0.1", 4000)

  /** Users r and a registered, nothing sent. */
  lemma TwoUsers() returns (acts: seq<Action>)
    ensures Exec(acts) ==
      System(World(Store(map["r" := OFFLINE, "a" := OFFLINE], map[]), [Joined("r"), Joined("a")]),
             map[0 := Done(0), 1 := Done(0)])
  {
    hide Exec;
    acts := Nothing();
    acts := Then(acts, Arrive(0, DoRegister("r")));
    acts := Then(acts, Run(0, true));
    acts := Then(acts, Arrive(1, DoRegister("a")));
    acts := Then(acts, Run(1, true));
  }

  lemma Nothing() returns (acts: seq<Action>)
    ensures Exec(acts) == System(EMPTY, map[])
  {
    acts := [];
  }

  const PUSH := Pushed("r", "127.0.0.1", 4000, HELLO, false)

  const QUIET := [Joined("r"), Joined("a")]
  const WAITING := QUIET + [Accepted("r", HELLO)] + [Drained("r", [HELLO])]

  lemma NoTraffic()
    ensures AcceptedFor(QUIET, "r") == PushedTo(QUIET, "r") == []
  {
    assert QUIET == [] + [Joined("r")] + [Joined("a")];
    LogAppend([], Joined("r"), "r");
    LogAppend([Joined("r")], Joined("a"), "r");
  }

  lemma OneWaiting()
    ensures AcceptedFor(WAITING, "r") == [HELLO] && PushedTo(WAITING, "r") == []
  {
    NoTraffic();
    hide AcceptedFor, PushedTo;
    LogAppend(QUIET, Accepted("r", HELLO), "r");
    LogAppend(QUIET + [Accepted("r", HELLO)], Drained("r", [HELLO]), "r");
  }

  lemma TwoPushes()
    ensures var log := WAITING + [PUSH] + [PUSH];
      AcceptedFor(log, "r") == [HELLO] && PushedTo(log, "r") == [HELLO, HELLO]
  {
    OneWaiting();
    hide AcceptedFor, PushedTo;
    LogAppend(WAITING, PUSH, "r");
    LogAppend(WAITING + [PUSH], PUSH, "r");
  }

  const ROUTE := Route("r", "127.0.0.1", 4000)

  /** r is connecting and not yet drained; a's message is accepted with r seen online. */
  lemma SeenOnline() returns (acts: seq<Action>)
    ensures var s := Exec(acts);
      && s.world.log == QUIET + [Accepted("r", HELLO)] && s.world.store.boxes == map[]
      && 2 in s.workers && s.workers[2] == Joining(ROUTE)
      && 3 in s.workers && s.workers[3] == Prepared(ROUTE, Parcel(HELLO, false), true, 2)
  {
    hide Exec;
    acts := TwoUsers();
    acts := Then(acts, Arrive(2, CONNECTING));
    acts := Then(acts, Run(2, true));
    acts := Then(acts, Arrive(3, SENDING));
    acts := Then(acts, Run(3, true));
  }

  /** A connecting worker and a sending worker, each about to push the same message. */
  lemma BothDelivering() returns (acts: seq<Action>)
    ensures var s := Exec(acts);
      var delivering := Delivering(ROUTE, [Parcel(HELLO, false)]);
      && s.world.log == WAITING
      && 2 in s.workers && s.workers[2] == delivering && 3 in s.workers && s.workers[3] == delivering
  {
    hide Exec;
    acts := SeenOnline();
    acts := Then(acts, Run(3, true));
    assert Box(Exec(acts).world.store, "r") == [HELLO];
    acts := Then(acts, Run(2, true));
    assert Parcels([HELLO]) == [Parcel(HELLO, false)];
  }

  lemma TwoCounted()
    ensures var log := WAITING + [PUSH] + [PUSH];
      D.Accepts(log, "r", HELLO) == 1 && D.Pushes(log, "r", HELLO) == 2
  {
    var accept, drain := Accepted("r", HELLO), Drained("r", [HELLO]);
    assert QUIET == [] + [Joined("r")] + [Joined("a")];
    assert D.Accepts([], "r", HELLO) == D.Pushes([], "r", HELLO) == 0;
    hide D.Accepts, D.Pushes;
    D.LogAppended([], Joined("r"), "r", HELLO);
    D.LogAppended([] + [Joined("r")], Joined("a"), "r", HELLO);
    D.LogAppended(QUIET, accept, "r", HELLO);
    D.LogAppended(QUIET + [accept], drain, "r", HELLO);
    D.LogAppended(WAITING, PUSH, "r", HELLO);
    D.LogAppended(WAITING + [PUSH], PUSH, "r", HELLO);
  }

  /** f_connect marks the user connected, f_send stores the message and sees a connected
      receiver, f_connect reads the pending file: both push the one accepted message. */
  lemma PushedTwice() returns (acts: seq<Action>)
    ensures var log := Exec(acts).world.log;
      && AcceptedFor(log, "r") == [HELLO] && PushedTo(log, "r") == [HELLO, HELLO]
      && D.Accepts(log, "r", HELLO) == 1 && D.Pushes(log, "r", HELLO) == 2
  {
    hide Exec, AcceptedFor, PushedTo, D.Accepts, D.Pushes;
    TwoCounted();
    acts := BothDelivering();
    acts := Then(acts, Run(2, true));
    acts := Then(acts, Run(3, true));
    TwoPushes();
    assert Exec(acts).world.log == WAITING + [PUSH] + [PUSH];
  }

  /** f_send sees an offline receiver, f_connect connects it and finds an empty file, and only
      then is the message stored: everything has finished, the receiver is connected and its
      message is still pending. */
  lemma StoredTooLate() returns (acts: seq<Action>)
    ensures Idle(Exec(acts))
    ensures var st := Exec(acts).world.store; Online(st, "r") && Box(st, "r") == [HELLO]
    ensures !B.NoneStranded(Exec(acts))
  {
    hide Exec;
    acts := TwoUsers();
    acts := Then(acts, Arrive(2, SENDING));
    acts := Then(acts, Run(2, true));
    acts := Then(acts, Arrive(3, CONNECTING));
    acts := Then(acts, Run(3, true));
    acts := Then(acts, Run(3, true));
    acts := Then(acts, Run(3, true));
    acts := Then(acts, Run(2, true));
    Uncovered(Exec(acts));
  }

  lemma Uncovered(s: System)
    requires Idle(s) && Online(s.world.store, "r") && Box(s.world.store, "r") == [HELLO]
    ensures !B.NoneStranded(s)
  {
    B.IdleCoversNothing(s);
    assert s.world.store.boxes["r"][0] == HELLO;
  }

  /** f_unregister runs between the two store calls of f_send: a message is left pending for
      a user that no longer exists. */
  lemma StoredForNobody() returns (acts: seq<Action>)
    ensures Idle(Exec(acts))
    ensures var st := Exec(acts).world.store; "r" !in st.users && Box(st, "r") == [HELLO]
    ensures !B.OnlyRegistered(Exec(acts).world)
  {
    hide Exec;
    acts := TwoUsers();
    acts := Then(acts, Arrive(2, SENDING));
    acts := Then(acts, Run(2, true));
    acts := Then(acts, Arrive(3, DoUnregister("r")));
    acts := Then(acts, Run(3, true));
    acts := Then(acts, Run(2, true));
  }
}
