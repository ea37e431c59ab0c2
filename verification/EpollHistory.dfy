/** What the calls of a run alone tell about the drivers of Project/Kernel/Net/IOEngine_Epoll.cpp: which of them are
    established, which are closed, and which wait for a delayed end. */
module EpollHistory {
  import opened EpollEngine

  /** A driver has to end when it cannot be registered, when reading or an event fails, or when its delay is over. */
  ghost predicate MustEnd(actions: seq<Action>, d: Driver) {
    || CtlAdd(d, false) in actions
    || OnRead(d, false) in actions
    || OnEvent(d, false) in actions
    || exists socket, tick :: Expire(d, socket, tick) in actions
  }

  predicate Ends(a: Action, d: Driver) {
    a == CtlAdd(d, false) || a == OnRead(d, false) || a == OnEvent(d, false) || (a.Expire? && a.d == d)
  }

  datatype Since = Never | Since(tick: int)

  /** Since when a driver waits for its end to be asked for: since the first `Remove` with data left to send. */
  function Pending(actions: seq<Action>, d: Driver): Since {
    if actions == [] then Never
    else PendingThen(Pending(actions[..|actions| - 1], d), actions[|actions| - 1], d)
  }

  function PendingThen(was: Since, a: Action, d: Driver): Since {
    match a
    case Remove(x, sendEmpty, tick) => if x == d && !sendEmpty && was == Never then Since(tick) else was
    case Expire(x, _, _) => if x == d then Never else was
    case _ => was
  }

  // ---------------------------------------------------------------------------------------------------------
  // The end of a driver

  ghost predicate UnbindWaits(q: seq<Event>, d: Driver) {
    exists e :: e in q && e.kind == UNBIND && e.driver == d
  }

  predicate BeingUnbound(s: State, d: Driver) {
    s.worker.Unbinding? && s.worker.evt.driver == d
  }

  /** A driver has been given up, or is just being given up, or the request for it waits. */
  ghost predicate Ending(s: State, d: Driver) {
    d in s.published || BeingUnbound(s, d) || UnbindWaits(s.threadQ, d)
  }

  /** No request to give a driver up stands before, or is served before, the driver's BIND. */
  ghost predicate BindsFirst(s: State) {
    && (forall j, k :: 0 <= j < k < |s.threadQ| && s.threadQ[j].kind == UNBIND && s.threadQ[k].kind == BIND ==>
         s.threadQ[j].driver != s.threadQ[k].driver)
    && (s.worker.Unbinding? ==> Binds(s.threadQ, s.worker.evt.driver) == 0)
  }

  lemma UnbindPush(q: seq<Event>, e: Event, d: Driver)
    ensures UnbindWaits(q + [e], d) <==> UnbindWaits(q, d) || (e.kind == UNBIND && e.driver == d)
  {
    if UnbindWaits(q, d) {
      var x :| x in q && x.kind == UNBIND && x.driver == d;
      assert x in q + [e];
    }
    assert e in q + [e];
  }

  lemma UnbindPop(q: seq<Event>, d: Driver)
    requires q != []
    ensures UnbindWaits(q, d) <==> UnbindWaits(q[1..], d) || (q[0].kind == UNBIND && q[0].driver == d)
  {
    UnbindPush([], q[0], d);
    assert forall x :: x in q <==> x == q[0] || x in q[1..];
    assert q[0] in q;
  }

  lemma BindsFirstPush(s: State, e: Event)
    requires BindsFirst(s)
    requires e.kind == BIND ==> forall k :: 0 <= k < |s.threadQ| ==> s.threadQ[k].driver != e.driver
    requires e.kind == BIND ==> !BeingUnbound(s, e.driver)
    ensures BindsFirst(s.(threadQ := s.threadQ + [e]))
  {
    hide Binds;
    if s.worker.Unbinding? {
      BindsPush(s.threadQ, e, s.worker.evt.driver);
    }
  }

  lemma BindsFirstPop(s: State)
    requires BindsFirst(s) && s.threadQ != [] && s.worker.Popping?
    ensures BindsFirst(Do(s, Pop))
  {
    var e, s' := s.threadQ[0], Do(s, Pop);
    if e.kind == UNBIND {
      forall k | 0 <= k < |s'.threadQ| ensures !(s'.threadQ[k].kind == BIND && s'.threadQ[k].driver == e.driver) {
        assert s'.threadQ[k] == s.threadQ[k + 1];
      }
      NoBinds(s'.threadQ, e.driver);
    }
  }

  lemma {:induction false} NoBinds(q: seq<Event>, d: Driver)
    requires forall k :: 0 <= k < |q| ==> !(q[k].kind == BIND && q[k].driver == d)
    ensures Binds(q, d) == 0
  {
    if q != [] {
      NoBinds(q[1..], d);
    }
  }

  lemma BindsFirstKeeps(s: State, a: Action)
    requires Inv(s) && BindsFirst(s) && Enabled(s, a)
    ensures BindsFirst(Do(s, a))
  {
    hide Inv, Binds, Drivers, OwnSockets, InOrder;
    match a
    case Add(d, socket) =>
      AddedIsNew(s, d);
      BindsFirstPush(s, Event(BIND, d, socket));
    case Remove(d, sendEmpty, tick) => if sendEmpty { BindsFirstPush(s, Event(SHUT_DOWN, d, s.sockets[d])); }
    case Expire(d, socket, tick) => BindsFirstPush(s, Event(UNBIND, d, socket));
    case Pop => if s.threadQ != [] { BindsFirstPop(s); }
    case CtlAdd(d, ok) => BoundNow(s);
    case OnRead(d, ok) => BoundBefore(s);
    case _ =>
  }

  lemma AddedIsNew(s: State, d: Driver)
    requires Inv(s) && d !in s.sockets
    ensures forall k :: 0 <= k < |s.threadQ| ==> s.threadQ[k].driver != d
    ensures !BeingUnbound(s, d)
  {
    hide Drivers, OwnSockets, InOrder;
  }

  lemma BoundNow(s: State)
    requires Inv(s) && s.worker.Binding?
    ensures Binds(s.threadQ, s.worker.evt.driver) == 0 && s.worker.evt.socket !in s.ctlAdd
  {
    BindingIsFirst(s);
  }

  lemma BoundBefore(s: State)
    requires Inv(s) && s.worker.Reading?
    ensures Binds(s.threadQ, s.worker.evt.driver) == 0
  {
    hide NotesOf, About, Binds;
    assert DriverOk(s, s.worker.evt.driver);
  }

  /** A driver that is neither given up nor asked for is registered, so what is served is an end. */
  lemma UnbindServes(s: State)
    requires Inv(s) && BindsFirst(s) && s.worker.Unbinding?
    ensures Unbind(s, s.worker.evt).published == s.published + {s.worker.evt.driver}
  {
    hide NotesOf, About, Binds;
    assert DriverOk(s, s.worker.evt.driver);
  }

  lemma EventServes(s: State, d: Driver, ok: bool)
    requires Inv(s) && Enabled(s, OnEvent(d, ok))
    ensures Do(s, OnEvent(d, ok)).published == if ok then s.published else s.published + {d}
  {
    hide Drivers, EventsOk, OwnSockets, InOrder;
    assert Registered(s, d);
  }

  /** A step brings a driver's end about exactly if it is one of those that must. */
  lemma EndingStep(s: State, a: Action, d: Driver)
    requires Inv(s) && BindsFirst(s) && Enabled(s, a)
    ensures Ending(Do(s, a), d) <==> Ending(s, d) || Ends(a, d)
  {
    hide Inv, BindsFirst, UnbindWaits;
    match a
    case Add(x, socket) => UnbindPush(s.threadQ, Event(BIND, x, socket), d);
    case Remove(x, sendEmpty, tick) => UnbindPush(s.threadQ, Event(SHUT_DOWN, x, s.sockets[x]), d);
    case Expire(x, socket, tick) => UnbindPush(s.threadQ, Event(UNBIND, x, socket), d);
    case Pop => if s.threadQ != [] { UnbindPop(s.threadQ, d); }
    case CtlAdd(x, ok) => BoundNow(s);
    case UnBindEpoll => UnbindServes(s);
    case OnEvent(x, ok) => EventServes(s, x, ok);
    case _ =>
  }

  lemma MustEndThen(actions: seq<Action>, a: Action, d: Driver)
    ensures MustEnd(actions + [a], d) <==> MustEnd(actions, d) || Ends(a, d)
  {
    assert a in actions + [a];
    if Ends(a, d) && a.Expire? {
      assert Expire(d, a.socket, a.tick) in actions + [a];
    }
  }

  // ---------------------------------------------------------------------------------------------------------
  // The beginning of a driver

  predicate Announced(s: State, d: Driver) {
    Establish in Story(s, d) || (s.worker.Publishing? && s.worker.evt.driver == d)
  }

  lemma InBoth(a: seq<Note>, b: seq<Note>, n: Note)
    ensures n in a + b <==> n in a || n in b
  {
  }

  lemma PushStory(s: State, s': State, e: Event, d: Driver)
    requires s'.notes == s.notes && s'.mainQ == s.mainQ + [e]
    ensures Story(s', d) == Story(s, d) + NotesIn(e, d)
  {
    hide NotesOf, About, NotesIn;
    AboutPush(s.mainQ, e, d);
  }

  lemma AnnouncedPush(s: State, a: Action, d: Driver)
    requires Enabled(s, a) && WorkerOk(s) && (a.CtlAdd? ==> s.worker.evt.socket !in s.ctlAdd)
    requires Do(s, a).notes == s.notes && |Do(s, a).mainQ| > |s.mainQ|
    ensures Announced(Do(s, a), d) <==> Announced(s, d) || a == CtlAdd(d, true)
  {
    hide NotesOf, About, Story, Registered;
    var s' := Do(s, a);
    var e := s'.mainQ[|s.mainQ|];
    PushStory(s, s', e, d);
    InBoth(Story(s, d), NotesIn(e, d), Establish);
  }

  /** A step announces a driver exactly if it registers it. */
  lemma AnnouncedStep(s: State, a: Action, d: Driver)
    requires Inv(s) && Enabled(s, a)
    ensures Announced(Do(s, a), d) <==> Announced(s, d) || a == CtlAdd(d, true)
  {
    hide Drivers, OwnSockets, InOrder, NotesOf, About, Story;
    var s' := Do(s, a);
    if s'.mainQ == s.mainQ && s'.notes == s.notes {
      if a.CtlAdd? { BoundNow(s); }
      SameStory(s, s', d);
    } else if a.Deliver? {
      DeliverStory(s, d);
    } else {
      if a.CtlAdd? { BoundNow(s); }
      AnnouncedPush(s, a, d);
    }
  }

  lemma SameStory(s: State, s': State, d: Driver)
    requires s'.mainQ == s.mainQ && s'.notes == s.notes
    ensures Story(s', d) == Story(s, d)
  {
  }

  // ---------------------------------------------------------------------------------------------------------
  // The delay

  ghost predicate Delays(s: State, d: Driver, since: Since) {
    && (d !in s.sockets ==> since == Never)
    && (Open(s, d) ==>
         (s.sockets[d] in s.readyDel <==> since.Since?) &&
         (since.Since? ==> s.readyDel[s.sockets[d]] == Delayed(d, since.tick)))
  }

  lemma DelaysStep(s: State, a: Action, d: Driver, since: Since)
    requires Inv(s) && Enabled(s, a) && Delays(s, d, since)
    ensures Delays(Do(s, a), d, PendingThen(since, a, d))
  {
    hide Drivers, InOrder, WorkerOk, EventsOk, OwnSockets, Delays;
    match a
    case Add(x, socket) =>
      ClosedAreKnown(s);
      DelaysAdd(s, x, socket, d, since);
    case Remove(x, sendEmpty, tick) => DelaysRemove(s, x, sendEmpty, tick, d, since);
    case Expire(x, socket, tick) => DelaysExpire(s, x, socket, tick, d, since);
    case Deliver =>
      FirstIsOpen(s);
      DelaysDeliver(s, d, since);
    case _ => SameDelays(s, Do(s, a), d, since);
  }

  lemma DelaysAdd(s: State, x: Driver, socket: Socket, d: Driver, since: Since)
    requires EventsOk(s) && Enabled(s, Add(x, socket)) && Delays(s, d, since)
    requires forall y :: y in s.closed ==> y in s.sockets
    ensures Delays(Do(s, Add(x, socket)), d, since)
  {
    assert d != x || socket !in s.readyDel;
  }

  lemma DelaysRemove(s: State, x: Driver, sendEmpty: bool, tick: int, d: Driver, since: Since)
    requires EventsOk(s) && OwnSockets(s) && Enabled(s, Remove(x, sendEmpty, tick)) && Delays(s, d, since)
    ensures Delays(Do(s, Remove(x, sendEmpty, tick)), d, PendingThen(since, Remove(x, sendEmpty, tick), d))
  {
  }

  lemma DelaysExpire(s: State, x: Driver, socket: Socket, tick: int, d: Driver, since: Since)
    requires EventsOk(s) && OwnSockets(s) && Enabled(s, Expire(x, socket, tick)) && Delays(s, d, since)
    ensures Delays(Do(s, Expire(x, socket, tick)), d, PendingThen(since, Expire(x, socket, tick), d))
  {
  }

  lemma SameDelays(s: State, s': State, d: Driver, since: Since)
    requires Delays(s, d, since)
    requires s'.sockets == s.sockets && s'.closed == s.closed && s'.readyDel == s.readyDel
    ensures Delays(s', d, since)
  {
  }

  lemma DelaysDeliver(s: State, d: Driver, since: Since)
    requires EventsOk(s) && OwnSockets(s) && s.mainQ != [] && Open(s, s.mainQ[0].driver) && Delays(s, d, since)
    ensures Delays(Do(s, Deliver), d, since)
  {
  }

  /** Nothing is left to be delivered to a driver that has been closed. */
  lemma FirstIsOpen(s: State)
    requires Inv(s) && s.mainQ != []
    ensures Open(s, s.mainQ[0].driver)
  {
    hide NotesOf, About, Requests, Registered;
    var d := s.mainQ[0].driver;
    assert EventOk(s, s.mainQ[0]);
    if d in s.closed {
      ClosedIsPublished(s, d);
      assert DriverOk(s, d);
      AboutPop(s.mainQ, d);
      NothingBehindClose(NotesOf(s.notes, d), About(s.mainQ, d));
    }
  }

  lemma NothingBehindClose(a: seq<Note>, b: seq<Note>)
    requires a + b == [Establish, Close] || a + b == [Close]
    requires Close in a
    ensures b == []
  {
    var k :| 0 <= k < |a| && a[k] == Close;
    assert (a + b)[k] == Close;
  }

  lemma ClosedAreKnown(s: State)
    requires Inv(s)
    ensures forall d :: d in s.closed ==> d in s.sockets
  {
    hide EventsOk, OwnSockets, InOrder, WorkerOk;
    forall d | d in s.closed ensures d in s.sockets {
      if d !in s.sockets { NothingTold(s.notes, d); }
    }
  }

  // ---------------------------------------------------------------------------------------------------------
  // Every run

  predicate Leaves(a: Action) {
    a == WaitFailed(false) || a == BatchDone(true)
  }

  lemma StoppedStep(s: State, a: Action)
    requires Enabled(s, a)
    ensures Do(s, a).worker.Stopped? <==> s.worker.Stopped? || Leaves(a)
  {
  }

  ghost predicate Tells(actions: seq<Action>, s: State, d: Driver) {
    && Inv(s) && BindsFirst(s)
    && (Ending(s, d) <==> MustEnd(actions, d))
    && (Announced(s, d) <==> CtlAdd(d, true) in actions)
    && Delays(s, d, Pending(actions, d))
    && (s.worker.Stopped? <==> exists a :: a in actions && Leaves(a))
  }

  lemma TellsStep(actions: seq<Action>, s: State, a: Action, d: Driver)
    requires Tells(actions, s, d) && Enabled(s, a)
    ensures Tells(actions + [a], Do(s, a), d)
  {
    hide Inv, BindsFirst, Ending, MustEnd, Ends, Announced, Delays, PendingThen, Enabled, Do, Leaves;
    var s' := Do(s, a);
    StepKeeps(s, a);
    BindsFirstKeeps(s, a);
    EndingStep(s, a, d);
    MustEndThen(actions, a, d);
    AnnouncedStep(s, a, d);
    DelaysStep(s, a, d, Pending(actions, d));
    StoppedStep(s, a);
    assert (actions + [a])[..|actions|] == actions;
    assert forall x :: x in actions + [a] <==> x in actions || x == a;
  }

  lemma {:induction false} RunTells(before: seq<Action>, s: State, actions: seq<Action>, d: Driver)
    requires Tells(before, s, d) && Runs(s, actions)
    ensures Tells(before + actions, After(s, actions), d)
    decreases |actions|
  {
    hide Tells, Enabled, Do;
    if actions == [] {
      assert before + actions == before;
    } else {
      TellsStep(before, s, actions[0], d);
      RunTells(before + [actions[0]], Do(s, actions[0]), actions[1..], d);
      assert before + [actions[0]] + actions[1..] == before + actions;
    }
  }

  lemma InitialTells(d: Driver)
    ensures Tells([], Initial(), d)
  {
    hide Inv;
    EveryRun([]);
  }

  lemma EveryRunTells(actions: seq<Action>, d: Driver)
    requires Runs(Initial(), actions)
    ensures Tells(actions, After(Initial(), actions), d)
  {
    hide Runs, After;
    InitialTells(d);
    hide Tells;
    RunTells([], Initial(), actions, d);
    assert [] + actions == actions;
  }

  /** Over every run, once both queues have been emptied and the worker is not in `UnBindEpoll`, exactly the
      drivers that have to end have had their `OnClose`: no end is lost between the threads, and none comes
      without a cause. */
  lemma ClosedIff(actions: seq<Action>, d: Driver)
    requires Runs(Initial(), actions)
    ensures var s := After(Initial(), actions);
      && (d in s.closed ==> MustEnd(actions, d))
      && (s.mainQ == [] && s.threadQ == [] && !s.worker.Unbinding? ==> (d in s.closed <==> MustEnd(actions, d)))
  {
    hide Inv, BindsFirst, MustEnd, Announced, Delays;
    EveryRunTells(actions, d);
    Notifications(actions, d);
    if d in After(Initial(), actions).closed {
      ClosedIsPublished(After(Initial(), actions), d);
    }
  }

  lemma ClosedIsPublished(s: State, d: Driver)
    requires Inv(s) && d in s.closed
    ensures d in s.published
  {
    hide NotesOf, About, Requests, Registered;
    ClosedAreKnown(s);
    assert DriverOk(s, d);
    InBoth(NotesOf(s.notes, d), About(s.mainQ, d), Close);
  }

  /** Over every run, once the main queue has been emptied and the worker is not about to push, exactly the drivers
      whose registration succeeded have had their `OnEstablish`. */
  lemma EstablishedIff(actions: seq<Action>, d: Driver)
    requires Runs(Initial(), actions)
    ensures var s := After(Initial(), actions);
      && (Establish in NotesOf(s.notes, d) ==> CtlAdd(d, true) in actions)
      && (s.mainQ == [] && !s.worker.Publishing? ==>
           (Establish in NotesOf(s.notes, d) <==> CtlAdd(d, true) in actions))
  {
    hide Inv, BindsFirst, MustEnd, Ending, Delays, NotesOf, About;
    var s := After(Initial(), actions);
    EveryRunTells(actions, d);
    InBoth(NotesOf(s.notes, d), About(s.mainQ, d), Establish);
    EmptyQueue(s, d);
  }

  /** Over every run, the end of a driver can be asked for exactly five seconds after it was first to be removed with
      data left to send, if it has not been closed by then. */
  lemma ExpireIff(actions: seq<Action>, d: Driver, socket: Socket, tick: int)
    requires Runs(Initial(), actions)
    ensures var s := After(Initial(), actions);
      Enabled(s, Expire(d, socket, tick)) <==>
        && Open(s, d) && s.sockets[d] == socket
        && Pending(actions, d).Since? && tick - Pending(actions, d).tick >= 5000
  {
    hide Drivers, BindsFirst, MustEnd, Ending, Announced, OwnSockets, InOrder, WorkerOk;
    EveryRunTells(actions, d);
  }

  /** What a delay goes back to. */
  lemma {:induction false} PendingSince(actions: seq<Action>, d: Driver)
    requires Pending(actions, d).Since?
    ensures Remove(d, false, Pending(actions, d).tick) in actions
  {
    var before := actions[..|actions| - 1];
    assert actions == before + [actions[|actions| - 1]];
    if Pending(before, d).Since? {
      PendingSince(before, d);
    }
  }

  /** The worker leaves its loop exactly when waiting has failed for another reason than an interruption, or when it is
      told to. */
  lemma StoppedIff(actions: seq<Action>)
    requires Runs(Initial(), actions)
    ensures After(Initial(), actions).worker.Stopped? <==>
      WaitFailed(false) in actions || BatchDone(true) in actions
  {
    hide Inv, BindsFirst, MustEnd, Ending, Announced, Delays;
    EveryRunTells(actions, 0);
    assert Leaves(WaitFailed(false)) && Leaves(BatchDone(true));
  }

  /** The worker always gets through `FlushData`, with one call to each registered driver. */
  lemma {:induction false} FlushEnds(s: State, todo: set<Driver>) returns (actions: seq<Action>)
    requires s.worker == Flushing(todo)
    ensures Runs(s, actions) && After(s, actions) == s.(worker := Popping) && |actions| == |todo| + 1
    decreases |todo|
  {
    if todo == {} {
      actions := [FlushDone];
      assert actions[1..] == [];
    } else {
      var d :| d in todo;
      var rest := FlushEnds(Do(s, Flush(d)), todo - {d});
      actions := [Flush(d)] + rest;
      assert actions[1..] == rest;
    }
  }

  // ---------------------------------------------------------------------------------------------------------
  // Shutdowns

  /** How often a driver was to be removed with nothing left to send. */
  function ShutDownsAsked(actions: seq<Action>, d: Driver): nat {
    if actions == [] then 0
    else
      (match actions[0]
       case Remove(x, true, _) => if x == d then 1 else 0
       case _ => 0) + ShutDownsAsked(actions[1..], d)
  }

  function ShutDownsWaiting(q: seq<Event>, d: Driver): nat {
    if q == [] then 0
    else (if q[0].kind == SHUT_DOWN && q[0].driver == d then 1 else 0) + ShutDownsWaiting(q[1..], d)
  }

  /** How often the worker has come to shut the socket of a driver down. */
  ghost function ShutDownsDone(s: State, actions: seq<Action>, d: Driver): nat
    requires Runs(s, actions)
    decreases |actions|
  {
    if actions == [] then 0
    else
      (if actions[0].Pop? && ShuttingDown(s) && s.threadQ[0].driver == d then 1 else 0) +
      ShutDownsDone(Do(s, actions[0]), actions[1..], d)
  }

  lemma {:induction false} ShutDownsPush(q: seq<Event>, e: Event, d: Driver)
    ensures ShutDownsWaiting(q + [e], d) ==
      ShutDownsWaiting(q, d) + if e.kind == SHUT_DOWN && e.driver == d then 1 else 0
  {
    if q == [] {
      assert ShutDownsWaiting([e][1..], d) == 0;
    } else {
      assert (q + [e])[1..] == q[1..] + [e];
      ShutDownsPush(q[1..], e, d);
    }
  }

  lemma ShutDownsStep(s: State, a: Action, d: Driver)
    requires Enabled(s, a)
    ensures ShutDownsWaiting(Do(s, a).threadQ, d) +
        (if a.Pop? && ShuttingDown(s) && s.threadQ[0].driver == d then 1 else 0) ==
      ShutDownsWaiting(s.threadQ, d) + if a.Remove? && a.d == d && a.sendEmpty then 1 else 0
  {
    hide ShutDownsWaiting;
    match a
    case Add(x, socket) => ShutDownsPush(s.threadQ, Event(BIND, x, socket), d);
    case Remove(x, _, _) => ShutDownsPush(s.threadQ, Event(SHUT_DOWN, x, s.sockets[x]), d);
    case Expire(x, socket, _) => ShutDownsPush(s.threadQ, Event(UNBIND, x, socket), d);
    case Pop => if s.threadQ != [] { ShutDownsPop(s.threadQ, d); }
    case _ =>
  }

  lemma ShutDownsPop(q: seq<Event>, d: Driver)
    requires q != []
    ensures ShutDownsWaiting(q, d) ==
      ShutDownsWaiting(q[1..], d) + if q[0].kind == SHUT_DOWN && q[0].driver == d then 1 else 0
  {
  }

  /** Every removal with nothing left to send makes the worker shut a socket down once, and nothing else does. */
  lemma {:induction false} ShutDownsAreServed(s: State, actions: seq<Action>, d: Driver)
    requires Runs(s, actions)
    ensures ShutDownsWaiting(s.threadQ, d) + ShutDownsAsked(actions, d) ==
      ShutDownsDone(s, actions, d) + ShutDownsWaiting(After(s, actions).threadQ, d)
    decreases |actions|
  {
    hide Do, Enabled, ShutDownsWaiting;
    if actions != [] {
      ShutDownsStep(s, actions[0], d);
      ShutDownsAreServed(Do(s, actions[0]), actions[1..], d);
    }
  }
}
