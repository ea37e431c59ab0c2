/** The life cycle of a connection's driver in Project/Kernel/Net/IOEngine_Epoll.cpp: the main thread and the worker
    thread talk over two queues, whose operations are atomic; everything else is interleaved freely. */
module EpollEngine {

  /** A driver object, and a socket number. Numbers are reused, objects are not. */
  type Driver = nat
  type Socket = nat

  datatype EventType = BIND | UNBIND | SHUT_DOWN

  datatype Event = Event(kind: EventType, driver: Driver, socket: Socket)

  /** What a driver is told: `OnEstablish`, `OnClose`. */
  datatype Note = Establish | Close

  datatype Told = Told(driver: Driver, note: Note)

  datatype Delayed = Delayed(driver: Driver, tick: int)

  /** Where the worker stands: in `FlushData`; before a `Pop`; in `BindEpoll` before `epoll_ctl`, before the push,
      before `OnRead`; in `UnBindEpoll`, and whether `Run` will call it once more; in `epoll_wait`; in the loop over
      its events; out of the loop. */
  datatype Worker =
    | Flushing(todo: set<Driver>)
    | Popping
    | Binding(evt: Event)
    | Publishing(evt: Event)
    | Reading(evt: Event)
    | Unbinding(evt: Event, again: bool)
    | Waiting
    | Handling(batch: seq<Driver>)
    | Stopped

  /** `sockets`: every driver ever added, with its socket number; `closed`: those that have had their `OnClose` and are
      deleted; `published`: those whose UNBIND the worker has pushed; `notes`: all calls to drivers so far. */
  datatype State = State(
    mainQ: seq<Event>,
    threadQ: seq<Event>,
    ctlAdd: map<Socket, Driver>,
    readyDel: map<Socket, Delayed>,
    worker: Worker,
    sockets: map<Driver, Socket>,
    closed: set<Driver>,
    published: set<Driver>,
    notes: seq<Told>)

  const DELAY_SEND := 5

  datatype Action =
    | Add(d: Driver, socket: Socket)
    | Remove(d: Driver, sendEmpty: bool, tick: int)
    | Deliver
    | Expire(d: Driver, socket: Socket, tick: int)
    | Flush(d: Driver)
    | FlushDone
    | Pop
    | CtlAdd(d: Driver, ok: bool)
    | Publish
    | OnRead(d: Driver, ok: bool)
    | UnBindEpoll
    | EpollWait(batch: seq<Driver>)
    | WaitFailed(interrupted: bool)
    | OnEvent(d: Driver, ok: bool)
    | BatchDone(terminate: bool)

  /** A driver in use by the main thread. */
  predicate Open(s: State, d: Driver) {
    d in s.sockets && d !in s.closed
  }

  /** What the surroundings may do. A socket number is in use until its driver's `OnClose`; the main thread does not
      use a driver after that; `epoll_wait` reports drivers that are registered, each at most once. */
  ghost predicate Enabled(s: State, a: Action) {
    match a
    case Add(d, socket) => d !in s.sockets && forall e :: Open(s, e) ==> s.sockets[e] != socket
    case Remove(d, _, _) => Open(s, d)
    case Deliver => s.mainQ != []
    case Expire(d, socket, tick) =>
      && socket in s.readyDel && s.readyDel[socket].driver == d
      && tick - s.readyDel[socket].tick >= DELAY_SEND * 1000
    case Flush(d) => s.worker.Flushing? && d in s.worker.todo
    case FlushDone => s.worker == Flushing({})
    case Pop => s.worker.Popping?
    case CtlAdd(d, _) => s.worker.Binding? && s.worker.evt.driver == d
    case Publish => s.worker.Publishing?
    case OnRead(d, _) => s.worker.Reading? && s.worker.evt.driver == d
    case UnBindEpoll => s.worker.Unbinding?
    case EpollWait(batch) =>
      && s.worker.Waiting?
      && (forall k :: 0 <= k < |batch| ==> Registered(s, batch[k]))
      && (forall j, k :: 0 <= j < k < |batch| ==> batch[j] != batch[k])
    case WaitFailed(_) => s.worker.Waiting?
    case OnEvent(d, _) => s.worker.Handling? && s.worker.batch != [] && s.worker.batch[0] == d
    case BatchDone(_) => s.worker == Handling([])
  }

  predicate Registered(s: State, d: Driver) {
    d in s.sockets && s.sockets[d] in s.ctlAdd && s.ctlAdd[s.sockets[d]] == d
  }

  ghost function RegisteredDrivers(s: State): set<Driver> {
    set d | d in s.sockets && Registered(s, d)
  }

  /** `UnBindEpoll`: the registration is looked up by socket number; what is pushed is the event. */
  function Unbind(s: State, evt: Event): State {
    if evt.socket in s.ctlAdd then
      s.(ctlAdd := s.ctlAdd - {evt.socket}, mainQ := s.mainQ + [evt], published := s.published + {evt.driver})
    else s
  }

  ghost function Do(s: State, a: Action): State
    requires Enabled(s, a)
  {
    match a
    case Add(d, socket) =>
      s.(sockets := s.sockets[d := socket], threadQ := s.threadQ + [Event(BIND, d, socket)])
    case Remove(d, sendEmpty, tick) =>
      if sendEmpty then s.(threadQ := s.threadQ + [Event(SHUT_DOWN, d, s.sockets[d])])
      else if s.sockets[d] in s.readyDel then s
      else s.(readyDel := s.readyDel[s.sockets[d] := Delayed(d, tick)])
    case Deliver =>
      var e := s.mainQ[0];
      var s' := s.(mainQ := s.mainQ[1..]);
      if e.kind == BIND then s'.(notes := s.notes + [Told(e.driver, Establish)])
      else if e.kind == UNBIND then
        s'.(notes := s.notes + [Told(e.driver, Close)], closed := s.closed + {e.driver},
          readyDel := s.readyDel - {e.socket})
      else s'
    case Expire(d, socket, _) =>
      s.(threadQ := s.threadQ + [Event(UNBIND, d, socket)], readyDel := s.readyDel - {socket})
    case Flush(d) => s.(worker := Flushing(s.worker.todo - {d}))
    case FlushDone => s.(worker := Popping)
    case Pop =>
      if s.threadQ == [] then s.(worker := Waiting)
      else
        var e := s.threadQ[0];
        var s' := s.(threadQ := s.threadQ[1..]);
        (match e.kind
         case BIND => s'.(worker := Binding(e))
         case UNBIND => s'.(worker := Unbinding(e, false))
         case SHUT_DOWN => s')
    case CtlAdd(_, ok) =>
      var e := s.worker.evt;
      var e' := e.(kind := UNBIND);
      if e.socket in s.ctlAdd then s.(worker := Popping)
      else if !ok then
        s.(mainQ := s.mainQ + [e'], published := s.published + {e.driver}, worker := Unbinding(e', false))
      else s.(ctlAdd := s.ctlAdd[e.socket := e.driver], worker := Publishing(e))
    case Publish => s.(mainQ := s.mainQ + [s.worker.evt], worker := Reading(s.worker.evt))
    case OnRead(_, ok) =>
      s.(worker := if ok then Popping else Unbinding(s.worker.evt.(kind := UNBIND), true))
    case UnBindEpoll =>
      var e := s.worker.evt;
      Unbind(s, e).(worker := if s.worker.again then Unbinding(e, false) else Popping)
    case EpollWait(batch) => s.(worker := Handling(batch))
    case WaitFailed(interrupted) => s.(worker := if interrupted then Flushing(RegisteredDrivers(s)) else Stopped)
    case OnEvent(d, ok) =>
      var s' := if ok || d !in s.sockets then s else Unbind(s, Event(UNBIND, d, s.sockets[d]));
      s'.(worker := Handling(s.worker.batch[1..]))
    case BatchDone(terminate) => s.(worker := if terminate then Stopped else Flushing(RegisteredDrivers(s)))
  }

  /** The drivers whose fields or methods the worker uses in a step.  A step that also pushes uses them before. */
  ghost function Touches(s: State, a: Action): set<Driver>
    requires Enabled(s, a)
  {
    match a
    case Flush(d) => {d}
    case CtlAdd(d, _) => {d}
    case OnRead(d, _) => {d}
    case OnEvent(d, _) => {d}
    case _ => {}
  }

  function Initial(): State {
    State([], [], map[], map[], Flushing({}), map[], {}, {}, [])
  }

  ghost predicate Runs(s: State, actions: seq<Action>)
    decreases |actions|
  {
    actions == [] || (Enabled(s, actions[0]) && Runs(Do(s, actions[0]), actions[1..]))
  }

  ghost function After(s: State, actions: seq<Action>): State
    requires Runs(s, actions)
    decreases |actions|
  {
    if actions == [] then s else After(Do(s, actions[0]), actions[1..])
  }

  // ---------------------------------------------------------------------------------------------------------
  // The invariant

  /** What a driver has been told. */
  function NotesOf(notes: seq<Told>, d: Driver): seq<Note> {
    if notes == [] then []
    else (if notes[0].driver == d then [notes[0].note] else []) + NotesOf(notes[1..], d)
  }

  /** What a driver will be told when the main queue has been emptied. */
  function About(q: seq<Event>, d: Driver): seq<Note> {
    if q == [] then []
    else
      (if q[0].driver != d || q[0].kind == SHUT_DOWN then []
       else if q[0].kind == BIND then [Establish]
       else [Close]) + About(q[1..], d)
  }

  function Story(s: State, d: Driver): seq<Note> {
    NotesOf(s.notes, d) + About(s.mainQ, d)
  }

  /** BIND events on their way to the worker. */
  function Binds(q: seq<Event>, d: Driver): nat {
    if q == [] then 0 else (if q[0] == Event(BIND, d, q[0].socket) then 1 else 0) + Binds(q[1..], d)
  }

  function Requests(s: State, d: Driver): nat {
    Binds(s.threadQ, d) + if s.worker.Binding? && s.worker.evt.driver == d then 1 else 0
  }

  /** The stages of a driver: asked for, registered, given up. */
  ghost predicate DriverOk(s: State, d: Driver) {
    if d in s.published then
      Requests(s, d) == 0 && !Registered(s, d) && (Story(s, d) == [Establish, Close] || Story(s, d) == [Close])
    else if Registered(s, d) then
      Requests(s, d) == 0 && Story(s, d) == if s.worker.Publishing? && s.worker.evt.driver == d then [] else [Establish]
    else
      Requests(s, d) == 1 && Story(s, d) == []
  }

  ghost predicate Drivers(s: State) {
    && (forall d :: d in s.sockets ==> DriverOk(s, d))
    && (forall d :: d in s.published ==> d in s.sockets)
    && (forall d :: d in s.closed <==> Close in NotesOf(s.notes, d))
    && (forall k :: 0 <= k < |s.notes| ==> s.notes[k].driver in s.sockets)
  }

  /** Events carry the socket of their driver. */
  predicate EventOk(s: State, e: Event) {
    e.driver in s.sockets && s.sockets[e.driver] == e.socket
  }

  ghost predicate EventsOk(s: State) {
    && (forall k :: 0 <= k < |s.mainQ| ==> EventOk(s, s.mainQ[k]) && s.mainQ[k].kind != SHUT_DOWN)
    && (forall k :: 0 <= k < |s.threadQ| ==> EventOk(s, s.threadQ[k]))
    && (forall sock :: sock in s.ctlAdd ==> s.ctlAdd[sock] in s.sockets && s.sockets[s.ctlAdd[sock]] == sock)
    && (forall sock :: sock in s.readyDel ==>
      Open(s, s.readyDel[sock].driver) && s.sockets[s.readyDel[sock].driver] == sock)
  }

  /** No two open drivers share a socket number. */
  ghost predicate OwnSockets(s: State) {
    forall d, e :: Open(s, d) && Open(s, e) && d != e ==> s.sockets[d] != s.sockets[e]
  }

  /** Behind the BIND of a driver, and as long as it is registered, its socket number means this driver in the worker's
      queue: what was left over from a former user of the number stands before. */
  ghost predicate InOrder(s: State) {
    && (forall j, k ::
         0 <= j < k < |s.threadQ| && s.threadQ[j].kind == BIND && s.threadQ[k].socket == s.threadQ[j].socket ==>
         s.threadQ[k].driver == s.threadQ[j].driver)
    && (forall k :: 0 <= k < |s.threadQ| && s.threadQ[k].socket in s.ctlAdd ==>
         s.threadQ[k].driver == s.ctlAdd[s.threadQ[k].socket])
    && (s.worker.Binding? ==>
         forall k :: 0 <= k < |s.threadQ| && s.threadQ[k].socket == s.worker.evt.socket ==>
           s.threadQ[k].driver == s.worker.evt.driver)
  }

  ghost predicate WorkerOk(s: State) {
    match s.worker
    case Flushing(todo) => forall d :: d in todo ==> Registered(s, d)
    case Binding(e) => e.kind == BIND && EventOk(s, e)
    case Publishing(e) => e.kind == BIND && EventOk(s, e) && Registered(s, e.driver)
    case Reading(e) => e.kind == BIND && EventOk(s, e) && Registered(s, e.driver)
    case Unbinding(e, again) =>
      e.kind == UNBIND && EventOk(s, e) && (e.socket in s.ctlAdd ==> s.ctlAdd[e.socket] == e.driver)
    case Handling(batch) =>
      && (forall k :: 0 <= k < |batch| ==> Registered(s, batch[k]))
      && (forall j, k :: 0 <= j < k < |batch| ==> batch[j] != batch[k])
    case _ => true
  }

  ghost predicate Inv(s: State) {
    Drivers(s) && EventsOk(s) && OwnSockets(s) && InOrder(s) && WorkerOk(s)
  }

  // ---------------------------------------------------------------------------------------------------------
  // Queues

  function NotesIn(e: Event, d: Driver): seq<Note> {
    if e.driver != d || e.kind == SHUT_DOWN then [] else if e.kind == BIND then [Establish] else [Close]
  }

  lemma {:induction false} AboutPush(q: seq<Event>, e: Event, d: Driver)
    ensures About(q + [e], d) == About(q, d) + NotesIn(e, d)
  {
    hide About, NotesIn;
    AboutPop(q + [e], d);
    NothingComes(d);
    if q == [] {
      assert (q + [e])[1..] == [] && (q + [e])[0] == e;
    } else {
      AboutPop(q, d);
      AboutPush(q[1..], e, d);
      assert (q + [e])[1..] == q[1..] + [e];
    }
  }

  lemma NothingComes(d: Driver)
    ensures About([], d) == []
  {
  }

  lemma AboutPop(q: seq<Event>, d: Driver)
    requires q != []
    ensures About(q, d) == NotesIn(q[0], d) + About(q[1..], d)
  {
  }

  lemma {:induction false} NotesPush(notes: seq<Told>, n: Told, d: Driver)
    ensures NotesOf(notes + [n], d) == NotesOf(notes, d) + if n.driver == d then [n.note] else []
  {
    if notes == [] {
      assert NotesOf([n][1..], d) == [];
    } else {
      NotesPush(notes[1..], n, d);
      assert (notes + [n])[1..] == notes[1..] + [n];
    }
  }

  function BindsIn(e: Event, d: Driver): nat {
    if e.kind == BIND && e.driver == d then 1 else 0
  }

  lemma {:induction false} BindsPush(q: seq<Event>, e: Event, d: Driver)
    ensures Binds(q + [e], d) == Binds(q, d) + BindsIn(e, d)
  {
    if q == [] {
      assert Binds([e][1..], d) == 0;
    } else {
      BindsPush(q[1..], e, d);
      assert (q + [e])[1..] == q[1..] + [e];
    }
  }

  lemma BindsPop(q: seq<Event>, d: Driver)
    requires q != []
    ensures Binds(q, d) == BindsIn(q[0], d) + Binds(q[1..], d)
  {
  }

  lemma {:induction false} BindsSome(q: seq<Event>, k: nat)
    requires k < |q| && q[k].kind == BIND
    ensures Binds(q, q[k].driver) >= 1
  {
    if k > 0 {
      BindsSome(q[1..], k - 1);
    }
  }

  lemma {:induction false} NothingAbout(q: seq<Event>, d: Driver)
    requires forall k :: 0 <= k < |q| ==> q[k].driver != d
    ensures About(q, d) == [] && Binds(q, d) == 0
  {
    if q != [] {
      NothingAbout(q[1..], d);
    }
  }

  lemma {:induction false} NothingTold(notes: seq<Told>, d: Driver)
    requires forall k :: 0 <= k < |notes| ==> notes[k].driver != d
    ensures NotesOf(notes, d) == []
  {
    if notes != [] {
      NothingTold(notes[1..], d);
    }
  }

  // ---------------------------------------------------------------------------------------------------------
  // Drivers that are asked for or registered are open

  ghost predicate UsersOpen(s: State) {
    && (forall k :: 0 <= k < |s.threadQ| && s.threadQ[k].kind == BIND ==> Open(s, s.threadQ[k].driver))
    && (forall sock :: sock in s.ctlAdd ==> Open(s, s.ctlAdd[sock]))
    && (s.worker.Binding? ==> Open(s, s.worker.evt.driver))
  }

  lemma NotPublishedIsOpen(s: State, d: Driver)
    requires Drivers(s) && d in s.sockets && d !in s.published
    ensures Open(s, d)
  {
    hide NotesOf, About, Requests, Registered;
    assert DriverOk(s, d);
  }

  lemma RegisteredIsOpen(s: State, d: Driver)
    requires Drivers(s) && Registered(s, d)
    ensures d !in s.published && Open(s, d)
  {
    hide NotesOf, About, Requests;
    assert DriverOk(s, d);
    NotPublishedIsOpen(s, d);
  }

  lemma RequestedIsOpen(s: State, d: Driver)
    requires Drivers(s) && d in s.sockets && Requests(s, d) >= 1
    ensures Requests(s, d) == 1 && !Registered(s, d) && d !in s.published && Open(s, d) && Story(s, d) == []
  {
    hide NotesOf, About, Requests, Registered;
    assert DriverOk(s, d);
  }

  lemma Users(s: State)
    requires Drivers(s) && EventsOk(s) && WorkerOk(s)
    ensures UsersOpen(s)
  {
    hide Drivers, NotesOf, About, Binds;
    forall k | 0 <= k < |s.threadQ| && s.threadQ[k].kind == BIND ensures Open(s, s.threadQ[k].driver) {
      BindsSome(s.threadQ, k);
      RequestedIsOpen(s, s.threadQ[k].driver);
    }
    forall sock | sock in s.ctlAdd ensures Open(s, s.ctlAdd[sock]) {
      RegisteredIsOpen(s, s.ctlAdd[sock]);
    }
    if s.worker.Binding? {
      RequestedIsOpen(s, s.worker.evt.driver);
    }
  }

  // ---------------------------------------------------------------------------------------------------------
  // Pushing to the worker

  lemma PushInOrder(s: State, e: Event)
    requires UsersOpen(s) && InOrder(s) && OwnSockets(s) && EventsOk(s) && WorkerOk(s)
    requires EventOk(s, e) && Open(s, e.driver)
    ensures InOrder(s.(threadQ := s.threadQ + [e]))
  {
    var q := s.threadQ + [e];
    forall j, k | 0 <= j < k < |q| && q[j].kind == BIND && q[k].socket == q[j].socket
      ensures q[k].driver == q[j].driver
    {
      assert q[j] == s.threadQ[j];
    }
  }

  lemma RequestKeeps(s: State, e: Event)
    requires Inv(s) && e.kind != BIND && EventOk(s, e) && Open(s, e.driver)
    ensures Inv(s.(threadQ := s.threadQ + [e]))
  {
    hide NotesOf, About, Binds, InOrder, OwnSockets;
    var s' := s.(threadQ := s.threadQ + [e]);
    Users(s);
    PushInOrder(s, e);
    forall d | d in s'.sockets ensures DriverOk(s', d) {
      assert DriverOk(s, d);
      BindsPush(s.threadQ, e, d);
    }
    SameSockets(s, s');
    hide Drivers, EventsOk, WorkerOk;
    PushEvents(s, e);
  }

  lemma PushEvents(s: State, e: Event)
    requires EventsOk(s) && WorkerOk(s) && EventOk(s, e)
    ensures EventsOk(s.(threadQ := s.threadQ + [e])) && WorkerOk(s.(threadQ := s.threadQ + [e]))
  {
  }

  lemma SameSockets(s: State, s': State)
    requires OwnSockets(s) && s'.sockets == s.sockets && s.closed <= s'.closed
    ensures OwnSockets(s')
  {
  }

  lemma RemoveKeeps(s: State, d: Driver, sendEmpty: bool, tick: int)
    requires Inv(s) && Enabled(s, Remove(d, sendEmpty, tick))
    ensures Inv(Do(s, Remove(d, sendEmpty, tick)))
  {
    hide NotesOf, About, Binds, DriverOk, InOrder, OwnSockets;
    if sendEmpty {
      RequestKeeps(s, Event(SHUT_DOWN, d, s.sockets[d]));
    } else {
      Rest(s, Do(s, Remove(d, sendEmpty, tick)));
    }
  }

  /** Steps that change neither queues nor registrations nor drivers. */
  lemma Rest(s: State, s': State)
    requires Drivers(s) && InOrder(s) && OwnSockets(s)
    requires s' == s.(readyDel := s'.readyDel)
    ensures Drivers(s') && InOrder(s') && OwnSockets(s')
  {
    hide NotesOf, About, Binds;
    forall d | d in s'.sockets ensures DriverOk(s', d) {
      assert DriverOk(s, d);
    }
  }

  lemma Unknown(s: State, d: Driver)
    requires Drivers(s) && EventsOk(s) && d !in s.sockets
    ensures Story(s, d) == [] && Binds(s.threadQ, d) == 0 && d !in s.closed && d !in s.published
  {
    NothingTold(s.notes, d);
    NothingAbout(s.mainQ, d);
    NothingAbout(s.threadQ, d);
  }

  lemma AddKeeps(s: State, d: Driver, socket: Socket)
    requires Inv(s) && Enabled(s, Add(d, socket))
    ensures Inv(Do(s, Add(d, socket)))
  {
    hide NotesOf, About, Binds, InOrder, OwnSockets;
    var s1 := s.(sockets := s.sockets[d := socket]);
    var e := Event(BIND, d, socket);
    var s' := Do(s, Add(d, socket));
    Users(s);
    Unknown(s, d);
    AddOwn(s, d, socket);
    assert UsersOpen(s1) && InOrder(s1) && EventsOk(s1) && WorkerOk(s1) by { AddInOrder(s, d, socket); }
    PushInOrder(s1, e);
    forall x | x in s'.sockets ensures DriverOk(s', x) {
      BindsPush(s.threadQ, e, x);
      AddDriver(s, d, socket, x);
    }
    SameSockets(s1, s');
    assert Drivers(s');
    hide Drivers, EventsOk, WorkerOk;
    PushEvents(s1, e);
  }

  lemma AddOwn(s: State, d: Driver, socket: Socket)
    requires OwnSockets(s) && Enabled(s, Add(d, socket))
    ensures OwnSockets(s.(sockets := s.sockets[d := socket]))
  {
  }

  lemma AddInOrder(s: State, d: Driver, socket: Socket)
    requires UsersOpen(s) && InOrder(s) && EventsOk(s) && WorkerOk(s) && Enabled(s, Add(d, socket))
    ensures var s1 := s.(sockets := s.sockets[d := socket]);
      UsersOpen(s1) && InOrder(s1) && EventsOk(s1) && WorkerOk(s1)
  {
  }

  lemma AddDriver(s: State, d: Driver, socket: Socket, x: Driver)
    requires Inv(s) && Enabled(s, Add(d, socket)) && (x in s.sockets || x == d)
    requires Story(s, d) == [] && Binds(s.threadQ, d) == 0 && d !in s.published
    requires var q := Do(s, Add(d, socket)).threadQ;
      Binds(q, x) == Binds(s.threadQ, x) + BindsIn(Event(BIND, d, socket), x)
    ensures DriverOk(Do(s, Add(d, socket)), x)
  {
    hide NotesOf, About, Binds, InOrder, OwnSockets;
    var s' := Do(s, Add(d, socket));
    if x != d {
      assert DriverOk(s, x);
      assert Registered(s', x) <==> Registered(s, x);
    }
  }

  lemma ExpireKeeps(s: State, d: Driver, socket: Socket, tick: int)
    requires Inv(s) && Enabled(s, Expire(d, socket, tick))
    ensures Inv(Do(s, Expire(d, socket, tick)))
  {
    hide NotesOf, About, Binds, DriverOk, InOrder, OwnSockets, WorkerOk;
    var s1 := s.(readyDel := s.readyDel - {socket});
    Rest(s, s1);
    SameWorker(s, s1);
    RequestKeeps(s1, Event(UNBIND, d, socket));
  }

  lemma SameWorker(s: State, s': State)
    requires WorkerOk(s) && s'.worker == s.worker && s'.ctlAdd == s.ctlAdd && s'.sockets == s.sockets
    ensures WorkerOk(s')
  {
  }

  // ---------------------------------------------------------------------------------------------------------
  // Telling the drivers

  lemma DeliverStory(s: State, d: Driver)
    requires s.mainQ != [] && s.mainQ[0].kind != SHUT_DOWN
    ensures Story(Do(s, Deliver), d) == Story(s, d)
    ensures var e := s.mainQ[0];
      NotesOf(Do(s, Deliver).notes, d) ==
        NotesOf(s.notes, d) + if e.driver == d then [if e.kind == BIND then Establish else Close] else []
  {
    hide NotesOf, About;
    var e := s.mainQ[0];
    AboutPop(s.mainQ, d);
    NotesPush(s.notes, Told(e.driver, if e.kind == BIND then Establish else Close), d);
  }

  lemma DeliverKeeps(s: State)
    requires Inv(s) && Enabled(s, Deliver)
    ensures Inv(Do(s, Deliver))
  {
    hide NotesOf, About, Binds, InOrder, OwnSockets, Story, WorkerOk;
    var s' := Do(s, Deliver);
    forall d ensures Story(s', d) == Story(s, d) && (d in s'.closed <==> Close in NotesOf(s'.notes, d)) {
      DeliverStory(s, d);
    }
    forall d | d in s'.sockets ensures DriverOk(s', d) {
      assert DriverOk(s, d);
    }
    SameSockets(s, s');
    SameWorker(s, s');
    SameOrder(s, s');
    DeliverEvents(s);
  }

  lemma SameOrder(s: State, s': State)
    requires InOrder(s) && s'.threadQ == s.threadQ && s'.ctlAdd == s.ctlAdd
    requires (s'.worker.Binding? ==> s'.worker == s.worker)
    ensures InOrder(s')
  {
  }

  lemma DeliverEvents(s: State)
    requires EventsOk(s) && OwnSockets(s) && s.mainQ != []
    ensures EventsOk(Do(s, Deliver))
  {
  }

  // ---------------------------------------------------------------------------------------------------------
  // The worker's steps

  /** Neither before a registration nor between a registration and its announcement. */
  predicate Plain(w: Worker) { !w.Binding? && !w.Publishing? }

  lemma WorkerMoves(s: State, w: Worker)
    requires Drivers(s) && EventsOk(s) && OwnSockets(s) && InOrder(s) && Plain(s.worker) && Plain(w)
    ensures var s' := s.(worker := w); Drivers(s') && EventsOk(s') && OwnSockets(s') && InOrder(s')
  {
    hide NotesOf, About, Binds, OwnSockets;
    var s' := s.(worker := w);
    forall d | d in s'.sockets ensures DriverOk(s', d) {
      assert DriverOk(s, d);
    }
    SameSockets(s, s');
  }

  /** Steps that only look at drivers. */
  lemma LookKeeps(s: State, a: Action)
    requires Inv(s) && Enabled(s, a)
    requires a.Flush? || a.FlushDone? || a.OnRead? || a.EpollWait? || a.WaitFailed? || a.BatchDone?
    ensures Inv(Do(s, a))
  {
    hide Drivers, EventsOk, OwnSockets, InOrder;
    WorkerMoves(s, Do(s, a).worker);
  }

  lemma PopDrivers(s: State)
    requires Drivers(s) && s.worker.Popping? && s.threadQ != []
    ensures Drivers(Do(s, Pop))
  {
    hide NotesOf, About, Binds, Story;
    var s' := Do(s, Pop);
    forall d | d in s'.sockets ensures DriverOk(s', d) {
      PopDriver(s, d);
    }
  }

  lemma PopDriver(s: State, d: Driver)
    requires DriverOk(s, d) && s.worker.Popping? && s.threadQ != []
    ensures DriverOk(Do(s, Pop), d)
  {
    hide NotesOf, About, Binds;
    BindsPop(s.threadQ, d);
  }

  lemma PopKeeps(s: State)
    requires Inv(s) && Enabled(s, Pop)
    ensures Inv(Do(s, Pop))
  {
    hide Drivers, OwnSockets, InOrder;
    var s' := Do(s, Pop);
    if s.threadQ == [] {
      WorkerMoves(s, Waiting);
    } else {
      PopDrivers(s);
      SameSockets(s, s');
      PopInOrder(s);
    }
  }

  lemma PopInOrder(s: State)
    requires InOrder(s) && EventsOk(s) && s.threadQ != [] && s.worker.Popping?
    ensures InOrder(Do(s, Pop)) && WorkerOk(Do(s, Pop)) && EventsOk(Do(s, Pop))
  {
    PopWorker(s);
    PopEvents(s);
    hide EventsOk, WorkerOk;
  }

  lemma PopWorker(s: State)
    requires InOrder(s) && EventsOk(s) && s.threadQ != [] && s.worker.Popping?
    ensures WorkerOk(Do(s, Pop))
  {
  }

  lemma PopEvents(s: State)
    requires EventsOk(s) && s.threadQ != [] && s.worker.Popping?
    ensures EventsOk(Do(s, Pop))
  {
  }

  /** A driver that is asked for has its socket number to itself. */
  lemma BindingIsFirst(s: State)
    requires Inv(s) && s.worker.Binding?
    ensures s.worker.evt.socket !in s.ctlAdd
    ensures Binds(s.threadQ, s.worker.evt.driver) == 0 && Story(s, s.worker.evt.driver) == []
    ensures s.worker.evt.driver !in s.published
  {
    hide NotesOf, About, Binds, Drivers, InOrder;
    var e := s.worker.evt;
    RequestedIsOpen(s, e.driver);
    if e.socket in s.ctlAdd {
      RegisteredIsOpen(s, s.ctlAdd[e.socket]);
    }
  }

  lemma CtlAddKeeps(s: State, d: Driver, ok: bool)
    requires Inv(s) && Enabled(s, CtlAdd(d, ok))
    ensures Inv(Do(s, CtlAdd(d, ok)))
  {
    hide Drivers, Story, OwnSockets, InOrder;
    BindingIsFirst(s);
    CtlAddDrivers(s, d, ok);
    SameSockets(s, Do(s, CtlAdd(d, ok)));
    CtlAddInOrder(s, d, ok);
  }

  lemma CtlAddDrivers(s: State, d: Driver, ok: bool)
    requires Drivers(s) && Enabled(s, CtlAdd(d, ok)) && EventOk(s, s.worker.evt) && s.worker.evt.kind == BIND
    requires var e := s.worker.evt;
      e.socket !in s.ctlAdd && Binds(s.threadQ, e.driver) == 0 && Story(s, e.driver) == [] && e.driver !in s.published
    ensures Drivers(Do(s, CtlAdd(d, ok)))
  {
    hide NotesOf, About, Binds;
    var e, s' := s.worker.evt, Do(s, CtlAdd(d, ok));
    forall x | x in s'.sockets ensures DriverOk(s', x) {
      assert DriverOk(s, x);
      AboutPush(s.mainQ, e.(kind := UNBIND), x);
    }
  }

  lemma CtlAddInOrder(s: State, d: Driver, ok: bool)
    requires InOrder(s) && Enabled(s, CtlAdd(d, ok)) && s.worker.evt.socket !in s.ctlAdd
    ensures InOrder(Do(s, CtlAdd(d, ok)))
  {
  }

  lemma PublishKeeps(s: State)
    requires Inv(s) && Enabled(s, Publish)
    ensures Inv(Do(s, Publish))
  {
    hide Drivers, OwnSockets, InOrder;
    PublishDrivers(s);
    SameSockets(s, Do(s, Publish));
    SameOrder(s, Do(s, Publish));
  }

  lemma PublishDrivers(s: State)
    requires Drivers(s) && s.worker.Publishing? && s.worker.evt.kind == BIND && Registered(s, s.worker.evt.driver)
    ensures Drivers(Do(s, Publish))
  {
    hide NotesOf, About, Binds;
    var e, s' := s.worker.evt, Do(s, Publish);
    forall d | d in s'.sockets ensures DriverOk(s', d) {
      assert DriverOk(s, d);
      AboutPush(s.mainQ, e, d);
    }
  }

  lemma UnbindKeeps(s: State, e: Event)
    requires Drivers(s) && EventsOk(s) && OwnSockets(s) && InOrder(s) && Plain(s.worker)
    requires e.kind == UNBIND && EventOk(s, e) && (e.socket in s.ctlAdd ==> s.ctlAdd[e.socket] == e.driver)
    ensures var s' := Unbind(s, e);
      && Drivers(s') && EventsOk(s') && OwnSockets(s') && InOrder(s')
      && forall d :: Registered(s', d) <==> Registered(s, d) && d != e.driver
  {
    hide Drivers, OwnSockets, InOrder;
    if e.socket in s.ctlAdd {
      UnbindDrivers(s, e);
      SameSockets(s, Unbind(s, e));
      UnbindInOrder(s, e);
    }
  }

  lemma UnbindDrivers(s: State, e: Event)
    requires Drivers(s) && Plain(s.worker) && e.kind == UNBIND && EventOk(s, e) && Registered(s, e.driver)
    ensures Drivers(Unbind(s, e))
  {
    hide NotesOf, About, Binds;
    var s' := Unbind(s, e);
    forall d | d in s'.sockets ensures DriverOk(s', d) {
      assert DriverOk(s, d);
      AboutPush(s.mainQ, e, d);
    }
  }

  lemma UnbindInOrder(s: State, e: Event)
    requires InOrder(s) && Plain(s.worker)
    ensures InOrder(Unbind(s, e))
  {
  }

  lemma UnBindEpollKeeps(s: State)
    requires Inv(s) && Enabled(s, UnBindEpoll)
    ensures Inv(Do(s, UnBindEpoll))
  {
    hide Drivers, EventsOk, OwnSockets, InOrder;
    var e := s.worker.evt;
    UnbindKeeps(s, e);
    var s1 := Unbind(s, e);
    assert e.socket !in s1.ctlAdd;
    WorkerMoves(s1, Do(s, UnBindEpoll).worker);
  }

  lemma OnEventKeeps(s: State, d: Driver, ok: bool)
    requires Inv(s) && Enabled(s, OnEvent(d, ok))
    ensures Inv(Do(s, OnEvent(d, ok)))
  {
    hide Drivers, EventsOk, OwnSockets, InOrder;
    assert Registered(s, d);
    if ok {
      WorkerMoves(s, Handling(s.worker.batch[1..]));
    } else {
      var e := Event(UNBIND, d, s.sockets[d]);
      UnbindKeeps(s, e);
      WorkerMoves(Unbind(s, e), Handling(s.worker.batch[1..]));
    }
  }

  // ---------------------------------------------------------------------------------------------------------
  // Every run

  lemma StepKeeps(s: State, a: Action)
    requires Inv(s) && Enabled(s, a)
    ensures Inv(Do(s, a))
  {
    hide Inv;
    match a
    case Add(d, socket) => AddKeeps(s, d, socket);
    case Remove(d, sendEmpty, tick) => RemoveKeeps(s, d, sendEmpty, tick);
    case Deliver => DeliverKeeps(s);
    case Expire(d, socket, tick) => ExpireKeeps(s, d, socket, tick);
    case Pop => PopKeeps(s);
    case CtlAdd(d, ok) => CtlAddKeeps(s, d, ok);
    case Publish => PublishKeeps(s);
    case UnBindEpoll => UnBindEpollKeeps(s);
    case OnEvent(d, ok) => OnEventKeeps(s, d, ok);
    case _ => LookKeeps(s, a);
  }

  lemma {:induction false} RunKeeps(s: State, actions: seq<Action>)
    requires Inv(s) && Runs(s, actions)
    ensures Inv(After(s, actions))
    decreases |actions|
  {
    hide Inv, Enabled, Do;
    if actions != [] {
      StepKeeps(s, actions[0]);
      RunKeeps(Do(s, actions[0]), actions[1..]);
    }
  }

  lemma EveryRun(actions: seq<Action>)
    requires Runs(Initial(), actions)
    ensures Inv(After(Initial(), actions))
  {
    assert Inv(Initial());
    RunKeeps(Initial(), actions);
  }

  /** Over every run a driver hears `OnEstablish` at most once, `OnClose` at most once, and nothing after `OnClose`;
      and it is never forgotten: while it is not given up its story is open, and once it is, the story ends with
      `OnClose`. */
  lemma Notifications(actions: seq<Action>, d: Driver)
    requires Runs(Initial(), actions)
    ensures var s := After(Initial(), actions);
      && NotesOf(s.notes, d) in {[], [Establish], [Establish, Close], [Close]}
      && (d in s.closed <==> Close in NotesOf(s.notes, d))
      && (d in s.published && s.mainQ == [] ==> d in s.closed)
  {
    hide NotesOf, About, Requests, Registered;
    var s := After(Initial(), actions);
    EveryRun(actions);
    if d in s.sockets {
      assert DriverOk(s, d);
      PrefixOf(NotesOf(s.notes, d), About(s.mainQ, d));
      EmptyQueue(s, d);
    } else {
      Unknown(s, d);
      PrefixOf(NotesOf(s.notes, d), About(s.mainQ, d));
    }
  }

  lemma EmptyQueue(s: State, d: Driver)
    ensures s.mainQ == [] ==> Story(s, d) == NotesOf(s.notes, d)
  {
  }

  lemma PrefixOf(a: seq<Note>, b: seq<Note>)
    ensures a + b == [] ==> a == []
    ensures a + b == [Establish] ==> a == [] || a == [Establish]
    ensures a + b == [Close] ==> a == [] || a == [Close]
    ensures a + b == [Establish, Close] ==> a == [] || a == [Establish] || a == [Establish, Close]
  {
    assert a == (a + b)[..|a|];
  }

  /** The worker never uses a driver whose UNBIND it has pushed, hence none that has been closed and deleted. */
  lemma NoTouchAfterUnbind(actions: seq<Action>, a: Action)
    requires Runs(Initial(), actions) && Enabled(After(Initial(), actions), a)
    ensures var s := After(Initial(), actions); forall d :: d in Touches(s, a) ==> Open(s, d) && d !in s.published
  {
    hide Drivers, EventsOk, OwnSockets, InOrder;
    var s := After(Initial(), actions);
    EveryRun(actions);
    forall d | d in Touches(s, a) ensures Open(s, d) && d !in s.published {
      if a.CtlAdd? {
        BindingIsFirst(s);
        NotPublishedIsOpen(s, d);
      } else {
        RegisteredIsOpen(s, d);
      }
    }
  }

  /** `UnBindEpoll` looks a registration up by socket number; what it finds is the driver of its event, even when the
      number has been given to another driver meanwhile. */
  lemma UnbindFindsItsOwn(actions: seq<Action>)
    requires Runs(Initial(), actions) && Enabled(After(Initial(), actions), UnBindEpoll)
    ensures var s := After(Initial(), actions);
      s.worker.evt.socket in s.ctlAdd ==> s.ctlAdd[s.worker.evt.socket] == s.worker.evt.driver
  {
    EveryRun(actions);
  }

  /** `BindEpoll` never finds its socket registered. */
  lemma BindFindsNothing(actions: seq<Action>, d: Driver, ok: bool)
    requires Runs(Initial(), actions) && Enabled(After(Initial(), actions), CtlAdd(d, ok))
    ensures var s := After(Initial(), actions); s.worker.evt.socket !in s.ctlAdd
  {
    EveryRun(actions);
    BindingIsFirst(After(Initial(), actions));
  }

  // ---------------------------------------------------------------------------------------------------------
  // SHUT_DOWN goes by the socket number

  /** The worker is about to shut a socket down. */
  ghost predicate ShuttingDown(s: State) {
    s.worker.Popping? && s.threadQ != [] && s.threadQ[0].kind == SHUT_DOWN
  }

  /** The socket is that of the driver for which it was asked, if that one is still open. */
  lemma ShutDownWhileOpen(actions: seq<Action>, d: Driver)
    requires Runs(Initial(), actions) && ShuttingDown(After(Initial(), actions))
    requires var s := After(Initial(), actions);
      Open(s, s.threadQ[0].driver) && Open(s, d) && s.sockets[d] == s.threadQ[0].socket
    ensures d == After(Initial(), actions).threadQ[0].driver
  {
    EveryRun(actions);
  }

  /** An open driver with the socket that is about to be shut down is the one for which this was asked if and only if
      that one has not been closed. */
  lemma ShutDownReachesOwnIff(actions: seq<Action>, d: Driver)
    requires Runs(Initial(), actions) && ShuttingDown(After(Initial(), actions))
    requires var s := After(Initial(), actions); Open(s, d) && s.sockets[d] == s.threadQ[0].socket
    ensures var s := After(Initial(), actions); d == s.threadQ[0].driver <==> s.threadQ[0].driver !in s.closed
  {
    EveryRun(actions);
    var s := After(Initial(), actions);
    assert EventOk(s, s.threadQ[0]);
    if Open(s, s.threadQ[0].driver) {
      ShutDownWhileOpen(actions, d);
    }
  }

  lemma {:induction false} RunOn(s: State, actions: seq<Action>, a: Action)
    requires Runs(s, actions) && Enabled(After(s, actions), a)
    ensures Runs(s, actions + [a]) && After(s, actions + [a]) == Do(After(s, actions), a)
    decreases |actions|
  {
    hide Enabled, Do;
    if actions == [] {
      assert (actions + [a])[1..] == [];
    } else {
      RunOn(Do(s, actions[0]), actions[1..], a);
      assert (actions + [a])[1..] == actions[1..] + [a];
    }
  }

  /** Driver 1 is registered with number 5. */
  ghost predicate OneRegistered(s: State) {
    s.mainQ == [] && s.threadQ == [] && s.ctlAdd == map[5 := 1] && s.sockets == map[1 := 5] && s.closed == {}
  }

  lemma Registration() returns (actions: seq<Action>)
    ensures Runs(Initial(), actions)
    ensures OneRegistered(After(Initial(), actions)) && After(Initial(), actions).worker == Waiting
  {
    hide Runs, After;
    actions := BindingRun();
    RunOn(Initial(), actions, CtlAdd(1, true));
    actions := actions + [CtlAdd(1, true)];
    RunOn(Initial(), actions, Publish);
    actions := actions + [Publish];
    RunOn(Initial(), actions, OnRead(1, true));
    actions := actions + [OnRead(1, true)];
    RunOn(Initial(), actions, Deliver);
    actions := actions + [Deliver];
    RunOn(Initial(), actions, Pop);
    actions := actions + [Pop];
  }

  lemma BindingRun() returns (actions: seq<Action>)
    ensures Runs(Initial(), actions)
    ensures After(Initial(), actions) ==
      Initial().(sockets := map[1 := 5], worker := Binding(Event(BIND, 1, 5)))
  {
    hide Runs, After;
    actions := [];
    NoSteps(Initial());
    RunOn(Initial(), actions, Add(1, 5));
    actions := actions + [Add(1, 5)];
    RunOn(Initial(), actions, FlushDone);
    actions := actions + [FlushDone];
    RunOn(Initial(), actions, Pop);
    actions := actions + [Pop];
  }

  lemma NoSteps(s: State)
    ensures Runs(s, []) && After(s, []) == s
  {
  }

  /** Driver 1 is given up while its SHUT_DOWN waits in the queue. */
  lemma Failure() returns (actions: seq<Action>)
    ensures Runs(Initial(), actions)
    ensures var s := After(Initial(), actions);
      && s.mainQ == [Event(UNBIND, 1, 5)] && s.threadQ == [Event(SHUT_DOWN, 1, 5)] && s.ctlAdd == map[]
      && s.sockets == map[1 := 5] && s.worker == Handling([])
  {
    hide Runs, After;
    actions := Registration();
    RunOn(Initial(), actions, EpollWait([1]));
    actions := actions + [EpollWait([1])];
    RunOn(Initial(), actions, Remove(1, true, 0));
    actions := actions + [Remove(1, true, 0)];
    RunOn(Initial(), actions, OnEvent(1, false));
    actions := actions + [OnEvent(1, false)];
  }

  /** A run in which the shutdown asked for driver 1 is about to reach driver 2: driver 1 has failed and is closed,
      and the system has given its number to driver 2. */
  lemma ShutDownAfterClose() returns (actions: seq<Action>)
    ensures Runs(Initial(), actions)
    ensures var s := After(Initial(), actions);
      && ShuttingDown(s) && s.threadQ[0].driver == 1 && 1 in s.closed
      && Open(s, 2) && s.sockets[2] == s.threadQ[0].socket
  {
    hide Runs, After;
    actions := Failure();
    RunOn(Initial(), actions, Deliver);
    actions := actions + [Deliver];
    StillOpen(actions);
    RunOn(Initial(), actions, Add(2, 5));
    actions := actions + [Add(2, 5)];
    RunOn(Initial(), actions, BatchDone(false));
    actions := actions + [BatchDone(false)];
    assert RegisteredDrivers(After(Initial(), actions)) == {};
    RunOn(Initial(), actions, FlushDone);
    actions := actions + [FlushDone];
  }

  lemma StillOpen(actions: seq<Action>)
    requires Runs(Initial(), actions)
    ensures After(Initial(), actions).closed <= After(Initial(), actions).sockets.Keys
  {
    EveryRun(actions);
    var s := After(Initial(), actions);
    forall d | d in s.closed ensures d in s.sockets {
      if d !in s.sockets { Unknown(s, d); }
    }
  }
}
