/** The two queues of Project/Kernel/Net/IOEngine_Epoll.cpp with their capacity: a thread that pushes onto a full queue
    waits in `TryPush` until the other thread has taken something off it. */
module EpollQueues {
  import opened Seqs
  import opened EpollEngine

  datatype Pending = Nothing | In(a: Action)

  /** The engine, and for each of the threads the step in which it waits. */
  datatype Engine = Engine(s: State, main: Pending, worker: Pending)

  /** A step of one of the threads, which may be a look at the queue it waits for. */
  datatype Turn = Main(a: Action) | Worker(a: Action)

  predicate OfMain(a: Action) {
    a.Add? || a.Remove? || a.Deliver? || a.Expire?
  }

  /** The steps that push. */
  ghost predicate PushesThread(s: State, a: Action)
    requires Enabled(s, a)
  {
    |Do(s, a).threadQ| > |s.threadQ|
  }

  ghost predicate PushesMain(s: State, a: Action)
    requires Enabled(s, a)
  {
    |Do(s, a).mainQ| > |s.mainQ|
  }

  /** A waiting thread does nothing else, and goes on when there is room. */
  ghost predicate Can(c: Engine, t: Turn, n: nat) {
    && Enabled(c.s, t.a)
    && match t
       case Main(a) => OfMain(a) && (c.main.In? ==> c.main.a == a && |c.s.threadQ| < n)
       case Worker(a) => !OfMain(a) && (c.worker.In? ==> c.worker.a == a && |c.s.mainQ| < n)
  }

  ghost function Step(c: Engine, t: Turn, n: nat): Engine
    requires Can(c, t, n)
  {
    match t
    case Main(a) =>
      if PushesThread(c.s, a) && |c.s.threadQ| >= n then c.(main := In(a)) else c.(s := Do(c.s, a), main := Nothing)
    case Worker(a) =>
      if PushesMain(c.s, a) && |c.s.mainQ| >= n then c.(worker := In(a)) else c.(s := Do(c.s, a), worker := Nothing)
  }

  function Start(): Engine {
    Engine(Initial(), Nothing, Nothing)
  }

  ghost predicate Turns(c: Engine, turns: seq<Turn>, n: nat)
    decreases |turns|
  {
    turns == [] || (Can(c, turns[0], n) && Turns(Step(c, turns[0], n), turns[1..], n))
  }

  ghost function Reached(c: Engine, turns: seq<Turn>, n: nat): Engine
    requires Turns(c, turns, n)
    decreases |turns|
  {
    if turns == [] then c else Reached(Step(c, turns[0], n), turns[1..], n)
  }

  ghost function OpenDrivers(s: State): set<Driver> {
    set d | d in s.sockets && Open(s, d)
  }

  /** Never more than `k` drivers are open. */
  ghost predicate FewOpen(c: Engine, turns: seq<Turn>, n: nat, k: nat)
    requires Turns(c, turns, n)
    decreases |turns|
  {
    |OpenDrivers(c.s)| <= k && (turns != [] ==> FewOpen(Step(c, turns[0], n), turns[1..], n, k))
  }

  // ---------------------------------------------------------------------------------------------------------
  // Waiting changes nothing but the pace

  /** What a waiting thread is about to do remains possible, and pushes. */
  ghost predicate Sound(c: Engine, n: nat) {
    && Inv(c.s) && |c.s.mainQ| <= n && |c.s.threadQ| <= n
    && (c.main.In? ==> OfMain(c.main.a) && Enabled(c.s, c.main.a) && PushesThread(c.s, c.main.a))
    && (c.worker.In? ==> !OfMain(c.worker.a) && Enabled(c.s, c.worker.a) && PushesMain(c.s, c.worker.a))
  }

  /** The worker's steps that push, by what the worker looks at. */
  predicate Gives(s: State, b: Action) {
    match b
    case Publish => s.worker.Publishing?
    case CtlAdd(d, ok) => s.worker.Binding? && s.worker.evt.driver == d && !ok && s.worker.evt.socket !in s.ctlAdd
    case UnBindEpoll => s.worker.Unbinding? && s.worker.evt.socket in s.ctlAdd
    case OnEvent(d, ok) =>
      && s.worker.Handling? && s.worker.batch != [] && s.worker.batch[0] == d && !ok
      && d in s.sockets && s.sockets[d] in s.ctlAdd
    case _ => false
  }

  lemma GivesIff(s: State, b: Action)
    requires Enabled(s, b) && !OfMain(b)
    ensures PushesMain(s, b) <==> Gives(s, b)
  {
  }

  /** The main thread's steps that push, by what the main thread looks at. */
  predicate Asks(s: State, a: Action) {
    a.Add? || (a.Remove? && a.sendEmpty) || a.Expire?
  }

  lemma AsksIff(s: State, a: Action)
    requires Enabled(s, a) && OfMain(a)
    ensures PushesThread(s, a) <==> Asks(s, a)
  {
  }

  lemma MainLeaves(s: State, a: Action)
    requires Enabled(s, a) && OfMain(a)
    ensures Do(s, a).worker == s.worker && Do(s, a).ctlAdd == s.ctlAdd
    ensures forall d :: d in s.sockets ==> d in Do(s, a).sockets && Do(s, a).sockets[d] == s.sockets[d]
  {
  }

  lemma WorkerLeaves(s: State, b: Action)
    requires Enabled(s, b) && !OfMain(b)
    ensures Do(s, b).sockets == s.sockets && Do(s, b).closed == s.closed && Do(s, b).readyDel == s.readyDel
  {
  }

  /** A step of one thread leaves alone what the other is about to do. */
  lemma OtherThread(s: State, a: Action, b: Action)
    requires Enabled(s, a) && Enabled(s, b) && OfMain(a) && !OfMain(b)
    ensures PushesThread(s, a) ==> Enabled(Do(s, b), a) && PushesThread(Do(s, b), a)
    ensures PushesMain(s, b) ==> Enabled(Do(s, a), b) && PushesMain(Do(s, a), b)
  {
    hide Do;
    MainLeaves(s, a);
    WorkerLeaves(s, b);
    if PushesThread(s, a) {
      AsksIff(s, a);
      StillEnabled(s, Do(s, b), a);
      AsksIff(Do(s, b), a);
    }
    if PushesMain(s, b) {
      GivesIff(s, b);
      GivesEnabled(Do(s, a), b);
      GivesIff(Do(s, a), b);
    }
  }

  lemma StillEnabled(s: State, s': State, a: Action)
    requires Enabled(s, a) && Asks(s, a)
    requires s'.sockets == s.sockets && s'.closed == s.closed && s'.readyDel == s.readyDel
    ensures Enabled(s', a)
  {
  }

  lemma GivesEnabled(s: State, b: Action)
    requires Gives(s, b)
    ensures Enabled(s, b)
  {
  }

  lemma OneOfMain(s: State, a: Action)
    requires Enabled(s, a) && OfMain(a)
    ensures |Do(s, a).threadQ| <= |s.threadQ| + 1 && |Do(s, a).mainQ| <= |s.mainQ|
  {
  }

  lemma OneOfWorker(s: State, a: Action)
    requires Enabled(s, a) && !OfMain(a)
    ensures |Do(s, a).threadQ| <= |s.threadQ| && |Do(s, a).mainQ| <= |s.mainQ| + 1
  {
  }

  lemma StepSound(c: Engine, t: Turn, n: nat)
    requires Sound(c, n) && Can(c, t, n)
    ensures Sound(Step(c, t, n), n)
  {
    hide Inv, Do, Enabled;
    var a := t.a;
    StepKeeps(c.s, a);
    if OfMain(a) { OneOfMain(c.s, a); } else { OneOfWorker(c.s, a); }
    if t.Main? && c.worker.In? { OtherThread(c.s, a, c.worker.a); }
    if t.Worker? && c.main.In? { OtherThread(c.s, c.main.a, a); }
  }

  lemma {:induction false} TurnsSound(c: Engine, turns: seq<Turn>, n: nat)
    requires Sound(c, n) && Turns(c, turns, n)
    ensures Sound(Reached(c, turns, n), n)
    decreases |turns|
  {
    hide Sound, Can, Step;
    if turns != [] {
      StepSound(c, turns[0], n);
      TurnsSound(Step(c, turns[0], n), turns[1..], n);
    }
  }

  lemma StartSound(n: nat)
    ensures Sound(Start(), n)
  {
    EveryRun([]);
  }

  /** Whatever the capacity, the engine gets only where it gets with queues without bounds. */
  lemma {:induction false} SameStates(before: seq<Action>, c: Engine, turns: seq<Turn>, n: nat)
    returns (actions: seq<Action>)
    requires Runs(Initial(), before) && After(Initial(), before) == c.s && Turns(c, turns, n)
    ensures Runs(Initial(), actions) && After(Initial(), actions) == Reached(c, turns, n).s
    decreases |turns|
  {
    hide Runs, After, Enabled, Do, PushesMain, PushesThread;
    if turns == [] {
      actions := before;
    } else {
      var t := turns[0];
      actions := before;
      if Step(c, t, n).s != c.s {
        RunOn(Initial(), before, t.a);
        actions := before + [t.a];
      }
      actions := SameStates(actions, Step(c, t, n), turns[1..], n);
    }
  }

  // ---------------------------------------------------------------------------------------------------------
  // Waiting for each other

  /** Each thread waits for the other to make room. */
  ghost predicate Deadlock(c: Engine, n: nat) {
    c.main.In? && |c.s.threadQ| >= n && c.worker.In? && |c.s.mainQ| >= n
  }

  /** No thread can go on if and only if they wait for each other, or the main thread waits for a worker that has left
      its loop. */
  lemma StuckIff(c: Engine, n: nat)
    requires Sound(c, n) && c.main.In?
    ensures (forall t :: !Can(c, t, n)) <==>
      |c.s.threadQ| >= n && (Deadlock(c, n) || (c.s.worker.Stopped? && !c.worker.In?))
  {
    hide Inv, Do;
    if |c.s.threadQ| < n {
      assert Can(c, Main(c.main.a), n);
    } else if c.worker.In? && |c.s.mainQ| < n {
      assert Can(c, Worker(c.worker.a), n);
    } else if !c.worker.In? && !c.s.worker.Stopped? {
      var a := NextOfWorker(c.s);
      assert Can(c, Worker(a), n);
    }
  }

  /** A worker in its loop always has something to do. */
  lemma NextOfWorker(s: State) returns (a: Action)
    requires !s.worker.Stopped?
    ensures Enabled(s, a) && !OfMain(a)
  {
    match s.worker
    case Flushing(todo) =>
      if todo == {} {
        a := FlushDone;
      } else {
        var d :| d in todo;
        a := Flush(d);
      }
    case Popping => a := Pop;
    case Binding(e) => a := CtlAdd(e.driver, true);
    case Publishing(_) => a := Publish;
    case Reading(e) => a := OnRead(e.driver, true);
    case Unbinding(_, _) => a := UnBindEpoll;
    case Waiting => a := WaitFailed(true);
    case Handling(batch) => a := if batch == [] then BatchDone(true) else OnEvent(batch[0], true);
  }

  // ---------------------------------------------------------------------------------------------------------
  // How many drivers it takes

  function Others(q: seq<Event>, d: Driver): seq<Event> {
    if q == [] then [] else (if q[0].driver == d then [] else [q[0]]) + Others(q[1..], d)
  }

  lemma {:induction false} OthersOf(q: seq<Event>, d: Driver)
    requires forall e :: e in q ==> e.kind != SHUT_DOWN
    ensures |q| == |Others(q, d)| + |About(q, d)|
    ensures forall e :: e in Others(q, d) ==> e in q && e.driver != d
  {
    if q != [] {
      OthersOf(q[1..], d);
    }
  }

  lemma {:induction false} AboutOthers(q: seq<Event>, d: Driver, x: Driver)
    requires x != d
    ensures About(Others(q, d), x) == About(q, x)
  {
    if q != [] {
      AboutOthers(q[1..], d, x);
      if q[0].driver == d {
        assert Others(q, d) == Others(q[1..], d);
      } else {
        assert Others(q, d)[0] == q[0] && Others(q, d)[1..] == Others(q[1..], d);
      }
    }
  }

  lemma {:induction false} AtMostTwoEach(q: seq<Event>, ds: set<Driver>)
    requires forall e :: e in q ==> e.kind != SHUT_DOWN && e.driver in ds
    requires forall d :: d in ds ==> |About(q, d)| <= 2
    ensures |q| <= 2 * |ds|
    decreases |ds|
  {
    hide About, Others;
    assert q != [] ==> q[0] in q;
    if ds != {} {
      var d :| d in ds;
      OthersOf(q, d);
      forall x | x in ds - {d} ensures |About(Others(q, d), x)| <= 2 {
        AboutOthers(q, d, x);
      }
      AtMostTwoEach(Others(q, d), ds - {d});
    }
  }

  lemma {:induction false} AboutItself(q: seq<Event>, k: nat)
    requires k < |q| && q[k].kind != SHUT_DOWN
    ensures About(q, q[k].driver) != []
  {
    if k > 0 {
      AboutItself(q[1..], k - 1);
    }
  }

  lemma StoryIsShort(s: State, d: Driver)
    requires Inv(s) && d in s.sockets
    ensures |About(s.mainQ, d)| <= 2 && (d in s.closed ==> About(s.mainQ, d) == [])
  {
    hide About, NotesOf, Requests, Registered, EventsOk, OwnSockets, InOrder, WorkerOk;
    assert DriverOk(s, d);
    var told, more := NotesOf(s.notes, d), About(s.mainQ, d);
    assert Story(s, d) == told + more;
    if d in s.closed {
      var k :| 0 <= k < |told| && told[k] == Close;
      assert (told + more)[k] == Close;
    }
  }

  /** The main queue never holds more than two events for each open driver, and none for any other. */
  lemma MainQueueBound(s: State)
    requires Inv(s)
    ensures |s.mainQ| <= 2 * |OpenDrivers(s)|
  {
    hide About, Inv;
    forall k | 0 <= k < |s.mainQ| ensures s.mainQ[k].kind != SHUT_DOWN && s.mainQ[k].driver in OpenDrivers(s) {
      MainEvents(s, k);
      AboutItself(s.mainQ, k);
      StoryIsShort(s, s.mainQ[k].driver);
    }
    forall d | d in OpenDrivers(s) ensures |About(s.mainQ, d)| <= 2 {
      StoryIsShort(s, d);
    }
    AtMostTwoEach(s.mainQ, OpenDrivers(s));
  }

  lemma MainEvents(s: State, k: nat)
    requires Inv(s) && k < |s.mainQ|
    ensures s.mainQ[k].kind != SHUT_DOWN && s.mainQ[k].driver in s.sockets
  {
  }

  /** The worker waits only while more drivers are open than half the queue has places. */
  lemma WaitTakesDrivers(c: Engine, n: nat)
    requires Sound(c, n) && c.worker.In? && |c.s.mainQ| >= n
    ensures 2 * |OpenDrivers(c.s)| > n
  {
    hide Inv, Do, Enabled;
    StepKeeps(c.s, c.worker.a);
    MainQueueBound(Do(c.s, c.worker.a));
    WorkerLeaves(c.s, c.worker.a);
    assert OpenDrivers(Do(c.s, c.worker.a)) == OpenDrivers(c.s);
  }

  // ---------------------------------------------------------------------------------------------------------
  // A run into a deadlock

  lemma {:induction false} TurnOn(c: Engine, turns: seq<Turn>, t: Turn, n: nat)
    requires Turns(c, turns, n) && Can(Reached(c, turns, n), t, n)
    ensures Turns(c, turns + [t], n) && Reached(c, turns + [t], n) == Step(Reached(c, turns, n), t, n)
    decreases |turns|
  {
    hide Can, Step;
    if turns == [] {
      assert (turns + [t])[1..] == [];
    } else {
      TurnOn(Step(c, turns[0], n), turns[1..], t, n);
      assert (turns + [t])[1..] == turns[1..] + [t];
    }
  }

  /** Drivers 1 to `d`, all open, with sockets of the same numbers. */
  function Numbers(d: nat): map<Driver, Socket> {
    if d == 0 then map[] else Numbers(d - 1)[d := d]
  }

  lemma {:induction false} NumbersAre(d: nat)
    ensures forall i :: i in Numbers(d) <==> 1 <= i <= d
    ensures forall i :: i in Numbers(d) ==> Numbers(d)[i] == i
    ensures |Numbers(d).Keys| == d
  {
    if d > 0 {
      NumbersAre(d - 1);
      assert Numbers(d).Keys == Numbers(d - 1).Keys + {d};
    }
  }

  /** `j` events wait for the main thread, the first two of every driver, and the worker is about to push the next. */
  ghost predicate Stage(c: Engine, j: nat) {
    var d := j / 2 + 1;
    && c.main.Nothing? && c.worker.Nothing? && |c.s.mainQ| == j && c.s.threadQ == [] && c.s.closed == {}
    && c.s.sockets == Numbers(d) && c.s.ctlAdd == map[d := d]
    && c.s.worker == if j % 2 == 0 then Publishing(Event(BIND, d, d)) else Unbinding(Event(UNBIND, d, d), true)
  }

  /** The worker stands before a `Pop`, with nothing registered. */
  ghost predicate BetweenDrivers(c: Engine, d: nat) {
    && c.main.Nothing? && c.worker.Nothing? && |c.s.mainQ| == 2 * d && c.s.threadQ == [] && c.s.closed == {}
    && c.s.sockets == Numbers(d) && c.s.ctlAdd == map[] && c.s.worker.Popping?
  }

  /** The next driver has been added, and its request waits. */
  ghost predicate Added(c: Engine, d: nat) {
    && c.main.Nothing? && c.worker.Nothing? && |c.s.mainQ| == 2 * d && c.s.closed == {} && c.s.ctlAdd == map[]
    && c.s.threadQ == [Event(BIND, d + 1, d + 1)] && c.s.sockets == Numbers(d + 1) && c.s.worker.Popping?
  }

  lemma AddNext(was: seq<Turn>, d: nat, n: nat) returns (turns: seq<Turn>)
    requires Turns(Start(), was, n) && BetweenDrivers(Reached(Start(), was, n), d) && n > 0
    ensures Turns(Start(), turns, n) && Added(Reached(Start(), turns, n), d)
  {
    hide Turns, Reached;
    NumbersAre(d);
    TurnOn(Start(), was, Main(Add(d + 1, d + 1)), n);
    turns := was + [Main(Add(d + 1, d + 1))];
  }

  lemma NextDriver(was: seq<Turn>, d: nat, n: nat) returns (turns: seq<Turn>)
    requires Turns(Start(), was, n) && BetweenDrivers(Reached(Start(), was, n), d) && n > 0
    ensures Turns(Start(), turns, n) && Stage(Reached(Start(), turns, n), 2 * d)
  {
    turns := AddNext(was, d, n);
    turns := PopNext(turns, d, n);
    hide Turns, Reached, Popped, Can, Step, Stage;
    BindNext(Reached(Start(), turns, n), d, n);
    TurnOn(Start(), turns, Worker(CtlAdd(d + 1, true)), n);
    turns := turns + [Worker(CtlAdd(d + 1, true))];
  }

  lemma BindNext(c: Engine, d: nat, n: nat)
    requires Popped(c, d)
    ensures Can(c, Worker(CtlAdd(d + 1, true)), n) && Stage(Step(c, Worker(CtlAdd(d + 1, true)), n), 2 * d)
  {
    hide Numbers;
    assert 2 * d / 2 + 1 == d + 1 && 2 * d % 2 == 0;
    assert Enabled(c.s, CtlAdd(d + 1, true));
    assert Do(c.s, CtlAdd(d + 1, true)) ==
      c.s.(ctlAdd := map[d + 1 := d + 1], worker := Publishing(Event(BIND, d + 1, d + 1)));
  }

  ghost predicate Popped(c: Engine, d: nat) {
    && c.main.Nothing? && c.worker.Nothing? && |c.s.mainQ| == 2 * d && c.s.closed == {} && c.s.ctlAdd == map[]
    && c.s.threadQ == [] && c.s.sockets == Numbers(d + 1) && c.s.worker == Binding(Event(BIND, d + 1, d + 1))
  }

  lemma PopNext(was: seq<Turn>, d: nat, n: nat) returns (turns: seq<Turn>)
    requires Turns(Start(), was, n) && Added(Reached(Start(), was, n), d)
    ensures Turns(Start(), turns, n) && Popped(Reached(Start(), turns, n), d)
  {
    hide Turns, Reached, Numbers;
    TurnOn(Start(), was, Worker(Pop), n);
    turns := was + [Worker(Pop)];
  }

  lemma FirstPush(was: seq<Turn>, j: nat, n: nat) returns (turns: seq<Turn>)
    requires Turns(Start(), was, n) && Stage(Reached(Start(), was, n), j) && j % 2 == 0 && j < n
    ensures Turns(Start(), turns, n) && Stage(Reached(Start(), turns, n), j + 1)
  {
    hide Turns, Reached;
    TurnOn(Start(), was, Worker(Publish), n);
    turns := was + [Worker(Publish)];
    TurnOn(Start(), turns, Worker(OnRead(j / 2 + 1, false)), n);
    turns := turns + [Worker(OnRead(j / 2 + 1, false))];
  }

  lemma SecondPush(was: seq<Turn>, j: nat, n: nat) returns (turns: seq<Turn>)
    requires Turns(Start(), was, n) && Stage(Reached(Start(), was, n), j) && j % 2 == 1 && j < n
    ensures Turns(Start(), turns, n) && BetweenDrivers(Reached(Start(), turns, n), (j + 1) / 2)
  {
    hide Turns, Reached;
    TurnOn(Start(), was, Worker(UnBindEpoll), n);
    turns := was + [Worker(UnBindEpoll)];
    TurnOn(Start(), turns, Worker(UnBindEpoll), n);
    turns := turns + [Worker(UnBindEpoll)];
  }

  lemma {:induction false} FillMain(j: nat, n: nat) returns (turns: seq<Turn>)
    requires j <= n && n > 0
    ensures Turns(Start(), turns, n) && Stage(Reached(Start(), turns, n), j)
    decreases j
  {
    hide Turns, Reached, Stage, BetweenDrivers;
    if j == 0 {
      turns := FirstDriver(n);
    } else {
      turns := FillMain(j - 1, n);
      if j % 2 == 1 {
        turns := FirstPush(turns, j - 1, n);
      } else {
        turns := SecondPush(turns, j - 1, n);
        turns := NextDriver(turns, j / 2, n);
      }
    }
  }

  lemma FirstDriver(n: nat) returns (turns: seq<Turn>)
    requires n > 0
    ensures Turns(Start(), turns, n) && Stage(Reached(Start(), turns, n), 0)
  {
    hide Turns, Reached;
    turns := [];
    assert Turns(Start(), [], n) && Reached(Start(), [], n) == Start() by { NoTurns(n); }
    TurnOn(Start(), turns, Worker(FlushDone), n);
    turns := turns + [Worker(FlushDone)];
    turns := NextDriver(turns, 0, n);
  }

  lemma NoTurns(n: nat)
    ensures Turns(Start(), [], n) && Reached(Start(), [], n) == Start()
  {
  }

  /** The worker waits for the main thread, which has asked for `i` shutdowns of driver 1 meanwhile. */
  ghost predicate WorkerWaits(c: Engine, n: nat, i: nat) {
    && c.main.Nothing? && c.worker.In? && |c.s.mainQ| == n && |c.s.threadQ| == i && c.s.closed == {}
    && c.s.sockets == Numbers(n / 2 + 1)
  }

  lemma MainIsFull(was: seq<Turn>, n: nat) returns (turns: seq<Turn>)
    requires Turns(Start(), was, n) && Stage(Reached(Start(), was, n), n)
    ensures Turns(Start(), turns, n) && WorkerWaits(Reached(Start(), turns, n), n, 0)
  {
    hide Turns, Reached;
    var a := if n % 2 == 0 then Publish else UnBindEpoll;
    TurnOn(Start(), was, Worker(a), n);
    turns := was + [Worker(a)];
  }

  lemma AskOnce(was: seq<Turn>, n: nat, i: nat) returns (turns: seq<Turn>)
    requires Turns(Start(), was, n) && WorkerWaits(Reached(Start(), was, n), n, i) && i <= n
    ensures Turns(Start(), turns, n)
    ensures i < n ==> WorkerWaits(Reached(Start(), turns, n), n, i + 1)
    ensures i == n ==> Deadlock(Reached(Start(), turns, n), n)
    ensures i == n ==> Reached(Start(), turns, n).s.sockets == Numbers(n / 2 + 1)
  {
    hide Turns, Reached;
    NumbersAre(n / 2 + 1);
    assert 1 in Numbers(n / 2 + 1);
    TurnOn(Start(), was, Main(Remove(1, true, 0)), n);
    turns := was + [Main(Remove(1, true, 0))];
  }

  lemma {:induction false} FillThread(was: seq<Turn>, n: nat, i: nat) returns (turns: seq<Turn>)
    requires Turns(Start(), was, n) && WorkerWaits(Reached(Start(), was, n), n, i) && i <= n
    ensures Turns(Start(), turns, n)
    ensures Deadlock(Reached(Start(), turns, n), n) && Reached(Start(), turns, n).s.sockets == Numbers(n / 2 + 1)
    decreases n - i
  {
    hide Turns, Reached, WorkerWaits, Deadlock;
    turns := AskOnce(was, n, i);
    if i < n {
      turns := FillThread(turns, n, i + 1);
    }
  }

  /** Drivers are only ever added, so no more have been open than there are in the end. */
  lemma {:induction false} FewInTheEnd(c: Engine, turns: seq<Turn>, n: nat, k: nat)
    requires Turns(c, turns, n) && |Reached(c, turns, n).s.sockets.Keys| <= k
    ensures FewOpen(c, turns, n, k) && c.s.sockets.Keys <= Reached(c, turns, n).s.sockets.Keys
    decreases |turns|
  {
    hide Can, Step;
    if turns != [] {
      FewInTheEnd(Step(c, turns[0], n), turns[1..], n, k);
      OnlyAdded(c, turns[0], n);
    }
    assert OpenDrivers(c.s) <= Reached(c, turns, n).s.sockets.Keys;
    SubsetSize(OpenDrivers(c.s), Reached(c, turns, n).s.sockets.Keys);
  }

  lemma OnlyAdded(c: Engine, t: Turn, n: nat)
    requires Can(c, t, n)
    ensures c.s.sockets.Keys <= Step(c, t, n).s.sockets.Keys
  {
    hide Do;
    if t.Main? { MainLeaves(c.s, t.a); } else { WorkerLeaves(c.s, t.a); }
  }

  lemma {:induction false} FewNow(c: Engine, turns: seq<Turn>, n: nat, k: nat)
    requires Turns(c, turns, n) && FewOpen(c, turns, n, k)
    ensures |OpenDrivers(Reached(c, turns, n).s)| <= k
    decreases |turns|
  {
    hide Can, Step;
    if turns != [] {
      FewNow(Step(c, turns[0], n), turns[1..], n, k);
    }
  }

  /** With queues of `n` places and never more than `k` drivers open, the two threads can come to wait for each other if
      and only if `2 * k > n`. */
  lemma DeadlockIff(n: nat, k: nat)
    requires n > 0
    ensures (exists turns ::
        Turns(Start(), turns, n) && FewOpen(Start(), turns, n, k) && Deadlock(Reached(Start(), turns, n), n)) <==>
      2 * k > n
  {
    hide Turns, Reached, FewOpen, Stage, WorkerWaits;
    if 2 * k > n {
      var turns := FillMain(n, n);
      turns := MainIsFull(turns, n);
      turns := FillThread(turns, n, 0);
      NumbersAre(n / 2 + 1);
      FewInTheEnd(Start(), turns, n, k);
    }
    forall turns | Turns(Start(), turns, n) && FewOpen(Start(), turns, n, k) && Deadlock(Reached(Start(), turns, n), n)
      ensures 2 * k > n
    {
      StartSound(n);
      TurnsSound(Start(), turns, n);
      WaitTakesDrivers(Reached(Start(), turns, n), n);
      FewNow(Start(), turns, n, k);
    }
  }
}
