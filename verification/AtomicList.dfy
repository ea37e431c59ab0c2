/** The lock-free list of Project/Public/AtomicIntrusiveLinkedList.h: any number of threads in `insertHead`, interleaved
    with one thread in `sweep` or `reverseSweep` at the granularity of single loads, stores and atomic operations. */
module AtomicList {
  import opened Seqs

  /** An element, by address. */
  type Ptr = nat

  const NULL: Ptr := 0

  /** Where a thread stands in `insertHead`: before the store to `next(t)`, or before the compare-and-exchange. */
  datatype Inserter = ToLink(t: Ptr, oldHead: Ptr) | ToSwap(t: Ptr, oldHead: Ptr)

  /** Where the sweeping thread stands: outside; in `reverse`; in `unlinkAll`; before the call of `func`. `again` marks
      `sweep`, which starts over until it finds the list empty. */
  datatype Sweeper =
    | Resting
    | Reversing(head: Ptr, rhead: Ptr)
    | Unlinking(head: Ptr, again: bool)
    | Calling(t: Ptr, head: Ptr, again: bool)

  /** Memory: `next` is null for addresses it does not list. */
  datatype Memory = Memory(head: Ptr, next: map<Ptr, Ptr>, inserters: map<nat, Inserter>, sweeper: Sweeper)

  /** What an observer has seen: the insertions in the order of their successful exchanges, what each of them returned,
      the elements taken by the sweeper in the order in which it owes them to `func`, the calls made so far, and the
      numbers of insertions at which the list was empty. */
  datatype History = History(cas: seq<Ptr>, answers: seq<bool>, due: seq<Ptr>, delivered: seq<Ptr>, cuts: set<nat>)

  datatype World = World(m: Memory, h: History)

  function Next(next: map<Ptr, Ptr>, p: Ptr): Ptr {
    if p in next then next[p] else NULL
  }

  function Reverse<T>(s: seq<T>): (r: seq<T>)
    ensures |r| == |s|
  {
    if s == [] then [] else Reverse(s[1..]) + [s[0]]
  }

  // ---------------------------------------------------------------------------------------------------------
  // Steps

  datatype Action =
    | Load(i: nat, t: Ptr)
    | Link(i: nat)
    | Swap(i: nat, spurious: bool)
    | Exchange(again: bool)
    | ReverseStep
    | UnlinkStep
    | Call

  /** What is in the list, oldest first, as the history has it. */
  function Waiting(h: History): seq<Ptr>
  {
    if |h.due| <= |h.cas| then h.cas[|h.due|..] else []
  }

  /** What the sweeper has taken and not delivered yet. */
  function Undelivered(h: History): seq<Ptr>
  {
    if |h.delivered| <= |h.due| then h.due[|h.delivered|..] else []
  }

  /** Some thread is about to insert it. */
  ghost predicate Busy(inserters: map<nat, Inserter>, t: Ptr) {
    exists i :: i in inserters && inserters[i].t == t
  }

  /** An element that a caller may insert: it is neither in the list nor with the sweeper nor being inserted. */
  ghost predicate Free(w: World, t: Ptr) {
    t != NULL && t !in Waiting(w.h) && t !in Undelivered(w.h) && !Busy(w.m.inserters, t)
  }

  ghost predicate Enabled(w: World, a: Action) {
    match a
    case Load(i, t) => i !in w.m.inserters && Free(w, t)
    case Link(i) => i in w.m.inserters && w.m.inserters[i].ToLink?
    case Swap(i, _) => i in w.m.inserters && w.m.inserters[i].ToSwap?
    case Exchange(again) => w.m.sweeper.Resting? || (w.m.sweeper == Unlinking(NULL, true) && again)
    case ReverseStep => w.m.sweeper.Reversing?
    case UnlinkStep => w.m.sweeper.Unlinking? && w.m.sweeper != Unlinking(NULL, true)
    case Call => w.m.sweeper.Calling?
  }

  ghost function Do(w: World, a: Action): World
    requires Enabled(w, a)
  {
    var m, h := w.m, w.h;
    match a
    case Load(i, t) =>
      w.(m := m.(inserters := m.inserters[i := ToLink(t, m.head)]))
    case Link(i) =>
      var ins := m.inserters[i];
      w.(m := m.(next := m.next[ins.t := ins.oldHead], inserters := m.inserters[i := ToSwap(ins.t, ins.oldHead)]))
    case Swap(i, spurious) =>
      var ins := m.inserters[i];
      if m.head == ins.oldHead && !spurious then
        World(m.(head := ins.t, inserters := m.inserters - {i}),
              h.(cas := h.cas + [ins.t], answers := h.answers + [ins.oldHead == NULL]))
      else
        w.(m := m.(inserters := m.inserters[i := ToLink(ins.t, m.head)]))
    case Exchange(again) =>
      var batch := Waiting(h);
      World(m.(head := NULL,
               sweeper := if m.head == NULL && again then Resting
                          else if again then Reversing(m.head, NULL)
                          else Unlinking(m.head, false)),
            h.(due := h.due + (if again then batch else Reverse(batch)), cuts := h.cuts + {|h.cas|}))
    case ReverseStep =>
      var Reversing(t, rhead) := m.sweeper;
      if t == NULL then w.(m := m.(sweeper := Unlinking(rhead, true)))
      else w.(m := m.(next := m.next[t := rhead], sweeper := Reversing(Next(m.next, t), t)))
    case UnlinkStep =>
      var Unlinking(t, again) := m.sweeper;
      if t == NULL then w.(m := m.(sweeper := Resting))
      else w.(m := m.(next := m.next[t := NULL], sweeper := Calling(t, Next(m.next, t), again)))
    case Call =>
      var Calling(t, head, again) := m.sweeper;
      World(m.(sweeper := Unlinking(head, again)), h.(delivered := h.delivered + [t]))
  }

  function Initial(): World {
    World(Memory(NULL, map[], map[], Resting), History([], [], [], [], {0}))
  }

  ghost predicate Runs(w: World, actions: seq<Action>)
    decreases |actions|
  {
    actions == [] || (Enabled(w, actions[0]) && Runs(Do(w, actions[0]), actions[1..]))
  }

  ghost function After(w: World, actions: seq<Action>): World
    requires Runs(w, actions)
    decreases |actions|
  {
    if actions == [] then w else After(Do(w, actions[0]), actions[1..])
  }

  // ---------------------------------------------------------------------------------------------------------
  // The invariant

  /** The links from `p` on spell `s` and end there: the chain has no cycle. */
  ghost predicate Chain(next: map<Ptr, Ptr>, p: Ptr, s: seq<Ptr>)
    decreases |s|
  {
    if s == [] then p == NULL
    else p == s[0] && p != NULL && Chain(next, Next(next, p), s[1..])
  }

  /** The chains in memory: the shared list, what `reverse` has still to turn round, and what is ready for
      `unlinkAll`. */
  datatype View = View(shared: seq<Ptr>, front: seq<Ptr>, ready: seq<Ptr>)

  ghost predicate Linked(m: Memory, v: View) {
    && Chain(m.next, m.head, v.shared)
    && match m.sweeper
       case Resting => v.front == [] && v.ready == []
       case Reversing(head, rhead) => Chain(m.next, head, v.front) && Chain(m.next, rhead, v.ready)
       case Unlinking(head, _) => v.front == [] && Chain(m.next, head, v.ready)
       case Calling(t, head, _) => v.front == [] && Chain(m.next, head, v.ready)
  }

  /** The element that `func` is about to get. */
  function InHand(sw: Sweeper): seq<Ptr> {
    if sw.Calling? then [sw.t] else []
  }

  /** What the sweeper holds, in the order in which it will deliver it. */
  ghost function Held(m: Memory, v: View): seq<Ptr> {
    InHand(m.sweeper) + Reverse(v.front) + v.ready
  }

  /** No element is in two places. */
  ghost predicate Apart(m: Memory, v: View) {
    && NoDup(v.shared) && NoDup(Held(m, v))
    && (forall x :: x in v.shared ==> x !in Held(m, v))
    && Private(m, v)
  }

  /** The elements of threads are their own. */
  ghost predicate Private(m: Memory, v: View) {
    && (forall i :: i in m.inserters ==>
         m.inserters[i].t != NULL && m.inserters[i].t !in v.shared && m.inserters[i].t !in Held(m, v))
    && (forall i, j :: i in m.inserters && j in m.inserters && i != j ==> m.inserters[i].t != m.inserters[j].t)
  }

  /** A thread before its exchange has stored what it expects to find. */
  ghost predicate Stored(m: Memory) {
    forall i :: i in m.inserters && m.inserters[i].ToSwap? ==>
      Next(m.next, m.inserters[i].t) == m.inserters[i].oldHead
  }

  /** History and memory agree: the elements of the shared list are the insertions since the last exchange, newest
      first; the sweeper holds what it still owes. */
  ghost predicate Told(w: World, v: View) {
    && |w.h.delivered| <= |w.h.due| <= |w.h.cas| == |w.h.answers|
    && w.h.cas == w.h.cas[..|w.h.due|] + Reverse(v.shared)
    && w.h.due == w.h.delivered + Held(w.m, v)
    && multiset(w.h.due) == multiset(w.h.cas[..|w.h.due|])
  }

  /** Where the list was empty, and what `insertHead` said then. */
  ghost predicate Answered(h: History) {
    && |h.answers| == |h.cas|
    && |h.due| in h.cuts && (forall c :: c in h.cuts ==> c <= |h.due|)
    && (forall k :: 0 <= k < |h.answers| ==> (h.answers[k] <==> k in h.cuts))
  }

  /** Elements that are nowhere have no successor: the assertion at the start of `insertHead` cannot fail. */
  ghost predicate FreeIsUnlinked(m: Memory, v: View) {
    forall x :: x !in v.shared && x !in v.front && x !in v.ready && !Busy(m.inserters, x) ==> Next(m.next, x) == NULL
  }

  ghost predicate Inv(w: World, v: View) {
    Linked(w.m, v) && Apart(w.m, v) && Stored(w.m) && Told(w, v) && Answered(w.h) && FreeIsUnlinked(w.m, v)
  }

  // ---------------------------------------------------------------------------------------------------------
  // Sequences

  lemma {:induction false} ReverseAppend<T>(a: seq<T>, b: seq<T>)
    ensures Reverse(a + b) == Reverse(b) + Reverse(a)
  {
    if a == [] {
      assert a + b == b;
    } else {
      ReverseAppend(a[1..], b);
      assert (a + b)[1..] == a[1..] + b;
    }
  }

  lemma {:induction false} ReverseTwice<T>(s: seq<T>)
    ensures Reverse(Reverse(s)) == s
  {
    if s != [] {
      ReverseTwice(s[1..]);
      ReverseAppend(Reverse(s[1..]), [s[0]]);
      ReverseOne(s[0]);
    }
  }

  lemma ReverseOne<T>(x: T)
    ensures Reverse([x]) == [x]
  {
    assert [x][1..] == [];
  }

  lemma {:induction false} ReverseSame<T>(s: seq<T>)
    ensures multiset(Reverse(s)) == multiset(s)
    ensures forall x :: x in Reverse(s) <==> x in s
  {
    if s != [] {
      ReverseSame(s[1..]);
      assert s == [s[0]] + s[1..];
    }
  }

  lemma ReverseNoDup<T>(s: seq<T>)
    requires NoDup(s)
    ensures NoDup(Reverse(s))
  {
    ReverseSame(s);
    NoDupMultiset(s);
    NoDupMultiset(Reverse(s));
  }

  // ---------------------------------------------------------------------------------------------------------
  // Chains

  /** A store to an element outside a chain leaves the chain alone. */
  lemma {:induction false} ChainFrame(next: map<Ptr, Ptr>, p: Ptr, s: seq<Ptr>, x: Ptr, y: Ptr)
    requires Chain(next, p, s) && x !in s
    ensures Chain(next[x := y], p, s)
    decreases |s|
  {
    if s != [] {
      assert s[0] in s;
      ChainFrame(next, Next(next, p), s[1..], x, y);
    }
  }

  lemma ChainHead(next: map<Ptr, Ptr>, p: Ptr, s: seq<Ptr>)
    requires Chain(next, p, s)
    ensures p == NULL <==> s == []
    ensures s != [] ==> p == s[0] && Chain(next, Next(next, p), s[1..])
  {
  }

  /** Putting an element in front of a chain. */
  lemma ChainPush(next: map<Ptr, Ptr>, p: Ptr, s: seq<Ptr>, t: Ptr)
    requires Chain(next, p, s) && t != NULL && Next(next, t) == p
    ensures Chain(next, t, [t] + s)
  {
    assert ([t] + s)[1..] == s;
  }

  // ---------------------------------------------------------------------------------------------------------
  // Every step keeps the invariant

  /** The chains after a step. */
  ghost function NextView(w: World, v: View, a: Action): View
    requires Enabled(w, a)
  {
    match a
    case Swap(i, spurious) =>
      var ins := w.m.inserters[i];
      if w.m.head == ins.oldHead && !spurious then v.(shared := [ins.t] + v.shared) else v
    case Exchange(again) => if again then View([], v.shared, []) else View([], [], v.shared)
    case ReverseStep =>
      var t := w.m.sweeper.head;
      if t == NULL || v.front == [] then v else View(v.shared, v.front[1..], [t] + v.ready)
    case UnlinkStep => if v.ready == [] then v else v.(ready := v.ready[1..])
    case _ => v
  }

  lemma FreeIsApart(w: World, v: View, t: Ptr)
    requires Told(w, v) && Free(w, t)
    ensures t !in v.shared && t !in Held(w.m, v)
  {
    hide NoDup;
    ReverseSame(v.shared);
    assert w.h.cas[|w.h.due|..] == Reverse(v.shared);
    assert w.h.due[|w.h.delivered|..] == Held(w.m, v);
  }

  lemma BusyUpdate(inserters: map<nat, Inserter>, i: nat, ins: Inserter, x: Ptr)
    ensures var more := inserters[i := ins];
      && (x == ins.t ==> Busy(more, x))
      && (Busy(inserters, x) && (i in inserters ==> inserters[i].t == ins.t) ==> Busy(more, x))
      && (Busy(more, x) && x != ins.t ==> Busy(inserters, x))
  {
    var more := inserters[i := ins];
    assert i in more && more[i] == ins;
    if Busy(inserters, x) {
      var j :| j in inserters && inserters[j].t == x;
      assert j in more;
    }
    if Busy(more, x) {
      var j :| j in more && more[j].t == x;
    }
  }

  lemma PrivateUpdate(m: Memory, v: View, i: nat, ins: Inserter)
    requires Private(m, v) && ins.t != NULL && ins.t !in v.shared && ins.t !in Held(m, v)
    requires if i in m.inserters then m.inserters[i].t == ins.t else !Busy(m.inserters, ins.t)
    ensures Private(m.(inserters := m.inserters[i := ins]), v)
  {
    hide Held;
    var m' := m.(inserters := m.inserters[i := ins]);
    SweeperHolds(m, m', v);
    forall j, k | j in m'.inserters && k in m'.inserters && j != k ensures m'.inserters[j].t != m'.inserters[k].t {
      if j != i { assert j in m.inserters; }
      if k != i { assert k in m.inserters; }
    }
  }

  lemma SweeperHolds(m: Memory, m': Memory, v: View)
    requires m'.sweeper == m.sweeper
    ensures Held(m', v) == Held(m, v)
  {
  }

  lemma LoadKeeps(w: World, v: View, i: nat, t: Ptr)
    requires Inv(w, v) && Enabled(w, Load(i, t))
    ensures Inv(Do(w, Load(i, t)), v)
    ensures Next(w.m.next, t) == NULL
  {
    hide Chain, NoDup, Answered, Reverse, Busy, Private, Held;
    FreeIsApart(w, v, t);
    HeldParts(w.m, v);
    var w' := Do(w, Load(i, t));
    SweeperHolds(w.m, w'.m, v);
    PrivateUpdate(w.m, v, i, ToLink(t, w.m.head));
    forall x ensures Busy(w.m.inserters, x) ==> Busy(w'.m.inserters, x) {
      BusyUpdate(w.m.inserters, i, ToLink(t, w.m.head), x);
    }
    assert FreeIsUnlinked(w'.m, v);
    assert Stored(w'.m);
  }

  lemma HeldParts(m: Memory, v: View)
    ensures forall x :: x in Held(m, v) <==> x in InHand(m.sweeper) || x in v.front || x in v.ready
  {
    ReverseSame(v.front);
  }

  /** A store to an element that is in no chain keeps all chains. */
  lemma LinkedFrame(m: Memory, v: View, x: Ptr, y: Ptr)
    requires Linked(m, v) && x !in v.shared && x !in v.front && x !in v.ready
    ensures Linked(m.(next := m.next[x := y]), v)
  {
    hide Chain;
    ChainFrame(m.next, m.head, v.shared, x, y);
    match m.sweeper
    case Resting =>
    case Reversing(head, rhead) =>
      ChainFrame(m.next, head, v.front, x, y);
      ChainFrame(m.next, rhead, v.ready, x, y);
    case Unlinking(head, _) => ChainFrame(m.next, head, v.ready, x, y);
    case Calling(_, head, _) => ChainFrame(m.next, head, v.ready, x, y);
  }

  /** The element of thread `i` is not in a chain; its store is seen by no one else. */
  lemma LinkStored(m: Memory, v: View, i: nat)
    requires Private(m, v) && Stored(m) && i in m.inserters
    ensures var ins := m.inserters[i];
      Stored(m.(next := m.next[ins.t := ins.oldHead], inserters := m.inserters[i := ToSwap(ins.t, ins.oldHead)]))
  {
    hide Held;
  }

  lemma LinkKeeps(w: World, v: View, i: nat)
    requires Inv(w, v) && Enabled(w, Link(i))
    ensures Inv(Do(w, Link(i)), v)
  {
    hide Chain, NoDup, Answered, Reverse, Busy, Private, Held, Stored;
    var ins := w.m.inserters[i];
    var w' := Do(w, Link(i));
    Owned(w.m, v, i);
    HeldParts(w.m, v);
    LinkedFrame(w.m, v, ins.t, ins.oldHead);
    SweeperHolds(w.m, w'.m, v);
    PrivateUpdate(w.m, v, i, ToSwap(ins.t, ins.oldHead));
    LinkStored(w.m, v, i);
    forall x ensures Busy(w.m.inserters, x) ==> Busy(w'.m.inserters, x) {
      BusyUpdate(w.m.inserters, i, ToSwap(ins.t, ins.oldHead), x);
    }
    BusyUpdate(w.m.inserters, i, ToSwap(ins.t, ins.oldHead), ins.t);
    assert FreeIsUnlinked(w'.m, v);
    SameHeld(w.m, w'.m, v, w.h);
    PrivateMemory(w.m.(inserters := w'.m.inserters), w'.m, v);
  }

  lemma PrivateMemory(m: Memory, m': Memory, v: View)
    requires Private(m, v) && m'.sweeper == m.sweeper && m'.inserters == m.inserters
    ensures Private(m', v)
  {
  }

  lemma Owned(m: Memory, v: View, i: nat)
    requires Private(m, v) && i in m.inserters
    ensures var t := m.inserters[i].t; t != NULL && t !in v.shared && t !in Held(m, v)
  {
  }

  /** The element of thread `i` becomes the head. */
  function Pushed(m: Memory, i: nat): Memory
    requires i in m.inserters
  {
    m.(head := m.inserters[i].t, inserters := m.inserters - {i})
  }

  lemma PushApart(m: Memory, v: View, i: nat)
    requires Apart(m, v) && i in m.inserters
    ensures Apart(Pushed(m, i), v.(shared := [m.inserters[i].t] + v.shared))
  {
    var t := m.inserters[i].t;
    var v' := v.(shared := [t] + v.shared);
    assert Held(Pushed(m, i), v') == Held(m, v);
    assert v'.shared[1..] == v.shared;
  }

  lemma PushTold(w: World, v: View, t: Ptr)
    requires Told(w, v)
    ensures var h := w.h;
      Told(World(w.m, h.(cas := h.cas + [t], answers := h.answers + [v.shared == []])), v.(shared := [t] + v.shared))
  {
    var h := w.h;
    assert ([t] + v.shared)[1..] == v.shared;
    assert (h.cas + [t])[..|h.due|] == h.cas[..|h.due|];
  }

  /** `insertHead` returns true exactly when the list was empty. */
  lemma PushAnswered(w: World, v: View, t: Ptr)
    requires Told(w, v) && Answered(w.h)
    ensures var h := w.h; Answered(h.(cas := h.cas + [t], answers := h.answers + [v.shared == []]))
    ensures v.shared == [] <==> Waiting(w.h) == []
  {
    assert w.h.cas[|w.h.due|..] == Reverse(v.shared);
  }

  lemma RetryKeeps(w: World, v: View, i: nat, spurious: bool)
    requires Inv(w, v) && Enabled(w, Swap(i, spurious)) && (w.m.head != w.m.inserters[i].oldHead || spurious)
    ensures Inv(Do(w, Swap(i, spurious)), v)
  {
    hide Chain, NoDup, Answered, Reverse, Busy, Private, Held;
    var ins := w.m.inserters[i];
    var w' := Do(w, Swap(i, spurious));
    Owned(w.m, v, i);
    SweeperHolds(w.m, w'.m, v);
    PrivateUpdate(w.m, v, i, ToLink(ins.t, w.m.head));
    forall x ensures Busy(w.m.inserters, x) ==> Busy(w'.m.inserters, x) {
      BusyUpdate(w.m.inserters, i, ToLink(ins.t, w.m.head), x);
    }
    assert FreeIsUnlinked(w'.m, v);
    assert Stored(w'.m);
  }

  lemma BusyRemove(inserters: map<nat, Inserter>, i: nat, x: Ptr)
    requires i in inserters && Busy(inserters, x)
    ensures Busy(inserters - {i}, x) || x == inserters[i].t
  {
    var j :| j in inserters && inserters[j].t == x;
    assert j != i ==> j in inserters - {i};
  }

  lemma PushKeeps(w: World, v: View, i: nat)
    requires Inv(w, v) && Enabled(w, Swap(i, false)) && w.m.head == w.m.inserters[i].oldHead
    ensures Inv(Do(w, Swap(i, false)), NextView(w, v, Swap(i, false)))
  {
    hide Chain, NoDup, Reverse, Told, Answered, Busy, Apart, Held;
    var ins := w.m.inserters[i];
    var w', v' := Do(w, Swap(i, false)), NextView(w, v, Swap(i, false));
    OwnElement(w.m, v, i);
    ChainPush(w.m.next, w.m.head, v.shared, ins.t);
    ChainHead(w.m.next, w.m.head, v.shared);
    PushApart(w.m, v, i);
    PushTold(w, v, ins.t);
    PushAnswered(w, v, ins.t);
    SameHeld(w.m, w'.m, v', w'.h);
    forall x ensures Busy(w.m.inserters, x) ==> Busy(w'.m.inserters, x) || x == ins.t {
      if Busy(w.m.inserters, x) { BusyRemove(w.m.inserters, i, x); }
    }
    assert FreeIsUnlinked(w'.m, v');
    assert Linked(w'.m, v');
    assert Stored(w'.m);
  }

  lemma OwnElement(m: Memory, v: View, i: nat)
    requires Apart(m, v) && i in m.inserters
    ensures m.inserters[i].t != NULL
  {
  }

  lemma SwapKeeps(w: World, v: View, i: nat, spurious: bool)
    requires Inv(w, v) && Enabled(w, Swap(i, spurious))
    ensures Inv(Do(w, Swap(i, spurious)), NextView(w, v, Swap(i, spurious)))
  {
    hide Inv;
    if w.m.head == w.m.inserters[i].oldHead && !spurious {
      PushKeeps(w, v, i);
    } else {
      RetryKeeps(w, v, i, spurious);
    }
  }

  lemma SameHeld(m: Memory, m': Memory, v: View, h: History)
    requires m'.sweeper == m.sweeper && Told(World(m, h), v)
    ensures Told(World(m', h), v)
  {
  }

  // ---------------------------------------------------------------------------------------------------------
  // The sweeper's steps

  /** The same elements are held, and nobody else gets or loses one. */
  lemma ApartMoves(m: Memory, v: View, m': Memory, v': View)
    requires Apart(m, v) && m'.inserters == m.inserters
    requires v'.shared == v.shared
    requires (Held(m', v') == Held(m, v) || (Held(m, v) != [] && Held(m', v') == Held(m, v)[1..]))
    ensures Apart(m', v')
  {
    hide Held;
    if Held(m', v') != Held(m, v) {
      NoDupPrefix(Held(m, v), 1);
      assert forall x :: x in Held(m', v') ==> x in Held(m, v);
    }
  }

  lemma HoldsNothing(w: World, v: View, again: bool)
    requires Linked(w.m, v) && Enabled(w, Exchange(again))
    ensures v.front == [] && v.ready == [] && Held(w.m, v) == []
  {
    if w.m.sweeper.Unlinking? {
      ChainHead(w.m.next, NULL, v.ready);
    }
  }

  lemma TakenApart(m: Memory, v: View, m': Memory, again: bool)
    requires Apart(m, v) && Held(m, v) == [] && m'.inserters == m.inserters && InHand(m'.sweeper) == []
    ensures Apart(m', if again then View([], v.shared, []) else View([], [], v.shared))
  {
    var v' := if again then View([], v.shared, []) else View([], [], v.shared);
    TakenHeld(m', v.shared, again);
    TakenOnce(v.shared, again);
    hide Reverse, NoDup, Held;
    ApartFrom(m', v', v.shared);
  }

  lemma TakenOnce(shared: seq<Ptr>, again: bool)
    requires NoDup(shared)
    ensures var held := if again then Reverse(shared) else shared; NoDup(held) && forall x :: x in held <==> x in shared
  {
    if again {
      ReverseNoDup(shared);
      ReverseSame(shared);
    }
  }

  lemma ApartFrom(m: Memory, v: View, shared: seq<Ptr>)
    requires v.shared == [] && NoDup(Held(m, v)) && forall x :: x in Held(m, v) <==> x in shared
    requires forall i :: i in m.inserters ==> m.inserters[i].t != NULL && m.inserters[i].t !in shared
    requires forall i, j :: i in m.inserters && j in m.inserters && i != j ==> m.inserters[i].t != m.inserters[j].t
    ensures Apart(m, v)
  {
    hide Held;
  }

  lemma TakenHeld(m: Memory, shared: seq<Ptr>, again: bool)
    requires InHand(m.sweeper) == []
    ensures Held(m, if again then View([], shared, []) else View([], [], shared)) ==
      if again then Reverse(shared) else shared
  {
    ReverseNone();
    hide Reverse;
  }

  lemma TakenTold(w: World, v: View, w': World, again: bool)
    requires Told(w, v) && Held(w.m, v) == [] && InHand(w'.m.sweeper) == []
    requires w'.h == w.h.(due := w.h.due + (if again then Waiting(w.h) else Reverse(Waiting(w.h))),
      cuts := w.h.cuts + {|w.h.cas|})
    ensures Told(w', if again then View([], v.shared, []) else View([], [], v.shared))
    ensures |w'.h.due| == |w.h.cas|
  {
    hide Reverse;
    var v' := if again then View([], v.shared, []) else View([], [], v.shared);
    var batch := Reverse(v.shared);
    TakenBatch(w, v);
    ReverseTwice(v.shared);
    ReverseNone();
    assert Held(w'.m, v') == if again then batch else v.shared;
    var taken := if again then batch else v.shared;
    ReverseSame(v.shared);
    TakenLists(w.h, batch, taken);
    assert w'.h.due == w.h.due + taken;
  }

  lemma ReverseNone()
    ensures Reverse<Ptr>([]) == []
  {
  }

  lemma TakenBatch(w: World, v: View)
    requires Told(w, v) && Held(w.m, v) == []
    ensures Waiting(w.h) == Reverse(v.shared) && w.h.due == w.h.delivered
  {
    hide Reverse, Held;
    assert w.h.delivered + [] == w.h.delivered;
  }

  lemma TakenLists(h: History, batch: seq<Ptr>, taken: seq<Ptr>)
    requires |h.due| <= |h.cas| && h.cas == h.cas[..|h.due|] + batch && multiset(taken) == multiset(batch)
    requires multiset(h.due) == multiset(h.cas[..|h.due|])
    ensures |h.due + taken| == |h.cas| && h.cas[..|h.cas|] == h.cas + []
    ensures multiset(h.due + taken) == multiset(h.cas[..|h.cas|])
  {
    assert |multiset(taken)| == |taken| && |multiset(batch)| == |batch|;
    assert h.cas[..|h.cas|] == h.cas;
  }

  lemma TakenAnswered(h: History)
    requires Answered(h) && |h.due| <= |h.cas|
    ensures forall due :: |due| == |h.cas| ==> Answered(h.(due := due, cuts := h.cuts + {|h.cas|}))
  {
  }

  lemma ExchangeKeeps(w: World, v: View, again: bool)
    requires Inv(w, v) && Enabled(w, Exchange(again))
    ensures Inv(Do(w, Exchange(again)), NextView(w, v, Exchange(again)))
  {
    hide Reverse, NoDup, Busy, Told, Answered, Apart, Waiting, Held;
    var w', v' := Do(w, Exchange(again)), NextView(w, v, Exchange(again));
    HoldsNothing(w, v, again);
    TakenApart(w.m, v, w'.m, again);
    TakenTold(w, v, w', again);
    Counts(w, v);
    TakenAnswered(w.h);
    ChainHead(w.m.next, w.m.head, v.shared);
    assert Linked(w'.m, v');
  }

  lemma Counts(w: World, v: View)
    requires Told(w, v)
    ensures |w.h.delivered| <= |w.h.due| <= |w.h.cas|
  {
  }

  lemma ToldMoves(w: World, v: View, m': Memory, v': View)
    requires Told(w, v) && v'.shared == v.shared && Held(m', v') == Held(w.m, v)
    ensures Told(World(m', w.h), v')
  {
  }

  lemma TurnHeld(m: Memory, v: View, m': Memory, v': View)
    requires m.sweeper.Reversing? && m'.sweeper.Reversing? && v.front != []
    requires v' == View(v.shared, v.front[1..], [v.front[0]] + v.ready)
    ensures Held(m', v') == Held(m, v)
  {
  }

  /** Turning the first link of the remaining chain round. */
  lemma TurnLinked(m: Memory, v: View)
    requires Linked(m, v) && m.sweeper.Reversing? && v.front != [] && NoDup(v.front)
    requires v.front[0] !in v.shared && v.front[0] !in v.ready
    ensures m.sweeper.head == v.front[0]
    ensures var t := m.sweeper.head;
      Linked(m.(next := m.next[t := m.sweeper.rhead], sweeper := Reversing(Next(m.next, t), t)),
             View(v.shared, v.front[1..], [t] + v.ready))
  {
    hide Chain;
    var Reversing(t, rhead) := m.sweeper;
    ChainHead(m.next, t, v.front);
    ChainFrame(m.next, m.head, v.shared, t, rhead);
    ChainFrame(m.next, Next(m.next, t), v.front[1..], t, rhead);
    ChainFrame(m.next, rhead, v.ready, t, rhead);
    ChainPush(m.next[t := rhead], rhead, v.ready, t);
  }

  /** The elements of the sweeper are in its chains once. */
  lemma HeldApart(m: Memory, v: View)
    requires Apart(m, v)
    ensures NoDup(v.front) && NoDup(v.ready)
    ensures forall x :: x in v.front ==> x !in v.shared && x !in v.ready
    ensures forall x :: x in v.ready ==> x !in v.shared
    ensures forall x :: x in InHand(m.sweeper) ==> x !in v.front && x !in v.ready && x !in v.shared
  {
    hide Reverse;
    ReverseSame(v.front);
    HeldParts(m, v);
    NoDupMultiset(Held(m, v));
    NoDupMultiset(v.front);
    NoDupMultiset(v.ready);
    assert multiset(Held(m, v)) == multiset(InHand(m.sweeper)) + multiset(v.front) + multiset(v.ready);
    forall x ensures multiset(InHand(m.sweeper))[x] + multiset(v.front)[x] + multiset(v.ready)[x] <= 1 {
      assert multiset(Held(m, v))[x] <= 1;
    }
    Counted(InHand(m.sweeper));
    Counted(v.front);
    Counted(v.ready);
  }

  lemma Counted(s: seq<Ptr>)
    ensures forall x :: x in s <==> multiset(s)[x] >= 1
  {
  }

  lemma StoredFrame(m: Memory, v: View, x: Ptr, y: Ptr, sw: Sweeper)
    requires Stored(m) && Private(m, v) && (x in v.shared || x in Held(m, v))
    ensures Stored(m.(next := m.next[x := y], sweeper := sw))
  {
    hide Held;
  }

  lemma ReverseStepKeeps(w: World, v: View)
    requires Inv(w, v) && Enabled(w, ReverseStep)
    ensures Inv(Do(w, ReverseStep), NextView(w, v, ReverseStep))
  {
    hide Reverse, NoDup, Busy, Told, Answered, Chain, Held, Stored;
    var w', v' := Do(w, ReverseStep), NextView(w, v, ReverseStep);
    ChainHead(w.m.next, w.m.sweeper.head, v.front);
    if w.m.sweeper.head == NULL {
      DoneHeld(w.m, v, w'.m);
      Untouched(w.m, w'.m);
    } else {
      HeldApart(w.m, v);
      HeldParts(w.m, v);
      TurnLinked(w.m, v);
      TurnHeld(w.m, v, w'.m, v');
      StoredFrame(w.m, v, v.front[0], w.m.sweeper.rhead, w'.m.sweeper);
      assert forall x :: x in v.front ==> x in v'.front || x in v'.ready;
      assert FreeIsUnlinked(w'.m, v');
    }
    ApartMoves(w.m, v, w'.m, v');
    ToldMoves(w, v, w'.m, v');
  }

  lemma DoneHeld(m: Memory, v: View, m': Memory)
    requires v.front == [] && m.sweeper.Reversing? && m'.sweeper.Unlinking?
    ensures Held(m', v) == Held(m, v)
  {
  }

  lemma Untouched(m: Memory, m': Memory)
    requires Stored(m) && m'.inserters == m.inserters && m'.next == m.next
    ensures Stored(m')
  {
  }

  lemma TakeLinked(m: Memory, v: View)
    requires Linked(m, v) && m.sweeper.Unlinking? && v.ready != [] && NoDup(v.ready) && v.ready[0] !in v.shared
    ensures m.sweeper.head == v.ready[0]
    ensures var t := m.sweeper.head;
      Linked(m.(next := m.next[t := NULL], sweeper := Calling(t, Next(m.next, t), m.sweeper.again)),
             v.(ready := v.ready[1..]))
  {
    hide Chain;
    var t := m.sweeper.head;
    ChainHead(m.next, t, v.ready);
    ChainFrame(m.next, m.head, v.shared, t, NULL);
    ChainFrame(m.next, Next(m.next, t), v.ready[1..], t, NULL);
  }

  lemma TakeHeld(m: Memory, v: View, m': Memory)
    requires m.sweeper.Unlinking? && v.ready != [] && v.front == []
    requires m'.sweeper.Calling? && m'.sweeper.t == v.ready[0]
    ensures Held(m', v.(ready := v.ready[1..])) == Held(m, v)
  {
  }

  lemma UnlinkStepKeeps(w: World, v: View)
    requires Inv(w, v) && Enabled(w, UnlinkStep)
    ensures Inv(Do(w, UnlinkStep), NextView(w, v, UnlinkStep))
  {
    hide Reverse, NoDup, Busy, Told, Answered, Chain, Held, Stored;
    var w', v' := Do(w, UnlinkStep), NextView(w, v, UnlinkStep);
    ChainHead(w.m.next, w.m.sweeper.head, v.ready);
    if w.m.sweeper.head == NULL {
      EmptyHeld(w.m, v, w'.m);
      Untouched(w.m, w'.m);
    } else {
      HeldApart(w.m, v);
      HeldParts(w.m, v);
      TakeLinked(w.m, v);
      TakeHeld(w.m, v, w'.m);
      StoredFrame(w.m, v, v.ready[0], NULL, w'.m.sweeper);
      assert forall x :: x in v.ready ==> x in v'.ready || x == v.ready[0];
      assert FreeIsUnlinked(w'.m, v');
    }
    ApartMoves(w.m, v, w'.m, v');
    ToldMoves(w, v, w'.m, v');
  }

  lemma EmptyHeld(m: Memory, v: View, m': Memory)
    requires v.front == [] && v.ready == [] && m.sweeper.Unlinking? && m'.sweeper.Resting?
    ensures Held(m', v) == Held(m, v)
  {
  }

  lemma CallKeeps(w: World, v: View)
    requires Inv(w, v) && Enabled(w, Call)
    ensures Inv(Do(w, Call), v)
  {
    hide Reverse, NoDup, Busy, Answered, Chain, Held, Stored, Apart, Told;
    var w' := Do(w, Call);
    CallHeld(w.m, v, w'.m);
    ApartMoves(w.m, v, w'.m, v);
    Untouched(w.m, w'.m);
    CallTold(w, v, w'.m);
    CallAnswered(w.h, w.m.sweeper.t);
  }

  lemma CallTold(w: World, v: View, m': Memory)
    requires Told(w, v) && w.m.sweeper.Calling? && Held(w.m, v) == [w.m.sweeper.t] + Held(m', v)
    ensures Told(World(m', w.h.(delivered := w.h.delivered + [w.m.sweeper.t])), v)
  {
    hide Held;
    assert w.h.delivered + ([w.m.sweeper.t] + Held(m', v)) == w.h.delivered + [w.m.sweeper.t] + Held(m', v);
  }

  lemma CallAnswered(h: History, t: Ptr)
    requires Answered(h)
    ensures Answered(h.(delivered := h.delivered + [t]))
  {
  }

  lemma CallHeld(m: Memory, v: View, m': Memory)
    requires m.sweeper.Calling? && m'.sweeper.Unlinking?
    ensures Held(m, v) == [m.sweeper.t] + Held(m', v)
    ensures Held(m, v)[1..] == Held(m', v)
  {
  }

  // ---------------------------------------------------------------------------------------------------------
  // Every run

  lemma StepKeeps(w: World, v: View, a: Action)
    requires Inv(w, v) && Enabled(w, a)
    ensures Inv(Do(w, a), NextView(w, v, a))
  {
    hide Inv;
    match a
    case Load(i, t) => LoadKeeps(w, v, i, t);
    case Link(i) => LinkKeeps(w, v, i);
    case Swap(i, spurious) => SwapKeeps(w, v, i, spurious);
    case Exchange(again) => ExchangeKeeps(w, v, again);
    case ReverseStep => ReverseStepKeeps(w, v);
    case UnlinkStep => UnlinkStepKeeps(w, v);
    case Call => CallKeeps(w, v);
  }

  lemma InitialInv()
    ensures Inv(Initial(), View([], [], []))
  {
  }

  lemma {:induction false} RunKeeps(w: World, v: View, actions: seq<Action>) returns (v': View)
    requires Inv(w, v) && Runs(w, actions)
    ensures Inv(After(w, actions), v')
    decreases |actions|
  {
    hide Inv, Enabled, Do;
    v' := v;
    if actions != [] {
      StepKeeps(w, v, actions[0]);
      v' := RunKeeps(Do(w, actions[0]), NextView(w, v, actions[0]), actions[1..]);
    }
  }

  /** Whatever the interleaving, and however often elements are reused: the links spell three chains without cycles or
      common elements; the list holds the insertions since the last exchange, newest first; the sweeper holds what it
      has taken and not delivered; and together with the elements delivered these are the elements inserted. */
  lemma EveryRun(actions: seq<Action>) returns (v: View)
    requires Runs(Initial(), actions)
    ensures var w := After(Initial(), actions);
      && Linked(w.m, v) && Apart(w.m, v)
      && Waiting(w.h) == Reverse(v.shared)
      && w.h.due == w.h.delivered + Held(w.m, v)
      && multiset(w.h.delivered) + multiset(Held(w.m, v)) + multiset(v.shared) == multiset(w.h.cas)
  {
    hide Linked, Apart, Stored, Answered, FreeIsUnlinked, Held;
    InitialInv();
    v := RunKeeps(Initial(), View([], [], []), actions);
    var w := After(Initial(), actions);
    ReverseSame(v.shared);
    assert multiset(w.h.cas[..|w.h.due|] + Reverse(v.shared)) == multiset(w.h.due) + multiset(v.shared);
  }

  /** What `insertHead` is about to return says whether the list is empty. */
  lemma AnswerIsEmptiness(actions: seq<Action>, i: nat)
    requires Runs(Initial(), actions) && Enabled(After(Initial(), actions), Swap(i, false))
    requires var m := After(Initial(), actions).m; m.head == m.inserters[i].oldHead
    ensures var w := After(Initial(), actions);
      w.m.inserters[i].oldHead == NULL <==> Waiting(w.h) == []
  {
    var w := After(Initial(), actions);
    var v := EveryRun(actions);
    ChainHead(w.m.next, w.m.head, v.shared);
  }

  /** `insertHead` returned true for the insertions into an empty list and for no others. */
  lemma TrueWhenEmpty(actions: seq<Action>)
    requires Runs(Initial(), actions)
    ensures var h := After(Initial(), actions).h;
      |h.answers| == |h.cas| && forall k :: 0 <= k < |h.answers| ==> (h.answers[k] <==> k in h.cuts)
  {
    InitialInv();
    var v := RunKeeps(Initial(), View([], [], []), actions);
  }

  /** The check at the start of `insertHead` holds for every element that is not in use. */
  lemma HookIsClear(actions: seq<Action>, t: Ptr)
    requires Runs(Initial(), actions) && Free(After(Initial(), actions), t)
    ensures Next(After(Initial(), actions).m.next, t) == NULL
  {
    InitialInv();
    var v := RunKeeps(Initial(), View([], [], []), actions);
    var w := After(Initial(), actions);
    FreeIsApart(w, v, t);
    HeldParts(w.m, v);
  }

  predicate OnlySweeps(actions: seq<Action>) {
    forall k :: 0 <= k < |actions| && actions[k].Exchange? ==> actions[k].again
  }

  lemma {:induction false} TakenInOrder(w: World, v: View, actions: seq<Action>)
    requires Inv(w, v) && Runs(w, actions) && OnlySweeps(actions) && w.h.due <= w.h.cas
    ensures After(w, actions).h.due <= After(w, actions).h.cas
    decreases |actions|
  {
    hide Inv, Enabled;
    if actions != [] {
      StepKeeps(w, v, actions[0]);
      assert Do(w, actions[0]).h.due <= Do(w, actions[0]).h.cas;
      TakenInOrder(Do(w, actions[0]), NextView(w, v, actions[0]), actions[1..]);
    }
  }

  /** As long as `sweep` is used, the elements delivered, then those with the sweeper, then the list from its tail,
      spell the order in which the insertions took effect. */
  lemma SpellsOrder(actions: seq<Action>) returns (v: View)
    requires Runs(Initial(), actions) && OnlySweeps(actions)
    ensures var w := After(Initial(), actions);
      Linked(w.m, v) && Apart(w.m, v) && w.h.delivered + Held(w.m, v) + Reverse(v.shared) == w.h.cas
  {
    hide Linked, Apart, Stored, Answered, FreeIsUnlinked, Held, Reverse;
    InitialInv();
    TakenInOrder(Initial(), View([], [], []), actions);
    v := RunKeeps(Initial(), View([], [], []), actions);
  }

  /** When `sweep` is about to return, every insertion made so far has been delivered. */
  lemma SweepIsComplete(actions: seq<Action>)
    requires Runs(Initial(), actions) && OnlySweeps(actions)
    requires var w := After(Initial(), actions); Enabled(w, Exchange(true)) && w.m.head == NULL
    ensures After(Initial(), actions).h.delivered == After(Initial(), actions).h.cas
  {
    var w := After(Initial(), actions);
    var v := SpellsOrder(actions);
    HoldsNothing(w, v, true);
    ChainHead(w.m.next, w.m.head, v.shared);
  }
}
