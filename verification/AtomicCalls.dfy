/** What the calls on the lock-free list of Project/Public/AtomicIntrusiveLinkedList.h come to when the other threads
    stand still: from any state of any run, each comes to its end and does what it is for. */
module AtomicCalls {
  import opened Seqs
  import opened AtomicList

  lemma First(w: World, a: Action, b: seq<Action>)
    requires Enabled(w, a) && Runs(Do(w, a), b)
    ensures Runs(w, [a] + b) && After(w, [a] + b) == After(Do(w, a), b)
  {
    hide Enabled, Do;
    assert ([a] + b)[1..] == b;
  }

  lemma NoSteps(w: World)
    ensures Runs(w, []) && After(w, []) == w
  {
  }

  /** How many steps the sweeper has still to take. */
  function Left(sw: Sweeper, v: View): nat {
    match sw
    case Resting => 0
    case Reversing(_, _) => 2 * (|v.front| + |v.ready|) + |v.front| + 3
    case Unlinking(_, _) => 2 * |v.ready| + 1
    case Calling(_, _, _) => 2 * |v.ready| + 2
  }

  /** The sweeper's next step before its next exchange. */
  function NextStep(sw: Sweeper): Action {
    if sw.Reversing? then ReverseStep else if sw.Calling? then Call else UnlinkStep
  }

  /** Nothing is left of what the sweeper has taken. */
  predicate Finished(sw: Sweeper) {
    sw.Resting? || sw == Unlinking(NULL, true)
  }

  lemma OneStep(w: World, v: View)
    requires Inv(w, v) && !Finished(w.m.sweeper)
    ensures Enabled(w, NextStep(w.m.sweeper))
    ensures var w', v' := Do(w, NextStep(w.m.sweeper)), NextView(w, v, NextStep(w.m.sweeper));
      && Inv(w', v') && Left(w'.m.sweeper, v') < Left(w.m.sweeper, v)
      && w'.m.head == w.m.head && w'.m.inserters == w.m.inserters && v'.shared == v.shared
      && w'.h == w.h.(delivered := w'.h.delivered)
      && (Loops(w.m.sweeper) <==> Loops(w'.m.sweeper))
  {
    hide Inv, Chain;
    StepKeeps(w, v, NextStep(w.m.sweeper));
    Heads(w, v);
  }

  /** The sweeper works for `sweep`. */
  predicate Loops(sw: Sweeper) {
    sw.Reversing? || ((sw.Unlinking? || sw.Calling?) && sw.again)
  }

  lemma Heads(w: World, v: View)
    requires Inv(w, v)
    ensures w.m.sweeper.Reversing? ==> (w.m.sweeper.head == NULL <==> v.front == [])
    ensures w.m.sweeper.Unlinking? ==> (w.m.sweeper.head == NULL <==> v.ready == []) && v.front == []
    ensures w.m.sweeper.Calling? ==> v.front == []
  {
    hide Apart, Stored, Told, Answered, FreeIsUnlinked;
    if w.m.sweeper.Reversing? { ChainHead(w.m.next, w.m.sweeper.head, v.front); }
    if w.m.sweeper.Unlinking? { ChainHead(w.m.next, w.m.sweeper.head, v.ready); }
  }

  /** What has been taken is delivered. */
  lemma {:induction false} Finishes(w: World, v: View) returns (actions: seq<Action>, v': View)
    requires Inv(w, v)
    ensures Runs(w, actions)
    ensures var w' := After(w, actions);
      && Inv(w', v') && Finished(w'.m.sweeper) && v'.shared == v.shared
      && w'.m.head == w.m.head && w'.m.inserters == w.m.inserters && w'.h == w.h.(delivered := w'.h.delivered)
      && (Loops(w.m.sweeper) <==> Loops(w'.m.sweeper))
    decreases Left(w.m.sweeper, v)
  {
    hide Inv, Do, Enabled, Runs, After;
    NoSteps(w);
    if Finished(w.m.sweeper) {
      actions, v' := [], v;
    } else {
      var a := NextStep(w.m.sweeper);
      OneStep(w, v);
      actions, v' := Finishes(Do(w, a), NextView(w, v, a));
      First(w, a, actions);
      actions := [a] + actions;
    }
  }

  /** A sweeper that holds nothing has delivered all it has taken. */
  lemma NothingHeld(w: World, v: View)
    requires Inv(w, v) && Finished(w.m.sweeper)
    ensures v.front == [] && v.ready == [] && w.h.due == w.h.delivered && Waiting(w.h) == Reverse(v.shared)
    ensures w.m.head == NULL <==> v.shared == []
    ensures |w.h.due| <= |w.h.cas| && w.h.cas[..|w.h.due|] + Waiting(w.h) == w.h.cas
  {
    hide Apart, Stored, Answered, FreeIsUnlinked, Reverse;
    Heads(w, v);
    ChainHead(w.m.next, w.m.head, v.shared);
    ReverseNone();
    assert Held(w.m, v) == [];
    assert w.h.delivered + [] == w.h.delivered;
  }

  /** After the exchange. */
  lemma Takes(w: World, v: View, again: bool)
    requires Inv(w, v) && w.m.sweeper.Resting?
    ensures Enabled(w, Exchange(again))
    ensures var w', v' := Do(w, Exchange(again)), NextView(w, v, Exchange(again));
      && Inv(w', v') && v'.shared == [] && w'.m.head == NULL && w'.m.inserters == w.m.inserters
      && w'.h.due == w.h.delivered + (if again then Waiting(w.h) else Reverse(Waiting(w.h)))
      && w'.h.cas == w.h.cas && w'.h.answers == w.h.answers
      && (Loops(w'.m.sweeper) <==> again && w.m.head != NULL)
      && (w'.m.sweeper.Resting? <==> again && w.m.head == NULL)
  {
    hide Inv, Reverse, Waiting;
    StepKeeps(w, v, Exchange(again));
    NothingHeld(w, v);
  }

  /** `reverseSweep` delivers what is in the list, the newest first. */
  lemma ReverseSweepAlone(w: World, v: View) returns (actions: seq<Action>)
    requires Inv(w, v) && w.m.sweeper.Resting?
    ensures Runs(w, actions)
    ensures var w' := After(w, actions);
      && w'.m.sweeper.Resting? && w'.m.head == NULL && w'.m.inserters == w.m.inserters
      && w'.h.delivered == w.h.delivered + Reverse(Waiting(w.h)) && w'.h.cas == w.h.cas && Waiting(w'.h) == []
  {
    hide Inv, Do, Enabled, Runs, After, Reverse, Waiting;
    Takes(w, v, false);
    var v';
    actions, v' := Finishes(Do(w, Exchange(false)), NextView(w, v, Exchange(false)));
    First(w, Exchange(false), actions);
    actions := [Exchange(false)] + actions;
    NothingHeld(After(w, actions), v');
    ReverseNone();
  }

  /** `sweep` delivers what is in the list in the order in which it was inserted, finds the list empty, and returns. */
  lemma SweepAlone(w: World, v: View) returns (actions: seq<Action>)
    requires Inv(w, v) && w.m.sweeper.Resting?
    ensures Runs(w, actions)
    ensures var w' := After(w, actions);
      && w'.m.sweeper.Resting? && w'.m.head == NULL && w'.m.inserters == w.m.inserters
      && w'.h.delivered == w.h.delivered + Waiting(w.h) && w'.h.cas == w.h.cas && Waiting(w'.h) == []
  {
    hide Inv, Do, Enabled, Runs, After, Reverse, Waiting;
    Takes(w, v, true);
    var w1 := Do(w, Exchange(true));
    var v1;
    actions, v1 := Finishes(w1, NextView(w, v, Exchange(true)));
    var w2 := After(w1, actions);
    NothingHeld(w2, v1);
    ReverseNone();
    if w2.m.sweeper.Resting? {
      First(w, Exchange(true), actions);
      actions := [Exchange(true)] + actions;
    } else {
      LastExchange(w2, v1);
      Goes(w1, actions, Exchange(true));
      First(w, Exchange(true), actions + [Exchange(true)]);
      actions := [Exchange(true)] + (actions + [Exchange(true)]);
    }
  }

  /** The exchange that finds the list empty. */
  lemma LastExchange(w: World, v: View)
    requires Inv(w, v) && w.m.sweeper == Unlinking(NULL, true) && w.m.head == NULL
    ensures Enabled(w, Exchange(true))
    ensures var w' := Do(w, Exchange(true));
      && w'.m.sweeper.Resting? && w'.m.head == NULL && w'.m.inserters == w.m.inserters
      && w'.h.delivered == w.h.delivered && w'.h.cas == w.h.cas && Waiting(w'.h) == []
  {
    hide Inv, Reverse;
    NothingHeld(w, v);
    ReverseNone();
    assert w.h.due + [] == w.h.due;
  }

  lemma {:induction false} Goes(w: World, actions: seq<Action>, a: Action)
    requires Runs(w, actions) && Enabled(After(w, actions), a)
    ensures Runs(w, actions + [a]) && After(w, actions + [a]) == Do(After(w, actions), a)
    decreases |actions|
  {
    hide Enabled, Do;
    if actions == [] {
      assert (actions + [a])[1..] == [];
    } else {
      Goes(Do(w, actions[0]), actions[1..], a);
      assert (actions + [a])[1..] == actions[1..] + [a];
    }
  }

  /** `insertHead` inserts its element and says whether the list was empty. */
  lemma InsertAlone(w: World, v: View, i: nat, t: Ptr) returns (actions: seq<Action>)
    requires Inv(w, v) && i !in w.m.inserters && Free(w, t)
    ensures Runs(w, actions)
    ensures var w' := After(w, actions);
      && w'.m.head == t && w'.m.inserters == w.m.inserters && w'.m.sweeper == w.m.sweeper
      && w'.h == w.h.(cas := w.h.cas + [t], answers := w.h.answers + [Waiting(w.h) == []])
  {
    hide Inv, Waiting, Free;
    Empty(w, v);
    var w1 := Do(w, Load(i, t));
    var w2 := Do(w1, Link(i));
    var w3 := Do(w2, Swap(i, false));
    NoSteps(w3);
    First(w2, Swap(i, false), []);
    First(w1, Link(i), [Swap(i, false)] + []);
    First(w, Load(i, t), [Link(i)] + ([Swap(i, false)] + []));
    actions := [Load(i, t)] + ([Link(i)] + ([Swap(i, false)] + []));
    assert w3.m.inserters == w.m.inserters;
  }

  lemma Empty(w: World, v: View)
    requires Inv(w, v)
    ensures w.m.head == NULL <==> Waiting(w.h) == []
  {
    hide Apart, Stored, Answered, FreeIsUnlinked, Reverse;
    ChainHead(w.m.next, w.m.head, v.shared);
    assert |Reverse(v.shared)| == |v.shared|;
  }
}
