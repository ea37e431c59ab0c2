/** What a timer goes through, as the log of its events, and what a log without a fault implies. */
module TimerHistory {
  import opened TimerArithmetic

  type Id = nat

  datatype Event =
    | Born(id: Id, plan: Plan)                   // a TimerBase was taken from the pool
    | Armed(id: Id, due: nat)                    // it was put into the wheel
    | Called(id: Id, at: nat, start: bool)       // OnStart or OnTime was entered in iteration `at`
    | Returned(id: Id)                           // the callback came back
    | Terminated(id: Id, kill: bool)             // OnTerminate was entered
    | Released(id: Id)                           // the TimerBase went back to the pool

  /** What the user asked for: repetitions after the first call, and jiffies between calls. */
  datatype Plan = Plan(count: int, interval: nat)

  /** Where a timer stands in its life.  `left` is the repetitions still to come. */
  datatype Life =
    | Unborn
    | Fresh(plan: Plan)
    | Waiting(due: nat, plan: Plan, left: int, first: bool)
    | Running(at: nat, plan: Plan, left: int)    // inside its own callback
    | Dead                                       // killed inside its own callback
    | Ready(at: nat, plan: Plan, left: int)      // about to be armed again
    | Finished                                   // ran out of repetitions
    | Stopped                                    // the callback that killed it has returned
    | Dying(due: nat)                            // killed while waiting, inside its OnTerminate
    | Ended                                      // finished, inside its OnTerminate
    | Gone
    | Bad

  function Next(l: Life, e: Event): Life {
    match (l, e)
    case (Unborn, Born(_, p)) => Fresh(p)
    case (Fresh(p), Armed(_, due)) => Waiting(due, p, p.count, true)
    case (Waiting(due, p, c, first), Called(_, at, start)) =>
      if at == due && start == first then Running(at, p, c) else Bad
    case (Waiting(due, _, _, _), Terminated(_, kill)) => if kill then Dying(due) else Bad
    case (Dying(_), Released(_)) => Gone
    case (Running(_, _, _), Terminated(_, kill)) => if kill then Dead else Bad
    case (Running(at, p, c), Returned(_)) =>
      if c == 0 then Finished else Ready(at, p, if c == FOREVER then c else c - 1)
    case (Dead, Returned(_)) => Stopped
    case (Stopped, Released(_)) => Gone
    case (Ready(at, p, c), Armed(_, due)) =>
      if due == DueOf(U64(at + 1 + p.interval), at + 1) then Waiting(due, p, c, false) else Bad
    case (Finished, Terminated(_, kill)) => if kill then Bad else Ended
    case (Ended, Released(_)) => Gone
    case _ => Bad
  }

  /** The life that a log tells of one timer. */
  function Phase(log: seq<Event>, id: Id): Life {
    if log == [] then Unborn
    else
      var l := Phase(log[..|log| - 1], id);
      if log[|log| - 1].id == id then Next(l, log[|log| - 1]) else l
  }

  lemma PhaseAppend(log: seq<Event>, e: Event, id: Id)
    ensures Phase(log + [e], id) == if e.id == id then Next(Phase(log, id), e) else Phase(log, id)
  {
    assert (log + [e])[..|log|] == log;
  }

  lemma {:induction false} PhaseAt(log: seq<Event>, id: Id, i: nat, j: nat)
    requires i <= j <= |log|
    ensures Phase(log[..i], id) == Bad ==> Phase(log[..j], id) == Bad
    ensures (forall k :: i <= k < j ==> log[k].id != id) ==> Phase(log[..j], id) == Phase(log[..i], id)
    decreases j
  {
    if i < j {
      PhaseAt(log, id, i, j - 1);
      assert log[..j][..j - 1] == log[..j - 1];
    }
  }

  lemma PhaseStep(log: seq<Event>, i: nat)
    requires i < |log|
    ensures Phase(log[..i + 1], log[i].id) == Next(Phase(log[..i], log[i].id), log[i])
  {
    assert log[..i + 1][..i] == log[..i];
  }

  ghost predicate NoneBetween(log: seq<Event>, id: Id, p: int, q: int)
    requires 0 <= p + 1 && q <= |log|
  {
    forall k :: p < k < q ==> log[k].id != id
  }

  /** What follows an arming: nothing yet, and the timer still waits for that very jiffy; or the timer's next event,
      which is its callback in exactly the iteration it is due, or its kill. */
  lemma ArmedThenCalledWhenDue(log: seq<Event>, p: nat, q: nat)
    requires p < q <= |log| && log[p].Armed? && NoneBetween(log, log[p].id, p, q)
    requires q < |log| ==> log[q].id == log[p].id
    requires Phase(log, log[p].id) != Bad
    ensures q == |log| ==> Phase(log, log[p].id).Waiting? && Phase(log, log[p].id).due == log[p].due
    ensures q < |log| ==>
      (log[q].Called? && log[q].at == log[p].due) || log[q] == Terminated(log[p].id, true)
  {
    hide Phase;
    var id := log[p].id;
    assert log[..|log|] == log;
    PhaseStep(log, p);
    PhaseAt(log, id, p + 1, |log|);
    PhaseAt(log, id, p + 1, q);
    if q < |log| {
      PhaseStep(log, q);
      PhaseAt(log, id, q + 1, |log|);
    }
  }

  /** Between two callbacks of one timer it was armed again, so one arming never leads to two callbacks. */
  lemma {:induction false} ArmedBetweenCalls(log: seq<Event>, p: nat, q: nat)
    requires p < q < |log| && log[p].Called? && log[q].Called? && log[p].id == log[q].id
    requires Phase(log, log[p].id) != Bad
    ensures exists r :: p < r < q && log[r].Armed? && log[r].id == log[p].id
  {
    hide Phase;
    if forall r :: p < r < q && log[r].id == log[p].id ==> !log[r].Armed? {
      assert log[..|log|] == log;
      PhaseStep(log, p);
      PhaseAt(log, log[p].id, p + 1, |log|);
      NotWaiting(log, p, q);
      PhaseStep(log, q);
      PhaseAt(log, log[p].id, q + 1, |log|);
    }
  }

  lemma {:induction false} NotWaiting(log: seq<Event>, p: nat, q: nat)
    requires p < q <= |log| && log[p].Called?
    requires forall r :: p < r < q && log[r].id == log[p].id ==> !log[r].Armed?
    ensures !Phase(log[..q], log[p].id).Waiting?
    decreases q
  {
    assert log[..q][..q - 1] == log[..q - 1];
    if p + 1 < q {
      NotWaiting(log, p, q - 1);
    }
  }

  /** Two consecutive callbacks of a timer: the second comes in the iteration that the interval, counted from the
      jiffy after the first, makes due. */
  lemma ConsecutiveCalls(log: seq<Event>, p: nat, q: nat)
    requires p < q < |log| && log[p].Called? && log[q].Called? && log[p].id == log[q].id
    requires forall r :: p < r < q && log[r].id == log[p].id ==> !log[r].Called?
    requires Phase(log, log[p].id) != Bad
    ensures Phase(log[..p], log[p].id).Waiting?
    ensures var i := Phase(log[..p], log[p].id).plan.interval;
            log[q].at == DueOf(U64(log[p].at + 1 + i), log[p].at + 1)
  {
    hide DueOf, U64, Phase;
    var id := log[p].id;
    assert log[..|log|] == log;
    PhaseStep(log, p);
    PhaseAt(log, id, p + 1, |log|);
    SinceCall(log, p, q);
    PhaseStep(log, q);
    PhaseAt(log, id, q + 1, |log|);
  }

  /** An interval of ordinary size is kept to the jiffy: consecutive callbacks lie `interval + 1` apart. */
  lemma IntervalIsKept(at: nat, i: nat)
    requires i < TWO_63 && at + 1 + i < TWO_64
    ensures DueOf(U64(at + 1 + i), at + 1) == at + (i + 1)
  {
    assert U64(at + 1 + i) == at + 1 + i;
    assert U64(i) == i;
  }

  lemma {:induction false} SinceCall(log: seq<Event>, p: nat, q: nat)
    requires p < q <= |log| && log[p].Called? && Phase(log[..p], log[p].id).Waiting?
    requires Phase(log[..p + 1], log[p].id) != Bad
    requires forall r :: p < r < q && log[r].id == log[p].id ==> !log[r].Called?
    ensures var plan, l := Phase(log[..p], log[p].id).plan, Phase(log[..q], log[p].id);
            && l != Unborn && !l.Fresh?
            && (l.Running? || l.Ready? ==> l.at == log[p].at && l.plan == plan)
            && (l.Waiting? ==> l.due == DueOf(U64(log[p].at + 1 + plan.interval), log[p].at + 1))
    decreases q
  {
    assert log[..q][..q - 1] == log[..q - 1];
    PhaseStep(log, p);
    if p + 1 < q {
      SinceCall(log, p, q - 1);
    }
  }

  /** A terminated timer is never called again. */
  lemma NoCallAfterEnd(log: seq<Event>, p: nat, q: nat)
    requires p < q < |log| && log[p].Terminated? && log[p].id == log[q].id
    requires Phase(log, log[p].id) != Bad
    ensures !log[q].Called? && !log[q].Armed?
  {
    hide Phase;
    var id := log[p].id;
    assert log[..|log|] == log;
    PhaseStep(log, p);
    PhaseAt(log, id, p + 1, |log|);
    AfterEnd(log, p, q);
    PhaseStep(log, q);
    PhaseAt(log, id, q + 1, |log|);
  }

  ghost predicate Over(l: Life) {
    l.Dying? || l.Dead? || l.Stopped? || l.Ended? || l.Gone? || l.Bad?
  }

  lemma {:induction false} AfterEnd(log: seq<Event>, p: nat, q: nat)
    requires p < q <= |log| && Over(Phase(log[..p + 1], log[p].id))
    ensures Over(Phase(log[..q], log[p].id))
    decreases q
  {
    assert log[..q][..q - 1] == log[..q - 1];
    if p + 1 < q {
      AfterEnd(log, p, q - 1);
    }
  }

  // ---------------------------------------------------------------------------------------------------------
  // How often things happen

  datatype Tally = Tally(starts: nat, times: nat, ends: nat, releases: nat)

  function Count(log: seq<Event>, id: Id): Tally {
    if log == [] then Tally(0, 0, 0, 0)
    else
      var t, e := Count(log[..|log| - 1], id), log[|log| - 1];
      if e.id != id then t
      else match e
        case Called(_, _, start) => if start then t.(starts := t.starts + 1) else t.(times := t.times + 1)
        case Terminated(_, _) => t.(ends := t.ends + 1)
        case Released(_) => t.(releases := t.releases + 1)
        case _ => t
  }

  function PlanIn(log: seq<Event>, id: Id): (p: Plan) {
    if log == [] then Plan(0, 0)
    else if log[|log| - 1].id == id && log[|log| - 1].Born? then log[|log| - 1].plan
    else PlanIn(log[..|log| - 1], id)
  }

  ghost predicate NeverKilled(log: seq<Event>, id: Id) {
    forall i :: 0 <= i < |log| ==> log[i] != Terminated(id, true)
  }

  /** The counters that go with a phase, for a plan that does not repeat for ever. */
  ghost predicate Reckoned(l: Life, t: Tally, killed: bool, plan: Plan) {
    match l
    case Unborn => t == Tally(0, 0, 0, 0) && !killed
    case Fresh(p) => t == Tally(0, 0, 0, 0) && p == plan && !killed
    case Waiting(_, p, c, f) =>
      && t.ends == t.releases == 0 && t.starts == (if f then 0 else 1) && p == plan && !killed
      && (f ==> t.times == 0 && c == p.count)
      && (p.count != FOREVER && c != FOREVER ==> t.starts + t.times + c == p.count)
      && (p.count >= 0 ==> 0 <= c)
    case Running(_, p, c) =>
      && t.ends == t.releases == 0 && t.starts == 1 && p == plan && !killed
      && (p.count != FOREVER && c != FOREVER ==> t.times + c == p.count)
      && (p.count >= 0 ==> 0 <= c)
    case Ready(_, p, c) =>
      && t.ends == t.releases == 0 && t.starts == 1 && p == plan && !killed
      && (p.count != FOREVER && c != FOREVER ==> t.times + 1 + c == p.count)
      && (p.count >= 0 ==> 0 <= c)
    case Finished => t.ends == t.releases == 0 && t.starts == 1 && !killed &&
      (plan.count >= 0 ==> t.times == plan.count)
    case Ended => t.ends == 1 && t.releases == 0 && t.starts == 1 && !killed &&
      (plan.count >= 0 ==> t.times == plan.count)
    case Dead => t.starts <= 1 && t.ends == 1 && t.releases == 0 && killed
    case Stopped => t.starts <= 1 && t.ends == 1 && t.releases == 0 && killed
    case Dying(_) => t.starts <= 1 && t.ends == 1 && t.releases == 0 && killed
    case Gone =>
      && t.starts <= 1 && t.ends == 1 && t.releases == 1
      && (!killed ==> t.starts == 1 && (plan.count >= 0 ==> t.times == plan.count))
    case Bad => true
  }

  lemma {:induction false} CountersFitThePhase(log: seq<Event>, id: Id)
    ensures Reckoned(Phase(log, id), Count(log, id), !NeverKilled(log, id), PlanIn(log, id))
  {
    if log != [] {
      var before, e := log[..|log| - 1], log[|log| - 1];
      CountersFitThePhase(before, id);
      assert log == before + [e];
      KilledAppend(before, e, id);
      if e.id == id {
        ReckonedStep(Phase(before, id), e, Count(before, id), !NeverKilled(before, id), PlanIn(before, id));
      }
    }
  }

  lemma KilledAppend(log: seq<Event>, e: Event, id: Id)
    ensures NeverKilled(log + [e], id) <==> NeverKilled(log, id) && e != Terminated(id, true)
  {
    assert forall i :: 0 <= i < |log| ==> (log + [e])[i] == log[i];
    assert (log + [e])[|log|] == e;
  }

  lemma ReckonedStep(l: Life, e: Event, t: Tally, killed: bool, plan: Plan)
    requires Reckoned(l, t, killed, plan)
    ensures var t' := match e
                      case Called(_, _, start) => if start then t.(starts := t.starts + 1) else t.(times := t.times + 1)
                      case Terminated(_, _) => t.(ends := t.ends + 1)
                      case Released(_) => t.(releases := t.releases + 1)
                      case _ => t;
            Reckoned(Next(l, e), t', killed || (e.Terminated? && e.kill), if e.Born? then e.plan else plan)
  {
  }

  /** At any time, whatever callbacks do: at most one OnStart, one OnTerminate and one release, and the release only
      after OnTerminate. */
  lemma AtMostOneEnd(log: seq<Event>, id: Id)
    requires Phase(log, id) != Bad
    ensures Count(log, id).releases <= Count(log, id).ends <= 1
    ensures Count(log, id).starts <= 1
  {
    CountersFitThePhase(log, id);
  }

  /** A timer with N repetitions that nobody kills has, when it is gone, had one OnStart, N OnTime, one OnTerminate
      that does not report a kill, and one release. */
  lemma CompleteLife(log: seq<Event>, id: Id)
    requires Phase(log, id) == Gone && NeverKilled(log, id) && PlanIn(log, id).count >= 0
    ensures Count(log, id) == Tally(1, PlanIn(log, id).count, 1, 1)
  {
    CountersFitThePhase(log, id);
  }

  ghost predicate KeepsOn(l: Life, plan: Plan) {
    match l
    case Unborn => true
    case Fresh(p) => p == plan
    case Waiting(_, p, c, _) => p == plan && c == -1
    case Running(_, p, c) => p == plan && c == -1
    case Ready(_, p, c) => p == plan && c == -1
    case _ => l == Bad
  }

  lemma {:induction false} KeepsOnSoFar(log: seq<Event>, id: Id)
    ensures PlanIn(log, id).count == -1 && NeverKilled(log, id) ==> KeepsOn(Phase(log, id), PlanIn(log, id))
  {
    if log != [] {
      var before, e := log[..|log| - 1], log[|log| - 1];
      assert log == before + [e];
      KilledAppend(before, e, id);
      CountersFitThePhase(before, id);
      KeepsOnSoFar(before, id);
    }
  }

  /** A timer with the count -1 that nobody kills never ends. */
  lemma NeverEnds(log: seq<Event>, id: Id)
    requires Phase(log, id) != Bad && PlanIn(log, id).count == -1 && NeverKilled(log, id)
    ensures Count(log, id).ends == Count(log, id).releases == 0
  {
    CountersFitThePhase(log, id);
    KeepsOnSoFar(log, id);
  }

  /** The memory of a timer is not given back between the entry into its callback and the return from it. */
  lemma {:induction false} NotReleasedInsideCallback(log: seq<Event>, p: nat, q: nat)
    requires p < q < |log| && log[p].Called? && log[q] == Released(log[p].id)
    requires Phase(log, log[p].id) != Bad
    ensures exists r :: p < r < q && log[r] == Returned(log[p].id)
  {
    if forall r :: p < r < q ==> log[r] != Returned(log[p].id) {
      assert log[..|log|] == log;
      InsideCallback(log, p, q);
      PhaseStep(log, q);
      PhaseAt(log, log[p].id, q + 1, |log|);
    }
  }

  lemma {:induction false} InsideCallback(log: seq<Event>, p: nat, q: nat)
    requires p < q <= |log| && log[p].Called?
    requires forall r :: p < r < q ==> log[r] != Returned(log[p].id)
    ensures Phase(log[..q], log[p].id) == Bad || Phase(log[..q], log[p].id).Running? || Phase(log[..q], log[p].id).Dead?
    decreases q
  {
    assert log[..q][..q - 1] == log[..q - 1];
    if p + 1 < q {
      InsideCallback(log, p, q - 1);
    }
  }
}
