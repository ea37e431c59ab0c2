/** What the timer wheel is for, without the wheel: timers with the jiffies they are due, and what happens to them
    jiffy by jiffy.  There are no slots and no levels here. */
module TimerPlain {
  import opened TimerArithmetic
  import opened TimerHistory
  import opened TimerWheelState

  /** What a callback does to the wheel before it returns.  A kill carries what the killed timer's
      `OnTerminate` does. */
  datatype Script =
    | Return
    | Start(name: Name, delay: int, count: int, interval: int, rest: Script)
    | Kill(victim: Name, onTerminate: Script, rest: Script)

  /** The timers that the users' objects hold, the life of every timer ever created, and the log of all events. */
  datatype Plain = Plain(jiffies: nat, next: Id, bases: map<Name, Id>, life: map<Id, Life>, log: seq<Event>)

  function Happens(p: Plain, e: Event): Plain {
    p.(log := p.log + [e], life := p.life[e.id := Next(LifeOf(p.life, e.id), e)])
  }

  /** A timer is created and armed. */
  function Started(p: Plain, name: Name, delay: int, count: int, interval: int): Plain {
    var id, plan := p.next, Plan(count, U64(S32(Quot(interval, JIFFIES_TIME))));
    var born := Happens(p.(next := id + 1, bases := p.bases[name := id]), Born(id, plan));
    Happens(born, Armed(id, DueOf(U64(p.jiffies + Quot(delay, JIFFIES_TIME)), p.jiffies)))
  }

  function Forgotten(bases: map<Name, Id>, id: Id): map<Name, Id> {
    map n | n in bases && bases[n] != id :: bases[n]
  }

  /** A timer comes to its end: its object lets go of it, `OnTerminate` does what it does, and it is released unless
      it is inside its own callback. */
  function Concluded(p: Plain, id: Id, isKill: bool, onTerminate: Script): Plain
    decreases onTerminate, 1
  {
    var p1 := Happens(p.(bases := Forgotten(p.bases, id)), Terminated(id, isKill));
    var p2 := Ran(p1, onTerminate);
    if LifeOf(p2.life, id).Dead? then p2 else Happens(p2, Released(id))
  }

  /** What a callback does, in order. */
  function Ran(p: Plain, script: Script): Plain
    decreases script, 0
  {
    match script
    case Return => p
    case Start(name, delay, count, interval, rest) =>
      Ran(if name in p.bases then p else Started(p, name, delay, count, interval), rest)
    case Kill(victim, onTerminate, rest) =>
      Ran(if victim in p.bases then Concluded(p, p.bases[victim], true, onTerminate) else p, rest)
  }

  /** A timer is called; afterwards it is armed again, or ends, or has been killed meanwhile. */
  function Executed(p: Plain, id: Id, callback: Script, onTerminate: Script): Plain
    requires p.jiffies > 0
  {
    Afterwards(CalledBack(p, id, callback), id, onTerminate)
  }

  function CalledBack(p: Plain, id: Id, callback: Script): Plain
    requires p.jiffies > 0
  {
    var first := LifeOf(p.life, id).Waiting? && p.life[id].first;
    Happens(Ran(Happens(p, Called(id, p.jiffies - 1, first)), callback), Returned(id))
  }

  function Afterwards(p: Plain, id: Id, onTerminate: Script): Plain {
    match LifeOf(p.life, id)
    case Ready(_, plan, _) => Happens(p, Armed(id, DueOf(U64(p.jiffies + plan.interval), p.jiffies)))
    case Finished => Concluded(p, id, false, onTerminate)
    case _ => Happens(p, Released(id))
  }

  predicate IsDue(p: Plain, id: Id, jiffy: int) {
    id in p.life && p.life[id].Waiting? && p.life[id].due == jiffy
  }

  /** The given timers are called one after another, as far as they still wait for this jiffy. */
  ghost function Drained(p: Plain, order: seq<Id>, env: (Id, nat) -> (Script, Script)): Plain
    decreases |order|
  {
    if order == [] then p
    else
      var id := order[0];
      Drained(
        if IsDue(p, id, p.jiffies - 1) then Executed(p, id, env(id, p.jiffies).0, env(id, p.jiffies).1) else p,
        order[1..], env)
  }

  /** One jiffy: exactly the timers that are due at it are called, in some order. */
  ghost predicate Ticked(p: Plain, env: (Id, nat) -> (Script, Script), p': Plain) {
    exists order :: IsOrder(p, order) && p' == Drained(p.(jiffies := p.jiffies + 1), order, env)
  }

  ghost predicate IsOrder(p: Plain, order: seq<Id>) {
    && (forall i, j :: 0 <= i < j < |order| ==> order[i] != order[j])
    && (forall id :: id in order <==> IsDue(p, id, p.jiffies))
  }

  /** The given number of jiffies, one after another. */
  ghost predicate Processed(p: Plain, env: (Id, nat) -> (Script, Script), n: nat, p': Plain) {
    if n == 0 then p' == p else exists m :: Processed(p, env, n - 1, m) && Ticked(m, env, p')
  }

  /** How many jiffies of 10 ms the wheel has to catch up with. */
  function Behind(tick: int, now: int, jiffies: nat): nat {
    var target := U64(now - tick) / JIFFIES_TIME;
    if target > jiffies then target - jiffies else 0
  }

  /** A call from outside.  A start under a name that has a timer, or a kill under one that has none, is not made. */
  datatype Step =
    | StartTimer(name: Name, delay: int, count: int, interval: int)
    | KillTimer(name: Name, onTerminate: Script)
    | Process(now: int, env: (Id, nat) -> (Script, Script))

  /** What the timers go through while the calls are made; `tick` is the clock when the wheel was made. */
  ghost predicate Follows(p: Plain, tick: int, steps: seq<Step>, p': Plain) {
    exists run :: IsRun(run, tick, steps) && run[0] == p && run[|steps|] == p'
  }

  ghost predicate IsRun(run: seq<Plain>, tick: int, steps: seq<Step>) {
    && |run| == |steps| + 1
    && forall i {:trigger steps[i]} :: 0 <= i < |steps| ==> Stepped(run[i], tick, steps[i], run[i + 1])
  }

  ghost predicate Stepped(p: Plain, tick: int, step: Step, p': Plain) {
    match step
    case StartTimer(name, delay, count, interval) =>
      p' == if name in p.bases then p else Started(p, name, delay, count, interval)
    case KillTimer(name, onTerminate) =>
      p' == if name in p.bases then Concluded(p, p.bases[name], true, onTerminate) else p
    case Process(now, env) => Processed(p, env, Behind(tick, now, p.jiffies), p')
  }

  /** A timer that has been started: its first call comes after the delay and the next ones after the interval, both
      in jiffies of 10 ms, rounded towards zero; a delay that has passed ends at once. */
  ghost predicate ArmedAsAsked(l: Life, jiffies: nat, delay: int, count: int, interval: int) {
    && l.Waiting? && l.first && l.left == l.plan.count == count
    && (0 <= delay < TWO_63 ==> 0 <= delay - 10 * (l.due - jiffies) < 10)
    && (-TWO_63 <= delay < 0 ==> l.due == jiffies)
    && (0 <= interval < 10 * 0x8000_0000 ==> 0 <= interval - 10 * l.plan.interval < 10)
    && (-10 * 0x8000_0000 <= interval <= -10 ==> -10 < interval - 10 * (l.plan.interval - TWO_64) <= 0)
    && (-10 < interval < 0 ==> l.plan.interval == 0)
  }

  lemma StartedAsAsked(p: Plain, name: Name, delay: int, count: int, interval: int)
    requires p.jiffies < TWO_63 && p.next !in p.life
    ensures var p' := Started(p, name, delay, count, interval);
      p.next in p'.life && ArmedAsAsked(p'.life[p.next], p.jiffies, delay, count, interval)
  {
    hide DueOf, Quot, S32, U64;
    if -TWO_63 <= delay < TWO_63 { DelayIs(delay, p.jiffies); }
    IntervalIs(interval);
  }

  // ---------------------------------------------------------------------------------------------------------
  // Scripts

  /** One script after the other. */
  function Then(s: Script, t: Script): Script {
    match s
    case Return => t
    case Start(name, delay, count, interval, rest) => Start(name, delay, count, interval, Then(rest, t))
    case Kill(victim, onTerminate, rest) => Kill(victim, onTerminate, Then(rest, t))
  }

  lemma {:induction false} RanThen(p: Plain, s: Script, t: Script)
    ensures Ran(p, Then(s, t)) == Ran(Ran(p, s), t)
    decreases s
  {
    hide Started, Concluded;
    match s
    case Return =>
    case Start(name, delay, count, interval, rest) =>
      RanThen(if name in p.bases then p else Started(p, name, delay, count, interval), rest, t);
    case Kill(victim, onTerminate, rest) =>
      RanThen(if victim in p.bases then Concluded(p, p.bases[victim], true, onTerminate) else p, rest, t);
  }

  /** What scripts do only adds to the log. */
  lemma {:induction false} RanGrows(p: Plain, s: Script)
    ensures p.log <= Ran(p, s).log
    decreases s, 0
  {
    match s
    case Return =>
    case Start(name, delay, count, interval, rest) =>
      RanGrows(if name in p.bases then p else Started(p, name, delay, count, interval), rest);
    case Kill(victim, onTerminate, rest) =>
      if victim in p.bases { ConcludedGrows(p, p.bases[victim], true, onTerminate); }
      RanGrows(if victim in p.bases then Concluded(p, p.bases[victim], true, onTerminate) else p, rest);
  }

  lemma {:induction false} ConcludedGrows(p: Plain, id: Id, isKill: bool, onTerminate: Script)
    ensures p.log + [Terminated(id, isKill)] <= Concluded(p, id, isKill, onTerminate).log
    decreases onTerminate, 1
  {
    RanGrows(Happens(p.(bases := Forgotten(p.bases, id)), Terminated(id, isKill)), onTerminate);
  }

  /** A start under a free name is heard as the birth and the arming of a new timer, a kill under a taken one as the
      end of the timer that has it. */
  lemma ScriptsAreHeard(
    p: Plain, name: Name, delay: int, count: int, interval: int, onTerminate: Script, rest: Script)
    ensures name !in p.bases ==>
      exists plan, due :: p.log + [Born(p.next, plan), Armed(p.next, due)] <=
        Ran(p, Start(name, delay, count, interval, rest)).log
    ensures name in p.bases ==> p.log + [Terminated(p.bases[name], true)] <= Ran(p, Kill(name, onTerminate, rest)).log
    ensures name in p.bases ==> Ran(p, Start(name, delay, count, interval, rest)) == Ran(p, rest)
    ensures name !in p.bases ==> Ran(p, Kill(name, onTerminate, rest)) == Ran(p, rest)
  {
    if name in p.bases {
      hide Concluded;
      ConcludedGrows(p, p.bases[name], true, onTerminate);
      RanGrows(Concluded(p, p.bases[name], true, onTerminate), rest);
    } else {
      RanGrows(Started(p, name, delay, count, interval), rest);
      var log := Started(p, name, delay, count, interval).log;
      var born, armed := log[|p.log|], log[|p.log| + 1];
      assert p.log + [Born(p.next, born.plan), Armed(p.next, armed.due)] == log;
    }
  }

  // ---------------------------------------------------------------------------------------------------------
  // Drains

  lemma {:induction false} DrainedAppend(p: Plain, a: seq<Id>, b: seq<Id>, env: (Id, nat) -> (Script, Script))
    ensures Drained(p, a + b, env) == Drained(Drained(p, a, env), b, env)
    decreases |a|
  {
    hide Executed;
    if a == [] {
      assert a + b == b;
    } else {
      var id := a[0];
      assert (a + b)[1..] == a[1..] + b;
      DrainedAppend(
        if IsDue(p, id, p.jiffies - 1) then Executed(p, id, env(id, p.jiffies).0, env(id, p.jiffies).1) else p,
        a[1..], b, env);
    }
  }

  lemma {:induction false} DrainedSkips(p: Plain, order: seq<Id>, env: (Id, nat) -> (Script, Script))
    requires forall id :: id in order ==> !IsDue(p, id, p.jiffies - 1)
    ensures Drained(p, order, env) == p
    decreases |order|
  {
    hide Executed;
    if order != [] {
      assert order[0] in order && forall id :: id in order[1..] ==> id in order;
      DrainedSkips(p, order[1..], env);
    }
  }

  lemma DrainedOne(p: Plain, id: Id, env: (Id, nat) -> (Script, Script))
    requires IsDue(p, id, p.jiffies - 1)
    ensures Drained(p, [id], env) == Executed(p, id, env(id, p.jiffies).0, env(id, p.jiffies).1)
  {
    hide Executed;
    assert [id][1..] == [];
  }

  lemma OneMoreTick(p: Plain, env: (Id, nat) -> (Script, Script), n: nat, m: Plain, p': Plain)
    requires Processed(p, env, n, m) && Ticked(m, env, p')
    ensures Processed(p, env, n + 1, p')
  {
    hide Ticked;
  }

  lemma NotBehind(p: Plain, env: (Id, nat) -> (Script, Script))
    ensures Processed(p, env, 0, p)
  {
  }

  lemma FirstState(run: seq<Plain>, tick: int)
    requires |run| == 1
    ensures IsRun(run, tick, [])
  {
  }

  lemma OneMoreStep(run: seq<Plain>, tick: int, steps: seq<Step>, n: nat, p': Plain)
    requires n < |steps| && IsRun(run, tick, steps[..n]) && Stepped(run[n], tick, steps[n], p')
    ensures IsRun(run + [p'], tick, steps[..n + 1])
  {
    hide Stepped;
    assert forall i :: 0 <= i < n ==> steps[..n + 1][i] == steps[..n][i];
  }
}
