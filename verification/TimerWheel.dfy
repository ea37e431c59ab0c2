/** The timer wheel of Project/Kernel/Timer/TimerWheel.cpp, with the `TimerMgr` operations that start and kill timers,
    and callbacks that may start and kill timers themselves. */
module TimerWheel {
  import opened Seqs
  import opened TimerArithmetic
  import opened TimerHistory
  import opened TimerWheelState
  import opened TimerPlain
  import opened WheelLists

  class TimerWheel {
    const tick: int                   // the clock when the wheel was made
    const lists: SlotLists            // the slots of all levels and the work list
    var jiffies: nat
    var timers: map<Id, Timer>
    var bases: map<Name, Id>
    var nextId: Id
    ghost var slots: map<Host, seq<Id>>
    ghost var life: map<Id, Life>
    ghost var visit: map<Id, nat>
    ghost var log: seq<Event>

    ghost function View(): State
      reads this
    {
      State(jiffies, slots, timers, bases, life, visit, log)
    }

    /** The timers without the wheel. */
    ghost function Plainly(): Plain
      reads this
    {
      Plain(jiffies, nextId, bases, life, log)
    }

    ghost predicate Valid(x: int)
      reads this, lists.Objects()
    {
      Inv(View(), x) && Numbered(timers, nextId) && Linked()
    }

    /** The lists hold the timers that `slots` says, and there is a node for every timer. */
    ghost predicate Linked()
      reads this, lists.Objects()
    {
      this !in lists.Objects() && lists.Holds(slots, nextId)
    }

    static ghost predicate Numbered(timers: map<Id, Timer>, nextId: Id) {
      forall id :: id in timers ==> id < nextId
    }

    constructor (now: int)
      ensures Valid(NONE) && Quiet(View()) && slots[Work] == [] && tick == now
      ensures Plainly() == Plain(0, 0, map[], map[], [])
    {
      hide Inv, Quiet, SlotLists.Holds, SlotLists.Valid, Initial;
      tick := now;
      jiffies := 0;
      lists := new SlotLists();
      timers, bases, nextId := map[], map[], 0;
      slots, life, visit, log := Initial().slots, map[], map[], [];
      new;
      InitialKeeps();
      InitialSlots();
      lists.HoldsNone(slots);
      InitialView(View());
    }

    static lemma InitialView(s: State)
      requires s == State(0, Initial().slots, map[], map[], map[], map[], [])
      ensures s == Initial()
    {
    }

    // The calls to the lists

    method TailInsert(h: Host, id: Id)
      requires Linked() && h in slots && id < nextId && forall g :: g in slots ==> id !in slots[g]
      modifies this`slots, lists.Objects()
      ensures Linked() && slots == old(slots)[h := old(slots)[h] + [id]]
    {
      hide SlotLists.Valid;
      assert forall g :: g in lists.lists <==> g in slots;
      lists.TailInsert(h, id);
      slots := slots[h := slots[h] + [id]];
    }

    method TakeHead(h: Host) returns (id: int)
      requires Linked() && h in slots
      modifies this`slots, lists.Objects()
      ensures Linked()
      ensures id == if old(slots)[h] == [] then NONE else old(slots)[h][0]
      ensures slots == if old(slots)[h] == [] then old(slots) else old(slots)[h := old(slots)[h][1..]]
    {
      hide SlotLists.Valid;
      var head := lists.HeadRemove(h);
      if head.Null? { return NONE; }
      id := head.node;
      slots := slots[h := slots[h][1..]];
    }

    /** A timer leaves the list that it names as its host; one that names none is left alone. */
    method TakeOut(id: Id, ghost h: Host)
      requires Linked() && id < nextId && (h != Off ==> h in slots && id in slots[h])
      requires Off !in slots && forall g :: g in slots && g != h ==> id !in slots[g]
      modifies this`slots, lists.Objects()
      ensures Linked() && slots == if h == Off then old(slots) else old(slots)[h := Without(old(slots)[h], id)]
    {
      hide Without, SlotLists.Valid;
      assert forall g :: g in lists.lists <==> g in slots;
      assert forall g :: g in slots ==> slots[g] == lists.lists[g].elems;
      lists.Remove(id, h);
      if h != Off {
        slots := slots[h := Without(slots[h], id)];
      }
    }

    method Swap(g: Host, h: Host)
      requires Linked() && g in slots && h in slots && g != h
      modifies this`slots, lists.Objects()
      ensures Linked() && slots == old(slots)[g := old(slots)[h]][h := old(slots)[g]]
    {
      hide SlotLists.Valid;
      lists.Swap(g, h);
      slots := slots[g := slots[h]][h := slots[g]];
    }

    method NewNode()
      requires Linked()
      modifies this`nextId, lists.Objects()
      ensures Linked() && nextId == old(nextId) + 1
    {
      hide SlotLists.Valid;
      lists.AddNode(nextId);
      nextId := nextId + 1;
    }

    /** Adds an event of a timer to the log. */
    ghost method Note(e: Event)
      requires Valid(e.id) && e.id in timers && e.id in life
      requires timers[e.id].host != Off ==>
        (var l := Next(life[e.id], e); (l.Waiting? || l.Dying?) && l.due == life[e.id].due)
      modifies this`log, this`life
      ensures View() == Record(old(View()), e) && Plainly() == Happens(old(Plainly()), e)
      ensures Valid(e.id) && Evolves(old(View()), View(), e.id)
    {
      hide SlotLists.Holds, Inv, Evolves;
      RecordKeeps(View(), e);
      RecordEvolves(View(), e);
      log := log + [e];
      life := life[e.id := Next(LifeOf(life, e.id), e)];
    }

    /** Assigns the fields of a timer that do not say where it is or whether it has been removed. */
    method Assign(id: Id, t: Timer)
      requires Valid(id) && id in timers
      requires t.host == timers[id].host && t.name == timers[id].name && t.remove == timers[id].remove
      requires t.host.Vec? ==> t.expires == timers[id].expires
      modifies this`timers
      ensures View() == SetTimer(old(View()), id, t)
      ensures Valid(id) && Evolves(old(View()), View(), id)
    {
      hide SlotLists.Holds, Inv, Evolves;
      SetTimerKeeps(View(), id, t);
      SetTimerEvolves(View(), id, t);
      timers := timers[id := t];
    }

    /** `TimerWheel::AddTimer(TimerBase *)`: the timer goes to the tail of the slot its expiry asks for. */
    method AddTimer(id: Id)
      requires Valid(id) && id in timers && timers[id].host == Off
      requires life[id].Waiting? && life[id].due == DueOf(timers[id].expires, jiffies) && timers[id].expires < TWO_64
      modifies this, lists.Objects()
      ensures Valid(id) && Evolves(old(View()), View(), id)
      ensures SlotFor(old(timers[id].expires), jiffies) in old(slots)
      ensures SlotFor(old(timers[id].expires), jiffies) != Off && SlotFor(old(timers[id].expires), jiffies) != Work
      ensures View() == Attach(old(View()), id, SlotFor(old(timers[id].expires), jiffies),
        VisitOf(old(timers[id].expires), jiffies))
      ensures nextId == old(nextId)
    {
      hide SlotLists.Holds, Inv, Evolves, VisitOf, SlotFor, At, ValidHost;
      var expires := timers[id].expires;
      var h := SlotFor(expires, jiffies);
      SlotsAre(View(), id);
      SlotIsReachedInTime(expires, jiffies);
      IsNoHost();
      AttachKeeps(View(), id, h, VisitOf(expires, jiffies));
      AttachEvolves(View(), id, h, VisitOf(expires, jiffies));
      ListedOnce(View(), id, id);
      TailInsert(h, id);
      timers := timers[id := timers[id].(host := h)];
      visit := visit[id := VisitOf(expires, jiffies)];
    }

    static lemma IsNoHost()
      ensures !ValidHost(Off)
    {
    }

    /** `LinkList::HeadRemove` on one of the wheel's lists; NONE stands for the null node. */
    method HeadRemove(h: Host) returns (id: int)
      requires Valid(NONE) && ValidHost(h)
      modifies this, lists.Objects()
      ensures h in old(slots) && nextId == old(nextId)
      ensures old(slots[h]) == [] ==> id == NONE && View() == old(View()) && Valid(NONE)
      ensures old(slots[h]) != [] ==>
        && id == old(slots[h][0]) && id in old(timers) && old(timers[id].host) == h
        && View() == Detach(old(View()), id) && Valid(id)
    {
      hide SlotLists.Holds, Placed, Alive, Based, Logged;
      ghost var s0 := View();
      id := TakeHead(h);
      if id == NONE { return; }
      assert id in s0.slots[h];
      Loosen(s0, id);
      DetachKeeps(s0, id);
      timers := timers[id := timers[id].(host := Off)];
    }

    /** `TimerBase::Create`, and `ITimer::SetBase` with the new timer. */
    method Create(name: Name, count: int, interval: nat) returns (id: Id)
      requires Valid(NONE) && name !in bases
      modifies this, lists.Objects()
      ensures id == old(nextId) && nextId == id + 1 && id !in old(timers)
      ensures View() == TimerWheelState.Create(old(View()), id, Timer(name, 0, interval, count, true, true, false, Off))
      ensures id in life && life[id] == Fresh(Plan(count, interval)) && Valid(id)
    {
      hide SlotLists.Holds, Listed, Told;
      id := nextId;
      NewNode();
      ghost var s0 := View();
      var base := Timer(name, 0, interval, count, true, true, false, Off);
      CreateKeeps(s0, id, base);
      timers := timers[id := base];
      bases := bases[name := id];
      log := log + [Born(id, Plan(count, interval))];
      life := life[id := Fresh(Plan(count, interval))];
    }

    /** `TimerMgr::StartTimer`. */
    method StartTimer(name: Name, delay: int, count: int, interval: int)
      requires Valid(NONE) && name !in bases
      modifies this, lists.Objects()
      ensures Valid(NONE) && Evolves(old(View()), View(), NONE)
      ensures Plainly() == Started(old(Plainly()), name, delay, count, interval)
      ensures old(nextId) in life && ArmedAsAsked(life[old(nextId)], jiffies, delay, count, interval)
    {
      hide SlotLists.Holds, Inv, Evolves, Numbered, SlotFor, VisitOf, DueOf, S32, Quot, ArmedAsAsked, Fits;
      ghost var s0 := View();
      StartsAsAsked(s0, Plainly(), name, delay, count, interval);
      var id := Create(name, count, U64(S32(Quot(interval, JIFFIES_TIME))));
      Arm(id, timers[id].(expires := U64(jiffies + Quot(delay, JIFFIES_TIME))));
      CreateEvolves(s0, View(), id);
    }

    static lemma StartsAsAsked(s: State, p: Plain, name: Name, delay: int, count: int, interval: int)
      requires Inv(s, NONE) && Numbered(s.timers, p.next) && p.life == s.life && p.jiffies == s.jiffies
      ensures ArmedAsAsked(Started(p, name, delay, count, interval).life[p.next], p.jiffies, delay, count, interval)
    {
      hide Inv, Started, ArmedAsAsked;
      SlotsAre(s, NONE);
      Keys(s);
      StartedAsAsked(p, name, delay, count, interval);
    }

    /** The fields of a timer are set, it is armed, and it goes into the wheel. */
    method Arm(id: Id, base: Timer)
      requires Valid(id) && id in timers && id in life && timers[id].host == Off && base.host == Off
      requires base.name == timers[id].name && !timers[id].remove && !base.remove && base.canRelease
      requires base.expires < TWO_64
      requires Armable(life[id], base, DueOf(base.expires, jiffies))
      modifies this, lists.Objects()
      ensures Valid(NONE) && Evolves(old(View()), View(), id)
      ensures jiffies == old(jiffies) && bases == old(bases) && nextId == old(nextId)
      ensures var due := DueOf(base.expires, jiffies);
        && log == old(log) + [Armed(id, due)]
        && life == old(life)[id := Waiting(due, old(life[id].plan), base.count, base.first)]
        && Plainly() == Happens(old(Plainly()), Armed(id, due))
      ensures id in timers && timers == old(timers)[id := timers[id]]
      ensures Work in slots && Work in old(slots) && slots[Work] == old(slots[Work])
    {
      hide SlotLists.Holds, Inv, Evolves, Numbered, SlotFor, VisitOf, DueOf, Fits, Next, PlacedAt;
      ghost var s0 := View();
      Assign(id, base);
      ghost var s1 := View();
      ArmsAs(id, life[id], base, DueOf(base.expires, jiffies));
      Note(Armed(id, DueOf(base.expires, jiffies)));
      ghost var s2 := View();
      AddTimer(id);
      EvolvesTransitive(s0, s1, s2, id);
      EvolvesTransitive(s0, s2, View(), id);
      EvolvesLog(s0, View(), id);
      Settle(View(), id);
    }

    /** A new timer, or one that has just been called, with the fields that its plan asks for. */
    static predicate Armable(l: Life, base: Timer, due: nat) {
      match l
      case Fresh(p) => base.interval == p.interval && base.count == p.count && base.first
      case Ready(at, p, c) =>
        && base.interval == p.interval && base.count == c && !base.first
        && due == DueOf(U64(at + 1 + p.interval), at + 1)
      case _ => false
    }

    static lemma ArmsAs(id: Id, l: Life, base: Timer, due: nat)
      requires Armable(l, base, due) && base.canRelease && !base.remove
      ensures Next(l, Armed(id, due)) == Waiting(due, l.plan, base.count, base.first)
      ensures forall h :: h != Off ==> Fits(base.(host := h), Waiting(due, l.plan, base.count, base.first))
    {
    }

    /** What a callback does, in order.  A start for an object that has a timer, or a kill for one that has none, is
        a caller's error (asserted in `TimerMgr`) and has no effect here. */
    method RunScript(script: Script)
      requires Valid(NONE)
      modifies this, lists.Objects()
      ensures Valid(NONE) && Evolves(old(View()), View(), NONE)
      ensures Plainly() == Ran(old(Plainly()), script)
      decreases script, 0
    {
      hide SlotLists.Holds, Inv, Evolves, Started, Concluded;
      match script
      case Return =>
        EvolvesSelf(View(), NONE);
      case Start(name, delay, count, interval, rest) =>
        ghost var s0 := View();
        EvolvesSelf(s0, NONE);
        if name !in bases {
          StartTimer(name, delay, count, interval);
        }
        ghost var s1 := View();
        RunScript(rest);
        EvolvesTransitive(s0, s1, View(), NONE);
      case Kill(victim, onTerminate, rest) =>
        ghost var s0 := View();
        EvolvesSelf(s0, NONE);
        if victim in bases {
          KillTimer(victim, onTerminate);
        }
        ghost var s1 := View();
        RunScript(rest);
        EvolvesTransitive(s0, s1, View(), NONE);
    }

    /** `TimerMgr::KillTimer`. */
    method KillTimer(name: Name, onTerminate: Script)
      requires Valid(NONE) && name in bases
      modifies this, lists.Objects()
      ensures Valid(NONE) && Evolves(old(View()), View(), NONE)
      ensures old(bases[name]) in life && (life[old(bases[name])].Gone? || life[old(bases[name])].Dead?)
      ensures Plainly() == Concluded(old(Plainly()), old(bases[name]), true, onTerminate)
      decreases onTerminate, 4
    {
      hide SlotLists.Holds, Inv, Evolves, Concluded;
      KnownBase(View(), NONE, name);
      KillBase(bases[name], onTerminate);
    }

    /** `TimerBase::Kill`. */
    method KillBase(id: Id, onTerminate: Script)
      requires Valid(NONE) && id in timers && !timers[id].remove
      modifies this, lists.Objects()
      ensures Valid(NONE) && Evolves(old(View()), View(), NONE)
      ensures id in life && (if old(timers[id].canRelease) then life[id].Gone? else life[id].Dead?)
      ensures Plainly() == Concluded(old(Plainly()), id, true, onTerminate)
      decreases onTerminate, 3
    {
      hide SlotLists.Holds, Inv, Evolves, Numbered, Concluded;
      ghost var s0 := View();
      Known(s0, NONE, id);
      Loosen(s0, id);
      Assign(id, timers[id].(count := 0));
      ghost var s1 := View();
      if !timers[id].remove {
        End(id, true, onTerminate);
      }
      EvolvesTransitive(s0, s1, View(), id);
      KillIsALegalChange(s0, View(), id);
    }

    /** `TimerBase::End`, reached from a kill, or from a callback that was the timer's last. */
    method End(id: Id, isKill: bool, onTerminate: Script)
      requires Valid(id) && id in timers && id in life && MayEnd(timers[id], life[id], isKill)
      modifies this, lists.Objects()
      ensures Valid(NONE) && Evolves(old(View()), View(), id)
      ensures id in life && (if old(timers[id].canRelease) then life[id].Gone? else life[id].Dead?)
      ensures Plainly() ==
        if old(timers[id].remove) then Happens(old(Plainly()), Released(id))
        else Concluded(old(Plainly()), id, isKill, onTerminate)
      decreases onTerminate, 2
    {
      hide SlotLists.Holds, Inv, Evolves, Numbered, Next, Fits, Ran, Happens, Forgotten;
      ghost var s0 := View();
      EvolvesSelf(s0, id);
      if !timers[id].remove {
        DropBase(id);
        ghost var s1 := View();
        Terminate(id, isKill, onTerminate);
        EvolvesTransitive(s0, s1, View(), id);
      }
      ghost var s2 := View();
      LastStep(timers[id], life[id], id);
      if timers[id].canRelease {
        Note(Released(id));
        EvolvesTransitive(s0, s2, View(), id);
      }
      Settle(View(), id);
    }

    /** A timer that has been removed is released, unless it was killed in its own callback. */
    static lemma LastStep(t: Timer, l: Life, id: Id)
      requires t.remove && t.host == Off
      requires (if t.canRelease then l.Dying? || l.Ended? || l.Stopped? else l.Dead? && t.count == 0)
      ensures t.canRelease ==> Next(l, Released(id)) == Gone
      ensures Fits(t, if t.canRelease then Gone else l)
    {
    }

    /** `_remove = true` and `ITimer::SetBase` with null. */
    method DropBase(id: Id)
      requires Valid(id) && id in timers && !timers[id].remove
      modifies this`timers, this`bases
      ensures View() == Unbase(old(View()), id)
      ensures Plainly() == old(Plainly()).(bases := Forgotten(old(bases), id))
      ensures Valid(id) && Evolves(old(View()), View(), id)
    {
      hide SlotLists.Holds, Inv, Evolves;
      ItsBase(View(), id);
      UnbaseKeeps(View(), id);
      UnbaseEvolves(View(), id);
      bases := bases - {timers[id].name};
      timers := timers[id := timers[id].(remove := true)];
    }

    /** The part of `TimerBase::End` that a timer goes through once: `OnTerminate`, then out of its list. */
    method Terminate(id: Id, isKill: bool, onTerminate: Script)
      requires Valid(id) && id in timers && id in life && timers[id].remove
      requires MayEnd(timers[id].(remove := false), life[id], isKill)
      modifies this, lists.Objects()
      ensures Valid(id) && Evolves(old(View()), View(), id)
      ensures id in timers && id in life
      ensures timers[id] == old(timers[id].(host := Off))
      ensures life[id] == if !isKill then Ended else if old(timers[id].canRelease) then Dying(old(life[id].due))
        else Dead
      ensures Plainly() == Ran(Happens(old(Plainly()), Terminated(id, isKill)), onTerminate)
      decreases onTerminate, 1
    {
      hide SlotLists.Holds, Inv, Evolves, PlacedAt, Ran, Happens;
      ghost var s0 := View();
      Known(s0, id, id);
      Note(Terminated(id, isKill));
      Settle(View(), id);
      ghost var s1 := View();
      RunScript(onTerminate);
      EvolvesLoosen(s1, View(), id);
      EvolvesTransitive(s0, s1, View(), id);
      Untouched(s1, View(), id);
      Loosen(View(), id);
      ghost var s2 := View();
      LeaveList(id);
      EvolvesTransitive(s0, s2, View(), id);
    }

    /** `LinkList::Remove` from the list the timer is in, if it is in one. */
    method LeaveList(id: Id)
      requires Valid(id) && id in timers
      modifies this`slots, this`timers, lists.Objects()
      ensures Valid(id) && Evolves(old(View()), View(), id)
      ensures timers == old(timers)[id := old(timers[id].(host := Off))]
    {
      hide SlotLists.Holds, Inv, Evolves, PlacedAt;
      Known(View(), id, id);
      EvolvesSelf(View(), id);
      ListedOnce(View(), id, id);
      SlotsAre(View(), id);
      IsNoHost();
      if timers[id].host != Off {
        DetachKeeps(View(), id);
        DetachEvolves(View(), id);
      }
      TakeOut(id, timers[id].host);
      if timers[id].host != Off {
        timers := timers[id := timers[id].(host := Off)];
      }
    }

    /** `TimerBase::Exec`: the callback, then either the next arming or the end. */
    method Exec(id: Id, callback: Script, onTerminate: Script)
      requires id in timers && id in life && timers[id].host == Off
      requires life[id].Waiting? && life[id].due + 1 == jiffies && Fits(timers[id].(host := Work), life[id])
      requires Valid(id)
      modifies this, lists.Objects()
      ensures jiffies == old(jiffies) && old(log + [Called(id, jiffies - 1, timers[id].first)]) <= log
      ensures id in life && (life[id].Gone? ||
        life[id] == Waiting(DueOf(U64(jiffies + old(timers[id].interval)), jiffies), old(life[id].plan),
                            if old(timers[id].count) == FOREVER then FOREVER else old(timers[id].count) - 1, false))
      ensures Valid(NONE) && Evolves(old(View()), View(), id)
      ensures Plainly() == Executed(old(Plainly()), id, callback, onTerminate)
    {
      hide SlotLists.Holds, Inv, Evolves, Numbered, CalledBack, Afterwards, DueOf, PlacedAt, MayEnd;
      ghost var s0 := View();
      Call(id, callback);
      ghost var s5 := View();
      Continue(id, old(life[id].plan), onTerminate);
      EvolvesLog(s5, View(), id);
      EvolvesTransitive(s0, s5, View(), id);
    }

    /** The last part of `TimerBase::Exec`: another round, or the end. */
    method Continue(id: Id, ghost plan: Plan, onTerminate: Script)
      requires Valid(id) && id in timers && id in life && timers[id].host == Off
      requires timers[id].canRelease && !timers[id].first
      requires timers[id].remove ==> timers[id].count == 0 && life[id] == Stopped
      requires jiffies > 0
      requires !timers[id].remove ==> plan.interval == timers[id].interval
      requires !timers[id].remove ==> life[id] == Next(Running(jiffies - 1, plan, timers[id].count), Returned(id))
      modifies this, lists.Objects()
      ensures id in life && (old(timers[id].remove) ==> life[id].Gone?)
      ensures !life[id].Gone? ==> life[id] == Waiting(DueOf(U64(jiffies + old(timers[id].interval)), jiffies), plan,
        if old(timers[id].count) == FOREVER then FOREVER else old(timers[id].count) - 1, false)
      ensures Valid(NONE) && Evolves(old(View()), View(), id)
      ensures Plainly() == Afterwards(old(Plainly()), id, onTerminate)
    {
      hide SlotLists.Holds, Inv, Evolves, Numbered, Happens, Concluded, DueOf, PlacedAt;
      if timers[id].count != 0 {
        Rearm(id);
      } else {
        End(id, false, onTerminate);
      }
    }

    /** The first part of `TimerBase::Exec`: `OnStart` or `OnTime` is entered, does what it does, and returns. */
    method Call(id: Id, callback: Script)
      requires id in timers && id in life && timers[id].host == Off
      requires life[id].Waiting? && life[id].due + 1 == jiffies && Fits(timers[id].(host := Work), life[id])
      requires Valid(id)
      modifies this, lists.Objects()
      ensures jiffies == old(jiffies) && old(log + [Called(id, jiffies - 1, timers[id].first)]) <= log
      ensures id in timers && id in life
      ensures timers[id].host == Off && timers[id].canRelease && !timers[id].first
      ensures !timers[id].remove ==> timers[id].interval == old(timers[id].interval)
      ensures timers[id].remove ==> timers[id].count == 0 && life[id] == Stopped
      ensures !timers[id].remove ==> timers[id].count == old(timers[id].count)
      ensures !timers[id].remove ==>
        life[id] == Next(Running(jiffies - 1, old(life[id].plan), timers[id].count), Returned(id))
      ensures Valid(id) && Evolves(old(View()), View(), id)
      ensures Plainly() == CalledBack(old(Plainly()), id, callback)
    {
      hide SlotLists.Holds, Inv, Evolves, Numbered, Next, PlacedAt, Ran, Happens;
      ghost var s0 := View();
      InsideCall(id, callback);
      hide SlotLists.Holds, Fits;
      ghost var s3 := View();
      Leave(id);
      EvolvesTransitive(s0, s3, View(), id);
      ReturnedAs(life[id], id);
    }

    static lemma ReturnedAs(l: Life, id: Id)
      ensures Next(Dead, Returned(id)) == Stopped
    {
    }

    /** The callback up to its return: it runs, or the timer has been killed. */
    method InsideCall(id: Id, callback: Script)
      requires id in timers && id in life && timers[id].host == Off
      requires life[id].Waiting? && life[id].due + 1 == jiffies && Fits(timers[id].(host := Work), life[id])
      requires Valid(id)
      modifies this, lists.Objects()
      ensures jiffies == old(jiffies) && old(log + [Called(id, jiffies - 1, timers[id].first)]) <= log
      ensures id in timers && id in life && timers[id].host == Off
      ensures if timers[id].remove then life[id] == Dead && timers[id].count == 0
        else
          && life[id] == Running(jiffies - 1, old(life[id].plan), timers[id].count)
          && timers[id].count == old(timers[id].count) && timers[id].interval == old(timers[id].interval)
      ensures Valid(NONE) && Evolves(old(View()), View(), id)
      ensures Plainly() == Ran(Happens(old(Plainly()), Called(id, jiffies - 1, old(life[id].first))), callback)
    {
      hide SlotLists.Holds, Inv, Evolves, Numbered, PlacedAt, Ran, Happens;
      ghost var s0 := View();
      Enter(id);
      ghost var s2 := View();
      RunScript(callback);
      EvolvesLoosen(s2, View(), id);
      EvolvesTransitive(s0, s2, View(), id);
      EvolvesLog(s2, View(), NONE);
      RanOrDied(s2, View(), id);
      FitsThen(View(), id);
    }

    /** What the fields of a timer tell of its life, and the other way round. */
    static lemma FitsThen(s: State, id: Id)
      requires Inv(s, NONE) && id in s.timers && id in s.life
      ensures Fits(s.timers[id], s.life[id])
    {
      hide Inv;
      Known(s, NONE, id);
    }

    /** Into a callback: from here on the timer's memory must not be given back. */
    method Enter(id: Id)
      requires id in timers && id in life && timers[id].host == Off
      requires life[id].Waiting? && life[id].due + 1 == jiffies && Fits(timers[id].(host := Work), life[id])
      requires Valid(id)
      modifies this`timers, this`life, this`log
      ensures log == old(log) + [Called(id, jiffies - 1, old(timers[id].first))]
      ensures id in life && life[id] == Running(jiffies - 1, old(life[id].plan), old(life[id].left))
      ensures Plainly() == Happens(old(Plainly()), Called(id, jiffies - 1, old(life[id].first)))
      ensures Valid(NONE) && Evolves(old(View()), View(), id)
    {
      hide SlotLists.Holds, Inv, Evolves, Numbered;
      ghost var s0 := View();
      Assign(id, timers[id].(canRelease := false));
      ghost var s1 := View();
      Note(Called(id, jiffies - 1, timers[id].first));
      EvolvesTransitive(s0, s1, View(), id);
      Settle(View(), id);
    }

    /** Out of a callback, in which the timer may have been killed. */
    method Leave(id: Id)
      requires id in timers && id in life
      requires life[id].Running? || life[id].Dead?
      requires Valid(NONE)
      modifies this`timers, this`life, this`log
      ensures id in timers && timers[id] == old(timers[id].(first := false, canRelease := true))
      ensures id in life && life[id] == Next(old(life[id]), Returned(id))
      ensures log == old(log) + [Returned(id)] && Plainly() == Happens(old(Plainly()), Returned(id))
      ensures Valid(id) && Evolves(old(View()), View(), id)
    {
      hide SlotLists.Holds, Inv, Evolves, Numbered;
      ghost var s0 := View();
      Known(s0, NONE, id);
      Loosen(s0, id);
      Assign(id, timers[id].(first := false, canRelease := true));
      ghost var s1 := View();
      Note(Returned(id));
      EvolvesTransitive(s0, s1, View(), id);
    }

    /** The part of `TimerBase::Exec` that counts down and puts the timer back into the wheel. */
    method Rearm(id: Id)
      requires Valid(id) && id in timers && id in life && timers[id].host == Off && timers[id].canRelease
      requires !timers[id].remove
      requires timers[id].count != 0 && !timers[id].first
      requires life[id].Ready? && life[id].at + 1 == jiffies && life[id].plan.interval == timers[id].interval
      requires life[id].left == if timers[id].count == FOREVER then FOREVER else timers[id].count - 1
      modifies this, lists.Objects()
      ensures jiffies == old(jiffies)
      ensures Valid(NONE) && Evolves(old(View()), View(), id)
      ensures id in life && life[id] ==
        Waiting(DueOf(U64(jiffies + old(timers[id].interval)), jiffies), old(life[id].plan), old(life[id].left), false)
      ensures Plainly() ==
        Happens(old(Plainly()), Armed(id, DueOf(U64(jiffies + old(life[id].plan.interval)), jiffies)))
    {
      hide SlotLists.Holds, Inv, Evolves, Numbered, DueOf;
      var base := timers[id];
      if base.count != FOREVER {
        base := base.(count := base.count - 1);
      }
      base := base.(expires := U64(jiffies + base.interval));
      Arm(id, base);
    }

    /** `TimerWheel::Cascade`: every timer of the slot that is reached now goes where it belongs by now.  None goes
        back into this slot, nor into a slot of another level that is reached now. */
    method Cascade(k: nat, i: nat) returns (index: nat)
      requires k < 4 && i < 64 && At(Vec(k, i), jiffies, jiffies)
      requires Valid(NONE) && Quiet(View())
      modifies this, lists.Objects()
      ensures index == i && Plainly() == old(Plainly())
      ensures Work in old(slots) && Work in slots && slots[Work] == old(slots[Work])
      ensures Vec(k, i) in slots && slots[Vec(k, i)] == []
      ensures forall h :: h in old(slots) && h.Vec? && At(h, jiffies, jiffies) && old(slots[h]) == [] ==>
        h in slots && slots[h] == []
      ensures Valid(NONE)
    {
      hide SlotLists.Holds, Inv, Evolves, Numbered, Quiet;
      var h := Vec(k, i);
      SlotsAre(View(), NONE);
      ghost var s0 := View();
      while true
        invariant jiffies == s0.jiffies && life == s0.life && Plainly() == old(Plainly())
        invariant h in slots && Work in slots && slots[Work] == s0.slots[Work]
        invariant Valid(NONE) && Quiet(View())
        invariant forall g :: g in s0.slots && g.Vec? && At(g, jiffies, jiffies) && s0.slots[g] == [] ==>
          g in slots && slots[g] == []
        decreases |slots[h]|
      {
        ghost var s1 := View();
        QuietIsAboutLife(s0, s1);
        var id := HeadRemove(h);
        if id == NONE { break; }
        DrainedTimer(s1, h, id);
        AddTimer(id);
        NotReachedNow(timers[id].expires, jiffies);
        Settle(View(), id);
        QuietIsAboutLife(s0, View());
      }
      return i;
    }

    /** The cascades at the start of an iteration: level by level, as long as a level has come to its slot 0. */
    method CascadeLevels()
      requires jiffies % 256 == 0
      requires Valid(NONE) && Quiet(View())
      modifies this, lists.Objects()
      ensures Plainly() == old(Plainly())
      ensures Work in old(slots) && Work in slots && slots[Work] == old(slots[Work])
      ensures Valid(NONE) && Cascaded(View())
    {
      hide SlotLists.Holds, Inv, Evolves, Numbered, Quiet, At, Span;
      ghost var s0 := View();
      SlotsAre(s0, NONE);
      LevelZero(jiffies);
      var k := 0;
      var index := Cascade(0, jiffies / Span(0) % 64);
      QuietIsAboutLife(s0, View());
      while k < 3 && index == 0
        invariant 0 <= k <= 3 && index == jiffies / Span(k) % 64 && At(Vec(k, index), jiffies, jiffies)
        invariant jiffies == s0.jiffies && life == s0.life && Plainly() == old(Plainly())
        invariant Work in slots && slots[Work] == s0.slots[Work]
        invariant Valid(NONE) && Quiet(View())
        invariant forall m :: 0 <= m <= k && At(Vec(m, jiffies / Span(m) % 64), jiffies, jiffies) ==>
          Vec(m, jiffies / Span(m) % 64) in slots && slots[Vec(m, jiffies / Span(m) % 64)] == []
      {
        NextLevel(jiffies, k);
        k := k + 1;
        index := Cascade(k, jiffies / Span(k) % 64);
        QuietIsAboutLife(s0, View());
      }
      forall h | h in slots && h.Vec? && At(h, jiffies, jiffies) ensures slots[h] == [] {
        SlotsAre(View(), NONE);
        OneSlotPerLevel(h, jiffies);
        if k < 3 { NextLevel(jiffies, k); }
      }
    }

    /** One iteration of `TimerWheel::Process`.  `env` says what the callbacks of a timer do in an iteration. */
    method Tick(env: (Id, nat) -> (Script, Script))
      requires jiffies + 1 < TWO_63
      requires Valid(NONE) && Quiet(View()) && Work in slots && slots[Work] == []
      modifies this, lists.Objects()
      ensures jiffies == old(jiffies) + 1 && old(log) <= log
      ensures Ticked(old(Plainly()), env, Plainly())
      ensures Valid(NONE) && Quiet(View()) && Work in slots && slots[Work] == []
    {
      hide SlotLists.Holds, Inv, Evolves, Numbered, Quiet, Drained;
      var index := jiffies % 256;
      ghost var s0 := View();
      if index == 0 {
        CascadeLevels();
      } else {
        LevelZero(jiffies);
        SlotsAre(View(), NONE);
      }
      QuietIsAboutLife(s0, View());
      StepJiffies();
      QuietIsAboutLife(s0, View());
      ghost var order := DrainWork(env);
      OrderIs(old(Plainly()), order);
    }

    /** `++_jiffies`, and the exchange of the empty work list with the root slot of the iteration. */
    method StepJiffies()
      requires jiffies + 1 < TWO_63
      requires Valid(NONE) && Cascaded(View()) && Work in slots && slots[Work] == []
      modifies this, lists.Objects()
      ensures Root(old(jiffies) % 256) in old(slots) && View() == Advance(old(View()))
      ensures Plainly() == old(Plainly()).(jiffies := old(jiffies) + 1)
      ensures Valid(NONE) && Work in slots
    {
      hide SlotLists.Holds, Inv, Cascaded;
      SlotsAre(View(), NONE);
      AdvanceKeeps(View());
      var index := jiffies % 256;
      jiffies := jiffies + 1;
      Swap(Work, Root(index));
      timers := map id | id in timers :: if timers[id].host == Root(index) then timers[id].(host := Work)
        else timers[id];
    }

    /** The inner loop of `TimerWheel::Process`: the work list is run down from its head, while callbacks may take
        timers out of it. */
    method DrainWork(env: (Id, nat) -> (Script, Script)) returns (ghost order: seq<Id>)
      requires Valid(NONE) && Quiet(View()) && Work in slots
      modifies this, lists.Objects()
      ensures jiffies == old(jiffies) && old(log) <= log
      ensures Plainly() == Drained(old(Plainly()), order, env)
      ensures NoDup(order) && forall id :: id in order <==> IsDue(old(Plainly()), id, old(jiffies) - 1)
      ensures Valid(NONE) && Quiet(View()) && Work in slots && slots[Work] == []
    {
      hide SlotLists.Holds, Inv, Evolves, Numbered, Quiet, Drained, IsDue, Without;
      ghost var p0, w0 := Plainly(), slots[Work];
      hide NoDup;
      WorkIsDue(View(), p0);
      ghost var done: seq<Id> := [];
      DrainedSkips(p0, done, env);
      while true
        invariant jiffies == old(jiffies) && old(log) <= log
        invariant Valid(NONE) && Quiet(View()) && Work in slots
        invariant Plainly() == Drained(p0, done, env)
        invariant NoDup(done) && forall id :: id in done ==> id in w0
        invariant forall id :: id in slots[Work] ==> id in w0 && id !in done
        decreases |slots[Work]|
      {
        var id := DrainOne(env);
        if id == NONE { break; }
        DrainedAppend(p0, done, [id], env);
        NoDupAppend<Id>(done, id);
        done := done + [id];
      }
      WorkIsDue(View(), Plainly());
      ghost var rest := Remaining(w0, done);
      DrainedSkips(Plainly(), rest, env);
      DrainedAppend(p0, done, rest, env);
      NoDupJoin(done, rest);
      return done + rest;
    }

    /** The head of the work list is taken off and called. */
    method DrainOne(env: (Id, nat) -> (Script, Script)) returns (id: int)
      requires Valid(NONE) && Quiet(View()) && Work in slots
      modifies this, lists.Objects()
      ensures jiffies == old(jiffies) && old(log) <= log
      ensures Valid(NONE) && Quiet(View()) && Work in slots
      ensures if old(slots[Work]) == [] then id == NONE && Plainly() == old(Plainly()) && slots[Work] == []
        else id == old(slots[Work][0]) && Plainly() == Drained(old(Plainly()), [id], env) && id !in slots[Work]
      ensures forall i :: i in slots[Work] ==> i in old(slots[Work])
      ensures old(slots[Work]) != [] ==> |slots[Work]| < |old(slots[Work])|
    {
      hide SlotLists.Holds, Inv, Evolves, Numbered, Quiet, Drained, Executed;
      ghost var s1 := View();
      id := HeadRemove(Work);
      if id == NONE { return; }
      DueNow(s1, id);
      WorkIsDue(s1, old(Plainly()));
      NoDupWithout<Id>(s1.slots[Work], id);
      QuietIsAboutLife(s1, View());
      ghost var s2 := View();
      DrainedOne(Plainly(), id, env);
      Exec(id, env(id, jiffies).0, env(id, jiffies).1);
      QuietAgain(s2, View(), id);
      EvolvesLog(s2, View(), id);
    }

    /** The work list holds the timers that are due in the iteration under way. */
    static lemma WorkIsDue(s: State, p: Plain)
      requires Inv(s, NONE) && Quiet(s) && Work in s.slots && p.jiffies == s.jiffies && p.life == s.life
      ensures forall id :: id in s.slots[Work] <==> IsDue(p, id, s.jiffies - 1)
      ensures NoDup(s.slots[Work])
    {
    }

    static lemma OrderIs(p: Plain, order: seq<Id>)
      requires NoDup(order) && forall id :: id in order <==> IsDue(p, id, p.jiffies)
      ensures IsOrder(p, order)
    {
      hide NoDup;
      forall i, j | 0 <= i < j < |order| ensures order[i] != order[j] {
        NoDupIndex(order, i, j);
      }
    }

    static lemma {:induction false} Remaining(w: seq<Id>, done: seq<Id>) returns (rest: seq<Id>)
      requires NoDup(w)
      ensures NoDup(rest) && forall id :: id in rest <==> id in w && id !in done
    {
      if w == [] { return []; }
      rest := Remaining(w[1..], done);
      assert w == [w[0]] + w[1..];
      if w[0] !in done {
        NoDupAppend(rest, w[0]);
        rest := rest + [w[0]];
      }
    }

    /** `TimerWheel::Process`: catches up with the clock, one jiffy at a time. */
    method Process(now: int, env: (Id, nat) -> (Script, Script))
      requires Valid(NONE) && Quiet(View()) && Work in slots && slots[Work] == []
      modifies this, lists.Objects()
      ensures jiffies == old(jiffies) + Behind(tick, now, old(jiffies)) && old(log) <= log
      ensures 0 <= now - tick < TWO_64 && now - tick < 10 * old(jiffies) ==> jiffies == old(jiffies)
      ensures 0 <= now - tick < TWO_64 && now - tick >= 10 * old(jiffies) ==> 0 <= now - tick - 10 * jiffies < 10
      ensures Processed(old(Plainly()), env, Behind(tick, now, old(jiffies)), Plainly())
      ensures Valid(NONE) && Quiet(View()) && Work in slots && slots[Work] == []
      ensures forall id :: id in life && life[id].Waiting? ==> life[id].due >= jiffies
    {
      hide SlotLists.Holds, Inv, Evolves, Numbered, Quiet, Processed, Ticked;
      var target := U64(now - tick) / JIFFIES_TIME;
      NotBehind(Plainly(), env);
      while target > jiffies
        invariant Processed(old(Plainly()), env, jiffies - old(jiffies), Plainly())
        invariant old(jiffies) <= jiffies && (target < jiffies ==> jiffies == old(jiffies)) && old(log) <= log
        invariant Valid(NONE) && Quiet(View()) && Work in slots && slots[Work] == []
      {
        ghost var m := Plainly();
        Tick(env);
        OneMoreTick(old(Plainly()), env, jiffies - 1 - old(jiffies), m, Plainly());
      }
      NothingOverdue(View());
    }

    /** Any run from a state between two calls: starts, kills and processing in any order.  At its end every arming
        whose jiffy has been processed, by this run or before it, was answered as it should be. */
    method Run(steps: seq<Step>)
      requires Valid(NONE) && Quiet(View()) && Work in slots && slots[Work] == []
      modifies this, lists.Objects()
      ensures Valid(NONE) && Quiet(View()) && Work in slots && slots[Work] == []
      ensures old(log) <= log && old(jiffies) <= jiffies
      ensures Follows(old(Plainly()), tick, steps, Plainly())
      ensures forall p :: 0 <= p < |log| && log[p].Armed? && log[p].due < jiffies ==> exists q :: Answered(log, p, q)
    {
      hide SlotLists.Holds, Inv, Evolves, Numbered, Quiet, Answered, IsRun, Stepped;
      ghost var run := [Plainly()];
      FirstState(run, tick);
      assert steps[..0] == [];
      for i := 0 to |steps|
        invariant |run| == i + 1 && IsRun(run, tick, steps[..i]) && run[0] == old(Plainly()) && run[i] == Plainly()
        invariant Valid(NONE) && Quiet(View()) && Work in slots && slots[Work] == []
        invariant old(log) <= log && old(jiffies) <= jiffies
      {
        MakeStep(steps[i]);
        OneMoreStep(run, tick, steps, i, Plainly());
        run := run + [Plainly()];
      }
      assert steps[..|steps|] == steps;
      forall p | 0 <= p < |log| && log[p].Armed? && log[p].due < jiffies ensures exists q :: Answered(log, p, q) {
        var q := ArmingIsServed(View(), p);
      }
    }

    method MakeStep(step: Step)
      requires Valid(NONE) && Quiet(View()) && Work in slots && slots[Work] == []
      modifies this, lists.Objects()
      ensures Valid(NONE) && Quiet(View()) && Work in slots && slots[Work] == []
      ensures old(log) <= log && old(jiffies) <= jiffies
      ensures Stepped(old(Plainly()), tick, step, Plainly())
    {
      hide SlotLists.Holds, Inv, Evolves, Numbered, Quiet, Started, Concluded, Processed;
      ghost var s := View();
      match step
      case StartTimer(name, delay, count, interval) =>
        if name !in bases {
          StartTimer(name, delay, count, interval);
          EvolvesLog(s, View(), NONE);
          QuietStays(s, View());
        }
      case KillTimer(name, onTerminate) =>
        if name in bases {
          KillTimer(name, onTerminate);
          EvolvesLog(s, View(), NONE);
          QuietStays(s, View());
        }
      case Process(now, env) => Process(now, env);
    }
  }

  /** The arming at `p` was answered at `q`: next among the events of its timer, by the callback in the iteration of the
      jiffy it was due or by a kill; and every later callback has an arming of its own. */
  ghost predicate Answered(log: seq<Event>, p: nat, q: nat) {
    && p < q < |log| && log[p].Armed? && log[q].id == log[p].id && NoneBetween(log, log[p].id, p, q)
    && ((log[q].Called? && log[q].at == log[p].due) || log[q] == Terminated(log[p].id, true))
    && forall r :: q < r < |log| && log[r].Called? && log[r].id == log[p].id ==>
         exists a :: q < a < r && log[a].Armed? && log[a].id == log[p].id
  }

  /** Over any run: an arming whose jiffy has been processed was answered exactly once, by the timer's callback in
      the iteration whose number is the jiffy it was due, unless the timer was killed before. */
  lemma ArmingIsServed(w: State, p: nat) returns (q: nat)
    requires Inv(w, NONE) && Quiet(w) && Work in w.slots && w.slots[Work] == []
    requires p < |w.log| && w.log[p].Armed? && w.log[p].due < w.jiffies
    ensures Answered(w.log, p, q)
  {
    var id := w.log[p].id;
    NothingOverdue(w);
    NoBadLife(w, id);
    q := p + 1;
    while q < |w.log| && w.log[q].id != id
      invariant p < q <= |w.log| && NoneBetween(w.log, id, p, q)
    {
      q := q + 1;
    }
    ArmedThenCalledWhenDue(w.log, p, q);
    forall r | q < r < |w.log| && w.log[r].Called? && w.log[r].id == id
      ensures exists a :: q < a < r && w.log[a].Armed? && w.log[a].id == id
    {
      if w.log[q].Called? { ArmedBetweenCalls(w.log, q, r); } else { NoCallAfterEnd(w.log, q, r); }
    }
  }
}
