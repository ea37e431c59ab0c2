/** The state of the timer wheel (Project/Kernel/Timer/TimerWheel.h) as a value, its invariant, and the elementary
    changes of state that keep the invariant. */
module TimerWheelState {
  import opened Seqs
  import opened TimerArithmetic
  import opened TimerHistory

  type Name = nat

  /** A `TimerBase`.  `name` stands for the user's `ITimer` object. */
  datatype Timer = Timer(
    name: Name, expires: nat, interval: nat, count: int,
    first: bool, canRelease: bool, remove: bool, host: Host)

  datatype State = State(
    jiffies: nat,
    slots: map<Host, seq<Id>>,      // the slot lists of all levels, and the work list
    timers: map<Id, Timer>,         // every TimerBase ever taken from the pool
    bases: map<Name, Id>,           // ITimer::GetBase, where it is not null
    life: map<Id, Life>,
    visit: map<Id, nat>,            // when the wheel will come to look at a listed timer
    log: seq<Event>)

  // ---------------------------------------------------------------------------------------------------------
  // The invariant

  /** A timer is in exactly the list that its host pointer names, once. */
  ghost predicate Listed(s: State) {
    && (forall h :: h in s.slots <==> ValidHost(h))
    && (forall h :: h in s.slots ==> NoDup(s.slots[h]))
    && (forall h, id :: h in s.slots && id in s.slots[h] ==> id in s.timers && s.timers[id].host == h)
    && (forall id :: id in s.timers && s.timers[id].host != Off ==>
          s.timers[id].host in s.slots && id in s.slots[s.timers[id].host])
  }

  /** A listed timer sits where the wheel passes in time: in the root level exactly when it is due, in an upper level
      at a moment of the level's current turn that does not come after the timer is due. */
  ghost predicate PlacedAt(h: Host, visit: nat, jiffies: nat, expires: nat, l: Life) {
    && (l.Waiting? || l.Dying?)
    && At(h, visit, jiffies)
    && visit <= l.due < jiffies + TWO_63
    && (h.Vec? ==> l.due == expires < TWO_64)
    && (!h.Vec? ==> visit == l.due)
  }

  ghost predicate Placed(s: State) {
    forall id :: id in s.timers && s.timers[id].host != Off ==>
      id in s.visit && id in s.life && PlacedAt(s.timers[id].host, s.visit[id], s.jiffies, s.timers[id].expires,
        s.life[id])
  }

  /** The fields of a timer agree with its life. */
  ghost predicate Fits(t: Timer, l: Life) {
    match l
    case Waiting(_, p, c, first) =>
      t.host != Off && t.canRelease && !t.remove && t.count == c && t.first == first && t.interval == p.interval
    case Running(_, p, c) =>
      t.host == Off && !t.canRelease && !t.remove && t.count == c && t.interval == p.interval
    case Dead => t.host == Off && !t.canRelease && t.remove && t.count == 0
    case Dying(_) => t.host != Off && t.canRelease && t.remove
    case Ended => t.host == Off && t.canRelease && t.remove
    case Gone => t.host == Off && t.remove
    case _ => false
  }

  /** Every timer but the one that is being handled (`x`) agrees with its life. */
  ghost predicate Alive(s: State, x: int) {
    && s.life.Keys == s.timers.Keys
    && forall id :: id in s.timers && id != x ==> Fits(s.timers[id], s.life[id])
  }

  /** The user's objects point to exactly the timers that have not been removed. */
  ghost predicate Based(s: State) {
    && (forall n :: n in s.bases ==>
          s.bases[n] in s.timers && s.timers[s.bases[n]].name == n && !s.timers[s.bases[n]].remove)
    && (forall id :: id in s.timers && !s.timers[id].remove ==>
          s.timers[id].name in s.bases && s.bases[s.timers[id].name] == id)
  }

  function LifeOf(life: map<Id, Life>, id: Id): Life {
    if id in life then life[id] else Unborn
  }

  /** The log tells every timer's life. */
  ghost predicate Logged(s: State) {
    forall id :: Phase(s.log, id) == LifeOf(s.life, id)
  }

  const NONE := -1

  ghost predicate Inv(s: State, x: int) {
    Listed(s) && Told(s, x)
  }

  ghost predicate Told(s: State, x: int) {
    Placed(s) && Alive(s, x) && Based(s) && Logged(s) && s.jiffies < TWO_63
  }

  /** No callback is being run, and no work list is being drained. */
  ghost predicate Quiet(s: State) {
    forall id :: id in s.life ==> s.life[id].Waiting? || s.life[id].Gone?
  }

  // ---------------------------------------------------------------------------------------------------------
  // Elementary changes

  function SetTimer(s: State, id: Id, t: Timer): State {
    s.(timers := s.timers[id := t])
  }

  function Record(s: State, e: Event): State {
    s.(log := s.log + [e], life := s.life[e.id := Next(LifeOf(s.life, e.id), e)])
  }

  function Attach(s: State, id: Id, h: Host, v: nat): State
    requires h in s.slots && id in s.timers
  {
    s.(slots := s.slots[h := s.slots[h] + [id]],
       timers := s.timers[id := s.timers[id].(host := h)],
       visit := s.visit[id := v])
  }

  function Detach(s: State, id: Id): State
    requires id in s.timers && s.timers[id].host in s.slots
  {
    var h := s.timers[id].host;
    s.(slots := s.slots[h := Without(s.slots[h], id)], timers := s.timers[id := s.timers[id].(host := Off)])
  }

  function Unbase(s: State, id: Id): State
    requires id in s.timers
  {
    s.(timers := s.timers[id := s.timers[id].(remove := true)], bases := s.bases - {s.timers[id].name})
  }

  lemma SetTimerKeeps(s: State, id: Id, t: Timer)
    requires Inv(s, id) && id in s.timers
    requires t.host == s.timers[id].host && t.name == s.timers[id].name && t.remove == s.timers[id].remove
    requires t.host.Vec? ==> t.expires == s.timers[id].expires
    ensures Inv(SetTimer(s, id, t), id)
  {
    hide Placed, Alive, Based, Logged;
    SetTimerTold(s, id, t);
  }

  lemma SetTimerTold(s: State, id: Id, t: Timer)
    requires Told(s, id) && id in s.timers
    requires t.host == s.timers[id].host && t.name == s.timers[id].name && t.remove == s.timers[id].remove
    requires t.host.Vec? ==> t.expires == s.timers[id].expires
    ensures Told(SetTimer(s, id, t), id)
  {
    hide Placed, Alive, Based, Logged;
    SetTimerPlaced(s, id, t);
    SetTimerAlive(s, id, t);
    SetTimerBased(s, id, t);
    SameLog(s, SetTimer(s, id, t));
  }

  lemma SetTimerPlaced(s: State, id: Id, t: Timer)
    requires Placed(s) && id in s.timers && t.host == s.timers[id].host
    requires t.host.Vec? ==> t.expires == s.timers[id].expires
    ensures Placed(SetTimer(s, id, t))
  {
    hide At;
  }

  lemma SetTimerAlive(s: State, id: Id, t: Timer)
    requires Alive(s, id) && id in s.timers
    ensures Alive(SetTimer(s, id, t), id)
  {
    hide Fits;
  }

  lemma SetTimerBased(s: State, id: Id, t: Timer)
    requires Based(s) && id in s.timers && t.name == s.timers[id].name && t.remove == s.timers[id].remove
    ensures Based(SetTimer(s, id, t))
  {
  }

  lemma SameLog(s: State, s': State)
    requires Logged(s) && s'.log == s.log && s'.life == s.life
    ensures Logged(s')
  {
    hide Phase, LifeOf;
  }

  lemma RecordKeeps(s: State, e: Event)
    requires Inv(s, e.id) && e.id in s.timers
    requires s.timers[e.id].host != Off ==>
      (var l := Next(s.life[e.id], e); (l.Waiting? || l.Dying?) && l.due == s.life[e.id].due)
    ensures Inv(Record(s, e), e.id)
  {
    hide Listed, Told;
    RecordTold(s, e);
    SameSlots(s, Record(s, e));
  }

  lemma SameSlots(s: State, s': State)
    requires Listed(s) && s'.slots == s.slots && s'.timers == s.timers
    ensures Listed(s')
  {
    hide NoDup, ValidHost;
  }

  lemma RecordTold(s: State, e: Event)
    requires Told(s, e.id) && e.id in s.timers
    requires s.timers[e.id].host != Off ==>
      (var l := Next(s.life[e.id], e); (l.Waiting? || l.Dying?) && l.due == s.life[e.id].due)
    ensures Told(Record(s, e), e.id)
  {
    hide Logged, Based;
    RecordLogged(s, e);
    RecordPlaced(s, e);
    SameBases(s, Record(s, e));
  }

  lemma RecordLogged(s: State, e: Event)
    requires Logged(s)
    ensures Logged(Record(s, e))
  {
    hide Phase;
    forall id ensures Phase(s.log + [e], id) == LifeOf(Record(s, e).life, id) {
      PhaseAppend(s.log, e, id);
    }
  }

  lemma RecordPlaced(s: State, e: Event)
    requires Placed(s) && Alive(s, e.id) && e.id in s.timers
    requires s.timers[e.id].host != Off ==>
      (var l := Next(s.life[e.id], e); (l.Waiting? || l.Dying?) && l.due == s.life[e.id].due)
    ensures Placed(Record(s, e)) && Alive(Record(s, e), e.id)
  {
    hide At, Fits, Next;
  }

  lemma SameBases(s: State, s': State)
    requires Based(s) && s'.bases == s.bases && s'.timers == s.timers
    ensures Based(s')
  {
  }

  lemma AttachKeeps(s: State, id: Id, h: Host, v: nat)
    requires Inv(s, id) && id in s.timers && s.timers[id].host == Off && h in s.slots
    requires PlacedAt(h, v, s.jiffies, s.timers[id].expires, s.life[id])
    ensures Inv(Attach(s, id, h, v), id)
  {
    AttachListed(s, id, h, v);
    AttachTold(s, id, h, v);
  }

  lemma AttachListed(s: State, id: Id, h: Host, v: nat)
    requires Listed(s) && id in s.timers && s.timers[id].host == Off && h in s.slots
    ensures Listed(Attach(s, id, h, v))
  {
    NoDupAppend(s.slots[h], id);
  }

  lemma AttachTold(s: State, id: Id, h: Host, v: nat)
    requires Told(s, id) && id in s.timers && h in s.slots
    requires PlacedAt(h, v, s.jiffies, s.timers[id].expires, s.life[id])
    ensures Told(Attach(s, id, h, v), id)
  {
    assert id in s.life;
    hide Placed, Alive, Based, Logged;
    AttachPlaced(s, id, h, v);
    MovedAlive(s, Attach(s, id, h, v), id);
    MovedBased(s, Attach(s, id, h, v), id);
    SameLog(s, Attach(s, id, h, v));
  }

  lemma AttachPlaced(s: State, id: Id, h: Host, v: nat)
    requires Placed(s) && id in s.timers && id in s.life && h in s.slots
    requires PlacedAt(h, v, s.jiffies, s.timers[id].expires, s.life[id])
    ensures Placed(Attach(s, id, h, v))
  {
    hide PlacedAt;
  }

  /** Where a timer is listed does not matter to the rest. */
  lemma MovedAlive(s: State, s': State, id: Id)
    requires Alive(s, id) && id in s.timers && s'.life == s.life
    requires exists h :: s'.timers == s.timers[id := s.timers[id].(host := h)]
    ensures Alive(s', id)
  {
    hide Fits;
  }

  lemma MovedBased(s: State, s': State, id: Id)
    requires Based(s) && id in s.timers && s'.bases == s.bases
    requires exists h :: s'.timers == s.timers[id := s.timers[id].(host := h)]
    ensures Based(s')
  {
  }

  lemma DetachKeeps(s: State, id: Id)
    requires Inv(s, id) && id in s.timers && s.timers[id].host in s.slots
    ensures Inv(Detach(s, id), id)
  {
    DetachListed(s, id);
    DetachTold(s, id);
  }

  lemma DetachListed(s: State, id: Id)
    requires Listed(s) && id in s.timers && s.timers[id].host in s.slots
    ensures Listed(Detach(s, id))
  {
    NoDupWithout(s.slots[s.timers[id].host], id);
  }

  lemma DetachTold(s: State, id: Id)
    requires Told(s, id) && id in s.timers && s.timers[id].host in s.slots
    ensures Told(Detach(s, id), id)
  {
    hide Placed, Alive, Based, Logged;
    DetachPlaced(s, id);
    MovedAlive(s, Detach(s, id), id);
    MovedBased(s, Detach(s, id), id);
    SameLog(s, Detach(s, id));
  }

  lemma DetachPlaced(s: State, id: Id)
    requires Placed(s) && id in s.timers && s.timers[id].host in s.slots
    ensures Placed(Detach(s, id))
  {
    hide PlacedAt;
  }

  lemma UnbaseKeeps(s: State, id: Id)
    requires Inv(s, id) && id in s.timers && !s.timers[id].remove
    ensures Inv(Unbase(s, id), id)
  {
    hide Listed, Placed, Alive, Based, Logged;
    UnbaseListed(s, id);
    UnbasePlaced(s, id);
    UnbaseBased(s, id);
    SameLog(s, Unbase(s, id));
  }

  lemma UnbaseListed(s: State, id: Id)
    requires Listed(s) && id in s.timers
    ensures Listed(Unbase(s, id))
  {
    hide NoDup;
  }

  lemma UnbasePlaced(s: State, id: Id)
    requires Placed(s) && Alive(s, id) && id in s.timers
    ensures Placed(Unbase(s, id)) && Alive(Unbase(s, id), id)
  {
    hide PlacedAt, Fits;
  }

  lemma UnbaseBased(s: State, id: Id)
    requires Based(s) && id in s.timers && !s.timers[id].remove
    ensures Based(Unbase(s, id))
  {
  }

  function Create(s: State, id: Id, t: Timer): State {
    Record(s.(timers := s.timers[id := t], bases := s.bases[t.name := id]), Born(id, Plan(t.count, t.interval)))
  }

  lemma CreateKeeps(s: State, id: Id, t: Timer)
    requires Inv(s, NONE) && id !in s.timers && t.name !in s.bases
    requires t.host == Off && !t.remove
    ensures Inv(Create(s, id, t), id)
    ensures Create(s, id, t).life[id] == Fresh(Plan(t.count, t.interval))
  {
    CreateListed(s, id, t);
    CreateTold(s, id, t);
    assert id !in s.life;
  }

  lemma CreateListed(s: State, id: Id, t: Timer)
    requires Listed(s) && id !in s.timers && t.host == Off
    ensures Listed(Create(s, id, t))
  {
  }

  lemma CreateTold(s: State, id: Id, t: Timer)
    requires Told(s, NONE) && id !in s.timers && t.name !in s.bases
    requires t.host == Off && !t.remove
    ensures Told(Create(s, id, t), id)
  {
    hide Placed, Alive, Based, Logged;
    CreatePlaced(s, id, t);
    CreateBased(s, id, t);
    var s1 := s.(timers := s.timers[id := t], bases := s.bases[t.name := id]);
    SameLog(s, s1);
    RecordLogged(s1, Born(id, Plan(t.count, t.interval)));
  }

  lemma CreatePlaced(s: State, id: Id, t: Timer)
    requires Placed(s) && Alive(s, NONE) && id !in s.timers && t.host == Off
    ensures Placed(Create(s, id, t)) && Alive(Create(s, id, t), id)
  {
    hide PlacedAt, Fits;
  }

  lemma CreateBased(s: State, id: Id, t: Timer)
    requires Based(s) && id !in s.timers && t.name !in s.bases && !t.remove
    ensures Based(Create(s, id, t))
  {
  }

  // ---------------------------------------------------------------------------------------------------------
  // What callbacks may do to the timers they do not belong to

  ghost predicate LifeKept(l: Life, l': Life) {
    l' == l || (l.Waiting? && l'.Gone?) || (l.Running? && l'.Dead?)
  }

  function Initial(): (s: State) {
    State(0,
          (map i: nat | i < 256 :: Root(i) := []) + (map k: nat, i: nat | k < 4 && i < 64 :: Vec(k, i) := []) +
            map[Work := []],
          map[], map[], map[], map[], [])
  }

  lemma InitialSlots()
    ensures forall h :: h in Initial().slots <==> ValidHost(h)
    ensures forall h :: h in Initial().slots ==> Initial().slots[h] == []
  {
  }

  lemma InitialKeeps()
    ensures Inv(Initial(), NONE) && Quiet(Initial()) && Initial().slots[Work] == []
  {
    hide ValidHost, PlacedAt, Fits;
    InitialSlots();
    assert ValidHost(Work);
  }

  /** From `s` to `t` time stood still, the work list only shrank, the log only grew; every timer but `x` lived on, or
      was killed; one that had been killed before or was just ending is untouched. */
  ghost predicate Evolves(s: State, t: State, x: int) {
    && t.jiffies == s.jiffies
    && s.log <= t.log
    && Work in s.slots && Work in t.slots && |t.slots[Work]| <= |s.slots[Work]|
    && (forall id :: id in t.slots[Work] ==> id in s.slots[Work])
    && s.timers.Keys == s.life.Keys <= t.life.Keys == t.timers.Keys
    && (forall id :: id in s.life && id != x ==> LifeKept(s.life[id], t.life[id]))
    && (forall id :: id in s.life && id != x && (s.life[id].Dying? || s.life[id].Dead? || s.life[id].Ended?) ==>
          t.timers[id] == s.timers[id])
    && (forall id :: id in t.life && id !in s.life ==> t.life[id].Waiting? || t.life[id].Gone?)
  }

  lemma EvolvesTransitive(s: State, t: State, u: State, x: int)
    requires Evolves(s, t, x) && Evolves(t, u, x)
    requires x == NONE || x in s.life
    ensures Evolves(s, u, x)
  {
  }

  lemma EvolvesLoosen(s: State, t: State, x: int)
    requires Evolves(s, t, NONE)
    ensures Evolves(s, t, x)
  {
  }

  lemma SetTimerEvolves(s: State, id: Id, t: Timer)
    requires Inv(s, id) && id in s.timers
    ensures Evolves(s, SetTimer(s, id, t), id)
  {
  }

  lemma RecordEvolves(s: State, e: Event)
    requires Inv(s, e.id) && e.id in s.timers
    ensures Evolves(s, Record(s, e), e.id)
  {
  }

  lemma UnbaseEvolves(s: State, id: Id)
    requires Inv(s, id) && id in s.timers
    ensures Evolves(s, Unbase(s, id), id)
  {
  }

  lemma AttachEvolves(s: State, id: Id, h: Host, v: nat)
    requires Inv(s, id) && id in s.timers && h in s.slots && h != Work
    ensures Evolves(s, Attach(s, id, h, v), id)
  {
  }

  lemma DetachEvolves(s: State, id: Id)
    requires Inv(s, id) && id in s.timers && s.timers[id].host in s.slots
    ensures Evolves(s, Detach(s, id), id)
  {
  }

  lemma Settle(s: State, id: Id)
    requires Inv(s, id) && id in s.timers && Fits(s.timers[id], s.life[id])
    ensures Inv(s, NONE)
  {
  }

  lemma Loosen(s: State, x: int)
    requires Inv(s, NONE)
    ensures Inv(s, x)
  {
  }

  /** Only one object holds a timer. */
  lemma ItsBase(s: State, id: Id)
    requires Inv(s, id) && id in s.timers && !s.timers[id].remove
    ensures forall n :: n in s.bases ==> (s.bases[n] == id <==> n == s.timers[id].name)
  {
    hide Placed, Alive, Logged, Listed;
  }

  /** A timer is in the list that it names, and in no other. */
  lemma ListedOnce(s: State, x: int, id: Id)
    requires Inv(s, x) && id in s.timers
    ensures forall h :: h in s.slots && h != s.timers[id].host ==> id !in s.slots[h]
    ensures s.timers[id].host != Off ==> s.timers[id].host in s.slots && id in s.slots[s.timers[id].host]
  {
    hide Told, NoDup;
  }

  /** What a listed or settled timer's fields are. */
  lemma Known(s: State, x: int, id: Id)
    requires Inv(s, x) && id in s.timers
    ensures id in s.life
    ensures id != x ==> Fits(s.timers[id], s.life[id])
    ensures s.timers[id].host != Off ==>
      && s.timers[id].host in s.slots && id in s.slots[s.timers[id].host] && id in s.visit
      && PlacedAt(s.timers[id].host, s.visit[id], s.jiffies, s.timers[id].expires, s.life[id])
    ensures !s.timers[id].remove ==> s.timers[id].name in s.bases && s.bases[s.timers[id].name] == id
  {
  }

  lemma KnownBase(s: State, x: int, n: Name)
    requires Inv(s, x) && n in s.bases
    ensures s.bases[n] in s.timers && s.timers[s.bases[n]].name == n && !s.timers[s.bases[n]].remove
  {
  }

  /** A new timer that was armed at once changes nothing for the others. */
  lemma CreateEvolves(s: State, t: State, id: Id)
    requires Inv(s, NONE) && Inv(t, NONE) && id !in s.timers
    requires t.jiffies == s.jiffies && s.log <= t.log && t.slots[Work] == s.slots[Work]
    requires id in t.life && t.life[id].Waiting? && t.life == s.life[id := t.life[id]]
    requires id in t.timers && t.timers == s.timers[id := t.timers[id]]
    ensures Evolves(s, t, NONE)
  {
    hide Inv;
    Keys(s);
    Keys(t);
  }

  lemma Keys(s: State)
    requires Inv(s, NONE)
    ensures Work in s.slots && s.timers.Keys == s.life.Keys
  {
    hide Placed, Based, Logged, Fits, NoDup;
  }

  lemma EvolvesSelf(s: State, x: int)
    requires Inv(s, x)
    ensures Evolves(s, s, x)
  {
  }

  /** When `TimerBase::End` is called: on a kill of a timer that waits or runs, or after a callback with no repetition
      left, in which the timer may have been killed already. */
  ghost predicate MayEnd(t: Timer, l: Life, isKill: bool) {
    if t.remove then l == Stopped && t.host == Off && t.canRelease
    else if !isKill then l == Finished && t.host == Off && t.canRelease
    else if t.canRelease then l.Waiting? && t.host != Off
    else l.Running? && t.host == Off && t.count == 0
  }

  lemma KillIsALegalChange(s: State, t: State, id: Id)
    requires Inv(s, NONE) && Inv(t, NONE) && Evolves(s, t, id) && id in s.timers && !s.timers[id].remove
    requires id in t.life && (if s.timers[id].canRelease then t.life[id].Gone? else t.life[id].Dead?)
    ensures Evolves(s, t, NONE)
  {
    assert Fits(s.timers[id], s.life[id]);
  }

  /** A timer that is just ending is left alone by whatever callbacks do. */
  lemma Untouched(s: State, t: State, id: Id)
    requires Evolves(s, t, NONE) && id in s.timers && id in s.life
    requires s.life[id].Dying? || s.life[id].Dead? || s.life[id].Ended?
    ensures id in t.timers && id in t.life && t.timers[id] == s.timers[id] && t.life[id] == s.life[id]
  {
  }

  /** A timer inside its own callback is not released; it may be killed. */
  lemma RanOrDied(s: State, t: State, id: Id)
    requires Evolves(s, t, NONE) && id in s.life && s.life[id].Running?
    ensures id in t.life && (t.life[id] == s.life[id] || t.life[id].Dead?)
    ensures s.log <= t.log && id in t.timers
  {
  }

  lemma EvolvesLog(s: State, t: State, x: int)
    requires Evolves(s, t, x)
    ensures s.log <= t.log && s.jiffies == t.jiffies
    ensures Work in s.slots && Work in t.slots && |t.slots[Work]| <= |s.slots[Work]|
    ensures forall id :: id in t.slots[Work] ==> id in s.slots[Work]
  {
  }

  // ---------------------------------------------------------------------------------------------------------
  // One jiffy

  /** No upper-level slot that is reached at this jiffy still holds a timer. */
  ghost predicate Cascaded(s: State) {
    forall h :: h in s.slots && h.Vec? && At(h, s.jiffies, s.jiffies) ==> s.slots[h] == []
  }

  /** Time goes on by one jiffy, and the root slot of that jiffy becomes the work list. */
  function Advance(s: State): State
    requires Root(s.jiffies % 256) in s.slots
  {
    var h := Root(s.jiffies % 256);
    s.(jiffies := s.jiffies + 1,
       slots := s.slots[Work := s.slots[h]][h := []],
       timers := map id | id in s.timers :: if s.timers[id].host == h then s.timers[id].(host := Work)
         else s.timers[id])
  }

  lemma AdvanceKeeps(s: State)
    requires Inv(s, NONE) && Cascaded(s) && Work in s.slots && s.slots[Work] == [] && s.jiffies + 1 < TWO_63
    requires Root(s.jiffies % 256) in s.slots
    ensures Inv(Advance(s), NONE)
  {
    hide Listed, Placed, Alive, Based, Logged;
    AdvanceListed(s);
    AdvanceFits(s);
    AdvancePlaced(s);
  }

  lemma AdvanceListed(s: State)
    requires Listed(s) && Work in s.slots && s.slots[Work] == []
    requires Root(s.jiffies % 256) in s.slots
    ensures Listed(Advance(s))
  {
    hide NoDup, ValidHost;
    var t, r := Advance(s), Root(s.jiffies % 256);
    forall h, id | h in t.slots && id in t.slots[h] ensures id in t.timers && t.timers[id].host == h {
      assert id in s.timers && s.timers[id].host == if h == Work then r else h;
    }
    forall id | id in t.timers && t.timers[id].host != Off
      ensures t.timers[id].host in t.slots && id in t.slots[t.timers[id].host]
    {
      assert id in s.slots[s.timers[id].host];
    }
  }

  lemma AdvanceFits(s: State)
    requires Alive(s, NONE) && Based(s) && Logged(s) && Root(s.jiffies % 256) in s.slots
    ensures Alive(Advance(s), NONE) && Based(Advance(s)) && Logged(Advance(s))
  {
    hide Phase, LifeOf;
    AdvanceAlive(s);
  }

  lemma AdvanceAlive(s: State)
    requires Alive(s, NONE) && Root(s.jiffies % 256) in s.slots
    ensures Alive(Advance(s), NONE)
  {
  }

  lemma AdvancePlaced(s: State)
    requires Listed(s) && Placed(s) && Cascaded(s) && Work in s.slots && s.slots[Work] == []
    requires Root(s.jiffies % 256) in s.slots
    ensures Placed(Advance(s))
  {
    hide PlacedAt, Listed, Cascaded;
    forall id | id in s.timers && s.timers[id].host != Off
      ensures PlacedAt(Advance(s).timers[id].host, s.visit[id], s.jiffies + 1, s.timers[id].expires, s.life[id])
    {
      AdvancePlacedOne(s, id);
    }
  }

  lemma AdvancePlacedOne(s: State, id: Id)
    requires Listed(s) && Placed(s) && Cascaded(s) && Work in s.slots && s.slots[Work] == []
    requires Root(s.jiffies % 256) in s.slots
    requires id in s.timers && s.timers[id].host != Off
    ensures id in s.visit && id in s.life
    ensures PlacedAt(Advance(s).timers[id].host, s.visit[id], s.jiffies + 1, s.timers[id].expires, s.life[id])
  {
    var h, v := s.timers[id].host, s.visit[id];
    assert id in s.slots[h] && ValidHost(h) && PlacedAt(h, v, s.jiffies, s.timers[id].expires, s.life[id]);
    assert h != Work && (h.Vec? ==> !At(h, s.jiffies, s.jiffies));
    var h' := if h == Root(s.jiffies % 256) then Work else h;
    assert Advance(s).timers[id].host == h';
    hide Listed, Placed, Cascaded;
    StaysPlaced(h, h', v, s.jiffies, s.timers[id].expires, s.life[id]);
  }

  /** A slot not reached now keeps its moment, and the root slot that is reached becomes the work list. */
  lemma StaysPlaced(h: Host, h': Host, v: nat, jiffies: nat, expires: nat, l: Life)
    requires PlacedAt(h, v, jiffies, expires, l) && ValidHost(h) && h != Work
    requires h.Vec? ==> !At(h, jiffies, jiffies)
    requires h' == if h == Root(jiffies % 256) then Work else h
    ensures PlacedAt(h', v, jiffies + 1, expires, l)
  {
    if v == jiffies {
      ReachedNow(h, v);
    } else {
      TimeGoesOn(h, v, jiffies);
      NotTheRoot(h, v, jiffies);
    }
  }

  lemma NotTheRoot(h: Host, v: nat, jiffies: nat)
    requires At(h, v, jiffies) && v != jiffies
    ensures h != Root(jiffies % 256)
  {
  }

  /** Outside callbacks, with the work list drained, no timer is overdue. */
  lemma NothingOverdue(s: State)
    requires Inv(s, NONE) && Quiet(s) && Work in s.slots && s.slots[Work] == []
    ensures forall id :: id in s.life && s.life[id].Waiting? ==> s.life[id].due >= s.jiffies
  {
  }

  lemma QuietAgain(s: State, t: State, id: Id)
    requires Quiet(s) && Evolves(s, t, id)
    requires id in t.life && (t.life[id].Waiting? || t.life[id].Gone?)
    ensures Quiet(t)
  {
  }

  lemma QuietStays(s: State, t: State)
    requires Quiet(s) && Evolves(s, t, NONE)
    ensures Quiet(t)
  {
  }

  /** The state just before and just after a timer is moved to its proper place by a cascade. */
  lemma DrainedTimer(s: State, h: Host, id: Id)
    requires Inv(s, NONE) && Quiet(s) && ValidHost(h) && h.Vec? && At(h, s.jiffies, s.jiffies)
    requires id in s.timers && s.timers[id].host == h
    ensures id in s.life && s.life[id].Waiting? && Fits(s.timers[id], s.life[id])
    ensures s.timers[id].expires < TWO_64 && s.life[id].due == DueOf(s.timers[id].expires, s.jiffies)
  {
    hide Inv;
    Known(s, NONE, id);
    ReachedOnce(h, s.visit[id], s.jiffies, s.jiffies);
  }

  lemma SlotsAre(s: State, x: int)
    requires Inv(s, x)
    ensures forall h :: h in s.slots <==> ValidHost(h)
    ensures s.jiffies < TWO_63
  {
  }

  lemma QuietIsAboutLife(s: State, t: State)
    requires s.life == t.life
    ensures Quiet(s) <==> Quiet(t)
  {
  }

  /** A timer of the work list is due in the iteration that is being processed. */
  lemma DueNow(s: State, id: Id)
    requires Inv(s, NONE) && Quiet(s) && id in s.timers && s.timers[id].host == Work
    ensures id in s.life && s.life[id].Waiting? && s.life[id].due + 1 == s.jiffies && Fits(s.timers[id], s.life[id])
  {
    Known(s, NONE, id);
  }

  lemma NoBadLife(s: State, id: Id)
    requires Inv(s, NONE)
    ensures Phase(s.log, id) == LifeOf(s.life, id) && Phase(s.log, id) != Bad
  {
  }
}
