/** The ring of Project/Public/CircularQueue.h between one producer and one consumer: `Push` and `Pop` are split into
    the check, the access to the slot and the step of the counter, and interleaved freely. */
module CircularQueue {
  import opened Division

  const TWO_31 := 0x8000_0000
  const TWO_32 := 0x1_0000_0000

  // ---------------------------------------------------------------------------------------------------------
  // The size

  function Pow2(n: nat): (p: int)
    ensures p >= 1
  {
    if n == 0 then 1 else 2 * Pow2(n - 1)
  }

  ghost predicate IsPow2(n: int) {
    exists k :: n == Pow2(k)
  }

  lemma {:induction false} Pow2Grows(a: nat, b: nat)
    requires Pow2(a) < Pow2(b)
    ensures 2 * Pow2(a) <= Pow2(b)
  {
    if a == 0 || b == 0 {
    } else {
      Pow2Grows(a - 1, b - 1);
    }
  }

  /** `RoundupPowerOf2`: the least power of two above the number, as long as it fits into 32 bits.  `temp` is a single
      bit, and the loop looks for it in the number. */
  method RoundupPowerOf2(num: int) returns (r: int)
    requires 0 < num < TWO_32
    ensures num < TWO_31 ==> LeastAbove(r, num)
    ensures num >= TWO_31 ==> r == 0
  {
    hide Looking, LeastAbove;
    var temp := TWO_31;
    ghost var k: nat := 31;
    LookFrom(num);
    while num / temp % 2 == 0
      invariant temp > 0 && Looking(num, temp, k)
      decreases temp
    {
      LookOn(num, temp, k);
      temp := temp / 2;
      k := k - 1;
    }
    Found(num, temp, k);
    r := temp * 2 % TWO_32;
  }

  /** No higher bit of the number is set. */
  ghost predicate Looking(num: int, temp: int, k: nat) {
    temp == Pow2(k) && 0 < temp <= TWO_31 && num < 2 * temp
  }

  lemma LookFrom(num: int)
    requires num < TWO_32
    ensures Looking(num, TWO_31, 31)
  {
    hide Pow2;
    Pow2Of31();
  }

  lemma LookOn(num: int, temp: int, k: nat)
    requires Looking(num, temp, k) && num > 0 && num / temp % 2 == 0
    ensures k > 0 && temp / 2 > 0 && Looking(num, temp / 2, k - 1)
  {
    hide Pow2;
    NoBit(num, temp);
    Half(k);
  }

  lemma Found(num: int, temp: int, k: nat)
    requires Looking(num, temp, k) && num > 0 && num / temp % 2 != 0
    ensures num < TWO_31 ==> LeastAbove(temp * 2 % TWO_32, num)
    ensures num >= TWO_31 ==> temp * 2 % TWO_32 == 0
  {
    hide Pow2;
    OneBit(num, temp);
    Half(k + 1);
    forall j | Pow2(j) > num ensures Pow2(j) >= 2 * temp {
      Pow2Grows(k, j);
    }
    if num < TWO_31 {
      Fits(k, num);
    } else {
      Pow2Of31();
      if temp < TWO_31 { Pow2Grows(k, 31); }
    }
  }

  ghost predicate LeastAbove(r: int, num: int) {
    num < r && IsPow2(r) && forall j :: Pow2(j) > num ==> Pow2(j) >= r
  }

  lemma NoBit(num: int, temp: int)
    requires 0 < num < 2 * temp && num / temp % 2 == 0
    ensures num < temp && temp > 1
  {
    assert num / temp < 2;
  }

  lemma OneBit(num: int, temp: int)
    requires 0 < num < 2 * temp && num / temp % 2 != 0
    ensures temp <= num
  {
  }

  lemma Half(k: nat)
    ensures Pow2(k) > 1 ==> k > 0
    ensures k > 0 ==> Pow2(k) == 2 * Pow2(k - 1) && Pow2(k) / 2 == Pow2(k - 1)
  {
  }

  lemma Fits(k: nat, num: int)
    requires Pow2(k) <= num < TWO_31
    ensures 2 * Pow2(k) <= TWO_31
  {
    hide Pow2;
    Pow2Of31();
    Pow2Grows(k, 31);
  }

  /** The bits that two numbers have in common. */
  function And(a: nat, b: nat): (c: nat)
  {
    if a == 0 || b == 0 then 0 else 2 * And(a / 2, b / 2) + a % 2 * (b % 2)
  }

  lemma {:induction false} AndSelf(n: nat)
    ensures And(n, n) == n
  {
    if n > 0 { AndSelf(n / 2); }
  }

  lemma PowIsPow2(k: nat)
    ensures IsPow2(Pow2(k))
  {
  }

  lemma HalfPower(n: int, k: nat)
    requires n % 2 == 0 && n == Pow2(k)
    ensures k > 0 && n / 2 == Pow2(k - 1)
  {
  }

  /** The test for a power of two that the constructor makes. */
  lemma {:induction false} SingleBit(n: nat)
    requires n > 0
    ensures And(n, n - 1) == 0 <==> IsPow2(n)
  {
    if n % 2 == 0 {
      SingleBit(n / 2);
      assert (n - 1) / 2 == n / 2 - 1;
      if k: nat :| n / 2 == Pow2(k) { assert n == Pow2(k + 1); }
      if k: nat :| n == Pow2(k) { HalfPower(n, k); }
    } else {
      AndSelf(n / 2);
      if n == 1 { assert n == Pow2(0); }
    }
  }

  /** `RoundupPowerOf2` gives a size that the counters run through without a break. */
  lemma RoundedIsRingSize(r: int, num: int)
    requires 0 < num < TWO_31 && LeastAbove(r, num)
    ensures RingSize(r)
  {
    hide Pow2;
    var k: nat :| r == Pow2(k);
    Pow2Of31();
    assert r <= Pow2(31);
    Pow2Divides(k);
  }

  lemma {:induction false} Pow2Order(a: nat, b: nat)
    requires a < b
    ensures Pow2(a) < Pow2(b)
  {
    if a + 1 < b { Pow2Order(a, b - 1); }
  }

  lemma SizeIsRingSize(size: int)
    requires 0 < size <= TWO_31 && IsPow2(size)
    ensures RingSize(size)
  {
    var k: nat :| size == Pow2(k);
    Pow2Divides(k);
  }

  /** A power of two up to 2^31 goes into 2^32 without a rest. */
  lemma {:induction false} Pow2Divides(k: nat)
    requires Pow2(k) <= TWO_31
    ensures k <= 31 && TWO_32 == Pow2(32 - k) * Pow2(k) && TWO_32 % Pow2(k) == 0
  {
    Pow2Of31();
    if k > 31 { Pow2Order(31, k); }
    if k > 0 {
      Pow2Divides(k - 1);
      assert Pow2(33 - k) == 2 * Pow2(32 - k);
      Regroup(Pow2(32 - k), Pow2(k - 1));
    }
    ModPlus(0, Pow2(32 - k), Pow2(k));
  }

  lemma Pow2Half()
    ensures Pow2(30) == TWO_31 / 2 && Pow2(32) == TWO_32
  {
    Pow2Of31();
    assert Pow2(31) == 2 * Pow2(30) && Pow2(32) == 2 * Pow2(31);
  }

  /** Whatever divides a power of two is one. */
  lemma {:induction false} DivisorIsPow2(n: nat, m: nat, k: nat)
    requires Times(n, m) == Pow2(k)
    ensures exists j: nat :: j <= k && n == Pow2(j)
    decreases k
  {
    if k == 0 {
      OnlyOne(n, m);
      assert n == Pow2(0);
    } else if n % 2 == 0 {
      Halved(n, m);
      DivisorIsPow2(n / 2, m, k - 1);
      var j: nat :| j <= k - 1 && n / 2 == Pow2(j);
      assert n == Pow2(j + 1);
    } else {
      OddFactor(n, m, Pow2(k - 1));
      Halved(m, n);
      Swapped(n, m);
      Swapped(n, m / 2);
      DivisorIsPow2(n, m / 2, k - 1);
    }
  }

  function Times(a: int, b: int): int { a * b }

  lemma OnlyOne(n: nat, m: nat)
    requires Times(n, m) == 1
    ensures n == 1
  {
    if n > 1 && m > 0 { AtLeast(m, n); }
  }

  lemma Swapped(a: int, b: int)
    ensures Times(a, b) == Times(b, a)
  {
  }

  lemma Halved(n: nat, m: nat)
    ensures n % 2 == 0 ==> 2 * Times(n / 2, m) == Times(n, m)
  {
    if n % 2 == 0 { assert n == 2 * (n / 2); }
  }

  lemma OddFactor(n: nat, m: nat, half: nat)
    requires Times(n, m) == 2 * half && n % 2 == 1
    ensures m % 2 == 0
  {
    if m % 2 == 1 { OddProduct(n / 2, m / 2); }
  }

  lemma OddProduct(a: int, b: int)
    ensures Times(2 * a + 1, 2 * b + 1) % 2 == 1
  {
    assert (2 * a + 1) * (2 * b + 1) == 2 * (2 * (a * b) + a + b) + 1;
  }

  lemma Regroup(a: int, b: int)
    ensures 2 * a * b == a * (2 * b)
  {
  }

  lemma Pow2Of31()
    ensures Pow2(31) == TWO_31
  {
    assert Pow2(8) == 0x100;
    assert Pow2(16) == 0x1_0000;
    assert Pow2(24) == 0x100_0000;
  }

  /** Powers of two that a 32-bit counter runs through without a break. */
  predicate RingSize(size: int) {
    0 < size <= TWO_31 && TWO_32 % size == 0
  }

  /** The size the constructor settles on: a power of two is kept, another size is rounded up. */
  method RingSizeFor(size: int) returns (rounded: int)
    requires 0 < size <= TWO_31
    ensures RingSize(rounded)
    ensures if IsPow2(size) then rounded == size else LeastAbove(rounded, size)
  {
    hide And, Pow2, RingSize, LeastAbove, IsPow2;
    SingleBit(size);
    Pow2Of31();
    PowIsPow2(31);
    if And(size, size - 1) == 0 {
      SizeIsRingSize(size);
      rounded := size;
    } else {
      rounded := RoundupPowerOf2(size);
      RoundedIsRingSize(rounded, size);
    }
  }

  // ---------------------------------------------------------------------------------------------------------
  // Steps

  /** Between the check and the store; between the store and the step of `_tail`. */
  datatype Producer<T> = Outside | Storing(t: T) | Bumping(t: T)

  /** Between the check and the load; between the load and the step of `_front`. */
  datatype Consumer<T> = Away | Loading | Leaving(t: T)

  /** `pushed` and `popped`: the values of the completed calls. */
  datatype Ring<T> = Ring(
    slots: seq<T>, front: int, tail: int, producer: Producer<T>, consumer: Consumer<T>, pushed: seq<T>, popped: seq<T>)

  datatype Action<T> = PushCheck(t: T) | PushStore | PushBump | PopCheck | PopLoad | PopBump

  /** The difference of two counters in 32 bits. */
  function Apart(tail: int, front: int): int {
    (tail - front) % TWO_32
  }

  predicate Enabled<T>(r: Ring<T>, a: Action<T>) {
    match a
    case PushCheck(_) => r.producer.Outside?
    case PushStore => r.producer.Storing? && r.slots != []
    case PushBump => r.producer.Bumping?
    case PopCheck => r.consumer.Away?
    case PopLoad => r.consumer.Loading? && r.slots != []
    case PopBump => r.consumer.Leaving?
  }

  function Do<T>(r: Ring<T>, a: Action<T>): Ring<T>
    requires Enabled(r, a)
  {
    match a
    case PushCheck(t) => if Apart(r.tail, r.front) >= |r.slots| then r else r.(producer := Storing(t))
    case PushStore => r.(slots := r.slots[r.tail % |r.slots| := r.producer.t], producer := Bumping(r.producer.t))
    case PushBump => r.(tail := (r.tail + 1) % TWO_32, pushed := r.pushed + [r.producer.t], producer := Outside)
    case PopCheck => if r.front == r.tail then r else r.(consumer := Loading)
    case PopLoad => r.(consumer := Leaving(r.slots[r.front % |r.slots|]))
    case PopBump => r.(front := (r.front + 1) % TWO_32, popped := r.popped + [r.consumer.t], consumer := Away)
  }

  function Initial<T>(slots: seq<T>): Ring<T> {
    Ring(slots, 0, 0, Outside, Away, [], [])
  }

  ghost predicate Runs<T>(r: Ring<T>, actions: seq<Action<T>>)
    decreases |actions|
  {
    actions == [] || (Enabled(r, actions[0]) && Runs(Do(r, actions[0]), actions[1..]))
  }

  ghost function After<T>(r: Ring<T>, actions: seq<Action<T>>): Ring<T>
    requires Runs(r, actions)
    decreases |actions|
  {
    if actions == [] then r else After(Do(r, actions[0]), actions[1..])
  }

  // ---------------------------------------------------------------------------------------------------------
  // The invariant

  ghost predicate Counters<T>(r: Ring<T>) {
    && RingSize(|r.slots|)
    && r.tail == |r.pushed| % TWO_32 && r.front == |r.popped| % TWO_32
    && |r.popped| <= |r.pushed| <= |r.popped| + |r.slots|
    && (!r.producer.Outside? ==> |r.pushed| < |r.popped| + |r.slots|)
    && (!r.consumer.Away? ==> |r.popped| < |r.pushed|)
  }

  /** The slots of the values that are not popped yet hold them. */
  ghost predicate Unread<T>(r: Ring<T>)
    requires r.slots != []
  {
    forall k {:trigger r.pushed[k]} :: |r.popped| <= k < |r.pushed| ==> r.slots[k % |r.slots|] == r.pushed[k]
  }

  ghost predicate Inv<T>(r: Ring<T>) {
    && Counters(r) && Unread(r)
    && (r.producer.Bumping? ==> r.slots[|r.pushed| % |r.slots|] == r.producer.t)
    && (r.consumer.Leaving? ==> r.consumer.t == r.pushed[|r.popped|])
    && r.popped == r.pushed[..|r.popped|]
  }

  lemma ModMod(n: nat, size: int)
    requires RingSize(size)
    ensures n % TWO_32 % size == n % size
  {
    var d, q := TWO_32 / size, n / TWO_32;
    assert TWO_32 == d * size;
    assert n == q * TWO_32 + n % TWO_32;
    assert q * TWO_32 == q * d * size;
    ModPlus(n % TWO_32, q * d, size);
  }

  lemma ModPlus(x: int, c: int, size: int)
    requires size > 0
    ensures (x + c * size) % size == x % size
  {
    assert x == x / size * size + x % size;
    Distribute(x / size, c, size);
    QuotientIs(x + c * size, size, x / size + c, x % size);
  }

  /** Positions less than a round apart use different slots. */
  lemma OtherSlot(k: int, n: int, size: int)
    requires k < n < k + size
    ensures k % size != n % size
  {
    var d := n / size - k / size;
    assert k == k / size * size + k % size && n == n / size * size + n % size;
    Distribute(n / size, k / size, size);
    if k % size == n % size { InTheSameRow(d, n - k, size); }
  }

  lemma InTheSameRow(d: int, apart: int, size: int)
    requires d * size == apart && 0 <= apart < size
    ensures apart == 0
  {
    NoMultipleBetween(d, size);
  }

  lemma CountersApart(w: nat, f: nat)
    requires f <= w <= f + TWO_31
    ensures Apart(w % TWO_32, f % TWO_32) == w - f
    ensures w % TWO_32 == f % TWO_32 <==> w == f
    ensures (w % TWO_32 + 1) % TWO_32 == (w + 1) % TWO_32
  {
  }

  /** The checks are exact, although the counters wrap. */
  lemma ChecksAreExact<T>(r: Ring<T>)
    requires Inv(r)
    ensures Apart(r.tail, r.front) >= |r.slots| <==> |r.pushed| - |r.popped| == |r.slots|
    ensures r.front == r.tail <==> r.pushed == r.popped
  {
    CountersApart(|r.pushed|, |r.popped|);
    if |r.pushed| == |r.popped| {
      assert r.pushed[..|r.popped|] == r.pushed;
    }
  }

  lemma StoreKeeps<T>(r: Ring<T>)
    requires Inv(r) && Enabled(r, PushStore)
    ensures Inv(Do(r, PushStore))
    ensures forall k :: |r.popped| <= k < |r.pushed| ==> k % |r.slots| != r.tail % |r.slots|
  {
    hide Apart, RingSize;
    ModMod(|r.pushed|, |r.slots|);
    forall k | |r.popped| <= k < |r.pushed| ensures k % |r.slots| != r.tail % |r.slots| {
      OtherSlot(k, |r.pushed|, |r.slots|);
    }
  }

  lemma PushBumpKeeps<T>(r: Ring<T>)
    requires Inv(r) && Enabled(r, PushBump)
    ensures Inv(Do(r, PushBump))
  {
    hide Apart, RingSize;
    CountersApart(|r.pushed|, |r.popped|) by { SmallRing(r); }
  }

  lemma SmallRing<T>(r: Ring<T>)
    requires Counters(r)
    ensures |r.popped| <= |r.pushed| <= |r.popped| + TWO_31
  {
  }

  lemma PopLoadKeeps<T>(r: Ring<T>)
    requires Inv(r) && Enabled(r, PopLoad)
    ensures Inv(Do(r, PopLoad))
  {
    hide Apart, RingSize;
    ModMod(|r.popped|, |r.slots|);
    assert r.slots[|r.popped| % |r.slots|] == r.pushed[|r.popped|];
  }

  lemma PopBumpKeeps<T>(r: Ring<T>)
    requires Inv(r) && Enabled(r, PopBump)
    ensures Inv(Do(r, PopBump))
  {
    hide Apart, RingSize;
    CountersApart(|r.popped|, |r.popped|);
    assert r.pushed[..|r.popped| + 1] == r.pushed[..|r.popped|] + [r.pushed[|r.popped|]];
  }

  lemma StepKeeps<T>(r: Ring<T>, a: Action<T>)
    requires Inv(r) && Enabled(r, a)
    ensures Inv(Do(r, a))
  {
    match a
    case PushCheck(_) => ChecksAreExact(r);
    case PushStore => StoreKeeps(r);
    case PushBump => PushBumpKeeps(r);
    case PopCheck => ChecksAreExact(r);
    case PopLoad => PopLoadKeeps(r);
    case PopBump => PopBumpKeeps(r);
  }

  lemma {:induction false} RunKeeps<T>(r: Ring<T>, actions: seq<Action<T>>)
    requires Inv(r) && Runs(r, actions)
    ensures Inv(After(r, actions)) && |After(r, actions).slots| == |r.slots|
    decreases |actions|
  {
    hide Inv, Enabled, Do;
    if actions != [] {
      StepKeeps(r, actions[0]);
      SameSize(r, actions[0]);
      RunKeeps(Do(r, actions[0]), actions[1..]);
    }
  }

  lemma SameSize<T>(r: Ring<T>, a: Action<T>)
    requires Enabled(r, a)
    ensures |Do(r, a).slots| == |r.slots|
  {
  }

  /** Over every run, however far the counters have wrapped: the values popped are the first of the values pushed, no
      more than the ring's size are in between, and what the consumer is about to return is the next of them. */
  lemma FirstInFirstOut<T>(slots: seq<T>, actions: seq<Action<T>>)
    requires RingSize(|slots|) && Runs(Initial(slots), actions)
    ensures var r := After(Initial(slots), actions);
      && r.popped <= r.pushed && |r.pushed| <= |r.popped| + |slots|
      && (r.consumer.Leaving? ==> |r.popped| < |r.pushed| && r.consumer.t == r.pushed[|r.popped|])
  {
    assert Inv(Initial(slots));
    RunKeeps(Initial(slots), actions);
  }

  /** Over every run a store never hits a slot whose value has not been popped. */
  lemma NoOverwrite<T>(slots: seq<T>, actions: seq<Action<T>>)
    requires RingSize(|slots|) && Runs(Initial(slots), actions) && Enabled(After(Initial(slots), actions), PushStore)
    ensures var r := After(Initial(slots), actions);
      |r.slots| == |slots| && forall k :: |r.popped| <= k < |r.pushed| ==> k % |slots| != r.tail % |slots|
  {
    assert Inv(Initial(slots));
    RunKeeps(Initial(slots), actions);
    StoreKeeps(After(Initial(slots), actions));
  }

  /** Over every run `Push` refuses exactly when the ring is full, and `Pop` exactly when it is empty. */
  lemma Refusals<T>(slots: seq<T>, actions: seq<Action<T>>, t: T)
    requires RingSize(|slots|) && Runs(Initial(slots), actions)
    ensures var r := After(Initial(slots), actions);
      && (Enabled(r, PushCheck(t)) ==> (Do(r, PushCheck(t)) == r <==> |r.pushed| - |r.popped| == |slots|))
      && (Enabled(r, PopCheck) ==> (Do(r, PopCheck) == r <==> r.pushed == r.popped))
  {
    assert Inv(Initial(slots));
    RunKeeps(Initial(slots), actions);
    ChecksAreExact(After(Initial(slots), actions));
  }

  // ---------------------------------------------------------------------------------------------------------
  // The ring in its array

  class CircluarQueue<T(0)> {
    var slots: array<T>
    var front: int
    var tail: int

    ghost var pushed: seq<T>
    ghost var popped: seq<T>

    ghost function View(): Ring<T>
      reads this, slots
    {
      Ring(slots[..], front, tail, Outside, Away, pushed, popped)
    }

    /** A size that is no power of two is rounded up; one above 2^31 cannot be. */
    constructor (size: int)
      requires 0 < size <= TWO_31
      ensures Inv(View()) && pushed == popped == []
      ensures if IsPow2(size) then slots.Length == size else LeastAbove(slots.Length, size)
    {
      var rounded := RingSizeFor(size);
      slots := new T[rounded];
      front, tail := 0, 0;
      pushed, popped := [], [];
    }

    /** The three steps in a row. */
    method Push(t: T) returns (ok: bool)
      requires Inv(View())
      modifies this`tail, this`pushed, slots
      ensures Inv(View())
      ensures ok == (old(|pushed| - |popped|) < slots.Length) && pushed == old(pushed) + if ok then [t] else []
    {
      hide Inv, Apart, Do;
      ChecksAreExact(View());
      Start(View());
      if Apart(tail, front) >= slots.Length { return false; }
      ghost var was := slots[..];
      AllOfPush(View(), t);
      slots[tail % slots.Length] := t;
      assert slots[..] == was[tail % |was| := t];
      tail := (tail + 1) % TWO_32;
      pushed := pushed + [t];
      ok := true;
    }

    static lemma AllOfPush(r: Ring<T>, t: T)
      requires Inv(r) && r.producer.Outside? && r.slots != [] && Apart(r.tail, r.front) < |r.slots|
      requires 0 <= r.tail % |r.slots| < |r.slots|
      ensures Inv(r.(slots := r.slots[r.tail % |r.slots| := t], tail := (r.tail + 1) % TWO_32,
        pushed := r.pushed + [t]))
    {
      hide Inv, Apart;
      StepKeeps(r, PushCheck(t));
      var r1 := Do(r, PushCheck(t));
      StepKeeps(r1, PushStore);
      StepKeeps(Do(r1, PushStore), PushBump);
    }

    /** On an empty ring the caller's variable keeps its value. */
    method Pop(was: T) returns (ok: bool, val: T)
      requires Inv(View())
      modifies this`front, this`popped
      ensures Inv(View())
      ensures ok == old(popped != pushed)
      ensures ok ==> popped == old(popped) + [val] && popped <= pushed
      ensures !ok ==> popped == old(popped) && val == was
    {
      hide Inv, Do;
      ChecksAreExact(View());
      Start(View());
      val := was;
      if front == tail { return false, was; }
      AllOfPop(View());
      val := slots[front % slots.Length];
      front := (front + 1) % TWO_32;
      popped := popped + [val];
      ok := true;
    }

    static lemma AllOfPop(r: Ring<T>)
      requires Inv(r) && r.consumer.Away? && r.slots != [] && r.front != r.tail
      requires 0 <= r.front % |r.slots| < |r.slots|
      ensures var r' := r.(front := (r.front + 1) % TWO_32, popped := r.popped + [r.slots[r.front % |r.slots|]]);
        Inv(r') && r'.popped <= r'.pushed
    {
      hide Inv;
      StepKeeps(r, PopCheck);
      var r1 := Do(r, PopCheck);
      StepKeeps(r1, PopLoad);
      StepKeeps(Do(r1, PopLoad), PopBump);
      Prefix(Do(Do(r1, PopLoad), PopBump));
    }

    static lemma Start(r: Ring<T>)
      requires Inv(r)
      ensures |r.pushed| - |r.popped| <= |r.slots|
      ensures |r.slots| > 0 && 0 <= r.tail % |r.slots| < |r.slots| && 0 <= r.front % |r.slots| < |r.slots|
    {
    }

    static lemma Prefix(r: Ring<T>)
      requires Inv(r)
      ensures r.popped <= r.pushed
    {
    }
  }
}
