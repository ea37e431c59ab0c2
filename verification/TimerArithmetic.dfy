/** The 64-bit jiffies of Project/Kernel/Timer and the shift-and-mask arithmetic of the wheel's five levels. */
module TimerArithmetic {

  const TWO_63 := 0x8000_0000_0000_0000
  const TWO_64 := 0x1_0000_0000_0000_0000
  const MAX_IDX := 0xFFFF_FFFF
  const FOREVER := -1
  const JIFFIES_TIME := 10

  /** Conversion of a signed 64-bit result to the unsigned type of the jiffies. */
  function U64(x: int): nat { x % TWO_64 }

  /** Conversion to a signed 32-bit parameter. */
  function S32(x: int): int {
    var r := x % 0x1_0000_0000;
    if r < 0x8000_0000 then r else r - 0x1_0000_0000
  }

  /** Division that truncates toward zero. */
  function Quot(x: int, d: int): int
    requires d > 0
  {
    if x >= 0 then x / d else -(-x / d)
  }

  /** The quotient is the nearest one on the side of zero. */
  lemma QuotIs(x: int, d: int)
    requires d > 0
    ensures x >= 0 ==> 0 <= x - Quot(x, d) * d < d
    ensures x < 0 ==> -d < x - Quot(x, d) * d <= 0
  {
    if x >= 0 {
      assert x == x / d * d + x % d;
    } else {
      assert -x == -x / d * d + -x % d;
      assert -(-x / d) * d == -(-x / d * d);
    }
  }

  /** A delay in milliseconds becomes one in jiffies of 10 ms, rounded towards zero; one that has passed is due at
      once. */
  lemma DelayIs(delay: int, j: nat)
    requires -TWO_63 <= delay < TWO_63 && j < TWO_63
    ensures var due := DueOf(U64(j + Quot(delay, JIFFIES_TIME)), j);
      if delay >= 0 then 0 <= delay - 10 * (due - j) < 10 else due == j
  {
    QuotIs(delay, JIFFIES_TIME);
  }

  /** What is kept of an interval in milliseconds: jiffies of 10 ms, rounded towards zero, as a 32-bit number that has
      been widened to 64 bits. */
  lemma IntervalIs(interval: int)
    ensures var kept := U64(S32(Quot(interval, JIFFIES_TIME)));
      && (0 <= interval < 10 * 0x8000_0000 ==> 0 <= interval - 10 * kept < 10)
      && (-10 * 0x8000_0000 <= interval <= -10 ==>
           kept >= TWO_63 && -10 < interval - 10 * (kept - TWO_64) <= 0)
      && (-10 < interval < 0 ==> kept == 0)
  {
    QuotIs(interval, JIFFIES_TIME);
  }

  /** A 32-bit parameter keeps the number up to multiples of 2^32. */
  lemma S32Is(x: int) returns (k: int)
    ensures S32(x) == x + k * 0x1_0000_0000 && -0x8000_0000 <= S32(x) < 0x8000_0000
  {
    k := (S32(x) - x) / 0x1_0000_0000;
  }

  /** An expiry of the coming 2^63 jiffies is met in its own iteration, one that has passed in the very next. */
  lemma DueIs(expires: nat, j: nat)
    requires expires < TWO_64 && j < TWO_63
    ensures DueOf(expires, j) == if j <= expires < j + TWO_63 then expires else j
  {
  }

  /** Where a timer is kept: nowhere, in the root level, in one of the four upper levels, or in the work list of
      the iteration that is being processed. */
  datatype Host = Off | Root(i: nat) | Vec(k: nat, i: nat) | Work

  predicate ValidHost(h: Host) {
    match h
    case Off => false
    case Root(i) => i < 256
    case Vec(k, i) => k < 4 && i < 64
    case Work => true
  }

  /** Jiffies per slot of an upper level. */
  function Span(k: nat): (s: nat)
    ensures s > 0
  {
    if k == 0 then 0x100 else if k == 1 then 0x4000 else if k == 2 then 0x10_0000 else 0x400_0000
  }

  /** The iteration that must run a timer armed at `j` with the given expiry: its expiry, or the next iteration
      when the expiry has passed (as the sign of the 64-bit difference tells). */
  function DueOf(expires: nat, j: nat): nat {
    var idx := U64(expires - j);
    if idx >= TWO_63 then j else j + idx
  }

  /** `TimerWheel::AddTimer`: the slot that a timer goes into. */
  function SlotFor(expires: nat, j: nat): Host {
    var idx := U64(expires - j);
    if idx < 0x100 then Root(expires % 256)
    else if idx < 0x4000 then Vec(0, expires / 0x100 % 64)
    else if idx < 0x10_0000 then Vec(1, expires / 0x4000 % 64)
    else if idx < 0x400_0000 then Vec(2, expires / 0x10_0000 % 64)
    else if idx >= TWO_63 then Root(j % 256)
    else Vec(3, (if idx > MAX_IDX then U64(MAX_IDX + j) else expires) / 0x400_0000 % 64)
  }

  /** When the wheel will next come to look at a timer put into its slot at `j`. */
  function VisitOf(expires: nat, j: nat): nat {
    match SlotFor(expires, j)
    case Vec(k, _) =>
      var e := if U64(expires - j) > MAX_IDX then j + MAX_IDX else expires;
      e / Span(k) * Span(k)
    case _ => DueOf(expires, j)
  }

  /** Jiffy `v` is the moment in the current turn of its level at which slot `h` is reached. */
  predicate At(h: Host, v: nat, j: nat) {
    match h
    case Root(i) => j <= v < j + 256 && v % 256 == i
    case Vec(k, i) => j <= v < j + 64 * Span(k) && v % Span(k) == 0 && v / Span(k) % 64 == i
    case Work => v + 1 == j
    case Off => false
  }

  /** The slot chosen for a timer is reached no later than it is due, within the current turn of the slot's level,
      and an upper-level slot never at once; in the root level it is reached exactly when due. */
  lemma SlotIsReachedInTime(expires: nat, j: nat)
    requires expires < TWO_64 && j < TWO_63
    ensures var h, v := SlotFor(expires, j), VisitOf(expires, j);
            && ValidHost(h) && h != Work && At(h, v, j) && v <= DueOf(expires, j)
            && (h.Root? ==> v == DueOf(expires, j))
            && (h.Vec? ==> v > j && DueOf(expires, j) == expires)
  {
    if SlotFor(expires, j).Vec? {
      UpperInTime(expires, j);
    } else {
      RootInTime(expires, j);
    }
  }

  /** The root level, for expiries that are near or have passed. */
  lemma RootInTime(expires: nat, j: nat)
    requires expires < TWO_64 && j < TWO_63 && !SlotFor(expires, j).Vec?
    ensures SlotFor(expires, j).Root? && ValidHost(SlotFor(expires, j)) && VisitOf(expires, j) == DueOf(expires, j)
    ensures At(SlotFor(expires, j), DueOf(expires, j), j)
  {
  }

  lemma UpperInTime(expires: nat, j: nat)
    requires expires < TWO_64 && j < TWO_63 && SlotFor(expires, j).Vec?
    ensures var h, v := SlotFor(expires, j), VisitOf(expires, j);
      ValidHost(h) && At(h, v, j) && j < v <= DueOf(expires, j) == expires
  {
    LevelRange(expires, j);
    FarDue(expires, j);
    hide SlotFor, Span, DueOf, U64;
    var h := SlotFor(expires, j);
    var e := if U64(expires - j) > MAX_IDX then j + MAX_IDX else expires;
    Floor(e, h.k);
  }

  lemma FarDue(expires: nat, j: nat)
    requires expires < TWO_64 && j < TWO_63 && SlotFor(expires, j).Vec?
    ensures DueOf(expires, j) == expires && U64(expires - j) == expires - j
    ensures SlotFor(expires, j).i < 64
  {
  }

  lemma LevelRange(expires: nat, j: nat)
    requires expires < TWO_64 && j < TWO_63 && SlotFor(expires, j).Vec?
    ensures var k := SlotFor(expires, j).k;
            var e := if U64(expires - j) > MAX_IDX then j + MAX_IDX else expires;
            k < 4 && j + Span(k) <= e < j + 64 * Span(k) && SlotFor(expires, j).i == e / Span(k) % 64
  {
  }

  lemma Floor(e: nat, k: nat)
    ensures var v := e / Span(k) * Span(k); v % Span(k) == 0 && v / Span(k) == e / Span(k) && v <= e < v + Span(k)
  {
    Rounded(e, k);
    Multiples(e / Span(k), k);
  }

  lemma Rounded(e: nat, k: nat)
    ensures e / Span(k) * Span(k) <= e < e / Span(k) * Span(k) + Span(k)
  {
    if k == 0 {} else if k == 1 {} else if k == 2 {} else {}
  }

  /** A multiple of a level's span, with the span as a number. */
  lemma Multiples(q: nat, k: nat)
    ensures q * Span(k) % Span(k) == 0 && q * Span(k) / Span(k) == q
  {
    if k == 0 {
      Multiples0(q);
    } else if k == 1 {
      Multiples1(q);
    } else if k == 2 {
      Multiples2(q);
    } else {
      Multiples3(q);
    }
  }

  lemma Multiples0(q: nat)
    ensures q * 0x100 % 0x100 == 0 && q * 0x100 / 0x100 == q
  {
  }

  lemma Multiples1(q: nat)
    ensures q * 0x4000 % 0x4000 == 0 && q * 0x4000 / 0x4000 == q
  {
  }

  lemma Multiples2(q: nat)
    ensures q * 0x10_0000 % 0x10_0000 == 0 && q * 0x10_0000 / 0x10_0000 == q
  {
  }

  lemma Multiples3(q: nat)
    ensures q * 0x400_0000 % 0x400_0000 == 0 && q * 0x400_0000 / 0x400_0000 == q
  {
  }

  lemma Multiples64(q: nat)
    ensures q * 64 % 64 == 0
  {
  }

  /** A slot is reached once per turn. */
  lemma ReachedOnce(h: Host, v: nat, w: nat, j: nat)
    requires At(h, v, j) && At(h, w, j) && ValidHost(h)
    ensures v == w
  {
    if h.Vec? {
      var a, b := v / Span(h.k), w / Span(h.k);
      Multiple(v, h.k);
      Multiple(w, h.k);
      SameTurn(a, b, h.k);
    }
  }

  lemma Multiple(v: nat, k: nat)
    requires v % Span(k) == 0
    ensures v == v / Span(k) * Span(k)
  {
  }

  lemma SameTurn(a: nat, b: nat, k: nat)
    requires a % 64 == b % 64
    requires -64 * Span(k) < a * Span(k) - b * Span(k) < 64 * Span(k)
    ensures a == b
  {
    if k == 0 {} else if k == 1 {} else if k == 2 {} else {}
  }

  /** The slots reached at `j` itself: an upper level's turn comes only when all levels below it come to slot 0. */
  lemma ReachedNow(h: Host, j: nat)
    requires ValidHost(h) && At(h, j, j)
    ensures h == Root(j % 256) || h.Vec?
    ensures h.Vec? ==> j % Span(h.k) == 0 && h.i == j / Span(h.k) % 64
    ensures h.Vec? ==> forall k :: 0 <= k < h.k ==> j % Span(k) == 0 && j / Span(k) % 64 == 0
  {
    if h.Vec? {
      var a := j / Span(h.k);
      Multiple(j, h.k);
      forall k | 0 <= k < h.k ensures j % Span(k) == 0 && j / Span(k) % 64 == 0 {
        LowerLevel(a, k, h.k);
      }
    }
  }

  lemma LowerLevel(a: nat, k: nat, up: nat)
    requires k < up < 4
    ensures a * Span(up) % Span(k) == 0 && a * Span(up) / Span(k) % 64 == 0
  {
    var f := if up == k + 1 then 1 else if up == k + 2 then 64 else 0x1000;
    SpanFactor(a, f, k, up);
    Multiples(a * f * 64, k);
    Multiples64(a * f);
  }

  lemma SpanFactor(a: nat, f: nat, k: nat, up: nat)
    requires k < up < 4 && f == if up == k + 1 then 1 else if up == k + 2 then 64 else 0x1000
    ensures a * Span(up) == a * f * 64 * Span(k)
  {
    if up == k + 1 {} else if up == k + 2 {} else {}
  }

  /** A slot that is not reached at `j` keeps its moment when time goes on. */
  lemma TimeGoesOn(h: Host, v: nat, j: nat)
    requires ValidHost(h) && h != Work && At(h, v, j) && v != j
    ensures At(h, v, j + 1)
  {
  }

  /** A timer never goes into an upper-level slot that is reached at once. */
  lemma NotReachedNow(expires: nat, j: nat)
    requires expires < TWO_64 && j < TWO_63
    ensures SlotFor(expires, j).Vec? ==> !At(SlotFor(expires, j), j, j)
    ensures SlotFor(expires, j) != Work
  {
    SlotIsReachedInTime(expires, j);
    var h := SlotFor(expires, j);
    if h.Vec? && At(h, j, j) {
      ReachedOnce(h, VisitOf(expires, j), j, j);
    }
  }

  /** When a level comes to its slot 0, the next level is reached too; otherwise no level above it is. */
  lemma NextLevel(j: nat, k: nat)
    requires k < 3 && At(Vec(k, j / Span(k) % 64), j, j)
    ensures j / Span(k) % 64 == 0 ==> At(Vec(k + 1, j / Span(k + 1) % 64), j, j)
    ensures j / Span(k) % 64 != 0 ==> forall h :: ValidHost(h) && h.Vec? && At(h, j, j) ==> h.k <= k
  {
    if j / Span(k) % 64 == 0 {
      Multiple(j, k);
      UpperLevel(j / Span(k), k);
    } else {
      forall h | ValidHost(h) && h.Vec? && At(h, j, j) ensures h.k <= k {
        ReachedNow(h, j);
      }
    }
  }

  lemma UpperLevel(a: nat, k: nat)
    requires k < 3 && a % 64 == 0
    ensures a * Span(k) % Span(k + 1) == 0
  {
    assert a == a / 64 * 64;
    SpanFactor(a / 64, 1, k, k + 1);
    Multiples(a / 64, k + 1);
  }

  lemma LevelZero(j: nat)
    ensures j % 256 == 0 ==> At(Vec(0, j / Span(0) % 64), j, j)
    ensures j % 256 != 0 ==> forall h :: ValidHost(h) && h.Vec? ==> !At(h, j, j)
  {
    forall h | ValidHost(h) && h.Vec? && At(h, j, j) ensures j % 256 == 0 {
      OnAMultiple(h, j);
    }
  }

  lemma OnAMultiple(h: Host, j: nat)
    requires ValidHost(h) && h.Vec? && At(h, j, j)
    ensures j % 256 == 0
  {
    ReachedNow(h, j);
    hide At;
    assert j % Span(if h.k == 0 then h.k else 0) == 0;
  }

  /** A level has one slot that is reached at `j`. */
  lemma OneSlotPerLevel(h: Host, j: nat)
    requires ValidHost(h) && h.Vec? && At(h, j, j)
    ensures h == Vec(h.k, j / Span(h.k) % 64)
  {
  }
}
