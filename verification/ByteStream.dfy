/** The byte buffer of Project/Public/CircularBuffer.h between two threads: one writes, one reads, and each call is
    split into its loads of the counters, the copying of single bytes, and the step of its own counter. */
module ByteStream {
  import opened CircularBuffer

  // ---------------------------------------------------------------------------------------------------------
  // Steps

  /** Between two calls; in `GetCanWriteBuff` with some room seen; after it; while `bytes` are put into the ring,
      those in `done` already. */
  datatype Writer = Idle | SomeRoom | Room(len: int) | Copying(bytes: seq<char>, done: set<nat>)

  /** Between two calls; in `GetCanReadBuff` with some bytes seen; in it with bytes seen in one piece, before their
      number is known; in `TryReadBuff` with enough bytes seen; while `len` bytes are fetched, over the end of the
      ring if `inTwo`. */
  datatype Reader =
    | Away
    | SomeBytes(wcount: int)
    | OnePiece(wcount: int)
    | Enough(len: int)
    | Fetching(len: int, inTwo: bool, got: seq<char>)

  /** `written` and `read`: the bytes of completed calls. `again`: the writer's counter is loaded anew each time that
      `GetCanReadBuff` mentions it, as it may be; otherwise once a call. */
  datatype Stream = Stream(
    again: bool, ring: seq<char>, wcount: int, rcount: int, writer: Writer, reader: Reader,
    written: seq<char>, read: seq<char>)

  datatype Action =
    | Write(buffer: seq<char>)        // the check of `Write`
    | GetCanWriteBuff                 // its first load of the reader's counter
    | GetRoom                         // its second
    | Fill(bytes: seq<char>)          // the caller decides what goes into the room it was given
    | Store(i: nat)
    | WriteBump
    | Read(len: nat)                  // the check of `Read` with a copy
    | GetCanReadBuff                  // its first load of the writer's counter
    | GetPlace                        // its second
    | GetLength                       // its third
    | TryReadBuff(len: nat)           // its first load of the writer's counter
    | TryPlace                        // its second
    | Fetch
    | ReadBump(n: nat)

  function Used(s: Stream): int {
    Wrap(s.wcount - s.rcount)
  }

  predicate Enabled(s: Stream, a: Action) {
    s.ring != [] &&
    match a
    case Write(_) => s.writer.Idle?
    case GetCanWriteBuff => s.writer.Idle?
    case GetRoom => s.writer.SomeRoom?
    case Fill(bytes) => s.writer.Room? && |bytes| <= s.writer.len
    case Store(i) => s.writer.Copying? && i < |s.writer.bytes| <= |s.ring|
    case WriteBump => s.writer.Copying? && forall i :: 0 <= i < |s.writer.bytes| ==> i in s.writer.done
    case Read(_) => s.reader.Away?
    case GetCanReadBuff => s.reader.Away?
    case GetPlace => s.reader.SomeBytes?
    case GetLength => s.reader.OnePiece?
    case TryReadBuff(_) => s.reader.Away?
    case TryPlace => s.reader.Enough?
    case Fetch => s.reader.Fetching? && |s.reader.got| < s.reader.len && 0 <= NextPlace(s) < |s.ring|
    case ReadBump(n) => s.reader.Fetching? && n <= |s.reader.got|
  }

  /** The writer's counter, loaded anew or as it was loaded before. */
  function Load(s: Stream): int
    requires s.reader.SomeBytes? || s.reader.OnePiece?
  {
    if s.again then s.wcount else s.reader.wcount
  }

  /** The place of the next byte to fetch. */
  function NextPlace(s: Stream): int
    requires s.reader.Fetching? && s.ring != []
  {
    var r, k := s.rcount % |s.ring|, |s.reader.got|;
    if s.reader.inTwo then At(r, k, |s.ring|) else r + k
  }

  /** The room at the write position in one piece. */
  function RoomAt(w: int, r: int, size: int): int
    requires size > 0
  {
    if w % size >= r % size then size - w % size else r % size - w % size
  }

  function Do(s: Stream, a: Action): Stream
    requires Enabled(s, a)
  {
    var size := |s.ring|;
    match a
    case Write(buffer) =>
      var n := Min(|buffer|, size - Used(s));
      if 0 <= n then s.(writer := Copying(buffer[..n], {})) else s
    case GetCanWriteBuff => if size - Used(s) == 0 then s else s.(writer := SomeRoom)
    case GetRoom => s.(writer := Room(RoomAt(s.wcount, s.rcount, size)))
    case Fill(bytes) => s.(writer := Copying(bytes, {}))
    case Store(i) =>
      s.(ring := s.ring[StorePlace(s, i) := s.writer.bytes[i]], writer := s.writer.(done := s.writer.done + {i}))
    case WriteBump =>
      s.(wcount := Wrap(s.wcount + |s.writer.bytes|), written := s.written + s.writer.bytes, writer := Idle)
    case Read(len) => s.(reader := Fetching(Min(len, Used(s)), true, []))
    case GetCanReadBuff => if s.rcount == s.wcount then s else s.(reader := SomeBytes(s.wcount))
    case GetPlace =>
      if Load(s) % size > s.rcount % size then s.(reader := OnePiece(Load(s)))
      else s.(reader := Fetching(size - s.rcount % size, false, []))
    case GetLength => s.(reader := Fetching(Wrap(Load(s) - s.rcount), false, []))
    case TryReadBuff(len) => if Used(s) < len then s else s.(reader := Enough(len))
    case TryPlace => s.(reader := Fetching(s.reader.len, s.wcount % size <= s.rcount % size, []))
    case Fetch => s.(reader := s.reader.(got := s.reader.got + [s.ring[NextPlace(s)]]))
    case ReadBump(n) => s.(rcount := Wrap(s.rcount + n), read := s.read + s.reader.got[..n], reader := Away)
  }

  /** The place of a byte that is written: behind what has been written, and from the start of the ring again. */
  function StorePlace(s: Stream, i: nat): (p: int)
    requires s.ring != [] && i <= |s.ring|
    ensures 0 <= p < |s.ring|
  {
    At(s.wcount % |s.ring|, i, |s.ring|)
  }

  function Initial(again: bool, ring: seq<char>): Stream {
    Stream(again, ring, 0, 0, Idle, Away, [], [])
  }

  ghost predicate Runs(s: Stream, actions: seq<Action>)
    decreases |actions|
  {
    actions == [] || (Enabled(s, actions[0]) && Runs(Do(s, actions[0]), actions[1..]))
  }

  ghost function After(s: Stream, actions: seq<Action>): Stream
    requires Runs(s, actions)
    decreases |actions|
  {
    if actions == [] then s else After(Do(s, actions[0]), actions[1..])
  }

  // ---------------------------------------------------------------------------------------------------------
  // The invariant

  /** The bytes written and not read yet. */
  ghost function Queue(s: Stream): seq<char>
    requires |s.read| <= |s.written|
  {
    s.written[|s.read|..]
  }

  ghost predicate Counters(s: Stream) {
    && PowerOfTwo(|s.ring|)
    && -TWO_31 <= s.wcount < TWO_31 && -TWO_31 <= s.rcount < TWO_31
    && |s.read| <= |s.written| && s.read == s.written[..|s.read|]
    && Used(s) == |Queue(s)| <= |s.ring|
  }

  /** What is being written finds room; what is stored already lies behind the queue. */
  ghost predicate WriterOk(s: Stream)
    requires Counters(s)
  {
    match s.writer
    case Idle => true
    case SomeRoom => |Queue(s)| < |s.ring|
    case Room(len) => 0 < len <= |s.ring| - |Queue(s)|
    case Copying(bytes, done) =>
      && |bytes| <= |s.ring| - |Queue(s)|
      && forall i {:trigger bytes[i]} :: 0 <= i < |bytes| && i in done ==> s.ring[StorePlace(s, i)] == bytes[i]
  }

  /** What is being read is in the queue, and what has been fetched are its first bytes. */
  ghost predicate ReaderOk(s: Stream)
    requires Counters(s)
  {
    match s.reader
    case Away => true
    case SomeBytes(w) => 0 < Wrap(w - s.rcount) <= |Queue(s)|
    case OnePiece(w) => 0 < Wrap(w - s.rcount) <= |Queue(s)| && w % |s.ring| > s.rcount % |s.ring|
    case Enough(len) => 0 <= len <= |Queue(s)|
    case Fetching(len, inTwo, got) => |got| <= len <= |Queue(s)| && got == Queue(s)[..|got|]
  }

  ghost predicate Inv(s: Stream) {
    && Counters(s) && Holds(s.ring, s.rcount % |s.ring|, Queue(s)) && WriterOk(s) && ReaderOk(s)
  }

  /** The bytes that are being fetched run over the end of the ring. */
  predicate Overruns(s: Stream) {
    s.ring != [] && s.reader.Fetching? && !s.reader.inTwo && s.rcount % |s.ring| + s.reader.len > |s.ring|
  }

  // ---------------------------------------------------------------------------------------------------------
  // Places

  lemma Positions(s: Stream)
    requires Counters(s)
    ensures 0 <= s.rcount % |s.ring| < |s.ring|
    ensures s.wcount % |s.ring| == At(s.rcount % |s.ring|, |Queue(s)|, |s.ring|)
  {
    Offsets(s.wcount, s.rcount, |s.ring|);
  }

  /** Bytes are stored behind the queue, each in its own place. */
  lemma StoredBehind(s: Stream, i: nat)
    requires Counters(s) && i < |s.ring| - |Queue(s)|
    ensures 0 <= s.rcount % |s.ring| < |s.ring|
    ensures StorePlace(s, i) == At(s.rcount % |s.ring|, |Queue(s)| + i, |s.ring|)
    ensures forall j :: 0 <= j < |Queue(s)| ==> At(s.rcount % |s.ring|, j, |s.ring|) != StorePlace(s, i)
    ensures forall j: nat :: j < |s.ring| - |Queue(s)| && j != i ==> StorePlace(s, j) != StorePlace(s, i)
  {
    Positions(s);
  }

  // ---------------------------------------------------------------------------------------------------------
  // Every step keeps the invariant

  /** A store behind the queue leaves the queue alone. */
  lemma StoreHolds(s: Stream, i: nat, c: char)
    requires Counters(s) && Holds(s.ring, s.rcount % |s.ring|, Queue(s)) && i < |s.ring| - |Queue(s)|
    ensures Holds(s.ring[StorePlace(s, i) := c], s.rcount % |s.ring|, Queue(s))
  {
    hide Wrap, PowerOfTwo, StorePlace;
    StoredBehind(s, i);
  }

  lemma StoreKeeps(s: Stream, i: nat)
    requires Inv(s) && Enabled(s, Store(i))
    ensures Inv(Do(s, Store(i)))
  {
    hide Wrap, PowerOfTwo, At, Holds, Counters;
    Basics(s);
    StoreHolds(s, i, s.writer.bytes[i]);
    var s' := Do(s, Store(i));
    SameCounters(s, s');
    forall k | 0 <= k < |s.writer.bytes| && k in s'.writer.done
      ensures s'.ring[StorePlace(s', k)] == s.writer.bytes[k]
    {
      StoredBehind(s, k);
      assert k != i ==> s.ring[StorePlace(s, k)] == s.writer.bytes[k];
    }
  }

  lemma Basics(s: Stream)
    requires Counters(s)
    ensures |s.ring| > 0 && |s.read| <= |s.written| && Used(s) == |Queue(s)| <= |s.ring|
    ensures 0 <= s.rcount % |s.ring| < |s.ring|
  {
  }

  lemma SameCounters(s: Stream, s': Stream)
    requires Counters(s) && |s'.ring| == |s.ring| && s'.wcount == s.wcount && s'.rcount == s.rcount
    requires s'.written == s.written && s'.read == s.read
    ensures Counters(s')
  {
  }

  /** The reader's side is untouched by longer queues. */
  lemma ReaderGoesOn(s: Stream, s': Stream)
    requires Counters(s) && Counters(s') && Queue(s) <= Queue(s') && ReaderOk(s)
    requires s'.reader == s.reader && s'.rcount == s.rcount && |s'.ring| == |s.ring|
    ensures ReaderOk(s')
  {
    hide Wrap, PowerOfTwo;
    if s.reader.Fetching? {
      assert Queue(s')[..|s.reader.got|] == Queue(s)[..|s.reader.got|];
    }
  }

  lemma Longer(written: seq<char>, k: nat, bytes: seq<char>)
    requires k <= |written|
    ensures (written + bytes)[..k] == written[..k] && (written + bytes)[k..] == written[k..] + bytes
  {
  }

  lemma WriteBumpCounts(s: Stream)
    requires Counters(s) && WriterOk(s) && Enabled(s, WriteBump)
    ensures Counters(Do(s, WriteBump)) && Queue(Do(s, WriteBump)) == Queue(s) + s.writer.bytes
  {
    hide Wrap, PowerOfTwo, At, StorePlace;
    Basics(s);
    Bump(s.wcount, s.rcount, |s.writer.bytes|, |s.ring|);
    WrapInRange(s.wcount + |s.writer.bytes|);
    Longer(s.written, |s.read|, s.writer.bytes);
  }

  lemma WriteBumpKeeps(s: Stream)
    requires Inv(s) && Enabled(s, WriteBump)
    ensures Inv(Do(s, WriteBump))
  {
    hide Wrap, PowerOfTwo, StorePlace, Holds, Counters, ReaderOk;
    var s', bytes, size := Do(s, WriteBump), s.writer.bytes, |s.ring|;
    Basics(s);
    WriteBumpCounts(s);
    ReaderGoesOn(s, s');
    forall i | 0 <= i < |bytes| ensures s.ring[At(s.rcount % size, |Queue(s)| + i, size)] == bytes[i] {
      StoredBehind(s, i);
    }
    Put(s.ring, s.rcount % size, Queue(s), bytes, s.ring);
  }

  lemma WrapInRange(x: int)
    ensures -TWO_31 <= Wrap(x) < TWO_31
  {
  }

  lemma FetchKeeps(s: Stream)
    requires Inv(s) && Enabled(s, Fetch)
    ensures Inv(Do(s, Fetch))
  {
    hide Wrap, PowerOfTwo;
    Positions(s);
    var k := |s.reader.got|;
    assert s.ring[At(s.rcount % |s.ring|, k, |s.ring|)] == Queue(s)[k];
    assert Queue(s)[..k + 1] == Queue(s)[..k] + [Queue(s)[k]];
  }

  lemma Advance(written: seq<char>, read: seq<char>, got: seq<char>, n: nat)
    requires |read| <= |written| && read == written[..|read|]
    requires |got| <= |written| - |read| && got == written[|read|..][..|got|] && n <= |got|
    ensures |read + got[..n]| == |read| + n <= |written|
    ensures read + got[..n] == written[..|read| + n] && written[|read| + n..] == written[|read|..][n..]
  {
    assert got[..n] == written[|read|..][..n];
  }

  lemma FetchedIsQueued(s: Stream)
    requires Counters(s) && ReaderOk(s) && s.reader.Fetching?
    ensures |s.reader.got| <= |Queue(s)| && s.reader.got == Queue(s)[..|s.reader.got|]
  {
  }

  lemma ReadBumpNumbers(s: Stream, n: nat)
    requires Counters(s) && n <= |Queue(s)|
    ensures -TWO_31 <= Wrap(s.rcount + n) < TWO_31 && Wrap(s.wcount - Wrap(s.rcount + n)) == |Queue(s)| - n
  {
    hide Wrap, PowerOfTwo, At;
    Basics(s);
    Bump(s.wcount, s.rcount, n, |s.ring|);
    WrapInRange(s.rcount + n);
  }

  lemma ReadBumpCounts(s: Stream, n: nat)
    requires Counters(s) && ReaderOk(s) && Enabled(s, ReadBump(n))
    ensures var s' := Do(s, ReadBump(n));
      Counters(s') && n <= |Queue(s)| && Queue(s') == Queue(s)[n..]
  {
    hide Wrap, PowerOfTwo, At;
    FetchedIsQueued(s);
    hide ReaderOk;
    ReadBumpNumbers(s, n);
    Advance(s.written, s.read, s.reader.got, n);
  }

  lemma ReadBumpKeeps(s: Stream, n: nat)
    requires Inv(s) && Enabled(s, ReadBump(n))
    ensures Inv(Do(s, ReadBump(n)))
  {
    hide Wrap, PowerOfTwo, At, Holds;
    ReadBumpCounts(s, n);
    Positions(s);
    Bump(s.wcount, s.rcount, n, |s.ring|);
    Taken(s.ring, s.rcount % |s.ring|, Queue(s), n);
    hide Counters;
  }

  /** What the loads of `GetCanWriteBuff` and `GetCanReadBuff` find, with whatever the other thread does in between. */
  lemma GetRoomKeeps(s: Stream)
    requires Inv(s) && Enabled(s, GetRoom)
    ensures Inv(Do(s, GetRoom))
  {
    hide Wrap, PowerOfTwo, Holds;
    Positions(s);
  }

  lemma GetPlaceKeeps(s: Stream)
    requires Inv(s) && Enabled(s, GetPlace)
    ensures Inv(Do(s, GetPlace))
  {
    hide Wrap, PowerOfTwo, Holds;
    Positions(s);
    Offsets(Load(s), s.rcount, |s.ring|);
  }

  /** The other first and last loads of a call. */
  lemma LoadKeeps(s: Stream, a: Action)
    requires Inv(s) && Enabled(s, a)
    requires a.Read? || a.TryReadBuff? || a.TryPlace? || a.GetCanReadBuff? || a.GetLength?
    ensures Inv(Do(s, a))
  {
    hide Wrap, PowerOfTwo, Holds, At, StorePlace, WriterOk, Counters;
    Basics(s);
    SameCounters(s, Do(s, a));
    SameWriter(s, Do(s, a));
    EmptyIff(s.wcount, s.rcount) by { InRange(s); }
    assert Queue(s)[..0] == [];
  }

  lemma SameReader(s: Stream, s': Stream)
    requires Counters(s) && Counters(s') && ReaderOk(s)
    requires s' == s.(writer := s'.writer)
    ensures ReaderOk(s')
  {
  }

  lemma InRange(s: Stream)
    requires Counters(s)
    ensures -TWO_31 <= s.wcount < TWO_31 && -TWO_31 <= s.rcount < TWO_31
  {
  }

  lemma SameWriter(s: Stream, s': Stream)
    requires Counters(s) && Counters(s') && WriterOk(s)
    requires s' == s.(reader := s'.reader)
    ensures WriterOk(s')
  {
  }

  lemma StepKeeps(s: Stream, a: Action)
    requires Inv(s) && Enabled(s, a)
    ensures Inv(Do(s, a))
  {
    hide Wrap, PowerOfTwo, Holds, At, StorePlace, ReaderOk, Counters;
    Basics(s);
    SameCounters(s, s.(writer := Do(s, a).writer));
    match a
    case Store(i) => StoreKeeps(s, i);
    case WriteBump => WriteBumpKeeps(s);
    case Fetch => FetchKeeps(s);
    case ReadBump(n) => ReadBumpKeeps(s, n);
    case GetRoom => GetRoomKeeps(s);
    case GetPlace => GetPlaceKeeps(s);
    case Write(_) => SameReader(s, Do(s, a));
    case GetCanWriteBuff => SameReader(s, Do(s, a));
    case Fill(_) => SameReader(s, Do(s, a));
    case _ => LoadKeeps(s, a);
  }

  // ---------------------------------------------------------------------------------------------------------
  // Inside the ring

  /** A fetch over the end of the ring begins in one step only: when the number of bytes is loaded after the writer has
      gone round the end. */
  lemma OverrunIff(s: Stream, a: Action)
    requires Inv(s) && Enabled(s, a) && !Overruns(s)
    ensures Overruns(Do(s, a)) <==>
      a.GetLength? && s.again && 0 < s.wcount % |s.ring| <= s.rcount % |s.ring|
  {
    hide Wrap, PowerOfTwo, Holds, WriterOk;
    Positions(s);
    if a.GetLength? {
      Offsets(Load(s), s.rcount, |s.ring|);
    }
  }

  lemma {:induction false} RunKeeps(s: Stream, actions: seq<Action>)
    requires Inv(s) && Runs(s, actions)
    ensures Inv(After(s, actions)) && |After(s, actions).ring| == |s.ring|
    ensures !s.again && !Overruns(s) ==> !Overruns(After(s, actions))
    decreases |actions|
  {
    hide Inv, Enabled, Do, Overruns;
    if actions != [] {
      StepKeeps(s, actions[0]);
      Unchanged(s, actions[0]);
      if !Overruns(s) { OverrunIff(s, actions[0]); }
      RunKeeps(Do(s, actions[0]), actions[1..]);
    }
  }

  lemma Unchanged(s: Stream, a: Action)
    requires Enabled(s, a)
    ensures |Do(s, a).ring| == |s.ring| && Do(s, a).again == s.again
  {
    hide Wrap, At, StorePlace;
  }

  lemma InitialKeeps(again: bool, ring: seq<char>)
    requires PowerOfTwo(|ring|)
    ensures Inv(Initial(again, ring)) && !Overruns(Initial(again, ring))
  {
  }

  /** Over every run, however the two threads take turns and however far the counters have wrapped: the bytes read are
      the first of the bytes written, no more than the ring holds lie between, and what is being fetched are the next
      bytes. */
  lemma StreamInOrder(again: bool, ring: seq<char>, actions: seq<Action>)
    requires PowerOfTwo(|ring|) && Runs(Initial(again, ring), actions)
    ensures var s := After(Initial(again, ring), actions);
      && s.read <= s.written && |s.written| <= |s.read| + |ring|
      && (s.reader.Fetching? ==> s.read + s.reader.got <= s.written)
  {
    InitialKeeps(again, ring);
    RunKeeps(Initial(again, ring), actions);
    var s := After(Initial(again, ring), actions);
    assert Used(s) == |Queue(s)|;
    hide Wrap, PowerOfTwo, Holds, WriterOk;
    if s.reader.Fetching? {
      assert s.written == s.read + Queue(s);
      assert s.reader.got <= Queue(s);
    }
  }

  /** If `GetCanReadBuff` loads the writer's counter once, no fetch ever runs over the end of the ring. */
  lemma StaysInside(ring: seq<char>, actions: seq<Action>)
    requires PowerOfTwo(|ring|) && Runs(Initial(false, ring), actions)
    ensures !Overruns(After(Initial(false, ring), actions))
  {
    InitialKeeps(false, ring);
    RunKeeps(Initial(false, ring), actions);
  }

  // ---------------------------------------------------------------------------------------------------------
  // A fetch over the end

  lemma {:induction false} RunOn(s: Stream, actions: seq<Action>, a: Action)
    requires Runs(s, actions) && Enabled(After(s, actions), a)
    ensures Runs(s, actions + [a]) && After(s, actions + [a]) == Do(After(s, actions), a)
    decreases |actions|
  {
    hide Enabled, Do;
    if actions == [] {
      assert (actions + [a])[1..] == [];
    } else {
      RunOn(Do(s, actions[0]), actions[1..], a);
      assert (actions + [a])[1..] == actions[1..] + [a];
    }
  }

  lemma NoSteps(s: Stream)
    ensures Runs(s, []) && After(s, []) == s
  {
  }

  /** The counters and the state of the reader; no write is going on. */
  ghost predicate Between(s: Stream, size: nat, wcount: nat, rcount: nat, reader: Reader) {
    |s.ring| == size && s.again && s.wcount == wcount && s.rcount == rcount && s.writer.Idle? && s.reader == reader
  }

  /** All of a write of one byte. */
  lemma WriteOne(s: Stream, was: seq<Action>, size: nat, w: nat, r: nat, reader: Reader) returns (actions: seq<Action>)
    requires Runs(s, was) && Between(After(s, was), size, w, r, reader)
    requires r <= w < r + size && w + 1 < TWO_31
    ensures Runs(s, actions) && Between(After(s, actions), size, w + 1, r, reader)
  {
    hide Runs, After;
    Exact(w - r);
    RunOn(s, was, Write("x"));
    actions := was + [Write("x")];
    assert After(s, actions).writer == Copying("x", {});
    RunOn(s, actions, Store(0));
    actions := actions + [Store(0)];
    Exact(w + 1);
    RunOn(s, actions, WriteBump);
    actions := actions + [WriteBump];
  }

  lemma Exact(x: nat)
    requires x < TWO_31
    ensures Wrap(x) == x
  {
  }

  /** Writes one after another while the reader stands still. */
  lemma WriteMany(s: Stream, was: seq<Action>, size: nat, w: nat, r: nat, n: nat, reader: Reader)
    returns (actions: seq<Action>)
    requires Runs(s, was) && Between(After(s, was), size, w, r, reader)
    requires r <= w && w + n <= r + size && w + n < TWO_31
    ensures Runs(s, actions) && Between(After(s, actions), size, w + n, r, reader)
    decreases n
  {
    hide Runs, After, Between;
    if n == 0 {
      actions := was;
    } else {
      actions := WriteOne(s, was, size, w, r, reader);
      actions := WriteMany(s, actions, size, w + 1, r, n - 1, reader);
    }
  }

  /** All of a read of one byte. */
  lemma ReadOne(s: Stream, was: seq<Action>, size: nat, w: nat, r: nat) returns (actions: seq<Action>)
    requires Runs(s, was) && Between(After(s, was), size, w, r, Away) && r < w <= r + size && w < TWO_31
    ensures Runs(s, actions) && Between(After(s, actions), size, w, r + 1, Away)
  {
    hide Runs, After;
    Exact(w - r);
    RunOn(s, was, Read(1));
    actions := was + [Read(1)];
    assert After(s, actions).reader == Fetching(1, true, []);
    RunOn(s, actions, Fetch);
    actions := actions + [Fetch];
    Exact(r + 1);
    RunOn(s, actions, ReadBump(1));
    actions := actions + [ReadBump(1)];
  }

  lemma SmallMods(size: nat)
    requires size >= 4
    ensures 1 % size == 1 && 2 % size == 2 && (size + 1) % size == 1
  {
  }

  /** One byte is seen in one piece, and its end is not the end of the ring. */
  lemma OneByteSeen(ring: seq<char>) returns (actions: seq<Action>)
    requires 4 <= |ring| < TWO_31 - 1
    ensures Runs(Initial(true, ring), actions)
    ensures Between(After(Initial(true, ring), actions), |ring|, 2, 1, OnePiece(2))
  {
    hide Runs, After, Wrap;
    var s, size := Initial(true, ring), |ring|;
    NoSteps(s);
    SmallMods(size);
    actions := WriteMany(s, [], size, 0, 0, 2, Away);
    actions := ReadOne(s, actions, size, 2, 0);
    RunOn(s, actions, GetCanReadBuff);
    actions := actions + [GetCanReadBuff];
    RunOn(s, actions, GetPlace);
    actions := actions + [GetPlace];
  }

  /** In a ring of four bytes or more there is a run to a fetch over the end: one byte is seen in one piece, and the
      rest of the ring is written, round the end, before the length is computed. */
  lemma MayOverrun(ring: seq<char>) returns (actions: seq<Action>)
    requires 4 <= |ring| < TWO_31 - 1
    ensures Runs(Initial(true, ring), actions) && Overruns(After(Initial(true, ring), actions))
  {
    hide Runs, After, Wrap;
    var s, size := Initial(true, ring), |ring|;
    SmallMods(size);
    actions := OneByteSeen(ring);
    actions := WriteMany(s, actions, size, 2, 1, size - 1, OnePiece(2));
    Exact(size);
    RunOn(s, actions, GetLength);
    actions := actions + [GetLength];
  }

  /** In a smaller ring a piece that ends before the writer begins at the start of the ring, so the writer cannot come
      behind it. */
  lemma {:induction false} SmallRingStaysInside(s: Stream, actions: seq<Action>)
    requires Inv(s) && Runs(s, actions) && |s.ring| < 4 && !Overruns(s)
    ensures !Overruns(After(s, actions))
    decreases |actions|
  {
    hide Inv, Enabled, Do, Overruns;
    if actions != [] {
      StepKeeps(s, actions[0]);
      Unchanged(s, actions[0]);
      OverrunIff(s, actions[0]);
      if actions[0].GetLength? { PieceFromTheStart(s); }
      SmallRingStaysInside(Do(s, actions[0]), actions[1..]);
    }
  }

  lemma PieceFromTheStart(s: Stream)
    requires Inv(s) && Enabled(s, GetLength) && |s.ring| < 4
    ensures s.rcount % |s.ring| == 0
  {
    hide Wrap;
    assert |s.ring| == 1 || |s.ring| == 2;
  }

  /** If the counter is loaded again, a fetch over the end is reachable if and only if the ring has four bytes or
      more. */
  lemma OverrunReachableIff(ring: seq<char>)
    requires PowerOfTwo(|ring|)
    ensures (exists actions :: Runs(Initial(true, ring), actions) && Overruns(After(Initial(true, ring), actions))) <==>
      |ring| >= 4
  {
    hide Runs, After, Overruns;
    var s := Initial(true, ring);
    if |ring| >= 4 {
      var _ := MayOverrun(ring);
    } else {
      InitialKeeps(true, ring);
      forall actions | Runs(s, actions) ensures !Overruns(After(s, actions)) {
        SmallRingStaysInside(s, actions);
      }
    }
  }
}
