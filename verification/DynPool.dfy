/** The object pool of Project/Public/TDynPool.h: chunks in blocks, one free list through all blocks, blocks given
    back when they are empty. */
module DynPool {
  import opened Seqs
  import opened Chains
  import opened PoolLinks

  const CHUNK_SIZE: nat := 128

  /** A chunk, by its block's address and its index there. */
  datatype Chunk = Chunk(block: nat, index: nat)

  /** The pool and the memory of its blocks. */
  datatype Pool = Pool(chunks: Links<Chunk>, inUse: map<Chunk, bool>, blocks: Links<nat>, count: map<nat, int>)

  function ChunksOf(b: nat): set<Chunk> {
    set i: nat | i < CHUNK_SIZE :: Chunk(b, i)
  }

  /** How many of the first `n` chunks of a block are in use. */
  function Used(inUse: map<Chunk, bool>, b: nat, n: nat): nat {
    if n == 0 then 0
    else Used(inUse, b, n - 1) + if Chunk(b, n - 1) in inUse && inUse[Chunk(b, n - 1)] then 1 else 0
  }

  // ---------------------------------------------------------------------------------------------------------
  // The invariant

  /** Exactly the nodes of the blocks exist. */
  ghost predicate Memory(p: Pool) {
    && (forall c :: c in p.inUse <==> c.block in p.count && c.index < CHUNK_SIZE)
    && (forall c :: Allocated(p.chunks, c) <==> c in p.inUse)
    && (forall b :: Allocated(p.blocks, b) <==> b in p.count)
  }

  /** `free` and `live` are the two lists; `part` are blocks that are being set up or torn down. */
  ghost predicate Core(p: Pool, free: seq<Chunk>, live: seq<nat>, part: set<nat>) {
    && Memory(p)
    && Spells(p.chunks, free) && Spells(p.blocks, live)
    && (forall b :: b in p.count <==> b in live || b in part)
    && (forall c :: c in p.inUse && c.block !in part ==> (c in free <==> !p.inUse[c]))
    && (forall c :: c in p.inUse && c !in free ==> Loose(p.chunks, c))
    && (forall b :: b in p.count && b !in part ==> p.count[b] == Used(p.inUse, b, CHUNK_SIZE))
  }

  /** The free list is exactly the free chunks of the live blocks, and a block's count is its number of chunks
      in use. */
  ghost predicate Inv(p: Pool, free: seq<Chunk>, live: seq<nat>) {
    Core(p, free, live, {})
  }

  lemma {:induction false} UsedSame(a: map<Chunk, bool>, b: map<Chunk, bool>, block: nat, n: nat)
    requires forall i :: 0 <= i < n ==> (Chunk(block, i) in a && a[Chunk(block, i)] <==>
      Chunk(block, i) in b && b[Chunk(block, i)])
    ensures Used(a, block, n) == Used(b, block, n)
  {
    if n > 0 {
      UsedSame(a, b, block, n - 1);
    }
  }

  /** Changing one chunk changes the count of its block by one. */
  lemma {:induction false} UsedFlip(a: map<Chunk, bool>, c: Chunk, v: bool, n: nat)
    requires c.index < n && c in a && a[c] != v
    ensures Used(a[c := v], c.block, n) == Used(a, c.block, n) + if v then 1 else -1
  {
    if c.index == n - 1 {
      UsedSame(a, a[c := v], c.block, n - 1);
    } else {
      UsedFlip(a, c, v, n - 1);
    }
  }

  lemma {:induction false} UsedZero(a: map<Chunk, bool>, b: nat, n: nat)
    ensures Used(a, b, n) == 0 <==> forall i :: 0 <= i < n && Chunk(b, i) in a ==> !a[Chunk(b, i)]
  {
    if n > 0 {
      UsedZero(a, b, n - 1);
    }
  }

  // ---------------------------------------------------------------------------------------------------------
  // Taking and giving back chunks

  /** `GetChunk` on a free list that is not empty. */
  function Take(p: Pool): Pool
    requires p.chunks.root.To? && Allocated(p.chunks, p.chunks.root.node)
    requires Reaches(p.chunks, p.chunks.next[p.chunks.root.node])
    requires p.chunks.root.node.block in p.count
  {
    var c := p.chunks.root.node;
    var next := p.chunks.next[c];
    var prev := if next.To? then p.chunks.prev[next.node := Null] else p.chunks.prev;
    p.(chunks := Links(next, p.chunks.next[c := Null], prev),
       count := p.count[c.block := p.count[c.block] + 1],
       inUse := p.inUse[c := true])
  }

  /** For the head of the list this is the general removal: its own `_prev` is null already. */
  lemma TakeIsTakeOut(l: Links<Chunk>, free: seq<Chunk>)
    requires Spells(l, free) && free != []
    ensures l.root == To(free[0]) && Allocated(l, free[0]) && Reaches(l, l.next[free[0]]) && Reaches(l, l.prev[free[0]])
    ensures var next := l.next[free[0]];
      TakeOut(l, free[0]) == Links(next, l.next[free[0] := Null], if next.To? then l.prev[next.node := Null]
        else l.prev)
  {
    TakeOutReaches(l, free, 0);
    var next := l.next[free[0]];
    var prev := if next.To? then l.prev[next.node := Null] else l.prev;
    if next.To? { Distinct(free, 0, 1); }
    assert prev[free[0] := Null] == prev;
  }

  lemma TakeKeeps(p: Pool, free: seq<Chunk>, live: seq<nat>)
    requires Inv(p, free, live) && free != []
    ensures p.chunks.root == To(free[0]) && Allocated(p.chunks, free[0]) && Reaches(p.chunks, p.chunks.next[free[0]])
    ensures free[0] in p.inUse && !p.inUse[free[0]] && free[0].block in p.count
    ensures Inv(Take(p), free[1..], live)
  {
    hide Spells, Used, TakeOut;
    TakeIsTakeOut(p.chunks, free);
    TakeOutSpells(p.chunks, free, 0);
    assert free[..0] + free[1..] == free[1..];
    var c, p' := free[0], Take(p);
    HeadOnce(p.chunks, free);
    TakeCounts(p, c, free, live);
    TakeOutDomain(p.chunks, c);
    TakeLoose(p, p', free, c);
    assert Memory(p');
  }

  lemma TakeLoose(p: Pool, p': Pool, free: seq<Chunk>, c: Chunk)
    requires forall x :: x in p.inUse && x !in free ==> Loose(p.chunks, x)
    requires p'.inUse == p.inUse[c := true] && c in p.inUse && Loose(p'.chunks, c)
    requires free != [] && (forall x :: x in free <==> x == c || x in free[1..])
    requires forall x :: x !in free ==> SameNode(p.chunks, p'.chunks, x)
    ensures forall x :: x in p'.inUse && x !in free[1..] ==> Loose(p'.chunks, x)
  {
    forall x | x in p'.inUse && x !in free[1..] ensures Loose(p'.chunks, x) {
      if x != c { assert x !in free; }
    }
  }

  lemma TakeCounts(p: Pool, c: Chunk, free: seq<Chunk>, live: seq<nat>)
    requires Inv(p, free, live) && c in p.inUse && !p.inUse[c]
    ensures c.block in p.count
    ensures var inUse, count := p.inUse[c := true], p.count[c.block := p.count[c.block] + 1];
      forall b :: b in count ==> count[b] == Used(inUse, b, CHUNK_SIZE)
  {
    hide Spells, Used;
    var inUse, count := p.inUse[c := true], p.count[c.block := p.count[c.block] + 1];
    UsedFlip(p.inUse, c, true, CHUNK_SIZE);
    forall b | b in count ensures count[b] == Used(inUse, b, CHUNK_SIZE) {
      if b != c.block { UsedSame(p.inUse, inUse, b, CHUNK_SIZE); }
    }
  }

  lemma HeadOnce(l: Links<Chunk>, free: seq<Chunk>)
    requires Spells(l, free) && free != []
    ensures free[0] !in free[1..] && forall x :: x in free <==> x == free[0] || x in free[1..]
  {
  }

  /** A chunk in use is marked free; it is not linked yet. */
  function Release(p: Pool, c: Chunk): Pool
    requires c.block in p.count
  {
    p.(count := p.count[c.block := p.count[c.block] - 1], inUse := p.inUse[c := false])
  }

  function Link(p: Pool, c: Chunk): Pool
    requires Allocated(p.chunks, c) && Reaches(p.chunks, p.chunks.root)
  {
    p.(chunks := InsertHead(p.chunks, c))
  }

  lemma InUseIsLoose(p: Pool, free: seq<Chunk>, live: seq<nat>, c: Chunk)
    requires Inv(p, free, live) && c in p.inUse && p.inUse[c]
    ensures c !in free && Loose(p.chunks, c) && c.block in p.count && p.count[c.block] > 0
  {
    hide Spells;
    assert c == Chunk(c.block, c.index);
    UsedZero(p.inUse, c.block, CHUNK_SIZE);
  }

  lemma ReleaseCounts(p: Pool, free: seq<Chunk>, live: seq<nat>, c: Chunk)
    requires Inv(p, free, live) && c in p.inUse && p.inUse[c]
    ensures c.block in p.count
    ensures var p' := Release(p, c); forall b :: b in p'.count ==> p'.count[b] == Used(p'.inUse, b, CHUNK_SIZE)
  {
    hide Spells, Used;
    var p' := Release(p, c);
    UsedFlip(p.inUse, c, false, CHUNK_SIZE);
    forall b | b in p'.count ensures p'.count[b] == Used(p'.inUse, b, CHUNK_SIZE) {
      if b != c.block { UsedSame(p.inUse, p'.inUse, b, CHUNK_SIZE); }
    }
  }

  /** Giving a chunk back when its block stays. */
  lemma ReturnKeeps(p: Pool, free: seq<Chunk>, live: seq<nat>, c: Chunk)
    requires Inv(p, free, live) && c in p.inUse && p.inUse[c]
    ensures c.block in p.count && Allocated(p.chunks, c) && Reaches(p.chunks, p.chunks.root)
    ensures Inv(Link(Release(p, c), c), [c] + free, live)
  {
    hide Spells, Used;
    InUseIsLoose(p, free, live, c);
    ReleaseCounts(p, free, live, c);
    InsertHeadSpells(p.chunks, free, c);
    InsertHeadDomain(p.chunks, c);
    var p' := Link(Release(p, c), c);
    forall x | x in p'.inUse && x !in [c] + free ensures Loose(p'.chunks, x) {
      assert SameNode(p.chunks, p'.chunks, x);
    }
  }

  // ---------------------------------------------------------------------------------------------------------
  // New blocks

  /** `new BlockNode()` at an address that is not in use; the types of its chunks are set below. */
  function NewBlock(p: Pool, b: nat): Pool {
    Pool(Grow(p.chunks, ChunksOf(b)), p.inUse + (map c | c in ChunksOf(b) :: true), Grow(p.blocks, {b}),
      p.count[b := 0])
  }

  lemma ChunksOfIs(b: nat)
    ensures forall c :: c in ChunksOf(b) <==> c.block == b && c.index < CHUNK_SIZE
  {
    forall c: Chunk | c.block == b && c.index < CHUNK_SIZE ensures c in ChunksOf(b) {
      assert c == Chunk(b, c.index);
    }
  }

  lemma NewBlockKeeps(p: Pool, free: seq<Chunk>, live: seq<nat>, b: nat)
    requires Inv(p, free, live) && b !in p.count
    ensures var p' := NewBlock(p, b);
      && Core(p', free, live, {b}) && p'.count[b] == 0 && Loose(p'.blocks, b) && b !in live
      && (forall i :: 0 <= i < CHUNK_SIZE ==> Chunk(b, i) in p'.inUse && Chunk(b, i) !in free)
  {
    hide Used, Spells, ChunksOf, Grow;
    ChunksOfIs(b);
    GrowSpells(p.chunks, free, ChunksOf(b));
    GrowSpells(p.blocks, live, {b});
    NewBlockMemory(p, b);
    hide Memory;
    var p' := NewBlock(p, b);
    NewBlockCounts(p, b);
    forall c | c in p'.inUse && c !in free ensures Loose(p'.chunks, c) {
      if c !in ChunksOf(b) { assert SameNode(p.chunks, p'.chunks, c); }
    }
  }

  lemma NewBlockMemory(p: Pool, b: nat)
    requires Memory(p) && b !in p.count
    ensures Memory(NewBlock(p, b))
    ensures forall c :: c in p.inUse ==> c.block in p.count && c in NewBlock(p, b).inUse && c !in ChunksOf(b)
  {
    hide ChunksOf, Grow;
    ChunksOfIs(b);
    GrowDomain(p.chunks, ChunksOf(b));
    GrowDomain(p.blocks, {b});
  }

  /** The counts of the other blocks are still right. */
  lemma NewBlockCounts(p: Pool, b: nat)
    requires b !in p.count && forall x :: x in p.count ==> p.count[x] == Used(p.inUse, x, CHUNK_SIZE)
    ensures var p' := NewBlock(p, b);
      forall x :: x in p'.count && x != b ==> p'.count[x] == Used(p'.inUse, x, CHUNK_SIZE)
  {
    hide Used, ChunksOf, Grow;
    ChunksOfIs(b);
    var p' := NewBlock(p, b);
    forall x | x in p'.count && x != b ensures p'.count[x] == Used(p'.inUse, x, CHUNK_SIZE) {
      UsedSame(p.inUse, p'.inUse, x, CHUNK_SIZE);
    }
  }

  /** One round of the loop over the chunks of a new block. */
  function AddChunk(p: Pool, c: Chunk): Pool
    requires Allocated(p.chunks, c) && Reaches(p.chunks, p.chunks.root)
  {
    var p' := Link(p, c);
    p'.(inUse := p'.inUse[c := false])
  }

  lemma AddChunkKeeps(p: Pool, free: seq<Chunk>, live: seq<nat>, c: Chunk)
    requires Core(p, free, live, {c.block}) && c in p.inUse && c !in free
    ensures Allocated(p.chunks, c) && Reaches(p.chunks, p.chunks.root)
    ensures Core(AddChunk(p, c), [c] + free, live, {c.block})
  {
    hide Spells, Used;
    InsertHeadSpells(p.chunks, free, c);
    InsertHeadDomain(p.chunks, c);
    var p' := AddChunk(p, c);
    forall x | x in p'.inUse && x !in [c] + free ensures Loose(p'.chunks, x) {
      assert SameNode(p.chunks, p'.chunks, x);
    }
    forall b | b in p'.count && b != c.block ensures p'.count[b] == Used(p'.inUse, b, CHUNK_SIZE) {
      UsedSame(p.inUse, p'.inUse, b, CHUNK_SIZE);
    }
  }

  /** The block is complete: it enters the block list. */
  lemma AddBlockKeeps(p: Pool, free: seq<Chunk>, live: seq<nat>, b: nat)
    requires Core(p, free, live, {b}) && b in p.count && b !in live && p.count[b] == 0 && Loose(p.blocks, b)
    requires forall i :: 0 <= i < CHUNK_SIZE ==> Chunk(b, i) in p.inUse && !p.inUse[Chunk(b, i)] && Chunk(b, i) in free
    ensures Reaches(p.blocks, p.blocks.root)
    ensures Inv(p.(blocks := InsertHead(p.blocks, b)), free, [b] + live)
  {
    hide Spells, Used;
    InsertHeadSpells(p.blocks, live, b);
    InsertHeadDomain(p.blocks, b);
    UsedZero(p.inUse, b, CHUNK_SIZE);
    assert forall c :: c in p.inUse && c.block == b ==> c == Chunk(b, c.index);
  }

  // ---------------------------------------------------------------------------------------------------------
  // Giving blocks back

  /** One round of the loop of `RecoverBlock`. */
  function DropChunk(p: Pool, c: Chunk): Pool
    requires Allocated(p.chunks, c) && Reaches(p.chunks, p.chunks.next[c]) && Reaches(p.chunks, p.chunks.prev[c])
  {
    p.(chunks := TakeOut(p.chunks, c))
  }

  lemma DropChunkKeeps(p: Pool, free: seq<Chunk>, live: seq<nat>, c: Chunk) returns (left: seq<Chunk>)
    requires Core(p, free, live, {c.block}) && c in p.inUse
    ensures Allocated(p.chunks, c) && Reaches(p.chunks, p.chunks.next[c]) && Reaches(p.chunks, p.chunks.prev[c])
    ensures Core(DropChunk(p, c), left, live, {c.block})
    ensures forall x :: x in left <==> x in free && x != c
  {
    hide Spells, Used;
    left := free;
    if c !in free {
      TakeOutLoose(p.chunks, free, c);
    } else {
      var i :| 0 <= i < |free| && free[i] == c;
      TakeOutSpells(p.chunks, free, i);
      TakeOutDomain(p.chunks, c);
      left := free[..i] + free[i + 1..];
      CutElements(free, i) by { OnceEach(p.chunks, free); }
      var p' := DropChunk(p, c);
      forall x | x in p'.inUse && x !in left ensures Loose(p'.chunks, x) {
        if x != c { assert SameNode(p.chunks, p'.chunks, x); }
      }
    }
  }

  lemma OnceEach(l: Links<Chunk>, free: seq<Chunk>)
    requires Spells(l, free)
    ensures NoDup(free)
  {
  }

  lemma CutElements(s: seq<Chunk>, i: nat)
    requires NoDup(s) && i < |s|
    ensures forall x :: x in s[..i] + s[i + 1..] <==> x in s && x != s[i]
  {
    NoDupCut(s, i);
    assert s == s[..i] + [s[i]] + s[i + 1..];
  }

  /** The end of `RecoverBlock`: the block leaves the block list, and its memory is given back. */
  function DropBlock(p: Pool, b: nat): Pool
    requires Allocated(p.blocks, b) && Reaches(p.blocks, p.blocks.next[b]) && Reaches(p.blocks, p.blocks.prev[b])
  {
    var blocks := TakeOut(p.blocks, b);
    Pool(Shrink(p.chunks, ChunksOf(b)), p.inUse - ChunksOf(b), Shrink(blocks, {b}), p.count - {b})
  }

  lemma DropBlockKeeps(p: Pool, free: seq<Chunk>, live: seq<nat>, i: nat)
    requires i < |live| && Core(p, free, live, {live[i]}) && forall c :: c in free ==> c.block != live[i]
    ensures var b := live[i];
      Allocated(p.blocks, b) && Reaches(p.blocks, p.blocks.next[b]) && Reaches(p.blocks, p.blocks.prev[b])
    ensures Inv(DropBlock(p, live[i]), free, live[..i] + live[i + 1..])
  {
    hide Used, Spells, ChunksOf, Shrink, TakeOut;
    var b := live[i];
    var left := live[..i] + live[i + 1..];
    TakeOutSpells(p.blocks, live, i);
    TakeOutDomain(p.blocks, b);
    Distinctness(p.blocks, live, i);
    var blocks := TakeOut(p.blocks, b);
    ChunksOfIs(b);
    ShrinkSpells(p.chunks, free, ChunksOf(b));
    ShrinkSpells(blocks, left, {b});
    DropBlockMemory(p, b);
    hide Memory;
    var p' := DropBlock(p, b);
    forall x | x in p'.count ensures p'.count[x] == Used(p'.inUse, x, CHUNK_SIZE) {
      UsedSame(p.inUse, p'.inUse, x, CHUNK_SIZE);
    }
    forall c | c in p'.inUse && c !in free ensures Loose(p'.chunks, c) {
      assert SameNode(p.chunks, p'.chunks, c);
    }
  }

  lemma DropBlockMemory(p: Pool, b: nat)
    requires Memory(p) && b in p.count
    requires Allocated(p.blocks, b) && Reaches(p.blocks, p.blocks.next[b]) && Reaches(p.blocks, p.blocks.prev[b])
    ensures Memory(DropBlock(p, b))
    ensures forall c :: c in DropBlock(p, b).inUse ==> c in p.inUse && c.block != b && c !in ChunksOf(b)
  {
    hide ChunksOf, Shrink, TakeOut;
    ChunksOfIs(b);
    TakeOutDomain(p.blocks, b);
    ShrinkDomain(p.chunks, ChunksOf(b));
    ShrinkDomain(TakeOut(p.blocks, b), {b});
  }

  lemma Distinctness(l: Links<nat>, live: seq<nat>, i: nat)
    requires Spells(l, live) && i < |live|
    ensures forall x :: x in live[..i] + live[i + 1..] <==> x in live && x != live[i]
    ensures live[i] !in live[..i] + live[i + 1..]
  {
    NoDupCut(live, i);
    assert live == live[..i] + [live[i]] + live[i + 1..];
  }

  // ---------------------------------------------------------------------------------------------------------
  // The pool

  ghost function InUseOf(inUse: map<Chunk, bool>): set<Chunk> {
    set c | c in inUse && inUse[c]
  }

  /** Addresses of new blocks come from the memory allocator, which hands out none that is in use. */
  class TDynPool {
    const minBlocks: nat
    var chunks: Links<Chunk>
    var inUse: map<Chunk, bool>
    var blocks: Links<nat>
    var count: map<nat, int>
    var blockCount: int

    ghost var free: seq<Chunk>
    ghost var live: seq<nat>

    ghost function View(): Pool
      reads this
    {
      Pool(chunks, inUse, blocks, count)
    }

    ghost predicate Valid()
      reads this
    {
      Inv(View(), free, live) && blockCount == |live| && blockCount >= minBlocks
    }

    /** The chunks that have been handed out. */
    ghost function InUse(): set<Chunk>
      reads this
    {
      InUseOf(inUse)
    }

    constructor (keep: nat, addrs: seq<nat>)
      requires NoDup(addrs) && |addrs| == keep
      ensures Valid() && InUse() == {} && minBlocks == keep && |live| == keep
    {
      minBlocks := keep;
      chunks, blocks := Links(Null, map[], map[]), Links(Null, map[], map[]);
      inUse, count, blockCount := map[], map[], 0;
      free, live := [], [];
      new;
      Empty();
      AllocBlock(addrs);
    }

    static lemma Empty()
      ensures Inv(Pool(Links(Null, map[], map[]), map[], Links(Null, map[], map[]), map[]), [], [])
    {
    }

    /** One round of the outer loop of `AllocBlock`. */
    method AllocOne(b: nat)
      requires Inv(View(), free, live) && b !in count
      modifies this
      ensures Inv(View(), free, live) && live == [b] + old(live) && blockCount == old(blockCount)
      ensures InUse() == old(InUse()) && count.Keys == old(count.Keys) + {b}
      ensures free != []
    {
      hide Core, Inv, NewBlock, AddChunk, SetUp, Grow, ChunksOf, InsertHead, InUseOf, NoDup;
      ghost var before := View();
      NewBlockKeeps(View(), free, live, b);
      SetUpStart(View(), free, live, b);
      ghost var p := NewBlock(View(), b);
      NewBlockIs(before, b);
      chunks, inUse, blocks, count := Grow(chunks, ChunksOf(b)), inUse + (map c | c in ChunksOf(b) :: true),
        Grow(blocks, {b}), count[b := 0];
      for i := 0 to CHUNK_SIZE
        invariant Core(View(), free, live, {b}) && live == old(live) && blockCount == old(blockCount)
        invariant blocks == p.blocks && count == p.count && (i > 0 ==> free != [])
        invariant SetUp(inUse, free, before.inUse, b, i)
      {
        SetUpStep(inUse, free, before.inUse, b, i);
        FreeNew(Chunk(b, i));
      }
      SetUpDone(inUse, free, before.inUse, b);
      AddBlockKeeps(View(), free, live, b);
      blocks := InsertHead(blocks, b);
      live := [b] + live;
    }

    /** A chunk of a new block joins the free list. */
    method FreeNew(c: Chunk)
      requires Core(View(), free, live, {c.block}) && c in inUse && c !in free
      modifies this`chunks, this`inUse, this`free
      ensures Core(View(), free, live, {c.block})
      ensures inUse == old(inUse)[c := false] && free == [c] + old(free)
    {
      hide Core, InsertHead;
      AddChunkKeeps(View(), free, live, c);
      AddChunkIs(View(), c);
      chunks := InsertHead(chunks, c);
      inUse := inUse[c := false];
      free := [c] + free;
    }

    static lemma NewBlockIs(p: Pool, b: nat)
      ensures NewBlock(p, b).count == p.count[b := 0]
      ensures NewBlock(p, b) == Pool(Grow(p.chunks, ChunksOf(b)), p.inUse + (map c | c in ChunksOf(b) :: true),
        Grow(p.blocks, {b}), p.count[b := 0])
    {
    }

    static lemma AddChunkIs(p: Pool, c: Chunk)
      requires Allocated(p.chunks, c) && Reaches(p.chunks, p.chunks.root)
      ensures AddChunk(p, c) == Pool(InsertHead(p.chunks, c), p.inUse[c := false], p.blocks, p.count)
    {
    }

    /** The first `i` chunks of the new block are on the free list. */
    static ghost predicate SetUp(inUse: map<Chunk, bool>, free: seq<Chunk>, before: map<Chunk, bool>, b: nat, i: nat) {
      && (forall c :: c in inUse <==> c in before || (c.block == b && c.index < CHUNK_SIZE))
      && (forall c :: c in before ==> c.block != b && inUse[c] == before[c])
      && (forall k :: 0 <= k < CHUNK_SIZE ==> Chunk(b, k) in inUse && (Chunk(b, k) in free <==> k < i))
      && (forall k :: 0 <= k < i && k < CHUNK_SIZE ==> !inUse[Chunk(b, k)])
    }

    static lemma SetUpStart(p: Pool, free: seq<Chunk>, live: seq<nat>, b: nat)
      requires Inv(p, free, live) && b !in p.count
      ensures SetUp(p.inUse + (map c | c in ChunksOf(b) :: true), free, p.inUse, b, 0)
    {
      hide ChunksOf, Used;
      ChunksOfIs(b);
      forall c | c in free ensures c.block != b {
        assert Allocated(p.chunks, c);
      }
    }

    static lemma SetUpStep(inUse: map<Chunk, bool>, free: seq<Chunk>, before: map<Chunk, bool>, b: nat, i: nat)
      requires SetUp(inUse, free, before, b, i) && i < CHUNK_SIZE
      ensures Chunk(b, i) in inUse && Chunk(b, i) !in free
      ensures SetUp(inUse[Chunk(b, i) := false], [Chunk(b, i)] + free, before, b, i + 1)
    {
    }

    static lemma SetUpDone(inUse: map<Chunk, bool>, free: seq<Chunk>, before: map<Chunk, bool>, b: nat)
      requires SetUp(inUse, free, before, b, CHUNK_SIZE)
      ensures InUseOf(inUse) == InUseOf(before)
      ensures forall k :: 0 <= k < CHUNK_SIZE ==> Chunk(b, k) in inUse && !inUse[Chunk(b, k)] && Chunk(b, k) in free
    {
      assert forall c :: c in inUse && c !in before ==> c == Chunk(b, c.index);
    }

    method AllocBlock(addrs: seq<nat>)
      requires Inv(View(), free, live) && NoDup(addrs) && forall b :: b in addrs ==> b !in count
      requires blockCount == |live|
      modifies this
      ensures Inv(View(), free, live) && blockCount == |live| == old(|live|) + |addrs|
      ensures InUse() == old(InUse()) && count.Keys == old(count.Keys) + Elements(addrs)
      ensures addrs != [] ==> free != []
    {
      hide Inv, NoDup;
      for i := 0 to |addrs|
        invariant Inv(View(), free, live) && blockCount == old(blockCount) && |live| == old(|live|) + i
        invariant InUse() == old(InUse()) && count.Keys == old(count.Keys) + Elements(addrs[..i])
        invariant i > 0 ==> free != []
      {
        NextIsNew(addrs, i);
        AllocOne(addrs[i]);
        assert addrs[..i + 1] == addrs[..i] + [addrs[i]];
      }
      assert addrs[..|addrs|] == addrs;
      blockCount := blockCount + |addrs|;
    }

    static lemma NextIsNew(addrs: seq<nat>, i: nat)
      requires NoDup(addrs) && i < |addrs|
      ensures addrs[i] !in Elements(addrs[..i])
    {
      NoDupApart(addrs, i);
      assert addrs[i] in addrs[i..];
    }

    /** A chunk that nobody has; a new block only when no chunk is free. */
    method GetChunk(addr: nat) returns (ret: Chunk)
      requires Valid() && addr !in count
      modifies this
      ensures Valid()
      ensures ret !in old(InUse()) && InUse() == old(InUse()) + {ret}
      ensures blockCount == old(blockCount) + if old(free) == [] then 1 else 0
      ensures count.Keys == old(count.Keys) + if old(free) == [] then {addr} else {}
      ensures old(free) != [] ==> ret == old(free)[0] && free == old(free)[1..]
    {
      hide Core, Inv, NoDup;
      RootIsFirst(View(), free, live);
      if chunks.root == Null {
        OneAddress(addr);
        AllocBlock([addr]);
      }
      ret := TakeRoot();
    }

    /** The chunk at the root of the free list is handed out. */
    method TakeRoot() returns (ret: Chunk)
      requires Inv(View(), free, live) && free != []
      modifies this`chunks, this`inUse, this`count, this`free
      ensures Inv(View(), free, live) && count.Keys == old(count.Keys)
      ensures ret == old(free)[0] && free == old(free)[1..]
      ensures ret !in old(InUse()) && InUse() == old(InUse()) + {ret}
    {
      hide Core, Inv, NoDup;
      TakeKeeps(View(), free, live);
      TakeIs(View());
      ret := chunks.root.node;
      var next := chunks.next[ret];
      var prev := chunks.prev;
      if next.To? {
        prev := prev[next.node := Null];
      }
      chunks := Links(next, chunks.next[ret := Null], prev);
      count := count[ret.block := count[ret.block] + 1];
      inUse := inUse[ret := true];
      free := free[1..];
    }

    static lemma RootIsFirst(p: Pool, free: seq<Chunk>, live: seq<nat>)
      requires Inv(p, free, live)
      ensures p.chunks.root == Null <==> free == []
    {
    }

    static lemma OneAddress(b: nat)
      ensures NoDup([b]) && Elements([b]) == {b}
    {
    }

    static lemma TakeIs(p: Pool)
      requires p.chunks.root.To? && Allocated(p.chunks, p.chunks.root.node)
      requires Reaches(p.chunks, p.chunks.next[p.chunks.root.node])
      requires p.chunks.root.node.block in p.count
      ensures var c := p.chunks.root.node; var next := p.chunks.next[c];
        Take(p) == Pool(Links(next, p.chunks.next[c := Null], if next.To? then p.chunks.prev[next.node := Null]
          else p.chunks.prev),
                        p.inUse[c := true], p.blocks, p.count[c.block := p.count[c.block] + 1])
    {
    }

    /** Giving a chunk back.  Its block is given back with it exactly when it was the last in use there and there are
        more blocks than the pool keeps. */
    method Recover(c: Chunk)
      requires Valid() && c in InUse()
      modifies this
      ensures Valid()
      ensures InUse() == old(InUse()) - {c}
      ensures var gone := old(count[c.block]) == 1 && old(blockCount) > minBlocks;
        && count.Keys == old(count.Keys) - (if gone then {c.block} else {})
        && blockCount == old(blockCount) - if gone then 1 else 0
    {
      hide Core, Inv, NoDup;
      ghost var before := View();
      InUseIsLoose(before, free, live, c);
      count := count[c.block := count[c.block] - 1];
      inUse := inUse[c := false];
      if count[c.block] == 0 && blockCount > minBlocks {
        EmptyBlock(before, free, live, c);
        RecoverBlock(c.block);
      } else {
        ReturnKeeps(before, free, live, c);
        chunks := InsertHead(chunks, c);
        free := [c] + free;
      }
    }

    static lemma EmptyBlock(p: Pool, free: seq<Chunk>, live: seq<nat>, c: Chunk)
      requires Inv(p, free, live) && c in p.inUse && p.inUse[c] && c.block in p.count && p.count[c.block] == 1
      ensures Core(Release(p, c), free, live, {c.block}) && c.block in live
      ensures var p' := Release(p, c); forall i :: 0 <= i < CHUNK_SIZE ==>
        Chunk(c.block, i) in p'.inUse && !p'.inUse[Chunk(c.block, i)]
    {
      hide Spells, Used;
      InUseIsLoose(p, free, live, c);
      ReleaseCounts(p, free, live, c);
      UsedZero(Release(p, c).inUse, c.block, CHUNK_SIZE);
    }

    /** Every chunk of the block leaves the free list before the memory goes. */
    method RecoverBlock(b: nat)
      requires Core(View(), free, live, {b}) && b in live && blockCount == |live|
      requires forall i :: 0 <= i < CHUNK_SIZE ==> Chunk(b, i) in inUse && !inUse[Chunk(b, i)]
      modifies this
      ensures Inv(View(), free, live) && blockCount == |live| == old(|live|) - 1
      ensures count.Keys == old(count.Keys) - {b} && InUse() == old(InUse())
    {
      hide Core, Inv, NoDup, TakeOut;
      for i := 0 to CHUNK_SIZE
        invariant Core(View(), free, live, {b}) && live == old(live) && blockCount == old(blockCount)
        invariant inUse == old(inUse) && count == old(count) && blocks == old(blocks)
        invariant forall k :: 0 <= k < i && k < CHUNK_SIZE ==> Chunk(b, k) !in free
      {
        assert !inUse[Chunk(b, i)];
        ghost var left := DropChunkKeeps(View(), free, live, Chunk(b, i));
        DropIs(chunks, Chunk(b, i));
        if chunks.root == To(Chunk(b, i)) {
          chunks := chunks.(root := chunks.next[Chunk(b, i)]);
        }
        chunks := RemoveNode(chunks, Chunk(b, i));
        free := left;
      }
      ghost var k := FindBlock(View(), free, live, b);
      DropBlockKeeps(View(), free, live, k);
      DropIs(blocks, b);
      DropBlockIs(View(), b);
      if blocks.root == To(b) {
        blocks := blocks.(root := blocks.next[b]);
      }
      blocks := RemoveNode(blocks, b);
      chunks, inUse, blocks, count := Shrink(chunks, ChunksOf(b)), inUse - ChunksOf(b), Shrink(blocks, {b}),
        count - {b};
      live := live[..k] + live[k + 1..];
      blockCount := blockCount - 1;
      assert InUse() == old(InUse());
    }

    static lemma DropIs<T(!new)>(l: Links<T>, x: T)
      requires Allocated(l, x) && Reaches(l, l.next[x]) && Reaches(l, l.prev[x])
      ensures TakeOut(l, x) == RemoveNode(if l.root == To(x) then l.(root := l.next[x]) else l, x)
    {
    }

    static lemma DropBlockIs(p: Pool, b: nat)
      requires Allocated(p.blocks, b) && Reaches(p.blocks, p.blocks.next[b]) && Reaches(p.blocks, p.blocks.prev[b])
      ensures DropBlock(p, b) ==
        Pool(Shrink(p.chunks, ChunksOf(b)), p.inUse - ChunksOf(b), Shrink(TakeOut(p.blocks, b), {b}), p.count - {b})
    {
    }

    static lemma FindBlock(p: Pool, free: seq<Chunk>, live: seq<nat>, b: nat) returns (k: nat)
      requires Core(p, free, live, {b}) && b in live && forall i :: 0 <= i < CHUNK_SIZE ==> Chunk(b, i) !in free
      ensures k < |live| && live[k] == b && forall c :: c in free ==> c.block != b
    {
      k :| 0 <= k < |live| && live[k] == b;
      forall c | c in free ensures c.block != b {
        assert Allocated(p.chunks, c);
        assert c == Chunk(c.block, c.index);
      }
    }
  }
}
