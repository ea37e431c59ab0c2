/** The pool of indexed objects of Project/Public/TIndexPool.h: free indices wait in a heap. */
module IndexPool {
  import opened Heap

  const INVALID_INDEX := -1

  datatype Option<+T> = None | Some(value: T)

  /** An index is free when its node holds no index, and waits in the heap exactly then, once; the node of a live object
      holds its own position. */
  ghost predicate Partition(nodes: seq<int>, waiting: multiset<int>) {
    && (forall i :: 0 <= i < |nodes| ==> nodes[i] == INVALID_INDEX || nodes[i] == i)
    && (forall i :: waiting[i] == if 0 <= i < |nodes| && nodes[i] == INVALID_INDEX then 1 else 0)
  }

  lemma PartitionTake(nodes: seq<int>, waiting: multiset<int>, i: int)
    requires Partition(nodes, waiting) && i in waiting
    ensures 0 <= i < |nodes| && nodes[i] == INVALID_INDEX && Partition(nodes[i := i], waiting - multiset{i})
  {
  }

  lemma PartitionBack(nodes: seq<int>, waiting: multiset<int>, i: nat)
    requires Partition(nodes, waiting) && i < |nodes| && nodes[i] == i
    ensures Partition(nodes[i := INVALID_INDEX], waiting + multiset{i})
  {
  }

  lemma PartitionGrow(nodes: seq<int>, waiting: multiset<int>)
    requires Partition(nodes, waiting)
    ensures Partition(nodes + [INVALID_INDEX], waiting + multiset{|nodes|})
  {
  }

  ghost function FreeOf(nodes: seq<int>): set<int> {
    set i | 0 <= i < |nodes| && nodes[i] == INVALID_INDEX
  }

  ghost predicate LeastOf(nodes: seq<int>, i: int) {
    0 <= i < |nodes| && i in FreeOf(nodes) && forall k :: k in FreeOf(nodes) ==> i <= k
  }

  /** `i` has become the index of a live object, and no other object's index has changed. */
  ghost predicate Created(was: seq<int>, now: seq<int>, i: int) {
    if FreeOf(was) != {} then LeastOf(was, i) && now == was[i := i]
    else
      && i == |was| < |now| && now[..i] == was && now[i] == i
      && forall k :: i < k < |now| ==> now[k] == INVALID_INDEX
  }

  /** How many of the allocations succeed. */
  function Successes(mallocs: seq<bool>): nat {
    if mallocs == [] then 0 else Successes(mallocs[..|mallocs| - 1]) + if mallocs[|mallocs| - 1] then 1 else 0
  }

  /** What `InitHeapCapacity` puts into the heap. */
  ghost function Waiting(mallocs: seq<bool>): multiset<int> {
    if mallocs == [] then multiset{}
    else
      Waiting(mallocs[..|mallocs| - 1]) +
      if mallocs[|mallocs| - 1] then multiset{|mallocs| - 1} else multiset{}
  }

  lemma OneMore(mallocs: seq<bool>, i: nat)
    requires i < |mallocs|
    ensures Waiting(mallocs[..i + 1]) == Waiting(mallocs[..i]) + if mallocs[i] then multiset{i} else multiset{}
    ensures Successes(mallocs[..i + 1]) == Successes(mallocs[..i]) + if mallocs[i] then 1 else 0
    ensures Waiting([]) == multiset{} && Successes([]) == 0 && (i == 0 ==> mallocs[..i] == [])
  {
    assert mallocs[..i + 1][..i] == mallocs[..i];
  }

  lemma {:induction false} WaitingIs(mallocs: seq<bool>)
    ensures forall i :: Waiting(mallocs)[i] == if 0 <= i < |mallocs| && mallocs[i] then 1 else 0
  {
    if mallocs != [] {
      WaitingIs(mallocs[..|mallocs| - 1]);
    }
  }

  ghost predicate NoSuccessAfterFailure(mallocs: seq<bool>) {
    forall i, j :: 0 <= i < j < |mallocs| && mallocs[j] ==> mallocs[i]
  }

  lemma {:induction false} SuccessesFirst(mallocs: seq<bool>)
    requires NoSuccessAfterFailure(mallocs)
    ensures Successes(mallocs) <= |mallocs|
    ensures forall i :: 0 <= i < |mallocs| ==> (mallocs[i] <==> i < Successes(mallocs))
  {
    if mallocs != [] {
      SuccessesFirst(mallocs[..|mallocs| - 1]);
    }
  }

  lemma {:induction false} SuccessesBound(mallocs: seq<bool>)
    ensures Successes(mallocs) <= |mallocs|
  {
    if mallocs != [] {
      SuccessesBound(mallocs[..|mallocs| - 1]);
    }
  }

  /** Indices and nodes agree exactly when no allocation succeeds after one that failed. */
  lemma InitialPartition(nodes: seq<int>, mallocs: seq<bool>)
    requires |nodes| == Successes(mallocs) && forall k :: 0 <= k < |nodes| ==> nodes[k] == INVALID_INDEX
    ensures Partition(nodes, Waiting(mallocs)) <==> NoSuccessAfterFailure(mallocs)
  {
    WaitingIs(mallocs);
    SuccessesBound(mallocs);
    if NoSuccessAfterFailure(mallocs) {
      SuccessesFirst(mallocs);
    }
    if Partition(nodes, Waiting(mallocs)) {
      forall i, j | 0 <= i < j < |mallocs| && mallocs[j] ensures mallocs[i] {
        assert Waiting(mallocs)[j] == 1;
        assert Waiting(mallocs)[i] == 1;
      }
    }
  }

  /** The range check of `Find`. */
  predicate FindChecks(size: nat, index: int) {
    !(index < 0 || index > size)
  }

  /** It is exact for every index but one: the size itself passes. */
  lemma FindChecksRange(size: nat, index: int)
    ensures (FindChecks(size, index) <==> 0 <= index < size) <==> index != size
  {
  }

  /** `nodes` are the index fields of the nodes; the objects in them are the caller's business. */
  class IndexPool {
    const batchNum: nat
    var nodes: seq<int>
    var indexHeap: THeap

    ghost predicate Valid()
      reads this, indexHeap, indexHeap.items
    {
      indexHeap.Valid() && indexHeap.isNew && Partition(nodes, indexHeap.Contents())
    }

    constructor (mallocs: seq<bool>)
      requires mallocs != []
      ensures fresh(indexHeap) && fresh(indexHeap.items) && batchNum == |mallocs|
      ensures |nodes| == Successes(mallocs) && forall k :: 0 <= k < |nodes| ==> nodes[k] == INVALID_INDEX
      ensures Valid() <==> NoSuccessAfterFailure(mallocs)
    {
      hide IsHeap, Waiting, Successes, Partition, NoSuccessAfterFailure;
      batchNum := |mallocs|;
      nodes := [];
      indexHeap := new THeap(|mallocs|);
      new;
      InitHeapCapacity(mallocs);
      InitialPartition(nodes, mallocs);
    }

    /** What enters the heap is the number of the allocation, also after one that failed. */
    method InitHeapCapacity(mallocs: seq<bool>)
      requires indexHeap.Valid() && indexHeap.isNew && indexHeap.heapSize == 0 && nodes == [] && mallocs != []
      modifies this`nodes, indexHeap, indexHeap.items
      ensures indexHeap == old(indexHeap) && (indexHeap.items == old(indexHeap.items) || fresh(indexHeap.items))
      ensures indexHeap.Valid() && indexHeap.isNew && indexHeap.Contents() == Waiting(mallocs)
      ensures |nodes| == Successes(mallocs) && forall k :: 0 <= k < |nodes| ==> nodes[k] == INVALID_INDEX
    {
      hide IsHeap, Waiting, Successes;
      OneMore(mallocs, 0);
      for i := 0 to |mallocs|
        invariant indexHeap.Valid() && indexHeap.isNew && indexHeap == old(indexHeap)
        invariant indexHeap.items == old(indexHeap.items) || fresh(indexHeap.items)
        invariant indexHeap.Contents() == Waiting(mallocs[..i])
        invariant |nodes| == Successes(mallocs[..i]) && forall k :: 0 <= k < |nodes| ==> nodes[k] == INVALID_INDEX
      {
        OneMore(mallocs, i);
        if mallocs[i] {
          Append(i);
        }
      }
      assert mallocs[..|mallocs|] == mallocs;
    }

    /** A new node, and an index that waits. */
    method Append(index: nat)
      requires indexHeap.Valid() && indexHeap.isNew
      modifies this`nodes, indexHeap, indexHeap.items
      ensures nodes == old(nodes) + [INVALID_INDEX]
      ensures indexHeap == old(indexHeap) && (indexHeap.items == old(indexHeap.items) || fresh(indexHeap.items))
      ensures indexHeap.Valid() && indexHeap.isNew
      ensures indexHeap.Contents() == old(indexHeap.Contents()) + multiset{index}
    {
      hide IsHeap;
      nodes := nodes + [INVALID_INDEX];
      var ok := indexHeap.Insert(index);
    }

    /** A new node, and its index into the heap. */
    method Grow()
      requires Valid()
      modifies this`nodes, indexHeap, indexHeap.items
      ensures Valid() && nodes == old(nodes) + [INVALID_INDEX]
      ensures indexHeap == old(indexHeap) && (indexHeap.items == old(indexHeap.items) || fresh(indexHeap.items))
    {
      hide Partition, IsHeap;
      PartitionGrow(nodes, indexHeap.Contents());
      Append(|nodes|);
    }

    method ExpandCapacity(mallocs: seq<bool>)
      requires Valid()
      modifies this`nodes, indexHeap, indexHeap.items
      ensures Valid() && |nodes| == old(|nodes|) + Successes(mallocs)
      ensures nodes[..old(|nodes|)] == old(nodes)
      ensures forall k :: old(|nodes|) <= k < |nodes| ==> nodes[k] == INVALID_INDEX
      ensures indexHeap == old(indexHeap) && (indexHeap.items == old(indexHeap.items) || fresh(indexHeap.items))
    {
      hide Partition;
      ghost var n := |nodes|;
      for i := 0 to |mallocs|
        invariant Valid() && |nodes| == n + Successes(mallocs[..i])
        invariant nodes[..n] == old(nodes) && forall k :: n <= k < |nodes| ==> nodes[k] == INVALID_INDEX
        invariant indexHeap == old(indexHeap) && (indexHeap.items == old(indexHeap.items) || fresh(indexHeap.items))
      {
        assert mallocs[..i + 1][..i] == mallocs[..i];
        if mallocs[i] {
          Grow();
        }
      }
      assert mallocs[..|mallocs|] == mallocs;
    }

    /** The least free index; the pool grows when there is none, and then the first new index is the least. */
    method Create(mallocs: seq<bool>) returns (ret: Option<int>)
      requires Valid() && |mallocs| == batchNum
      modifies this`nodes, indexHeap, indexHeap.items
      ensures Valid() && indexHeap == old(indexHeap)
      ensures ret == None <==> old(FreeOf(nodes)) == {} && Successes(mallocs) == 0
      ensures if ret.Some? then Created(old(nodes), nodes, ret.value) else nodes == old(nodes)
    {
      hide Partition, FreeOf, Created, LeastOf;
      ghost var was := nodes;
      var ok, index := TakeLeast();
      if ok {
        CreatedFrom(was, nodes, index);
        return Some(index);
      }
      ExpandCapacity(mallocs);
      ghost var more := nodes;
      NewAreFree(was, more);
      ok, index := TakeLeast();
      if !ok { return None; }
      CreatedBehind(was, more, nodes, index);
      ret := Some(index);
    }

    static lemma CreatedFrom(was: seq<int>, now: seq<int>, i: int)
      requires LeastOf(was, i) && now == was[i := i]
      ensures Created(was, now, i)
    {
    }

    static lemma NewAreFree(was: seq<int>, more: seq<int>)
      requires |was| <= |more| && more[..|was|] == was && FreeOf(was) == {}
      requires forall k :: |was| <= k < |more| ==> more[k] == INVALID_INDEX
      ensures FreeOf(more) == {} <==> |more| == |was|
      ensures |more| == |was| ==> more == was
    {
      if |more| > |was| {
        assert |was| in FreeOf(more);
      } else {
        assert more == more[..|was|];
      }
    }

    static lemma CreatedBehind(was: seq<int>, more: seq<int>, now: seq<int>, i: int)
      requires |was| <= |more| && more[..|was|] == was && FreeOf(was) == {}
      requires forall k :: |was| <= k < |more| ==> more[k] == INVALID_INDEX
      requires LeastOf(more, i) && now == more[i := i]
      ensures Created(was, now, i)
    {
      assert |was| <= i by {
        assert forall k :: 0 <= k < |was| ==> was[k] == more[..|was|][k] == more[k];
        assert forall k :: k in FreeOf(more) && k < |was| ==> k in FreeOf(was);
      }
      assert |was| in FreeOf(more);
      assert now[..i] == more[..|was|];
    }

    /** `Delete` on the heap, and the construction of the object at the index. */
    method TakeLeast() returns (ok: bool, index: int)
      requires Valid()
      modifies this`nodes, indexHeap, indexHeap.items
      ensures Valid() && indexHeap == old(indexHeap) && indexHeap.items == old(indexHeap.items)
      ensures ok <==> old(FreeOf(nodes)) != {}
      ensures if ok then LeastOf(old(nodes), index) && nodes == old(nodes)[index := index] else nodes == old(nodes)
    {
      hide Partition, FreeOf, LeastOf, IsHeap, THeap.LeastOut;
      ghost var was, n := indexHeap.items[..], indexHeap.heapSize;
      assert was[..n] == indexHeap.items[..n];
      Emptiness(nodes, multiset(was[..n]));
      ok, index := indexHeap.Delete();
      ghost var now := indexHeap.items[..];
      assert now[..indexHeap.heapSize] == indexHeap.items[..indexHeap.heapSize];
      if ok {
        LeastTaken(nodes, was, now, n, index);
        nodes := nodes[index := index];
      }
    }

    static lemma LeastTaken(nodes: seq<int>, was: seq<int>, now: seq<int>, n: nat, i: int)
      requires n <= |was| && Partition(nodes, multiset(was[..n])) && THeap.LeastOut(was, now, n, i)
      ensures LeastOf(nodes, i)
      ensures Partition(nodes[i := i], multiset(now[..n - 1]))
    {
      PartitionTake(nodes, multiset(was[..n]), i);
      forall k | k in FreeOf(nodes) ensures i <= k {
        assert multiset(was[..n])[k] == 1;
      }
    }

    static lemma Emptiness(nodes: seq<int>, waiting: multiset<int>)
      requires Partition(nodes, waiting)
      ensures |waiting| == 0 <==> FreeOf(nodes) == {}
    {
      assert (forall i :: waiting[i] == 0) ==> waiting == multiset{};
      assert forall i :: i in FreeOf(nodes) <==> waiting[i] > 0;
      if FreeOf(nodes) != {} {
        var i :| i in FreeOf(nodes);
        assert waiting[i] == 1;
      }
    }

    /** The object's index is free again. */
    method Recover(index: int)
      requires Valid() && 0 <= index < |nodes| && nodes[index] == index
      modifies this`nodes, indexHeap, indexHeap.items
      ensures Valid() && indexHeap == old(indexHeap) && nodes == old(nodes)[index := INVALID_INDEX]
      ensures FreeOf(nodes) == old(FreeOf(nodes)) + {index}
    {
      PartitionBack(nodes, indexHeap.Contents(), index);
      nodes := nodes[index := INVALID_INDEX];
      var ok := indexHeap.Insert(index);
    }
  }
}
