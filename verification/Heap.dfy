/** The binary heap of Project/Public/THeap.h, in its array. */
module Heap {

  function Parent(k: int): nat { if k <= 0 then 0 else (k - 1) / 2 }

  /** In the first `n` items no child of a position from `a` on is below its parent. */
  ghost predicate HeapFrom(s: seq<int>, n: nat, a: nat)
    requires n <= |s|
  {
    forall k {:trigger s[k]} :: 1 <= k < n && Parent(k) >= a ==> s[Parent(k)] <= s[k]
  }

  /** The first `n` items are a heap. */
  ghost predicate IsHeap(s: seq<int>, n: nat)
    requires n <= |s|
  {
    HeapFrom(s, n, 0)
  }

  /** A heap from `a` on but for the order between `hole` and its children, which are not below the parent of `hole`. */
  ghost predicate HeapBelow(s: seq<int>, n: nat, a: nat, hole: nat)
    requires n <= |s|
  {
    && (forall k {:trigger s[k]} :: 1 <= k < n && Parent(k) >= a && Parent(k) != hole ==> s[Parent(k)] <= s[k])
    && (forall k {:trigger s[k]} :: 1 <= k < n && Parent(k) == hole && hole > 0 && Parent(hole) >= a ==>
      s[Parent(hole)] <= s[k])
  }

  /** A heap but for the order between `hole` and its parent, which is not above the children of `hole`. */
  ghost predicate HeapAbove(s: seq<int>, n: nat, hole: nat)
    requires n <= |s|
  {
    && (forall k {:trigger s[k]} :: 1 <= k < n && k != hole ==> s[Parent(k)] <= s[k])
    && (forall k {:trigger s[k]} :: 1 <= k < n && Parent(k) == hole && hole > 0 ==> s[Parent(hole)] <= s[k])
  }

  lemma {:induction false} RootIsLeast(s: seq<int>, n: nat, k: nat)
    requires n <= |s| && IsHeap(s, n) && k < n
    ensures s[0] <= s[k]
  {
    if k > 0 {
      RootIsLeast(s, n, Parent(k));
    }
  }

  // ---------------------------------------------------------------------------------------------------------
  // One step of sifting, on the items with the target in the hole

  lemma MoveDown(s: seq<int>, n: nat, a: nat, hole: nat, child: nat)
    requires n <= |s| && a <= hole < n && child < n && child > 0 && Parent(child) == hole
    requires HeapBelow(s, n, a, hole) && s[child] < s[hole]
    requires forall k :: 1 <= k < n && Parent(k) == hole ==> s[child] <= s[k]
    ensures HeapBelow(s[hole := s[child]][child := s[hole]], n, a, child)
  {
    var t := s[hole := s[child]][child := s[hole]];
    forall k | 1 <= k < n && Parent(k) >= a && Parent(k) != child ensures t[Parent(k)] <= t[k] {
      assert s[k] == s[k];
    }
    forall k | 1 <= k < n && Parent(k) == child ensures t[Parent(child)] <= t[k] {
      assert s[Parent(k)] <= s[k];
    }
  }

  lemma RestDown(s: seq<int>, n: nat, a: nat, hole: nat)
    requires n <= |s| && hole < n && HeapBelow(s, n, a, hole)
    requires forall k :: 1 <= k < n && Parent(k) == hole ==> s[hole] <= s[k]
    ensures HeapFrom(s, n, a)
  {
  }

  lemma MoveUp(s: seq<int>, n: nat, hole: nat)
    requires n <= |s| && 0 < hole < n && HeapAbove(s, n, hole) && s[hole] < s[Parent(hole)]
    ensures HeapAbove(s[hole := s[Parent(hole)]][Parent(hole) := s[hole]], n, Parent(hole))
  {
    var p := Parent(hole);
    var t := s[hole := s[p]][p := s[hole]];
    forall k | 1 <= k < n && k != p ensures t[Parent(k)] <= t[k] {
      assert s[k] == s[k];
      if k != hole { assert s[Parent(k)] <= s[k]; }
    }
    forall k | 1 <= k < n && Parent(k) == p && p > 0 ensures t[Parent(p)] <= t[k] {
      assert s[Parent(p)] <= s[p];
      assert s[k] == s[k];
      if k != hole { assert s[p] <= s[k]; }
    }
  }

  lemma RestUp(s: seq<int>, n: nat, hole: nat)
    requires n <= |s| && hole < n && HeapAbove(s, n, hole) && (hole > 0 ==> s[Parent(hole)] <= s[hole])
    ensures IsHeap(s, n)
  {
  }

  lemma SwapSame(s: seq<int>, n: nat, i: nat, j: nat)
    requires i < n <= |s| && j < n && i != j
    ensures var t := s[i := s[j]][j := s[i]]; multiset(t[..n]) == multiset(s[..n]) && t[n..] == s[n..]
  {
    var t := s[i := s[j]][j := s[i]];
    assert t[..n] == s[..n][i := s[j]][j := s[i]];
  }

  /** `s` with the target put into the hole is `v`. */
  ghost predicate Filled(s: seq<int>, v: seq<int>, hole: nat, target: int) {
    hole < |s| && v == s[hole := target]
  }

  lemma HoleMoves(s: seq<int>, v: seq<int>, hole: nat, target: int, other: nat)
    requires Filled(s, v, hole, target) && other < |s| && other != hole
    ensures |v| == |s| && v[hole] == target && v[other] == s[other]
    ensures Filled(s[hole := s[other]], v[hole := v[other]][other := target], other, target)
  {
  }

  lemma HoleCloses(s: seq<int>, v: seq<int>, hole: nat, target: int)
    requires Filled(s, v, hole, target)
    ensures s[hole := target] == v && (s[hole] == target ==> s == v)
  {
  }

  // ---------------------------------------------------------------------------------------------------------
  // The heap

  ghost predicate Descending(s: seq<int>) {
    forall j, k :: 0 <= j < k < |s| ==> s[j] >= s[k]
  }

  /** `isNew`: the heap owns its array and enlarges it when it is full. */
  class THeap {
    var items: array<int>
    var size: nat
    var heapSize: nat
    var isNew: bool

    ghost predicate Shape()
      reads this
    {
      items.Length == size && heapSize <= size && (isNew ==> size > 0)
    }

    ghost predicate Valid()
      reads this, items
    {
      Shape() && IsHeap(items[..], heapSize)
    }

    /** The items in the heap. */
    ghost function Contents(): multiset<int>
      requires Shape()
      reads this, items
    {
      multiset(items[..heapSize])
    }

    constructor (size': nat)
      requires size' > 0
      ensures Valid() && heapSize == 0 && Contents() == multiset{} && isNew && fresh(items)
    {
      size := size';
      items := new int[size'](_ => 0);
      heapSize, isNew := 0, true;
    }

    /** A heap over an array of the caller's. */
    constructor Over(items': array<int>, heapSize': nat)
      requires heapSize' <= items'.Length && items'.Length > 0
      modifies items'
      ensures Valid() && !isNew && items == items' && heapSize == heapSize'
      ensures Contents() == multiset(old(items'[..heapSize'])) && items[heapSize..] == old(items'[heapSize'..])
    {
      items, size, heapSize, isNew := items', items'.Length, heapSize', false;
      new;
      HeapFromat();
    }

    method FileterUp(i: nat)
      requires Shape() && i < size && HeapAbove(items[..], i + 1, i)
      modifies items
      ensures IsHeap(items[..], i + 1)
      ensures multiset(items[..i + 1]) == old(multiset(items[..i + 1])) && items[i + 1..] == old(items[i + 1..])
    {
      hide HeapAbove, HeapFrom, Filled, Rising;
      var currentPos: nat, parentPos: nat := i, Parent(i);
      var target := items[i];
      ghost var was, v := items[..], items[..];
      RiseStarts(was, i);
      while currentPos != 0
        invariant currentPos <= i && parentPos == Parent(currentPos) && (currentPos == i ==> items[i] == target)
        invariant Filled(items[..], v, currentPos, target) && Rising(was, v, i, currentPos)
      {
        if items[parentPos] <= target { break; }
        ghost var s := items[..];
        HoleMoves(s, v, currentPos, target, parentPos);
        RiseGoesOn(was, v, i, currentPos);
        items[currentPos] := items[parentPos];
        assert items[..] == s[currentPos := s[parentPos]];
        v := v[currentPos := v[parentPos]][parentPos := target];
        currentPos := parentPos;
        parentPos := Parent(currentPos);
      }
      ghost var s := items[..];
      if currentPos > 0 { HoleMoves(s, v, currentPos, target, parentPos); }
      HoleCloses(s, v, currentPos, target);
      RiseEnds(was, v, i, currentPos);
      if i != currentPos {
        items[currentPos] := target;
        assert items[..] == s[currentPos := target];
      }
      assert items[..i + 1] == items[..][..i + 1] && items[i + 1..] == items[..][i + 1..];
    }

    /** How far a rise has come. */
    static ghost predicate Rising(was: seq<int>, v: seq<int>, i: nat, hole: nat) {
      && hole <= i < |v| == |was| && HeapAbove(v, i + 1, hole)
      && multiset(v[..i + 1]) == multiset(was[..i + 1]) && v[i + 1..] == was[i + 1..]
    }

    static lemma RiseStarts(was: seq<int>, i: nat)
      requires i < |was| && HeapAbove(was, i + 1, i)
      ensures Rising(was, was, i, i) && Filled(was, was, i, was[i])
    {
    }

    static lemma RiseGoesOn(was: seq<int>, v: seq<int>, i: nat, hole: nat)
      requires Rising(was, v, i, hole) && 0 < hole && v[hole] < v[Parent(hole)]
      ensures Rising(was, v[hole := v[Parent(hole)]][Parent(hole) := v[hole]], i, Parent(hole))
    {
      hide HeapAbove;
      MoveUp(v, i + 1, hole);
      SwapSame(v, i + 1, hole, Parent(hole));
    }

    static lemma RiseEnds(was: seq<int>, v: seq<int>, i: nat, hole: nat)
      requires Rising(was, v, i, hole) && (hole > 0 ==> v[Parent(hole)] <= v[hole])
      ensures IsHeap(v, i + 1) && multiset(v[..i + 1]) == multiset(was[..i + 1]) && v[i + 1..] == was[i + 1..]
    {
      RestUp(v, i + 1, hole);
    }

    /** The smaller child of a position, or the left one if they are equal. */
    method SmallerChild(currentPos: nat) returns (childPos: nat)
      requires Shape() && currentPos * 2 + 1 < heapSize
      ensures currentPos < childPos < heapSize && Parent(childPos) == currentPos
      ensures forall k :: 1 <= k < heapSize && Parent(k) == currentPos ==> items[childPos] <= items[k]
    {
      childPos := currentPos * 2 + 1;
      if childPos + 1 < heapSize && items[childPos + 1] < items[childPos] {
        childPos := childPos + 1;
      }
    }

    /** Only items from `i` on move, and an item at the end that equals the one sifted stays where it is. */
    method FileterDown(i: nat)
      requires Shape() && i < size && (heapSize > 0 ==> i < heapSize)
      requires HeapFrom(items[..], heapSize, i + 1)
      modifies items
      ensures HeapFrom(items[..], heapSize, i)
      ensures multiset(items[..heapSize]) == old(multiset(items[..heapSize]))
      ensures items[heapSize..] == old(items[heapSize..])
      ensures heapSize > 0 && old(items[i] == items[heapSize - 1]) ==> items[heapSize - 1] == old(items[heapSize - 1])
    {
      hide HeapBelow, HeapFrom;
      ghost var n, was := heapSize, items[..];
      assert items[..n] == was[..n] && items[n..] == was[n..];
      Sink(i);
      ghost var now := items[..];
      assert items[..n] == now[..n] && items[n..] == now[n..];
    }

    /** What a sift from `i` leaves. */
    static ghost predicate Sunk(was: seq<int>, now: seq<int>, n: nat, i: nat) {
      && n <= |now| == |was| && i < |was| && HeapFrom(now, n, i)
      && multiset(now[..n]) == multiset(was[..n]) && now[n..] == was[n..]
      && (n > 0 && was[n - 1] == was[i] ==> now[n - 1] == was[n - 1])
    }

    /** The loop of `FileterDown`. */
    method Sink(i: nat)
      requires Shape() && i < size && (heapSize > 0 ==> i < heapSize)
      requires HeapFrom(items[..], heapSize, i + 1)
      modifies items
      ensures Sunk(old(items[..]), items[..], heapSize, i)
    {
      hide HeapBelow, HeapFrom, Sifted, Filled, Sunk;
      var currentPos := i;
      var target := items[i];
      ghost var n := heapSize;
      ghost var was, v := items[..], items[..];
      SiftStarts(was, n, i);
      while currentPos * 2 + 1 < heapSize
        invariant i <= currentPos < size && (n > 0 ==> currentPos < n) && (currentPos == i ==> items[i] == target)
        invariant Filled(items[..], v, currentPos, target) && Sifted(was, v, n, i, currentPos)
      {
        var childPos := SmallerChild(currentPos);
        ghost var s := items[..];
        ChildrenAlike(s, v, n, currentPos, childPos, target);
        if target <= items[childPos] { break; }
        v := SinkTo(was, v, i, currentPos, childPos, target);
        currentPos := childPos;
      }
      ghost var s := items[..];
      SiftEnds(was, v, n, i, currentPos);
      HoleCloses(s, v, currentPos, target);
      if i != currentPos {
        items[currentPos] := target;
        assert items[..] == s[currentPos := target];
      }
    }

    /** The smaller child comes up into the hole. */
    method SinkTo(ghost was: seq<int>, ghost v: seq<int>, ghost i: nat, hole: nat, child: nat, ghost target: int)
      returns (ghost v': seq<int>)
      requires hole < child < heapSize <= items.Length && Parent(child) == hole && i <= hole
      requires Filled(items[..], v, hole, target) && Sifted(was, v, heapSize, i, hole) && |v| == items.Length
      requires v[child] < v[hole]
      requires forall k :: 1 <= k < heapSize && Parent(k) == hole ==> v[child] <= v[k]
      modifies items
      ensures Filled(items[..], v', child, target) && Sifted(was, v', heapSize, i, child)
    {
      hide HeapBelow, Sifted, Filled;
      ghost var s := items[..];
      HoleMoves(s, v, hole, target, child);
      SiftGoesOn(was, v, heapSize, i, hole, child);
      items[hole] := items[child];
      assert items[..] == s[hole := s[child]];
      v' := v[hole := v[child]][child := v[hole]];
    }

    /** The smaller child in the array is the smaller child. */
    static lemma ChildrenAlike(s: seq<int>, v: seq<int>, n: nat, hole: nat, child: nat, target: int)
      requires Filled(s, v, hole, target) && hole < child < n <= |s| && Parent(child) == hole
      requires forall k :: 1 <= k < n && Parent(k) == hole ==> s[child] <= s[k]
      ensures |v| == |s| && v[hole] == target && v[child] == s[child]
      ensures forall k :: 1 <= k < n && Parent(k) == hole ==> v[child] <= v[k]
    {
      forall k | 1 <= k < n && Parent(k) == hole ensures v[child] <= v[k] {
        assert s[child] <= s[k];
      }
    }

    /** How far a sift has come. */
    static ghost predicate Sifted(was: seq<int>, v: seq<int>, n: nat, i: nat, hole: nat) {
      && n <= |v| == |was| && HeapBelow(v, n, i, hole)
      && multiset(v[..n]) == multiset(was[..n]) && v[n..] == was[n..]
      && i < |was| && hole < |v| && v[hole] == was[i]
      && (n > 0 && was[n - 1] == was[i] ==> v[n - 1] == was[n - 1])
    }

    static lemma SiftStarts(was: seq<int>, n: nat, i: nat)
      requires i < |was| && n <= |was| && HeapFrom(was, n, i + 1)
      ensures Sifted(was, was, n, i, i) && Filled(was, was, i, was[i])
    {
    }

    static lemma SiftGoesOn(was: seq<int>, v: seq<int>, n: nat, i: nat, hole: nat, child: nat)
      requires Sifted(was, v, n, i, hole) && i <= hole < child < n && Parent(child) == hole && v[child] < v[hole]
      requires forall k :: 1 <= k < n && Parent(k) == hole ==> v[child] <= v[k]
      ensures Sifted(was, v[hole := v[child]][child := v[hole]], n, i, child)
    {
      hide HeapBelow;
      MoveDown(v, n, i, hole, child);
      SwapSame(v, n, hole, child);
    }

    static lemma SiftEnds(was: seq<int>, v: seq<int>, n: nat, i: nat, hole: nat)
      requires Sifted(was, v, n, i, hole) && (n > 0 ==> hole < n)
      requires forall k :: 1 <= k < n && Parent(k) == hole ==> v[hole] <= v[k]
      ensures Sunk(was, v, n, i)
    {
      if n > 0 { RestDown(v, n, i, hole); }
    }

    method HeapFromat()
      requires Shape() && size > 0
      modifies items
      ensures Valid() && Contents() == old(Contents()) && items[heapSize..] == old(items[heapSize..])
    {
      hide HeapFrom;
      var parentPos: int := if heapSize == 0 then 0 else (heapSize - 1) / 2;
      LeavesOnly(items[..], heapSize, parentPos + 1);
      while parentPos >= 0
        invariant -1 <= parentPos < size && (heapSize > 0 ==> parentPos < heapSize)
        invariant HeapFrom(items[..], heapSize, parentPos + 1)
        invariant Contents() == old(Contents()) && items[heapSize..] == old(items[heapSize..])
      {
        FileterDown(parentPos);
        parentPos := parentPos - 1;
      }
    }

    static lemma LeavesOnly(s: seq<int>, n: nat, a: nat)
      requires n <= |s| && (n > 0 ==> a > (n - 1) / 2)
      ensures HeapFrom(s, n, a)
    {
    }

    /** Refused only by a full heap over someone else's array. */
    method Insert(item: int) returns (ok: bool)
      requires Valid()
      modifies this, items
      ensures Valid() && isNew == old(isNew) && (items == old(items) || fresh(items))
      ensures ok == old(heapSize < size || isNew) && heapSize == old(heapSize) + if ok then 1 else 0
      ensures Contents() == old(Contents()) + if ok then multiset{item} else multiset{}
    {
      hide HeapFrom, HeapAbove;
      if heapSize == size {
        if !isNew { return false; }
        ExpanCapacity();
      }
      Append(item);
      ok := true;
    }

    method Append(item: int)
      requires Valid() && heapSize < size
      modifies this`heapSize, items
      ensures Valid() && Contents() == old(Contents()) + multiset{item} && heapSize == old(heapSize) + 1
    {
      hide IsHeap, HeapAbove;
      ghost var was, n := items[..], heapSize;
      items[heapSize] := item;
      ghost var s := items[..];
      Appended(was, s, n, item);
      FileterUp(heapSize);
      assert items[..n + 1] == items[..][..n + 1] && s[..n + 1] == old(items[..n]) + [item];
      heapSize := heapSize + 1;
    }

    static lemma Appended(was: seq<int>, s: seq<int>, n: nat, item: int)
      requires n < |was| && IsHeap(was, n) && s == was[n := item]
      ensures HeapAbove(s, n + 1, n) && s[..n + 1] == was[..n] + [item]
    {
      AppendedAbove(was, s, n);
    }

    static lemma AppendedAbove(was: seq<int>, s: seq<int>, n: nat)
      requires n < |s| == |was| && IsHeap(was, n) && s[..n] == was[..n]
      ensures HeapAbove(s, n + 1, n)
    {
      forall k | 1 <= k < n ensures s[Parent(k)] <= s[k] {
        assert s[k] == s[..n][k] == was[k] && s[Parent(k)] == s[..n][Parent(k)] == was[Parent(k)];
      }
    }

    method ExpanCapacity()
      requires Valid() && isNew
      modifies this
      ensures Valid() && isNew && fresh(items) && size == 2 * old(size) && heapSize == old(heapSize)
      ensures items[..heapSize] == old(items[..heapSize]) && Contents() == old(Contents())
    {
      hide HeapFrom;
      ghost var was := items[..];
      var nowSize := size * 2;
      var tmp := new int[nowSize](_ => 0);
      forall k | 0 <= k < size { tmp[k] := items[k]; }
      assert tmp[..heapSize] == was[..heapSize] && items[..heapSize] == was[..heapSize];
      SameFront(was, tmp[..], heapSize);
      size := nowSize;
      items := tmp;
    }

    static lemma SameFront(s: seq<int>, t: seq<int>, n: nat)
      requires n <= |s| && n <= |t| && s[..n] == t[..n] && IsHeap(s, n)
      ensures IsHeap(t, n)
    {
      forall k | 1 <= k < n ensures t[Parent(k)] <= t[k] {
        assert s[k] == s[..n][k] == t[k] && s[Parent(k)] == s[..n][Parent(k)] == t[Parent(k)];
      }
    }

    /** What remains of the first `n` items of a heap when its least item is taken out; the rest of the array is as
        before. */
    static ghost predicate LeastOut(was: seq<int>, now: seq<int>, n: nat, item: int) {
      && 0 < n <= |was| == |now| && IsHeap(now, n - 1)
      && item in multiset(was[..n]) && (forall x :: x in multiset(was[..n]) ==> item <= x)
      && multiset(now[..n - 1]) == multiset(was[..n]) - multiset{item}
      && now[n..] == was[n..]
    }

    /** The least item leaves.  The last item is copied to the root and sifted before the heap shrinks; its old copy
        at the end stays where it is and is cut off. */
    method Delete() returns (ok: bool, item: int)
      requires Valid()
      modifies this`heapSize, items
      ensures Valid()
      ensures ok == old(heapSize > 0) && heapSize == old(heapSize) - if ok then 1 else 0
      ensures if ok then LeastOut(old(items[..]), items[..], old(heapSize), item) else items[..] == old(items[..])
    {
      hide IsHeap, HeapFrom, LeastOut, LeastFirst, Copied, SiftedTo;
      if heapSize == 0 { return false, 0; }
      ghost var was, n := items[..], heapSize;
      item := items[0];
      items[0] := items[heapSize - 1];
      ghost var s := items[..];
      assert s == was[0 := was[n - 1]];
      RootCopied(was, s, n);
      SiftRoot();
      ghost var t := items[..];
      LastCutOff(was, s, t, n);
      LeastOutHeap(was, t, n, item);
      heapSize := heapSize - 1;
      assert items[..] == t;
      ok := true;
    }

    static lemma LeastOutHeap(was: seq<int>, now: seq<int>, n: nat, item: int)
      requires LeastOut(was, now, n, item)
      ensures IsHeap(now, n - 1)
    {
    }

    static ghost predicate LeastFirst(was: seq<int>, n: nat) {
      0 < n <= |was| && was[0] in multiset(was[..n]) && forall x :: x in multiset(was[..n]) ==> was[0] <= x
    }

    static ghost predicate Copied(was: seq<int>, s: seq<int>, n: nat) {
      && 0 < n <= |was| && s == was[0 := was[n - 1]] && LeastFirst(was, n)
      && multiset(s[..n]) == multiset(was[..n]) - multiset{was[0]} + multiset{was[n - 1]}
    }

    static lemma RootCopied(was: seq<int>, s: seq<int>, n: nat)
      requires 0 < n <= |was| && IsHeap(was, n) && s == was[0 := was[n - 1]]
      ensures HeapFrom(s, n, 1) && Copied(was, s, n)
    {
      RootIsFirst(was, n);
      BelowTheRoot(was, s, n);
      hide IsHeap, HeapFrom, LeastFirst;
      assert was[..n] == [was[0]] + was[1..n];
      assert s[..n] == [was[n - 1]] + was[1..n];
    }

    static lemma RootIsFirst(was: seq<int>, n: nat)
      requires 0 < n <= |was| && IsHeap(was, n)
      ensures LeastFirst(was, n)
    {
      hide IsHeap;
      assert was[..n][0] == was[0];
      forall x | x in multiset(was[..n]) ensures was[0] <= x {
        var k :| 0 <= k < n && was[..n][k] == x;
        RootIsLeast(was, n, k);
      }
    }

    static lemma BelowTheRoot(was: seq<int>, s: seq<int>, n: nat)
      requires 0 < n <= |was| && IsHeap(was, n) && s == was[0 := was[n - 1]]
      ensures HeapFrom(s, n, 1)
    {
    }

    static ghost predicate SiftedTo(s: seq<int>, t: seq<int>, n: nat) {
      && 0 < n <= |s| == |t| && HeapFrom(t, n, 0) && multiset(t[..n]) == multiset(s[..n]) && t[n..] == s[n..]
      && (s[0] == s[n - 1] ==> t[n - 1] == s[n - 1])
    }

    method SiftRoot()
      requires Shape() && heapSize > 0 && HeapFrom(items[..], heapSize, 1)
      modifies items
      ensures SiftedTo(old(items[..]), items[..], heapSize)
    {
      hide HeapFrom;
      ghost var s, n := items[..], heapSize;
      assert items[..n] == s[..n] && items[n..] == s[n..] && items[n - 1] == s[n - 1];
      FileterDown(0);
      ghost var t := items[..];
      assert t[..n] == items[..n] && t[n..] == items[n..] && t[n - 1] == items[n - 1];
    }

    static lemma LastCutOff(was: seq<int>, s: seq<int>, t: seq<int>, n: nat)
      requires Copied(was, s, n) && SiftedTo(s, t, n)
      ensures LeastOut(was, t, n, was[0])
    {
      assert t[..n] == t[..n - 1] + [t[n - 1]];
      assert s[n - 1] == was[n - 1] && s[0] == was[n - 1];
      Cancel(multiset(t[..n - 1]), multiset(was[..n]) - multiset{was[0]}, was[n - 1]);
      assert t[n..] == was[n..];
    }

    static lemma Cancel(a: multiset<int>, b: multiset<int>, x: int)
      requires a + multiset{x} == b + multiset{x}
      ensures a == b
    {
      forall y ensures a[y] == b[y] {
        assert (a + multiset{x})[y] == (b + multiset{x})[y];
      }
    }

    /** The array while it is being sorted: a heap, and behind it, up to `n`, the items taken out of it so far, the last
        one first. */
    static ghost predicate Sorting(s: seq<int>, h: nat, n: nat, all: multiset<int>) {
      && h <= n <= |s| && IsHeap(s, h) && Descending(s[h..n]) && multiset(s[..n]) == all
      && forall j, k :: 0 <= j < h <= k < n ==> s[k] <= s[j]
    }

    static lemma SortingStep(was: seq<int>, t: seq<int>, h: nat, n: nat, all: multiset<int>, del: int)
      requires Sorting(was, h, n, all) && LeastOut(was, t, h, del)
      ensures Sorting(t[h - 1 := del], h - 1, n, all)
    {
      hide HeapFrom, Descending;
      var s := t[h - 1 := del];
      var out := was[h..n];
      SameFront(t, s, h - 1);
      assert forall k :: h <= k < |t| ==> t[k] == t[h..][k - h] == was[h..][k - h] == was[k];
      assert s[h - 1..n] == [del] + out && s[..h - 1] == t[..h - 1];
      NextUp(was, t, h, n, del);
      DescendingPush(del, out);
      SameItems(was, s, h, n, del, out);
    }

    static lemma SameItems(was: seq<int>, s: seq<int>, h: nat, n: nat, del: int, out: seq<int>)
      requires 0 < h <= n <= |was| == |s| && out == was[h..n] && s[h - 1..n] == [del] + out
      requires multiset(s[..h - 1]) == multiset(was[..h]) - multiset{del} && del in multiset(was[..h])
      ensures multiset(s[..n]) == multiset(was[..n])
    {
      assert was[..n] == was[..h] + out;
      assert s[..n] == s[..h - 1] + ([del] + out);
    }

    /** The item just taken out lies between those taken out before and those that remain. */
    static lemma NextUp(was: seq<int>, t: seq<int>, h: nat, n: nat, del: int)
      requires h <= n <= |was| && LeastOut(was, t, h, del)
      requires forall j, k :: 0 <= j < h <= k < n ==> was[k] <= was[j]
      ensures forall k :: h <= k < n ==> was[k] <= del
      ensures forall j :: 0 <= j < h - 1 ==> del <= t[j] && forall k :: h <= k < n ==> was[k] <= t[j]
    {
      var i := Within(was, h, del);
      forall j | 0 <= j < h - 1 ensures del <= t[j] && forall k :: h <= k < n ==> was[k] <= t[j] {
        assert t[j] in t[..h - 1];
        assert multiset(t[..h - 1])[t[j]] >= 1;
        var i' := Within(was, h, t[j]);
      }
    }

    static lemma Within(s: seq<int>, n: nat, x: int) returns (i: nat)
      requires n <= |s| && x in multiset(s[..n])
      ensures i < n && s[i] == x
    {
      assert x in s[..n];
      i :| 0 <= i < n && s[..n][i] == x;
    }

    static lemma DescendingPush(x: int, out: seq<int>)
      requires Descending(out) && forall y :: y in out ==> y <= x
      ensures Descending([x] + out)
    {
      var t := [x] + out;
      forall j, k | 0 <= j < k < |t| ensures t[j] >= t[k] {
        assert t[k] == out[k - 1] && out[k - 1] in out;
        if j > 0 { assert t[j] == out[j - 1]; }
      }
    }

    /** Repeated `Delete` fills the array from the end: a descending arrangement of the same items. */
    method HeapSort()
      requires Valid()
      modifies this`heapSize, items
      ensures Shape() && heapSize == old(heapSize)
      ensures Descending(items[..heapSize]) && Contents() == old(Contents())
    {
      hide HeapFrom, Descending, Sorting, LeastOut;
      ghost var n, all := heapSize, Contents();
      var size' := heapSize;
      SortingStarts(items[..], n);
      while true
        invariant Valid() && Sorting(items[..], heapSize, n, all)
        decreases heapSize
      {
        ghost var was, h := items[..], heapSize;
        var ok, del := Delete();
        if !ok { break; }
        ghost var t := items[..];
        SortingStep(was, t, h, n, all, del);
        items[heapSize] := del;
        assert items[..] == t[h - 1 := del];
        SortingHeap(items[..], heapSize, n, all);
      }
      SortingEnds(items[..], n, all);
      heapSize := size';
      assert items[..][..n] == items[..n];
    }

    static lemma SortingStarts(s: seq<int>, n: nat)
      requires n <= |s| && IsHeap(s, n)
      ensures Sorting(s, n, n, multiset(s[..n]))
    {
    }

    static lemma SortingHeap(s: seq<int>, h: nat, n: nat, all: multiset<int>)
      requires Sorting(s, h, n, all)
      ensures IsHeap(s, h)
    {
    }

    static lemma SortingEnds(s: seq<int>, n: nat, all: multiset<int>)
      requires Sorting(s, 0, n, all)
      ensures Descending(s[..n]) && multiset(s[..n]) == all
    {
      assert s[0..n] == s[..n];
    }
  }

  /** Afterwards the array is no heap any more, unless all items are equal. */
  lemma SortedIsNoHeap(s: seq<int>, n: nat)
    requires n <= |s| && Descending(s[..n])
    ensures IsHeap(s, n) <==> forall k :: 0 <= k < n ==> s[k] == s[0]
  {
    if IsHeap(s, n) {
      forall k | 0 <= k < n ensures s[k] == s[0] {
        RootIsLeast(s, n, k);
        assert s[..n][0] >= s[..n][k];
      }
    }
  }
}
