/** Splitting a full node of the R-tree: `PartitionVars` and the methods of Project/Public/2D/RTree.h that fill it.
    Areas come from an arbitrary function; nothing here depends on what it measures. */
module RTreePartition {
  import opened Rects
  import opened RTreeModel

  const NOT_TAKEN := -1

  /** How many entries of a partition are in a group. */
  function Members(p: seq<int>, group: int): (n: nat)
    ensures n <= |p|
  {
    if p == [] then 0 else Members(p[..|p| - 1], group) + if p[|p| - 1] == group then 1 else 0
  }

  lemma {:induction false} MembersUpdate(p: seq<int>, i: nat, group: int, g: int)
    requires i < |p| && p[i] != group
    ensures Members(p[i := group], g) ==
      Members(p, g) + (if g == group then 1 else 0) - (if g == p[i] then 1 else 0)
  {
    var last := |p| - 1;
    if i < last {
      MembersUpdate(p[..last], i, group, g);
      assert p[i := group][..last] == p[..last][i := group];
    } else {
      assert p[i := group][..last] == p[..last];
    }
  }

  lemma {:induction false} SomeMember(p: seq<int>, group: int)
    ensures Members(p, group) > 0 ==> exists i :: 0 <= i < |p| && p[i] == group
    ensures Members(p, group) == 0 ==> forall i :: 0 <= i < |p| ==> p[i] != group
    ensures Members(p, group) == |p| ==> forall i :: 0 <= i < |p| ==> p[i] == group
  {
    if p != [] {
      SomeMember(p[..|p| - 1], group);
      if Members(p[..|p| - 1], group) > 0 {
        var i :| 0 <= i < |p| - 1 && p[..|p| - 1][i] == group;
        assert p[i] == group;
      }
      forall i | 0 <= i < |p| && Members(p, group) == 0 ensures p[i] != group {
        if i < |p| - 1 { assert p[..|p| - 1][i] != group; }
      }
      forall i | 0 <= i < |p| && Members(p, group) == |p| ensures p[i] == group {
        if i < |p| - 1 { assert p[..|p| - 1][i] == group; }
      }
    }
  }

  ghost predicate Groups(p: seq<int>) {
    forall i :: 0 <= i < |p| ==> p[i] == NOT_TAKEN || p[i] == 0 || p[i] == 1
  }

  lemma {:induction false} MembersAddUp(p: seq<int>)
    requires Groups(p)
    ensures Members(p, 0) + Members(p, 1) + Members(p, NOT_TAKEN) == |p|
  {
    if p != [] {
      MembersAddUp(p[..|p| - 1]);
    }
  }

  class PartitionVars {
    const branchBuf: seq<Branch>
    const dims: nat
    const volume: Rect -> real
    var partition: array<int>
    var total: nat
    var minFill: nat
    var count: array<nat>
    var cover: array<Rect>
    var area: array<real>
    var coverSplit: Rect
    var coverSplitArea: real

    ghost predicate Valid()
      reads this, partition, count, cover, area
    {
      && total == partition.Length == |branchBuf| >= 2
      && count.Length == cover.Length == area.Length == 2
      && Groups(partition[..])
      && count[0] == Members(partition[..], 0) && count[1] == Members(partition[..], 1)
      && (forall b :: b in branchBuf ==> Sized(b.rect, dims))
      && (count[0] > 0 ==> Sized(cover[0], dims)) && (count[1] > 0 ==> Sized(cover[1], dims))
    }

    /** The least rectangle around the first `n` entries. */
    static ghost predicate IsCover(c: Rect, branches: seq<Branch>, n: nat, dims: nat)
      requires n <= |branches|
    {
      && Sized(c, dims) && (forall i :: 0 <= i < n ==> Contains(c, branches[i].rect))
      && forall r :: (forall i :: 0 <= i < n ==> Contains(r, branches[i].rect)) ==> Contains(r, c)
    }

    static lemma CoverGrows(c: Rect, branches: seq<Branch>, n: nat, dims: nat, c': Rect)
      requires n < |branches| && IsCover(c, branches, n, dims) && IsCombined(c, branches[n].rect, c', dims)
      ensures IsCover(c', branches, n + 1, dims)
    {
      forall i | 0 <= i < n ensures Contains(c', branches[i].rect) {
        ContainsTransitive(c', c, branches[i].rect);
      }
      hide Contains;
    }

    static lemma CoverOfOne(branches: seq<Branch>, dims: nat)
      requires |branches| > 0 && Sized(branches[0].rect, dims)
      ensures IsCover(branches[0].rect, branches, 1, dims)
    {
    }

    /** `GetBranches` and `InitParVars`: nothing is taken yet. */
    constructor (branches: seq<Branch>, dims: nat, volume: Rect -> real, minFill: nat)
      requires |branches| >= 2 && forall b :: b in branches ==> Sized(b.rect, dims)
      ensures Valid() && fresh(partition) && fresh(count) && fresh(cover) && fresh(area)
      ensures branchBuf == branches && this.minFill == minFill
      ensures forall i :: 0 <= i < partition.Length ==> partition[i] == NOT_TAKEN
      ensures IsCover(coverSplit, branches, |branches|, dims) && coverSplitArea == volume(coverSplit)
    {
      hide Combined, Contains, IsCombined, IsCover;
      var cover' := branches[0].rect;
      CoverOfOne(branches, dims);
      for i := 1 to |branches|
        invariant Sized(cover', dims) && IsCover(cover', branches, i, dims)
      {
        assert branches[i] in branches;
        var wider := CombineRect(cover', branches[i].rect, dims);
        CoverGrows(cover', branches, i, dims, wider);
        cover' := wider;
      }
      coverSplit := cover';
      this.branchBuf, this.dims, this.volume := branches, dims, volume;
      this.total, this.minFill := |branches|, minFill;
      coverSplitArea := volume(cover');
      var c := new nat[2];
      c[0], c[1] := 0, 0;
      count := c;
      cover := new Rect[2](_ => branches[0].rect);
      area := new real[2](_ => 0.0);
      var p := new int[|branches|](_ => NOT_TAKEN);
      partition := p;
      SomeMember(p[..], 0);
      SomeMember(p[..], 1);
    }

    /** Puts an entry that is not taken yet into a group, whose cover and area grow with it. */
    method Classify(index: nat, group: nat)
      requires Valid() && index < total && group < 2 && partition[index] == NOT_TAKEN
      modifies partition, count, cover, area
      ensures Valid()
      ensures Sized(branchBuf[index].rect, dims) && area[group] == volume(cover[group])
      ensures cover[group] ==
        if old(count[group]) == 0 then branchBuf[index].rect
        else Combined(branchBuf[index].rect, old(cover[group]), dims)
      ensures cover[1 - group] == old(cover[1 - group]) && area[1 - group] == old(area[1 - group])
      ensures partition[..] == old(partition[..])[index := group]
      ensures count[group] == old(count[group]) + 1 && count[1 - group] == old(count[1 - group])
    {
      MembersUpdate(partition[..], index, group, 0);
      MembersUpdate(partition[..], index, group, 1);
      assert branchBuf[index] in branchBuf;
      partition[index] := group;
      if count[group] == 0 {
        cover[group] := branchBuf[index].rect;
      } else {
        cover[group] := CombineRect(branchBuf[index].rect, cover[group], dims);
      }
      area[group] := volume(cover[group]);
      count[group] := count[group] + 1;
    }

    /** The area that two entries would waste together. */
    ghost function Waste(a: nat, b: nat): real
      requires a < |branchBuf| && b < |branchBuf| && Sized(branchBuf[a].rect, dims) && Sized(branchBuf[b].rect, dims)
    {
      var p, q := branchBuf[a].rect, branchBuf[b].rect;
      volume(Combined(p, q, dims)) - volume(p) - volume(q)
    }

    ghost predicate AllSized() {
      forall i :: 0 <= i < |branchBuf| ==> Sized(branchBuf[i].rect, dims)
    }

    /** The pair that would waste most area together; the first two entries if no pair wastes more than `limit`. */
    ghost predicate WorstPair(a: nat, b: nat, limit: real)
      requires AllSized()
    {
      && a < b < |branchBuf|
      && (Waste(a, b) > limit || (a == 0 && b == 1))
      && forall c, d :: 0 <= c < d < |branchBuf| ==> Waste(c, d) <= Waste(a, b) || Waste(c, d) <= limit
    }

    /** The worst pair is separated: one for each group. */
    method PickSeeds() returns (ghost seed0: nat, ghost seed1: nat)
      requires Valid() && forall i :: 0 <= i < partition.Length ==> partition[i] == NOT_TAKEN
      modifies partition, count, cover, area
      ensures Valid()
      ensures count[0] == 1 && count[1] == 1
      ensures AllSized() && WorstPair(seed0, seed1, -coverSplitArea - 1.0)
      ensures partition[seed0] == 0 && partition[seed1] == 1
    {
      SomeMember(partition[..], NOT_TAKEN);
      MembersAddUp(partition[..]);
      AllNotTaken();
      var a, b := FindSeeds();
      Classify(a, 0);
      Classify(b, 1);
      seed0, seed1 := a, b;
    }

    method FindSeeds() returns (seed0: nat, seed1: nat)
      requires Valid()
      ensures AllSized() && WorstPair(seed0, seed1, -coverSplitArea - 1.0)
    {
      hide Members, Combined;
      forall i | 0 <= i < |branchBuf| ensures Sized(branchBuf[i].rect, dims) {
        assert branchBuf[i] in branchBuf;
      }
      ghost var limit := -coverSplitArea - 1.0;
      seed0, seed1 := 0, 1;
      var single := Areas();
      var worst := -coverSplitArea - 1.0;
      for a := 0 to total - 1
        invariant seed0 < seed1 < total
        invariant worst >= limit && (if worst > limit then worst == Waste(seed0, seed1) else seed0 == 0 && seed1 == 1)
        invariant forall c, d :: 0 <= c < d < total && c < a ==> Waste(c, d) <= worst
        modifies {}
      {
        for b := a + 1 to total
          invariant seed0 < seed1 < total
          invariant worst >= limit && (if worst > limit then worst == Waste(seed0, seed1) else seed0 == 0 && seed1 == 1)
          invariant forall c, d :: 0 <= c < d < total && (c < a || (c == a && d < b)) ==> Waste(c, d) <= worst
          modifies {}
        {
          var one := CombineRect(branchBuf[a].rect, branchBuf[b].rect, dims);
          var waste := volume(one) - single[a] - single[b];
          assert waste == Waste(a, b);
          if waste > worst {
            worst, seed0, seed1 := waste, a, b;
          }
        }
      }
    }

    /** The areas of the single entries. */
    method Areas() returns (single: array<real>)
      requires total == |branchBuf|
      ensures fresh(single) && single.Length == total
      ensures forall k :: 0 <= k < total ==> single[k] == volume(branchBuf[k].rect)
    {
      single := new real[total];
      for index := 0 to total
        invariant forall k :: 0 <= k < index ==> single[k] == volume(branchBuf[k].rect)
        modifies single
      {
        single[index] := volume(branchBuf[index].rect);
      }
    }

    lemma AllNotTaken()
      requires Valid() && forall i :: 0 <= i < partition.Length ==> partition[i] == NOT_TAKEN
      ensures count[0] == 0 && count[1] == 0
    {
      SomeMember(partition[..], 0);
      SomeMember(partition[..], 1);
    }

    /** How much more an entry would add to the area of group 1 than to that of group 0. */
    ghost function Pull(i: nat): real
      requires AllSized() && i < |branchBuf| && cover.Length == area.Length == 2 && Sized(cover[0], dims)
      requires Sized(cover[1], dims)
      reads this, cover, area
    {
      var r := branchBuf[i].rect;
      (volume(Combined(r, cover[1], dims)) - area[1]) - (volume(Combined(r, cover[0], dims)) - area[0])
    }

    function Abs(x: real): real { if x < 0.0 then -x else x }

    /** The group an entry adds less to. */
    function GroupOf(pull: real): nat { if pull >= 0.0 then 0 else 1 }

    /** How strongly an entry is drawn, and to which group. */
    method Draw(index: nat) returns (diff: real, group: nat)
      requires Valid() && AllSized() && index < total && count[0] > 0 && count[1] > 0
      ensures diff == Abs(Pull(index)) && group == GroupOf(Pull(index))
    {
      hide Combined, Contains, Members;
      var rect0 := CombineRect(branchBuf[index].rect, cover[0], dims);
      var rect1 := CombineRect(branchBuf[index].rect, cover[1], dims);
      var growth0 := volume(rect0) - area[0];
      var growth1 := volume(rect1) - area[1];
      diff, group := growth1 - growth0, 0;
      if diff < 0.0 {
        group, diff := 1, -diff;
      }
    }

    /** The entry, not taken yet, that is drawn most strongly to one group, and that group; among equals one whose
        group has fewest entries, and among these the first. */
    method PickNext() returns (chosen: nat, betterGroup: nat)
      requires Valid() && count[0] + count[1] < total && count[0] > 0 && count[1] > 0
      ensures chosen < total && betterGroup < 2 && partition[chosen] == NOT_TAKEN
      ensures AllSized() && betterGroup == GroupOf(Pull(chosen))
      ensures forall k :: 0 <= k < total && partition[k] == NOT_TAKEN ==>
        NotStronger(k, Abs(Pull(chosen)), count[betterGroup])
      ensures forall k :: 0 <= k < chosen && partition[k] == NOT_TAKEN ==>
        Weaker(k, Abs(Pull(chosen)), count[betterGroup])
    {
      hide Valid, AllSized, Pull, NotStronger, Weaker;
      SizesAndCounts();
      ghost var some :| 0 <= some < total && partition[some] == NOT_TAKEN;
      var biggestDiff := -1.0;
      chosen, betterGroup := 0, 0;
      for index := 0 to total
        invariant betterGroup < 2 && (biggestDiff == -1.0 || biggestDiff >= 0.0)
        invariant biggestDiff >= 0.0 ==>
          && chosen < total && betterGroup < 2 && partition[chosen] == NOT_TAKEN
          && biggestDiff == Abs(Pull(chosen)) && betterGroup == GroupOf(Pull(chosen))
        invariant some < index ==> biggestDiff >= 0.0
        invariant forall k :: 0 <= k < index && partition[k] == NOT_TAKEN ==>
          NotStronger(k, biggestDiff, count[betterGroup])
        invariant chosen <= index && chosen < total
        invariant forall k :: 0 <= k < chosen && partition[k] == NOT_TAKEN ==>
          Weaker(k, biggestDiff, count[betterGroup])
      {
        if partition[index] == NOT_TAKEN {
          var diff, group := Draw(index);
          Stronger(index, biggestDiff, count[betterGroup], diff, group);
          if diff > biggestDiff {
            biggestDiff, chosen, betterGroup := diff, index, group;
          } else if diff == biggestDiff && count[group] < count[betterGroup] {
            chosen, betterGroup := index, group;
          }
        }
      }
    }

    /** An entry is drawn less strongly than `diff`, or as strongly to a group of more than `n` entries. */
    ghost predicate Weaker(k: nat, diff: real, n: nat)
      requires AllSized() && k < |branchBuf| && count.Length == 2
      requires cover.Length == area.Length == 2 && Sized(cover[0], dims) && Sized(cover[1], dims)
      reads this, cover, area, count
    {
      Abs(Pull(k)) < diff || (Abs(Pull(k)) == diff && count[GroupOf(Pull(k))] > n)
    }

    /** An entry is not drawn more strongly than `diff`, nor as strongly to a group of fewer than `n` entries. */
    ghost predicate NotStronger(k: nat, diff: real, n: nat)
      requires AllSized() && k < |branchBuf| && count.Length == 2
      requires cover.Length == area.Length == 2 && Sized(cover[0], dims) && Sized(cover[1], dims)
      reads this, cover, area, count
    {
      Abs(Pull(k)) < diff || (Abs(Pull(k)) == diff && count[GroupOf(Pull(k))] >= n)
    }

    lemma Stronger(index: nat, best: real, n: nat, diff: real, group: nat)
      requires AllSized() && index < |branchBuf| && count.Length == 2
      requires cover.Length == area.Length == 2 && Sized(cover[0], dims) && Sized(cover[1], dims)
      requires diff == Abs(Pull(index)) && group == GroupOf(Pull(index))
      ensures diff > best || (diff == best && count[group] < n) ==>
        forall k: nat :: k < |branchBuf| && NotStronger(k, best, n) ==>
          NotStronger(k, diff, count[group]) && Weaker(k, diff, count[group])
      ensures NotStronger(index, diff, count[group])
      ensures diff < best || (diff == best && count[group] >= n) ==> NotStronger(index, best, n)
    {
      hide Pull;
    }

    lemma SizesAndCounts()
      requires Valid()
      ensures AllSized() && total == partition.Length == |branchBuf| && count.Length == cover.Length == area.Length == 2
      ensures count[0] > 0 ==> Sized(cover[0], dims)
      ensures count[1] > 0 ==> Sized(cover[1], dims)
      ensures count[0] + count[1] <= total
      ensures count[0] + count[1] < total ==> exists i :: 0 <= i < partition.Length && partition[i] == NOT_TAKEN
      ensures count[0] + count[1] == total ==> forall i :: 0 <= i < partition.Length ==>
        partition[i] == 0 || partition[i] == 1
    {
      MembersAddUp(partition[..]);
      SomeMember(partition[..], NOT_TAKEN);
      hide Members;
      forall i | 0 <= i < |branchBuf| ensures Sized(branchBuf[i].rect, dims) {
        assert branchBuf[i] in branchBuf;
      }
    }

    /** Everything is put into one of the groups, and neither group ends up smaller than the minimum fill allows:
        with `minFill` or all but `minFill` of the entries, whichever is less. */
    method ChoosePartition()
      requires Valid() && 1 <= minFill < total && forall i :: 0 <= i < partition.Length ==> partition[i] == NOT_TAKEN
      modifies partition, count, cover, area
      ensures Valid()
      ensures forall i :: 0 <= i < partition.Length ==> partition[i] == 0 || partition[i] == 1
      ensures count[0] + count[1] == total
      ensures forall g :: 0 <= g < 2 ==> count[g] >= Least(minFill, total - minFill)
    {
      hide Valid, AllSized, WorstPair, Pull, NotStronger;
      var _, _ := PickSeeds();
      SizesAndCounts();
      while count[0] + count[1] < total && count[0] < total - minFill && count[1] < total - minFill
        invariant Valid() && count.Length == 2 && count[0] > 0 && count[1] > 0 && count[0] + count[1] <= total
        invariant count[0] <= total - minFill && count[1] <= total - minFill
        decreases total - count[0] - count[1]
      {
        var chosen, betterGroup := PickNext();
        Classify(chosen, betterGroup);
        SizesAndCounts();
      }
      if count[0] + count[1] < total {
        var group := if count[0] >= total - minFill then 1 else 0;
        PutRest(group);
      }
      SizesAndCounts();
    }

    /** If one group is too full, the other takes the rest. */
    method PutRest(group: nat)
      requires Valid() && group < 2
      modifies partition, count, cover, area
      ensures Valid() && count[0] + count[1] == total && count[1 - group] == old(count[1 - group])
      ensures forall i :: 0 <= i < total ==>
        partition[i] == if old(partition[i]) == NOT_TAKEN then group else old(partition[i])
    {
      for index := 0 to total
        invariant Valid() && count[1 - group] == old(count[1 - group])
        invariant forall i :: 0 <= i < index ==>
          partition[i] == if old(partition[i]) == NOT_TAKEN then group else old(partition[i])
        invariant forall i :: index <= i < total ==> partition[i] == old(partition[i])
      {
        if partition[index] == NOT_TAKEN {
          Classify(index, group);
        }
      }
      MembersAddUp(partition[..]);
      SomeMember(partition[..], NOT_TAKEN);
    }
  }

  function Least(a: nat, b: nat): nat { if a <= b then a else b }
}
