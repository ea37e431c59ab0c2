/** The R-tree of Project/Public/2D/RTree.h: insertion with node splitting, removal with re-insertion, search. */
module RTree {
  import opened Rects
  import opened RTreeModel
  import opened RTreePartition

  /** A node after an insertion below it: still one node, or the two it was split into. */
  datatype Split = Whole(node: Node) | Two(node: Node, other: Node)

  function SplitItems(sp: Split): multiset<Item> {
    match sp
    case Whole(n) => Items(n)
    case Two(n, m) => Items(n) + Items(m)
  }

  ghost predicate GoodSplit(sp: Split, level: nat, s: Shape) {
    && WellFormed(sp.node, s) && sp.node.level == level && sp.node.branch != []
    && (sp.Two? ==>
          && WellFormed(sp.other, s) && sp.other.level == level
          && |sp.node.branch| >= s.fewest && |sp.other.branch| >= s.fewest && sp.other.branch != []
          && |sp.node.branch| + |sp.other.branch| == s.most + 1)
  }

  ghost predicate SplitWithin(sp: Split, n: Node, b: Branch) {
    && Within(n.branch, b.rect, sp.node.branch)
    && (sp.Whole? ==> |sp.node.branch| >= |n.branch|)
    && (sp.Two? ==> Within(n.branch, b.rect, sp.other.branch))
  }

  ghost predicate IsCover(r: Rect, bs: seq<Branch>, dims: nat) {
    Sized(r, dims) && Covers(r, bs) && forall q :: Covers(q, bs) ==> Contains(q, r)
  }

  class RTree {
    const maxNodes: nat
    const minNodes: nat
    const dims: nat
    const volume: Rect -> real
    var root: Node

    /** The template parameters, as the constructor asserts them. */
    predicate Parameters() {
      maxNodes > minNodes > 0
    }

    /** What every node keeps to.  A node other than the root has at least `minNodes` entries if two such nodes can be
        made from a full one and one more entry; otherwise at least as many as a split leaves over. */
    function S(): (s: Shape)
      requires Parameters()
      ensures 1 <= s.fewest <= s.most && s.most == maxNodes && s.dims == dims && s.fewest <= minNodes
      ensures 2 * minNodes <= maxNodes + 1 <==> s.fewest == minNodes
      ensures minNodes >= 2 ==> s.fewest >= 2
    {
      Shape(maxNodes, Least(minNodes, maxNodes + 1 - minNodes), dims)
    }

    ghost predicate Valid()
      reads this
    {
      Parameters() && WellFormed(root, S()) && (minNodes >= 2 ==> Tree(root, S()))
    }

    /** An insertion can find its way down.  With `minNodes` of at least two this is so in every valid tree. */
    predicate HasWayDown()
      reads this
    {
      root.level > 0 ==> root.branch != []
    }

    /** There is no way down exactly in an internal root that stores nothing; with `minNodes` of at least two there is
        none. */
    lemma WayDownIff()
      requires Valid()
      ensures HasWayDown() <==> root.level == 0 || Items(root) != multiset{}
      ensures minNodes >= 2 ==> HasWayDown()
    {
      if root.branch != [] {
        NotEmptyStores(root, S());
      }
    }

    constructor (maxNodes: nat, minNodes: nat, dims: nat, volume: Rect -> real)
      requires maxNodes > minNodes > 0
      ensures Valid() && HasWayDown() && root == Node(0, []) && Items(root) == multiset{}
      ensures this.maxNodes == maxNodes && this.minNodes == minNodes && this.dims == dims
    {
      this.maxNodes, this.minNodes, this.dims, this.volume := maxNodes, minNodes, dims, volume;
      root := Node(0, []);
    }

    /** `NodeCover`: the least rectangle around all branches. */
    method NodeCover(n: Node) returns (rect: Rect)
      requires n.branch != [] && forall b :: b in n.branch ==> Sized(b.rect, dims)
      ensures IsCover(rect, n.branch, dims)
    {
      rect := n.branch[0].rect;
      for index := 1 to |n.branch|
        invariant Sized(rect, dims)
        invariant forall k :: 0 <= k < index ==> Contains(rect, n.branch[k].rect)
        invariant forall q :: Covers(q, n.branch) ==> Contains(q, rect)
      {
        assert n.branch[index] in n.branch;
        rect := CombineRect(rect, n.branch[index].rect, dims);
      }
    }

    /** What a rectangle adds to the area of a branch. */
    ghost function Increase(rect: Rect, b: Branch): real
      requires Sized(rect, dims) && Sized(b.rect, dims)
    {
      volume(Combined(rect, b.rect, dims)) - volume(b.rect)
    }

    ghost predicate Better(rect: Rect, b: Branch, c: Branch)
      requires Sized(rect, dims) && Sized(b.rect, dims) && Sized(c.rect, dims)
    {
      Increase(rect, b) < Increase(rect, c) || (Increase(rect, b) == Increase(rect, c) &&
        volume(b.rect) < volume(c.rect))
    }

    /** `PickBranch`: the branch that needs the smallest increase in area; among equals the smallest, and of these the
        first. */
    method PickBranch(rect: Rect, n: Node) returns (best: nat)
      requires Sized(rect, dims) && n.branch != [] && forall b :: b in n.branch ==> Sized(b.rect, dims)
      ensures best < |n.branch|
      ensures forall k :: 0 <= k < |n.branch| ==> !Better(rect, n.branch[k], n.branch[best])
      ensures forall k :: 0 <= k < best ==> Better(rect, n.branch[best], n.branch[k])
    {
      hide Combined;
      var firstTime, bestIncr, bestArea := true, -1.0, 0.0;
      best := 0;
      for index := 0 to |n.branch|
        invariant firstTime <==> index == 0
        invariant best < |n.branch| && best <= index
        invariant !firstTime ==>
          best < index && bestIncr == Increase(rect, n.branch[best]) && bestArea == volume(n.branch[best].rect)
        invariant forall k :: 0 <= k < index ==> !Better(rect, n.branch[k], n.branch[best])
        invariant forall k :: 0 <= k < best ==> Better(rect, n.branch[best], n.branch[k])
      {
        assert n.branch[index] in n.branch;
        var curRect := n.branch[index].rect;
        var area := volume(curRect);
        var tempRect := CombineRect(rect, curRect, dims);
        var increase := volume(tempRect) - area;
        if increase < bestIncr || firstTime {
          best, bestArea, bestIncr, firstTime := index, area, increase, false;
        } else if increase == bestIncr && area < bestArea {
          best, bestArea, bestIncr := index, area, increase;
        }
      }
    }

    /** `LoadNodes`: the buffer's branches go into two nodes as the partition says. */
    method LoadNodes(vars: PartitionVars, level: nat) returns (a: Node, b: Node)
      requires vars.Valid()
      requires forall i :: 0 <= i < vars.partition.Length ==> vars.partition[i] == 0 || vars.partition[i] == 1
      ensures a.level == level && b.level == level
      ensures |a.branch| == vars.count[0] && |b.branch| == vars.count[1]
      ensures forall x :: x in a.branch || x in b.branch ==> x in vars.branchBuf
      ensures ItemsIn(a.branch) + ItemsIn(b.branch) == ItemsIn(vars.branchBuf)
    {
      hide ItemsIn, ItemsOf;
      var p, q := [], [];
      ghost var part := vars.partition[..];
      NoItems();
      for index := 0 to vars.total
        invariant |p| == Members(part[..index], 0) && |q| == Members(part[..index], 1)
        invariant forall x :: x in p || x in q ==> x in vars.branchBuf
        invariant ItemsIn(p) + ItemsIn(q) == ItemsIn(vars.branchBuf[..index])
      {
        var x := vars.branchBuf[index];
        assert part[..index + 1][..index] == part[..index];
        assert vars.branchBuf[..index + 1] == vars.branchBuf[..index] + [x];
        ItemsAppend(vars.branchBuf[..index], [x]);
        ItemsAppend(p, [x]);
        ItemsAppend(q, [x]);
        if vars.partition[index] == 0 {
          p := p + [x];
        } else {
          q := q + [x];
        }
      }
      assert part[..vars.total] == part && vars.branchBuf[..vars.total] == vars.branchBuf;
      a, b := Node(level, p), Node(level, q);
    }

    static lemma NoItems()
      ensures ItemsIn([]) == multiset{}
    {
    }

    /** `SplitNode`: the branches of a full node and one more are divided between two nodes. */
    method SplitNode(n: Node, b: Branch) returns (a: Node, o: Node)
      requires Parameters() && |n.branch| == maxNodes && WellFormed(n, S()) && Belongs(b, n.level, S())
      ensures GoodSplit(Two(a, o), n.level, S())
      ensures Items(a) + Items(o) == Items(n) + ItemsOf(b)
      ensures Within(n.branch, b.rect, a.branch) && Within(n.branch, b.rect, o.branch)
      ensures 2 * minNodes > maxNodes + 1 ==> |a.branch| < minNodes || |o.branch| < minNodes
    {
      hide ItemsIn, ItemsOf, Belongs, AllBelong, WellFormed;
      WellFormedIff(n, S());
      SizedBranch(b, n.level, S());
      var vars := new PartitionVars(n.branch + [b], dims, volume, minNodes);
      vars.ChoosePartition();
      assert vars.count[0] >= S().fewest && vars.count[1] >= S().fewest;
      a, o := LoadNodes(vars, n.level);
      ItemsAppend(n.branch, [b]);
      ItemsOne(b);
      assert Items(a) == ItemsIn(a.branch) && Items(o) == ItemsIn(o.branch) && Items(n) == ItemsIn(n.branch);
      WellFormedIff(a, S());
      WellFormedIff(o, S());
    }

    static lemma SizedBranch(b: Branch, level: nat, s: Shape)
      requires Belongs(b, level, s)
      ensures Sized(b.rect, s.dims)
    {
    }

    /** `AddBranch`: into the node if there is room, else by splitting it. */
    method AddBranch(b: Branch, n: Node) returns (sp: Split)
      requires Parameters() && WellFormed(n, S()) && Belongs(b, n.level, S())
      ensures GoodSplit(sp, n.level, S()) && SplitItems(sp) == Items(n) + ItemsOf(b)
      ensures SplitWithin(sp, n, b)
      ensures sp.Two? <==> |n.branch| == maxNodes
    {
      hide ItemsIn, ItemsOf, Belongs, AllBelong, WellFormed;
      ItemsAppend(n.branch, [b]);
      ItemsOne(b);
      assert Items(n) == ItemsIn(n.branch);
      WellFormedIff(n, S());
      if |n.branch| < maxNodes {
        sp := Whole(Node(n.level, n.branch + [b]));
        WellFormedIff(sp.node, S());
        assert Items(sp.node) == ItemsIn(n.branch + [b]);
      } else {
        var a, o := SplitNode(n, b);
        sp := Two(a, o);
      }
    }

    /** `InsertRectRec`: down to the level that the branch belongs to, and splits on the way back up. */
    method InsertRectRec(b: Branch, n: Node, level: nat) returns (sp: Split)
      requires Parameters() && WellFormed(n, S()) && Belongs(b, level, S())
      requires level <= n.level && (n.level > level ==> n.branch != [])
      ensures GoodSplit(sp, n.level, S()) && SplitItems(sp) == Items(n) + ItemsOf(b)
      ensures SplitWithin(sp, n, b)
      decreases n
    {
      hide ItemsIn, ItemsOf, Belongs, AllBelong, WellFormed;
      if n.level > level {
        SizedBranch(b, level, S());
        WellFormedIff(n, S());
        var index := PickBranch(b.rect, n);
        ChildOf(n, index, S());
        var child := n.branch[index].child;
        var below := InsertRectRec(b, child, level);
        if below.Whole? {
          sp := WidenBranch(b, n, index, below.node);
        } else {
          sp := AddSplitChild(b, n, index, below.node, below.other);
        }
      } else {
        sp := AddBranch(b, n);
      }
    }

    /** The child took the new branch without a split: its rectangle grows around the branch. */
    method WidenBranch(b: Branch, n: Node, index: nat, child: Node) returns (sp: Split)
      requires Parameters() && WellFormed(n, S()) && n.level > 0 && Sized(b.rect, dims) && index < |n.branch|
      requires n.branch[index].Inner?
      requires GoodSplit(Whole(child), n.level - 1, S()) && SplitWithin(Whole(child), n.branch[index].child, b)
      requires Items(child) == Items(n.branch[index].child) + ItemsOf(b)
      ensures GoodSplit(sp, n.level, S()) && SplitItems(sp) == Items(n) + ItemsOf(b) && SplitWithin(sp, n, b)
    {
      hide Items, ItemsOf, Belongs, AllBelong, WellFormed, Contains;
      ChildOf(n, index, S());
      var r := CombineRect(b.rect, n.branch[index].rect, dims);
      ghost var kid := n.branch[index].child;
      CoversWider(r, n.branch[index].rect, kid.branch);
      NewChild(r, child, S());
      ReplaceBranch(n, index, Inner(r, child), S());
      sp := Whole(Node(n.level, n.branch[index := Inner(r, child)]));
      ItemsOfInner(n.branch[index]);
      Cancel(Items(sp.node), Items(n) + ItemsOf(b), Items(kid));
      assert n.branch[index] in n.branch;
    }

    /** The child was split: its rectangle is recomputed, and the new node is added beside it. */
    method AddSplitChild(b: Branch, n: Node, index: nat, child: Node, other: Node) returns (sp: Split)
      requires Parameters() && WellFormed(n, S()) && n.level > 0 && index < |n.branch| && n.branch[index].Inner?
      requires GoodSplit(Two(child, other), n.level - 1, S())
      requires SplitWithin(Two(child, other), n.branch[index].child, b)
      requires Items(child) + Items(other) == Items(n.branch[index].child) + ItemsOf(b)
      ensures GoodSplit(sp, n.level, S()) && SplitItems(sp) == Items(n) + ItemsOf(b) && SplitWithin(sp, n, b)
    {
      hide Items, ItemsOf, Belongs, AllBelong, WellFormed, Contains, SplitItems;
      ChildOf(n, index, S());
      ghost var kid := n.branch[index].child;
      WellFormedIff(child, S());
      WellFormedIff(other, S());
      var r := NodeCover(child);
      var r2 := NodeCover(other);
      NewChild(r, child, S());
      NewChild(r2, other, S());
      ReplaceBranch(n, index, Inner(r, child), S());
      var n1 := Node(n.level, n.branch[index := Inner(r, child)]);
      sp := AddBranch(Inner(r2, other), n1);
      ItemsOfInner(n.branch[index]);
      Exchange(SplitItems(sp), Items(n1), Items(other), Items(kid), Items(n), Items(child), ItemsOf(b));
      forall q | Covers(q, n.branch) && Contains(q, b.rect)
        ensures Covers(q, n1.branch) && Contains(q, r2)
      {
        assert n.branch[index] in n.branch;
        CoversWider(q, n.branch[index].rect, kid.branch);
      }
    }

    static lemma CoversWider(q: Rect, r: Rect, bs: seq<Branch>)
      requires Contains(q, r) && Covers(r, bs)
      ensures Covers(q, bs)
    {
      forall b | b in bs ensures Contains(q, b.rect) { ContainsTransitive(q, r, b.rect); }
    }

    static lemma ItemsOfInner(b: Branch)
      requires b.Inner?
      ensures ItemsOf(b) == Items(b.child)
    {
    }

    /** `InsertRect`: a split of the root makes the tree one level taller. */
    method InsertRect(b: Branch, root: Node, level: nat) returns (newRoot: Node)
      requires Parameters() && WellFormed(root, S()) && Belongs(b, level, S())
      requires level <= root.level && (root.level > 0 ==> root.branch != [])
      ensures WellFormed(newRoot, S()) && Items(newRoot) == Items(root) + ItemsOf(b)
      ensures newRoot.level >= root.level && newRoot.branch != []
      ensures |root.branch| >= 2 || newRoot.level > root.level ==> |newRoot.branch| >= 2
      ensures Grown(root.level, newRoot)
    {
      hide Filled, Items, ItemsOf, Belongs, AllBelong, WellFormed;
      var sp := InsertRectRec(b, root, level);
      if sp.Two? {
        newRoot := GrowRoot(sp.node, sp.other);
      } else {
        newRoot := sp.node;
      }
    }

    /** A tree grows by one level at a time.  When it does, its nodes are as full as `minNodes` asks exactly for
        parameters with which a full node and one more entry make two such nodes. */
    ghost predicate Grown(level: nat, newRoot: Node) {
      && newRoot.level <= level + 1
      && (newRoot.level > level ==> (Filled(newRoot, minNodes) <==> 2 * minNodes <= maxNodes + 1))
    }

    method GrowRoot(a: Node, o: Node) returns (newRoot: Node)
      requires Parameters() && GoodSplit(Two(a, o), a.level, S())
      ensures WellFormed(newRoot, S()) && Items(newRoot) == Items(a) + Items(o)
      ensures newRoot.level == a.level + 1 && |newRoot.branch| == 2 && Grown(a.level, newRoot)
    {
      hide Items, ItemsOf, Belongs, AllBelong, WellFormed, IsCombined;
      WellFormedIff(a, S());
      WellFormedIff(o, S());
      var r := NodeCover(a);
      var r2 := NodeCover(o);
      NewChild(r, a, S());
      NewChild(r2, o, S());
      newRoot := Node(a.level + 1, [Inner(r, a), Inner(r2, o)]);
      WellFormedIff(newRoot, S());
      TwoItems(Inner(r, a), Inner(r2, o), a.level + 1);
      FilledByShape(newRoot, S());
      assert Inner(r, a) in newRoot.branch && Inner(r2, o) in newRoot.branch;
    }

    static lemma TwoItems(x: Branch, y: Branch, level: nat)
      ensures Items(Node(level, [x, y])) == ItemsOf(x) + ItemsOf(y)
    {
      ItemsAppend([x], [y]);
      ItemsOne(x);
      ItemsOne(y);
      assert [x, y] == [x] + [y];
    }

    // -------------------------------------------------------------------------------------------------------
    // Removal

    /** `RemoveRectRec`: looks for the entry below the branches that overlap the rectangle, takes it out of its leaf,
        and on the way back up shrinks rectangles and sets nodes aside that have become too small. */
    method RemoveRectRec(rect: Rect, id: Id, n: Node)
      returns (notFound: bool, m: Node, orphans: seq<Node>, ghost gone: Item)
      requires Parameters() && WellFormed(n, S()) && Sized(rect, dims)
      ensures notFound ==> forall it :: it in Items(n) && it.id == id ==> !Overlaps(rect, it.rect)
      ensures notFound ==> m == n && orphans == []
      ensures !notFound ==> Removed(n, m, orphans, gone, S(), minNodes) && gone.id == id
      decreases n
    {
      hide Items, ItemsIn, ItemsOf, Belongs, AllBelong, WellFormed, Overlaps, Removed;
      m, orphans, gone := n, [], Item(rect, id);
      if n.level > 0 {
        WellFormedIff(n, S());
        for index := 0 to |n.branch|
          invariant forall k :: 0 <= k < index ==> NothingToRemove(rect, id, n.branch[k])
        {
          assert n.branch[index] in n.branch;
          ChildOf(n, index, S());
          var overlaps := Overlap(rect, n.branch[index].rect, dims);
          var child := n.branch[index].child;
          if overlaps {
            var miss, kid, lost, it := RemoveRectRec(rect, id, child);
            if !miss {
              m, orphans := ChildRemoved(n, index, kid, lost, it);
              return false, m, orphans, it;
            }
            FoundNothing(rect, id, n.branch[index]);
          } else {
            OutsideBranch(rect, id, n.branch[index], n.level, S());
          }
        }
        NothingInNode(rect, id, n);
        return true, m, orphans, gone;
      } else {
        for index := 0 to |n.branch|
          invariant forall k :: 0 <= k < index ==> NothingToRemove(rect, id, n.branch[k])
        {
          DataAt(n, index, S());
          if n.branch[index].id == id {
            m := Node(0, Disconnect(n.branch, index));
            gone := Item(n.branch[index].rect, id);
            DropData(n, index, S(), minNodes);
            return false, m, [], gone;
          }
          OtherData(rect, id, n.branch[index]);
        }
        NothingInNode(rect, id, n);
        return true, m, orphans, gone;
      }
    }

    /** After a removal below one child: the child is kept with a new rectangle, or set aside. */
    method ChildRemoved(n: Node, index: nat, kid: Node, lost: seq<Node>, ghost gone: Item)
      returns (m: Node, orphans: seq<Node>)
      requires Parameters() && WellFormed(n, S()) && n.level > 0 && index < |n.branch| && n.branch[index].Inner?
      requires Removed(n.branch[index].child, kid, lost, gone, S(), minNodes)
      ensures Removed(n, m, orphans, gone, S(), minNodes)
      ensures |kid.branch| >= minNodes ==>
        exists r :: IsCover(r, kid.branch, dims) && m.branch == n.branch[index := Inner(r, kid)] && orphans == lost
      ensures |kid.branch| < minNodes ==> m.branch == Disconnect(n.branch, index) && orphans == [kid] + lost
    {
      hide Items, ItemsIn, ItemsOf, Belongs, AllBelong, WellFormed;
      ChildOf(n, index, S());
      ItemsOfInner(n.branch[index]);
      assert n.branch[index] in n.branch;
      if |kid.branch| >= minNodes {
        WellFormedIff(kid, S());
        var r := NodeCover(kid);
        NewChild(r, kid, S());
        ReplaceBranch(n, index, Inner(r, kid), S());
        m, orphans := Node(n.level, n.branch[index := Inner(r, kid)]), lost;
        forall q | Covers(q, n.branch) ensures Covers(q, m.branch) {
          CoversWider(q, n.branch[index].rect, n.branch[index].child.branch);
        }
        Exchange3(Items(m), Items(n.branch[index].child), Items(n), Items(kid), ItemsInAll(lost), multiset{gone});
      } else {
        DropBranch(n, index, S());
        m, orphans := Node(n.level, Disconnect(n.branch, index)), [kid] + lost;
        assert ([kid] + lost)[1..] == lost;
      }
      assert gone in Items(n.branch[index].child);
      assert ChangedAt(n, m, index, gone);
    }

    /** `RemoveRect`: the removal, then every branch of every node set aside goes back in at that node's own level, then
        a root with a single child gives way to it. */
    method RemoveRect(rect: Rect, id: Id) returns (notFound: bool, ghost gone: Item)
      requires Valid() && Sized(rect, dims)
      modifies this
      ensures Valid()
      ensures notFound ==> root == old(root)
      ensures notFound ==> forall it :: it in Items(root) && it.id == id ==> !Overlaps(rect, it.rect)
      ensures !notFound ==> gone.id == id && Items(root) + multiset{gone} == old(Items(root))
      ensures root.level + 1 >= old(root.level)
      ensures HasWayDown() <==>
        old(HasWayDown()) && !(!notFound && minNodes == 1 && old(root.level) > 0 && old(Items(root)) == multiset{gone})
      ensures !notFound && minNodes == 1 ==> exists m :: OneLess(old(root), m, gone) && root == WithoutIdleRoot(m)
    {
      hide Items, ItemsIn, ItemsOf, Belongs, AllBelong, WellFormed, Overlaps;
      var m, orphans;
      notFound, m, orphans, gone := RemoveRectRec(rect, id, root);
      WayDownIff();
      if !notFound {
        var top := ReInsertAll(m, orphans);
        if minNodes == 1 {
          NothingSetAside(orphans);
          assert OneLess(root, top, gone);
        }
        ghost var was, all := root, top;
        RootAfter(top);
        if |top.branch| == 1 && top.level > 0 {
          ChildOf(top, 0, S());
          OnlyChild(top);
          top := top.branch[0].child;
        }
        root := top;
        WayDownIff();
      }
    }

    /** The single child of an internal root is never taken for the root of a tree that stores nothing. */
    lemma RootAfter(n: Node)
      requires Parameters() && WellFormed(n, S())
      ensures |n.branch| == 1 && n.level > 0 ==> n.branch[0].Inner?
      ensures |n.branch| == 1 && n.level > 0 ==> Items(n) != multiset{} && WithoutIdleRoot(n) == n.branch[0].child
      ensures !(|n.branch| == 1 && n.level > 0) ==> WithoutIdleRoot(n) == n
    {
      if n.branch != [] {
        NotEmptyStores(n, S());
        assert Belongs(n.branch[0], n.level, S());
      }
    }

    static lemma OnlyChild(n: Node)
      requires |n.branch| == 1 && n.branch[0].Inner?
      ensures Items(n.branch[0].child) == Items(n)
    {
      ItemsOne(n.branch[0]);
      assert n.branch == [n.branch[0]];
    }

    /** The re-insertion loop of `RemoveRect`. */
    method ReInsertAll(m: Node, orphans: seq<Node>) returns (top: Node)
      requires Parameters() && WellFormed(m, S()) && (minNodes >= 2 && m.level > 0 ==> m.branch != [])
      requires forall o :: o in orphans ==> WellFormed(o, S()) && o.level < m.level && |o.branch| < minNodes
      ensures WellFormed(top, S()) && (minNodes >= 2 && top.level > 0 ==> top.branch != []) && top.level >= m.level
      ensures Items(top) == Items(m) + ItemsInAll(orphans)
      ensures (forall o :: o in orphans ==> o.branch == []) ==> top == m
    {
      hide Items, ItemsIn, ItemsOf, ItemsInAll, Belongs, AllBelong, WellFormed;
      top := m;
      NoneLeft(orphans);
      for k := 0 to |orphans|
        invariant WellFormed(top, S()) && (minNodes >= 2 && top.level > 0 ==> top.branch != []) && top.level >= m.level
        invariant Items(top) + ItemsInAll(orphans[k..]) == Items(m) + ItemsInAll(orphans)
        invariant (forall o :: o in orphans ==> o.branch == []) ==> top == m
      {
        assert orphans[k] in orphans;
        OneGoesIn(orphans, k);
        top := ReInsertBranches(top, orphans[k]);
      }
    }

    static lemma NoneLeft(orphans: seq<Node>)
      ensures orphans[0..] == orphans && ItemsInAll(orphans[|orphans|..]) == multiset{}
    {
    }

    static lemma OneGoesIn(orphans: seq<Node>, k: nat)
      requires k < |orphans|
      ensures ItemsInAll(orphans[k..]) == Items(orphans[k]) + ItemsInAll(orphans[k + 1..])
    {
      hide Items;
      assert orphans[k..][1..] == orphans[k + 1..];
    }

    method ReInsertBranches(m: Node, orphan: Node) returns (top: Node)
      requires Parameters() && WellFormed(m, S()) && (minNodes >= 2 && m.level > 0 ==> m.branch != [])
      requires WellFormed(orphan, S()) && orphan.level < m.level && |orphan.branch| < minNodes
      ensures WellFormed(top, S()) && (minNodes >= 2 && top.level > 0 ==> top.branch != []) && top.level >= m.level
      ensures Items(top) == Items(m) + Items(orphan)
      ensures orphan.branch == [] ==> top == m
    {
      hide Items, ItemsIn, ItemsOf, Belongs, AllBelong, WellFormed;
      top := m;
      WellFormedIff(orphan, S());
      NoItems();
      for index := 0 to |orphan.branch|
        invariant WellFormed(top, S()) && (minNodes >= 2 && top.level > 0 ==> top.branch != []) && top.level >= m.level
        invariant Items(top) == Items(m) + ItemsIn(orphan.branch[..index])
        invariant index == 0 ==> top == m
      {
        assert orphan.branch[index] in orphan.branch;
        assert orphan.branch[..index + 1] == orphan.branch[..index] + [orphan.branch[index]];
        ItemsAppend(orphan.branch[..index], [orphan.branch[index]]);
        ItemsOne(orphan.branch[index]);
        top := InsertRect(orphan.branch[index], top, orphan.level);
      }
      assert orphan.branch[..|orphan.branch|] == orphan.branch;
      ItemsOfNode(orphan);
    }

    static lemma ItemsOfNode(n: Node)
      ensures Items(n) == ItemsIn(n.branch)
    {
    }

    // -------------------------------------------------------------------------------------------------------
    // The public operations

    method Insert(min: seq<real>, max: seq<real>, id: Id)
      requires Valid() && HasWayDown() && |min| == |max| == dims
      modifies this
      ensures Valid() && HasWayDown() && Items(root) == old(Items(root)) + multiset{Item(Rect(min, max), id)}
      ensures root.level >= old(root.level) && Grown(old(root.level), root)
      ensures old(Tree(root, S())) ==> Tree(root, S())
    {
      hide Filled, Items, ItemsIn, AllBelong, WellFormed;
      var branch := Data(Rect(min, max), id);
      root := InsertRect(branch, root, 0);
    }

    /** When the entry is stored, its own rectangle always leads to an entry with its id; with ids given once, to it. */
    method Remove(min: seq<real>, max: seq<real>, id: Id) returns (ghost notFound: bool, ghost gone: Item)
      requires Valid() && |min| == |max| == dims
      modifies this
      ensures Valid() && root.level + 1 >= old(root.level)
      ensures Proper(Rect(min, max)) && Item(Rect(min, max), id) in old(Items(root)) ==> !notFound
      ensures notFound ==> root == old(root)
      ensures !notFound ==> gone.id == id && Items(root) + multiset{gone} == old(Items(root))
      ensures !notFound && UniqueIds(old(Items(root))) && Item(Rect(min, max), id) in old(Items(root)) ==>
        gone == Item(Rect(min, max), id)
      ensures HasWayDown() <==>
        old(HasWayDown()) && !(!notFound && minNodes == 1 && old(root.level) > 0 && old(Items(root)) == multiset{gone})
      ensures !notFound && minNodes == 1 ==> exists m :: OneLess(old(root), m, gone) && root == WithoutIdleRoot(m)
    {
      hide Items, Tree, WellFormed, OneLess;
      var miss, it := RemoveRect(Rect(min, max), id);
      if Proper(Rect(min, max)) { ProperOverlapsItself(Rect(min, max)); }
      notFound, gone := miss, it;
      assert !notFound ==> (Items(root) + multiset{gone})[gone] > 0;
    }

    /** `Search` for data below a node.  `callback` sees what has been reported so far and says whether to go on. */
    method SearchNode(n: Node, rect: Rect, before: seq<Item>, callback: seq<Item> -> bool)
      returns (go: bool, found: seq<Item>)
      requires Parameters() && WellFormed(n, S()) && Sized(rect, dims)
      ensures (go, found) == Report(Hits(n, rect), before, callback)
      decreases n
    {
      hide Hits, HitsIn, HitsOf, Belongs, AllBelong, WellFormed, Overlaps, Report;
      found := before;
      NoHits(rect, before, callback);
      WellFormedIff(n, S());
      for index := 0 to |n.branch|
        invariant (true, found) == Report(HitsIn(n.branch[..index], rect), before, callback)
      {
        var b := n.branch[index];
        assert b in n.branch;
        HitsPrefix(n, index, rect);
        ReportAppend(HitsIn(n.branch[..index], rect), HitsOf(b, rect), before, callback);
        ReportAppend(HitsIn(n.branch[..index + 1], rect), HitsIn(n.branch[index + 1..], rect), before, callback);
        var overlaps := Overlap(rect, b.rect, dims);
        if n.level > 0 {
          ChildOf(n, index, S());
          HitsOfInner(b, rect);
          if overlaps {
            go, found := SearchNode(b.child, rect, found, callback);
            if !go { return false, found; }
          } else {
            NoHitsOutside(rect, b, n.level, S(), found, callback);
          }
        } else {
          DataAt(n, index, S());
          HitsOfData(b, rect, found, callback);
          if overlaps {
            found := found + [Item(b.rect, b.id)];
            if !callback(found) { return false, found; }
          }
        }
      }
      assert n.branch[..|n.branch|] == n.branch;
      HitsOfNode(n, rect);
      go := true;
    }

    /** `Search`: reports entries that overlap the rectangle until the callback stops it; returns how many. */
    method Search(min: seq<real>, max: seq<real>, callback: seq<Item> -> bool)
      returns (foundCount: nat, found: seq<Item>)
      requires Valid() && |min| == |max| == dims
      ensures foundCount == |found| && found == Report(Hits(root, Rect(min, max)), [], callback).1
      ensures forall k :: 0 < k < |found| ==> callback(found[..k])
      ensures forall it :: multiset(found)[it] <= if Overlaps(Rect(min, max), it.rect) then Items(root)[it] else 0
      ensures found == [] || callback(found) ==>
        forall it :: multiset(found)[it] == if Overlaps(Rect(min, max), it.rect) then Items(root)[it] else 0
      ensures Proper(Rect(min, max)) && (found == [] || callback(found)) ==>
        forall it: Item :: Proper(it.rect) ==>
          multiset(found)[it] == if SharePoint(Rect(min, max), it.rect) then Items(root)[it] else 0
    {
      hide Hits, HitsIn, HitsOf, Items, ItemsIn, Overlaps, Report, SharePoint, WellFormed;
      var go;
      var rect := Rect(min, max);
      go, found := SearchNode(root, rect, [], callback);
      foundCount := |found|;
      ReportGoesOn(Hits(root, rect), [], callback);
      assert [] + Hits(root, rect) == Hits(root, rect);
      HitsAreTheOverlapping(root, rect);
      BeginningHas(found, Hits(root, rect));
      if Proper(rect) {
        forall it: Item | Proper(it.rect) && it in Items(root)
          ensures Overlaps(rect, it.rect) <==> SharePoint(rect, it.rect)
        {
          StoredSized(root, S(), it);
          SharePointIff(rect, it.rect, dims);
        }
      }
    }
  }

  lemma BeginningHas(a: seq<Item>, b: seq<Item>)
    requires a <= b
    ensures forall it :: multiset(a)[it] <= multiset(b)[it]
  {
    assert b == a + b[|a|..];
  }

  /** Every stored rectangle has the tree's dimension. */
  lemma StoredSized(n: Node, s: Shape, it: Item)
    requires WellFormed(n, s) && it in Items(n)
    ensures Sized(it.rect, s.dims)
  {
    ItemsOfOneBranch(n.branch, it);
    var b :| b in n.branch && it in ItemsOf(b);
    assert Belongs(b, n.level, s);
    if b.Inner? {
      ItemsInside(b.child, s, b.rect, it);
    }
  }

  /** The two rectangles have a point in common. */
  ghost predicate SharePoint(a: Rect, b: Rect) {
    exists p :: Inside(p, a) && Inside(p, b)
  }

  lemma SharePointIff(a: Rect, b: Rect, dims: nat)
    requires Sized(a, dims) && Sized(b, dims) && Proper(a) && Proper(b)
    ensures Overlaps(a, b) <==> SharePoint(a, b)
  {
    OverlapsIff(a, b, dims);
  }

  // ---------------------------------------------------------------------------------------------------------
  // What a node stores

  /** Every well-formed node that is not empty stores something. */
  lemma {:induction false} NotEmptyStores(n: Node, s: Shape)
    requires WellFormed(n, s) && n.branch != []
    ensures exists it :: it in Items(n)
    decreases n
  {
    var b := n.branch[0];
    assert Belongs(b, n.level, s);
    var it;
    if b.Inner? {
      NotEmptyStores(b.child, s);
      it :| it in Items(b.child);
    } else {
      it := Item(b.rect, b.id);
    }
    assert it in ItemsOf(b);
    ItemsOfOneBranch(n.branch, it);
    assert it in Items(n);
  }

  /** No id is stored twice. */
  ghost predicate UniqueIds(items: multiset<Item>) {
    forall a, b :: a in items && b in items && a.id == b.id ==> a == b
  }

  // ---------------------------------------------------------------------------------------------------------
  // Search, without the tree's shortcuts

  ghost function Hits(n: Node, rect: Rect): seq<Item>
    decreases n, 1
  {
    HitsIn(n.branch, rect)
  }

  ghost function HitsIn(bs: seq<Branch>, rect: Rect): seq<Item>
    decreases bs, 0
  {
    if bs == [] then [] else HitsOf(bs[0], rect) + HitsIn(bs[1..], rect)
  }

  ghost function HitsOf(b: Branch, rect: Rect): seq<Item>
    decreases b, 2
  {
    match b
    case Data(r, id) => if Overlaps(rect, r) then [Item(r, id)] else []
    case Inner(_, n) => Hits(n, rect)
  }

  function Report(hits: seq<Item>, before: seq<Item>, callback: seq<Item> -> bool): (bool, seq<Item>) {
    if hits == [] then (true, before)
    else if callback(before + [hits[0]]) then Report(hits[1..], before + [hits[0]], callback)
    else (false, before + [hits[0]])
  }

  /** The brute-force filter: each stored entry that overlaps is a hit, as often as it is stored, and nothing else. */
  lemma {:induction false} HitsAreTheOverlapping(n: Node, rect: Rect)
    ensures forall it :: multiset(Hits(n, rect))[it] == if Overlaps(rect, it.rect) then Items(n)[it] else 0
    decreases n, 1
  {
    HitsInAreTheOverlapping(n.branch, rect);
  }

  lemma {:induction false} HitsInAreTheOverlapping(bs: seq<Branch>, rect: Rect)
    ensures forall it :: multiset(HitsIn(bs, rect))[it] == if Overlaps(rect, it.rect) then ItemsIn(bs)[it] else 0
    decreases bs, 0
  {
    hide Overlaps;
    if bs != [] {
      HitsOfAreTheOverlapping(bs[0], rect);
      HitsInAreTheOverlapping(bs[1..], rect);
    }
  }

  lemma {:induction false} HitsOfAreTheOverlapping(b: Branch, rect: Rect)
    ensures forall it :: multiset(HitsOf(b, rect))[it] == if Overlaps(rect, it.rect) then ItemsOf(b)[it] else 0
    decreases b, 2
  {
    hide Overlaps;
    if b.Inner? {
      HitsAreTheOverlapping(b.child, rect);
    }
  }

  lemma {:induction false} ReportAppend(a: seq<Item>, b: seq<Item>, before: seq<Item>, callback: seq<Item> -> bool)
    ensures Report(a + b, before, callback) ==
      var r := Report(a, before, callback); if r.0 then Report(b, r.1, callback) else r
  {
    if a == [] {
      assert a + b == b;
    } else {
      assert (a + b)[1..] == a[1..] + b;
      ReportAppend(a[1..], b, before + [a[0]], callback);
    }
  }

  /** The callback is called after every hit and goes on until it stops the search or all hits are reported. */
  lemma {:induction false} ReportGoesOn(hits: seq<Item>, before: seq<Item>, callback: seq<Item> -> bool)
    ensures var (go, found) := Report(hits, before, callback);
      && before <= found <= before + hits
      && (forall k :: |before| < k < |found| ==> callback(found[..k]))
      && (if go then found == before + hits && (found == before || callback(found)) else !callback(found))
      && (go || |found| > |before|)
  {
    if hits != [] {
      var more := before + [hits[0]];
      assert more + hits[1..] == before + hits;
      if callback(more) {
        ReportGoesOn(hits[1..], more, callback);
        var found := Report(hits[1..], more, callback).1;
        assert found[..|more|] == more;
      }
    } else {
      assert before + [] == before;
    }
  }

  lemma {:induction false} ReportAll(hits: seq<Item>, before: seq<Item>, callback: seq<Item> -> bool)
    requires forall f :: callback(f)
    ensures Report(hits, before, callback) == (true, before + hits)
  {
    if hits != [] {
      ReportAll(hits[1..], before + [hits[0]], callback);
      assert before + [hits[0]] + hits[1..] == before + hits;
    } else {
      assert before + [] == before;
    }
  }

  lemma {:induction false} HitsAppend(a: seq<Branch>, b: seq<Branch>, rect: Rect)
    ensures HitsIn(a + b, rect) == HitsIn(a, rect) + HitsIn(b, rect)
  {
    if a == [] {
      assert a + b == b;
    } else {
      HitsAppend(a[1..], b, rect);
      assert (a + b)[1..] == a[1..] + b;
    }
  }

  lemma HitsPrefix(n: Node, index: nat, rect: Rect)
    requires index < |n.branch|
    ensures HitsIn(n.branch[..index + 1], rect) == HitsIn(n.branch[..index], rect) + HitsOf(n.branch[index], rect)
    ensures Hits(n, rect) == HitsIn(n.branch[..index + 1], rect) + HitsIn(n.branch[index + 1..], rect)
  {
    assert n.branch[..index + 1] == n.branch[..index] + [n.branch[index]];
    assert n.branch == n.branch[..index + 1] + n.branch[index + 1..];
    HitsAppend(n.branch[..index], [n.branch[index]], rect);
    HitsAppend(n.branch[..index + 1], n.branch[index + 1..], rect);
  }

  lemma NoHits(rect: Rect, before: seq<Item>, callback: seq<Item> -> bool)
    ensures Report(HitsIn([], rect), before, callback) == (true, before)
  {
  }

  lemma HitsOfNode(n: Node, rect: Rect)
    ensures Hits(n, rect) == HitsIn(n.branch, rect)
  {
  }

  lemma HitsOfInner(b: Branch, rect: Rect)
    requires b.Inner?
    ensures HitsOf(b, rect) == Hits(b.child, rect)
  {
  }

  lemma HitsOfData(b: Branch, rect: Rect, before: seq<Item>, callback: seq<Item> -> bool)
    requires b.Data?
    ensures Report(HitsOf(b, rect), before, callback) ==
      if Overlaps(rect, b.rect) then (callback(before + [Item(b.rect, b.id)]), before + [Item(b.rect, b.id)])
        else (true, before)
  {
  }

  /** A branch whose rectangle does not overlap holds no hit. */
  lemma NoHitsOutside(rect: Rect, b: Branch, level: nat, s: Shape, before: seq<Item>, callback: seq<Item> -> bool)
    requires b.Inner? && Belongs(b, level, s) && Sized(rect, s.dims) && !Overlaps(rect, b.rect)
    ensures Report(HitsOf(b, rect), before, callback) == (true, before)
  {
    hide Overlaps;
    HitsAreTheOverlapping(b.child, rect);
    if HitsOf(b, rect) != [] {
      var it := HitsOf(b, rect)[0];
      assert it in multiset(Hits(b.child, rect));
      ItemsInside(b.child, s, b.rect, it);
      OverlapGrows(rect, b.rect, it.rect);
    }
  }

  ghost predicate NothingToRemove(rect: Rect, id: Id, b: Branch) {
    forall it :: it in ItemsOf(b) && it.id == id ==> !Overlaps(rect, it.rect)
  }

  lemma FoundNothing(rect: Rect, id: Id, b: Branch)
    requires b.Inner? && forall it :: it in Items(b.child) && it.id == id ==> !Overlaps(rect, it.rect)
    ensures NothingToRemove(rect, id, b)
  {
  }

  lemma OutsideBranch(rect: Rect, id: Id, b: Branch, level: nat, s: Shape)
    requires b.Inner? && Belongs(b, level, s) && Sized(rect, s.dims) && !Overlaps(rect, b.rect)
    ensures NothingToRemove(rect, id, b)
  {
    forall it | it in ItemsOf(b) && it.id == id ensures !Overlaps(rect, it.rect) {
      ItemsInside(b.child, s, b.rect, it);
      if Overlaps(rect, it.rect) { OverlapGrows(rect, b.rect, it.rect); }
    }
  }

  lemma OtherData(rect: Rect, id: Id, b: Branch)
    requires b.Data? && b.id != id
    ensures NothingToRemove(rect, id, b)
  {
  }

  lemma NothingInNode(rect: Rect, id: Id, n: Node)
    requires forall k :: 0 <= k < |n.branch| ==> NothingToRemove(rect, id, n.branch[k])
    ensures forall it :: it in Items(n) && it.id == id ==> !Overlaps(rect, it.rect)
  {
    forall it | it in Items(n) && it.id == id ensures !Overlaps(rect, it.rect) {
      ItemsOfOneBranch(n.branch, it);
      var b :| b in n.branch && it in ItemsOf(b);
    }
  }

  lemma DataAt(n: Node, i: nat, s: Shape)
    requires WellFormed(n, s) && n.level == 0 && i < |n.branch|
    ensures n.branch[i].Data?
  {
    assert Belongs(n.branch[i], 0, s);
  }

  function ItemsInAll(ns: seq<Node>): multiset<Item> {
    if ns == [] then multiset{} else Items(ns[0]) + ItemsInAll(ns[1..])
  }

  /** What a removal below a node leaves: the node with at most one branch fewer, nodes set aside that lie below it, and
      together all that was stored except the entry that is gone. */
  ghost predicate Removed(n: Node, m: Node, orphans: seq<Node>, gone: Item, s: Shape, minNodes: nat) {
    && WellFormed(m, s) && m.level == n.level && |m.branch| + 1 >= |n.branch| && |m.branch| <= |n.branch|
    && (forall q :: Covers(q, n.branch) ==> Covers(q, m.branch))
    && (forall o :: o in orphans ==> WellFormed(o, s) && o.level < n.level && |o.branch| < minNodes)
    && Items(m) + ItemsInAll(orphans) + multiset{gone} == Items(n)
    && exists i: nat :: ChangedAt(n, m, i, gone)
  }

  /** Only one branch is another or gone, one that the entry was stored below. */
  ghost predicate ChangedAt(n: Node, m: Node, i: nat, gone: Item) {
    && i < |n.branch| && gone in ItemsOf(n.branch[i])
    && (m.branch == Disconnect(n.branch, i) || (i < |m.branch| && m.branch == n.branch[i := m.branch[i]]))
  }

  /** A removal after which nothing was left to be inserted again. */
  ghost predicate OneLess(n: Node, m: Node, gone: Item) {
    m.level == n.level && Items(m) + multiset{gone} == Items(n) && exists i: nat :: ChangedAt(n, m, i, gone)
  }

  /** A root with a single child gives way to it, once. */
  function WithoutIdleRoot(n: Node): Node {
    if |n.branch| == 1 && n.branch[0].Inner? then n.branch[0].child else n
  }

  lemma NothingSetAside(orphans: seq<Node>)
    requires forall o :: o in orphans ==> o.branch == []
    ensures ItemsInAll(orphans) == multiset{}
  {
    if orphans != [] {
      assert orphans[0].branch == [] && Items(orphans[0]) == multiset{};
      NothingSetAside(orphans[1..]);
    }
  }

  lemma DropData(n: Node, i: nat, s: Shape, minNodes: nat)
    requires WellFormed(n, s) && n.level == 0 && i < |n.branch| && n.branch[i].Data?
    ensures Removed(n, Node(0, Disconnect(n.branch, i)), [], Item(n.branch[i].rect, n.branch[i].id), s, minNodes)
  {
    DropBranch(n, i, s);
    assert ChangedAt(n, Node(0, Disconnect(n.branch, i)), i, Item(n.branch[i].rect, n.branch[i].id));
  }
}
