/** Runs of the R-tree from its constructor that show where its parameters matter: with which of them a split leaves a
    node short of `minNodes` entries, and with which of them a removal leaves an internal root without any child. */
module RTreeRuns {
  import opened Rects
  import opened RTreeModel
  import opened RTree

  /** The same rectangle is given to every entry. */
  function Origin(dims: nat): (r: Rect)
    ensures Sized(r, dims) && Proper(r)
  {
    Rect(seq(dims, _ => 0.0), seq(dims, _ => 0.0))
  }

  /** Entries with numbers below `n`, each stored once. */
  ghost predicate Numbered(items: multiset<Item>, dims: nat, n: nat) {
    forall it :: it in items ==> it.rect == Origin(dims) && it.id < n && items[it] == 1
  }

  lemma {:induction false} CapacityGrows(most: nat, low: nat, high: nat)
    requires most > 0 && low <= high
    ensures Capacity(most, low) <= Capacity(most, high)
    decreases high
  {
    if low < high {
      CapacityGrows(most, low, high - 1);
      TimesGrows(1, most, Capacity(most, high - 1));
    }
  }

  // ---------------------------------------------------------------------------------------------------------
  // Minimum fill

  /** With parameters that allow it, every node of every tree but its root has at least `minNodes` entries. */
  lemma AlwaysFilled(t: RTree)
    requires t.Valid() && 2 * t.minNodes <= t.maxNodes + 1
    ensures Filled(t.root, t.minNodes)
  {
    FilledByShape(t.root, t.S());
  }

  /** Insertions into an empty tree until it has grown to a level. */
  method GrowTo(t: RTree, level: nat) returns (n: nat)
    requires t.Valid() && t.root == Node(0, []) && Items(t.root) == multiset{} && level > 0
    modifies t
    ensures t.Valid() && Tree(t.root, t.S()) && t.root.level == level && Numbered(Items(t.root), t.dims, n)
    ensures Filled(t.root, t.minNodes) <==> 2 * t.minNodes <= t.maxNodes + 1
  {
    hide Filled, Items, WellFormed, Capacity;
    n := 0;
    while t.root.level < level
      invariant t.Valid() && Tree(t.root, t.S()) && t.root.level <= level
      invariant Numbered(Items(t.root), t.dims, n) && |Items(t.root)| == n <= Capacity(t.maxNodes, t.root.level)
      invariant t.root.level == level ==> (Filled(t.root, t.minNodes) <==> 2 * t.minNodes <= t.maxNodes + 1)
      decreases Capacity(t.maxNodes, level) - n
    {
      var r := Origin(t.dims);
      t.Insert(r.min, r.max, n);
      n := n + 1;
      StoresAtMost(t.root, t.S());
      CapacityGrows(t.maxNodes, t.root.level, level);
    }
  }

  /** Whatever areas are, the first split of a tree leaves a node too small exactly for the other parameters. */
  method FirstSplit(maxNodes: nat, minNodes: nat, dims: nat, volume: Rect -> real) returns (t: RTree)
    requires maxNodes > minNodes > 0
    ensures fresh(t) && t.Valid() && t.root.level == 1 && t.maxNodes == maxNodes && t.minNodes == minNodes
    ensures Filled(t.root, minNodes) <==> 2 * minNodes <= maxNodes + 1
  {
    t := new RTree(maxNodes, minNodes, dims, volume);
    var _ := GrowTo(t, 1);
  }

  // ---------------------------------------------------------------------------------------------------------
  // The root without children

  /** An entry that is stored below a node. */
  function Some(n: Node, s: Shape): (it: Item)
    requires WellFormed(n, s) && n.branch != []
    ensures it in Items(n)
    decreases n
  {
    SomeBelongs(n, s);
    var b := n.branch[0];
    if b.Inner? then Some(b.child, s) else Item(b.rect, b.id)
  }

  lemma SomeBelongs(n: Node, s: Shape)
    requires WellFormed(n, s) && n.branch != []
    ensures Belongs(n.branch[0], n.level, s)
    ensures forall it :: it in ItemsOf(n.branch[0]) ==> it in Items(n)
  {
    assert n.branch[0] in n.branch;
    forall it | it in ItemsOf(n.branch[0]) ensures it in Items(n) {
      ItemsOfOneBranch(n.branch, it);
    }
  }

  lemma StoredTwice(bs: seq<Branch>, i: nat, j: nat, it: Item)
    requires i < j < |bs| && it in ItemsOf(bs[i]) && it in ItemsOf(bs[j])
    ensures ItemsIn(bs)[it] >= 2
  {
    hide ItemsOf, ItemsIn;
    ItemsSplit(bs, j);
    ItemsSplit(bs[..j], i);
  }

  /** Branch `i` stores one entry less, or is gone with its only entry. */
  ghost predicate Thinner(n: Node, m: Node, i: nat) {
    && i < |n.branch| && m.level == n.level
    && (|| (i < |m.branch| && m.branch == n.branch[i := m.branch[i]] &&
      |ItemsOf(m.branch[i])| + 1 == |ItemsOf(n.branch[i])|)
        || (m.branch == Disconnect(n.branch, i) && |ItemsOf(n.branch[i])| == 1))
  }

  lemma Rest(less: multiset<Item>, new': multiset<Item>, old': multiset<Item>, all: multiset<Item>, gone: Item)
    requires less + old' == all + new' && less + multiset{gone} == all
    ensures old' == new' + multiset{gone}
  {
    forall x ensures old'[x] == (new' + multiset{gone})[x] {
      assert (less + old')[x] == (all + new')[x] && (less + multiset{gone})[x] == all[x];
    }
  }

  lemma ThinnerAt(n: Node, m: Node, i: nat, gone: Item)
    requires OneLess(n, m, gone) && i < |n.branch| && gone in ItemsOf(n.branch[i]) && Items(n)[gone] == 1
    ensures Thinner(n, m, i)
  {
    hide ItemsIn, ItemsOf;
    var j: nat :| ChangedAt(n, m, j, gone);
    if i < j { StoredTwice(n.branch, i, j, gone); }
    if j < i { StoredTwice(n.branch, j, i, gone); }
    if m.branch == Disconnect(n.branch, i) {
      ItemsDisconnect(n.branch, i);
      Rest(ItemsIn(m.branch), multiset{}, ItemsOf(n.branch[i]), ItemsIn(n.branch), gone);
    } else {
      ItemsUpdate(n.branch, i, m.branch[i]);
      Rest(ItemsIn(m.branch), ItemsOf(m.branch[i]), ItemsOf(n.branch[i]), ItemsIn(n.branch), gone);
    }
  }

  /** Removes an entry that is stored below a branch of the root. */
  method RemoveBelow(t: RTree, i: nat, ghost n: nat) returns (ghost m: Node)
    requires t.Valid() && t.minNodes == 1 && t.root.level > 0 && i < |t.root.branch|
    requires Numbered(Items(t.root), t.dims, n)
    modifies t
    ensures t.Valid() && Numbered(Items(t.root), t.dims, n)
    ensures Thinner(old(t.root), m, i) && t.root == WithoutIdleRoot(m) && |Items(t.root)| < |Items(old(t.root))|
  {
    hide Items, ItemsOf, WellFormed, OneLess, Thinner;
    ChildOf(t.root, i, t.S());
    var it := Some(t.root.branch[i].child, t.S());
    ghost var was := t.root;
    RTree.ItemsOfInner(was.branch[i]);
    ItemsOfOneBranch(was.branch, it);
    RTree.ItemsOfNode(was);
    assert it in Items(was);
    var notFound, gone := t.Remove(it.rect.min, it.rect.max, it.id);
    assert Rect(it.rect.min, it.rect.max) == it.rect;
    m :| OneLess(was, m, gone) && t.root == WithoutIdleRoot(m);
    ThinnerAt(was, m, i, it);
  }

  lemma BranchStores(n: Node, i: nat, s: Shape)
    requires WellFormed(n, s) && n.level > 0 && i < |n.branch|
    ensures n.branch[i].Inner? && n.branch[i].child.level + 1 == n.level && |ItemsOf(n.branch[i])| >= 1
  {
    ChildOf(n, i, s);
    var it := Some(n.branch[i].child, s);
    assert it in ItemsOf(n.branch[i]);
  }

  /** Thins the first child of the root until it stores a single entry; the others stay. */
  method ThinFirst(t: RTree, ghost n: nat)
    requires t.Valid() && t.minNodes == 1 && t.root.level > 1 && |t.root.branch| >= 2
    requires Numbered(Items(t.root), t.dims, n)
    modifies t
    ensures t.Valid() && t.root.level == old(t.root.level) && |t.root.branch| >= 2 && Numbered(Items(t.root), t.dims, n)
    ensures |ItemsOf(t.root.branch[0])| == 1
  {
    hide Items, ItemsOf, WellFormed;
    BranchStores(t.root, 0, t.S());
    while |ItemsOf(t.root.branch[0])| > 1
      invariant t.Valid() && t.root.level == old(t.root.level) && |t.root.branch| >= 2
      invariant Numbered(Items(t.root), t.dims, n)
      invariant |ItemsOf(t.root.branch[0])| >= 1
      decreases |ItemsOf(t.root.branch[0])|
    {
      var m := RemoveBelow(t, 0, n);
      BranchStores(t.root, 0, t.S());
    }
  }

  lemma RootWithout(m: Node)
    ensures |m.branch| >= 2 ==> WithoutIdleRoot(m) == m
    ensures |m.branch| == 1 && m.branch[0].Inner? ==> Items(WithoutIdleRoot(m)) == ItemsOf(m.branch[0])
  {
  }

  /** Removes what the other children store; when only the first one is left, it becomes the root. */
  method DropOthers(t: RTree, ghost n: nat)
    requires t.Valid() && t.minNodes == 1 && t.root.level > 1 && |t.root.branch| >= 2
    requires Numbered(Items(t.root), t.dims, n)
    requires |ItemsOf(t.root.branch[0])| == 1
    modifies t
    ensures t.Valid() && t.root.level == old(t.root.level) - 1 && |Items(t.root)| == 1
    ensures Numbered(Items(t.root), t.dims, n)
  {
    hide Items, ItemsOf, WellFormed;
    var level := t.root.level;
    while t.root.level == level
      invariant t.Valid() && t.minNodes == 1 && Numbered(Items(t.root), t.dims, n)
      invariant t.root.level == level ==> |t.root.branch| >= 2 && |ItemsOf(t.root.branch[0])| == 1
      invariant t.root.level != level ==> t.root.level == level - 1 && |Items(t.root)| == 1
      decreases t.root.level, |Items(t.root)|
    {
      BranchStores(t.root, 0, t.S());
      BranchStores(t.root, 1, t.S());
      var m := RemoveBelow(t, 1, n);
      RootWithout(m);
    }
  }

  /** With `minNodes` of one there is a run to an internal root without children, whatever the other parameters. */
  method NoChildLeft(maxNodes: nat, dims: nat, volume: Rect -> real) returns (t: RTree)
    requires maxNodes > 1
    ensures fresh(t) && t.Valid() && t.maxNodes == maxNodes && t.minNodes == 1
    ensures t.root.level > 0 && t.root.branch == [] && !t.HasWayDown()
  {
    t := new RTree(maxNodes, 1, dims, volume);
    var n := GrowTo(t, 2);
    ThinFirst(t, n);
    DropOthers(t, n);
    var it := Some(t.root, t.S());
    var _, gone := t.Remove(it.rect.min, it.rect.max, it.id);
  }
}
