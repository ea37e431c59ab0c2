/** The nodes of the R-tree of Project/Public/2D/RTree.h as values: what they store, and when they are well formed. */
module RTreeModel {
  import opened Rects

  type Id = nat

  datatype Item = Item(rect: Rect, id: Id)

  /** Level 0 is a leaf and holds data; every higher level holds children of the level below. */
  datatype Node = Node(level: nat, branch: seq<Branch>)
  datatype Branch = Data(rect: Rect, id: Id) | Inner(rect: Rect, child: Node)

  /** The most entries of a node, the fewest of a node that is not the root, and the dimension of all rectangles. */
  datatype Shape = Shape(most: nat, fewest: nat, dims: nat)

  // ---------------------------------------------------------------------------------------------------------
  // Contents

  function Items(n: Node): multiset<Item>
    decreases n, 1
  {
    ItemsIn(n.branch)
  }

  function ItemsIn(bs: seq<Branch>): multiset<Item>
    decreases bs, 0
  {
    if bs == [] then multiset{} else ItemsOf(bs[0]) + ItemsIn(bs[1..])
  }

  function ItemsOf(b: Branch): multiset<Item>
    decreases b, 2
  {
    match b
    case Data(r, id) => multiset{Item(r, id)}
    case Inner(_, n) => Items(n)
  }

  lemma {:induction false} ItemsAppend(a: seq<Branch>, b: seq<Branch>)
    ensures ItemsIn(a + b) == ItemsIn(a) + ItemsIn(b)
  {
    hide ItemsIn, ItemsOf;
    ItemsFirst(a);
    ItemsFirst(a + b);
    if a == [] {
      assert a + b == b;
    } else {
      ItemsAppend(a[1..], b);
      assert (a + b)[1..] == a[1..] + b;
    }
  }

  lemma ItemsFirst(bs: seq<Branch>)
    ensures ItemsIn(bs) == if bs == [] then multiset{} else ItemsOf(bs[0]) + ItemsIn(bs[1..])
  {
  }

  lemma ItemsOne(b: Branch)
    ensures ItemsIn([b]) == ItemsOf(b)
  {
  }

  lemma ItemsSplit(bs: seq<Branch>, i: nat)
    requires i < |bs|
    ensures ItemsIn(bs) == ItemsIn(bs[..i]) + ItemsOf(bs[i]) + ItemsIn(bs[i + 1..])
  {
    hide ItemsIn, ItemsOf;
    ItemsAppend(bs[..i], bs[i..]);
    ItemsAppend([bs[i]], bs[i + 1..]);
    ItemsOne(bs[i]);
    assert bs == bs[..i] + bs[i..] && bs[i..] == [bs[i]] + bs[i + 1..];
  }

  lemma ItemsUpdate(bs: seq<Branch>, i: nat, b: Branch)
    requires i < |bs|
    ensures ItemsIn(bs[i := b]) + ItemsOf(bs[i]) == ItemsIn(bs) + ItemsOf(b)
  {
    hide ItemsIn, ItemsOf;
    ItemsSplit(bs, i);
    ItemsSplit(bs[i := b], i);
    assert bs[i := b][..i] == bs[..i] && bs[i := b][i + 1..] == bs[i + 1..];
  }

  lemma Cancel<T>(a: multiset<T>, b: multiset<T>, c: multiset<T>)
    requires a + c == b + c
    ensures a == b
  {
    forall x ensures a[x] == b[x] {
      assert (a + c)[x] == (b + c)[x];
    }
  }

  lemma Exchange<T>(a: multiset<T>, n1: multiset<T>, other: multiset<T>, kid: multiset<T>, n: multiset<T>,
      child: multiset<T>, b: multiset<T>)
    requires a == n1 + other && n1 + kid == n + child && child + other == kid + b
    ensures a == n + b
  {
    forall x ensures a[x] == (n + b)[x] {
      assert (n1 + kid)[x] == (n + child)[x] && (child + other)[x] == (kid + b)[x];
    }
  }

  lemma Exchange3<T>(m: multiset<T>, child: multiset<T>, n: multiset<T>, kid: multiset<T>, lost: multiset<T>,
      gone: multiset<T>)
    requires m + child == n + kid && kid + lost + gone == child
    ensures m + lost + gone == n
  {
    forall x ensures (m + lost + gone)[x] == n[x] {
      assert (m + child)[x] == (n + kid)[x] && (kid + lost + gone)[x] == child[x];
    }
  }

  /** `DisconnectBranch`: the last branch takes the place of the one that goes. */
  function Disconnect(bs: seq<Branch>, i: nat): seq<Branch>
    requires i < |bs|
  {
    bs[i := bs[|bs| - 1]][..|bs| - 1]
  }

  lemma ItemsDisconnect(bs: seq<Branch>, i: nat)
    requires i < |bs|
    ensures ItemsIn(Disconnect(bs, i)) + ItemsOf(bs[i]) == ItemsIn(bs)
  {
    hide ItemsIn, ItemsOf;
    var last := |bs| - 1;
    ItemsUpdate(bs, i, bs[last]);
    var u := bs[i := bs[last]];
    ItemsAppend(u[..last], [bs[last]]);
    ItemsOne(bs[last]);
    assert u == u[..last] + [bs[last]];
    Cancel(ItemsIn(Disconnect(bs, i)) + ItemsOf(bs[i]), ItemsIn(bs), ItemsOf(bs[last]));
  }

  lemma {:induction false} ItemsOfOneBranch(bs: seq<Branch>, it: Item)
    ensures it in ItemsIn(bs) <==> exists b :: b in bs && it in ItemsOf(b)
  {
    if bs != [] {
      ItemsOfOneBranch(bs[1..], it);
      if it in ItemsIn(bs) && it !in ItemsOf(bs[0]) {
        var b :| b in bs[1..] && it in ItemsOf(b);
        assert b in bs;
      }
      if b :| b in bs && it in ItemsOf(b) {
        assert b == bs[0] || b in bs[1..];
      }
    }
  }

  // ---------------------------------------------------------------------------------------------------------
  // Well-formedness

  ghost predicate Covers(r: Rect, bs: seq<Branch>) {
    forall b :: b in bs ==> Contains(r, b.rect)
  }

  /** A branch that belongs into a node of the given level. */
  ghost predicate Belongs(b: Branch, level: nat, s: Shape)
    decreases b, 1
  {
    && Sized(b.rect, s.dims)
    && match b
       case Data(_, _) => level == 0
       case Inner(r, n) =>
         level == n.level + 1 && s.fewest <= |n.branch| && n.branch != [] && Covers(r, n.branch) && WellFormed(n, s)
  }

  ghost predicate AllBelong(bs: seq<Branch>, level: nat, s: Shape)
    decreases bs, 2
  {
    forall b :: b in bs ==> Belongs(b, level, s)
  }

  ghost predicate WellFormed(n: Node, s: Shape)
    decreases n, 3
  {
    |n.branch| <= s.most && AllBelong(n.branch, n.level, s)
  }

  lemma WellFormedIff(n: Node, s: Shape)
    ensures WellFormed(n, s) <==> |n.branch| <= s.most && forall b :: b in n.branch ==> Belongs(b, n.level, s)
    ensures WellFormed(n, s) ==> forall b :: b in n.branch ==> Sized(b.rect, s.dims)
  {
  }

  lemma ChildOf(n: Node, i: nat, s: Shape)
    requires WellFormed(n, s) && i < |n.branch| && n.level > 0
    ensures n.branch[i].Inner? && Sized(n.branch[i].rect, s.dims)
    ensures var c := n.branch[i].child;
            && WellFormed(c, s) && c.level + 1 == n.level && c.branch != [] && |c.branch| >= s.fewest
            && Covers(n.branch[i].rect, c.branch)
  {
    assert Belongs(n.branch[i], n.level, s);
  }

  lemma NewChild(r: Rect, c: Node, s: Shape)
    requires Sized(r, s.dims) && WellFormed(c, s) && |c.branch| >= s.fewest && c.branch != [] && Covers(r, c.branch)
    ensures Belongs(Inner(r, c), c.level + 1, s) && ItemsOf(Inner(r, c)) == Items(c)
  {
  }

  lemma ReplaceBranch(n: Node, i: nat, b: Branch, s: Shape)
    requires WellFormed(n, s) && i < |n.branch| && Belongs(b, n.level, s)
    ensures WellFormed(Node(n.level, n.branch[i := b]), s)
    ensures Items(Node(n.level, n.branch[i := b])) + ItemsOf(n.branch[i]) == Items(n) + ItemsOf(b)
  {
    WellFormedIff(n, s);
    WellFormedIff(Node(n.level, n.branch[i := b]), s);
    ItemsUpdate(n.branch, i, b);
  }

  lemma DropBranch(n: Node, i: nat, s: Shape)
    requires WellFormed(n, s) && i < |n.branch|
    ensures WellFormed(Node(n.level, Disconnect(n.branch, i)), s)
    ensures Items(Node(n.level, Disconnect(n.branch, i))) + ItemsOf(n.branch[i]) == Items(n)
  {
    WellFormedIff(n, s);
    WellFormedIff(Node(n.level, Disconnect(n.branch, i)), s);
    ItemsDisconnect(n.branch, i);
  }

  /** Every rectangle around the old branches and the added one is also around the new branches. */
  ghost predicate Within(old': seq<Branch>, r: Rect, new': seq<Branch>) {
    forall q :: Covers(q, old') && Contains(q, r) ==> Covers(q, new')
  }

  /** A whole tree: an internal root has at least two children. */
  ghost predicate Tree(n: Node, s: Shape) {
    WellFormed(n, s) && (n.level > 0 ==> |n.branch| >= 2)
  }

  /** Data in a subtree lies in the rectangle of the subtree's branch. */
  lemma {:induction false} ItemsInside(n: Node, s: Shape, r: Rect, it: Item)
    requires WellFormed(n, s) && Covers(r, n.branch) && it in Items(n)
    ensures Contains(r, it.rect) && Sized(it.rect, s.dims)
    decreases n
  {
    ItemsOfOneBranch(n.branch, it);
    var b :| b in n.branch && it in ItemsOf(b);
    assert Belongs(b, n.level, s);
    if b.Inner? {
      ItemsInside(b.child, s, b.rect, it);
      ContainsTransitive(r, b.rect, it.rect);
    }
  }

  /** An entry is stored at the end of a path of `depth` steps down. */
  ghost predicate StoredAt(n: Node, it: Item, depth: nat)
    decreases n
  {
    exists b :: b in n.branch && EndsIn(b, it, depth)
  }

  ghost predicate EndsIn(b: Branch, it: Item, depth: nat)
    decreases b
  {
    if b.Data? then depth == 0 && it == Item(b.rect, b.id) else depth > 0 && StoredAt(b.child, it, depth - 1)
  }

  /** The tree is balanced: what it stores is stored at the depth of the root's level, and nothing anywhere else. */
  lemma {:induction false} AllAtOneDepth(n: Node, s: Shape, it: Item, depth: nat)
    requires WellFormed(n, s)
    ensures StoredAt(n, it, depth) <==> it in Items(n) && depth == n.level
    decreases n
  {
    ItemsOfOneBranch(n.branch, it);
    forall b | b in n.branch
      ensures EndsIn(b, it, depth) <==> it in ItemsOf(b) && depth == n.level
    {
      assert Belongs(b, n.level, s);
      if b.Inner? && depth > 0 { AllAtOneDepth(b.child, s, it, depth - 1); }
    }
  }

  /** Every node below this one has at least `k` entries. */
  ghost predicate Filled(n: Node, k: nat) {
    forall b :: b in n.branch && b.Inner? ==> |b.child.branch| >= k && Filled(b.child, k)
  }

  lemma {:induction false} FilledByShape(n: Node, s: Shape)
    requires WellFormed(n, s)
    ensures Filled(n, s.fewest)
    decreases n
  {
    forall b | b in n.branch && b.Inner? ensures |b.child.branch| >= s.fewest && Filled(b.child, s.fewest) {
      assert Belongs(b, n.level, s);
      FilledByShape(b.child, s);
    }
  }

  /** How many entries a tree of a level can store. */
  function Capacity(most: nat, level: nat): nat {
    if level == 0 then most else most * Capacity(most, level - 1)
  }

  lemma {:induction false} StoresAtMost(n: Node, s: Shape)
    requires WellFormed(n, s)
    ensures |Items(n)| <= Capacity(s.most, n.level)
    decreases n
  {
    forall b | b in n.branch ensures |ItemsOf(b)| <= if n.level == 0 then 1 else Capacity(s.most, n.level - 1) {
      assert Belongs(b, n.level, s);
      if b.Inner? { StoresAtMost(b.child, s); }
    }
    StoreAtMost(n.branch, if n.level == 0 then 1 else Capacity(s.most, n.level - 1));
    if n.level > 0 { TimesGrows(|n.branch|, s.most, Capacity(s.most, n.level - 1)); }
  }

  lemma {:induction false} StoreAtMost(bs: seq<Branch>, each: nat)
    requires forall b :: b in bs ==> |ItemsOf(b)| <= each
    ensures |ItemsIn(bs)| <= |bs| * each
  {
    if bs != [] {
      hide ItemsOf, ItemsIn;
      StoreAtMost(bs[1..], each);
      ItemsAppend([bs[0]], bs[1..]);
      ItemsOne(bs[0]);
      assert bs == [bs[0]] + bs[1..];
      OneMore(|bs|, each);
    }
  }

  lemma OneMore(n: nat, each: nat)
    requires n > 0
    ensures n * each == (n - 1) * each + each
  {
  }

  lemma TimesGrows(a: nat, b: nat, c: nat)
    requires a <= b
    ensures a * c <= b * c
  {
  }
}
