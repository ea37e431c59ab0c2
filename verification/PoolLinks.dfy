/** The doubly linked lists of Project/Public/TDynPool.h: `InsertHead` and `RemoveNode`, on the memory that the nodes
    live in.  A node that is not allocated has no entry, so a step that followed a dangling pointer would not be
    defined. */
module PoolLinks {
  import opened Seqs
  import opened Chains

  datatype Links<T> = Links(root: Ptr<T>, next: map<T, Ptr<T>>, prev: map<T, Ptr<T>>)

  predicate Allocated<T(==)>(l: Links<T>, x: T) {
    x in l.next && x in l.prev
  }

  predicate Reaches<T(==)>(l: Links<T>, p: Ptr<T>) {
    p.To? ==> Allocated(l, p.node)
  }

  function InsertHead<T(==)>(l: Links<T>, x: T): Links<T>
    requires Allocated(l, x) && Reaches(l, l.root)
  {
    Links(To(x), l.next[x := l.root], if l.root.To? then l.prev[l.root.node := To(x)] else l.prev)
  }

  function RemoveNode<T(==)>(l: Links<T>, x: T): Links<T>
    requires Allocated(l, x) && Reaches(l, l.next[x]) && Reaches(l, l.prev[x])
  {
    var n, p := l.next[x], l.prev[x];
    var prev := if n.To? then l.prev[n.node := p] else l.prev;
    var next := if p.To? then l.next[p.node := n] else l.next;
    Links(l.root, next[x := Null], prev[x := Null])
  }

  /** From the root the links spell `s`, forwards and backwards. */
  ghost predicate Spells<T(!new)>(l: Links<T>, s: seq<T>) {
    && NoDup(s)
    && l.root == At(s, 0)
    && (forall x :: x in s ==> Allocated(l, x))
    && (forall i {:trigger l.next[s[i]]} :: 0 <= i < |s| ==> s[i] in l.next && l.next[s[i]] == At(s, i + 1))
    && (forall i {:trigger l.prev[s[i]]} :: 0 <= i < |s| ==> s[i] in l.prev && l.prev[s[i]] == At(s, i - 1))
  }

  /** A node that is in no list. */
  predicate Loose<T(==)>(l: Links<T>, x: T) {
    Allocated(l, x) && l.next[x] == Null && l.prev[x] == Null
  }

  ghost predicate SameNode<T(!new)>(l: Links<T>, m: Links<T>, x: T) {
    (x in m.next <==> x in l.next) && (x in m.prev <==> x in l.prev)
    && (Allocated(l, x) ==> m.next[x] == l.next[x] && m.prev[x] == l.prev[x])
  }

  lemma InsertHeadSpells<T(!new)>(l: Links<T>, s: seq<T>, x: T)
    requires Spells(l, s) && x !in s && Allocated(l, x) && l.prev[x] == Null
    ensures Reaches(l, l.root) && Spells(InsertHead(l, x), [x] + s)
    ensures forall y :: y !in s && y != x ==> SameNode(l, InsertHead(l, x), y)
  {
    var m, t := InsertHead(l, x), [x] + s;
    assert t[1..] == s;
    forall i | 0 <= i < |t| ensures t[i] in m.next && m.next[t[i]] == At(t, i + 1) {
      if i > 0 { assert t[i] == s[i - 1]; }
    }
    forall i | 0 <= i < |t| ensures t[i] in m.prev && m.prev[t[i]] == At(t, i - 1) {
      if i > 0 { assert t[i] == s[i - 1]; }
      if i > 1 { NoDupIndex(s, 0, i - 1); }
    }
  }

  /** `RemoveNode`, after the root has been moved on if it was the node. */
  function TakeOut<T(==)>(l: Links<T>, x: T): Links<T>
    requires Allocated(l, x) && Reaches(l, l.next[x]) && Reaches(l, l.prev[x])
  {
    RemoveNode(if l.root == To(x) then l.(root := l.next[x]) else l, x)
  }

  lemma TakeOutLoose<T(!new)>(l: Links<T>, s: seq<T>, x: T)
    requires Spells(l, s) && x !in s && Loose(l, x)
    ensures TakeOut(l, x) == l
  {
    assert l.next[x := Null] == l.next && l.prev[x := Null] == l.prev;
  }

  lemma TakeOutReaches<T(!new)>(l: Links<T>, s: seq<T>, i: nat)
    requires Spells(l, s) && i < |s|
    ensures Allocated(l, s[i]) && l.next[s[i]] == At(s, i + 1) && l.prev[s[i]] == At(s, i - 1)
    ensures Reaches(l, l.next[s[i]]) && Reaches(l, l.prev[s[i]])
    ensures l.root == To(s[i]) <==> i == 0
  {
    if i + 1 < |s| { assert s[i + 1] in s; }
    if i > 0 {
      assert s[i - 1] in s;
      NoDupIndex(s, 0, i);
    }
  }

  lemma TakeOutSpells<T(!new)>(l: Links<T>, s: seq<T>, i: nat)
    requires Spells(l, s) && i < |s|
    ensures Allocated(l, s[i]) && Reaches(l, l.next[s[i]]) && Reaches(l, l.prev[s[i]])
    ensures Spells(TakeOut(l, s[i]), s[..i] + s[i + 1..]) && Loose(TakeOut(l, s[i]), s[i])
    ensures forall y :: y !in s ==> SameNode(l, TakeOut(l, s[i]), y)
  {
    TakeOutReaches(l, s, i);
    TakeOutAround(l, s, i);
    var x, t := s[i], s[..i] + s[i + 1..];
    var m := TakeOut(l, x);
    NoDupCut(s, i);
    assert m.root == At(t, 0);
    hide NoDup, TakeOut, Loose, SameNode, Reaches;
    forall k | 0 <= k < |t| ensures Allocated(m, t[k]) && m.next[t[k]] == At(t, k + 1) && m.prev[t[k]] == At(t, k - 1) {
      CutLinks(l, s, i, k);
    }
  }

  lemma TakeOutAround<T(!new)>(l: Links<T>, s: seq<T>, i: nat)
    requires Spells(l, s) && i < |s|
    requires Allocated(l, s[i]) && Reaches(l, l.next[s[i]]) && Reaches(l, l.prev[s[i]])
    ensures Loose(TakeOut(l, s[i]), s[i]) && forall y :: y !in s ==> SameNode(l, TakeOut(l, s[i]), y)
  {
    TakeOutReaches(l, s, i);
  }

  /** The neighbours of the node are joined; no other link changes. */
  lemma CutLinks<T(!new)>(l: Links<T>, s: seq<T>, i: nat, k: nat)
    requires Spells(l, s) && i < |s| && k < |s| - 1
    requires Allocated(l, s[i]) && Reaches(l, l.next[s[i]]) && Reaches(l, l.prev[s[i]])
    ensures var t, m := s[..i] + s[i + 1..], TakeOut(l, s[i]);
      Allocated(m, t[k]) && m.next[t[k]] == At(t, k + 1) && m.prev[t[k]] == At(t, k - 1)
  {
    TakeOutReaches(l, s, i);
    var t, m := s[..i] + s[i + 1..], TakeOut(l, s[i]);
    var j := if k < i then k else k + 1;
    assert t[k] == s[j];
    TakeOutReaches(l, s, j);
    Distinct(s, i, j);
    if i + 1 < |s| { Distinct(s, i + 1, j); }
    if i > 0 { Distinct(s, i - 1, j); }
  }

  lemma TakeOutDomain<T(!new)>(l: Links<T>, x: T)
    requires Allocated(l, x) && Reaches(l, l.next[x]) && Reaches(l, l.prev[x])
    ensures forall y :: Allocated(TakeOut(l, x), y) <==> Allocated(l, y)
  {
  }

  lemma InsertHeadDomain<T(!new)>(l: Links<T>, x: T)
    requires Allocated(l, x) && Reaches(l, l.root)
    ensures forall y :: Allocated(InsertHead(l, x), y) <==> Allocated(l, y)
  {
  }

  /** The memory with new nodes, and without nodes that are given back. */
  function Grow<T(==)>(l: Links<T>, xs: set<T>): Links<T> {
    var nulls := map x | x in xs :: Null;
    Links(l.root, l.next + nulls, l.prev + nulls)
  }

  function Shrink<T(==)>(l: Links<T>, xs: set<T>): Links<T> {
    Links(l.root, l.next - xs, l.prev - xs)
  }

  lemma SpellsFrame<T(!new)>(l: Links<T>, m: Links<T>, s: seq<T>)
    requires Spells(l, s) && m.root == l.root && forall x :: x in s ==> SameNode(l, m, x)
    ensures Spells(m, s)
  {
    forall i | 0 <= i < |s| ensures Allocated(m, s[i]) && m.next[s[i]] == At(s, i + 1) && m.prev[s[i]] == At(s, i - 1) {
      assert SameNode(l, m, s[i]) && l.next[s[i]] == At(s, i + 1) && l.prev[s[i]] == At(s, i - 1);
    }
  }

  lemma GrowSpells<T(!new)>(l: Links<T>, s: seq<T>, xs: set<T>)
    requires Spells(l, s) && forall x :: x in xs ==> !Allocated(l, x)
    ensures Spells(Grow(l, xs), s)
    ensures forall x :: x in xs ==> Loose(Grow(l, xs), x) && x !in s
    ensures forall y :: y !in xs ==> SameNode(l, Grow(l, xs), y)
  {
    SpellsFrame(l, Grow(l, xs), s);
  }

  lemma ShrinkSpells<T(!new)>(l: Links<T>, s: seq<T>, xs: set<T>)
    requires Spells(l, s) && forall x :: x in xs ==> x !in s
    ensures Spells(Shrink(l, xs), s)
    ensures forall y :: y !in xs ==> SameNode(l, Shrink(l, xs), y)
  {
    SpellsFrame(l, Shrink(l, xs), s);
  }

  lemma GrowDomain<T(!new)>(l: Links<T>, xs: set<T>)
    ensures forall y :: Allocated(Grow(l, xs), y) <==> Allocated(l, y) || y in xs
  {
  }

  lemma ShrinkDomain<T(!new)>(l: Links<T>, xs: set<T>)
    ensures forall y :: Allocated(Shrink(l, xs), y) <==> Allocated(l, y) && y !in xs
  {
  }
}
