/** The intrusive doubly linked list of Project/Public/TList.h: nodes carry their links and the list they are in. */
module LinkList {
  import opened Seqs
  import opened Chains

  /** A node and a list, by address. */
  type Node = nat
  type ListId = nat

  datatype Host = NoHost | In(list: ListId)

  /** The fields of all nodes. */
  datatype Memory = Memory(prev: map<Node, Ptr<Node>>, next: map<Node, Ptr<Node>>, host: map<Node, Host>)

  predicate Exists(m: Memory, x: Node) {
    x in m.prev && x in m.next && x in m.host
  }

  /** Nothing about a node has changed. */
  predicate Same(m: Memory, m': Memory, x: Node) {
    (Exists(m, x) <==> Exists(m', x))
    && (Exists(m, x) && Exists(m', x) ==> m'.prev[x] == m.prev[x] && m'.next[x] == m.next[x] && m'.host[x] == m.host[x])
  }

  /** The links from both ends spell `s`. */
  ghost predicate Chain(m: Memory, s: seq<Node>) {
    && NoDup(s)
    && (forall x :: x in s ==> Exists(m, x))
    && (forall i {:trigger m.next[s[i]]} :: 0 <= i < |s| ==> s[i] in m.next && m.next[s[i]] == At(s, i + 1))
    && (forall i {:trigger m.prev[s[i]]} :: 0 <= i < |s| ==> s[i] in m.prev && m.prev[s[i]] == At(s, i - 1))
  }

  /** The links from the head spell `s`. */
  ghost predicate Onward(m: Memory, s: seq<Node>) {
    forall i {:trigger s[i]} :: 0 <= i < |s| ==> s[i] in m.next && m.next[s[i]] == At(s, i + 1)
  }

  lemma ChainOnward(m: Memory, s: seq<Node>, k: nat)
    requires Chain(m, s) && k <= |s|
    ensures Onward(m, s[k..])
  {
    forall i | 0 <= i < |s| - k ensures s[k..][i] in m.next && m.next[s[k..][i]] == At(s[k..], i + 1) {
      ChainAt(m, s, k + i);
      if i + 1 < |s| - k { assert s[k..][i + 1] == s[k + i + 1]; }
    }
  }

  /** The nodes that name the list as their host are those of `s`. */
  ghost predicate Hosts(m: Memory, id: ListId, s: seq<Node>) {
    forall x :: x in m.host ==> Exists(m, x) && (m.host[x] == In(id) <==> x in s)
  }

  ghost predicate ListOk(m: Memory, id: ListId, head: Ptr<Node>, tail: Ptr<Node>, size: int, s: seq<Node>) {
    Chain(m, s) && Hosts(m, id, s) && head == At(s, 0) && tail == At(s, |s| - 1) && size == |s|
  }

  // ---------------------------------------------------------------------------------------------------------
  // Chains

  lemma ChainAt(m: Memory, s: seq<Node>, i: nat)
    requires Chain(m, s) && i < |s|
    ensures Exists(m, s[i]) && m.next[s[i]] == At(s, i + 1) && m.prev[s[i]] == At(s, i - 1)
  {
  }

  lemma ChainFrame(m: Memory, m': Memory, s: seq<Node>)
    requires Chain(m, s) && forall x :: x in s ==> Exists(m', x) && m'.next[x] == m.next[x] && m'.prev[x] == m.prev[x]
    ensures Chain(m', s)
  {
    forall i | 0 <= i < |s| ensures Exists(m', s[i]) && m'.next[s[i]] == At(s, i + 1) && m'.prev[s[i]] == At(s, i - 1) {
      ChainAt(m, s, i);
    }
  }

  /** A list does not notice what happens to nodes of others. */
  lemma OtherList(m: Memory, m': Memory, id: ListId, head: Ptr<Node>, tail: Ptr<Node>, size: int, s: seq<Node>)
    requires ListOk(m, id, head, tail, size, s)
    requires forall x :: x in m'.host ==> Exists(m, x) && Exists(m', x)
    requires forall x :: Same(m, m', x) || (x !in s && (x in m'.host ==> m'.host[x] != In(id)))
    ensures ListOk(m', id, head, tail, size, s)
  {
    ChainFrame(m, m', s);
  }

  /** Two chains joined at their ends. */
  lemma Join(m: Memory, s: seq<Node>, t: seq<Node>)
    requires Chain(m, s) && Chain(m, t) && s != [] && t != [] && forall x :: x in s ==> x !in t
    ensures var a, b := s[|s| - 1], t[0];
      Chain(m.(next := m.next[a := To(b)], prev := m.prev[b := To(a)]), s + t)
  {
    var a, b := s[|s| - 1], t[0];
    var m', u := m.(next := m.next[a := To(b)], prev := m.prev[b := To(a)]), s + t;
    JoinNoDup(s, t);
    forall i | 0 <= i < |u| ensures Exists(m', u[i]) && m'.next[u[i]] == At(u, i + 1) && m'.prev[u[i]] == At(u, i - 1) {
      if i < |s| {
        ChainAt(m, s, i);
        Distinct(s, i, |s| - 1);
        assert u[i] in s;
      } else {
        ChainAt(m, t, i - |s|);
        Distinct(t, i - |s|, 0);
        assert u[i] in t;
        assert a in s;
      }
    }
  }

  lemma JoinNoDup(s: seq<Node>, t: seq<Node>)
    requires NoDup(s) && NoDup(t) && forall x :: x in s ==> x !in t
    ensures NoDup(s + t)
  {
    NoDupMultiset(s);
    NoDupMultiset(t);
    forall x ensures multiset(s + t)[x] <= 1 {
      assert multiset(s + t)[x] == multiset(s)[x] + multiset(t)[x];
      if multiset(s)[x] > 0 { assert x in s; }
    }
    NoDupMultiset(s + t);
  }

  lemma One(m: Memory, x: Node)
    requires Exists(m, x) && m.prev[x] == Null && m.next[x] == Null
    ensures Chain(m, [x])
  {
    assert [x][1..] == [];
  }

  /** Taking one node out of a chain: its neighbours are joined, its own links cleared. */
  function Bypass(m: Memory, x: Node): Memory
    requires Exists(m, x)
  {
    var p, n := m.prev[x], m.next[x];
    var next := if p.To? then m.next[p.node := n] else m.next;
    var prev := if n.To? then m.prev[n.node := p] else m.prev;
    Memory(prev[x := Null], next[x := Null], m.host[x := NoHost])
  }

  lemma BypassChain(m: Memory, s: seq<Node>, i: nat)
    requires Chain(m, s) && i < |s|
    ensures Exists(m, s[i])
    ensures Chain(Bypass(m, s[i]), s[..i] + s[i + 1..])
    ensures forall y :: y !in s ==> Same(m, Bypass(m, s[i]), y)
  {
    ChainAt(m, s, i);
    var t, m' := s[..i] + s[i + 1..], Bypass(m, s[i]);
    NoDupCut(s, i);
    if i > 0 { ChainAt(m, s, i - 1); }
    if i + 1 < |s| { ChainAt(m, s, i + 1); }
    forall k | 0 <= k < |t| ensures Exists(m', t[k]) && m'.next[t[k]] == At(t, k + 1) && m'.prev[t[k]] == At(t, k - 1) {
      BypassLinks(m, s, i, k);
    }
  }

  lemma BypassLinks(m: Memory, s: seq<Node>, i: nat, k: nat)
    requires Chain(m, s) && i < |s| && k < |s| - 1
    ensures Exists(m, s[i])
    ensures var t, m' := s[..i] + s[i + 1..], Bypass(m, s[i]);
      Exists(m', t[k]) && m'.next[t[k]] == At(t, k + 1) && m'.prev[t[k]] == At(t, k - 1)
  {
    ChainAt(m, s, i);
    var t := s[..i] + s[i + 1..];
    var j := if k < i then k else k + 1;
    assert t[k] == s[j];
    ChainAt(m, s, j);
    Distinct(s, i, j);
    if i + 1 < |s| { Distinct(s, i + 1, j); }
    if i > 0 { Distinct(s, i - 1, j); }
  }

  lemma BypassHosts(m: Memory, id: ListId, s: seq<Node>, i: nat)
    requires Chain(m, s) && Hosts(m, id, s) && i < |s| && Exists(m, s[i])
    ensures Hosts(Bypass(m, s[i]), id, s[..i] + s[i + 1..])
  {
    NoDupCut(s, i);
    assert s == s[..i] + [s[i]] + s[i + 1..];
  }

  // ---------------------------------------------------------------------------------------------------------
  // The lists

  /** The nodes, shared by all lists. */
  class Nodes {
    var m: Memory

    constructor (m': Memory)
      ensures m == m'
    {
      m := m';
    }

    method SetPrev(x: Node, p: Ptr<Node>)
      modifies this
      ensures m == old(m).(prev := old(m).prev[x := p])
    {
      m := m.(prev := m.prev[x := p]);
    }

    method SetNext(x: Node, p: Ptr<Node>)
      modifies this
      ensures m == old(m).(next := old(m).next[x := p])
    {
      m := m.(next := m.next[x := p]);
    }

    method SetHost(x: Node, h: Host)
      modifies this
      ensures m == old(m).(host := old(m).host[x := h])
    {
      m := m.(host := m.host[x := h]);
    }

    /** `CleanNodeIndex`. */
    method CleanNodeIndex(x: Node)
      modifies this
      ensures m == Memory(old(m).prev[x := Null], old(m).next[x := Null], old(m).host[x := NoHost])
    {
      SetHost(x, NoHost);
      SetPrev(x, Null);
      SetNext(x, Null);
    }

    /** The loops that give the nodes of a chain a new host. */
    method SetHosts(first: Ptr<Node>, h: Host, ghost s: seq<Node>)
      requires Onward(m, s) && first == At(s, 0)
      modifies this
      ensures m == old(m).(host := Moved(old(m).host, s, h))
    {
      var tmp := first;
      ghost var i := 0;
      MovedNone(m.host, s[..0], h);
      while tmp != Null
        invariant i <= |s| && tmp == At(s, i) && m == old(m).(host := Moved(old(m).host, s[..i], h))
        decreases |s| - i
      {
        assert old(m).next[s[i]] == At(s, i + 1);
        MovedOne(old(m).host, s, i, h);
        SetHost(tmp.node, h);
        tmp := m.next[tmp.node];
        i := i + 1;
      }
      assert s[..i] == s;
    }
  }

  /** The hosts when the nodes of `s` have moved. */
  function Moved(host: map<Node, Host>, s: seq<Node>, h: Host): map<Node, Host>
    decreases |s|
  {
    if s == [] then host else Moved(host, s[..|s| - 1], h)[s[|s| - 1] := h]
  }

  lemma {:induction false} MovedIs(host: map<Node, Host>, s: seq<Node>, h: Host)
    requires forall x :: x in s ==> x in host
    ensures forall x :: x in Moved(host, s, h) <==> x in host
    ensures forall x :: x in host ==> Moved(host, s, h)[x] == if x in s then h else host[x]
    decreases |s|
  {
    if s != [] {
      MovedIs(host, s[..|s| - 1], h);
      assert s == s[..|s| - 1] + [s[|s| - 1]];
    }
  }

  lemma MovedNone(host: map<Node, Host>, s: seq<Node>, h: Host)
    requires s == []
    ensures Moved(host, s, h) == host
  {
  }

  lemma MovedOne(host: map<Node, Host>, s: seq<Node>, i: nat, h: Host)
    requires i < |s|
    ensures Moved(host, s[..i + 1], h) == Moved(host, s[..i], h)[s[i] := h]
  {
    assert s[..i + 1][..i] == s[..i];
  }

  lemma SameAll(m: Memory)
    ensures forall x :: Same(m, m, x)
  {
  }

  lemma Ends(m: Memory, s: seq<Node>)
    requires Chain(m, s)
    ensures s != [] ==> s[0] in s && s[|s| - 1] in s && Exists(m, s[0]) && Exists(m, s[|s| - 1])
  {
  }

  /** A node leaves its chain: this is what the three ways of removing one come to. */
  lemma RemovedFrom(m: Memory, id: ListId, s: seq<Node>, i: nat)
    requires Chain(m, s) && Hosts(m, id, s) && i < |s|
    ensures NoDup(s)
    ensures Exists(m, s[i]) && m.prev[s[i]] == At(s, i - 1) && m.next[s[i]] == At(s, i + 1)
    ensures m.prev[s[i]].To? ==> m.prev[s[i]].node in s && m.prev[s[i]].node != s[i]
    ensures m.next[s[i]].To? ==> m.next[s[i]].node in s && m.next[s[i]].node != s[i]
    ensures var m', t := Bypass(m, s[i]), s[..i] + s[i + 1..];
      && Chain(m', t) && Hosts(m', id, t) && (forall x :: x !in s ==> Same(m, m', x))
      && Exists(m', s[i]) && m'.host[s[i]] == NoHost && m'.prev[s[i]] == Null && m'.next[s[i]] == Null
  {
    ChainAt(m, s, i);
    BypassChain(m, s, i);
    BypassHosts(m, id, s, i);
    if i > 0 { Distinct(s, i - 1, i); }
    if i + 1 < |s| { Distinct(s, i, i + 1); }
  }

  class LinkList {
    const id: ListId
    var head: Ptr<Node>
    var tail: Ptr<Node>
    var size: int

    /** The nodes in the list, from the head. */
    ghost var elems: seq<Node>

    ghost predicate Valid(nodes: Nodes)
      reads this, nodes
    {
      ListOk(nodes.m, id, head, tail, size, elems)
    }

    /** A new list, at an address that is no node's host. */
    constructor (id': ListId, nodes: Nodes)
      requires forall x :: x in nodes.m.host ==> Exists(nodes.m, x) && nodes.m.host[x] != In(id')
      ensures Valid(nodes) && elems == [] && id == id'
    {
      id, head, tail, size, elems := id', Null, Null, 0, [];
    }

    /** Only a node without a host is put in. */
    method HeadInsert(nodes: Nodes, node: Node)
      requires Valid(nodes) && Exists(nodes.m, node)
      modifies this, nodes
      ensures Valid(nodes)
      ensures if old(nodes.m).host[node] == NoHost then elems == [node] + old(elems)
        else elems == old(elems) && nodes.m == old(nodes.m)
      ensures forall x :: x != node && x !in old(elems) ==> Same(old(nodes.m), nodes.m, x)
    {
      hide NoDup, Chain, Hosts, Same;
      if nodes.m.host[node] != NoHost {
        SameAll(nodes.m);
        return;
      }
      Ends(nodes.m, elems);
      HeadInserted(nodes.m, id, elems, node);
      nodes.SetHost(node, In(id));
      if head == Null {
        head, tail := To(node), To(node);
        nodes.SetPrev(node, Null);
        nodes.SetNext(node, Null);
      } else {
        nodes.SetPrev(node, Null);
        nodes.SetNext(node, head);
        nodes.SetPrev(head.node, To(node));
        head := To(node);
      }
      size := size + 1;
      elems := [node] + elems;
    }

    static function InsertedHead(m: Memory, id: ListId, head: Ptr<Node>, node: Node): Memory {
      var host := m.host[node := In(id)];
      if head == Null then Memory(m.prev[node := Null], m.next[node := Null], host)
      else Memory(m.prev[node := Null][head.node := To(node)], m.next[node := head], host)
    }

    static lemma HeadInserted(m: Memory, id: ListId, s: seq<Node>, node: Node)
      requires Chain(m, s) && Hosts(m, id, s) && Exists(m, node) && m.host[node] == NoHost
      ensures node !in s
      ensures var m' := InsertedHead(m, id, At(s, 0), node);
        Chain(m', [node] + s) && Hosts(m', id, [node] + s) && forall x :: x != node && x !in s ==> Same(m, m', x)
    {
      hide Chain, NoDup;
      ChainExists(m, s);
      var m1 := Memory(m.prev[node := Null], m.next[node := Null], m.host[node := In(id)]);
      ChainFrame(m, m1, s);
      One(m1, node);
      if s != [] {
        Join(m1, [node], s);
        assert m1.next[node := To(s[0])] == m.next[node := To(s[0])];
      } else {
        assert [node] + s == [node];
      }
    }

    method TailInsert(nodes: Nodes, node: Node)
      requires Valid(nodes) && Exists(nodes.m, node)
      modifies this, nodes
      ensures Valid(nodes)
      ensures if old(nodes.m).host[node] == NoHost then elems == old(elems) + [node]
        else elems == old(elems) && nodes.m == old(nodes.m)
      ensures forall x :: x != node && x !in old(elems) ==> Same(old(nodes.m), nodes.m, x)
    {
      hide NoDup, Chain, Hosts, Same;
      if nodes.m.host[node] != NoHost {
        SameAll(nodes.m);
        return;
      }
      Ends(nodes.m, elems);
      TailInserted(nodes.m, id, elems, node);
      nodes.SetHost(node, In(id));
      if tail == Null {
        head, tail := To(node), To(node);
        nodes.SetPrev(node, Null);
        nodes.SetNext(node, Null);
      } else {
        nodes.SetPrev(node, tail);
        nodes.SetNext(node, Null);
        nodes.SetNext(tail.node, To(node));
        tail := To(node);
      }
      size := size + 1;
      elems := elems + [node];
    }

    static function InsertedTail(m: Memory, id: ListId, tail: Ptr<Node>, node: Node): Memory {
      var host := m.host[node := In(id)];
      if tail == Null then Memory(m.prev[node := Null], m.next[node := Null], host)
      else Memory(m.prev[node := tail], m.next[node := Null][tail.node := To(node)], host)
    }

    static lemma TailInserted(m: Memory, id: ListId, s: seq<Node>, node: Node)
      requires Chain(m, s) && Hosts(m, id, s) && Exists(m, node) && m.host[node] == NoHost
      ensures node !in s
      ensures var m' := InsertedTail(m, id, At(s, |s| - 1), node);
        Chain(m', s + [node]) && Hosts(m', id, s + [node]) && forall x :: x != node && x !in s ==> Same(m, m', x)
    {
      hide Chain, NoDup;
      ChainExists(m, s);
      var m1 := Memory(m.prev[node := Null], m.next[node := Null], m.host[node := In(id)]);
      ChainFrame(m, m1, s);
      One(m1, node);
      if s != [] {
        Join(m1, s, [node]);
        assert m1.prev[node := To(s[|s| - 1])] == m.prev[node := To(s[|s| - 1])];
      } else {
        assert s + [node] == [node];
      }
    }
  
    method HeadRemove(nodes: Nodes) returns (ret: Ptr<Node>)
      requires Valid(nodes)
      modifies this, nodes
      ensures Valid(nodes) && ret == At(old(elems), 0) && elems == if old(elems) == [] then [] else old(elems)[1..]
      ensures ret.To? ==> Exists(nodes.m, ret.node) && nodes.m.host[ret.node] == NoHost
      ensures ret == Null ==> nodes.m == old(nodes.m)
      ensures forall x :: x !in old(elems) ==> Same(old(nodes.m), nodes.m, x)
    {
      hide NoDup, Chain, Hosts, Same;
      SameAll(nodes.m);
      if size == 0 { return Null; }
      ghost var m0 := nodes.m;
      RemovedFrom(m0, id, elems, 0);
      var tmp := head.node;
      head := nodes.m.next[tmp];
      if head == Null {
        tail := Null;
      } else {
        nodes.SetPrev(head.node, Null);
      }
      nodes.CleanNodeIndex(tmp);
      assert nodes.m == Bypass(m0, tmp);
      size := size - 1;
      elems := elems[..0] + elems[1..];
      assert elems == old(elems)[1..];
      ret := To(tmp);
    }

    method TailRemove(nodes: Nodes) returns (ret: Ptr<Node>)
      requires Valid(nodes)
      modifies this, nodes
      ensures Valid(nodes) && ret == At(old(elems), |old(elems)| - 1)
      ensures elems == if old(elems) == [] then [] else old(elems)[..|old(elems)| - 1]
      ensures ret.To? ==> Exists(nodes.m, ret.node) && nodes.m.host[ret.node] == NoHost
      ensures ret == Null ==> nodes.m == old(nodes.m)
      ensures forall x :: x !in old(elems) ==> Same(old(nodes.m), nodes.m, x)
    {
      hide NoDup, Chain, Hosts, Same;
      SameAll(nodes.m);
      if size == 0 { return Null; }
      ghost var m0, n := nodes.m, |elems|;
      RemovedFrom(m0, id, elems, n - 1);
      var tmp := tail.node;
      tail := nodes.m.prev[tmp];
      if tail == Null {
        head := Null;
      } else {
        nodes.SetNext(tail.node, Null);
      }
      size := size - 1;
      nodes.CleanNodeIndex(tmp);
      assert nodes.m == Bypass(m0, tmp);
      elems := elems[..n - 1] + elems[n..];
      assert elems == old(elems)[..n - 1];
      ret := To(tmp);
    }

    /** From the middle, in constant time. A node without a host is left alone. */
    method Remove(nodes: Nodes, node: Node) returns (ok: bool)
      requires Valid(nodes) && Exists(nodes.m, node) && (nodes.m.host[node] == NoHost || nodes.m.host[node] == In(id))
      modifies this, nodes
      ensures Valid(nodes) && ok == (node in old(elems)) && Exists(nodes.m, node) && nodes.m.host[node] == NoHost
      ensures elems == Without(old(elems), node)
      ensures !ok ==> nodes.m == old(nodes.m)
      ensures forall x :: x !in old(elems) ==> Same(old(nodes.m), nodes.m, x)
    {
      hide NoDup, Chain, Hosts, Same, Without;
      SameAll(nodes.m);
      ghost var i := Place(nodes.m, id, elems, node);
      if nodes.m.host[node] == NoHost { return false; }
      ghost var m0, s := nodes.m, elems;
      RemovedFrom(m0, id, s, i);
      CutOut(s, i);
      var p, n := nodes.m.prev[node], nodes.m.next[node];
      if p.To? {
        nodes.SetNext(p.node, n);
      } else {
        head := n;
        if head.To? { nodes.SetPrev(head.node, Null); }
      }
      if n.To? {
        nodes.SetPrev(n.node, p);
      } else {
        tail := p;
        if tail.To? { nodes.SetNext(tail.node, Null); }
      }
      nodes.CleanNodeIndex(node);
      BypassIs(m0, nodes.m, node);
      size := size - 1;
      elems := s[..i] + s[i + 1..];
      ok := true;
    }

    /** The assignments that the branches repeat make no difference. */
    static lemma BypassIs(m: Memory, m': Memory, x: Node)
      requires Exists(m, x)
      requires var p, n := m.prev[x], m.next[x];
        m' == Memory((if n.To? then (if p == Null then m.prev[n.node := Null] else m.prev)[n.node := p]
          else m.prev)[x := Null],
                     (if n == Null && p.To? then m.next[p.node := n][p.node := Null]
                       else if p.To? then m.next[p.node := n] else m.next)[x := Null],
                     m.host[x := NoHost])
      ensures m' == Bypass(m, x)
    {
      var p, n := m.prev[x], m.next[x];
      if n.To? { assert m.prev[n.node := Null][n.node := p] == m.prev[n.node := p]; }
      if p.To? { assert m.next[p.node := n][p.node := Null] == m.next[p.node := Null]; }
    }

    static lemma Place(m: Memory, id: ListId, s: seq<Node>, x: Node) returns (i: nat)
      requires Hosts(m, id, s) && Exists(m, x)
      ensures x in s <==> m.host[x] == In(id)
      ensures x in s ==> i < |s| && s[i] == x
      ensures x !in s ==> Without(s, x) == s
    {
      i := 0;
      if x in s {
        i :| 0 <= i < |s| && s[i] == x;
      }
    }

    static lemma CutOut(s: seq<Node>, i: nat)
      requires NoDup(s) && i < |s|
      ensures Without(s, s[i]) == s[..i] + s[i + 1..]
      ensures At(s[..i] + s[i + 1..], 0) == if i == 0 then At(s, 1) else At(s, 0)
      ensures At(s[..i] + s[i + 1..], |s| - 2) == if i == |s| - 1 then At(s, |s| - 2) else At(s, |s| - 1)
    {
      hide NoDup, Without;
      WithoutIsCut(s, i);
    }

    static lemma {:induction false} WithoutIsCut(s: seq<Node>, i: nat)
      requires NoDup(s) && i < |s|
      ensures Without(s, s[i]) == s[..i] + s[i + 1..]
    {
      if i == 0 {
        assert s[..0] + s[1..] == s[1..];
      } else {
        WithoutIsCut(s[1..], i - 1);
        assert s[i] == s[1..][i - 1];
        assert [s[0]] + (s[1..][..i - 1] + s[1..][i..]) == s[..i] + s[i + 1..];
      }
    }
  
    /** The nodes of another list are put behind, in one piece; the other list is empty afterwards. */
    method TailMerge(nodes: Nodes, list: LinkList)
      requires Valid(nodes) && list.Valid(nodes) && list.id != id && list.elems != [] && elems != []
      modifies this, list, nodes
      ensures Valid(nodes) && list.Valid(nodes) && elems == old(elems) + old(list.elems) && list.elems == []
      ensures forall x :: x !in old(elems) && x !in old(list.elems) ==> Same(old(nodes.m), nodes.m, x)
    {
      hide NoDup, Chain, Hosts, Same, Onward;
      ghost var m0, s, t := nodes.m, elems, list.elems;
      Merged(m0, id, list.id, s, t);
      nodes.SetPrev(list.head.node, tail);
      nodes.SetNext(tail.node, list.head);
      nodes.SetHosts(nodes.m.next[tail.node], In(id), t);
      tail := list.tail;
      size := size + list.size;
      list.head, list.tail, list.size := Null, Null, 0;
      elems, list.elems := s + t, [];
    }

    static lemma Merged(m: Memory, id: ListId, other: ListId, s: seq<Node>, t: seq<Node>)
      requires Chain(m, s) && Chain(m, t) && Hosts(m, id, s) && Hosts(m, other, t) && id != other && s != [] && t != []
      ensures Exists(m, s[|s| - 1]) && Exists(m, t[0])
      ensures var m1 := m.(prev := m.prev[t[0] := To(s[|s| - 1])], next := m.next[s[|s| - 1] := To(t[0])]);
              var m2 := m1.(host := Moved(m1.host, t, In(id)));
        && Onward(m1, t) && Chain(m2, s + t) && Chain(m2, []) && Hosts(m2, id, s + t) && Hosts(m2, other, [])
        && forall x :: x !in s && x !in t ==> Same(m, m2, x)
    {
      hide Chain, Onward, Moved;
      ChainExists(m, s);
      ChainExists(m, t);
      NoChain();
      ListsApart(m, id, other, s, t);
      var m1 := m.(prev := m.prev[t[0] := To(s[|s| - 1])], next := m.next[s[|s| - 1] := To(t[0])]);
      var m2 := m1.(host := Moved(m1.host, t, In(id)));
      Join(m, s, t);
      ChainOnward(m1, s + t, |s|);
      assert (s + t)[|s|..] == t;
      HostsIn(m, t);
      MovedIs(m.host, t, In(id));
      ChainExists(m1, s + t);
      ChainFrame(m1, m2, s + t);
    }

    static lemma ChainExists(m: Memory, s: seq<Node>)
      requires Chain(m, s)
      ensures forall x :: x in s ==> Exists(m, x)
    {
    }

    static lemma NoChain()
      ensures forall m :: Chain(m, [])
    {
    }

    static lemma HostsIn(m: Memory, s: seq<Node>)
      requires Chain(m, s)
      ensures forall x :: x in s ==> x in m.host
    {
    }

    static lemma ListsApart(m: Memory, id: ListId, other: ListId, s: seq<Node>, t: seq<Node>)
      requires Chain(m, s) && Chain(m, t) && Hosts(m, id, s) && Hosts(m, other, t) && id != other
      ensures forall x :: x in s ==> x !in t
    {
      HostsIn(m, s);
    }

    /** Two lists exchange their nodes. */
    method Swap(nodes: Nodes, lists: LinkList)
      requires Valid(nodes)
      requires lists.Valid(nodes)
      requires lists == this || lists.id != id
      modifies this, lists, nodes
      ensures Valid(nodes)
      ensures lists.Valid(nodes)
      ensures elems == old(lists.elems) && lists.elems == old(elems)
      ensures nodes.m.next == old(nodes.m.next) && nodes.m.prev == old(nodes.m.prev)
      ensures forall x :: x !in old(elems) && x !in old(lists.elems) ==> Same(old(nodes.m), nodes.m, x)
    {
      hide NoDup, Chain, Hosts, Same, Onward;
      SameAll(nodes.m);
      if this == lists { return; }
      ghost var m0, s, t := nodes.m, elems, lists.elems;
      Swapped(m0, id, lists.id, s, t);
      size, lists.size := lists.size, size;
      nodes.SetHosts(head, In(lists.id), s);
      head, lists.head := lists.head, head;
      tail, lists.tail := lists.tail, tail;
      nodes.SetHosts(head, In(id), t);
      elems, lists.elems := t, s;
    }

    static lemma Swapped(m: Memory, id: ListId, other: ListId, s: seq<Node>, t: seq<Node>)
      requires Chain(m, s) && Chain(m, t) && Hosts(m, id, s) && Hosts(m, other, t) && id != other
      ensures var m1 := m.(host := Moved(m.host, s, In(other)));
              var m2 := m1.(host := Moved(m1.host, t, In(id)));
        && Onward(m, s) && Onward(m1, t) && Chain(m2, s) && Chain(m2, t) && Hosts(m2, id, t) && Hosts(m2, other, s)
        && forall x :: x !in s && x !in t ==> Same(m, m2, x)
    {
      hide Chain, Onward, Moved;
      ChainExists(m, s);
      ChainExists(m, t);
      ListsApart(m, id, other, s, t);
      var m1 := m.(host := Moved(m.host, s, In(other)));
      var m2 := m1.(host := Moved(m1.host, t, In(id)));
      HostsIn(m, s);
      HostsIn(m, t);
      MovedIs(m.host, s, In(other));
      MovedIs(m1.host, t, In(id));
      ChainFrame(m, m1, t);
      ChainOnward(m, s, 0);
      ChainOnward(m1, t, 0);
      assert s[0..] == s && t[0..] == t;
      ChainFrame(m, m2, s);
      ChainFrame(m, m2, t);
    }
  }
}
