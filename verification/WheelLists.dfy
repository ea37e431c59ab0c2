/** The lists of Project/Kernel/Timer/TimerWheel.h: the slots of all levels and the work list, as intrusive lists over
    the same nodes.  They are proved to behave like one sequence of timers for each slot. */
module WheelLists {
  import opened Seqs
  import opened TimerArithmetic
  import C = Chains
  import L = LinkList

  type Id = nat

  /** The address of a slot's list. */
  function Number(h: Host): nat {
    match h
    case Root(i) => i
    case Vec(k, i) => 256 + 64 * k + i
    case Work => 512
    case Off => 513
  }

  function HostAt(n: nat): Host {
    if n < 256 then Root(n) else if n < 512 then Vec((n - 256) / 64, (n - 256) % 64) else if n == 512 then Work else Off
  }

  lemma NumberedOnce(h: Host)
    requires ValidHost(h)
    ensures Number(h) < 513 && HostAt(Number(h)) == h
  {
  }

  lemma NumbersAll(n: nat)
    requires n < 513
    ensures ValidHost(HostAt(n)) && Number(HostAt(n)) == n
  {
  }

  // ---------------------------------------------------------------------------------------------------------
  // Nodes

  /** Every node is in one of the lists, or in none. */
  ghost predicate Hosted(m: L.Memory) {
    forall x :: x in m.host ==>
      L.Exists(m, x) && (m.host[x] == L.NoHost || exists h :: ValidHost(h) && m.host[x] == L.In(Number(h)))
  }

  /** Nodes have come to or gone from one list only. */
  ghost predicate Changed(m: L.Memory, m': L.Memory, h: Host, s: seq<Id>, s': seq<Id>) {
    && ValidHost(h) && L.Hosts(m, Number(h), s) && L.Hosts(m', Number(h), s')
    && (forall x :: x !in s && x !in s' ==> L.Same(m, m', x))
    && (forall x :: x in s || x in s' ==> L.Exists(m, x) && L.Exists(m', x))
    && (forall x :: x in s' && x !in s ==> m.host[x] == L.NoHost)
    && (forall x :: x in s && x !in s' ==> m'.host[x] == L.NoHost)
  }

  lemma OthersStay(m: L.Memory, m': L.Memory, h: Host, s: seq<Id>, s': seq<Id>, g: Host, head: C.Ptr<Id>,
      tail: C.Ptr<Id>, size: int, t: seq<Id>)
    requires Changed(m, m', h, s, s') && ValidHost(g) && g != h && L.ListOk(m, Number(g), head, tail, size, t)
    ensures L.ListOk(m', Number(g), head, tail, size, t)
  {
    hide L.Chain;
    NumberedOnce(g);
    NumberedOnce(h);
    L.OtherList(m, m', Number(g), head, tail, size, t);
  }

  lemma StaysListed(m: L.Memory, m': L.Memory, h: Host, s: seq<Id>, s': seq<Id>)
    requires Changed(m, m', h, s, s') && Hosted(m)
    ensures Hosted(m')
  {
  }

  /** A new node, in no list. */
  function WithNode(m: L.Memory, x: Id): L.Memory {
    L.Memory(m.prev[x := C.Null], m.next[x := C.Null], m.host[x := L.NoHost])
  }

  lemma NodeIsNew(m: L.Memory, x: Id, id: nat, head: C.Ptr<Id>, tail: C.Ptr<Id>, size: int, t: seq<Id>)
    requires L.ListOk(m, id, head, tail, size, t) && x !in m.host
    ensures L.ListOk(WithNode(m, x), id, head, tail, size, t) && x !in t
  {
    L.ChainFrame(m, WithNode(m, x), t);
  }

  // ---------------------------------------------------------------------------------------------------------
  // The lists

  class SlotLists {
    const nodes: L.Nodes
    const lists: map<Host, L.LinkList>

    ghost function Objects(): set<object> {
      {nodes} + set h | h in lists :: lists[h]
    }

    ghost predicate Valid()
      reads Objects()
    {
      && (forall h :: h in lists <==> ValidHost(h))
      && (forall h, g :: h in lists && g in lists && h != g ==> lists[h] != lists[g])
      && (forall h :: h in lists ==> lists[h].id == Number(h) && lists[h].Valid(nodes))
      && Hosted(nodes.m)
    }

    /** The timers in each list. */
    ghost function Slots(): map<Host, seq<Id>>
      reads Objects()
    {
      map h | h in lists :: lists[h].elems
    }

    ghost predicate Has(id: Id)
      reads nodes
    {
      L.Exists(nodes.m, id)
    }

    /** The lists hold the timers that `slots` says, and there are nodes for the first `n` timers. */
    ghost predicate Holds(slots: map<Host, seq<Id>>, n: nat)
      reads Objects()
    {
      Valid() && Slots() == slots && forall id: nat :: Has(id) <==> id < n
    }

    /** All the lists, empty. */
    constructor ()
      ensures Valid() && fresh(Objects())
      ensures forall h :: h in lists <==> ValidHost(h)
      ensures forall h :: h in lists ==> Slots()[h] == []
      ensures nodes.m.host == map[]
    {
      var ns := new L.Nodes(L.Memory(map[], map[], map[]));
      var all: map<Host, L.LinkList> := map[];
      for n := 0 to 513
        invariant fresh(ns) && ns.m == L.Memory(map[], map[], map[])
        invariant forall h :: h in all <==> ValidHost(h) && Number(h) < n
        invariant forall h :: h in all ==>
          fresh(all[h]) && all[h].id == Number(h) && all[h].Valid(ns) && all[h].elems == []
        invariant forall h, g :: h in all && g in all && h != g ==> all[h] != all[g]
      {
        NumbersAll(n);
        var l := new L.LinkList(n, ns);
        forall h | ValidHost(h) && Number(h) == n ensures h == HostAt(n) { NumberedOnce(h); }
        all := all[HostAt(n) := l];
      }
      forall h | ValidHost(h) ensures Number(h) < 513 { NumberedOnce(h); }
      nodes, lists := ns, all;
    }

    lemma HoldsNone(slots: map<Host, seq<Id>>)
      requires Valid() && nodes.m.host == map[] && forall h :: h in lists ==> Slots()[h] == []
      requires (forall h :: h in slots <==> ValidHost(h)) && forall h :: h in slots ==> slots[h] == []
      ensures Holds(slots, 0)
    {
    }

    /** A node for a new timer. */
    method AddNode(id: Id)
      requires Valid() && !Has(id)
      modifies nodes
      ensures Valid() && Slots() == old(Slots())
      ensures forall x :: Has(x) <==> old(Has(x)) || x == id
    {
      hide L.ListOk, WithNode;
      ghost var m := nodes.m;
      forall h | h in lists
        ensures L.ListOk(WithNode(m, id), Number(h), lists[h].head, lists[h].tail, lists[h].size, lists[h].elems)
      {
        NodeIsNew(m, id, Number(h), lists[h].head, lists[h].tail, lists[h].size, lists[h].elems);
      }
      ListedStill(m, id);
      PutIn(id);
    }

    static lemma ListedStill(m: L.Memory, id: Id)
      requires Hosted(m)
      ensures Hosted(WithNode(m, id))
      ensures forall x :: L.Exists(WithNode(m, id), x) <==> L.Exists(m, x) || x == id
    {
    }

    method PutIn(id: Id)
      modifies nodes
      ensures nodes.m == WithNode(old(nodes.m), id)
    {
      nodes.SetHost(id, L.NoHost);
      nodes.SetPrev(id, C.Null);
      nodes.SetNext(id, C.Null);
    }

    /** What a change of one list leaves. */
    twostate lemma OneList(h: Host)
      requires old(Valid()) && h in lists
      requires forall g :: g in lists && g != h ==> unchanged(lists[g])
      requires lists[h].Valid(nodes) && Changed(old(nodes.m), nodes.m, h, old(lists[h].elems), lists[h].elems)
      ensures Valid() && Slots() == old(Slots())[h := lists[h].elems]
    {
      hide L.ListOk;
      forall g | g in lists && g != h ensures lists[g].Valid(nodes) {
        OthersStay(old(nodes.m), nodes.m, h, old(lists[h].elems), lists[h].elems, g,
          lists[g].head, lists[g].tail, lists[g].size, lists[g].elems);
      }
      StaysListed(old(nodes.m), nodes.m, h, old(lists[h].elems), lists[h].elems);
    }

    lemma HostOf(id: Id, h: Host)
      requires Valid() && Has(id) && h in lists
      ensures id in lists[h].elems <==> nodes.m.host[id] == L.In(Number(h))
    {
    }

    /** A node without a list has none for its host. */
    lemma NoList(id: Id)
      requires Valid() && Has(id) && forall h :: h in lists ==> id !in lists[h].elems
      ensures nodes.m.host[id] == L.NoHost
    {
      forall h | ValidHost(h) ensures nodes.m.host[id] != L.In(Number(h)) { HostOf(id, h); }
    }

    /** `LinkList::TailInsert` on a slot. */
    method TailInsert(h: Host, id: Id)
      requires Valid() && h in lists && Has(id) && forall g :: g in lists ==> id !in lists[g].elems
      modifies Objects()
      ensures Valid() && Slots() == old(Slots())[h := old(Slots())[h] + [id]]
      ensures forall x :: Has(x) <==> old(Has(x))
    {
      NoList(id);
      ghost var m, s := nodes.m, lists[h].elems;
      lists[h].TailInsert(nodes, id);
      InsertChanged(m, nodes.m, h, s, id);
      OneList(h);
    }

    static lemma InsertChanged(m: L.Memory, m': L.Memory, h: Host, s: seq<Id>, id: Id)
      requires ValidHost(h) && L.Chain(m, s) && L.Hosts(m, Number(h), s) && L.Exists(m, id) && m.host[id] == L.NoHost
      requires L.Chain(m', s + [id]) && L.Hosts(m', Number(h), s + [id])
      requires forall x :: x != id && x !in s ==> L.Same(m, m', x)
      ensures Changed(m, m', h, s, s + [id])
      ensures forall x :: L.Exists(m, x) <==> L.Exists(m', x)
    {
      assert (s + [id])[|s|] == id;
      assert forall x :: x in s ==> x in s + [id];
    }

    /** `LinkList::HeadRemove` on a slot. */
    method HeadRemove(h: Host) returns (ret: C.Ptr<Id>)
      requires Valid() && h in lists
      modifies Objects()
      ensures Valid() && ret == C.At(old(Slots())[h], 0)
      ensures Slots() == if old(Slots())[h] == [] then old(Slots()) else old(Slots())[h := old(Slots())[h][1..]]
      ensures forall x :: Has(x) <==> old(Has(x))
    {
      hide L.Chain, L.Hosts, L.Same, L.Exists, Hosted, Changed;
      ghost var m, s := nodes.m, lists[h].elems;
      ret := lists[h].HeadRemove(nodes);
      if s != [] {
        RemoveChanged(m, nodes.m, h, s, s[1..], s[0]);
      } else {
        RemoveNothing(m, h);
      }
      OneList(h);
    }

    static lemma RemoveChanged(m: L.Memory, m': L.Memory, h: Host, s: seq<Id>, s': seq<Id>, id: Id)
      requires ValidHost(h) && L.Chain(m, s) && L.Hosts(m, Number(h), s) && L.Exists(m', id) && m'.host[id] == L.NoHost
      requires L.Chain(m', s') && L.Hosts(m', Number(h), s') && forall x :: x in s ==> x == id || x in s'
      requires forall x :: x in s' ==> x in s
      requires forall x :: x !in s ==> L.Same(m, m', x)
      ensures Changed(m, m', h, s, s')
      ensures forall x :: L.Exists(m, x) <==> L.Exists(m', x)
    {
    }

    static lemma RemoveNothing(m: L.Memory, h: Host)
      requires ValidHost(h) && L.Hosts(m, Number(h), [])
      ensures Changed(m, m, h, [], [])
    {
    }

    /** `_host->Remove(this)`; a node without a host is left alone. */
    method Remove(id: Id, ghost h: Host)
      requires Valid() && Has(id) && (h != Off ==> h in lists && id in lists[h].elems)
      requires h == Off ==> forall g :: g in lists ==> id !in lists[g].elems
      modifies Objects()
      ensures Valid() && forall x :: Has(x) <==> old(Has(x))
      ensures h != Off ==> Slots() == old(Slots())[h := Without(old(Slots())[h], id)]
      ensures h == Off ==> Slots() == old(Slots())
    {
      hide L.Chain, L.Same, Hosted, Changed, Without;
      if h == Off { NoList(id); } else { HostOf(id, h); }
      match nodes.m.host[id]
      case NoHost =>
      case In(n) =>
        NumberedOnce(h);
        var l := lists[HostAt(n)];
        ghost var m, s := nodes.m, l.elems;
        var ok := l.Remove(nodes, id);
        RemoveChanged(m, nodes.m, h, s, Without(s, id), id);
        OneList(h);
    }

    /** `_works.Swap(slot)`, or the other way round. */
    method Swap(g: Host, h: Host)
      requires Valid() && g in lists && h in lists && g != h
      modifies Objects()
      ensures Valid() && Slots() == old(Slots())[g := old(Slots())[h]][h := old(Slots())[g]]
      ensures forall x :: Has(x) <==> old(Has(x))
    {
      hide L.ListOk, Hosted, Number;
      SwapTwo(g, h);
    }

    method SwapTwo(g: Host, h: Host)
      requires Valid() && g in lists && h in lists && g != h
      modifies lists[g], lists[h], nodes
      ensures Hosted(nodes.m) && forall k :: k in lists ==> lists[k].Valid(nodes)
      ensures lists[g].elems == old(lists[h].elems) && lists[h].elems == old(lists[g].elems)
      ensures forall x :: Has(x) <==> old(Has(x))
    {
      hide L.ListOk, L.Same, L.Exists, Hosted, Exchanged, Number;
      var a, b := lists[g], lists[h];
      ghost var m, s, t := nodes.m, a.elems, b.elems;
      NumberedOnce(g);
      NumberedOnce(h);
      ListOf(m, Number(g), a.head, a.tail, a.size, s);
      ListOf(m, Number(h), b.head, b.tail, b.size, t);
      a.Swap(nodes, b);
      ListOf(nodes.m, Number(g), a.head, a.tail, a.size, t);
      ListOf(nodes.m, Number(h), b.head, b.tail, b.size, s);
      hide L.Chain, L.Hosts;
      SwapExchanged(m, nodes.m, g, h, s, t);
      StillListed(m, nodes.m, g, h, s, t);
      OthersAfterSwap(m, g, h, s, t);
    }

    static lemma ListOf(m: L.Memory, id: nat, head: C.Ptr<Id>, tail: C.Ptr<Id>, size: int, s: seq<Id>)
      requires L.ListOk(m, id, head, tail, size, s)
      ensures L.Chain(m, s) && L.Hosts(m, id, s)
    {
    }

    lemma OthersAfterSwap(m: L.Memory, g: Host, h: Host, s: seq<Id>, t: seq<Id>)
      requires (forall k :: k in lists <==> ValidHost(k)) && Exchanged(m, nodes.m, g, h, s, t)
      requires forall k :: k in lists && k != g && k != h ==>
        L.ListOk(m, Number(k), lists[k].head, lists[k].tail, lists[k].size, lists[k].elems)
      ensures forall k :: k in lists && k != g && k != h ==>
        L.ListOk(nodes.m, Number(k), lists[k].head, lists[k].tail, lists[k].size, lists[k].elems)
    {
      hide Exchanged, L.ListOk;
      forall k | k in lists && k != g && k != h
        ensures L.ListOk(nodes.m, Number(k), lists[k].head, lists[k].tail, lists[k].size, lists[k].elems)
      {
        ThirdStays(m, nodes.m, g, h, s, t, k, lists[k].head, lists[k].tail, lists[k].size, lists[k].elems);
      }
    }

    static lemma SwapExchanged(m: L.Memory, m': L.Memory, g: Host, h: Host, s: seq<Id>, t: seq<Id>)
      requires ValidHost(g) && ValidHost(h) && L.Chain(m, s) && L.Chain(m, t) && L.Chain(m', s) && L.Chain(m', t)
      requires L.Hosts(m, Number(g), s) && L.Hosts(m, Number(h), t)
      requires L.Hosts(m', Number(g), t) && L.Hosts(m', Number(h), s)
      requires forall x :: x !in s && x !in t ==> L.Same(m, m', x)
      ensures Exchanged(m, m', g, h, s, t)
      ensures forall x :: L.Exists(m, x) <==> L.Exists(m', x)
    {
    }
  }

  /** The nodes of two lists have changed places. */
  ghost predicate Exchanged(m: L.Memory, m': L.Memory, g: Host, h: Host, s: seq<Id>, t: seq<Id>) {
    && ValidHost(g) && ValidHost(h) && L.Hosts(m, Number(g), s) && L.Hosts(m, Number(h), t)
    && L.Hosts(m', Number(g), t) && L.Hosts(m', Number(h), s)
    && (forall x :: x !in s && x !in t ==> L.Same(m, m', x))
    && (forall x :: x in s || x in t ==> L.Exists(m, x) && L.Exists(m', x))
  }

  lemma ThirdStays(m: L.Memory, m': L.Memory, g: Host, h: Host, s: seq<Id>, t: seq<Id>, k: Host, head: C.Ptr<Id>,
      tail: C.Ptr<Id>, size: int, u: seq<Id>)
    requires Exchanged(m, m', g, h, s, t) && ValidHost(k) && k != g && k != h
    requires L.ListOk(m, Number(k), head, tail, size, u)
    ensures L.ListOk(m', Number(k), head, tail, size, u)
  {
    hide L.Chain;
    NumberedOnce(g);
    NumberedOnce(h);
    NumberedOnce(k);
    L.OtherList(m, m', Number(k), head, tail, size, u);
  }

  lemma StillListed(m: L.Memory, m': L.Memory, g: Host, h: Host, s: seq<Id>, t: seq<Id>)
    requires Exchanged(m, m', g, h, s, t) && Hosted(m)
    ensures Hosted(m')
  {
  }
}
