/** The master of Project/logic/Framework/Cluster/Cluster.cpp: it tells every pair of nodes which of the two is to
    connect. */
module Cluster {

  const TWO_32 := 0x1_0000_0000

  /** A node's name, its address, and the body of an ad-hoc message, which names a node and where it is. */
  datatype NodeInfo = NodeInfo(nodeType: int, nodeId: int, ip: string, port: int)

  predicate IsS8(n: int) { -128 <= n < 128 }

  /** `GetSessionChannel`: the type is the high and the identity the low half of a 64-bit number. */
  function Channel(nodeType: int, nodeId: int): int {
    nodeType * TWO_32 + if nodeId < 0 then nodeId + TWO_32 else nodeId
  }

  lemma ChannelIsInjective(t1: int, i1: int, t2: int, i2: int)
    requires IsS8(t1) && IsS8(i1) && IsS8(t2) && IsS8(i2)
    ensures Channel(t1, i1) == Channel(t2, i2) <==> t1 == t2 && i1 == i2
  {
  }

  /** Channels go by the type, and within a type by the identity, the negative ones last. */
  lemma ChannelOrder(t1: int, i1: int, t2: int, i2: int)
    requires IsS8(t1) && IsS8(i1) && IsS8(t2) && IsS8(i2)
    ensures Channel(t1, i1) < Channel(t2, i2) <==>
      t1 < t2 || (t1 == t2 && if i1 >= 0 then i2 < 0 || i1 < i2 else i2 < 0 && i1 < i2)
  {
  }

  /** One stay of a node: its channel, and the number of its opening. */
  datatype Session = Session(channel: int, number: nat)

  /** An ad-hoc message: the node it was sent to, what it said, and which stay of which node these were. */
  datatype Message = Message(toType: int, toId: int, body: NodeInfo, to: Session, about: Session)

  /** How often one stay has been told to connect to another. */
  function Told(sent: seq<Message>, to: Session, about: Session): nat {
    if sent == [] then 0
    else
      var last := sent[|sent| - 1];
      Told(sent[..|sent| - 1], to, about) + if last.to == to && last.about == about then 1 else 0
  }

  lemma ToldAppend(sent: seq<Message>, m: Message, to: Session, about: Session)
    ensures Told(sent + [m], to, about) == Told(sent, to, about) + if m.to == to && m.about == about then 1 else 0
  {
    assert (sent + [m])[..|sent|] == sent;
  }

  lemma {:induction false} ToldNever(sent: seq<Message>, to: Session, about: Session)
    requires forall k :: 0 <= k < |sent| ==> !(sent[k].to == to && sent[k].about == about)
    ensures Told(sent, to, about) == 0
  {
    if sent != [] {
      ToldNever(sent[..|sent| - 1], to, about);
    }
  }

  function SessionOf(stays: map<int, nat>, c: int): Session
    requires c in stays
  {
    Session(c, stays[c])
  }

  /** Of two nodes that are both open, the one with the smaller channel has been told about the other, once in their
      present stays; the other has not been told about it. */
  ghost predicate Mesh(stays: map<int, nat>, sent: seq<Message>) {
    forall c, d :: c in stays && d in stays && c != d ==>
      Told(sent, SessionOf(stays, c), SessionOf(stays, d)) == if c < d then 1 else 0
  }

  /** A message was addressed to the node `to`, and said where the node `about` is. */
  predicate Carries(m: Message, to: NodeInfo, about: NodeInfo) {
    m.toType == to.nodeType && m.toId == to.nodeId && m.body == about
  }

  predicate Present(stays: map<int, nat>, s: Session) {
    s.channel in stays && stays[s.channel] == s.number
  }

  /** Nodes are filed under their channels, and every message between nodes that are still there went to the right one
      and said where the other is. */
  ghost predicate Truthful(nodes: map<int, NodeInfo>, stays: map<int, nat>, sent: seq<Message>) {
    && (forall c :: c in stays <==> c in nodes)
    && (forall c :: c in nodes ==> c == Channel(nodes[c].nodeType, nodes[c].nodeId))
    && (forall k :: 0 <= k < |sent| && Present(stays, sent[k].to) && Present(stays, sent[k].about) ==>
         Carries(sent[k], nodes[sent[k].to.channel], nodes[sent[k].about.channel]))
  }

  /** Stays are numbered in the order of their opening. */
  ghost predicate Numbered(stays: map<int, nat>, sent: seq<Message>, next: nat) {
    && (forall c :: c in stays ==> stays[c] < next)
    && (forall k :: 0 <= k < |sent| ==> sent[k].to.number < next && sent[k].about.number < next)
  }

  ghost predicate Inv(nodes: map<int, NodeInfo>, stays: map<int, nat>, sent: seq<Message>, next: nat) {
    Mesh(stays, sent) && Truthful(nodes, stays, sent) && Numbered(stays, sent, next)
  }

  // ---------------------------------------------------------------------------------------------------------
  // Opening: the messages to and from a newcomer

  /** The newcomer has been introduced to the open nodes but those in `rest`. */
  ghost predicate Introduced(stays: map<int, nat>, sent: seq<Message>, now: Session, rest: set<int>) {
    forall d :: d in stays ==>
      && Told(sent, SessionOf(stays, d), now) == (if d !in rest && d < now.channel then 1 else 0)
      && Told(sent, now, SessionOf(stays, d)) == (if d !in rest && now.channel < d then 1 else 0)
  }

  /** The message for one pair. */
  function Introduction(stays: map<int, nat>, nodes: map<int, NodeInfo>, now: Session, info: NodeInfo, d: int): Message
    requires d in stays && d in nodes
  {
    if d < now.channel then Message(nodes[d].nodeType, nodes[d].nodeId, info, SessionOf(stays, d), now)
    else Message(info.nodeType, info.nodeId, nodes[d], now, SessionOf(stays, d))
  }

  lemma NobodyIntroduced(stays: map<int, nat>, sent: seq<Message>, next: nat, c: int)
    requires Numbered(stays, sent, next)
    ensures Introduced(stays, sent, Session(c, next), stays.Keys)
  {
    forall d | d in stays
      ensures Told(sent, SessionOf(stays, d), Session(c, next)) == 0
      ensures Told(sent, Session(c, next), SessionOf(stays, d)) == 0
    {
      ToldNever(sent, SessionOf(stays, d), Session(c, next));
      ToldNever(sent, Session(c, next), SessionOf(stays, d));
    }
  }

  lemma IntroduceOne(stays: map<int, nat>, nodes: map<int, NodeInfo>, sent: seq<Message>, now: Session, info: NodeInfo,
                     rest: set<int>, d: int)
    requires Introduced(stays, sent, now, rest) && d in rest && d in stays && d in nodes && now.channel !in stays
    ensures Introduced(stays, sent + [Introduction(stays, nodes, now, info, d)], now, rest - {d})
  {
    hide Told;
    var m := Introduction(stays, nodes, now, info, d);
    forall e | e in stays
      ensures Told(sent + [m], SessionOf(stays, e), now) == (if e !in rest - {d} && e < now.channel then 1 else 0)
      ensures Told(sent + [m], now, SessionOf(stays, e)) == (if e !in rest - {d} && now.channel < e then 1 else 0)
    {
      ToldAppend(sent, m, SessionOf(stays, e), now);
      ToldAppend(sent, m, now, SessionOf(stays, e));
    }
  }

  /** Introductions do not touch the pairs of the others. */
  lemma OthersKeep(stays: map<int, nat>, nodes: map<int, NodeInfo>, sent: seq<Message>, now: Session, info: NodeInfo,
      d: int)
    requires Mesh(stays, sent) && d in stays && d in nodes && now.channel !in stays
    ensures Mesh(stays, sent + [Introduction(stays, nodes, now, info, d)])
  {
    hide Told;
    var m := Introduction(stays, nodes, now, info, d);
    forall a, b | a in stays && b in stays && a != b
      ensures Told(sent + [m], SessionOf(stays, a), SessionOf(stays, b)) == if a < b then 1 else 0
    {
      ToldAppend(sent, m, SessionOf(stays, a), SessionOf(stays, b));
    }
  }

  /** The messages sent so far are right, those to and from the newcomer included. */
  ghost predicate TruthfulWith(nodes: map<int, NodeInfo>, stays: map<int, nat>, sent: seq<Message>, now: Session,
      info: NodeInfo) {
    now.channel == Channel(info.nodeType, info.nodeId)
    && Truthful(nodes, stays, sent) && Truthful(nodes[now.channel := info], stays[now.channel := now.number], sent)
  }

  lemma NothingSaid(nodes: map<int, NodeInfo>, stays: map<int, nat>, sent: seq<Message>, now: Session, info: NodeInfo)
    requires Truthful(nodes, stays, sent) && Numbered(stays, sent, now.number) && now.channel !in stays
    requires now.channel == Channel(info.nodeType, info.nodeId)
    ensures TruthfulWith(nodes, stays, sent, now, info)
  {
  }

  lemma TruthfulOne(nodes: map<int, NodeInfo>, stays: map<int, nat>, sent: seq<Message>, now: Session, info: NodeInfo,
      d: int)
    requires TruthfulWith(nodes, stays, sent, now, info) && d in stays && now.channel !in stays
    ensures d in nodes && TruthfulWith(nodes, stays, sent + [Introduction(stays, nodes, now, info, d)], now, info)
  {
    hide Channel;
  }

  lemma NumberedOne(nodes: map<int, NodeInfo>, stays: map<int, nat>, sent: seq<Message>, now: Session, info: NodeInfo,
      d: int)
    requires Numbered(stays, sent, now.number + 1) && d in stays && d in nodes
    ensures Numbered(stays, sent + [Introduction(stays, nodes, now, info, d)], now.number + 1)
  {
  }

  /** With the newcomer introduced to everybody, the mesh is complete again. */
  lemma MeshGrows(stays: map<int, nat>, sent: seq<Message>, now: Session)
    requires Mesh(stays, sent) && now.channel !in stays && Introduced(stays, sent, now, {})
    ensures Mesh(stays[now.channel := now.number], sent)
  {
    hide Told;
    var more := stays[now.channel := now.number];
    forall c, d | c in more && d in more && c != d
      ensures Told(sent, SessionOf(more, c), SessionOf(more, d)) == if c < d then 1 else 0
    {
      assert c != now.channel ==> SessionOf(more, c) == SessionOf(stays, c);
      assert d != now.channel ==> SessionOf(more, d) == SessionOf(stays, d);
    }
  }

  lemma CloseKeeps(nodes: map<int, NodeInfo>, stays: map<int, nat>, sent: seq<Message>, next: nat, c: int)
    requires Inv(nodes, stays, sent, next)
    ensures Inv(nodes - {c}, stays - {c}, sent, next)
  {
    hide Told;
    var less := stays - {c};
    forall a, b | a in less && b in less && a != b
      ensures Told(sent, SessionOf(less, a), SessionOf(less, b)) == if a < b then 1 else 0
    {
      assert SessionOf(less, a) == SessionOf(stays, a) && SessionOf(less, b) == SessionOf(stays, b);
    }
  }

  // ---------------------------------------------------------------------------------------------------------
  // The master

  class Master {
    var nodes: map<int, NodeInfo>

    /** The stays of the open nodes, the number of openings, and all messages sent so far. */
    ghost var stays: map<int, nat>
    ghost var openings: nat
    ghost var sent: seq<Message>

    ghost predicate Valid()
      reads this
    {
      Inv(nodes, stays, sent, openings)
    }

    constructor ()
      ensures Valid() && nodes == map[] && sent == []
    {
      nodes, stays, sent, openings := map[], map[], [], 0;
    }

    /** `SendMessage` of the harbour. */
    method SendMessage(toType: int, toId: int, body: NodeInfo, ghost to: Session, ghost about: Session)
      modifies this`sent
      ensures sent == old(sent) + [Message(toType, toId, body, to, about)]
    {
      sent := sent + [Message(toType, toId, body, to, about)];
    }

    /** A node that is not known yet is introduced to every open node, in one direction. */
    method OnOpen(nodeType: int, nodeId: int, ip: string, port: int)
      requires Valid() && IsS8(nodeType) && IsS8(nodeId)
      modifies this
      ensures Valid() && old(sent) <= sent
      ensures var c := Channel(nodeType, nodeId);
        if c in old(nodes) then nodes == old(nodes) && stays == old(stays) && sent == old(sent)
        else
          && nodes == old(nodes)[c := NodeInfo(nodeType, nodeId, ip, port)]
          && stays == old(stays)[c := old(openings)]
    {
      hide Mesh, Truthful, Numbered, Introduced, TruthfulWith, Channel, Introduction;
      var channel := Channel(nodeType, nodeId);
      InMap(nodes, stays, sent);
      if channel in nodes { return; }
      var info := NodeInfo(nodeType, nodeId, ip, port);
      ghost var now := Session(channel, openings);
      NobodyIntroduced(stays, sent, openings, channel);
      NothingSaid(nodes, stays, sent, now, info);
      NumberedMore(stays, sent, openings);
      var rest := nodes.Keys;
      while rest != {}
        invariant rest <= nodes.Keys && old(sent) <= sent && nodes == old(nodes) && stays == old(stays)
        invariant openings == old(openings)
        invariant Mesh(stays, sent) && Numbered(stays, sent, openings + 1)
        invariant TruthfulWith(nodes, stays, sent, now, info) && Introduced(stays, sent, now, rest)
        decreases rest
      {
        var d := Pick(rest);
        Introduce(d, info, now, rest);
        rest := rest - {d};
      }
      MeshGrows(stays, sent, now);
      NumberedLast(stays, sent, now);
      TruthfulLast(nodes, stays, sent, now, info);
      nodes := nodes[channel := info];
      stays := stays[channel := openings];
      openings := openings + 1;
    }

    /** One round of the loop. */
    method Introduce(d: int, info: NodeInfo, ghost now: Session, ghost rest: set<int>)
      requires d in nodes && d in stays && d in rest && now.channel !in stays && now.number == openings
      requires now.channel == Channel(info.nodeType, info.nodeId)
      requires Mesh(stays, sent) && Numbered(stays, sent, openings + 1)
      requires TruthfulWith(nodes, stays, sent, now, info) && Introduced(stays, sent, now, rest)
      modifies this`sent
      ensures old(sent) <= sent && Mesh(stays, sent) && Numbered(stays, sent, openings + 1)
      ensures TruthfulWith(nodes, stays, sent, now, info) && Introduced(stays, sent, now, rest - {d})
    {
      hide Mesh, Truthful, Numbered, Introduced, TruthfulWith, Channel;
      IntroduceOne(stays, nodes, sent, now, info, rest, d);
      OthersKeep(stays, nodes, sent, now, info, d);
      TruthfulOne(nodes, stays, sent, now, info, d);
      NumberedOne(nodes, stays, sent, now, info, d);
      if d < Channel(info.nodeType, info.nodeId) {
        SendMessage(nodes[d].nodeType, nodes[d].nodeId, info, SessionOf(stays, d), now);
      } else {
        SendMessage(info.nodeType, info.nodeId, nodes[d], now, SessionOf(stays, d));
      }
    }

    static method Pick(s: set<int>) returns (d: int)
      requires s != {}
      ensures d in s
    {
      assert (forall x :: x !in s) ==> s == {};
      d :| d in s;
    }

    static lemma InMap(nodes: map<int, NodeInfo>, stays: map<int, nat>, sent: seq<Message>)
      requires Truthful(nodes, stays, sent)
      ensures nodes.Keys == stays.Keys
    {
      assert forall c :: c in stays.Keys <==> c in nodes.Keys;
    }

    static lemma NumberedMore(stays: map<int, nat>, sent: seq<Message>, next: nat)
      requires Numbered(stays, sent, next)
      ensures Numbered(stays, sent, next + 1)
    {
    }

    static lemma NumberedLast(stays: map<int, nat>, sent: seq<Message>, now: Session)
      requires Numbered(stays, sent, now.number + 1)
      ensures Numbered(stays[now.channel := now.number], sent, now.number + 1)
    {
    }

    static lemma TruthfulLast(nodes: map<int, NodeInfo>, stays: map<int, nat>, sent: seq<Message>, now: Session,
        info: NodeInfo)
      requires TruthfulWith(nodes, stays, sent, now, info)
      ensures Truthful(nodes[now.channel := info], stays[now.channel := now.number], sent)
    {
    }

    method OnClose(nodeType: int, nodeId: int)
      requires Valid() && IsS8(nodeType) && IsS8(nodeId)
      modifies this
      ensures Valid() && sent == old(sent)
      ensures nodes == old(nodes) - {Channel(nodeType, nodeId)} && stays == old(stays) - {Channel(nodeType, nodeId)}
    {
      hide Inv;
      CloseKeeps(nodes, stays, sent, openings, Channel(nodeType, nodeId));
      nodes := nodes - {Channel(nodeType, nodeId)};
      stays := stays - {Channel(nodeType, nodeId)};
    }
  }

  /** Full mesh, one initiator: whichever two nodes are open, exactly one message has passed between their present
      stays; it went to the one with the smaller channel and named the other and its address. */
  lemma OneInitiator(nodes: map<int, NodeInfo>, stays: map<int, nat>, sent: seq<Message>, next: nat, c: int, d: int)
    returns (k: nat)
    requires Inv(nodes, stays, sent, next) && c in nodes && d in nodes && c < d
    ensures c in stays && d in stays
    ensures Told(sent, SessionOf(stays, c), SessionOf(stays, d)) == 1
    ensures Told(sent, SessionOf(stays, d), SessionOf(stays, c)) == 0
    ensures k < |sent| && sent[k].to == SessionOf(stays, c) && sent[k].about == SessionOf(stays, d)
    ensures Carries(sent[k], nodes[c], nodes[d])
  {
    k := TheMessage(sent, SessionOf(stays, c), SessionOf(stays, d));
  }

  lemma {:induction false} TheMessage(sent: seq<Message>, to: Session, about: Session) returns (k: nat)
    requires Told(sent, to, about) > 0
    ensures k < |sent| && sent[k].to == to && sent[k].about == about
  {
    var last := |sent| - 1;
    if sent[last].to == to && sent[last].about == about {
      k := last;
    } else {
      k := TheMessage(sent[..last], to, about);
    }
  }
}
