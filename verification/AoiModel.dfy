/** Objects, boxes and box edges of Project/Public/2D/ZoneAOI.h, and the brute-force meaning of a flush. */
module AoiModel {
  import opened Seqs

  type Id = int

  /** `Vector3D`: the axes are X = 0, Z = 1 and Y = 2. */
  datatype Vec = Vec(x: int, z: int, y: int)

  function Get(v: Vec, axis: nat): int {
    if axis == 0 then v.x else if axis == 1 then v.z else v.y
  }

  /** An `ObjNode`: where it is, and the two corners of its box. */
  datatype Obj = Obj(id: Id, pos: Vec, left: Vec, right: Vec)

  /** One edge of a box, in the boundary list. */
  datatype Edge = Edge(start: bool, obj: Obj)

  function At(e: Edge, axis: nat): int {
    Get(if e.start then e.obj.left else e.obj.right, axis)
  }

  /** `IsContain` of a position. */
  predicate InBox(o: Obj, pos: Vec) {
    && InRange(o, 0, pos.x)
    && InRange(o, 1, pos.z)
    && InRange(o, 2, pos.y)
  }

  /** `IsContain` in one axis. */
  predicate InRange(o: Obj, axis: nat, v: int) {
    Get(o.left, axis) <= v <= Get(o.right, axis)
  }

  function NewObj(id: Id, pos: Vec, bound: Vec): Obj {
    Obj(id, pos, Vec(pos.x - bound.x, pos.z - bound.z, pos.y - bound.y),
      Vec(pos.x + bound.x, pos.z + bound.z, pos.y + bound.y))
  }

  /** All boxes have the same half-extents, positive along X and Z, and no id belongs to two objects. */
  ghost predicate Uniform(s: set<Obj>, bound: Vec) {
    && bound.x > 0 && bound.z > 0
    && (forall o :: o in s ==> o == NewObj(o.id, o.pos, bound))
    && (forall o, p :: o in s && p in s && o.id == p.id ==> o == p)
  }

  /** Brute force: the ids of the other objects whose position lies in the box. */
  ghost function Neighbours(o: Obj, s: set<Obj>): set<Id> {
    set p | p in s && p != o && InBox(o, p.pos) :: p.id
  }

  ghost function IdsOf(s: set<Obj>): set<Id> {
    set o | o in s :: o.id
  }

  const MAX_CHECK_NUM := 128

  ghost predicate Increasing(s: seq<int>) {
    forall i, j :: 0 <= i < j < |s| ==> s[i] < s[j]
  }

  /** What a flush owes an object with the given neighbours: their ids in increasing order, all of them unless there
      are more than the check limit, and then that many or one more. */
  ghost predicate Served(now: seq<Id>, ids: set<Id>) {
    && Increasing(now)
    && Elements(now) <= ids
    && (|ids| <= MAX_CHECK_NUM ==> Elements(now) == ids)
    && (|ids| > MAX_CHECK_NUM ==> MAX_CHECK_NUM <= |now| <= MAX_CHECK_NUM + 1)
  }

  /** One position lies in the box around another: along no axis are they further apart than the boundary
      vector says. */
  ghost predicate Sees(bound: Vec, p: Vec, q: Vec) {
    && -bound.x <= q.x - p.x <= bound.x
    && -bound.z <= q.z - p.z <= bound.z
    && -bound.y <= q.y - p.y <= bound.y
  }

  /** The objects that an object sees, by nothing but the positions. */
  ghost function Seen(at: map<Id, Vec>, bound: Vec, id: Id): set<Id>
    requires id in at
  {
    set q | q in at && q != id && Sees(bound, at[id], at[q])
  }

  /** What a flush owes an object, said of positions. */
  lemma ServedMeans(ids: seq<Id>, at: map<Id, Vec>, bound: Vec, id: Id)
    requires id in at && Served(ids, Seen(at, bound, id))
    ensures forall i, j :: 0 <= i < j < |ids| ==> ids[i] < ids[j]
    ensures forall q :: q in ids ==> q in at && q != id && Sees(bound, at[id], at[q])
    ensures |Seen(at, bound, id)| <= 128 ==>
      forall q :: q in at && q != id && Sees(bound, at[id], at[q]) ==> q in ids
    ensures |Seen(at, bound, id)| > 128 ==> 128 <= |ids| <= 129
  {
    hide Sees;
    var seen := Seen(at, bound, id);
    forall q | q in ids ensures q in seen {
      assert q in Elements(ids);
    }
    if |seen| <= 128 {
      forall q | q in seen ensures q in ids {
        assert q in Elements(ids);
      }
    }
  }

  lemma SeenBothWays(at: map<Id, Vec>, bound: Vec, a: Id, b: Id)
    requires a in at && b in at
    ensures b in Seen(at, bound, a) <==> a in Seen(at, bound, b)
  {
  }

  /** What the boxes say is what the positions say. */
  lemma NeighboursAreSeen(s: set<Obj>, at: map<Id, Vec>, bound: Vec, o: Obj)
    requires Uniform(s, bound) && o in s && o.id in at
    requires forall p :: p in s ==> p.id in at && at[p.id] == p.pos
    requires forall q :: q in at ==> exists p :: p in s && p.id == q
    ensures Neighbours(o, s) == Seen(at, bound, o.id)
  {
    forall q ensures q in Neighbours(o, s) <==> q in Seen(at, bound, o.id) {
      if q in Seen(at, bound, o.id) {
        var p :| p in s && p.id == q;
        assert p != o && InBox(o, p.pos);
      }
    }
  }

  /** Objects whose ranges along one axis lie side by side are not in each other's boxes. */
  lemma SideBySide(o: Obj, p: Obj, axis: nat, bound: Vec)
    requires axis < 2 && bound.x > 0 && bound.z > 0
    requires o == NewObj(o.id, o.pos, bound) && p == NewObj(p.id, p.pos, bound)
    requires Get(o.right, axis) <= Get(p.left, axis)
    ensures !InBox(o, p.pos) && !InBox(p, o.pos)
  {
  }

  /** A cluster that lies beside all other objects contains all neighbours of its members. */
  lemma NeighboursInCluster(o: Obj, cluster: set<Obj>, s: set<Obj>)
    requires cluster <= s
    requires forall p :: p in s && p !in cluster ==> !InBox(o, p.pos)
    ensures Neighbours(o, cluster) == Neighbours(o, s)
  {
  }

  // ---------------------------------------------------------------------------------------------------------
  // Sorting by a coordinate, keeping the order of equals (`std::list::sort`)

  ghost predicate SortedAlong(s: seq<Edge>, axis: nat) {
    forall i, j :: 0 <= i < j < |s| ==> At(s[i], axis) <= At(s[j], axis)
  }

  function InsertEdge(s: seq<Edge>, e: Edge, axis: nat): seq<Edge> {
    if s == [] || At(s[|s| - 1], axis) <= At(e, axis) then s + [e]
    else InsertEdge(s[..|s| - 1], e, axis) + [s[|s| - 1]]
  }

  lemma {:induction false} InsertEdgeAdds(s: seq<Edge>, e: Edge, axis: nat)
    ensures multiset(InsertEdge(s, e, axis)) == multiset(s) + multiset{e}
    ensures |InsertEdge(s, e, axis)| == |s| + 1
  {
    if s != [] && !(At(s[|s| - 1], axis) <= At(e, axis)) {
      InsertEdgeAdds(s[..|s| - 1], e, axis);
      assert s == s[..|s| - 1] + [s[|s| - 1]];
    }
  }

  lemma {:induction false} InsertEdgeSorts(s: seq<Edge>, e: Edge, axis: nat)
    requires SortedAlong(s, axis)
    ensures SortedAlong(InsertEdge(s, e, axis), axis)
  {
    if s != [] && !(At(s[|s| - 1], axis) <= At(e, axis)) {
      var u, last := s[..|s| - 1], s[|s| - 1];
      InsertEdgeSorts(u, e, axis);
      InsertEdgeAdds(u, e, axis);
      forall i | 0 <= i < |s| ensures At(InsertEdge(u, e, axis)[i], axis) <= At(last, axis) {
        assert InsertEdge(u, e, axis)[i] in multiset(InsertEdge(u, e, axis));
      }
    }
  }

  /** `boundaryList->sort`: insertion of one edge after the other. */
  method SortEdges(list: seq<Edge>, axis: nat) returns (sorted: seq<Edge>)
    ensures SortedAlong(sorted, axis) && multiset(sorted) == multiset(list) && |sorted| == |list|
  {
    sorted := [];
    for i := 0 to |list|
      invariant SortedAlong(sorted, axis) && multiset(sorted) == multiset(list[..i]) && |sorted| == i
    {
      InsertEdgeSorts(sorted, list[i], axis);
      InsertEdgeAdds(sorted, list[i], axis);
      sorted := InsertEdge(sorted, list[i], axis);
      assert list[..i + 1] == list[..i] + [list[i]];
    }
    assert list[..|list|] == list;
  }

  function InsertId(s: seq<Id>, x: Id): seq<Id> {
    if s == [] || s[|s| - 1] <= x then s + [x] else InsertId(s[..|s| - 1], x) + [s[|s| - 1]]
  }

  lemma {:induction false} InsertIdIncreases(s: seq<Id>, x: Id)
    requires Increasing(s) && x !in s
    ensures Increasing(InsertId(s, x)) && Elements(InsertId(s, x)) == Elements(s) + {x}
    ensures |InsertId(s, x)| == |s| + 1
  {
    if s != [] && !(s[|s| - 1] <= x) {
      var u, last := s[..|s| - 1], s[|s| - 1];
      InsertIdIncreases(u, x);
      assert s == u + [last];
      forall i | 0 <= i < |s| ensures InsertId(u, x)[i] < last {
        assert InsertId(u, x)[i] in Elements(InsertId(u, x));
      }
    }
  }

  /** `_now.sort`, for a list without repetition. */
  method SortIds(list: seq<Id>) returns (sorted: seq<Id>)
    requires NoDup(list)
    ensures Increasing(sorted) && Elements(sorted) == Elements(list) && |sorted| == |list|
  {
    sorted := [];
    for i := 0 to |list|
      invariant Increasing(sorted) && Elements(sorted) == Elements(list[..i]) && |sorted| == i
    {
      NoDupAt(list, i);
      assert list[i] !in Elements(sorted);
      InsertIdIncreases(sorted, list[i]);
      sorted := InsertId(sorted, list[i]);
      assert list[..i + 1] == list[..i] + [list[i]];
    }
    assert list[..|list|] == list;
  }

  lemma {:induction false} NoDupAt<T>(s: seq<T>, i: nat)
    requires NoDup(s) && i < |s|
    ensures s[i] !in s[..i]
  {
    if i > 0 {
      NoDupAt(s[1..], i - 1);
      assert s[..i] == [s[0]] + s[1..][..i - 1];
      assert s[i] in s[1..];
    }
  }

  // ---------------------------------------------------------------------------------------------------------
  // Clusters of a sorted boundary list

  /** Both edges of each object of a set, each once, and no other edge. */
  ghost predicate Paired(list: seq<Edge>, s: set<Obj>) {
    NoDup(list) && forall e :: e in list <==> e.obj in s
  }

  /** The objects whose boxes open within a stretch of the list, in order; and those whose boxes close. */
  function Opens(seg: seq<Edge>): seq<Obj> {
    if seg == [] then []
    else Opens(seg[..|seg| - 1]) + if seg[|seg| - 1].start then [seg[|seg| - 1].obj] else []
  }

  function Closes(seg: seq<Edge>): seq<Obj> {
    if seg == [] then []
    else Closes(seg[..|seg| - 1]) + if seg[|seg| - 1].start then [] else [seg[|seg| - 1].obj]
  }

  lemma {:induction false} OpensAre(seg: seq<Edge>)
    ensures forall o :: o in Opens(seg) <==> Edge(true, o) in seg
    ensures forall o :: o in Closes(seg) <==> Edge(false, o) in seg
  {
    if seg != [] {
      OpensAre(seg[..|seg| - 1]);
      assert seg == seg[..|seg| - 1] + [seg[|seg| - 1]];
    }
  }

  lemma {:induction false} OpensNoDup(seg: seq<Edge>)
    requires NoDup(seg)
    ensures NoDup(Opens(seg)) && NoDup(Closes(seg))
  {
    if seg != [] {
      var u, e := seg[..|seg| - 1], seg[|seg| - 1];
      NoDupPrefix(seg, |seg| - 1);
      NoDupAt(seg, |seg| - 1);
      OpensNoDup(u);
      OpensAre(u);
      assert e == Edge(e.start, e.obj);
      assert Opens(u) + [] == Opens(u) && Closes(u) + [] == Closes(u);
      if e.start { NoDupAppend(Opens(u), e.obj); } else { NoDupAppend(Closes(u), e.obj); }
    }
  }

  lemma {:induction false} OpensSorted(seg: seq<Edge>, axis: nat, bound: Vec)
    requires SortedAlong(seg, axis)
    requires forall e :: e in seg ==> e.obj == NewObj(e.obj.id, e.obj.pos, bound)
    ensures forall i, j :: 0 <= i < j < |Opens(seg)| ==> Get(Opens(seg)[i].pos, axis) <= Get(Opens(seg)[j].pos, axis)
  {
    if seg != [] {
      var u, e := seg[..|seg| - 1], seg[|seg| - 1];
      OpensSorted(u, axis, bound);
      if e.start {
        forall i | 0 <= i < |Opens(u)| ensures Get(Opens(u)[i].pos, axis) <= Get(e.obj.pos, axis) {
          OpensNoLater(seg, axis, bound, Opens(u)[i]);
        }
      }
      hide SortedAlong;
      assert Opens(seg) == Opens(u) + if e.start then [e.obj] else [];
    }
  }

  lemma OpensNoLater(seg: seq<Edge>, axis: nat, bound: Vec, o: Obj)
    requires SortedAlong(seg, axis) && seg != [] && seg[|seg| - 1].start && o in Opens(seg[..|seg| - 1])
    requires forall e :: e in seg ==> e.obj == NewObj(e.obj.id, e.obj.pos, bound)
    ensures Get(o.pos, axis) <= Get(seg[|seg| - 1].obj.pos, axis)
  {
    hide Opens;
    var u, e := seg[..|seg| - 1], seg[|seg| - 1];
    OpensAre(u);
    var k :| 0 <= k < |u| && u[k] == Edge(true, o);
    assert At(seg[k], axis) <= At(e, axis) && seg[k] in seg && e in seg;
  }

  lemma PairedSort(list: seq<Edge>, sorted: seq<Edge>, s: set<Obj>)
    requires Paired(list, s) && multiset(sorted) == multiset(list)
    ensures Paired(sorted, s)
  {
    NoDupMultiset(list);
    NoDupMultiset(sorted);
    forall e ensures e in sorted <==> e in list {
      assert e in sorted <==> e in multiset(sorted);
      assert e in list <==> e in multiset(list);
    }
  }

  /** Behind closed clusters, a box that closes in the current stretch has opened in it. */
  lemma ClosedHasOpened(list: seq<Edge>, s: set<Obj>, done: set<Obj>, start: nat, end: nat, axis: nat, bound: Vec,
      o: Obj)
    requires axis < 2 && SortedAlong(list, axis) && Paired(list, s) && Uniform(s, bound)
    requires start <= end <= |list| && Paired(list[..start], done)
    requires Edge(false, o) in list[start..end]
    ensures Edge(true, o) in list[start..end]
  {
    hide Paired, SortedAlong, Uniform;
    var b :| start <= b < end && list[b] == Edge(false, o);
    assert list[b] in list;
    var a := OpenBeforeClose(list, s, axis, bound, o, b);
    NotAmongClosed(list, s, done, start, o, a, b);
    assert list[start..end][a - start] == list[a];
  }

  /** In a sorted list a box opens before it closes. */
  lemma OpenBeforeClose(list: seq<Edge>, s: set<Obj>, axis: nat, bound: Vec, o: Obj, b: nat) returns (a: nat)
    requires axis < 2 && SortedAlong(list, axis) && Paired(list, s) && Uniform(s, bound)
    requires b < |list| && list[b] == Edge(false, o)
    ensures a < b && list[a] == Edge(true, o)
  {
    assert list[b] in list && Edge(true, o) in list;
    assert o == NewObj(o.id, o.pos, bound);
    a :| 0 <= a < |list| && list[a] == Edge(true, o);
  }

  lemma NotAmongClosed(list: seq<Edge>, s: set<Obj>, done: set<Obj>, start: nat, o: Obj, a: nat, b: nat)
    requires Paired(list, s) && start <= b < |list| && Paired(list[..start], done)
    requires a < b && list[a] == Edge(true, o) && list[b] == Edge(false, o)
    ensures start <= a
  {
    NoDupApart(list, start);
    assert list[b] == list[start..][b - start];
    assert Edge(false, o) !in list[..start];
    assert o !in done;
    assert Edge(true, o) !in list[..start];
    assert forall k :: 0 <= k < start ==> list[k] in list[..start];
  }

  /** When as many boxes have closed as have opened, the stretch holds whole boxes only. */
  lemma Balanced(list: seq<Edge>, s: set<Obj>, done: set<Obj>, start: nat, end: nat, axis: nat, bound: Vec)
    requires axis < 2 && SortedAlong(list, axis) && Paired(list, s) && Uniform(s, bound)
    requires start <= end <= |list| && Paired(list[..start], done)
    requires |Opens(list[start..end])| == |Closes(list[start..end])|
    ensures Paired(list[start..end], Elements(Opens(list[start..end])))
  {
    var seg := list[start..end];
    SliceNoDup(list, start, end);
    OpensAre(seg);
    OpensNoDup(seg);
    var opens, closes := Elements(Opens(seg)), Elements(Closes(seg));
    CountElements(Opens(seg));
    CountElements(Closes(seg));
    forall o | o in closes ensures o in opens {
      ClosedHasOpened(list, s, done, start, end, axis, bound, o);
    }
    SubsetSize(closes, opens);
    forall e ensures e in seg <==> e.obj in opens {
      assert e == Edge(true, e.obj) || e == Edge(false, e.obj);
    }
  }

  lemma SliceNoDup(list: seq<Edge>, start: nat, end: nat)
    requires NoDup(list) && start <= end <= |list|
    ensures NoDup(list[start..end]) && NoDup(list[..end]) && list[..end] == list[..start] + list[start..end]
    ensures forall e :: e in list[..start] ==> e !in list[start..end]
  {
    NoDupPrefix(list, end);
    NoDupPrefix(list[..end], start);
    NoDupApart(list[..end], start);
    assert list[..end][start..] == list[start..end] && list[..end][..start] == list[..start];
  }

  /** A closed cluster joins the closed ones before it. */
  lemma ClusterJoins(list: seq<Edge>, s: set<Obj>, done: set<Obj>, cluster: set<Obj>, start: nat, end: nat)
    requires Paired(list, s) && start <= end <= |list|
    requires Paired(list[..start], done) && Paired(list[start..end], cluster)
    ensures Paired(list[..end], done + cluster) && cluster <= s && cluster !! done
  {
    SliceNoDup(list, start, end);
    forall o | o in cluster ensures o in s && o !in done {
      assert Edge(true, o) in list[start..end];
      assert Edge(true, o) in list;
    }
  }

  /** A cluster lies beside everything that was closed before it and everything that opens after it. */
  lemma ClusterApart(list: seq<Edge>, s: set<Obj>, done: set<Obj>, cluster: set<Obj>, start: nat, end: nat, axis: nat,
      bound: Vec, o: Obj, p: Obj)
    requires axis < 2 && SortedAlong(list, axis) && Paired(list, s) && Uniform(s, bound)
    requires start <= end <= |list| && Paired(list[..start], done) && Paired(list[start..end], cluster)
    requires o in cluster && o in s && p in s && p !in cluster
    ensures !InBox(o, p.pos)
  {
    hide SortedAlong, Uniform;
    if p in done {
      BeforeCluster(list, done, cluster, start, end, axis, p, o);
      InUniform(s, bound, o, p);
      SideBySide(p, o, axis, bound);
    } else {
      AfterCluster(list, s, done, cluster, start, end, axis, o, p);
      InUniform(s, bound, o, p);
      SideBySide(o, p, axis, bound);
    }
  }

  lemma InUniform(s: set<Obj>, bound: Vec, o: Obj, p: Obj)
    requires Uniform(s, bound) && o in s && p in s
    ensures bound.x > 0 && bound.z > 0 && o == NewObj(o.id, o.pos, bound) && p == NewObj(p.id, p.pos, bound)
  {
  }

  lemma BeforeCluster(list: seq<Edge>, done: set<Obj>, cluster: set<Obj>, start: nat, end: nat, axis: nat, p: Obj,
      o: Obj)
    requires axis < 2 && SortedAlong(list, axis) && start <= end <= |list|
    requires Paired(list[..start], done) && Paired(list[start..end], cluster) && p in done && o in cluster
    ensures Get(p.right, axis) <= Get(o.left, axis)
  {
    var seg := list[start..end];
    assert Edge(false, p) in list[..start] && Edge(true, o) in seg;
    var c :| 0 <= c < start && list[..start][c] == Edge(false, p);
    var k :| 0 <= k < |seg| && seg[k] == Edge(true, o);
    assert At(list[c], axis) <= At(list[start + k], axis);
  }

  lemma AfterCluster(list: seq<Edge>, s: set<Obj>, done: set<Obj>, cluster: set<Obj>, start: nat, end: nat, axis: nat,
      o: Obj, p: Obj)
    requires axis < 2 && SortedAlong(list, axis) && start <= end <= |list| && Paired(list, s)
    requires Paired(list[..start], done) && Paired(list[start..end], cluster)
    requires o in cluster && p in s && p !in cluster && p !in done
    ensures Get(o.right, axis) <= Get(p.left, axis)
  {
    var seg := list[start..end];
    assert Edge(true, p) in list && Edge(false, o) in seg;
    var c :| 0 <= c < |list| && list[c] == Edge(true, p);
    var k :| 0 <= k < |seg| && seg[k] == Edge(false, o);
    OpensBehind(list, done, cluster, start, end, p, c);
    assert At(list[start + k], axis) <= At(list[c], axis);
  }

  lemma OpensBehind(list: seq<Edge>, done: set<Obj>, cluster: set<Obj>, start: nat, end: nat, p: Obj, c: nat)
    requires start <= end <= |list| && Paired(list[..start], done) && Paired(list[start..end], cluster)
    requires p !in cluster && p !in done && c < |list| && list[c] == Edge(true, p)
    ensures end <= c
  {
    hide NoDup;
    if c < start {
      InSlice(list, 0, start, c);
    } else if c < end {
      InSlice(list, start, end, c);
    }
  }

  lemma InSlice(list: seq<Edge>, a: int, b: int, c: int)
    requires 0 <= a <= c < b <= |list|
    ensures list[c] in list[a..b] && list[0..b] == list[..b]
  {
    assert list[a..b][c - a] == list[c];
  }
}
