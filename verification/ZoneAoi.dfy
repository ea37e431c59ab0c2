/** The area-of-interest flush of Project/Public/2D/ZoneAOI.cpp: clusters by bracket counting, recursion on the other
    axis, and a two-way sweep with early stop, instead of comparing every pair. */
module ZoneAoi {
  import opened Seqs
  import opened AoiModel

  const VECTOR_NUM := 2
  const FORCE_COMP_NUM := 16

  /** Which axes have been tried, and which one to sort by. */
  datatype SearchInfo = SearchInfo(markX: bool, markZ: bool, searchNum: nat) {
    predicate IsSearchEnd() { markX && markZ }

    function Marked(axis: nat): bool { if axis == 0 then markX else markZ }

    function Mark(): SearchInfo
    {
      if searchNum == 0 then this.(markX := true) else this.(markZ := true)
    }

    /** `GetNextSearchInfo`: the other axis, remembering the marks. */
    function GetNext(): SearchInfo {
      Mark().(searchNum := if searchNum + 1 == VECTOR_NUM then 0 else searchNum + 1)
    }

    /** `GetNewSearchInfo`: the other axis, with only this axis marked. */
    function GetNew(): SearchInfo {
      SearchInfo(false, false, searchNum).GetNext()
    }

    /** The axes that are still to be tried. */
    function Unmarked(): nat {
      (if markX then 0 else 1) + if markZ then 0 else 1
    }
  }

  ghost predicate SortedObjs(objs: seq<Obj>, axis: nat) {
    forall i, j :: 0 <= i < j < |objs| ==> Get(objs[i].pos, axis) <= Get(objs[j].pos, axis)
  }

  predicate Near(objs: seq<Obj>, i: nat, k: int)
    requires i < |objs|
  {
    0 <= k < |objs| && k != i && InBox(objs[i], objs[k].pos)
  }

  /** The ids of the neighbours of the object at `i` that stand within `lo..hi`. */
  ghost function NearIds(objs: seq<Obj>, i: nat, lo: nat, hi: nat): set<Id>
    requires i < |objs|
  {
    set k: nat | lo <= k <= hi && k < |objs| && Near(objs, i, k) :: objs[k].id
  }

  ghost predicate DistinctIds(objs: seq<Obj>) {
    forall i, j :: 0 <= i < j < |objs| ==> objs[i].id != objs[j].id
  }

  lemma OneMore(objs: seq<Obj>, i: nat, lo: nat, hi: nat, k: nat)
    requires i < |objs| && DistinctIds(objs) && k < |objs| && lo <= i <= hi
    requires k == hi + 1 || k + 1 == lo
    ensures NearIds(objs, i, if k < lo then k else lo, if k > hi then k else hi) ==
      NearIds(objs, i, lo, hi) + if Near(objs, i, k) then {objs[k].id} else {}
    ensures objs[k].id !in NearIds(objs, i, lo, hi)
  {
    var lo', hi' := if k < lo then k else lo, if k > hi then k else hi;
    var big, small := NearIds(objs, i, lo', hi'), NearIds(objs, i, lo, hi);
    forall x ensures x in big <==> x in small || (Near(objs, i, k) && x == objs[k].id) {
      if x in big {
        var m: nat :| lo' <= m <= hi' && m < |objs| && Near(objs, i, m) && objs[m].id == x;
      }
      if x in small {
        var m: nat :| lo <= m <= hi && m < |objs| && Near(objs, i, m) && objs[m].id == x;
        assert lo' <= m <= hi';
      }
    }
  }

  lemma NoneMore(objs: seq<Obj>, i: nat, lo: nat, hi: nat, lo': nat, hi': nat)
    requires i < |objs| && lo' <= lo && hi <= hi'
    requires forall k: nat :: k < |objs| && (lo' <= k < lo || hi < k <= hi') ==> !Near(objs, i, k)
    ensures NearIds(objs, i, lo', hi') == NearIds(objs, i, lo, hi)
  {
    var big, small := NearIds(objs, i, lo', hi'), NearIds(objs, i, lo, hi);
    forall x ensures x in big <==> x in small {
      if x in big {
        var m: nat :| lo' <= m <= hi' && m < |objs| && Near(objs, i, m) && objs[m].id == x;
        assert lo <= m <= hi;
      }
    }
  }

  lemma WindowGrows(objs: seq<Obj>, i: nat, lo: nat, hi: nat)
    requires i < |objs|
    ensures NearIds(objs, i, lo, hi) <= NearIds(objs, i, 0, |objs|)
  {
  }

  /** The first object out of range forward along the sorted axis puts all later ones out of the box. */
  lemma StopForward(objs: seq<Obj>, i: nat, f: nat, axis: nat)
    requires i < f < |objs| && axis < 2 && SortedObjs(objs, axis)
    requires Get(objs[i].left, axis) <= Get(objs[i].pos, axis)
    requires !InRange(objs[i], axis, Get(objs[f].pos, axis))
    ensures forall k :: f <= k < |objs| ==> !InBox(objs[i], objs[k].pos)
  {
    forall k | f <= k < |objs| ensures !InBox(objs[i], objs[k].pos) {
      assert Get(objs[i].pos, axis) <= Get(objs[f].pos, axis) <= Get(objs[k].pos, axis);
    }
  }

  lemma StopBack(objs: seq<Obj>, i: nat, b: nat, axis: nat)
    requires b < i < |objs| && axis < 2 && SortedObjs(objs, axis)
    requires Get(objs[i].pos, axis) <= Get(objs[i].right, axis)
    requires !InRange(objs[i], axis, Get(objs[b].pos, axis))
    ensures forall k :: 0 <= k <= b ==> !InBox(objs[i], objs[k].pos)
  {
    forall k | 0 <= k <= b ensures !InBox(objs[i], objs[k].pos) {
      assert Get(objs[k].pos, axis) <= Get(objs[b].pos, axis) <= Get(objs[i].pos, axis);
    }
  }

  class ZoneAoi {
    var objMap: map<Id, Obj>
    var boundVector: Vec
    /** `_now` and `_last` of the objects. */
    var now: map<Id, seq<Id>>
    var last: map<Id, seq<Id>>

    ghost predicate Valid()
      reads this
    {
      && now.Keys == last.Keys == objMap.Keys
      && forall id :: id in objMap ==> objMap[id].id == id
    }

    /** Every object got its box from the boundary vector that is set now. */
    ghost predicate SharesBoundary()
      reads this
    {
      boundVector.x > 0 && boundVector.z > 0
      && forall id :: id in objMap ==> objMap[id] == NewObj(id, objMap[id].pos, boundVector)
    }

    constructor (bound: Vec)
      ensures Valid() && objMap == map[] && boundVector == bound
      ensures bound.x > 0 && bound.z > 0 ==> SharesBoundary()
    {
      objMap, now, last := map[], map[], map[];
      boundVector := bound;
    }

    /** Where the objects are. */
    ghost function Positions(): map<Id, Vec>
      reads this
    {
      map id | id in objMap :: objMap[id].pos
    }

    /** `Enter`: an id that is in the zone already keeps its object. */
    method Enter(id: Id, pos: Vec)
      requires Valid()
      modifies this`objMap, this`now, this`last
      ensures Valid() && (old(SharesBoundary()) ==> SharesBoundary())
      ensures id in old(objMap) ==> objMap == old(objMap)
      ensures id !in old(objMap) ==> objMap == old(objMap)[id := Obj(id, pos, Corner(pos, -1), Corner(pos, 1))]
      ensures Positions() == if id in old(objMap) then old(Positions()) else old(Positions())[id := pos]
    {
      if id !in objMap {
        objMap := objMap[id := NewObj(id, pos, boundVector)];
        now, last := now[id := []], last[id := []];
      }
    }

    /** The corner of a box that lies the boundary vector to one side of the position. */
    ghost function Corner(pos: Vec, side: int): Vec
      reads this
    {
      Vec(pos.x + side * boundVector.x, pos.z + side * boundVector.z, pos.y + side * boundVector.y)
    }

    method Leave(id: Id)
      requires Valid()
      modifies this`objMap, this`now, this`last
      ensures Valid() && (old(SharesBoundary()) ==> SharesBoundary())
      ensures objMap == old(objMap) - {id} && Positions() == old(Positions()) - {id}
    {
      objMap, now, last := objMap - {id}, now - {id}, last - {id};
    }

    method Update(id: Id, pos: Vec)
      requires Valid()
      modifies this`objMap
      ensures Valid() && (old(SharesBoundary()) ==> SharesBoundary())
      ensures id !in old(objMap) ==> objMap == old(objMap)
      ensures id in old(objMap) ==> objMap == old(objMap)[id := Obj(id, pos, Corner(pos, -1), Corner(pos, 1))]
      ensures Positions() == if id in old(objMap) then old(Positions())[id := pos] else old(Positions())
    {
      if id in objMap {
        objMap := objMap[id := NewObj(id, pos, boundVector)];
      }
    }

    /** `Flush`: afterwards every object with up to 128 others in its box has the ids of exactly these, in
        increasing order; one with more has 128 or 129 of them.  Two objects of the first kind have each
        other's id or neither. */
    method Flush()
      requires Valid() && SharesBoundary()
      modifies this`now, this`last
      ensures Valid()
      ensures forall id :: id in objMap ==> last[id] == old(now[id])
      ensures forall id :: id in objMap ==> forall i, j :: 0 <= i < j < |now[id]| ==> now[id][i] < now[id][j]
      ensures forall id :: id in objMap ==>
        forall q :: q in now[id] ==> q in objMap && q != id && Sees(boundVector, objMap[id].pos, objMap[q].pos)
      ensures forall id :: id in objMap && FewSeen(id) ==>
        forall q :: q in objMap && q != id && Sees(boundVector, objMap[id].pos, objMap[q].pos) ==> q in now[id]
      ensures forall id :: id in objMap && !FewSeen(id) ==> 128 <= |now[id]| <= 129
      ensures forall a, b :: a in objMap && b in objMap && FewSeen(a) && FewSeen(b) ==> (b in now[a] <==> a in now[b])
    {
      hide Served, Neighbours, NewObj, AllServed;
      ObjsFit();
      var list := CollectEdges();
      RDClustering(list, SearchInfo(false, false, 0), Objs(objMap));
      hide Uniform;
      AllOf(now, Objs(objMap));
      forall id | id in objMap { PlainlySeen(id); }
      forall a, b | a in objMap && b in objMap && FewSeen(a) && FewSeen(b) ensures b in now[a] <==> a in now[b] {
        SeenBothWays(Positions(), boundVector, a, b);
      }
    }

    lemma ObjsFit()
      requires Valid() && SharesBoundary()
      ensures Uniform(Objs(objMap), boundVector)
      ensures forall id :: id in objMap ==> objMap[id] in Objs(objMap) && objMap[id].id == id
    {
      hide NewObj;
      forall o | o in Objs(objMap)
        ensures o == NewObj(o.id, o.pos, boundVector) && o.id in objMap && objMap[o.id] == o
      {
        ValueHasKey(objMap, o);
      }
    }

    static lemma AllOf(now: map<Id, seq<Id>>, s: set<Obj>)
      requires AllServed(now, s, s)
      ensures forall o :: o in s ==> o.id in now && Served(now[o.id], Neighbours(o, s))
    {
      hide Served, Neighbours;
    }

    /** Up to 128 other objects are in the box. */
    ghost predicate FewSeen(id: Id)
      requires id in objMap
      reads this
    {
      |Seen(Positions(), boundVector, id)| <= 128
    }

    lemma PlainlySeen(id: Id)
      requires Valid() && SharesBoundary() && id in objMap
      requires Served(now[id], Neighbours(objMap[id], Objs(objMap)))
      ensures forall i, j :: 0 <= i < j < |now[id]| ==> now[id][i] < now[id][j]
      ensures forall q :: q in now[id] ==> q in objMap && q != id && Sees(boundVector, objMap[id].pos, objMap[q].pos)
      ensures FewSeen(id) ==>
        forall q :: q in objMap && q != id && Sees(boundVector, objMap[id].pos, objMap[q].pos) ==> q in now[id]
      ensures !FewSeen(id) ==> 128 <= |now[id]| <= 129
    {
      hide Served, Neighbours, Sees;
      NeighboursAreSeen(Objs(objMap), Positions(), boundVector, objMap[id]);
      ServedMeans(now[id], Positions(), boundVector, id);
    }

    /** The first loop of `Flush`: the old neighbours are put aside, and both edges of every box collected. */
    method CollectEdges() returns (list: seq<Edge>)
      requires Valid()
      modifies this`now, this`last
      ensures Valid() && forall id :: id in objMap ==> last[id] == old(now[id])
      ensures Paired(list, Objs(objMap)) && Blank(now, Objs(objMap))
    {
      hide Paired, Blank, Objs;
      list := [];
      var keys := objMap.Keys;
      ghost var seen: set<Obj> := {};
      NothingPaired();
      while keys != {}
        invariant keys <= objMap.Keys && now.Keys == last.Keys == objMap.Keys
        invariant forall o :: o in seen <==> o.id in objMap && o.id !in keys && objMap[o.id] == o
        invariant Paired(list, seen)
        invariant forall id :: id in keys ==> now[id] == old(now[id])
        invariant forall id :: id in objMap && id !in keys ==> now[id] == [] && last[id] == old(now[id])
        decreases |keys|
      {
        assert (forall x :: x !in keys) ==> keys == {};
        var id :| id in keys;
        var o := objMap[id];
        PairedMore(list, seen, o);
        last := last[id := now[id]];
        now := now[id := []];
        list := list + [Edge(true, o), Edge(false, o)];
        seen := seen + {o};
        keys := keys - {id};
      }
      AllSeen(seen);
      AllBlank();
    }

    lemma AllSeen(seen: set<Obj>)
      requires Valid() && forall o :: o in seen <==> o.id in objMap && objMap[o.id] == o
      ensures seen == Objs(objMap)
    {
      forall o ensures o in seen <==> o in Objs(objMap) {
        if o in Objs(objMap) {
          ValueHasKey(objMap, o);
        }
      }
    }

    static lemma NothingPaired()
      ensures Paired([], {})
    {
    }

    lemma AllBlank()
      requires now.Keys == objMap.Keys && (forall id :: id in objMap ==> now[id] == []) && Valid()
      ensures Blank(now, Objs(objMap))
    {
    }

    /** The two-way sweep around one object of a cluster that is sorted along an axis. */
    method Sweep(objs: seq<Obj>, i: nat, axis: nat, had: seq<Id>) returns (found: seq<Id>)
      requires had == []
      requires i < |objs| && axis < 2 && SortedObjs(objs, axis) && DistinctIds(objs)
      requires InRange(objs[i], axis, Get(objs[i].pos, axis))
      ensures NoDup(found) && Elements(found) <= NearIds(objs, i, 0, |objs|)
      ensures |found| <= MAX_CHECK_NUM + 1
      ensures |found| < MAX_CHECK_NUM ==> Elements(found) == NearIds(objs, i, 0, |objs|)
    {
      hide InBox, SortedObjs, NearIds, DistinctIds;
      var forward, back := i, i;
      found := had;
      NothingYet(objs, i);
      while forward != |objs| || back != 0
        invariant i <= forward <= |objs| && 0 <= back <= i
        invariant NoDup(found) && Elements(found) == NearIds(objs, i, back, forward) && |found| < MAX_CHECK_NUM
        decreases |objs| - forward + back
      {
        if forward != |objs| {
          forward, found := StepForward(objs, i, axis, back, forward, found);
        }
        if back != 0 {
          back, found := StepBack(objs, i, axis, back, forward, found);
        }
        WindowGrows(objs, i, back, forward);
        if |found| >= MAX_CHECK_NUM { break; }
      }
      WindowGrows(objs, i, back, forward);
    }

    method StepForward(objs: seq<Obj>, i: nat, axis: nat, ghost back: nat, forward: nat, found: seq<Id>)
      returns (forward': nat, found': seq<Id>)
      requires back <= i <= forward < |objs| && axis < 2 && SortedObjs(objs, axis) && DistinctIds(objs)
      requires InRange(objs[i], axis, Get(objs[i].pos, axis))
      requires NoDup(found) && Elements(found) == NearIds(objs, i, back, forward)
      ensures forward < forward' <= |objs|
      ensures NoDup(found') && Elements(found') == NearIds(objs, i, back, forward') && |found'| <= |found| + 1
    {
      hide InBox, SortedObjs, NearIds, DistinctIds;
      forward', found' := forward + 1, found;
      if forward' == |objs| {
        NoneMore(objs, i, back, forward, back, forward');
      } else {
        var p := objs[forward'];
        OneMore(objs, i, back, forward, forward');
        if InBox(objs[i], p.pos) {
          NoDupAppend(found, p.id);
          found' := found + [p.id];
        } else if !InRange(objs[i], axis, Get(p.pos, axis)) {
          StopForward(objs, i, forward', axis);
          NoneMore(objs, i, back, forward', back, |objs|);
          forward' := |objs|;
        }
      }
    }

    method StepBack(objs: seq<Obj>, i: nat, axis: nat, back: nat, ghost forward: nat, found: seq<Id>)
      returns (back': nat, found': seq<Id>)
      requires 0 < back <= i <= forward && i < |objs| && axis < 2 && SortedObjs(objs, axis) && DistinctIds(objs)
      requires InRange(objs[i], axis, Get(objs[i].pos, axis))
      requires NoDup(found) && Elements(found) == NearIds(objs, i, back, forward)
      ensures back' < back
      ensures NoDup(found') && Elements(found') == NearIds(objs, i, back', forward) && |found'| <= |found| + 1
    {
      hide InBox, SortedObjs, NearIds, DistinctIds;
      back', found' := back - 1, found;
      var p := objs[back'];
      OneMore(objs, i, back, forward, back');
      if InBox(objs[i], p.pos) {
        NoDupAppend(found, p.id);
        found' := found + [p.id];
      } else if !InRange(objs[i], axis, Get(p.pos, axis)) {
        StopBack(objs, i, back', axis);
        NoneMore(objs, i, back', forward, 0, forward);
        back' := 0;
      }
    }

    /** `DoCompare`: a sweep around each object of a cluster. */
    method DoCompare(objs: seq<Obj>, axis: nat)
      requires axis < 2 && SortedObjs(objs, axis) && DistinctIds(objs)
      requires forall o :: o in objs ==> InRange(o, axis, Get(o.pos, axis))
      requires Blank(now, Elements(objs))
      modifies this`now
      ensures now.Keys == old(now.Keys)
      ensures forall id :: id in old(now) && id !in IdsOf(Elements(objs)) ==> now[id] == old(now[id])
      ensures AllServed(now, Elements(objs), Elements(objs))
    {
      hide Served, InBox, SortedObjs, Neighbours, ServedUpTo;
      NoneServed(objs, now);
      for i := 0 to |objs|
        invariant now.Keys == old(now.Keys)
        invariant forall id :: id in old(now) && id !in IdsOf(Elements(objs)) ==> now[id] == old(now[id])
        invariant ServedUpTo(objs, now, i)
      {
        assert objs[i] in objs && objs[i] in Elements(objs);
        NextBlank(objs, now, i);
        var sorted := ServeOne(objs, i, axis, now[objs[i].id]);
        OneServed(objs, now, i, sorted);
        now := now[objs[i].id := sorted];
      }
      AllOfThem(objs, now);
    }

    /** One object of a cluster: the sweep, then `list::sort`. */
    method ServeOne(objs: seq<Obj>, i: nat, axis: nat, had: seq<Id>) returns (sorted: seq<Id>)
      requires had == []
      requires i < |objs| && axis < 2 && SortedObjs(objs, axis) && DistinctIds(objs)
      requires InRange(objs[i], axis, Get(objs[i].pos, axis))
      ensures Served(sorted, Neighbours(objs[i], Elements(objs)))
    {
      hide Served, InBox, SortedObjs, NearIds, Neighbours, Increasing, DistinctIds;
      var found := Sweep(objs, i, axis, had);
      sorted := SortIds(found);
      NearAll(objs, i);
      SweepServes(found, sorted, Neighbours(objs[i], Elements(objs)));
    }

    /** One closed cluster: a small one, or one that has been split along both axes, is swept; any other is clustered
        again along the other axis. */
    method ServeCluster(seg: seq<Edge>, objs: seq<Obj>, info: SearchInfo, last: bool, ghost cluster: set<Obj>)
      returns (info': SearchInfo)
      requires info.searchNum < 2 && Uniform(cluster, boundVector) && Paired(seg, cluster)
      requires SortedAlong(seg, info.searchNum) && objs == Opens(seg) && Elements(objs) == cluster
      requires Blank(now, cluster)
      modifies this`now
      ensures now.Keys == old(now.Keys) && AllServed(now, cluster, cluster)
      ensures forall id :: id in old(now) && id !in IdsOf(cluster) ==> now[id] == old(now[id])
      ensures info' == info || info' == info.Mark()
      decreases |seg|, (if !last || info.Marked(info.searchNum) then 3 else info.Unmarked()), 0
    {
      hide Served, Neighbours, InBox, Blank, AllServed;
      info' := info;
      ClusterObjs(seg, cluster, info.searchNum, boundVector);
      if |objs| <= FORCE_COMP_NUM {
        DoCompare(objs, info.searchNum);
      } else {
        info' := info.Mark();
        if !info'.IsSearchEnd() {
          var searchInfo := if last then info'.GetNext() else info'.GetNew();
          RDClustering(seg, searchInfo, cluster);
        } else {
          DoCompare(objs, info.searchNum);
        }
      }
    }

    /** The end of a cluster: it is served, and with it everything up to here. */
    method CloseCluster(sorted: seq<Edge>, start: nat, end: nat, objs: seq<Obj>, info: SearchInfo, ghost s: set<Obj>,
        ghost done: set<Obj>)
      returns (info': SearchInfo)
      requires start < end <= |sorted| && info.searchNum < 2 && SortedAlong(sorted, info.searchNum)
      requires Uniform(s, boundVector) && Paired(sorted, s) && Paired(sorted[..start], done) && done <= s
      requires objs == Opens(sorted[start..end]) && |objs| == |Closes(sorted[start..end])|
      requires AllServed(now, done, s) && Blank(now, s - done)
      modifies this`now
      ensures Paired(sorted[..end], done + Elements(objs)) && done + Elements(objs) <= s
      ensures AllServed(now, done + Elements(objs), s) && Blank(now, s - (done + Elements(objs)))
      ensures now.Keys == old(now.Keys)
      ensures forall id :: id in old(now) && id !in IdsOf(s) ==> now[id] == old(now[id])
      ensures info' == info || info' == info.Mark()
      decreases end - start, (if end < |sorted| || info.Marked(info.searchNum) then 3 else info.Unmarked()), 1
    {
      hide Served, Neighbours, InBox, Blank, AllServed, Uniform, Paired, SortedAlong, Opens, Closes;
      ghost var cluster, bound, axis := Elements(objs), boundVector, info.searchNum;
      Balanced(sorted, s, done, start, end, axis, bound);
      ClusterJoins(sorted, s, done, cluster, start, end);
      ClusterReady(sorted, s, done, cluster, start, end, axis, bound, now);
      ghost var before := now;
      info' := ServeCluster(sorted[start..end], objs, info, end == |sorted|, cluster);
      ClusterDone(sorted, s, done, cluster, start, end, axis, bound, before, now);
    }

    /** `RDClustering`: sorts the edges along an axis and counts brackets; each time the count comes back to zero, the
        boxes since the last zero form a cluster of their own. */
    method RDClustering(list: seq<Edge>, info: SearchInfo, ghost s: set<Obj>)
      requires info.searchNum < 2 && !info.Marked(info.searchNum)
      requires Uniform(s, boundVector) && Paired(list, s) && Blank(now, s)
      modifies this`now
      ensures now.Keys == old(now.Keys) && AllServed(now, s, s)
      ensures forall id :: id in old(now) && id !in IdsOf(s) ==> now[id] == old(now[id])
      decreases |list|, info.Unmarked(), 2
    {
      hide Served, Neighbours, InBox, Blank, AllServed, Uniform, Paired, SortedAlong, Opens, Closes;
      var axis := info.searchNum;
      var sorted := SortEdges(list, axis);
      PairedSort(list, sorted, s);
      var state := info;
      var start, count, objs := 0, 0, [];
      ghost var done: set<Obj> := {};
      NothingDone(sorted, s, now);
      for i := 0 to |sorted|
        invariant start <= i && objs == Opens(sorted[start..i]) && count == |objs| - |Closes(sorted[start..i])|
        invariant Paired(sorted[..start], done) && done <= s
        invariant AllServed(now, done, s) && Blank(now, s - done)
        invariant now.Keys == old(now.Keys)
        invariant forall id :: id in old(now) && id !in IdsOf(s) ==> now[id] == old(now[id])
        invariant state.searchNum == axis && (start == 0 ==> state == info)
        invariant start < i ==> count != 0
      {
        SegmentGrows(sorted, start, i);
        var e := sorted[i];
        if e.start {
          objs := objs + [e.obj];
          count := count + 1;
        } else {
          count := count - 1;
        }
        if count == 0 {
          assert objs == Opens(sorted[start..i + 1]);
          ghost var cluster := Elements(objs);
          state := CloseCluster(sorted, start, i + 1, objs, state, s, done);
          done := done + cluster;
          start, objs := i + 1, [];
          EmptySegment(sorted, start);
        }
      }
      assert sorted[start..|sorted|] == sorted[start..];
      AllClosed(sorted, s, done, start);
    }
  }

  /** The objects of `part` have been served with their neighbours among `s`. */
  ghost predicate AllServed(now: map<Id, seq<Id>>, part: set<Obj>, s: set<Obj>) {
    forall o :: o in part ==> o.id in now && Served(now[o.id], Neighbours(o, s))
  }

  ghost predicate Blank(now: map<Id, seq<Id>>, s: set<Obj>) {
    forall o :: o in s ==> o.id in now && now[o.id] == []
  }

  ghost function Objs(m: map<Id, Obj>): set<Obj> {
    set id | id in m :: m[id]
  }

  lemma ValueHasKey(m: map<Id, Obj>, o: Obj)
    requires o in Objs(m) && forall id :: id in m ==> m[id].id == id
    ensures o.id in m && m[o.id] == o
  {
    var id :| id in m && m[id] == o;
  }

  lemma PairedMore(list: seq<Edge>, s: set<Obj>, o: Obj)
    requires Paired(list, s) && o !in s
    ensures Paired(list + [Edge(true, o), Edge(false, o)], s + {o})
  {
    assert Edge(true, o) !in list && Edge(false, o) !in list;
    NoDupAppend(list, Edge(true, o));
    NoDupAppend(list + [Edge(true, o)], Edge(false, o));
    assert list + [Edge(true, o)] + [Edge(false, o)] == list + [Edge(true, o), Edge(false, o)];
    forall e ensures e in list + [Edge(true, o), Edge(false, o)] <==> e.obj in s + {o} {
      assert e == Edge(true, e.obj) || e == Edge(false, e.obj);
    }
  }

  /** The first `i` objects of a cluster have been served, the others have no ids yet. */
  ghost predicate ServedUpTo(objs: seq<Obj>, now: map<Id, seq<Id>>, i: nat) {
    && (forall k :: 0 <= k < |objs| ==> objs[k].id in now)
    && (forall k :: i <= k < |objs| ==> now[objs[k].id] == [])
    && (forall k :: 0 <= k < i && k < |objs| ==> Served(now[objs[k].id], Neighbours(objs[k], Elements(objs))))
  }

  lemma NoneServed(objs: seq<Obj>, now: map<Id, seq<Id>>)
    requires Blank(now, Elements(objs))
    ensures ServedUpTo(objs, now, 0)
  {
    hide Served, Neighbours;
    forall k | 0 <= k < |objs| ensures objs[k].id in now && now[objs[k].id] == [] {
      assert objs[k] in Elements(objs);
    }
  }

  lemma NextBlank(objs: seq<Obj>, now: map<Id, seq<Id>>, i: nat)
    requires ServedUpTo(objs, now, i) && i < |objs|
    ensures objs[i].id in now && now[objs[i].id] == []
  {
  }

  lemma OneServed(objs: seq<Obj>, now: map<Id, seq<Id>>, i: nat, sorted: seq<Id>)
    requires ServedUpTo(objs, now, i) && i < |objs| && DistinctIds(objs)
    requires Served(sorted, Neighbours(objs[i], Elements(objs)))
    ensures ServedUpTo(objs, now[objs[i].id := sorted], i + 1)
  {
    hide Served, Neighbours;
    OtherIds(objs, i);
  }

  lemma AllOfThem(objs: seq<Obj>, now: map<Id, seq<Id>>)
    requires ServedUpTo(objs, now, |objs|)
    ensures AllServed(now, Elements(objs), Elements(objs))
  {
    hide Served, Neighbours;
  }

  lemma NothingDone(list: seq<Edge>, s: set<Obj>, now: map<Id, seq<Id>>)
    requires Blank(now, s)
    ensures Paired(list[..0], {}) && AllServed(now, {}, s) && Blank(now, s - {})
    ensures Opens(list[0..0]) == [] && Closes(list[0..0]) == []
  {
  }

  lemma EmptySegment(list: seq<Edge>, start: nat)
    requires start <= |list|
    ensures Opens(list[start..start]) == [] && Closes(list[start..start]) == []
  {
  }

  /** At the end every bracket is closed, so nothing is left over. */
  lemma AllClosed(list: seq<Edge>, s: set<Obj>, done: set<Obj>, start: nat)
    requires Paired(list, s) && start <= |list| && Paired(list[..start], done) && done <= s
    requires start < |list| ==> |Opens(list[start..])| != |Closes(list[start..])|
    ensures done == s
  {
    var rest := list[start..];
    NoDupApart(list, start);
    NoDupPrefix(list, start);
    OpensAre(rest);
    OpensNoDup(rest);
    forall o ensures o in Elements(Opens(rest)) <==> o in s - done {
      assert Edge(true, o) in list <==> o in s;
      assert Edge(true, o) in list[..start] <==> o in done;
    }
    forall o ensures o in Elements(Closes(rest)) <==> o in s - done {
      assert Edge(false, o) in list <==> o in s;
      assert Edge(false, o) in list[..start] <==> o in done;
    }
    assert Elements(Opens(rest)) == Elements(Closes(rest));
    CountElements(Opens(rest));
    CountElements(Closes(rest));
    if start == |list| { assert list[..start] == list; assert forall o :: o in s <==> Edge(true, o) in list; }
  }

  lemma OtherIds(objs: seq<Obj>, i: nat)
    requires i < |objs| && DistinctIds(objs)
    ensures forall k :: 0 <= k < |objs| && k != i ==> objs[k].id != objs[i].id
  {
  }

  lemma ClusterObjs(seg: seq<Edge>, cluster: set<Obj>, axis: nat, bound: Vec)
    requires axis < 2 && Uniform(cluster, bound) && Paired(seg, cluster) && SortedAlong(seg, axis)
    requires Elements(Opens(seg)) == cluster
    ensures SortedObjs(Opens(seg), axis) && DistinctIds(Opens(seg))
    ensures forall o :: o in Opens(seg) ==> InRange(o, axis, Get(o.pos, axis))
  {
    OpensSorted(seg, axis, bound);
    OpensNoDup(seg);
    forall i, j | 0 <= i < j < |Opens(seg)| ensures Opens(seg)[i].id != Opens(seg)[j].id {
      NoDupIndex(Opens(seg), i, j);
      assert Opens(seg)[i] in cluster && Opens(seg)[j] in cluster;
    }
    forall o | o in Opens(seg) ensures InRange(o, axis, Get(o.pos, axis)) {
      assert o in cluster;
    }
  }

  lemma SegmentGrows(list: seq<Edge>, start: nat, i: nat)
    requires start <= i < |list|
    ensures Opens(list[start..i + 1]) == if list[i].start then Opens(list[start..i]) + [list[i].obj]
      else Opens(list[start..i])
    ensures |Closes(list[start..i + 1])| == |Closes(list[start..i])| + if list[i].start then 0 else 1
  {
    assert list[start..i + 1][..i - start] == list[start..i];
  }

  lemma ClusterReady(list: seq<Edge>, s: set<Obj>, done: set<Obj>, cluster: set<Obj>, start: nat, end: nat, axis: nat,
      bound: Vec, now: map<Id, seq<Id>>)
    requires axis < 2 && SortedAlong(list, axis) && Uniform(s, bound) && start <= end <= |list|
    requires cluster <= s && cluster !! done && Blank(now, s - done)
    ensures Uniform(cluster, bound) && SortedAlong(list[start..end], axis) && Blank(now, cluster)
  {
  }

  lemma ClusterDone(list: seq<Edge>, s: set<Obj>, done: set<Obj>, cluster: set<Obj>, start: nat, end: nat, axis: nat,
      bound: Vec, before: map<Id, seq<Id>>, now: map<Id, seq<Id>>)
    requires axis < 2 && SortedAlong(list, axis) && Uniform(s, bound) && Paired(list, s) && start <= end <= |list|
    requires Paired(list[..start], done) && Paired(list[start..end], cluster)
    requires cluster <= s && done <= s && cluster !! done
    requires AllServed(before, done, s) && Blank(before, s - done)
    requires AllServed(now, cluster, cluster) && now.Keys == before.Keys
    requires forall id :: id in before && id !in IdsOf(cluster) ==> now[id] == before[id]
    ensures AllServed(now, done + cluster, s) && Blank(now, s - (done + cluster))
    ensures IdsOf(cluster) <= IdsOf(s)
  {
    hide Served, InBox, SortedAlong, Paired;
    forall o | o in cluster ensures Neighbours(o, cluster) == Neighbours(o, s) {
      forall p | p in s && p !in cluster ensures !InBox(o, p.pos) {
        ClusterApart(list, s, done, cluster, start, end, axis, bound, o, p);
      }
      NeighboursInCluster(o, cluster, s);
    }
    forall o | o in s && o !in cluster ensures o.id !in IdsOf(cluster) {
    }
  }

  lemma NearAll(objs: seq<Obj>, i: nat)
    requires i < |objs| && DistinctIds(objs)
    ensures NearIds(objs, i, 0, |objs|) == Neighbours(objs[i], Elements(objs))
  {
    var near, all := NearIds(objs, i, 0, |objs|), Neighbours(objs[i], Elements(objs));
    forall x ensures x in near <==> x in all {
      if x in near {
        var k: nat :| k < |objs| && Near(objs, i, k) && objs[k].id == x;
        assert objs[k] in Elements(objs);
      }
      if x in all {
        var p :| p in Elements(objs) && p != objs[i] && InBox(objs[i], p.pos) && p.id == x;
        var k: nat :| k < |objs| && objs[k] == p;
        assert Near(objs, i, k);
      }
    }
  }

  lemma SweepServes(found: seq<Id>, sorted: seq<Id>, ids: set<Id>)
    requires NoDup(found) && Elements(found) <= ids && |found| <= MAX_CHECK_NUM + 1
    requires |found| < MAX_CHECK_NUM ==> Elements(found) == ids
    requires Increasing(sorted) && Elements(sorted) == Elements(found) && |sorted| == |found|
    ensures Served(sorted, ids)
  {
    CountElements(found);
    SubsetSize(Elements(found), ids);
  }

  lemma NothingYet(objs: seq<Obj>, i: nat)
    requires i < |objs|
    ensures NearIds(objs, i, i, i) == {}
  {
  }
}
