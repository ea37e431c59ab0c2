/** Rectangles of any number of dimensions (Project/Public/2D/RTree.h), over exact numbers. */
module Rects {

  datatype Rect = Rect(min: seq<real>, max: seq<real>)

  /** A rectangle of the given dimension. */
  predicate Sized(r: Rect, dims: nat) {
    |r.min| == dims && |r.max| == dims
  }

  /** A rectangle that `Insert` and `Search` accept: in no dimension is the minimum above the maximum. */
  predicate Proper(r: Rect) {
    |r.min| == |r.max| && forall i :: 0 <= i < |r.min| ==> r.min[i] <= r.max[i]
  }

  ghost predicate Contains(a: Rect, b: Rect) {
    && |a.min| == |b.min| && |a.max| == |b.max|
    && (forall i :: 0 <= i < |a.min| ==> a.min[i] <= b.min[i])
    && (forall i :: 0 <= i < |a.max| ==> b.max[i] <= a.max[i])
  }

  predicate MeetIn(a: Rect, b: Rect, i: nat) {
    i < |a.min| && i < |a.max| && i < |b.min| && i < |b.max| ==> a.min[i] <= b.max[i] && b.min[i] <= a.max[i]
  }

  ghost predicate Overlaps(a: Rect, b: Rect) {
    forall i: nat :: i < |a.min| ==> MeetIn(a, b, i)
  }

  ghost predicate IsCombined(a: Rect, b: Rect, c: Rect, dims: nat) {
    && Sized(c, dims) && Contains(c, a) && Contains(c, b)
    && forall r :: Contains(r, a) && Contains(r, b) ==> Contains(r, c)
  }

  /** The rectangle from the lesser minima to the greater maxima. */
  ghost function Combined(a: Rect, b: Rect, dims: nat): Rect
    requires Sized(a, dims) && Sized(b, dims)
  {
    Rect(seq(dims, i requires 0 <= i < dims => if a.min[i] <= b.min[i] then a.min[i] else b.min[i]),
         seq(dims, i requires 0 <= i < dims => if a.max[i] >= b.max[i] then a.max[i] else b.max[i]))
  }

  /** `CombineRect`: the least rectangle that contains both. */
  method CombineRect(a: Rect, b: Rect, ghost dims: nat) returns (c: Rect)
    requires Sized(a, dims) && Sized(b, dims)
    ensures IsCombined(a, b, c, dims) && c == Combined(a, b, dims)
  {
    var min, max := [], [];
    for i := 0 to |a.min|
      invariant |min| == |max| == i
      invariant forall k :: 0 <= k < i ==> min[k] == (if a.min[k] <= b.min[k] then a.min[k] else b.min[k])
      invariant forall k :: 0 <= k < i ==> max[k] == (if a.max[k] >= b.max[k] then a.max[k] else b.max[k])
    {
      min := min + [if a.min[i] <= b.min[i] then a.min[i] else b.min[i]];
      max := max + [if a.max[i] >= b.max[i] then a.max[i] else b.max[i]];
    }
    c := Rect(min, max);
    assert min == Combined(a, b, dims).min && max == Combined(a, b, dims).max;
  }

  /** `Overlap`: no dimension keeps the two apart. */
  method Overlap(a: Rect, b: Rect, ghost dims: nat) returns (r: bool)
    requires Sized(a, dims) && Sized(b, dims)
    ensures r == Overlaps(a, b)
    ensures Proper(a) && Proper(b) ==> (r <==> exists p :: Inside(p, a) && Inside(p, b))
  {
    if Proper(a) && Proper(b) { OverlapsIff(a, b, dims); }
    for i := 0 to |a.min|
      invariant forall k: nat :: k < i ==> MeetIn(a, b, k)
    {
      assert MeetIn(a, b, i) <==> !(a.min[i] > b.max[i] || b.min[i] > a.max[i]);
      if a.min[i] > b.max[i] || b.min[i] > a.max[i] {
        return false;
      }
    }
    return true;
  }

  /** A point of a rectangle, its edges included. */
  ghost predicate Inside(p: seq<real>, r: Rect) {
    |p| == |r.min| == |r.max| && forall i :: 0 <= i < |p| ==> r.min[i] <= p[i] <= r.max[i]
  }

  /** Two rectangles overlap if and only if they have a point in common. */
  lemma OverlapsIff(a: Rect, b: Rect, dims: nat)
    requires Sized(a, dims) && Sized(b, dims) && Proper(a) && Proper(b)
    ensures Overlaps(a, b) <==> exists p :: Inside(p, a) && Inside(p, b)
  {
    if Overlaps(a, b) {
      var p := seq(dims, i requires 0 <= i < dims => if a.min[i] <= b.min[i] then b.min[i] else a.min[i]);
      forall i | 0 <= i < dims ensures a.min[i] <= p[i] <= a.max[i] && b.min[i] <= p[i] <= b.max[i] {
        assert MeetIn(a, b, i);
      }
      assert Inside(p, a) && Inside(p, b);
    }
    if p :| Inside(p, a) && Inside(p, b) {
      forall i: nat | i < dims ensures MeetIn(a, b, i) {
        assert a.min[i] <= p[i] <= a.max[i] && b.min[i] <= p[i] <= b.max[i];
      }
    }
  }

  /** One rectangle contains another if and only if it has all its points. */
  lemma ContainsIff(a: Rect, b: Rect, dims: nat)
    requires Sized(a, dims) && Sized(b, dims) && Proper(a) && Proper(b)
    ensures Contains(a, b) <==> forall p :: Inside(p, b) ==> Inside(p, a)
  {
    if Contains(a, b) {
      forall p | Inside(p, b) ensures Inside(p, a) {
        assert forall i :: 0 <= i < dims ==> a.min[i] <= b.min[i] <= p[i] <= b.max[i] <= a.max[i];
      }
    }
    if forall p :: Inside(p, b) ==> Inside(p, a) {
      assert Inside(b.min, b) && Inside(b.max, b);
    }
  }

  lemma ContainsTransitive(a: Rect, b: Rect, c: Rect)
    requires Contains(a, b) && Contains(b, c)
    ensures Contains(a, c)
  {
  }

  /** Whatever overlaps a rectangle overlaps every rectangle around it. */
  lemma OverlapGrows(q: Rect, a: Rect, b: Rect)
    requires Sized(q, |b.min|) && Sized(b, |b.min|) && Contains(a, b) && Overlaps(q, b)
    ensures Overlaps(q, a)
  {
    forall i: nat | i < |q.min| ensures MeetIn(q, a, i) {
      assert MeetIn(q, b, i);
    }
  }

  lemma ProperOverlapsItself(r: Rect)
    requires Proper(r)
    ensures Overlaps(r, r)
  {
  }
}
