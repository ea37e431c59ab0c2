/** The grid of Project/Public/2D/Zone.h and its walks: ring by ring from the inside, and row by row over a
    rectangle. */
module Zone {
  import opened Seqs
  import opened Division

  datatype Cell = Cell(x: int, z: int)

  function Abs(a: int): nat { if a < 0 then -a else a }

  function Max(a: int, b: int): int { if a < b then b else a }

  /** The Chebyshev distance. */
  function Distance(a: Cell, b: Cell): nat {
    Max(Abs(a.x - b.x), Abs(a.z - b.z))
  }

  datatype Rect = Rect(startX: int, startZ: int, endX: int, endZ: int) {
    predicate IsContain(x: int, z: int) {
      !(x < startX || x > endX || z < startZ || z > endZ)
    }
  }

  /** Which cells of a rectangle a walk visits. */
  datatype Filter = All | Sub(b: Rect) | Intersection(b: Rect)

  predicate Passes(f: Filter, c: Cell) {
    match f
    case All => true
    case Sub(b) => !b.IsContain(c.x, c.z)
    case Intersection(b) => b.IsContain(c.x, c.z)
  }

  predicate InRegion(a: Rect, f: Filter, c: Cell) {
    a.IsContain(c.x, c.z) && Passes(f, c)
  }

  predicate InGrid(w: int, h: int, c: Cell) {
    0 <= c.x < w && 0 <= c.z < h
  }

  /** `GetRectInRadius`. */
  function RectInRadius(w: int, h: int, c: Cell, radius: int): Rect {
    Rect(if c.x - radius > 0 then c.x - radius else 0,
         if c.z - radius > 0 then c.z - radius else 0,
         if c.x + radius >= w then w - 1 else c.x + radius,
         if c.z + radius >= h then h - 1 else c.z + radius)
  }

  /** It holds the cells of the grid within the distance, for every radius. */
  lemma RectIsSquare(w: int, h: int, centre: Cell, radius: int, c: Cell)
    requires InGrid(w, h, centre)
    ensures InRegion(RectInRadius(w, h, centre, radius), All, c) <==> InGrid(w, h, c) && Distance(c, centre) <= radius
  {
  }

  /** A cell of the grid lies at most so many columns and so many rows away from the cell with that number. */
  predicate Around(w: int, h: int, id: int, radius: int, c: Cell)
    requires w > 0
  {
    && 0 <= c.x < w && 0 <= c.z < h
    && -radius <= c.x - id % w <= radius && -radius <= c.z - id / w <= radius
  }

  lemma AroundIs(w: int, h: int, id: int, radius: int)
    requires w > 0 && InGrid(w, h, Cell(id % w, id / w))
    ensures forall c ::
      InRegion(RectInRadius(w, h, Cell(id % w, id / w), radius), All, c) <==> Around(w, h, id, radius, c)
    ensures forall c :: InGrid(w, h, c) ==>
      (RectInRadius(w, h, Cell(id % w, id / w), radius).IsContain(c.x, c.z) <==> Around(w, h, id, radius, c))
  {
  }

  // ---------------------------------------------------------------------------------------------------------
  // Walks

  /** Row by row. */
  predicate RowBefore(a: Cell, b: Cell) {
    a.z < b.z || (a.z == b.z && a.x < b.x)
  }

  /** Ring by ring around a centre, each ring row by row. */
  predicate RingBefore(centre: Cell, a: Cell, b: Cell) {
    Distance(a, centre) < Distance(b, centre) || (Distance(a, centre) == Distance(b, centre) && RowBefore(a, b))
  }

  datatype Order = Rows | Rings(centre: Cell)

  predicate Before(o: Order, a: Cell, b: Cell) {
    match o
    case Rows => RowBefore(a, b)
    case Rings(centre) => RingBefore(centre, a, b)
  }

  ghost predicate InOrder(v: seq<Cell>, o: Order) {
    forall j, k :: 0 <= j < k < |v| ==> Before(o, v[j], v[k])
  }

  /** A walk over a region in some order, up to the first cell with an element at which the callback stops. */
  ghost predicate IsWalk(v: seq<Cell>, stopped: bool, o: Order, a: Rect, f: Filter, stops: Cell -> bool) {
    && InOrder(v, o)
    && (forall c :: c in v <==> InRegion(a, f, c) && (stopped ==> v != [] && !Before(o, v[|v| - 1], c)))
    && (stopped ==> v != [] && stops(v[|v| - 1]))
    && (forall k :: 0 <= k < |v| && (stopped ==> k < |v| - 1) ==> !stops(v[k]))
  }

  lemma {:induction false} InOrderNoDup(v: seq<Cell>, o: Order)
    requires InOrder(v, o)
    ensures NoDup(v)
  {
    if v != [] {
      assert v == [v[0]] + v[1..];
      forall j, k | 0 <= j < k < |v[1..]| ensures Before(o, v[1..][j], v[1..][k]) {
        assert v[1..][j] == v[j + 1] && v[1..][k] == v[k + 1];
      }
      InOrderNoDup(v[1..], o);
    }
  }

  lemma AppendInOrder(v: seq<Cell>, o: Order, c: Cell)
    requires InOrder(v, o) && forall b :: b in v ==> Before(o, b, c)
    ensures InOrder(v + [c], o)
  {
    hide Before;
    forall j, k | 0 <= j < k < |v + [c]| ensures Before(o, (v + [c])[j], (v + [c])[k]) {
      assert v[j] in v;
    }
  }

  // ---------------------------------------------------------------------------------------------------------
  // How far a walk has come, if nothing has stopped it

  ghost predicate Calm(v: seq<Cell>, stops: Cell -> bool) {
    forall k :: 0 <= k < |v| ==> !stops(v[k])
  }

  /** Up to row `z`, and there up to column `x`. */
  ghost predicate RowsTo(v: seq<Cell>, a: Rect, f: Filter, z: int, x: int) {
    InOrder(v, Rows) && forall c :: c in v <==> InRegion(a, f, c) && RowBefore(c, Cell(x, z))
  }

  /** Up to the ring at distance `i`, and there up to row `z` and column `x`. */
  ghost predicate RingsTo(v: seq<Cell>, w: int, h: int, centre: Cell, i: int, z: int, x: int) {
    && InOrder(v, Rings(centre))
    && forall c :: c in v <==>
         InGrid(w, h, c) && (Distance(c, centre) < i || (Distance(c, centre) == i && RowBefore(c, Cell(x, z))))
  }

  /** The next cell of a row, visited if it is in the region. */
  lemma RowVisit(v: seq<Cell>, a: Rect, f: Filter, z: int, x: int)
    requires RowsTo(v, a, f, z, x)
    ensures InRegion(a, f, Cell(x, z)) ==> RowsTo(v + [Cell(x, z)], a, f, z, x + 1)
    ensures !InRegion(a, f, Cell(x, z)) ==> RowsTo(v, a, f, z, x + 1)
  {
    var c := Cell(x, z);
    if InRegion(a, f, c) {
      AppendInOrder(v, Rows, c);
    }
  }

  lemma RowEnd(v: seq<Cell>, a: Rect, f: Filter, z: int, x: int)
    requires RowsTo(v, a, f, z, x) && x > a.endX
    ensures RowsTo(v, a, f, z + 1, a.startX)
  {
    hide InOrder;
  }

  lemma RowsStop(v: seq<Cell>, a: Rect, f: Filter, z: int, x: int, stops: Cell -> bool)
    requires RowsTo(v, a, f, z, x) && Calm(v, stops) && InRegion(a, f, Cell(x, z)) && stops(Cell(x, z))
    ensures IsWalk(v + [Cell(x, z)], true, Rows, a, f, stops)
  {
    AppendInOrder(v, Rows, Cell(x, z));
  }

  lemma RowsDone(v: seq<Cell>, a: Rect, f: Filter, z: int, stops: Cell -> bool)
    requires RowsTo(v, a, f, z, a.startX) && Calm(v, stops) && z > a.endZ
    ensures IsWalk(v, false, Rows, a, f, stops)
  {
    hide InOrder;
  }

  lemma CalmAppend(v: seq<Cell>, c: Cell, stops: Cell -> bool)
    requires Calm(v, stops) && !stops(c)
    ensures Calm(v + [c], stops)
  {
  }

  /** A cell of the ring, visited if it is in the grid. */
  lemma RingVisit(v: seq<Cell>, w: int, h: int, centre: Cell, i: int, z: int, x: int)
    requires RingsTo(v, w, h, centre, i, z, x) && Distance(Cell(x, z), centre) == i
    ensures InGrid(w, h, Cell(x, z)) ==> RingsTo(v + [Cell(x, z)], w, h, centre, i, z, x + 1)
    ensures !InGrid(w, h, Cell(x, z)) ==> RingsTo(v, w, h, centre, i, z, x + 1)
  {
    var c := Cell(x, z);
    if InGrid(w, h, c) {
      AppendInOrder(v, Rings(centre), c);
    }
  }

  /** Moving the cursor over places where the ring has no cell of the grid. */
  lemma RingSkip(v: seq<Cell>, w: int, h: int, centre: Cell, i: int, z: int, x: int, z': int, x': int)
    requires RingsTo(v, w, h, centre, i, z, x)
    requires forall c :: InGrid(w, h, c) && Distance(c, centre) == i ==>
      (RowBefore(c, Cell(x, z)) <==> RowBefore(c, Cell(x', z')))
    ensures RingsTo(v, w, h, centre, i, z', x')
  {
    hide InOrder, RowBefore, Distance;
  }

  lemma RingEnd(v: seq<Cell>, w: int, h: int, centre: Cell, i: int)
    requires RingsTo(v, w, h, centre, i, centre.z + i + 1, centre.x - i)
    ensures RingsTo(v, w, h, centre, i + 1, centre.z - (i + 1), centre.x - (i + 1))
  {
    hide InOrder;
  }

  lemma RingsStop(v: seq<Cell>, w: int, h: int, centre: Cell, radius: int, i: int, z: int, x: int, stops: Cell -> bool)
    requires RingsTo(v, w, h, centre, i, z, x) && Distance(Cell(x, z), centre) == i <= radius && InGrid(w, h, centre)
    requires Calm(v, stops) && InGrid(w, h, Cell(x, z)) && stops(Cell(x, z))
    ensures IsWalk(v + [Cell(x, z)], true, Rings(centre), RectInRadius(w, h, centre, radius), All, stops)
  {
    AppendInOrder(v, Rings(centre), Cell(x, z));
    forall c
      ensures InRegion(RectInRadius(w, h, centre, radius), All, c) <==> InGrid(w, h, c) && Distance(c, centre) <= radius
    {
      RectIsSquare(w, h, centre, radius, c);
    }
  }

  lemma RingsDone(v: seq<Cell>, w: int, h: int, centre: Cell, radius: int, i: int, stops: Cell -> bool)
    requires RingsTo(v, w, h, centre, i, centre.z - i, centre.x - i) && Calm(v, stops) && InGrid(w, h, centre)
    requires i == Max(radius + 1, 0)
    ensures IsWalk(v, false, Rings(centre), RectInRadius(w, h, centre, radius), All, stops)
  {
    hide InOrder;
    forall c
      ensures InRegion(RectInRadius(w, h, centre, radius), All, c) <==> InGrid(w, h, c) && Distance(c, centre) <= radius
    {
      RectIsSquare(w, h, centre, radius, c);
    }
  }

  // ---------------------------------------------------------------------------------------------------------
  // The grid

  /** The column and row of a grid number. */
  function CellOf(w: int, id: int): Cell
    requires w > 0
  {
    Cell(id % w, id / w)
  }

  function IdOf(w: int, c: Cell): int { c.x + c.z * w }

  lemma CellInGrid(w: int, h: int, id: int)
    requires w > 0 && h > 0 && 0 <= id < w * h
    ensures InGrid(w, h, CellOf(w, id)) && IdOf(w, CellOf(w, id)) == id
  {
    var z := id / w;
    assert id == z * w + id % w;
    Distribute(z, h, w);
    if z > h { AtLeast(z - h, w); }
    Negate(z, w);
    if z < 0 { AtLeast(-z, w); }
  }

  /** Different cells have different numbers, all of them in range. */
  lemma IdInRange(w: int, h: int, c: Cell)
    requires InGrid(w, h, c)
    ensures 0 <= IdOf(w, c) < w * h && CellOf(w, IdOf(w, c)) == c
  {
    QuotientIs(IdOf(w, c), w, c.z, c.x);
    AtLeast(h - c.z, w);
    Distribute(h, c.z, w);
    if c.z > 0 { AtLeast(c.z, w); }
  }

  /** The callback stops at some element of the cell. */
  ghost predicate StopsAt<T(!new)>(grids: seq<set<T>>, w: int, fun: T -> bool, c: Cell) {
    0 <= IdOf(w, c) < |grids| && exists e :: e in grids[IdOf(w, c)] && fun(e)
  }

  ghost function Stopper<T(!new)>(grids: seq<set<T>>, w: int, fun: T -> bool): Cell -> bool {
    c => StopsAt(grids, w, fun, c)
  }

  class Zone<T(==, !new)> {
    var leftUpX: int
    var leftUpZ: int
    var gridLen: int
    var w: int
    var h: int
    var size: int
    var grids: seq<set<T>>

    predicate Valid()
      reads this
    {
      w > 0 && h > 0 && size == w * h && |grids| == size
    }

    constructor ()
      ensures !Valid()
    {
      leftUpX, leftUpZ, gridLen, w, h, size, grids := 0, 0, 0, 0, 0, 0, [];
    }

    /** As many grids in each direction as it takes to cover the rectangle. */
    method Init(leftX: int, leftZ: int, rightX: int, rightZ: int, len: int) returns (ok: bool)
      requires len > 0
      modifies this
      ensures ok == (leftX < rightX && leftZ < rightZ)
      ensures ok ==> Valid() && gridLen == len && leftUpX == leftX && leftUpZ == leftZ
      ensures ok ==> forall id :: 0 <= id < size ==> grids[id] == {}
      ensures ok ==> (w - 1) * len < rightX - leftX <= w * len && (h - 1) * len < rightZ - leftZ <= h * len
    {
      if !(leftX < rightX && leftZ < rightZ) { return false; }
      leftUpX, leftUpZ, gridLen := leftX, leftZ, len;
      var lenX, lenZ := rightX - leftX, rightZ - leftZ;
      w := lenX / len;
      h := lenZ / len;
      if lenX % len > 0 { w := w + 1; }
      if lenZ % len > 0 { h := h + 1; }
      RoundedUp(lenX, len, w);
      RoundedUp(lenZ, len, h);
      size := w * h;
      grids := seq(size, i => {});
      ok := true;
    }

    static lemma RoundedUp(a: int, len: int, n: int)
      requires a > 0 && len > 0 && n == a / len + if a % len > 0 then 1 else 0
      ensures n > 0 && (n - 1) * len < a <= n * len
    {
      assert a == a / len * len + a % len;
      assert a / len >= 0;
      assert (a / len + 1) * len == a / len * len + len;
      assert (a / len - 1) * len == a / len * len - len;
    }

    predicate CheckGridID(id: int)
      reads this
    {
      id >= 0 && id < size
    }

    method EnterZone(e: T, id: int) returns (ok: bool)
      requires Valid()
      modifies this`grids
      ensures Valid() && ok == (0 <= id < size)
      ensures grids == if ok then old(grids)[id := old(grids)[id] + {e}] else old(grids)
    {
      ok := CheckGridID(id);
      if ok { grids := grids[id := grids[id] + {e}]; }
    }

    method LeaveZone(e: T, id: int) returns (ok: bool)
      requires Valid()
      modifies this`grids
      ensures Valid() && ok == (0 <= id < size)
      ensures grids == if ok then old(grids)[id := old(grids)[id] - {e}] else old(grids)
    {
      ok := CheckGridID(id);
      if ok { grids := grids[id := grids[id] - {e}]; }
    }

    /** The callback gets elements of the grid, in some order, until it stops. */
    method TraversingCallAll(id: int, fun: T -> bool) returns (stopped: bool)
      requires 0 <= id < |grids|
      ensures stopped <==> exists e :: e in grids[id] && fun(e)
    {
      var rest := grids[id];
      while rest != {}
        invariant rest <= grids[id] && forall e :: e in grids[id] && e !in rest ==> !fun(e)
        decreases rest
      {
        var e :| e in rest;
        if fun(e) { return true; }
        rest := rest - {e};
      }
      return false;
    }

    /** A cell of the grid is visited. */
    method Visit(v: seq<Cell>, x: int, z: int, fun: T -> bool) returns (v': seq<Cell>, stopped: bool)
      requires Valid() && InGrid(w, h, Cell(x, z))
      ensures v' == v + [Cell(x, z)] && stopped == Stopper(grids, w, fun)(Cell(x, z))
    {
      IdInRange(w, h, Cell(x, z));
      var temp := x + z * w;
      stopped := TraversingCallAll(temp, fun);
      v' := v + [Cell(x, z)];
    }

    /** One row of one ring. */
    method RingRow(v: seq<Cell>, centre: Cell, ghost radius: int, i: int, tempZ: int, fun: T -> bool)
      returns (v': seq<Cell>, stopped: bool)
      requires Valid() && InGrid(w, h, centre) && 0 <= i <= radius && centre.z - i <= tempZ <= centre.z + i
      requires RingsTo(v, w, h, centre, i, tempZ, centre.x - i) && Calm(v, Stopper(grids, w, fun))
      ensures stopped ==>
        IsWalk(v', true, Rings(centre), RectInRadius(w, h, centre, radius), All, Stopper(grids, w, fun))
      ensures !stopped ==>
        RingsTo(v', w, h, centre, i, tempZ + 1, centre.x - i) && Calm(v', Stopper(grids, w, fun))
    {
      hide RingsTo, Calm, IsWalk, StopsAt, Stopper;
      var startX, endX := centre.x - i, centre.x + i;
      v' := v;
      if !(0 <= tempZ < h) {
        RingSkip(v', w, h, centre, i, tempZ, startX, tempZ + 1, startX);
        return v', false;
      }
      if tempZ == centre.z - i || tempZ == centre.z + i {
        for tempX := startX to endX + 1
          invariant RingsTo(v', w, h, centre, i, tempZ, tempX) && Calm(v', Stopper(grids, w, fun))
        {
          v', stopped := RingCell(v', centre, radius, i, tempZ, tempX, fun);
          if stopped { return; }
        }
      } else {
        v', stopped := RingCell(v', centre, radius, i, tempZ, startX, fun);
        if stopped { return; }
        RingSkip(v', w, h, centre, i, tempZ, startX + 1, tempZ, endX);
        v', stopped := RingCell(v', centre, radius, i, tempZ, endX, fun);
        if stopped { return; }
      }
      RingSkip(v', w, h, centre, i, tempZ, endX + 1, tempZ + 1, startX);
      stopped := false;
    }

    /** One cell of one row of one ring. */
    method RingCell(v: seq<Cell>, centre: Cell, ghost radius: int, i: int, tempZ: int, tempX: int, fun: T -> bool)
      returns (v': seq<Cell>, stopped: bool)
      requires Valid() && InGrid(w, h, centre) && 0 <= tempZ < h && Distance(Cell(tempX, tempZ), centre) == i <= radius
      requires RingsTo(v, w, h, centre, i, tempZ, tempX) && Calm(v, Stopper(grids, w, fun))
      ensures stopped ==>
        IsWalk(v', true, Rings(centre), RectInRadius(w, h, centre, radius), All, Stopper(grids, w, fun))
      ensures !stopped ==>
        RingsTo(v', w, h, centre, i, tempZ, tempX + 1) && Calm(v', Stopper(grids, w, fun))
    {
      hide RingsTo, Calm, IsWalk, StopsAt, Stopper, Distance;
      RingVisit(v, w, h, centre, i, tempZ, tempX);
      if 0 <= tempX < w {
        v', stopped := Visit(v, tempX, tempZ, fun);
        if stopped {
          RingsStop(v, w, h, centre, radius, i, tempZ, tempX, Stopper(grids, w, fun));
        } else {
          CalmAppend(v, Cell(tempX, tempZ), Stopper(grids, w, fun));
        }
      } else {
        v', stopped := v, false;
      }
    }

    /** All cells of the grid within the radius, the nearer ones first. */
    method GetIDsByRadiusFromInner(gridID: int, gridRadius: int, fun: T -> bool)
      returns (visited: seq<Cell>, stopped: bool)
      requires Valid()
      ensures !(0 <= gridID < size) ==> visited == [] && !stopped
      ensures 0 <= gridID < size ==>
        var centre := CellOf(w, gridID);
        IsWalk(visited, stopped, Rings(centre), RectInRadius(w, h, centre, gridRadius), All, Stopper(grids, w, fun))
      ensures 0 <= gridID < size ==> forall c ::
        (c in visited ==> Around(w, h, gridID, gridRadius, c)) &&
        (!stopped && Around(w, h, gridID, gridRadius, c) ==> c in visited)
    {
      visited, stopped := FromInner(gridID, gridRadius, fun);
      if CheckGridID(gridID) {
        CellInGrid(w, h, gridID);
        AroundIs(w, h, gridID, gridRadius);
      }
    }

    /** The loops of `GetIDsByRadiusFromInner`. */
    method FromInner(gridID: int, gridRadius: int, fun: T -> bool) returns (visited: seq<Cell>, stopped: bool)
      requires Valid()
      ensures !(0 <= gridID < size) ==> visited == [] && !stopped
      ensures 0 <= gridID < size ==>
        var centre := CellOf(w, gridID);
        IsWalk(visited, stopped, Rings(centre), RectInRadius(w, h, centre, gridRadius), All, Stopper(grids, w, fun))
    {
      hide RingsTo, Calm, IsWalk, StopsAt, Stopper;
      visited, stopped := [], false;
      if !CheckGridID(gridID) { return; }
      CellInGrid(w, h, gridID);
      var centre := Cell(gridID % w, gridID / w);
      RingsStart(w, h, centre, Stopper(grids, w, fun));
      var i := 0;
      while i <= gridRadius
        invariant 0 <= i <= Max(gridRadius + 1, 0)
        invariant RingsTo(visited, w, h, centre, i, centre.z - i, centre.x - i) && Calm(visited, Stopper(grids, w, fun))
      {
        var tempZ := centre.z - i;
        while tempZ <= centre.z + i
          invariant centre.z - i <= tempZ <= centre.z + i + 1
          invariant RingsTo(visited, w, h, centre, i, tempZ, centre.x - i) && Calm(visited, Stopper(grids, w, fun))
        {
          visited, stopped := RingRow(visited, centre, gridRadius, i, tempZ, fun);
          if stopped { return; }
          tempZ := tempZ + 1;
        }
        RingEnd(visited, w, h, centre, i);
        i := i + 1;
      }
      RingsDone(visited, w, h, centre, gridRadius, i, Stopper(grids, w, fun));
      stopped := false;
    }

    static lemma RingsStart(w: int, h: int, centre: Cell, stops: Cell -> bool)
      ensures RingsTo([], w, h, centre, 0, centre.z, centre.x) && Calm([], stops)
    {
    }

    /** The loops over a rectangle. */
    method WalkRect(a: Rect, f: Filter, fun: T -> bool) returns (visited: seq<Cell>, stopped: bool)
      requires Valid() && forall c :: InRegion(a, f, c) ==> InGrid(w, h, c)
      ensures IsWalk(visited, stopped, Rows, a, f, Stopper(grids, w, fun))
    {
      hide RowsTo, Calm, IsWalk, StopsAt, Stopper;
      visited, stopped := [], false;
      RowsStart(a, f, Stopper(grids, w, fun));
      var nz := a.startZ;
      while nz <= a.endZ
        invariant RowsTo(visited, a, f, nz, a.startX) && Calm(visited, Stopper(grids, w, fun))
      {
        var nx := a.startX;
        while nx <= a.endX
          invariant RowsTo(visited, a, f, nz, nx) && Calm(visited, Stopper(grids, w, fun))
        {
          RowVisit(visited, a, f, nz, nx);
          if InRegion(a, f, Cell(nx, nz)) {
            ghost var before := visited;
            visited, stopped := Visit(visited, nx, nz, fun);
            if stopped {
              RowsStop(before, a, f, nz, nx, Stopper(grids, w, fun));
              return;
            }
            CalmAppend(before, Cell(nx, nz), Stopper(grids, w, fun));
          }
          nx := nx + 1;
        }
        RowEnd(visited, a, f, nz, nx);
        nz := nz + 1;
      }
      RowsDone(visited, a, f, nz, Stopper(grids, w, fun));
      stopped := false;
    }

    static lemma RowsStart(a: Rect, f: Filter, stops: Cell -> bool)
      ensures RowsTo([], a, f, a.startZ, a.startX) && Calm([], stops)
    {
    }

    method GetAllIDsByRadius(gridID: int, gridRadius: int, fun: T -> bool) returns (visited: seq<Cell>, stopped: bool)
      requires Valid()
      ensures !(0 <= gridID < size) ==> visited == [] && !stopped
      ensures 0 <= gridID < size ==>
        IsWalk(visited, stopped, Rows, RectInRadius(w, h, CellOf(w, gridID), gridRadius), All, Stopper(grids, w, fun))
      ensures 0 <= gridID < size ==> forall c ::
        (c in visited ==> Around(w, h, gridID, gridRadius, c)) &&
        (!stopped && Around(w, h, gridID, gridRadius, c) ==> c in visited)
    {
      if !CheckGridID(gridID) { return [], false; }
      CellInGrid(w, h, gridID);
      RectInGrid(w, h, CellOf(w, gridID), gridRadius);
      AroundIs(w, h, gridID, gridRadius);
      visited, stopped := WalkRect(RectInRadius(w, h, CellOf(w, gridID), gridRadius), All, fun);
    }

    static lemma RectInGrid(w: int, h: int, centre: Cell, radius: int)
      requires InGrid(w, h, centre)
      ensures forall f, c :: InRegion(RectInRadius(w, h, centre, radius), f, c) ==> InGrid(w, h, c)
    {
    }

    method GetASubBIds(gridA: int, gridB: int, radius: int, fun: T -> bool) returns (visited: seq<Cell>, stopped: bool)
      requires Valid()
      ensures !(0 <= gridA < size && 0 <= gridB < size) ==> visited == [] && !stopped
      ensures 0 <= gridA < size && 0 <= gridB < size ==>
        IsWalk(visited, stopped, Rows, RectInRadius(w, h, CellOf(w, gridA), radius),
               Sub(RectInRadius(w, h, CellOf(w, gridB), radius)), Stopper(grids, w, fun))
      ensures 0 <= gridA < size && 0 <= gridB < size ==> forall c ::
        (c in visited ==> Around(w, h, gridA, radius, c) && !Around(w, h, gridB, radius, c)) &&
        (!stopped && Around(w, h, gridA, radius, c) && !Around(w, h, gridB, radius, c) ==> c in visited)
    {
      if !(CheckGridID(gridA) && CheckGridID(gridB)) { return [], false; }
      CellInGrid(w, h, gridA);
      CellInGrid(w, h, gridB);
      AroundIs(w, h, gridA, radius);
      AroundIs(w, h, gridB, radius);
      RectInGrid(w, h, CellOf(w, gridA), radius);
      visited, stopped := WalkRect(RectInRadius(w, h, CellOf(w, gridA), radius),
        Sub(RectInRadius(w, h, CellOf(w, gridB), radius)), fun);
    }

    method GetAIntersectionBIds(gridA: int, gridB: int, radius: int, fun: T -> bool)
      returns (visited: seq<Cell>, stopped: bool)
      requires Valid()
      ensures !(0 <= gridA < size && 0 <= gridB < size) ==> visited == [] && !stopped
      ensures 0 <= gridA < size && 0 <= gridB < size ==>
        IsWalk(visited, stopped, Rows, RectInRadius(w, h, CellOf(w, gridA), radius),
               Intersection(RectInRadius(w, h, CellOf(w, gridB), radius)), Stopper(grids, w, fun))
      ensures 0 <= gridA < size && 0 <= gridB < size ==> forall c ::
        (c in visited ==> Around(w, h, gridA, radius, c) && Around(w, h, gridB, radius, c)) &&
        (!stopped && Around(w, h, gridA, radius, c) && Around(w, h, gridB, radius, c) ==> c in visited)
    {
      if !(CheckGridID(gridA) && CheckGridID(gridB)) { return [], false; }
      CellInGrid(w, h, gridA);
      CellInGrid(w, h, gridB);
      AroundIs(w, h, gridA, radius);
      AroundIs(w, h, gridB, radius);
      RectInGrid(w, h, CellOf(w, gridA), radius);
      visited, stopped := WalkRect(RectInRadius(w, h, CellOf(w, gridA), radius),
        Intersection(RectInRadius(w, h, CellOf(w, gridB), radius)), fun);
    }
  }

  // ---------------------------------------------------------------------------------------------------------
  // What the walks have to do with each other

  /** With a callback that never stops, the walk from the inside and the walk over the rectangle visit the same cells,
      each once: those of the grid within the radius.  From the inside they come in the order of their distance. */
  lemma RingsAreRect(v: seq<Cell>, u: seq<Cell>, w: int, h: int, centre: Cell, radius: int, stops: Cell -> bool)
    requires InGrid(w, h, centre)
    requires IsWalk(v, false, Rings(centre), RectInRadius(w, h, centre, radius), All, stops)
    requires IsWalk(u, false, Rows, RectInRadius(w, h, centre, radius), All, stops)
    ensures NoDup(v) && NoDup(u) && Elements(v) == Elements(u) && |v| == |u|
    ensures forall c :: c in v <==> InGrid(w, h, c) && Distance(c, centre) <= radius
    ensures forall j, k :: 0 <= j < k < |v| ==> Distance(v[j], centre) <= Distance(v[k], centre)
  {
    InOrderNoDup(v, Rings(centre));
    InOrderNoDup(u, Rows);
    assert Elements(v) == Elements(u);
    CountElements(v);
    CountElements(u);
    forall c
      ensures InRegion(RectInRadius(w, h, centre, radius), All, c) <==> InGrid(w, h, c) && Distance(c, centre) <= radius
    {
      RectIsSquare(w, h, centre, radius, c);
    }
    forall j, k | 0 <= j < k < |v| ensures Distance(v[j], centre) <= Distance(v[k], centre) {
      assert Before(Rings(centre), v[j], v[k]);
    }
  }

  /** A without B and A with B make up A, and have no cell in common. */
  lemma SubAndIntersection(all: seq<Cell>, sub: seq<Cell>, inter: seq<Cell>, a: Rect, b: Rect, stops: Cell -> bool)
    requires IsWalk(all, false, Rows, a, All, stops)
    requires IsWalk(sub, false, Rows, a, Sub(b), stops) && IsWalk(inter, false, Rows, a, Intersection(b), stops)
    ensures Elements(sub) + Elements(inter) == Elements(all) && Elements(sub) !! Elements(inter)
    ensures |sub| + |inter| == |all|
  {
    InOrderNoDup(all, Rows);
    InOrderNoDup(sub, Rows);
    InOrderNoDup(inter, Rows);
    Split(all, sub, inter, a, b, stops);
    hide IsWalk, NoDup;
    CountElements(all);
    CountElements(sub);
    CountElements(inter);
  }

  lemma Split(all: seq<Cell>, sub: seq<Cell>, inter: seq<Cell>, a: Rect, b: Rect, stops: Cell -> bool)
    requires IsWalk(all, false, Rows, a, All, stops)
    requires IsWalk(sub, false, Rows, a, Sub(b), stops) && IsWalk(inter, false, Rows, a, Intersection(b), stops)
    ensures Elements(sub) + Elements(inter) == Elements(all) && Elements(sub) !! Elements(inter)
  {
    hide InOrder, InRegion;
    EitherWay(a, b);
  }

  lemma EitherWay(a: Rect, b: Rect)
    ensures forall c :: InRegion(a, All, c) <==> InRegion(a, Sub(b), c) || InRegion(a, Intersection(b), c)
    ensures forall c :: !(InRegion(a, Sub(b), c) && InRegion(a, Intersection(b), c))
  {
  }

  /** A walk that is stopped is the beginning of the walk that is not. */
  lemma StoppedIsPrefix(v: seq<Cell>, u: seq<Cell>, o: Order, a: Rect, f: Filter, stops: Cell -> bool,
      never: Cell -> bool, k: nat)
    requires IsWalk(v, true, o, a, f, stops) && IsWalk(u, false, o, a, f, never) && k < |v|
    ensures v[k] in u && forall c :: c in u && Before(o, c, v[k]) ==> c in v
  {
    if k < |v| - 1 { assert Before(o, v[k], v[|v| - 1]); }
    forall c | c in u && Before(o, c, v[k]) ensures !Before(o, v[|v| - 1], c) {
      OrderIsStrict(o, c, v[k], v[|v| - 1]);
    }
  }

  lemma OrderIsStrict(o: Order, a: Cell, b: Cell, c: Cell)
    requires Before(o, a, b) && (b == c || Before(o, b, c))
    ensures !Before(o, c, a)
  {
  }
}
