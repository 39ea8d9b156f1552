/** Maps told in coordinates alone: rectangles, distances and walks, apart from how maps compute them. */
module Coordinates {
  import opened Wrappers
  import opened CityMap

  ghost function Abs(n: int): nat {
    if n < 0 then -n else n
  }

  /** Steps left, right, up and down between two cells. */
  ghost function StepsApart(p: Point, q: Point): nat {
    Abs(q.x - p.x) + Abs(q.y - p.y)
  }

  /** `p` is one of the `width` by `height` cells right of and below the building's origin. */
  ghost predicate Inside(b: Building, p: Point) {
    0 <= p.x - b.origin.x < b.spec.width && 0 <= p.y - b.origin.y < b.spec.height
  }

  /** `p` is one step from a cell of the building. */
  ghost predicate NextTo(b: Building, p: Point) {
    exists q {:trigger Inside(b, q)} :: Inside(b, q) && StepsApart(q, p) == 1
  }

  ghost predicate OnMap(c: City, p: Point) {
    0 <= p.x && p.x + 1 <= c.width && 0 <= p.y && p.y + 1 <= c.height
  }

  lemma AdjacentIsOneApart(p: Point, q: Point)
    ensures Adjacent(p, q) <==> StepsApart(p, q) == 1
  {
  }

  lemma FootprintIsInside(b: Building, p: Point)
    ensures p in b.Footprint() <==> Inside(b, p)
  {
  }

  lemma BesideIsNextTo(b: Building, p: Point)
    ensures b.Beside(p) <==> NextTo(b, p)
  {
    if b.Beside(p) {
      var q :| q in b.Footprint() && Adjacent(q, p);
      assert Inside(b, q);
    }
    if NextTo(b, p) {
      var q :| Inside(b, q) && StepsApart(q, p) == 1;
      assert q in b.Footprint() && Adjacent(q, p);
    }
  }

  /** Road access is a road one step from the building. */
  lemma TouchesIsNextTo(b: Building, roads: set<Point>)
    ensures b.Touches(roads) <==> exists p :: p in roads && NextTo(b, p)
  {
    if b.Touches(roads) {
      var p :| p in roads && b.Beside(p);
      BesideIsNextTo(b, p);
    }
    if p :| p in roads && NextTo(b, p) { BesideIsNextTo(b, p); }
  }

  /** Two buildings share no cell exactly when no cell is inside both. */
  lemma DisjointIsNoSharedCell(a: Building, b: Building)
    ensures Disjoint(a, b) <==> forall p :: !(Inside(a, p) && Inside(b, p))
  {
    if p :| Inside(a, p) && Inside(b, p) { assert p in a.Footprint() && p in b.Footprint(); }
    if !Disjoint(a, b) {
      var p :| p in a.Footprint() && p in b.Footprint();
      assert Inside(a, p) && Inside(b, p);
    }
  }

  // ---- The distance of two cells is the length of the shortest walk ------------------

  /** Step by step from the first cell to the last. */
  ghost predicate Walk(cells: seq<Point>) {
    forall k {:trigger cells[k]} :: 0 < k < |cells| ==> Adjacent(cells[k - 1], cells[k])
  }

  /** A walk of that many steps leads from `p` to `q`. */
  ghost predicate WalkOf(p: Point, q: Point, steps: nat) {
    exists cells :: |cells| == steps + 1 && cells[0] == p && cells[steps] == q && Walk(cells)
  }

  lemma {:induction false} NoShorterWalk(cells: seq<Point>, steps: nat)
    requires |cells| == steps + 1 && Walk(cells)
    ensures Distance(cells[0], cells[steps]) <= steps
    decreases steps
  {
    if steps > 0 {
      NoShorterWalk(cells[..steps], steps - 1);
      assert Adjacent(cells[steps - 1], cells[steps]);
    }
  }

  /** One step nearer. */
  ghost function Towards(p: Point, q: Point): (next: Point)
    requires p != q
    ensures Adjacent(p, next) && Distance(next, q) == Distance(p, q) - 1
  {
    if p.x < q.x then Point(p.x + 1, p.y) else if p.x > q.x then Point(p.x - 1, p.y)
    else if p.y < q.y then Point(p.x, p.y + 1) else Point(p.x, p.y - 1)
  }

  lemma LongerWalk(p: Point, next: Point, q: Point, steps: nat)
    requires Adjacent(p, next) && WalkOf(next, q, steps)
    ensures WalkOf(p, q, steps + 1)
  {
    var rest :| |rest| == steps + 1 && rest[0] == next && rest[steps] == q && Walk(rest);
    var cells := [p] + rest;
    assert forall k :: 0 < k < |cells| ==> cells[k] == rest[k - 1];
    assert Walk(cells);
  }

  lemma {:induction false} StraightWalk(p: Point, q: Point)
    ensures WalkOf(p, q, Distance(p, q))
    decreases Distance(p, q)
  {
    if p == q {
      assert |[p]| == 1 && [p][0] == p && Walk([p]);
    } else {
      StraightWalk(Towards(p, q), q);
      LongerWalk(p, Towards(p, q), q, Distance(p, q) - 1);
    }
  }

  /** The distance is the number of steps of a shortest walk. */
  lemma DistanceIsShortestWalk(p: Point, q: Point)
    ensures WalkOf(p, q, Distance(p, q))
    ensures forall steps: nat :: WalkOf(p, q, steps) ==> Distance(p, q) <= steps
  {
    StraightWalk(p, q);
    forall steps: nat | WalkOf(p, q, steps) ensures Distance(p, q) <= steps {
      var cells :| |cells| == steps + 1 && cells[0] == p && cells[steps] == q && Walk(cells);
      NoShorterWalk(cells, steps);
    }
  }

  /** `p` is nearer to `from` than `q`, or as near and higher up, or in the same row and further left. */
  ghost predicate Nearer(from: Point, p: Point, q: Point) {
    || StepsApart(p, from) < StepsApart(q, from)
    || (StepsApart(p, from) == StepsApart(q, from) && p.y < q.y)
    || (StepsApart(p, from) == StepsApart(q, from) && p.y == q.y && p.x < q.x)
  }

  lemma CloserIsNearer(from: Point, p: Point, q: Point)
    ensures Distance(p, q) == StepsApart(p, q)
    ensures Closer(from, p, q) <==> Nearer(from, p, q)
  {
  }

  // ---- What a map permits ------------------------------------------------------------

  /** The building may stand there: on the map, off roads, blocked cells and every building not called `exclude`. */
  ghost predicate MayOccupy(c: City, b: Building, exclude: Option<string>) {
    forall p {:trigger Inside(b, p)} :: Inside(b, p) ==>
      && OnMap(c, p) && p !in c.roads && p !in c.blocked
      && forall i {:trigger c.buildings[i]} ::
           0 <= i < |c.buildings| && Some(c.buildings[i].spec.id) != exclude ==> !Inside(c.buildings[i], p)
  }

  /** A position is permitted exactly when the building may stand there, beside a road if it must. */
  lemma CanPlaceExactly(c: City, spec: BuildingSpec, origin: Point, exclude: Option<string>, access: bool)
    ensures c.CanPlace(spec, origin, exclude, access) <==>
      var b := Building(spec, origin);
      MayOccupy(c, b, exclude) && (access ==> exists p :: p in c.roads && NextTo(b, p))
  {
    var b := Building(spec, origin);
    TouchesIsNextTo(b, c.roads);
    forall p | Inside(b, p)
      ensures p in c.OccupiedCells(exclude) <==>
        || p in c.roads || p in c.blocked
        || exists i :: 0 <= i < |c.buildings| && Some(c.buildings[i].spec.id) != exclude && Inside(c.buildings[i], p)
    {
      if c.OccupiedByOther(exclude, p) {
        var i :| 0 <= i < |c.buildings| && Some(c.buildings[i].spec.id) != exclude && p in c.buildings[i].Footprint();
        assert Inside(c.buildings[i], p);
      }
      if i :| 0 <= i < |c.buildings| && Some(c.buildings[i].spec.id) != exclude && Inside(c.buildings[i], p) {
        assert p in c.buildings[i].Footprint();
      }
    }
    assert forall p :: p in b.Footprint() <==> Inside(b, p);
    if c.CanPlace(spec, origin, exclude, access) {
      forall p | Inside(b, p) ensures OnMap(c, p) && p !in c.OccupiedCells(exclude) {
        assert p in b.Footprint();
      }
    }
  }
}
