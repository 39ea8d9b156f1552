/** How much of the free land lies together. */
module FreeSpace {
  import opened Wrappers
  import opened CityMap
  import opened Coordinates
  import opened Roads

  function FreeBuildableCells(c: City): (r: set<Point>)
    ensures forall p :: p in r <==> c.InBounds(p) && p !in c.OccupiedCells(None)
  {
    var occupied := c.OccupiedCells(None);
    set x, y | 0 <= x < c.width && 0 <= y < c.height && Point(x, y) !in occupied :: Point(x, y)
  }

  /** All cells of `cells` that paths inside it join to `p`. */
  ghost function Component(cells: set<Point>, p: Point): set<Point> {
    set q | q in cells && Joined(cells, p, q)
  }

  /** No cell of `part` touches a cell of `whole` outside it. */
  ghost predicate Detached(whole: set<Point>, part: set<Point>) {
    && part <= whole
    && forall v, w {:trigger Adjacent(v, w)} :: v in part && w in whole && Adjacent(v, w) ==> w in part
  }

  lemma AdjacentBack(p: Point, q: Point)
    ensures Adjacent(p, q) == Adjacent(q, p)
  {
  }

  lemma {:induction false} PathStaysIn(whole: set<Point>, part: set<Point>, p: seq<Point>, k: nat)
    requires Detached(whole, part) && Path(whole, p) && p[0] in part && k < |p|
    ensures p[k] in part
    decreases k
  {
    if k > 0 {
      PathStaysIn(whole, part, p, k - 1);
      assert Hop(p, k - 1);
    }
  }

  /** A detached part keeps its components. */
  lemma ComponentOfPart(whole: set<Point>, part: set<Point>, p: Point)
    requires Detached(whole, part) && p in part
    ensures Component(part, p) == Component(whole, p)
  {
    forall q ensures q in Component(part, p) <==> q in Component(whole, p) {
      if q in Component(whole, p) {
        var path :| PathBetween(whole, path, p, q);
        forall k | 0 <= k < |path| ensures path[k] in part { PathStaysIn(whole, part, path, k); }
        assert PathBetween(part, path, p, q);
      }
      if q in Component(part, p) { JoinedWiden(part, whole, p, q); }
    }
  }

  /** What the search visited is the component of its start, and nothing else touches it. */
  lemma SearchFindsComponent(cells: set<Point>, start: Point, visited: set<Point>)
    requires Searching(cells, start, visited, [])
    ensures visited == Component(cells, start)
    ensures Detached(cells, visited)
  {
    forall q | q in Component(cells, start) ensures q in visited {
      var path :| PathBetween(cells, path, start, q);
      ClosedReach(cells, visited, path, |path| - 1);
    }
    forall v, w | v in visited && w in cells && Adjacent(v, w) ensures w in visited {
      assert Explored(cells, visited, v);
    }
  }

  /** Taking a detached piece away leaves a detached rest. */
  lemma RestIsDetached(whole: set<Point>, part: set<Point>, piece: set<Point>)
    requires Detached(whole, part) && Detached(part, piece)
    ensures Detached(whole, part - piece)
  {
    forall v, w | v in part - piece && w in whole && Adjacent(v, w) ensures w in part - piece {
      AdjacentBack(v, w);
    }
  }

  lemma SameComponent(cells: set<Point>, p: Point, q: Point)
    requires q in Component(cells, p)
    ensures Component(cells, q) == Component(cells, p)
  {
    JoinedSymmetric(cells, p, q);
    forall r ensures r in Component(cells, q) <==> r in Component(cells, p) {
      if r in Component(cells, q) { JoinedTransitive(cells, p, q, r); }
      if r in Component(cells, p) { JoinedTransitive(cells, q, p, r); }
    }
  }

  /** The component `start` lies in, cell by cell. */
  method Flood(cells: set<Point>, start: Point) returns (visited: set<Point>)
    requires start in cells
    ensures visited == Component(cells, start) && Detached(cells, visited) && start in visited
  {
    JoinedSelf(cells, start);
    visited := {start};
    var stack := [start];
    while stack != []
      invariant Searching(cells, start, visited, stack)
      decreases cells - visited, |stack|
    {
      var point, rest := stack[|stack| - 1], stack[..|stack| - 1];
      assert rest + [point] == stack;
      var now;
      now, stack := PushNeighbors(cells, start, point, visited, rest);
      if now != visited { assert exists w :: w in now && w !in visited; }
      visited := now;
    }
    SearchFindsComponent(cells, start, visited);
  }

  /** `largest` is the size of the largest component seen outside `remaining`. */
  ghost predicate LargestSeen(free: set<Point>, remaining: set<Point>, largest: nat) {
    && (forall p {:trigger Component(free, p)} :: p in free - remaining ==> |Component(free, p)| <= largest)
    && (remaining != free ==> exists p :: p in free - remaining && |Component(free, p)| == largest)
  }

  lemma SeenGrows(free: set<Point>, remaining: set<Point>, largest: nat, start: Point, piece: set<Point>)
    requires LargestSeen(free, remaining, largest) && Detached(free, remaining) && start in remaining
    requires piece == Component(remaining, start) && start in piece
    requires remaining == free ==> largest == 0
    ensures LargestSeen(free, remaining - piece, if |piece| > largest then |piece| else largest)
  {
    ComponentOfPart(free, remaining, start);
    var now := if |piece| > largest then |piece| else largest;
    forall p | p in free - (remaining - piece) ensures |Component(free, p)| <= now {
      if p in piece { SameComponent(free, start, p); }
    }
    if |piece| > largest {
      assert start in free - (remaining - piece) && |Component(free, start)| == now;
    } else {
      assert |piece| > 0;
      var p :| p in free - remaining && |Component(free, p)| == largest;
      assert p in free - (remaining - piece);
    }
  }

  /** The size of the largest component of free land. */
  method LargestFreeComponent(free: set<Point>) returns (largest: nat)
    ensures LargestSeen(free, {}, largest)
    ensures free == {} ==> largest == 0
  {
    largest := 0;
    var remaining := free;
    while remaining != {}
      invariant Detached(free, remaining) && LargestSeen(free, remaining, largest)
      invariant remaining == free ==> largest == 0
      decreases |remaining|
    {
      var start :| start in remaining;
      var piece := Flood(remaining, start);
      SeenGrows(free, remaining, largest, start, piece);
      RestIsDetached(free, remaining, piece);
      assert start !in remaining - piece && remaining - piece < remaining;
      largest := if |piece| > largest then |piece| else largest;
      remaining := remaining - piece;
    }
  }

  /** A cell of the map that is no road, not blocked and under no building. */
  ghost predicate FreeCell(c: City, p: Point) {
    && OnMap(c, p) && p !in c.roads && p !in c.blocked
    && forall i {:trigger c.buildings[i]} :: 0 <= i < |c.buildings| ==> !Inside(c.buildings[i], p)
  }

  lemma FreeCellExactly(c: City, p: Point)
    ensures p in FreeBuildableCells(c) <==> FreeCell(c, p)
  {
    if p in FreeBuildableCells(c) {
      forall i | 0 <= i < |c.buildings| ensures !Inside(c.buildings[i], p) {
        assert !c.OccupiedByOther(None, p);
        FootprintIsInside(c.buildings[i], p);
      }
    }
  }

  lemma FreeCellsExactly(c: City)
    ensures forall p :: p in FreeBuildableCells(c) <==> FreeCell(c, p)
  {
    forall p ensures p in FreeBuildableCells(c) <==> FreeCell(c, p) { FreeCellExactly(c, p); }
  }

  predicate IsShare(ratio: real, part: nat, whole: real) {
    ratio * whole == part as real
  }

  /** The largest piece of free land as a share of the map; `largest` is its size. */
  method LargestFreeComponentRatio(c: City) returns (ratio: real, ghost largest: nat)
    requires c.width > 0 && c.height > 0
    ensures LargestSeen(FreeBuildableCells(c), {}, largest) && ratio * (c.width * c.height) as real == largest as real
    ensures FreeBuildableCells(c) == {} ==> ratio == 0.0 && largest == 0
    ensures forall p :: p in FreeBuildableCells(c) <==> FreeCell(c, p)
  {
    FreeCellsExactly(c);
    ratio, largest := RatioOf(FreeBuildableCells(c), Area(c));
    ShareOfMap(c, ratio, largest);
  }

  lemma ShareOfMap(c: City, ratio: real, part: nat)
    requires c.width > 0 && c.height > 0 && IsShare(ratio, part, Area(c))
    ensures ratio * (c.width * c.height) as real == part as real
  {
  }

  method RatioOf(free: set<Point>, area: real) returns (ratio: real, ghost largest: nat)
    requires area > 0.0
    ensures LargestSeen(free, {}, largest) && IsShare(ratio, largest, area)
    ensures free == {} ==> ratio == 0.0 && largest == 0
  {
    var size := LargestFreeComponent(free);
    largest := size;
    ratio := size as real / area;
  }

  function Area(c: City): (area: real)
    requires c.width > 0 && c.height > 0
    ensures area > 0.0
  {
    assert c.width * c.height > 0;
    (c.width * c.height) as real
  }

  // ---- Room to expand ----------------------------------------------------------------

  /** A component is everything exactly when all cells are joined. */
  lemma WholeIffConnected(free: set<Point>, p: Point)
    requires p in free
    ensures |Component(free, p)| <= |free|
    ensures |Component(free, p)| == |free| <==> Connected(free)
  {
    SubsetOfSameSize(Component(free, p), free);
    if Component(free, p) == free { HubConnects(free, p); }
    SubsetSize(Component(free, p), free);
  }

  lemma SubsetSize(a: set<Point>, b: set<Point>)
    requires a <= b
    ensures |a| <= |b|
  {
    assert b == a + (b - a);
  }

  lemma LargestIsWhole(free: set<Point>, largest: nat)
    requires free != {} && LargestSeen(free, {}, largest)
    ensures 0 < largest <= |free|
    ensures largest == |free| <==> Connected(free)
  {
    var p :| p in free - {} && |Component(free, p)| == largest;
    JoinedSelf(free, p);
    assert p in Component(free, p);
    WholeIffConnected(free, p);
  }

  ghost predicate ScoresRoom(free: set<Point>, score: real) {
    && 0.0 <= score <= 1.0
    && (score == 0.0 <==> free == {})
    && (score == 1.0 <==> free != {} && Connected(free))
  }

  /** The share of the free land in its largest piece: full exactly when all of it lies together. */
  method ExpansionSpace(c: City) returns (score: real, ghost largest: nat)
    requires c.width > 0 && c.height > 0
    ensures ScoresRoom(FreeBuildableCells(c), score)
    ensures LargestSeen(FreeBuildableCells(c), {}, largest)
      && score * |FreeBuildableCells(c)| as real == largest as real
  {
    score, largest := FreeShare(FreeBuildableCells(c), Area(c));
  }

  method FreeShare(free: set<Point>, area: real) returns (score: real, ghost largest: nat)
    requires area > 0.0
    ensures ScoresRoom(free, score)
    ensures LargestSeen(free, {}, largest) && score * |free| as real == largest as real
  {
    var ratio;
    ratio, largest := RatioOf(free, area);
    if |free| == 0 { return 0.0, largest; }
    LargestIsWhole(free, largest);
    score := ShareOf(ratio, |free|, area, largest);
  }

  method ShareOf(ratio: real, count: nat, area: real, ghost largest: nat) returns (score: real)
    requires 0 < largest <= count && area > 0.0 && IsShare(ratio, largest, area)
    ensures 0.0 < score <= 1.0 && score * count as real == largest as real
    ensures score == 1.0 <==> largest == count
  {
    Shares(largest, count, area, ratio);
    score := ratio / (count as real / area);
    score := if score > 1.0 then 1.0 else score;
  }

  lemma Quotient(x: real, y: real)
    requires x > 0.0 && y > 0.0
    ensures x / y > 0.0 && x / y * y == x
  {
    var q := x / y;
    assert q * y == x;
    if q <= 0.0 { NoPositiveProduct(q, y); }
  }

  lemma NoPositiveProduct(q: real, y: real)
    requires q <= 0.0 && y > 0.0
    ensures q * y <= 0.0
  {
  }

  lemma PositiveProduct(x: real, y: real)
    requires x > 0.0 && y > 0.0
    ensures x * y > 0.0
  {
  }

  /** What `s` times the whole gives the part is the share. */
  lemma ShareBounds(s: real, part: real, whole: real)
    requires 0.0 < part <= whole && s * whole == part
    ensures 0.0 < s <= 1.0
    ensures s == 1.0 <==> part == whole
  {
    if s <= 0.0 { NoPositiveProduct(s, whole); }
    assert (s - 1.0) * whole == part - whole;
    if s > 1.0 { PositiveProduct(s - 1.0, whole); }
  }

  lemma Shares(part: nat, whole: nat, area: real, ratio: real)
    requires 0 < part <= whole && area > 0.0 && ratio * area == part as real
    ensures whole as real / area > 0.0
    ensures 0.0 < ratio / (whole as real / area) <= 1.0
    ensures ratio / (whole as real / area) * whole as real == part as real
    ensures ratio / (whole as real / area) == 1.0 <==> part == whole
  {
    var a, b := part as real, whole as real;
    Quotient(b, area);
    var q := b / area;
    var s := ratio / q;
    assert s * q == ratio;
    Regroup(s, q, area);
    assert s * b == a;
    ShareBounds(s, a, b);
  }

  lemma Regroup(x: real, y: real, z: real)
    ensures x * (y * z) == (x * y) * z
  {
  }
}
