/** Paths over grid cells and the connectivity of a road network. */
module Roads {
  import opened CityMap

  ghost predicate Hop(p: seq<Point>, i: int)
    requires 0 <= i < |p| - 1
  {
    Adjacent(p[i], p[i + 1])
  }

  /** A nonempty path of 4-adjacent cells inside `cells`. */
  ghost predicate Path(cells: set<Point>, p: seq<Point>) {
    && p != []
    && (forall i :: 0 <= i < |p| ==> p[i] in cells)
    && (forall i {:trigger Hop(p, i)} :: 0 <= i < |p| - 1 ==> Hop(p, i))
  }

  ghost predicate PathBetween(cells: set<Point>, p: seq<Point>, a: Point, b: Point) {
    Path(cells, p) && p[0] == a && p[|p| - 1] == b
  }

  ghost predicate Joined(cells: set<Point>, a: Point, b: Point) {
    exists p :: PathBetween(cells, p, a, b)
  }

  /** Every two road cells are joined by roads. */
  ghost predicate Connected(roads: set<Point>) {
    forall a, b :: a in roads && b in roads ==> Joined(roads, a, b)
  }

  lemma JoinedSelf(cells: set<Point>, a: Point)
    requires a in cells
    ensures Joined(cells, a, a)
  {
    assert PathBetween(cells, [a], a, a);
  }

  lemma JoinedStep(cells: set<Point>, a: Point, b: Point, c: Point)
    requires Joined(cells, a, b) && Adjacent(b, c) && c in cells
    ensures Joined(cells, a, c)
  {
    var p :| PathBetween(cells, p, a, b);
    var q := p + [c];
    forall i | 0 <= i < |q| - 1 ensures Hop(q, i) {
      if i < |p| - 1 { assert Hop(p, i); }
    }
    assert PathBetween(cells, q, a, c);
  }

  lemma {:induction false} JoinedAlong(cells: set<Point>, a: Point, p: seq<Point>, k: nat)
    requires Path(cells, p) && Joined(cells, a, p[0]) && k < |p|
    ensures Joined(cells, a, p[k])
    decreases k
  {
    if k > 0 {
      JoinedAlong(cells, a, p, k - 1);
      assert Hop(p, k - 1);
      JoinedStep(cells, a, p[k - 1], p[k]);
    }
  }

  lemma JoinedTransitive(cells: set<Point>, a: Point, b: Point, c: Point)
    requires Joined(cells, a, b) && Joined(cells, b, c)
    ensures Joined(cells, a, c)
  {
    var p :| PathBetween(cells, p, b, c);
    JoinedAlong(cells, a, p, |p| - 1);
  }

  lemma {:induction false} JoinedBack(cells: set<Point>, p: seq<Point>, k: nat)
    requires Path(cells, p) && k < |p|
    ensures Joined(cells, p[k], p[0])
    decreases k
  {
    if k == 0 {
      JoinedSelf(cells, p[0]);
    } else {
      JoinedBack(cells, p, k - 1);
      assert Hop(p, k - 1);
      JoinedSelf(cells, p[k]);
      JoinedStep(cells, p[k], p[k], p[k - 1]);
      JoinedTransitive(cells, p[k], p[k - 1], p[0]);
    }
  }

  lemma JoinedSymmetric(cells: set<Point>, a: Point, b: Point)
    requires Joined(cells, a, b)
    ensures Joined(cells, b, a)
  {
    var p :| PathBetween(cells, p, a, b);
    JoinedBack(cells, p, |p| - 1);
  }

  lemma JoinedWiden(small: set<Point>, cells: set<Point>, a: Point, b: Point)
    requires small <= cells && Joined(small, a, b)
    ensures Joined(cells, a, b)
  {
    var p :| PathBetween(small, p, a, b);
    assert PathBetween(cells, p, a, b);
  }

  /** Joined to one common cell means joined to each other. */
  lemma HubConnects(roads: set<Point>, hub: Point)
    requires forall r :: r in roads ==> Joined(roads, hub, r)
    ensures Connected(roads)
  {
    forall a, b | a in roads && b in roads ensures Joined(roads, a, b) {
      JoinedSymmetric(roads, hub, a);
      JoinedTransitive(roads, a, hub, b);
    }
  }

  // ---- Depth-first search ------------------------------------------------------------

  /** Every road neighbour of `v` is in `visited`. */
  ghost predicate Explored(roads: set<Point>, visited: set<Point>, v: Point) {
    forall w :: w in roads && Adjacent(v, w) ==> w in visited
  }

  /** Whatever a closed set can reach it already contains. */
  lemma {:induction false} ClosedReach(roads: set<Point>, visited: set<Point>, p: seq<Point>, k: nat)
    requires Path(roads, p) && p[0] in visited && k < |p|
    requires forall v :: v in visited ==> Explored(roads, visited, v)
    ensures p[k] in visited
    decreases k
  {
    if k > 0 {
      ClosedReach(roads, visited, p, k - 1);
      assert Hop(p, k - 1);
      assert Explored(roads, visited, p[k - 1]);
    }
  }

  /** Reached from the start, and explored unless still on the stack. */
  ghost predicate Searching(roads: set<Point>, start: Point, visited: set<Point>, stack: seq<Point>) {
    && start in visited && visited <= roads
    && (forall v :: v in visited ==> Joined(roads, start, v))
    && (forall v :: v in visited && v !in stack ==> Explored(roads, visited, v))
    && (forall v :: v in stack ==> v in visited)
  }

  method PushNeighbors(roads: set<Point>, ghost start: Point, point: Point, visited: set<Point>, stack: seq<Point>)
    returns (visited': set<Point>, stack': seq<Point>)
    requires Searching(roads, start, visited, stack + [point])
    ensures Searching(roads, start, visited', stack')
    ensures visited <= visited' && (visited' == visited ==> stack' == stack)
  {
    var neighbors := point.Neighbors4();
    assert point in stack + [point];
    visited', stack' := visited, stack;
    for k := 0 to |neighbors|
      invariant visited <= visited' <= roads
      invariant visited' == visited ==> stack' == stack
      invariant forall v :: v in visited' ==> Joined(roads, start, v)
      invariant forall v :: v in stack' ==> v in visited'
      invariant forall v :: v in visited' && v !in stack' ==> v in visited && v !in stack
      invariant forall j :: 0 <= j < k && neighbors[j] in roads ==> neighbors[j] in visited'
    {
      var w := neighbors[k];
      assert w in neighbors;
      if w in roads && w !in visited' {
        JoinedStep(roads, start, point, w);
        visited', stack' := visited' + {w}, stack' + [w];
      }
    }
    forall v | v in visited' && v !in stack' ensures Explored(roads, visited', v) {
      if v == point {
        assert forall w :: Adjacent(point, w) ==> w in neighbors;
      } else {
        assert v !in stack + [point];
        assert Explored(roads, visited, v);
      }
    }
  }

  /** True exactly when every two road cells are joined by a 4-adjacent road path. */
  method RoadsConnected(roads: set<Point>) returns (connected: bool)
    ensures connected <==> Connected(roads)
  {
    if roads == {} { return true; }
    var start :| start in roads;
    JoinedSelf(roads, start);
    var visited, stack := {start}, [start];
    while stack != []
      invariant Searching(roads, start, visited, stack)
      decreases roads - visited, |stack|
    {
      var point, rest := stack[|stack| - 1], stack[..|stack| - 1];
      assert rest + [point] == stack;
      var now;
      now, stack := PushNeighbors(roads, start, point, visited, rest);
      if now != visited { assert exists w :: w in now && w !in visited; }
      visited := now;
    }
    VisitedDecides(roads, start, visited);
    return |visited| == |roads|;
  }

  lemma SubsetOfSameSize(a: set<Point>, b: set<Point>)
    requires a <= b
    ensures |a| == |b| <==> a == b
  {
    if a != b {
      var x :| x in b && x !in a;
      assert |b| == |a| + |b - a| by { assert b == a + (b - a); }
      assert x in b - a;
    }
  }

  lemma VisitedDecides(roads: set<Point>, start: Point, visited: set<Point>)
    requires Searching(roads, start, visited, []) 
    ensures |visited| == |roads| <==> Connected(roads)
  {
    SubsetOfSameSize(visited, roads);
    if visited == roads {
      HubConnects(roads, start);
    } else if Connected(roads) {
      var r :| r in roads && r !in visited;
      var p :| PathBetween(roads, p, start, r);
      ClosedReach(roads, visited, p, |p| - 1);
    }
  }
}
