/** The shortest free path from beside a building to beside a road. */
module Connector {
  import opened Wrappers
  import opened Orders
  import opened CityMap
  import opened Coordinates
  import opened Roads
  import opened PathOrder

  /** Cells a new road may use: on the map, unoccupied, outside the building itself. */
  function FreeCells(city: City, b: Building): (free: set<Point>)
    ensures forall p :: p in free <==>
      city.InBounds(p) && p !in city.OccupiedCells(Some(b.spec.id)) && p !in b.Footprint()
  {
    var grid := set x, y | 0 <= x < city.width && 0 <= y < city.height :: Point(x, y);
    set p | p in grid && p !in city.OccupiedCells(Some(b.spec.id)) && p !in b.Footprint()
  }

  function Starts(city: City, b: Building): set<Point> {
    set p | p in FreeCells(city, b) && b.Beside(p)
  }

  /** A road cell is next to `p`. */
  predicate NextToRoad(roads: set<Point>, p: Point) {
    exists q :: q in roads && Adjacent(p, q)
  }

  ghost predicate Reaches(free: set<Point>, starts: set<Point>, p: seq<Point>) {
    Path(free, p) && p[0] in starts
  }

  /** A path of free cells from beside the building to beside a road. */
  ghost predicate Connects(city: City, b: Building, p: seq<Point>) {
    Reaches(FreeCells(city, b), Starts(city, b), p) && NextToRoad(city.roads, p[|p| - 1])
  }

  /** A new road may use the cell: on the map, off roads and blocked cells, outside every building. */
  ghost predicate OpenCell(city: City, b: Building, p: Point) {
    && OnMap(city, p) && p !in city.roads && p !in city.blocked && !Inside(b, p)
    && forall i {:trigger city.buildings[i]} ::
      0 <= i < |city.buildings| && city.buildings[i].spec.id != b.spec.id ==> !Inside(city.buildings[i], p)
  }

  /** Open cells one step apart, the first one step from the building and the last one step from a road. */
  ghost predicate Driveway(city: City, b: Building, path: seq<Point>) {
    && path != []
    && (forall k {:trigger path[k]} :: 0 <= k < |path| ==> OpenCell(city, b, path[k]))
    && (forall k {:trigger path[k]} :: 0 < k < |path| ==> StepsApart(path[k - 1], path[k]) == 1)
    && NextTo(b, path[0])
    && exists q :: q in city.roads && StepsApart(path[|path| - 1], q) == 1
  }

  lemma OpenCellExactly(city: City, b: Building, p: Point)
    ensures p in FreeCells(city, b) <==> OpenCell(city, b, p)
  {
    if p in FreeCells(city, b) {
      forall i | 0 <= i < |city.buildings| && city.buildings[i].spec.id != b.spec.id
        ensures !Inside(city.buildings[i], p)
      {
        assert !city.OccupiedByOther(Some(b.spec.id), p);
        FootprintIsInside(city.buildings[i], p);
      }
    }
  }

  lemma ConnectsIsDriveway(city: City, b: Building, path: seq<Point>)
    requires Connects(city, b, path)
    ensures Driveway(city, b, path)
  {
    forall k | 0 <= k < |path| ensures OpenCell(city, b, path[k]) { OpenCellExactly(city, b, path[k]); }
    forall k | 0 < k < |path| ensures StepsApart(path[k - 1], path[k]) == 1 { assert Hop(path, k - 1); }
    BesideIsNextTo(b, path[0]);
    var q :| q in city.roads && Adjacent(path[|path| - 1], q);
    AdjacentIsOneApart(path[|path| - 1], q);
  }

  lemma DrivewayConnects(city: City, b: Building, path: seq<Point>)
    requires Driveway(city, b, path)
    ensures Connects(city, b, path)
  {
    forall k | 0 <= k < |path| ensures path[k] in FreeCells(city, b) { OpenCellExactly(city, b, path[k]); }
    forall k | 0 <= k < |path| - 1 ensures Hop(path, k) { AdjacentIsOneApart(path[k], path[k + 1]); }
    BesideIsNextTo(b, path[0]);
    var q :| q in city.roads && StepsApart(path[|path| - 1], q) == 1;
    AdjacentIsOneApart(path[|path| - 1], q);
  }

  /** The connectors are the paths of open cells from beside the building to beside a road. */
  lemma ConnectsExactly(city: City, b: Building, path: seq<Point>)
    ensures Connects(city, b, path) <==> Driveway(city, b, path)
  {
    if Connects(city, b, path) { ConnectsIsDriveway(city, b, path); }
    if Driveway(city, b, path) { DrivewayConnects(city, b, path); }
  }

  // ---- Breadth-first search ----------------------------------------------------------

  function Tip(p: seq<Point>): Point
    requires p != []
  {
    p[|p| - 1]
  }

  /** Every queued path is a path from a start whose length is its tip's distance. */
  ghost predicate Queued(free: set<Point>, starts: set<Point>, dist: map<Point, nat>, queue: seq<seq<Point>>) {
    forall k {:trigger queue[k]} :: 0 <= k < |queue| ==>
      Reaches(free, starts, queue[k]) && Tip(queue[k]) in dist && dist[Tip(queue[k])] == |queue[k]|
  }

  /** Lengths in the queue never fall and differ by at most one. */
  ghost predicate Layered(queue: seq<seq<Point>>) {
    forall i, j {:trigger queue[i], queue[j]} :: 0 <= i <= j < |queue| ==> |queue[i]| <= |queue[j]| <= |queue[i]| + 1
  }

  /** A closed cell within the limit is no goal and passes its distance on. */
  ghost predicate Closed(free: set<Point>, roads: set<Point>, limit: nat, dist: map<Point, nat>, v: Point)
    requires v in dist
  {
    dist[v] <= limit ==>
      && !NextToRoad(roads, v)
      && forall w {:trigger Adjacent(v, w)} :: w in free && Adjacent(v, w) ==> w in dist && dist[w] <= dist[v] + 1
  }

  /** Visited cells are closed or at the tip of a queued path. */
  ghost predicate Accounted(free: set<Point>, roads: set<Point>, limit: nat, dist: map<Point, nat>,
                            queue: seq<seq<Point>>)
  {
    forall v {:trigger Closed(free, roads, limit, dist, v)} :: v in dist ==>
      Closed(free, roads, limit, dist, v) || AtTip(queue, v)
  }

  ghost predicate AtTip(queue: seq<seq<Point>>, v: Point) {
    exists k :: 0 <= k < |queue| && queue[k] != [] && Tip(queue[k]) == v
  }

  ghost predicate Bounded(dist: map<Point, nat>, d: nat) {
    forall v :: v in dist ==> dist[v] <= d
  }

  ghost predicate Started(starts: set<Point>, dist: map<Point, nat>) {
    forall v :: v in starts ==> v in dist && dist[v] == 1
  }

  ghost predicate Bfs(free: set<Point>, starts: set<Point>, roads: set<Point>, limit: nat,
                      dist: map<Point, nat>, queue: seq<seq<Point>>)
  {
    && dist.Keys <= free && starts <= free && Started(starts, dist)
    && Queued(free, starts, dist, queue) && Layered(queue)
    && Accounted(free, roads, limit, dist, queue)
    && (queue != [] ==> Bounded(dist, |queue[0]| + 1))
  }

  /** No path shorter than the queue's front, and within the limit, ends beside a road. */
  lemma {:induction false} NoShorterPath(free: set<Point>, starts: set<Point>, roads: set<Point>, limit: nat,
                                         dist: map<Point, nat>, d: nat, p: seq<Point>, k: nat)
    requires Reaches(free, starts, p) && k < |p| && |p| < d && |p| <= limit && Started(starts, dist)
    requires forall v :: v in dist && dist[v] < d ==> Closed(free, roads, limit, dist, v)
    ensures p[k] in dist && dist[p[k]] <= k + 1
    ensures !NextToRoad(roads, p[k])
    decreases k
  {
    if k > 0 {
      NoShorterPath(free, starts, roads, limit, dist, d, p, k - 1);
      assert Hop(p, k - 1);
      assert Closed(free, roads, limit, dist, p[k - 1]);
      assert Adjacent(p[k - 1], p[k]);
    }
    assert Closed(free, roads, limit, dist, p[k]);
  }

  lemma TipIsFar(free: set<Point>, starts: set<Point>, dist: map<Point, nat>, queue: seq<seq<Point>>, v: Point)
    requires Queued(free, starts, dist, queue) && Layered(queue) && AtTip(queue, v)
    ensures queue != [] && v in dist && dist[v] >= |queue[0]|
  {
    var k :| 0 <= k < |queue| && queue[k] != [] && Tip(queue[k]) == v;
    assert Reaches(free, starts, queue[k]);
    assert |queue[0]| <= |queue[k]|;
  }

  /** Below the front of the queue everything visited is closed. */
  lemma BelowFrontClosed(free: set<Point>, starts: set<Point>, roads: set<Point>, limit: nat,
                         dist: map<Point, nat>, queue: seq<seq<Point>>, d: nat)
    requires Queued(free, starts, dist, queue) && Layered(queue) && Accounted(free, roads, limit, dist, queue)
    requires queue != [] ==> d <= |queue[0]|
    ensures forall v :: v in dist && dist[v] < d ==> Closed(free, roads, limit, dist, v)
  {
    forall v | v in dist && dist[v] < d ensures Closed(free, roads, limit, dist, v) {
      if AtTip(queue, v) { TipIsFar(free, starts, dist, queue, v); }
    }
  }

  /** Appending a neighbour keeps the path a path. */
  lemma ReachesOn(free: set<Point>, starts: set<Point>, p: seq<Point>, w: Point)
    requires Reaches(free, starts, p) && w in free && Adjacent(Tip(p), w)
    ensures Reaches(free, starts, p + [w])
  {
    var q := p + [w];
    forall i | 0 <= i < |q| - 1 ensures Hop(q, i) {
      if i < |p| - 1 { assert Hop(p, i); }
    }
  }

  // ---- One turn of the search --------------------------------------------------------

  /** The state while the neighbours of the popped path's tip are being queued. */
  ghost predicate Expanding(free: set<Point>, starts: set<Point>, roads: set<Point>, limit: nat,
                            dist: map<Point, nat>, path: seq<Point>, queue: seq<seq<Point>>)
  {
    && dist.Keys <= free && starts <= free && Started(starts, dist)
    && Reaches(free, starts, path) && Tip(path) in dist && dist[Tip(path)] == |path|
    && Queued(free, starts, dist, queue) && Layered([path] + queue)
    && Accounted(free, roads, limit, dist, [path] + queue)
    && Bounded(dist, |path| + 1)
  }

  lemma PopIsExpanding(free: set<Point>, starts: set<Point>, roads: set<Point>, limit: nat,
                       dist: map<Point, nat>, queue: seq<seq<Point>>)
    requires Bfs(free, starts, roads, limit, dist, queue) && queue != []
    ensures Expanding(free, starts, roads, limit, dist, queue[0], queue[1..])
  {
    assert [queue[0]] + queue[1..] == queue;
  }

  /** Queueing one new neighbour. */
  lemma QueueNeighbor(free: set<Point>, starts: set<Point>, roads: set<Point>, limit: nat,
                      dist: map<Point, nat>, path: seq<Point>, queue: seq<seq<Point>>, w: Point)
    requires Expanding(free, starts, roads, limit, dist, path, queue)
    requires w in free && w !in dist && Adjacent(Tip(path), w)
    ensures Expanding(free, starts, roads, limit, dist[w := |path| + 1], path, queue + [path + [w]])
  {
    var now := dist[w := |path| + 1];
    ReachesOn(free, starts, path, w);
    LayersGrow(path, queue, path + [w]);
    forall v | v in now ensures Closed(free, roads, limit, now, v) || AtTip([path] + (queue + [path + [w]]), v) {
      if v == w {
        TipAdded([path] + queue, path + [w], v);
      } else if AtTip([path] + queue, v) {
        TipAdded([path] + queue, path + [w], v);
      } else {
        assert Closed(free, roads, limit, dist, v);
        assert Closed(free, roads, limit, now, v);
      }
    }
  }

  lemma TipAdded(queue: seq<seq<Point>>, path: seq<Point>, v: Point)
    requires path != [] && (Tip(path) == v || AtTip(queue, v))
    ensures AtTip(queue + [path], v)
    ensures queue != [] ==> queue + [path] == [queue[0]] + (queue[1..] + [path])
  {
    var now := queue + [path];
    if Tip(path) == v {
      assert now[|queue|] == path;
    } else {
      var k :| 0 <= k < |queue| && queue[k] != [] && Tip(queue[k]) == v;
      assert now[k] == queue[k];
    }
  }

  lemma LayersGrow(path: seq<Point>, queue: seq<seq<Point>>, longer: seq<Point>)
    requires Layered([path] + queue) && |longer| == |path| + 1
    ensures Layered([path] + (queue + [longer]))
  {
    var before, now := [path] + queue, [path] + (queue + [longer]);
    assert before[0] == path;
    assert forall k :: 0 <= k < |before| ==> now[k] == before[k];
    assert now[|before|] == longer;
  }

  /** The popped path is done with: its tip is closed. */
  lemma EndTurn(free: set<Point>, starts: set<Point>, roads: set<Point>, limit: nat,
                dist: map<Point, nat>, path: seq<Point>, queue: seq<seq<Point>>)
    requires Expanding(free, starts, roads, limit, dist, path, queue)
    requires Closed(free, roads, limit, dist, Tip(path))
    ensures Bfs(free, starts, roads, limit, dist, queue)
  {
    var all := [path] + queue;
    assert all[0] == path && all[1..] == queue;
    assert forall k :: 0 <= k < |queue| ==> all[k + 1] == queue[k];
    forall v | v in dist ensures Closed(free, roads, limit, dist, v) || AtTip(queue, v) {
      if !Closed(free, roads, limit, dist, v) {
        var k :| 0 <= k < |all| && all[k] != [] && Tip(all[k]) == v;
        assert queue[k - 1] == all[k];
      }
    }
    forall i, j | 0 <= i <= j < |queue| ensures |queue[i]| <= |queue[j]| <= |queue[i]| + 1 {
      assert queue[i] == all[i + 1] && queue[j] == all[j + 1];
    }
    if queue != [] { assert |all[0]| <= |all[1]|; }
  }

  // ---- Which path the search finds ---------------------------------------------------

  /** No path of its length to the same cell comes before it. */
  ghost predicate FirstTo(free: set<Point>, starts: set<Point>, best: seq<Point>) {
    && Reaches(free, starts, best)
    && forall q {:trigger Reaches(free, starts, q)} ::
         Reaches(free, starts, q) && |q| == |best| && Tip(q) == Tip(best) ==> NotAfter(best, q)
  }

  /** Paths of one length are queued in their order. */
  ghost predicate InLine(queue: seq<seq<Point>>) {
    forall i, j {:trigger queue[i], queue[j]} :: 0 <= i < j < |queue| && |queue[i]| == |queue[j]| ==>
      Before(queue[i], queue[j])
  }

  /** A longer path extends one that came before every path of the current length. */
  ghost predicate Parented(queue: seq<seq<Point>>) {
    forall i, k {:trigger queue[i], queue[k]} ::
      0 <= i < |queue| && 0 <= k < |queue| && |queue[k]| == |queue[i]| + 1 ==>
        Before(queue[k][..|queue[i]|], queue[i])
  }

  ghost predicate QueueOf(found: map<Point, seq<Point>>, queue: seq<seq<Point>>) {
    forall k {:trigger queue[k]} :: 0 <= k < |queue| ==>
      queue[k] != [] && Tip(queue[k]) in found && queue[k] == found[Tip(queue[k])]
  }

  /** `found` holds, for every visited cell, the first of the shortest paths to it. */
  ghost predicate FoundFirst(free: set<Point>, starts: set<Point>, dist: map<Point, nat>, found: map<Point, seq<Point>>)
  {
    && found.Keys == dist.Keys
    && forall v {:trigger found[v]} :: v in found ==>
         |found[v]| == dist[v] && FirstTo(free, starts, found[v]) && Tip(found[v]) == v
  }

  ghost predicate Ranked(free: set<Point>, starts: set<Point>, dist: map<Point, nat>, found: map<Point, seq<Point>>,
                         queue: seq<seq<Point>>)
  {
    FoundFirst(free, starts, dist, found) && QueueOf(found, queue) && InLine(queue)
  }

  /** The longer paths queued so far extend earlier paths, or this one by an earlier neighbour. */
  ghost predicate Offspring(path: seq<Point>, queue: seq<seq<Point>>, j: nat)
    requires path != []
  {
    forall k {:trigger queue[k]} :: 0 <= k < |queue| && |queue[k]| == |path| + 1 ==>
      || Before(queue[k][..|path|], path)
      || (queue[k][..|path|] == path && Heading(Tip(path), Tip(queue[k])) < j)
  }

  lemma RankPopped(free: set<Point>, starts: set<Point>, dist: map<Point, nat>, found: map<Point, seq<Point>>,
                   queue: seq<seq<Point>>)
    requires Ranked(free, starts, dist, found, queue) && Parented(queue) && queue != []
    ensures queue[0] != [] && [queue[0]] + queue[1..] == queue
    ensures Parented(queue[1..]) && Offspring(queue[0], queue[1..], 0)
  {
    var rest := queue[1..];
    assert forall k :: 0 <= k < |rest| ==> rest[k] == queue[k + 1];
  }

  lemma RankEnded(free: set<Point>, starts: set<Point>, dist: map<Point, nat>, found: map<Point, seq<Point>>,
                  path: seq<Point>, queue: seq<seq<Point>>)
    requires Ranked(free, starts, dist, found, [path] + queue)
    ensures Ranked(free, starts, dist, found, queue)
  {
    var all := [path] + queue;
    assert forall k :: 0 <= k < |queue| ==> queue[k] == all[k + 1];
  }

  /** Where everything nearer than `d` is closed, a path of at most `d` cells ends on a visited cell. */
  lemma {:induction false} PathVisited(free: set<Point>, starts: set<Point>, roads: set<Point>, limit: nat,
                                       dist: map<Point, nat>, d: nat, p: seq<Point>)
    requires Reaches(free, starts, p) && |p| <= d <= limit && Started(starts, dist)
    requires forall v :: v in dist && dist[v] < d ==> Closed(free, roads, limit, dist, v)
    ensures Tip(p) in dist && dist[Tip(p)] <= |p|
    decreases |p|
  {
    if |p| > 1 {
      var front := p[..|p| - 1];
      PathFront(free, p);
      PathVisited(free, starts, roads, limit, dist, d, front);
      assert Closed(free, roads, limit, dist, Tip(front)) && Adjacent(Tip(front), Tip(p));
    }
  }

  lemma ExpandingBelow(free: set<Point>, starts: set<Point>, roads: set<Point>, limit: nat,
                       dist: map<Point, nat>, path: seq<Point>, queue: seq<seq<Point>>)
    requires Expanding(free, starts, roads, limit, dist, path, queue)
    ensures forall v :: v in dist && dist[v] < |path| ==> Closed(free, roads, limit, dist, v)
  {
    var all := [path] + queue;
    assert all[0] == path && forall k :: 0 < k < |all| ==> all[k] == queue[k - 1];
    BelowFrontClosed(free, starts, roads, limit, dist, all, |path|);
  }

  /** An unclosed cell as far as the front is at the tip of a queued path no earlier than the front. */
  lemma OpenIsQueued(free: set<Point>, starts: set<Point>, roads: set<Point>, limit: nat, dist: map<Point, nat>,
                     found: map<Point, seq<Point>>, queue: seq<seq<Point>>, u: Point)
    requires Accounted(free, roads, limit, dist, queue) && Ranked(free, starts, dist, found, queue) && queue != []
    requires u in dist && !Closed(free, roads, limit, dist, u) && dist[u] == |queue[0]|
    ensures NotAfter(queue[0], found[u])
  {
    assert AtTip(queue, u);
    var k :| 0 <= k < |queue| && queue[k] != [] && Tip(queue[k]) == u;
    assert queue[k] == found[u];
    if k > 0 { assert Before(queue[0], queue[k]); }
  }

  /** The step before the last of a path to a new neighbour comes no earlier than the path being extended. */
  lemma ParentNotEarlier(free: set<Point>, starts: set<Point>, roads: set<Point>, limit: nat, dist: map<Point, nat>,
                         found: map<Point, seq<Point>>, path: seq<Point>, queue: seq<seq<Point>>, q: seq<Point>,
                         w: Point)
    requires Expanding(free, starts, roads, limit, dist, path, queue) && |path| <= limit
    requires Ranked(free, starts, dist, found, [path] + queue) && w in free && w !in dist
    requires Reaches(free, starts, q) && |q| == |path| && Adjacent(Tip(q), w)
    ensures NotAfter(path, q)
  {
    var all := [path] + queue;
    assert all[0] == path;
    ExpandingBelow(free, starts, roads, limit, dist, path, queue);
    PathVisited(free, starts, roads, limit, dist, |path|, q);
    var u := Tip(q);
    assert dist[u] <= limit && !Closed(free, roads, limit, dist, u);
    OpenIsQueued(free, starts, roads, limit, dist, found, all, u);
    assert FirstTo(free, starts, found[u]) && NotAfter(found[u], q);
    NotAfterTransitive(path, found[u], q);
  }

  /** The path found to a new neighbour is the first of the shortest ones. */
  lemma NeighborFirst(free: set<Point>, starts: set<Point>, roads: set<Point>, limit: nat, dist: map<Point, nat>,
                      found: map<Point, seq<Point>>, path: seq<Point>, queue: seq<seq<Point>>, w: Point)
    requires Expanding(free, starts, roads, limit, dist, path, queue) && |path| <= limit
    requires Ranked(free, starts, dist, found, [path] + queue)
    requires w in free && w !in dist && Adjacent(Tip(path), w)
    ensures FirstTo(free, starts, path + [w])
  {
    ReachesOn(free, starts, path, w);
    forall q | Reaches(free, starts, q) && |q| == |path| + 1 && Tip(q) == w ensures NotAfter(path + [w], q) {
      var front := q[..|path|];
      PathFront(free, q);
      assert q == front + [w];
      ParentNotEarlier(free, starts, roads, limit, dist, found, path, queue, front, w);
      if path != front { BeforeOn(path, front, w, w); }
    }
  }

  /** A queued path of the new length stands before the one queued next. */
  lemma OffspringInLine(path: seq<Point>, q: seq<Point>, j: nat, w: Point)
    requires path != [] && j < 4 && w == Tip(path).Neighbors4()[j] && |q| == |path| + 1
    requires || Before(q[..|path|], path)
             || (q[..|path|] == path && Heading(Tip(path), Tip(q)) < j)
    ensures Before(q, path + [w])
  {
    HeadingIsIndex(Tip(path), j);
    assert q == q[..|path|] + [Tip(q)];
    BeforeOn(q[..|path|], path, Tip(q), w);
  }

  lemma LineGrows(path: seq<Point>, queue: seq<seq<Point>>, j: nat, w: Point)
    requires path != [] && j < 4 && w == Tip(path).Neighbors4()[j]
    requires InLine([path] + queue) && Offspring(path, queue, j)
    ensures InLine([path] + (queue + [path + [w]]))
  {
    var before, now := [path] + queue, [path] + (queue + [path + [w]]);
    forall i, k | 0 <= i < k < |now| && |now[i]| == |now[k]| ensures Before(now[i], now[k]) {
      assert now[i] == before[i];
      if k < |before| {
        assert now[k] == before[k];
      } else {
        assert now[k] == path + [w] && now[i] == queue[i - 1];
        OffspringInLine(path, queue[i - 1], j, w);
      }
    }
  }

  lemma FamilyGrows(path: seq<Point>, queue: seq<seq<Point>>, j: nat, w: Point)
    requires path != [] && j < 4 && w == Tip(path).Neighbors4()[j]
    requires InLine([path] + queue) && Layered([path] + queue) && Parented(queue) && Offspring(path, queue, j)
    ensures Parented(queue + [path + [w]]) && Offspring(path, queue + [path + [w]], j + 1)
  {
    var all, now := [path] + queue, queue + [path + [w]];
    assert forall k :: 0 <= k < |queue| ==> now[k] == queue[k] && all[k + 1] == queue[k];
    assert all[0] == path && now[|queue|] == path + [w] && now[|queue|][..|path|] == path;
    HeadingIsIndex(Tip(path), j);
    forall k | 0 <= k < |queue| ensures |queue[k]| <= |path| + 1 { assert |all[k + 1]| <= |all[0]| + 1; }
    forall i, k | 0 <= i < |now| && 0 <= k < |now| && |now[k]| == |now[i]| + 1
      ensures Before(now[k][..|now[i]|], now[i])
    {
      if k == |queue| { assert Before(all[0], all[i + 1]); }
    }
  }

  /** Queueing a neighbour keeps the ranks. */
  lemma RankNeighbor(free: set<Point>, starts: set<Point>, roads: set<Point>, limit: nat, dist: map<Point, nat>,
                     found: map<Point, seq<Point>>, path: seq<Point>, queue: seq<seq<Point>>, j: nat, w: Point)
    requires Expanding(free, starts, roads, limit, dist, path, queue) && |path| <= limit
    requires Ranked(free, starts, dist, found, [path] + queue) && Offspring(path, queue, j)
    requires j < 4 && w == Tip(path).Neighbors4()[j] && w in free && w !in dist && Adjacent(Tip(path), w)
    ensures Ranked(free, starts, dist[w := |path| + 1], found[w := path + [w]], [path] + (queue + [path + [w]]))
  {
    NeighborFirst(free, starts, roads, limit, dist, found, path, queue, w);
    LineGrows(path, queue, j, w);
    var before, now := [path] + queue, [path] + (queue + [path + [w]]);
    assert forall k :: 0 <= k < |before| ==> now[k] == before[k];
  }

  /** The neighbours of the popped path's tip up to the `j`-th have been looked at. */
  ghost predicate LookedAt(free: set<Point>, starts: set<Point>, roads: set<Point>, limit: nat, dist: map<Point, nat>,
                           found: map<Point, seq<Point>>, path: seq<Point>, queue: seq<seq<Point>>, j: nat)
  {
    && Expanding(free, starts, roads, limit, dist, path, queue) && |path| <= limit
    && Ranked(free, starts, dist, found, [path] + queue) && Parented(queue) && Offspring(path, queue, j)
  }

  lemma Skipped(free: set<Point>, starts: set<Point>, roads: set<Point>, limit: nat, dist: map<Point, nat>,
                found: map<Point, seq<Point>>, path: seq<Point>, queue: seq<seq<Point>>, j: nat)
    requires LookedAt(free, starts, roads, limit, dist, found, path, queue, j)
    ensures LookedAt(free, starts, roads, limit, dist, found, path, queue, j + 1)
  {
  }

  lemma Added(free: set<Point>, starts: set<Point>, roads: set<Point>, limit: nat, dist: map<Point, nat>,
              found: map<Point, seq<Point>>, path: seq<Point>, queue: seq<seq<Point>>, j: nat, w: Point)
    requires LookedAt(free, starts, roads, limit, dist, found, path, queue, j)
    requires j < 4 && w == Tip(path).Neighbors4()[j] && w in free && w !in dist && Adjacent(Tip(path), w)
    ensures LookedAt(free, starts, roads, limit, dist[w := |path| + 1], found[w := path + [w]], path,
                     queue + [path + [w]], j + 1)
  {
    RankNeighbor(free, starts, roads, limit, dist, found, path, queue, j, w);
    FamilyGrows(path, queue, j, w);
    QueueNeighbor(free, starts, roads, limit, dist, path, queue, w);
  }

  ghost predicate FirstVisited(neighbors: seq<Point>, free: set<Point>, visited: set<Point>, k: int)
    requires 0 <= k <= |neighbors|
  {
    forall j :: 0 <= j < k && neighbors[j] in free ==> neighbors[j] in visited
  }

  lemma OneMoreVisited(neighbors: seq<Point>, free: set<Point>, before: set<Point>, after: set<Point>, k: nat)
    requires k < |neighbors| && FirstVisited(neighbors, free, before, k) && before <= after
    requires neighbors[k] in free ==> neighbors[k] in after
    ensures FirstVisited(neighbors, free, after, k + 1)
  {
  }

  lemma AllVisited(p: Point, free: set<Point>, visited: set<Point>)
    requires FirstVisited(p.Neighbors4(), free, visited, 4)
    ensures forall w :: w in free && Adjacent(p, w) ==> w in visited
  {
    var neighbors := p.Neighbors4();
    assert forall w :: Adjacent(p, w) ==> w in neighbors;
  }

  lemma NothingAdded(first: set<Point>, before: set<Point>, after: set<Point>)
    requires first <= before <= after
    ensures after == first ==> before == first && after == before
  {
  }

  method Expand(free: set<Point>, ghost starts: set<Point>, ghost roads: set<Point>, ghost limit: nat,
                visited: set<Point>, ghost dist: map<Point, nat>, ghost found: map<Point, seq<Point>>,
                path: seq<Point>, queue: seq<seq<Point>>)
    returns (visited': set<Point>, ghost dist': map<Point, nat>, ghost found': map<Point, seq<Point>>,
             queue': seq<seq<Point>>)
    requires LookedAt(free, starts, roads, limit, dist, found, path, queue, 0) && visited == dist.Keys
    ensures LookedAt(free, starts, roads, limit, dist', found', path, queue', 4) && visited' == dist'.Keys
    ensures forall w :: w in free && Adjacent(Tip(path), w) ==> w in dist'
    ensures visited <= visited' && (visited' == visited ==> queue' == queue)
  {
    var neighbors := Tip(path).Neighbors4();
    visited', dist', found', queue' := visited, dist, found, queue;
    for k := 0 to |neighbors|
      invariant LookedAt(free, starts, roads, limit, dist', found', path, queue', k) && visited' == dist'.Keys
      invariant FirstVisited(neighbors, free, visited', k)
      invariant visited <= visited' && (visited' == visited ==> queue' == queue)
    {
      ghost var before := visited';
      visited', dist', found', queue' := LookAt(free, starts, roads, limit, visited', dist', found', path, queue', k);
      NothingAdded(visited, before, visited');
      OneMoreVisited(neighbors, free, before, visited', k);
    }
    AllVisited(Tip(path), free, visited');
  }

  /** The `j`-th neighbour is queued if it is free and new. */
  method LookAt(free: set<Point>, ghost starts: set<Point>, ghost roads: set<Point>, ghost limit: nat,
                visited: set<Point>, ghost dist: map<Point, nat>, ghost found: map<Point, seq<Point>>,
                path: seq<Point>, queue: seq<seq<Point>>, j: nat)
    returns (visited': set<Point>, ghost dist': map<Point, nat>, ghost found': map<Point, seq<Point>>,
             queue': seq<seq<Point>>)
    requires j < 4 && LookedAt(free, starts, roads, limit, dist, found, path, queue, j) && visited == dist.Keys
    ensures LookedAt(free, starts, roads, limit, dist', found', path, queue', j + 1) && visited' == dist'.Keys
    ensures visited <= visited' && (Tip(path).Neighbors4()[j] in free ==> Tip(path).Neighbors4()[j] in visited')
    ensures visited' == visited ==> queue' == queue
  {
    var w := Tip(path).Neighbors4()[j];
    assert w in Tip(path).Neighbors4();
    if w in free && w !in visited {
      Added(free, starts, roads, limit, dist, found, path, queue, j, w);
      return visited + {w}, dist[w := |path| + 1], found[w := path + [w]], queue + [path + [w]];
    }
    Skipped(free, starts, roads, limit, dist, found, path, queue, j);
    return visited, dist, found, queue;
  }

  /** A free path from a start to beside a road. */
  ghost predicate Arrives(free: set<Point>, starts: set<Point>, roads: set<Point>, p: seq<Point>) {
    Reaches(free, starts, p) && NextToRoad(roads, Tip(p))
  }

  lemma FrontIsShortest(free: set<Point>, starts: set<Point>, roads: set<Point>, limit: nat,
                        dist: map<Point, nat>, queue: seq<seq<Point>>, d: nat)
    requires Bfs(free, starts, roads, limit, dist, queue) && (queue != [] ==> d <= |queue[0]|)
    ensures forall p :: Arrives(free, starts, roads, p) && |p| <= limit ==> d <= |p|
  {
    BelowFrontClosed(free, starts, roads, limit, dist, queue, d);
    forall p | Arrives(free, starts, roads, p) && |p| <= limit ensures d <= |p| {
      if |p| < d { NoShorterPath(free, starts, roads, limit, dist, d, p, |p| - 1); }
    }
  }

  lemma StartQueue(free: set<Point>, starts: set<Point>, roads: set<Point>, limit: nat, order: seq<Point>)
    requires starts <= free && forall p :: p in order <==> p in starts
    ensures Bfs(free, starts, roads, limit, map p | p in starts :: 1,
      seq(|order|, k requires 0 <= k < |order| => [order[k]]))
  {
    var dist := map p | p in starts :: 1;
    var queue := seq(|order|, k requires 0 <= k < |order| => [order[k]]);
    assert forall k :: 0 <= k < |order| ==> order[k] in order;
    forall v | v in dist ensures AtTip(queue, v) {
      var k :| 0 <= k < |order| && order[k] == v;
      assert queue[k] == [v];
    }
  }

  lemma StartRanked(free: set<Point>, starts: set<Point>, order: seq<Point>)
    requires starts <= free && Ascending(order, PointLess) && forall p :: p in order <==> p in starts
    ensures Ranked(free, starts, map p | p in starts :: 1, map p | p in starts :: [p],
                   seq(|order|, k requires 0 <= k < |order| => [order[k]]))
    ensures Parented(seq(|order|, k requires 0 <= k < |order| => [order[k]]))
  {
    assert forall k :: 0 <= k < |order| ==> order[k] in order;
    forall v | v in starts ensures FirstTo(free, starts, [v]) {
      forall q | Reaches(free, starts, q) && |q| == 1 && Tip(q) == v ensures NotAfter([v], q) { assert q == [v]; }
    }
  }

  /** A goal at the front of the queue is reached by the first of the shortest paths to any goal. */
  lemma FrontIsFirst(free: set<Point>, starts: set<Point>, roads: set<Point>, limit: nat, dist: map<Point, nat>,
                     found: map<Point, seq<Point>>, queue: seq<seq<Point>>, p: seq<Point>)
    requires Bfs(free, starts, roads, limit, dist, queue) && Ranked(free, starts, dist, found, queue)
    requires queue != [] && |queue[0]| <= limit && Arrives(free, starts, roads, p) && |p| == |queue[0]|
    ensures NotAfter(queue[0], p)
  {
    BelowFrontClosed(free, starts, roads, limit, dist, queue, |queue[0]|);
    PathVisited(free, starts, roads, limit, dist, |queue[0]|, p);
    var u := Tip(p);
    assert !Closed(free, roads, limit, dist, u);
    OpenIsQueued(free, starts, roads, limit, dist, found, queue, u);
    assert FirstTo(free, starts, found[u]) && NotAfter(found[u], p);
    NotAfterTransitive(queue[0], found[u], p);
  }

  lemma GoalIsFirst(free: set<Point>, starts: set<Point>, roads: set<Point>, limit: nat, dist: map<Point, nat>,
                    found: map<Point, seq<Point>>, queue: seq<seq<Point>>)
    requires Bfs(free, starts, roads, limit, dist, queue) && Ranked(free, starts, dist, found, queue)
    requires queue != [] && |queue[0]| <= limit
    ensures forall p :: Arrives(free, starts, roads, p) ==> p == queue[0] || Earlier(queue[0], p)
  {
    FrontIsShortest(free, starts, roads, limit, dist, queue, |queue[0]|);
    forall p | Arrives(free, starts, roads, p) ensures p == queue[0] || Earlier(queue[0], p) {
      if |p| == |queue[0]| { FrontIsFirst(free, starts, roads, limit, dist, found, queue, p); }
    }
  }

  /** A path that arrives, and before any other. */
  ghost predicate FirstArrival(free: set<Point>, starts: set<Point>, roads: set<Point>, path: seq<Point>) {
    && Arrives(free, starts, roads, path)
    && forall p :: Arrives(free, starts, roads, p) ==> p == path || Earlier(path, p)
  }

  ghost predicate SearchState(free: set<Point>, starts: set<Point>, roads: set<Point>, limit: nat,
                              dist: map<Point, nat>, found: map<Point, seq<Point>>, queue: seq<seq<Point>>)
  {
    && Bfs(free, starts, roads, limit, dist, queue) && dist.Keys <= free
    && Ranked(free, starts, dist, found, queue) && Parented(queue)
  }

  /** A popped path, whose neighbours are still to be looked at. */
  ghost predicate Popped(free: set<Point>, starts: set<Point>, roads: set<Point>, limit: nat, dist: map<Point, nat>,
                         found: map<Point, seq<Point>>, path: seq<Point>, queue: seq<seq<Point>>)
  {
    && Expanding(free, starts, roads, limit, dist, path, queue)
    && Ranked(free, starts, dist, found, [path] + queue) && Parented(queue)
  }

  /** What is known of the path at the front of the queue. */
  lemma FrontFacts(free: set<Point>, starts: set<Point>, roads: set<Point>, limit: nat, dist: map<Point, nat>,
                   found: map<Point, seq<Point>>, queue: seq<seq<Point>>)
    requires SearchState(free, starts, roads, limit, dist, found, queue) && queue != []
    ensures Popped(free, starts, roads, limit, dist, found, queue[0], queue[1..])
    ensures |queue[0]| <= limit ==> LookedAt(free, starts, roads, limit, dist, found, queue[0], queue[1..], 0)
    ensures |queue[0]| <= limit && NextToRoad(roads, Tip(queue[0])) ==> FirstArrival(free, starts, roads, queue[0])
  {
    PopIsExpanding(free, starts, roads, limit, dist, queue);
    RankPopped(free, starts, dist, found, queue);
    if |queue[0]| <= limit { GoalIsFirst(free, starts, roads, limit, dist, found, queue); }
  }

  /** The popped path is done with when its tip is closed. */
  lemma TurnOver(free: set<Point>, starts: set<Point>, roads: set<Point>, limit: nat, dist: map<Point, nat>,
                 found: map<Point, seq<Point>>, path: seq<Point>, queue: seq<seq<Point>>)
    requires Popped(free, starts, roads, limit, dist, found, path, queue)
    requires |path| <= limit ==>
      !NextToRoad(roads, Tip(path)) && forall w :: w in free && Adjacent(Tip(path), w) ==> w in dist
    ensures SearchState(free, starts, roads, limit, dist, found, queue)
  {
    RankEnded(free, starts, dist, found, path, queue);
    EndTurn(free, starts, roads, limit, dist, path, queue);
  }

  lemma StartSearchState(free: set<Point>, starts: set<Point>, roads: set<Point>, limit: nat, order: seq<Point>)
    requires starts <= free && order == SortedPoints(starts)
    ensures SearchState(free, starts, roads, limit, map p | p in starts :: 1, map p | p in starts :: [p],
                      seq(|order|, k requires 0 <= k < |order| => [order[k]]))
  {
    StartQueue(free, starts, roads, limit, order);
    SortedPointsAscend(starts);
    StartRanked(free, starts, order);
  }

  /** One turn: pop a path, return it at a goal, otherwise queue what is new around its tip. */
  method SearchOn(free: set<Point>, ghost starts: set<Point>, roads: set<Point>, limit: nat, visited: set<Point>,
                  ghost dist: map<Point, nat>, ghost found: map<Point, seq<Point>>, queue: seq<seq<Point>>)
    returns (goal: Option<seq<Point>>, visited': set<Point>, ghost dist': map<Point, nat>,
             ghost found': map<Point, seq<Point>>, queue': seq<seq<Point>>)
    requires SearchState(free, starts, roads, limit, dist, found, queue) && queue != [] && visited == dist.Keys
    ensures goal.Some? ==> FirstArrival(free, starts, roads, goal.value) && |goal.value| <= limit
    ensures goal.None? ==> SearchState(free, starts, roads, limit, dist', found', queue') && visited' == dist'.Keys
    ensures goal.None? ==> visited < visited' || (visited == visited' && |queue'| < |queue|)
  {
    var path := queue[0];
    FrontFacts(free, starts, roads, limit, dist, found, queue);
    visited', dist', found', queue' := visited, dist, found, queue[1..];
    if |path| <= limit {
      if NextToRoad(roads, Tip(path)) { return Some(path), visited', dist', found', queue'; }
      visited', dist', found', queue' := Expand(free, starts, roads, limit, visited, dist, found, path, queue[1..]);
    }
    TurnOver(free, starts, roads, limit, dist', found', path, queue');
    SomethingDone(visited, visited', queue, queue');
    goal := None;
  }

  lemma SomethingDone(before: set<Point>, after: set<Point>, queue: seq<seq<Point>>, queue': seq<seq<Point>>)
    requires queue != [] && before <= after && (after == before ==> queue' == queue[1..])
    ensures before < after || (before == after && |queue'| < |queue|)
  {
  }

  /** The search itself, over an explicit set of free cells. */
  method Search(free: set<Point>, starts: set<Point>, roads: set<Point>, limit: nat) returns (r: Option<seq<Point>>)
    requires starts <= free
    ensures r.Some? ==> FirstArrival(free, starts, roads, r.value) && |r.value| <= limit
    ensures r.None? ==> forall p :: Arrives(free, starts, roads, p) ==> |p| > limit
  {
    var order := SortedPoints(starts);
    var queue := seq(|order|, k requires 0 <= k < |order| => [order[k]]);
    var visited := starts;
    ghost var dist: map<Point, nat> := map p | p in starts :: 1;
    ghost var found := map p | p in starts :: [p];
    StartSearchState(free, starts, roads, limit, order);
    while queue != []
      invariant SearchState(free, starts, roads, limit, dist, found, queue) && visited == dist.Keys
      decreases free - visited, |queue|
    {
      ghost var before := visited;
      var goal;
      goal, visited, dist, found, queue := SearchOn(free, starts, roads, limit, visited, dist, found, queue);
      if goal.Some? { return goal; }
      MoreVisited(free, before, visited);
    }
    FrontIsShortest(free, starts, roads, limit, dist, queue, limit + 1);
    return None;
  }

  lemma MoreVisited(free: set<Point>, before: set<Point>, after: set<Point>)
    requires before <= after <= free
    ensures before < after ==> free - after < free - before
  {
    if before < after {
      var v :| v in after && v !in before;
      assert v in free - before;
    }
  }

  /** A connector that no other comes before: the shortest, ties broken cell by cell. */
  ghost predicate FirstConnector(city: City, b: Building, path: seq<Point>) {
    Connects(city, b, path) && forall q :: Connects(city, b, q) ==> q == path || Earlier(path, q)
  }

  /** There is at most one. */
  lemma FirstConnectorIsUnique(city: City, b: Building, p: seq<Point>, q: seq<Point>)
    requires FirstConnector(city, b, p) && FirstConnector(city, b, q)
    ensures p == q
  {
    EarlierIsStrict(p, q);
  }

  /** No driveway comes before this one. */
  ghost predicate FirstDriveway(city: City, b: Building, path: seq<Point>) {
    Driveway(city, b, path) && forall q :: Driveway(city, b, q) ==>
      q == path || |path| < |q| || (|path| == |q| && Precedes(path, q))
  }

  lemma FirstConnectorExactly(city: City, b: Building, path: seq<Point>)
    ensures FirstConnector(city, b, path) <==> FirstDriveway(city, b, path)
  {
    forall q ensures Connects(city, b, q) <==> Driveway(city, b, q) { ConnectsExactly(city, b, q); }
    forall q | |q| == |path| ensures Before(path, q) <==> Precedes(path, q) { BeforeExactly(path, q); }
  }

  /**
   The shortest connector: sound, no longer than any other and the first of its length, and
   found whenever one of at most `limit` cells exists.
   */
  method ShortestConnector(city: City, b: Building, limit: nat) returns (r: Option<seq<Point>>)
    ensures r.Some? ==> FirstConnector(city, b, r.value) && |r.value| <= limit
    ensures r.None? <==> forall p :: Connects(city, b, p) ==> |p| > limit
    ensures r.None? <==> forall p :: Driveway(city, b, p) ==> |p| > limit
    ensures r.Some? ==> FirstDriveway(city, b, r.value) && forall p :: Driveway(city, b, p) ==> |r.value| <= |p|
  {
    r := None;
    var starts := Starts(city, b);
    if city.roads != {} && starts != {} {
      r := Search(FreeCells(city, b), starts, city.roads, limit);
      assert forall p :: Connects(city, b, p) <==> Arrives(FreeCells(city, b), starts, city.roads, p);
    }
    ConnectorIsDriveway(city, b, limit, r);
  }

  /** The answer told in coordinates. */
  lemma ConnectorIsDriveway(city: City, b: Building, limit: nat, r: Option<seq<Point>>)
    requires r.Some? ==> FirstConnector(city, b, r.value)
    requires r.None? <==> forall p :: Connects(city, b, p) ==> |p| > limit
    ensures r.None? <==> forall p :: Driveway(city, b, p) ==> |p| > limit
    ensures r.Some? ==> FirstDriveway(city, b, r.value) && forall p :: Driveway(city, b, p) ==> |r.value| <= |p|
  {
    forall p ensures Connects(city, b, p) <==> Driveway(city, b, p) { ConnectsExactly(city, b, p); }
    if r.Some? { FirstConnectorExactly(city, b, r.value); }
  }
}
