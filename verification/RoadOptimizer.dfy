/** Repairing road access and removing redundant roads. */
module RoadOptimizer {
  import opened Wrappers
  import opened CityMap
  import opened Coordinates
  import opened Construction
  import opened Planner
  import opened Roads
  import opened Connector
  import opened Improvement

  // ---- Repairing access --------------------------------------------------------------

  ghost predicate HasConnector(city: City, b: Building, limit: nat) {
    exists p :: Connects(city, b, p) && |p| <= limit
  }

  lemma TouchesMore(b: Building, roads: set<Point>, more: set<Point>)
    requires b.Touches(roads) && roads <= more
    ensures b.Touches(more)
  {
  }

  function CellsOf(p: seq<Point>): set<Point> {
    set c | c in p
  }

  /** A connector only uses cells that are on the map and off everything else. */
  lemma ConnectorIsFree(city: City, i: nat, path: seq<Point>)
    requires city.Valid() && i < |city.buildings| && Connects(city, city.buildings[i], path)
    ensures forall p :: p in path ==> city.InBounds(p) && p !in city.roads && p !in city.blocked
    ensures forall p, j :: p in path && 0 <= j < |city.buildings| ==> p !in city.buildings[j].Footprint()
  {
    var b := city.buildings[i];
    forall p | p in path ensures p in FreeCells(city, b) {
      var k :| 0 <= k < |path| && path[k] == p;
    }
    forall p, j | p in path && 0 <= j < |city.buildings| ensures p !in city.buildings[j].Footprint() {
      assert p in FreeCells(city, b);
      if j != i {
        OnlyOne(city.buildings, i, j);
        assert !city.OccupiedByOther(Some(b.spec.id), p);
      }
    }
  }

  lemma OnlyOne(bs: seq<Building>, i: nat, j: nat)
    requires UniqueIds(bs) && i < |bs| && j < |bs| && i != j
    ensures bs[i].spec.id != bs[j].spec.id
  {
  }

  /** Building a connector keeps the map legal and serves the building. */
  lemma ConnectorServes(city: City, i: nat, path: seq<Point>)
    requires city.Valid() && i < |city.buildings| && Connects(city, city.buildings[i], path)
    ensures city.(roads := city.roads + CellsOf(path)).Valid()
    ensures city.buildings[i].Touches(city.roads + CellsOf(path))
  {
    ConnectorIsFree(city, i, path);
    RoadsChangeKeepsValid(city, city.roads + CellsOf(path));
    assert path[0] in city.roads + CellsOf(path);
  }

  /** The first `n` cells of a connector, when none of them became a road but the next did. */
  lemma ConnectorCut(city: City, roads: set<Point>, b: Building, path: seq<Point>, n: nat)
    requires city.roads <= roads && Connects(city, b, path) && 0 < n <= |path|
    requires forall k :: 0 <= k < n ==> path[k] !in roads
    requires n < |path| ==> path[n] in roads
    ensures Connects(city.(roads := roads), b, path[..n])
  {
    var now, cut := city.(roads := roads), path[..n];
    forall k | 0 <= k < n ensures cut[k] in FreeCells(now, b) {
      assert path[k] in FreeCells(city, b);
    }
    forall k | 0 <= k < |cut| - 1 ensures Hop(cut, k) { assert Hop(path, k); }
    if n < |path| { assert Hop(path, n - 1); }
    assert NextToRoad(roads, cut[n - 1]);
  }

  lemma {:induction false} FirstRoadOnPath(path: seq<Point>, roads: set<Point>, n: nat) returns (first: nat)
    requires n <= |path|
    ensures first <= n && (first < n ==> path[first] in roads)
    ensures forall k :: 0 <= k < first ==> path[k] !in roads
  {
    if n == 0 {
      first := 0;
    } else {
      first := FirstRoadOnPath(path, roads, n - 1);
      if first == n - 1 && path[first] !in roads { first := n; }
    }
  }

  /** New roads shorten connectors, they never cut a building off from one. */
  lemma ConnectorSurvives(city: City, roads: set<Point>, b: Building, limit: nat)
    requires city.roads <= roads && HasConnector(city, b, limit) && !b.Touches(roads)
    ensures HasConnector(city.(roads := roads), b, limit)
  {
    var path :| Connects(city, b, path) && |path| <= limit;
    var n := FirstRoadOnPath(path, roads, |path|);
    assert path[0] in Starts(city, b);
    ConnectorCut(city, roads, b, path, n);
  }

  /** A path hanging off a connected network leaves it connected. */
  lemma ConnectedWithPath(roads: set<Point>, cells: set<Point>, path: seq<Point>)
    requires Connected(roads) && Path(cells, path) && NextToRoad(roads, path[|path| - 1])
    ensures Connected(roads + CellsOf(path))
  {
    var all, last := roads + CellsOf(path), path[|path| - 1];
    var hub :| hub in roads && Adjacent(last, hub);
    assert Path(all, path);
    forall r | r in all ensures Joined(all, hub, r) {
      if r in roads {
        JoinedWiden(roads, all, hub, r);
      } else {
        var k :| 0 <= k < |path| && path[k] == r;
        HubToPath(all, path, hub, k);
      }
    }
    HubConnects(all, hub);
  }

  lemma HubToPath(all: set<Point>, path: seq<Point>, hub: Point, k: nat)
    requires Path(all, path) && hub in all && Adjacent(path[|path| - 1], hub) && k < |path|
    ensures Joined(all, hub, path[k])
  {
    JoinedSelf(all, hub);
    JoinedStep(all, hub, hub, path[|path| - 1]);
    JoinedBack(all, path, |path| - 1);
    JoinedTransitive(all, hub, path[|path| - 1], path[0]);
    JoinedAlong(all, hub, path, k);
  }

  /** Only roads were added, on free cells. */
  ghost predicate Extends(city: City, now: City) {
    && now == city.(roads := now.roads) && city.roads <= now.roads && now.Valid()
    && (forall p :: p in now.roads - city.roads ==> p !in city.blocked)
    && (Connected(city.roads) ==> Connected(now.roads))
  }

  /** Served before, or reachable by a connector of the original map: served now. */
  ghost predicate Served(city: City, now: City, limit: nat, i: int)
    requires 0 <= i < |city.buildings|
  {
    city.RoadAccess(city.buildings[i]) || HasConnector(city, city.buildings[i], limit) ==>
      now.RoadAccess(city.buildings[i])
  }

  lemma ExtendsOn(city: City, now: City, i: nat, path: seq<Point>)
    requires Extends(city, now) && i < |city.buildings| && Connects(now, now.buildings[i], path)
    ensures Extends(city, now.(roads := now.roads + CellsOf(path)))
  {
    ConnectorServes(now, i, path);
    ConnectorIsFree(now, i, path);
    if Connected(city.roads) { ConnectedWithPath(now.roads, FreeCells(now, now.buildings[i]), path); }
  }

  ghost predicate ServedUpTo(city: City, now: City, limit: nat, n: nat)
    requires n <= |city.buildings|
  {
    forall i {:trigger Served(city, now, limit, i)} :: 0 <= i < n ==> Served(city, now, limit, i)
  }

  /** What one repair does: nothing, or the first connector for a building that needs one. */
  ghost predicate Repaired(now: City, b: Building, limit: nat, r: City) {
    if now.RoadAccess(b) || !HasConnector(now, b, limit) then r == now
    else exists path :: FirstConnector(now, b, path) && r == now.(roads := now.roads + CellsOf(path))
  }

  /** Building `b` has a road one step away. */
  ghost predicate ByRoad(b: Building, roads: set<Point>) {
    exists p :: p in roads && NextTo(b, p)
  }

  ghost predicate HasDriveway(city: City, b: Building, limit: nat) {
    exists path :: Driveway(city, b, path) && |path| <= limit
  }

  /** One repair told in coordinates: the first driveway for a building that is not by a road and has one. */
  ghost predicate GivenDriveway(now: City, b: Building, limit: nat, r: City) {
    if ByRoad(b, now.roads) || !HasDriveway(now, b, limit) then r == now
    else exists path :: FirstDriveway(now, b, path) && Gains(now, path, r)
  }

  /** The cells of the path became roads, and nothing else changed. */
  ghost predicate Gains(now: City, path: seq<Point>, r: City) {
    && r.width == now.width && r.height == now.height && r.blocked == now.blocked && r.buildings == now.buildings
    && forall p :: p in r.roads <==> p in now.roads || p in path
  }

  lemma CellsAdded(now: City, path: seq<Point>)
    ensures Gains(now, path, now.(roads := now.roads + CellsOf(path)))
  {
  }

  lemma HasConnectorExactly(city: City, b: Building, limit: nat)
    ensures HasConnector(city, b, limit) <==> HasDriveway(city, b, limit)
  {
    if HasConnector(city, b, limit) {
      var path :| Connects(city, b, path) && |path| <= limit;
      ConnectsExactly(city, b, path);
    }
    if HasDriveway(city, b, limit) {
      var path :| Driveway(city, b, path) && |path| <= limit;
      ConnectsExactly(city, b, path);
    }
  }

  lemma RepairedIsGiven(now: City, b: Building, limit: nat, r: City)
    requires Repaired(now, b, limit, r)
    ensures GivenDriveway(now, b, limit, r)
  {
    TouchesIsNextTo(b, now.roads);
    HasConnectorExactly(now, b, limit);
    if !ByRoad(b, now.roads) && HasDriveway(now, b, limit) {
      var path :| FirstConnector(now, b, path) && r == now.(roads := now.roads + CellsOf(path));
      FirstConnectorExactly(now, b, path);
      CellsAdded(now, path);
    }
  }

  lemma ServedExactly(city: City, now: City, limit: nat, i: nat)
    requires i < |city.buildings|
    ensures Served(city, now, limit, i) <==>
      (ByRoad(city.buildings[i], city.roads) || HasDriveway(city, city.buildings[i], limit) ==>
         ByRoad(city.buildings[i], now.roads))
  {
    TouchesIsNextTo(city.buildings[i], city.roads);
    TouchesIsNextTo(city.buildings[i], now.roads);
    HasConnectorExactly(city, city.buildings[i], limit);
  }

  /** That leaves one map only. */
  lemma RepairedIsUnique(now: City, b: Building, limit: nat, r: City, r': City)
    requires Repaired(now, b, limit, r) && Repaired(now, b, limit, r')
    ensures r == r'
  {
    if !now.RoadAccess(b) && HasConnector(now, b, limit) {
      var p :| FirstConnector(now, b, p) && r == now.(roads := now.roads + CellsOf(p));
      var q :| FirstConnector(now, b, q) && r' == now.(roads := now.roads + CellsOf(q));
      FirstConnectorIsUnique(now, b, p, q);
    }
  }

  /** Building `n`'s turn: connect it if it needs a road and one can be laid. */
  method RepairOne(city: City, now: City, limit: nat, n: nat) returns (r: City)
    requires Extends(city, now) && n < |city.buildings|
    ensures Extends(city, r) && now.roads <= r.roads && Served(city, r, limit, n)
    ensures Repaired(now, city.buildings[n], limit, r)
    ensures GivenDriveway(now, city.buildings[n], limit, r)
  {
    r := now;
    var b := city.buildings[n];
    if !now.RoadAccess(b) {
      var path := ShortestConnector(now, b, limit);
      if path.Some? {
        ExtendsOn(city, now, n, path.value);
        ConnectorServes(now, n, path.value);
        r := now.(roads := now.roads + CellsOf(path.value));
        assert FirstConnector(now, b, path.value);
      } else {
        NotStarved(city, now, limit, n);
      }
    }
    RepairedIsGiven(now, b, limit, r);
  }

  /**
   Greedy repair starves nobody: whoever had access, or had a short enough connector on
   the original map, has access afterwards, whatever was built for others before it.
   `stages` are the maps in between, one repair apart.
   */
  method RepairMissingAccess(city: City, limit: nat) returns (r: City, ghost stages: seq<City>)
    requires city.Valid()
    ensures Extends(city, r)
    ensures ServedUpTo(city, r, limit, |city.buildings|)
    ensures Repairs(city, limit, stages, |city.buildings|) && stages[|city.buildings|] == r
    ensures forall i {:trigger city.buildings[i]} :: 0 <= i < |city.buildings| ==>
      ByRoad(city.buildings[i], city.roads) || HasDriveway(city, city.buildings[i], limit) ==>
        ByRoad(city.buildings[i], r.roads)
    ensures |stages| == |city.buildings| + 1 && stages[0] == city
    ensures forall k {:trigger stages[k]} :: 0 <= k < |city.buildings| ==>
      GivenDriveway(stages[k], city.buildings[k], limit, stages[k + 1])
  {
    r, stages := city, [city];
    ExtendsSelf(city);
    for n := 0 to |city.buildings|
      invariant Extends(city, r)
      invariant ServedUpTo(city, r, limit, n)
      invariant Repairs(city, limit, stages, n) && stages[n] == r
    {
      ghost var before := r;
      r := RepairOne(city, r, limit, n);
      ServedOneMore(city, before, r, limit, n);
      RepairsOn(city, limit, stages, n, r);
      stages := stages + [r];
    }
    forall i | 0 <= i < |city.buildings|
      ensures ByRoad(city.buildings[i], city.roads) || HasDriveway(city, city.buildings[i], limit) ==>
                ByRoad(city.buildings[i], r.roads)
    {
      assert Served(city, r, limit, i);
      ServedExactly(city, r, limit, i);
    }
    StagesTold(city, limit, stages);
  }

  lemma StagesTold(city: City, limit: nat, stages: seq<City>)
    requires Repairs(city, limit, stages, |city.buildings|)
    ensures forall k {:trigger stages[k]} :: 0 <= k < |city.buildings| ==>
      GivenDriveway(stages[k], city.buildings[k], limit, stages[k + 1])
  {
    forall k | 0 <= k < |city.buildings| ensures GivenDriveway(stages[k], city.buildings[k], limit, stages[k + 1]) {
      assert RepairStage(city, limit, stages, k);
      RepairedIsGiven(stages[k], city.buildings[k], limit, stages[k + 1]);
    }
  }

  ghost predicate RepairStage(city: City, limit: nat, stages: seq<City>, k: int)
    requires 0 <= k < |city.buildings| && k + 1 < |stages|
  {
    Repaired(stages[k], city.buildings[k], limit, stages[k + 1])
  }

  /** The first `n` buildings were repaired one after the other. */
  ghost predicate Repairs(city: City, limit: nat, stages: seq<City>, n: nat)
    requires n <= |city.buildings|
  {
    && |stages| == n + 1 && stages[0] == city
    && forall k {:trigger RepairStage(city, limit, stages, k)} :: 0 <= k < n ==> RepairStage(city, limit, stages, k)
  }

  /** The repair of a map is determined, stage by stage. */
  lemma {:induction false} RepairsAreUnique(city: City, limit: nat, a: seq<City>, b: seq<City>, n: nat)
    requires n <= |city.buildings| && Repairs(city, limit, a, n) && Repairs(city, limit, b, n)
    ensures a == b
  {
    if n > 0 {
      RepairsBefore(city, limit, a, n);
      RepairsBefore(city, limit, b, n);
      RepairsAreUnique(city, limit, a[..n], b[..n], n - 1);
      assert RepairStage(city, limit, a, n - 1) && RepairStage(city, limit, b, n - 1);
      assert a[n - 1] == a[..n][n - 1] == b[..n][n - 1] == b[n - 1];
      RepairedIsUnique(a[n - 1], city.buildings[n - 1], limit, a[n], b[n]);
      assert a == a[..n] + [a[n]] && b == b[..n] + [b[n]];
    }
  }

  lemma RepairsBefore(city: City, limit: nat, stages: seq<City>, n: nat)
    requires 0 < n <= |city.buildings| && Repairs(city, limit, stages, n)
    ensures Repairs(city, limit, stages[..n], n - 1)
  {
    forall k | 0 <= k < n - 1 ensures RepairStage(city, limit, stages[..n], k) {
      assert RepairStage(city, limit, stages, k);
    }
  }

  lemma RepairsOn(city: City, limit: nat, stages: seq<City>, n: nat, r: City)
    requires n < |city.buildings| && Repairs(city, limit, stages, n) && Repaired(stages[n], city.buildings[n], limit, r)
    ensures Repairs(city, limit, stages + [r], n + 1)
  {
    forall k | 0 <= k < n + 1 ensures RepairStage(city, limit, stages + [r], k) {
      if k < n { assert RepairStage(city, limit, stages, k); }
    }
  }

  lemma ServedOneMore(city: City, now: City, later: City, limit: nat, n: nat)
    requires n < |city.buildings| && now.roads <= later.roads
    requires ServedUpTo(city, now, limit, n) && Served(city, later, limit, n)
    ensures ServedUpTo(city, later, limit, n + 1)
  {
    forall i | 0 <= i < n + 1 ensures Served(city, later, limit, i) {
      if i < n { assert Served(city, now, limit, i); }
    }
  }

  lemma ExtendsSelf(city: City)
    requires city.Valid()
    ensures Extends(city, city)
  {
  }

  lemma NotStarved(city: City, now: City, limit: nat, n: nat)
    requires Extends(city, now) && n < |city.buildings| && !now.RoadAccess(city.buildings[n])
    requires forall p :: Connects(now, city.buildings[n], p) ==> |p| > limit
    ensures Served(city, now, limit, n)
  {
    if HasConnector(city, city.buildings[n], limit) { ConnectorSurvives(city, now.roads, city.buildings[n], limit); }
  }

  // ---- Removing roads ----------------------------------------------------------------

  ghost predicate AllServed(city: City) {
    forall i {:trigger city.RoadAccess(city.buildings[i])} ::
      0 <= i < |city.buildings| ==> city.RoadAccess(city.buildings[i])
  }

  /** Accepted exactly when the remaining roads exist, stay connected and serve everybody. */
  method TryRemove(city: City, point: Point) returns (r: Option<City>)
    ensures var trial := city.(roads := city.roads - {point});
      r == if trial.roads != {} && Connected(trial.roads) && AllServed(trial) then Some(trial) else None
  {
    var trial := city.(roads := city.roads - {point});
    if trial.roads == {} { return None; }
    var connected := RoadsConnected(trial.roads);
    if !connected { return None; }
    for n := 0 to |trial.buildings|
      invariant forall i {:trigger trial.RoadAccess(trial.buildings[i])} ::
        0 <= i < n ==> trial.RoadAccess(trial.buildings[i])
    {
      if !trial.RoadAccess(trial.buildings[n]) { return None; }
    }
    return Some(trial);
  }

  /** The edits that turn one road set into the other: additions, then removals, in order. */
  function DiffRoads(before: set<Point>, after: set<Point>): seq<RoadEdit> {
    var built, removed := SortedPoints(after - before), SortedPoints(before - after);
    seq(|built|, k requires 0 <= k < |built| => RoadEdit(Build, built[k]))
    + seq(|removed|, k requires 0 <= k < |removed| => RoadEdit(Remove, removed[k]))
  }

  lemma DiffAt(before: set<Point>, after: set<Point>, e: RoadEdit)
    ensures e in DiffRoads(before, after) <==> e.point in if e.kind == Build then after - before else before - after
  {
    if e in DiffRoads(before, after) { ListedDiffers(before, after, e); } else { DifferentListed(before, after, e); }
  }

  lemma ListedDiffers(before: set<Point>, after: set<Point>, e: RoadEdit)
    requires e in DiffRoads(before, after)
    ensures e.point in if e.kind == Build then after - before else before - after
  {
    var edits := DiffRoads(before, after);
    var built, removed := SortedPoints(after - before), SortedPoints(before - after);
    var k :| 0 <= k < |edits| && edits[k] == e;
    if k < |built| { assert built[k] in built; } else { assert removed[k - |built|] in removed; }
  }

  lemma DifferentListed(before: set<Point>, after: set<Point>, e: RoadEdit)
    ensures e.point in (if e.kind == Build then after - before else before - after) ==> e in DiffRoads(before, after)
  {
    var edits := DiffRoads(before, after);
    var built, removed := SortedPoints(after - before), SortedPoints(before - after);
    if e.kind == Build && e.point in built {
      var k :| 0 <= k < |built| && built[k] == e.point;
      assert edits[k] == e;
    }
    if e.kind == Remove && e.point in removed {
      var k :| 0 <= k < |removed| && removed[k] == e.point;
      assert edits[|built| + k] == e;
    }
  }

  lemma DiffIsExact(before: set<Point>, after: set<Point>)
    ensures Edited(DiffRoads(before, after), Build) == after - before
    ensures Edited(DiffRoads(before, after), Remove) == before - after
  {
    forall e
      ensures e in DiffRoads(before, after) <==> e.point in if e.kind == Build then after - before else before - after
    {
      DiffAt(before, after, e);
    }
    assert forall p :: p in after - before ==> RoadEdit(Build, p) in DiffRoads(before, after);
    assert forall p :: p in before - after ==> RoadEdit(Remove, p) in DiffRoads(before, after);
  }

  /** Additions come before removals, and each of them by column and then by row. */
  lemma DiffIsOrdered(before: set<Point>, after: set<Point>, i: nat, j: nat)
    requires i < j < |DiffRoads(before, after)|
    ensures var a, b := DiffRoads(before, after)[i], DiffRoads(before, after)[j];
      && (a.kind == Build || b.kind == Remove)
      && (a.kind == b.kind ==> a.point.x < b.point.x || (a.point.x == b.point.x && a.point.y < b.point.y))
  {
    var built, removed := SortedPoints(after - before), SortedPoints(before - after);
    SortedPointsAscend(after - before);
    SortedPointsAscend(before - after);
    var n := |built|;
    if j < n {
      assert PointLess(built[i], built[j]);
    } else if i >= n {
      assert PointLess(removed[i - n], removed[j - n]);
    }
  }

  datatype RoadConfig = RoadConfig(maxRemovePasses: nat, maxConnectorLength: nat, minImprovement: real)

  datatype RoadPlan = RoadPlan(before: real, after: real, edits: seq<RoadEdit>, result: City)

  /** Untouched since the repair, or pared down to a connected network serving everybody. */
  ghost predicate Pared(repaired: City, now: City) {
    && now == repaired.(roads := now.roads) && now.roads <= repaired.roads
    && (now == repaired || (now.roads != {} && Connected(now.roads) && AllServed(now)))
  }

  /** Without the road cell `p`, if that would be accepted, the score gains no more than the slack. */
  ghost predicate KeepsBest(city: City, p: Point, score: City -> real, best: real, slack: real) {
    var trial := city.(roads := city.roads - {p});
    trial.roads != {} && Connected(trial.roads) && AllServed(trial) ==> score(trial) <= best + slack
  }

  /** No single removal is worth making. */
  ghost predicate Irreducible(city: City, score: City -> real, best: real, slack: real) {
    forall p {:trigger KeepsBest(city, p, score, best, slack)} ::
      p in city.roads ==> KeepsBest(city, p, score, best, slack)
  }

  /** Of the listed cells the first `k` are not worth removing. */
  ghost predicate NoneWorth(city: City, points: seq<Point>, k: int, score: City -> real, best: real, slack: real)
    requires 0 <= k <= |points|
  {
    forall j {:trigger points[j]} :: 0 <= j < k ==> KeepsBest(city, points[j], score, best, slack)
  }

  lemma NoneIsIrreducible(city: City, points: seq<Point>, score: City -> real, best: real, slack: real)
    requires points == SortedPoints(city.roads) && NoneWorth(city, points, |points|, score, best, slack)
    ensures Irreducible(city, score, best, slack)
  {
    forall p | p in city.roads ensures KeepsBest(city, p, score, best, slack) { assert p in points; }
  }

  // ---- Which removals are made -------------------------------------------------------

  /** `next` is `now` without the road cell, if that is accepted and gains more than the slack, and else `now`. */
  ghost predicate Thinned(now: City, p: Point, next: City, score: City -> real, slack: real) {
    var trial := now.(roads := now.roads - {p});
    next == if trial.roads != {} && Connected(trial.roads) && AllServed(trial) && score(trial) > score(now) + slack
            then trial else now
  }

  ghost predicate ThinStep(stages: seq<City>, points: seq<Point>, k: int, score: City -> real, slack: real)
    requires 0 <= k < |points| && k + 1 < |stages|
  {
    Thinned(stages[k], points[k], stages[k + 1], score, slack)
  }

  /** One cell after the other, each judged on what the ones before it left. */
  ghost predicate ThinnedAlong(start: City, points: seq<Point>, stages: seq<City>, score: City -> real, slack: real) {
    && |stages| == |points| + 1 && stages[0] == start
    && forall k {:trigger ThinStep(stages, points, k, score, slack)} ::
      0 <= k < |points| ==> ThinStep(stages, points, k, score, slack)
  }

  ghost predicate ThinnedTo(start: City, points: seq<Point>, stages: seq<City>, end: City, score: City -> real,
                            slack: real)
  {
    ThinnedAlong(start, points, stages, score, slack) && end == stages[|stages| - 1]
  }

  /** One pass over the road cells, by column and row, leads from `start` to `end`. */
  ghost predicate PassLeads(start: City, end: City, score: City -> real, slack: real) {
    exists stages :: ThinnedTo(start, SortedPoints(start.roads), stages, end, score, slack)
  }

  lemma ThinnedOn(start: City, points: seq<Point>, stages: seq<City>, k: nat, next: City, score: City -> real,
                  slack: real)
    requires k < |points| && ThinnedAlong(start, points[..k], stages, score, slack)
    requires Thinned(stages[k], points[k], next, score, slack)
    ensures ThinnedAlong(start, points[..k + 1], stages + [next], score, slack)
  {
    var now, upTo := stages + [next], points[..k + 1];
    forall j | 0 <= j < k + 1 ensures ThinStep(now, upTo, j, score, slack) {
      if j < k { assert ThinStep(stages, points[..k], j, score, slack); }
    }
  }

  lemma {:induction false} ThinnedOnce(start: City, points: seq<Point>, a: seq<City>, b: seq<City>,
                                       score: City -> real, slack: real, k: nat)
    requires ThinnedAlong(start, points, a, score, slack) && ThinnedAlong(start, points, b, score, slack)
    requires k < |a|
    ensures a[k] == b[k]
  {
    if k > 0 {
      ThinnedOnce(start, points, a, b, score, slack, k - 1);
      assert ThinStep(a, points, k - 1, score, slack) && ThinStep(b, points, k - 1, score, slack);
    }
  }

  /** A pass leads to one map only. */
  lemma PassIsUnique(start: City, a: City, b: City, score: City -> real, slack: real)
    requires PassLeads(start, a, score, slack) && PassLeads(start, b, score, slack)
    ensures a == b
  {
    var points := SortedPoints(start.roads);
    var s :| ThinnedTo(start, points, s, a, score, slack);
    var t :| ThinnedTo(start, points, t, b, score, slack);
    ThinnedOnce(start, points, s, t, score, slack, |points|);
  }

  ghost function PassRelation(score: City -> real, slack: real): (City, City) -> bool {
    (start: City, end: City) => PassLeads(start, end, score, slack)
  }

  lemma PassesGoOneWay(score: City -> real, slack: real)
    ensures OneWay(PassRelation(score, slack))
  {
    forall a, b, c | PassLeads(a, b, score, slack) && PassLeads(a, c, score, slack) ensures b == c {
      PassIsUnique(a, b, c, score, slack);
    }
  }

  /** Takes one road cell away if that is accepted and gains more than the slack. */
  method RemoveIfBetter(ghost repaired: City, now: City, nowScore: real, p: Point, score: City -> real, slack: real)
    returns (next: City, nextScore: real, better: bool)
    requires Pared(repaired, now) && nowScore == score(now)
    ensures Pared(repaired, next) && nextScore == score(next) && Thinned(now, p, next, score, slack)
    ensures if better then nextScore > nowScore + slack
            else next == now && nextScore == nowScore && KeepsBest(now, p, score, nowScore, slack)
  {
    next, nextScore, better := now, nowScore, false;
    var trial := TryRemove(now, p);
    if trial.Some? && score(trial.value) > nowScore + slack {
      next, nextScore, better := trial.value, score(trial.value), true;
    }
  }

  /** The pass has come to the `k`-th cell: something gained more than the slack, or nothing was worth removing. */
  ghost predicate Passing(start: City, startScore: real, now: City, nowScore: real, changed: bool,
                          points: seq<Point>, k: int, score: City -> real, slack: real)
    requires 0 <= k <= |points|
  {
    if changed then nowScore > startScore + slack
    else now == start && nowScore == startScore && NoneWorth(start, points, k, score, startScore, slack)
  }

  lemma PassingOn(start: City, startScore: real, now: City, nowScore: real, changed: bool, next: City, nextScore: real,
                  better: bool, points: seq<Point>, k: nat, score: City -> real, slack: real)
    requires k < |points| && slack >= 0.0
    requires Passing(start, startScore, now, nowScore, changed, points, k, score, slack)
    requires if better then nextScore > nowScore + slack
             else next == now && nextScore == nowScore && KeepsBest(now, points[k], score, nowScore, slack)
    ensures Passing(start, startScore, next, nextScore, changed || better, points, k + 1, score, slack)
  {
  }

  method RemovePass(ghost repaired: City, start: City, startScore: real, score: City -> real, minImprovement: real)
    returns (now: City, nowScore: real, changed: bool)
    requires Pared(repaired, start) && startScore == score(start) && minImprovement >= 0.0
    ensures Pared(repaired, now) && nowScore == score(now) && PassLeads(start, now, score, minImprovement)
    ensures if changed then nowScore > startScore + minImprovement
            else now == start && Irreducible(start, score, startScore, minImprovement)
  {
    now, nowScore, changed := start, startScore, false;
    var points := SortedPoints(start.roads);
    ghost var stages := [start];
    for k := 0 to |points|
      invariant Pared(repaired, now) && nowScore == score(now)
      invariant ThinnedAlong(start, points[..k], stages, score, minImprovement) && now == stages[k]
      invariant Passing(start, startScore, now, nowScore, changed, points, k, score, minImprovement)
    {
      ghost var before, beforeScore := now, nowScore;
      var better;
      now, nowScore, better := RemoveIfBetter(repaired, now, nowScore, points[k], score, minImprovement);
      PassingOn(start, startScore, before, beforeScore, changed, now, nowScore, better, points, k, score,
        minImprovement);
      ThinnedOn(start, points, stages, k, now, score, minImprovement);
      changed, stages := changed || better, stages + [now];
    }
    assert points[..|points|] == points;
    assert ThinnedTo(start, points, stages, now, score, minImprovement);
    if !changed { NoneIsIrreducible(start, points, score, startScore, minImprovement); }
  }

  method RemovePasses(repaired: City, score: City -> real, maxPasses: nat, minImprovement: real)
    returns (current: City, currentScore: real, ghost settled: bool, ghost maps: seq<City>)
    requires minImprovement >= 0.0
    ensures Pared(repaired, current) && currentScore == score(current) && currentScore >= score(repaired)
    ensures Repeated(maps, maxPasses, PassRelation(score, minImprovement)) && maps[0] == repaired
      && maps[|maps| - 1] == current
    ensures if settled then Irreducible(current, score, currentScore, minImprovement)
            else Gained(score(repaired), currentScore, maxPasses, minImprovement)
  {
    current, currentScore, settled, maps := repaired, score(repaired), false, [repaired];
    var pass := 0;
    while pass < maxPasses
      invariant pass <= maxPasses && !settled
      invariant Pared(repaired, current) && currentScore == score(current) && currentScore >= score(repaired)
      invariant |maps| == pass + 1 && maps[0] == repaired && maps[pass] == current
      invariant StepByStep(maps, PassRelation(score, minImprovement))
      invariant Gained(score(repaired), currentScore, pass, minImprovement)
      decreases maxPasses - pass
    {
      var next, nextScore, changed := RemovePass(repaired, current, currentScore, score, minImprovement);
      if !changed {
        settled := true;
        assert next == current && PassLeads(current, current, score, minImprovement);
        break;
      }
      GainedOnce(score(repaired), currentScore, nextScore, pass, minImprovement);
      assert score(next) != score(current);
      OneStepOn(maps, next, PassRelation(score, minImprovement));
      maps := maps + [next];
      current, currentScore, pass := next, nextScore, pass + 1;
    }
  }

  /** Repair, then the passes, lead from `city` to `end`. */
  ghost predicate RoadsLead(city: City, end: City, score: City -> real, config: RoadConfig) {
    exists stages, maps :: ReworkedBy(city, stages, maps, end, score, config)
  }

  ghost predicate ReworkedBy(city: City, stages: seq<City>, maps: seq<City>, end: City, score: City -> real,
                             config: RoadConfig)
  {
    && Repairs(city, config.maxConnectorLength, stages, |city.buildings|)
    && Repeated(maps, config.maxRemovePasses, PassRelation(score, config.minImprovement))
    && maps[0] == stages[|city.buildings|] && end == maps[|maps| - 1]
  }

  /** Road optimisation has one result only. */
  lemma RoadsAreDetermined(city: City, a: City, b: City, score: City -> real, config: RoadConfig)
    requires RoadsLead(city, a, score, config) && RoadsLead(city, b, score, config)
    ensures a == b
  {
    var s, m :| ReworkedBy(city, s, m, a, score, config);
    var t, n :| ReworkedBy(city, t, n, b, score, config);
    RepairsAreUnique(city, config.maxConnectorLength, s, t, |city.buildings|);
    var leads := PassRelation(score, config.minImprovement);
    PassesGoOneWay(score, config.minImprovement);
    RepeatedIsUnique(m, n, config.maxRemovePasses, leads, |m| - 1);
    RepeatedIsUnique(n, m, config.maxRemovePasses, leads, |n| - 1);
  }

  /**
   Nobody loses access, whoever could be connected is, and once a removal has been
   accepted the network is connected and serves every building. No single removal is left
   that would be worth making, unless every pass raised the score.
   */
  method OptimizeRoads(city: City, score: City -> real, config: RoadConfig)
    returns (plan: RoadPlan, ghost repaired: City, ghost settled: bool)
    requires city.Valid() && config.minImprovement >= 0.0
    ensures plan.before == score(city) && plan.after == score(plan.result) && plan.after >= score(repaired)
    ensures exists stages ::
      Repairs(city, config.maxConnectorLength, stages, |city.buildings|) && stages[|city.buildings|] == repaired
    ensures Extends(city, repaired) && Pared(repaired, plan.result) && plan.result.Valid()
    ensures ServedUpTo(city, plan.result, config.maxConnectorLength, |city.buildings|)
    ensures plan.edits == DiffRoads(city.roads, plan.result.roads)
    ensures RoadsLead(city, plan.result, score, config)
    ensures if settled then Irreducible(plan.result, score, plan.after, config.minImprovement)
            else Gained(score(repaired), plan.after, config.maxRemovePasses, config.minImprovement)
  {
    var mended, stages := RepairMissingAccess(city, config.maxConnectorLength);
    repaired := mended;
    var current, currentScore;
    ghost var maps;
    current, currentScore, settled, maps := RemovePasses(mended, score, config.maxRemovePasses, config.minImprovement);
    assert ReworkedBy(city, stages, maps, current, score, config);
    ParedIsValid(repaired, current);
    ParedServes(city, repaired, current, config.maxConnectorLength);
    plan := RoadPlan(score(city), currentScore, DiffRoads(city.roads, current.roads), current);
  }

  lemma ParedIsValid(repaired: City, now: City)
    requires repaired.Valid() && Pared(repaired, now)
    ensures now.Valid()
  {
    RoadsChangeKeepsValid(repaired, now.roads);
  }

  lemma ParedServes(city: City, repaired: City, now: City, limit: nat)
    requires Extends(city, repaired) && Pared(repaired, now)
    requires ServedUpTo(city, repaired, limit, |city.buildings|)
    ensures ServedUpTo(city, now, limit, |city.buildings|)
  {
    forall i | 0 <= i < |city.buildings| ensures Served(city, now, limit, i) {
      assert Served(city, repaired, limit, i);
      if now != repaired { assert now.RoadAccess(now.buildings[i]); }
    }
  }
}
