/** Coordinate descent over building positions, roads held fixed. */
module LayoutOptimizer {
  import opened Wrappers
  import opened Orders
  import opened CityMap
  import opened Coordinates
  import opened Planner
  import opened Buildability
  import opened Improvement

  type Origins = map<string, Point>

  datatype LayoutConfig = LayoutConfig(maxPasses: nat, candidateLimit: nat, minImprovement: real)

  datatype LayoutPlan = LayoutPlan(before: real, after: real, moves: seq<LayoutMove>, result: City)

  /** Where building `i` may go. */
  ghost predicate MayStand(city: City, i: int, o: Point)
    requires 0 <= i < |city.buildings|
  {
    city.CanPlace(city.buildings[i].spec, o, Some(city.buildings[i].spec.id), true)
  }

  /** The first `limit` of the points, nearest first. */
  function Listed(candidates: set<Point>, from: Point, limit: nat): (r: seq<Point>)
    ensures forall o :: o in r ==> o in candidates
    ensures |r| <= limit
  {
    CloserStrictTotal(from);
    var all := Sorted(candidates, (p: Point, q: Point) => Closer(from, p, q));
    var r := all[..if limit < |all| then limit else |all|];
    assert forall k :: 0 <= k < |r| ==> r[k] == all[k];
    r
  }

  /** The list holds the nearest of the points, nearest first, and leaves out none it has room for. */
  lemma ListedAreNearest(candidates: set<Point>, from: Point, limit: nat)
    ensures var r := Listed(candidates, from, limit);
      && |r| == (if limit < |candidates| then limit else |candidates|)
      && (forall i, j :: 0 <= i < j < |r| ==> Nearer(from, r[i], r[j]))
      && forall k, o :: 0 <= k < |r| && o in candidates && o !in r ==> Nearer(from, r[k], o)
  {
    CloserStrictTotal(from);
    var lt := (p: Point, q: Point) => Closer(from, p, q);
    var all := Sorted(candidates, lt);
    SortedAscends(candidates, lt);
    var r := Listed(candidates, from, limit);
    assert forall k {:trigger all[k]} :: 0 <= k < |r| ==> r[k] == all[k] && all[k] in r;
    forall i, j | 0 <= i < j < |r| ensures Nearer(from, r[i], r[j]) {
      assert lt(all[i], all[j]);
      CloserIsNearer(from, r[i], r[j]);
    }
    forall k, o | 0 <= k < |r| && o in candidates && o !in r ensures Nearer(from, r[k], o) {
      var j :| 0 <= j < |all| && all[j] == o;
      assert |r| <= j;
      assert lt(all[k], all[j]);
      CloserIsNearer(from, r[k], o);
    }
  }

  /** The relocations of building `i` that the search looks at. */
  ghost function Relocations(city: City, i: int, limit: nat): seq<Point>
    requires 0 <= i < |city.buildings| && city.buildings[i].spec.Valid()
  {
    Listed(Places(city, i), city.buildings[i].origin, limit)
  }

  ghost function Places(city: City, i: int): (r: set<Point>)
    requires 0 <= i < |city.buildings| && city.buildings[i].spec.Valid()
    ensures forall o :: o in r <==> MayStand(city, i, o)
  {
    var spec := city.buildings[i].spec;
    var grid := set x, y | 0 <= x < city.width && 0 <= y < city.height :: Point(x, y);
    forall o | MayStand(city, i, o) ensures o in grid {
      OriginInRange(city, spec, o, Some(spec.id), true);
    }
    set o | o in grid && MayStand(city, i, o)
  }

  /** No listed relocation of building `i` beats `best` by more than `slack`. */
  ghost predicate NoBetter(city: City, i: int, limit: nat, score: City -> real, best: real, slack: real)
    requires 0 <= i < |city.buildings| && city.buildings[i].spec.Valid()
  {
    forall o {:trigger WithOrigin(city, i, o)} :: o in Relocations(city, i, limit) && o != city.buildings[i].origin ==>
      score(WithOrigin(city, i, o)) <= best + slack
  }

  /** A map reached by legal moves of movable buildings onto places with road access. */
  ghost predicate Rearranged(city: City, now: City) {
    && now.Valid() && SameCatalog(city, now) && now.roads == city.roads
    && forall i {:trigger Displaced(city, now, i)} :: 0 <= i < |city.buildings| && Displaced(city, now, i) ==>
         city.buildings[i].spec.movable && now.RoadAccess(now.buildings[i])
  }

  lemma MoveRearranges(city: City, now: City, i: nat, o: Point)
    requires Rearranged(city, now) && i < |now.buildings| && now.buildings[i].spec.movable && MayStand(now, i, o)
    ensures Rearranged(city, WithOrigin(now, i, o))
    ensures now.MoveBuilding(now.buildings[i].spec.id, o) == Success(WithOrigin(now, i, o))
  {
    var next := WithOrigin(now, i, o);
    PlaceableIsValid(now, i, o, true);
    MoveSucceedsExactly(now, i, o);
    forall k | 0 <= k < |city.buildings| && Displaced(city, next, k)
      ensures city.buildings[k].spec.movable && next.RoadAccess(next.buildings[k])
    {
      if k != i { assert Displaced(city, now, k); }
    }
  }

  method ListRelocations(city: City, i: nat, limit: nat) returns (candidates: seq<Point>)
    requires i < |city.buildings| && city.buildings[i].spec.Valid()
    ensures candidates == Relocations(city, i, limit)
    ensures forall o :: o in candidates ==> MayStand(city, i, o)
  {
    var b := city.buildings[i];
    var found := CandidateOrigins(city, b.spec, Some(b.spec.id), true);
    assert (set o | o in found) == Places(city, i);
    candidates := Listed((set o | o in found), b.origin, limit);
  }

  method TryMove(city: City, i: nat, o: Point) returns (trial: City)
    requires city.Valid() && i < |city.buildings| && city.buildings[i].spec.movable && MayStand(city, i, o)
    ensures trial == WithOrigin(city, i, o)
  {
    MoveRearranges(city, city, i, o);
    trial := city.MoveBuilding(city.buildings[i].spec.id, o).value;
  }

  /** `best` is the map itself or one listed relocation of building `i`. */
  ghost predicate OneMove(city: City, i: int, candidates: seq<Point>, best: City)
    requires 0 <= i < |city.buildings|
  {
    exists o :: o in candidates && o != city.buildings[i].origin && best == WithOrigin(city, i, o)
  }

  // ---- Which relocations are made ----------------------------------------------------

  /** Goes over to the relocation if it scores better by the slack than the best so far. */
  ghost function Weighed(city: City, i: int, o: Point, score: City -> real, slack: real, best: (City, real))
    : (r: (City, real))
    requires 0 <= i < |city.buildings|
  {
    var trial := WithOrigin(city, i, o);
    if o != city.buildings[i].origin && score(trial) > best.1 + slack then (trial, score(trial)) else best
  }

  /** The candidates one after the other, each for building `i` of the same map. */
  ghost function BestOf(city: City, i: int, candidates: seq<Point>, incumbent: real, score: City -> real, slack: real)
    : (r: (City, real))
    requires 0 <= i < |city.buildings|
  {
    if candidates == [] then (city, incumbent)
    else
      var n := |candidates| - 1;
      Weighed(city, i, candidates[n], score, slack, BestOf(city, i, candidates[..n], incumbent, score, slack))
  }

  ghost predicate BestSoFar(city: City, i: int, candidates: seq<Point>, incumbent: real, score: City -> real,
                            slack: real,
                            best: City, bestScore: real)
    requires 0 <= i < |city.buildings|
  {
    (best, bestScore) == BestOf(city, i, candidates, incumbent, score, slack)
  }

  lemma BestOn(city: City, i: int, candidates: seq<Point>, k: nat, incumbent: real, score: City -> real, slack: real,
               before: (City, real), after: (City, real))
    requires 0 <= i < |city.buildings| && k < |candidates|
    requires BestSoFar(city, i, candidates[..k], incumbent, score, slack, before.0, before.1)
    requires after == Weighed(city, i, candidates[k], score, slack, before)
    ensures BestSoFar(city, i, candidates[..k + 1], incumbent, score, slack, after.0, after.1)
  {
    assert candidates[..k + 1][..k] == candidates[..k];
  }

  /** The turn of building `i`: to its best listed relocation, if it is movable. */
  ghost predicate Bettered(now: City, i: int, next: City, score: City -> real, config: LayoutConfig) {
    && 0 <= i < |now.buildings| && now.buildings[i].spec.Valid()
    && next ==
       if now.buildings[i].spec.movable
       then BestOf(now, i, Relocations(now, i, config.candidateLimit), score(now), score, config.minImprovement).0
       else now
  }

  ghost predicate TurnStep(stages: seq<City>, k: int, score: City -> real, config: LayoutConfig)
    requires 0 <= k < |stages| - 1
  {
    Bettered(stages[k], k, stages[k + 1], score, config)
  }

  /** The turns of the first buildings, each on the map the ones before it left. */
  ghost predicate Turns(start: City, stages: seq<City>, score: City -> real, config: LayoutConfig) {
    && stages != [] && stages[0] == start
    && forall k {:trigger TurnStep(stages, k, score, config)} :: 0 <= k < |stages| - 1 ==>
         TurnStep(stages, k, score, config)
  }

  ghost predicate TurnsTo(start: City, stages: seq<City>, end: City, score: City -> real, config: LayoutConfig) {
    Turns(start, stages, score, config) && |stages| == |start.buildings| + 1 && end == stages[|start.buildings|]
  }

  /** One pass, everybody's turn once, leads from `start` to `end`. */
  ghost predicate TurnsLead(start: City, end: City, score: City -> real, config: LayoutConfig) {
    exists stages :: TurnsTo(start, stages, end, score, config)
  }

  lemma TurnsOn(start: City, stages: seq<City>, next: City, score: City -> real, config: LayoutConfig)
    requires Turns(start, stages, score, config)
    requires Bettered(stages[|stages| - 1], |stages| - 1, next, score, config)
    ensures Turns(start, stages + [next], score, config)
  {
    var now := stages + [next];
    forall k | 0 <= k < |now| - 1 ensures TurnStep(now, k, score, config) {
      if k < |stages| - 1 { assert TurnStep(stages, k, score, config); }
    }
  }

  lemma {:induction false} TurnsAreUnique(start: City, a: seq<City>, b: seq<City>, score: City -> real,
                                          config: LayoutConfig, k: nat)
    requires Turns(start, a, score, config) && Turns(start, b, score, config) && k < |a| && k < |b|
    ensures a[k] == b[k]
  {
    if k > 0 {
      TurnsAreUnique(start, a, b, score, config, k - 1);
      TurnStepOnce(a, b, k - 1, score, config);
    }
  }

  lemma TurnStepOnce(a: seq<City>, b: seq<City>, k: nat, score: City -> real, config: LayoutConfig)
    requires k + 1 < |a| && k + 1 < |b| && a[k] == b[k]
    requires TurnStep(a, k, score, config) && TurnStep(b, k, score, config)
    ensures a[k + 1] == b[k + 1]
  {
  }

  ghost function TurnRelation(score: City -> real, config: LayoutConfig): (City, City) -> bool {
    (start: City, end: City) => TurnsLead(start, end, score, config)
  }

  lemma TurnsGoOneWay(score: City -> real, config: LayoutConfig)
    ensures OneWay(TurnRelation(score, config))
  {
    forall a, b, c | TurnsLead(a, b, score, config) && TurnsLead(a, c, score, config) ensures b == c {
      var s :| TurnsTo(a, s, b, score, config);
      var t :| TurnsTo(a, t, c, score, config);
      TurnsAreUnique(a, s, t, score, config, |a.buildings|);
    }
  }

  /** Passes until one changes nothing, or there were enough, lead from `start` to `end`. */
  ghost predicate LayoutLeads(start: City, end: City, score: City -> real, config: LayoutConfig) {
    exists maps :: RelocatedBy(start, maps, end, score, config)
  }

  ghost predicate RelocatedBy(start: City, maps: seq<City>, end: City, score: City -> real, config: LayoutConfig) {
    Repeated(maps, config.maxPasses, TurnRelation(score, config)) && maps[0] == start && end == maps[|maps| - 1]
  }

  /** Coordinate descent has one result only. */
  lemma LayoutIsDetermined(start: City, a: City, b: City, score: City -> real, config: LayoutConfig)
    requires LayoutLeads(start, a, score, config) && LayoutLeads(start, b, score, config)
    ensures a == b
  {
    var m :| RelocatedBy(start, m, a, score, config);
    var n :| RelocatedBy(start, n, b, score, config);
    var leads := TurnRelation(score, config);
    TurnsGoOneWay(score, config);
    RepeatedIsUnique(m, n, config.maxPasses, leads, |m| - 1);
    RepeatedIsUnique(n, m, config.maxPasses, leads, |n| - 1);
  }

  /** The best of the listed relocations, if it improves enough on what is there. */
  method OptimizeOne(city: City, i: nat, incumbent: real, score: City -> real, config: LayoutConfig)
    returns (best: City, bestScore: real, moved: bool)
    requires city.Valid() && i < |city.buildings| && city.buildings[i].spec.movable && config.minImprovement >= 0.0
    ensures bestScore >= incumbent && Rearranged(city, best)
    ensures city.buildings[i].spec.Valid()
      && NoBetter(city, i, config.candidateLimit, score, bestScore, config.minImprovement)
    ensures !moved ==> best == city && bestScore == incumbent
    ensures moved ==> bestScore == score(best) > incumbent + config.minImprovement
    ensures moved ==> OneMove(city, i, Relocations(city, i, config.candidateLimit), best)
    ensures (best, bestScore)
      == BestOf(city, i, Relocations(city, i, config.candidateLimit), incumbent, score, config.minImprovement)
  {
    assert city.buildings[i].spec.Valid();
    var candidates := ListRelocations(city, i, config.candidateLimit);
    best, bestScore, moved := TryAll(city, i, candidates, incumbent, score, config.minImprovement);
    OneMoveRearranges(city, i, candidates, best);
  }

  lemma OneMoveRearranges(city: City, i: nat, candidates: seq<Point>, best: City)
    requires city.Valid() && i < |city.buildings| && city.buildings[i].spec.movable
    requires forall o :: o in candidates ==> MayStand(city, i, o)
    requires best == city || OneMove(city, i, candidates, best)
    ensures Rearranged(city, best)
  {
    if best != city {
      var o :| o in candidates && o != city.buildings[i].origin && best == WithOrigin(city, i, o);
      MoveRearranges(city, city, i, o);
    }
  }

  method TryAll(city: City, i: nat, candidates: seq<Point>, incumbent: real, score: City -> real, minImprovement: real)
    returns (best: City, bestScore: real, moved: bool)
    requires city.Valid() && i < |city.buildings| && city.buildings[i].spec.movable && minImprovement >= 0.0
    requires forall o :: o in candidates ==> MayStand(city, i, o)
    ensures bestScore >= incumbent
    ensures forall o {:trigger WithOrigin(city, i, o)} :: o in candidates && o != city.buildings[i].origin ==>
      score(WithOrigin(city, i, o)) <= bestScore + minImprovement
    ensures !moved ==> best == city && bestScore == incumbent
    ensures moved ==> bestScore == score(best) > incumbent + minImprovement && OneMove(city, i, candidates, best)
    ensures (best, bestScore) == BestOf(city, i, candidates, incumbent, score, minImprovement)
  {
    best, bestScore, moved := city, incumbent, false;
    for k := 0 to |candidates|
      invariant bestScore >= incumbent
      invariant forall j {:trigger candidates[j]} :: 0 <= j < k && candidates[j] != city.buildings[i].origin ==>
        score(WithOrigin(city, i, candidates[j])) <= bestScore + minImprovement
      invariant !moved ==> best == city && bestScore == incumbent
      invariant moved ==> bestScore == score(best) > incumbent + minImprovement && OneMove(city, i, candidates, best)
      invariant BestSoFar(city, i, candidates[..k], incumbent, score, minImprovement, best, bestScore)
    {
      ghost var before := (best, bestScore);
      var o := candidates[k];
      assert o in candidates;
      if o != city.buildings[i].origin {
        var trial := TryMove(city, i, o);
        if score(trial) > bestScore + minImprovement {
          best, bestScore, moved := trial, score(trial), true;
        }
      }
      BestOn(city, i, candidates, k, incumbent, score, minImprovement, before, (best, bestScore));
    }
    assert candidates[..|candidates|] == candidates;
  }

  // ---- Passes over all movable buildings ---------------------------------------------

  lemma RearrangedOn(city: City, mid: City, now: City)
    requires Rearranged(city, mid) && Rearranged(mid, now)
    ensures Rearranged(city, now)
  {
    forall k | 0 <= k < |city.buildings| && Displaced(city, now, k)
      ensures city.buildings[k].spec.movable && now.RoadAccess(now.buildings[k])
    {
      if !Displaced(mid, now, k) { assert Displaced(city, mid, k) && mid.buildings[k] == now.buildings[k]; }
    }
  }

  /** No listed relocation of any movable building among the first `n` is better by more than the slack. */
  ghost predicate FixedPoint(city: City, n: int, score: City -> real, best: real, config: LayoutConfig)
    requires 0 <= n <= |city.buildings| && forall i :: 0 <= i < n ==> city.buildings[i].spec.Valid()
  {
    forall i {:trigger city.buildings[i].spec.movable} :: 0 <= i < n && city.buildings[i].spec.movable ==>
      NoBetter(city, i, config.candidateLimit, score, best, config.minImprovement)
  }

  lemma SpecsValid(c: City)
    requires c.Valid()
    ensures forall i :: 0 <= i < |c.buildings| ==> c.buildings[i].spec.Valid()
  {
  }

  lemma FixedPointPush(city: City, n: nat, score: City -> real, best: real, config: LayoutConfig)
    requires n < |city.buildings| && forall i :: 0 <= i <= n ==> city.buildings[i].spec.Valid()
    requires FixedPoint(city, n, score, best, config)
    requires city.buildings[n].spec.movable ==>
      NoBetter(city, n, config.candidateLimit, score, best, config.minImprovement)
    ensures FixedPoint(city, n + 1, score, best, config)
  {
  }

  /** A building's turn in a pass. */
  method OptimizeIfMovable(start: City, now: City, i: nat, nowScore: real, score: City -> real, config: LayoutConfig)
    returns (next: City, nextScore: real, moved: bool)
    requires Rearranged(start, now) && i < |now.buildings| && nowScore == score(now) && config.minImprovement >= 0.0
    requires now.buildings[i].spec.Valid()
    ensures Rearranged(start, next) && nextScore == score(next) && Bettered(now, i, next, score, config)
    ensures if moved then nextScore > nowScore + config.minImprovement else next == now
    ensures !moved && now.buildings[i].spec.movable ==>
      NoBetter(now, i, config.candidateLimit, score, nowScore, config.minImprovement)
  {
    next, nextScore, moved := now, nowScore, false;
    if now.buildings[i].spec.movable {
      next, nextScore, moved := OptimizeOne(now, i, nowScore, score, config);
      RearrangedOn(start, now, next);
    }
  }

  method OnePass(start: City, startScore: real, score: City -> real, config: LayoutConfig)
    returns (now: City, nowScore: real, changed: bool)
    requires start.Valid() && startScore == score(start) && config.minImprovement >= 0.0
    requires forall i :: 0 <= i < |start.buildings| ==> start.buildings[i].spec.Valid()
    ensures Rearranged(start, now) && nowScore == score(now)
    ensures TurnsLead(start, now, score, config)
    ensures if changed then nowScore > startScore + config.minImprovement
            else now == start && FixedPoint(start, |start.buildings|, score, startScore, config)
  {
    now, nowScore, changed := start, startScore, false;
    ghost var stages := [start];
    NotMovedYet(start);
    for i := 0 to |start.buildings|
      invariant Rearranged(start, now) && nowScore == score(now)
      invariant |stages| == i + 1 && Turns(start, stages, score, config) && now == stages[i]
      invariant changed ==> nowScore > startScore + config.minImprovement
      invariant !changed ==> now == start
      invariant !changed ==> FixedPoint(start, i, score, startScore, config)
    {
      var moved;
      assert now.buildings[i].spec == start.buildings[i].spec;
      now, nowScore, moved := OptimizeIfMovable(start, now, i, nowScore, score, config);
      TurnsOn(start, stages, now, score, config);
      changed, stages := changed || moved, stages + [now];
      if !changed { FixedPointPush(start, i, score, startScore, config); }
    }
    assert TurnsTo(start, stages, now, score, config);
  }

  function LayoutMoveOf(baseline: Origins, b: Building): LayoutMove
    requires b.spec.id in baseline
  {
    LayoutMove(b.spec.id, baseline[b.spec.id], b.origin)
  }

  /** A move for each building that is not where the baseline has it. */
  function MovesFrom(baseline: Origins, bs: seq<Building>): (moves: seq<LayoutMove>)
    requires forall i :: 0 <= i < |bs| ==> bs[i].spec.id in baseline
    ensures forall m :: m in moves <==>
      exists i :: 0 <= i < |bs| && bs[i].origin != baseline[bs[i].spec.id] && m == LayoutMoveOf(baseline, bs[i])
  {
    if bs == [] then []
    else
      var front, last := bs[..|bs| - 1], bs[|bs| - 1];
      var moves := MovesFrom(baseline, front);
      assert forall i :: 0 <= i < |front| ==> bs[i] == front[i];
      if last.origin != baseline[last.spec.id] then moves + [LayoutMoveOf(baseline, last)] else moves
  }

  function OriginsOf(c: City): (origins: Origins)
    ensures forall i :: 0 <= i < |c.buildings| ==> c.buildings[i].spec.id in origins
  {
    map id | id in Ids(c.buildings) :: OriginOf(c, id)
  }

  /** The map is a fixed point of the search over all its movable buildings. */
  ghost predicate Settled(c: City, score: City -> real, best: real, config: LayoutConfig) {
    && (forall i :: 0 <= i < |c.buildings| ==> c.buildings[i].spec.Valid())
    && FixedPoint(c, |c.buildings|, score, best, config)
  }

  /** Passes until one changes nothing, which leaves a fixed point, or the limit is reached. */
  method Descend(city: City, score: City -> real, config: LayoutConfig)
    returns (current: City, currentScore: real, ghost settled: bool)
    requires city.Valid() && config.minImprovement >= 0.0
    ensures Rearranged(city, current) && currentScore == score(current) && currentScore >= score(city)
    ensures if settled then Settled(current, score, currentScore, config)
            else Gained(score(city), currentScore, config.maxPasses, config.minImprovement)
    ensures current == city || currentScore > score(city) + config.minImprovement
    ensures LayoutLeads(city, current, score, config)
  {
    current, currentScore, settled := city, score(city), false;
    ghost var maps := [city];
    var pass := 0;
    NotMovedYet(city);
    while pass < config.maxPasses
      invariant pass <= config.maxPasses && !settled
      invariant Rearranged(city, current) && currentScore == score(current) && currentScore >= score(city)
      invariant Gained(score(city), currentScore, pass, config.minImprovement)
      invariant pass == 0 ==> current == city
      invariant |maps| == pass + 1 && maps[0] == city && maps[pass] == current
      invariant StepByStep(maps, TurnRelation(score, config))
      decreases config.maxPasses - pass
    {
      SpecsValid(current);
      var next, nextScore, changed := OnePass(current, currentScore, score, config);
      if !changed {
        settled := true;
        break;
      }
      RearrangedOn(city, current, next);
      assert score(next) != score(current);
      OneStepOn(maps, next, TurnRelation(score, config));
      maps := maps + [next];
      GainedOnce(score(city), currentScore, nextScore, pass, config.minImprovement);
      current, currentScore, pass := next, nextScore, pass + 1;
    }
    assert RelocatedBy(city, maps, current, score, config);
  }

  ghost predicate Listing(bs: seq<Building>, origins: Origins) {
    forall i {:trigger bs[i]} :: 0 <= i < |bs| ==> bs[i].spec.id in origins
  }

  /**
   Coordinate descent. The score never falls, only movable buildings move, and only to
   places with road access. The result is a fixed point, where no listed relocation of a
   movable building beats it by more than the slack, unless every pass raised the score.
   */
  method OptimizeLayout(city: City, baseline: Option<Origins>, score: City -> real, config: LayoutConfig)
    returns (r: Result<LayoutPlan, set<string>>, ghost settled: bool)
    requires city.Valid() && config.minImprovement >= 0.0
    ensures r.Failure? <==> baseline.Some? && !Listing(city.buildings, baseline.value)
    ensures r.Failure? ==> forall id :: id in r.error <==>
      id !in baseline.value && exists i :: 0 <= i < |city.buildings| && city.buildings[i].spec.id == id
    ensures r.Success? ==>
      && r.value.before == score(city) && r.value.after == score(r.value.result) && r.value.after >= r.value.before
      && Rearranged(city, r.value.result)
    ensures r.Success? ==>
      if settled then Settled(r.value.result, score, r.value.after, config)
      else Gained(r.value.before, r.value.after, config.maxPasses, config.minImprovement)
    ensures r.Success? ==> r.value.result == city || r.value.after > r.value.before + config.minImprovement
    ensures r.Success? ==> LayoutLeads(city, r.value.result, score, config)
    ensures r.Success? ==> var origins := if baseline.Some? then baseline.value else OriginsOf(city);
      Listing(r.value.result.buildings, origins) && r.value.moves == MovesFrom(origins, r.value.result.buildings)
  {
    settled := false;
    var origins := if baseline.Some? then baseline.value else OriginsOf(city);
    var missing := set i | 0 <= i < |city.buildings| && city.buildings[i].spec.id !in origins ::
      city.buildings[i].spec.id;
    if exists i :: 0 <= i < |city.buildings| && city.buildings[i].spec.id !in origins {
      return Failure(missing), settled;
    }
    var current, currentScore;
    current, currentScore, settled := Descend(city, score, config);
    SameListing(city, current, origins);
    r := Success(LayoutPlan(score(city), currentScore, MovesFrom(origins, current.buildings), current));
  }

  lemma SameListing(city: City, now: City, origins: Origins)
    requires SameCatalog(city, now) && Listing(city.buildings, origins)
    ensures Listing(now.buildings, origins)
  {
    forall i | 0 <= i < |now.buildings| ensures now.buildings[i].spec.id in origins {
      assert city.buildings[i].spec == now.buildings[i].spec;
    }
  }

  lemma NotMovedYet(city: City)
    requires city.Valid()
    ensures Rearranged(city, city)
  {
  }
}
