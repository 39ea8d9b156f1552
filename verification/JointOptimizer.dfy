/** Alternating building relocation and road optimisation. */
module JointOptimizer {
  import opened Wrappers
  import opened CityMap
  import opened Planner
  import opened Buildability
  import opened Improvement
  import opened LayoutOptimizer
  import opened RoadOptimizer

  datatype JointConfig = JointConfig(maxRounds: nat, minImprovement: real, layout: LayoutConfig, road: RoadConfig)

  ghost predicate ConfigValid(config: JointConfig) {
    && config.maxRounds > 0 && config.minImprovement >= 0.0
    && config.layout.minImprovement >= 0.0 && config.road.minImprovement >= 0.0
  }

  /** Access that building `i` had is kept, and having moved implies having it. */
  ghost predicate KeepsAccess(city: City, now: City, i: int)
    requires SameCatalog(city, now) && 0 <= i < |city.buildings|
  {
    && (city.RoadAccess(city.buildings[i]) || Displaced(city, now, i) ==> now.RoadAccess(now.buildings[i]))
    && (Displaced(city, now, i) ==> city.buildings[i].spec.movable)
  }

  /** What any number of rounds preserves. */
  ghost predicate Reworked(city: City, now: City) {
    && now.Valid() && SameCatalog(city, now)
    && (forall i {:trigger KeepsAccess(city, now, i)} :: 0 <= i < |city.buildings| ==> KeepsAccess(city, now, i))
    && (forall p :: p in now.roads - city.roads ==> p !in city.blocked)
  }

  lemma ReworkedSelf(city: City)
    requires city.Valid()
    ensures Reworked(city, city)
  {
  }

  lemma ReworkedOn(city: City, mid: City, now: City)
    requires Reworked(city, mid) && Reworked(mid, now)
    ensures Reworked(city, now)
  {
    forall i | 0 <= i < |city.buildings| ensures KeepsAccess(city, now, i) {
      assert KeepsAccess(city, mid, i) && KeepsAccess(mid, now, i);
    }
  }

  lemma RearrangedIsReworked(city: City, now: City)
    requires Rearranged(city, now)
    ensures Reworked(city, now)
  {
    forall i | 0 <= i < |city.buildings| ensures KeepsAccess(city, now, i) {
      if !Displaced(city, now, i) { assert city.buildings[i] == now.buildings[i]; }
    }
  }

  lemma RoadPlanIsReworked(city: City, repaired: City, now: City, limit: nat)
    requires city.Valid() && Extends(city, repaired) && Pared(repaired, now) && now.Valid()
    requires ServedUpTo(city, now, limit, |city.buildings|)
    ensures Reworked(city, now) && now.buildings == city.buildings
  {
    forall i | 0 <= i < |city.buildings| ensures KeepsAccess(city, now, i) {
      assert Served(city, now, limit, i);
    }
  }

  /** No displaced building stands on an original road. */
  ghost predicate OffOriginalRoads(city: City, now: City)
    requires SameCatalog(city, now)
  {
    forall i {:trigger Displaced(city, now, i)} :: 0 <= i < |city.buildings| && Displaced(city, now, i) ==>
      now.buildings[i].Footprint() !! city.roads
  }

  lemma RearrangedIsOffRoads(city: City, now: City, after: City)
    requires Rearranged(city, now) && SameCatalog(city, after) && after.buildings == now.buildings
    ensures OffOriginalRoads(city, after)
  {
    forall i | 0 <= i < |city.buildings| && Displaced(city, after, i)
      ensures after.buildings[i].Footprint() !! city.roads
    {
      assert now.Fits(now.buildings[i]);
    }
  }

  /** Relocating gains nothing worth while: a fixed point of the layout search. */
  ghost predicate AtRest(current: City, score: City -> real, best: real, config: JointConfig) {
    config.layout.maxPasses > 0 && config.minImprovement <= config.layout.minImprovement ==>
      Settled(current, score, best, config.layout)
  }

  /** The map a result of the round is to replace, if it gains more than the slack. */
  ghost function Accepted(now: City, found: City, score: City -> real, slack: real): City {
    if score(found) > score(now) + slack then found else now
  }

  /** One round leads from `current` to `next`: the relocations if they gain enough, then the roads if they do. */
  ghost predicate RoundLeads(current: City, next: City, score: City -> real, config: JointConfig) {
    exists laid :: LayoutLeads(current, laid, score, config.layout)
                   && RoadsFollow(Accepted(current, laid, score, config.minImprovement), next, score, config)
  }

  ghost predicate RoadsFollow(mid: City, next: City, score: City -> real, config: JointConfig) {
    exists built :: RoadsLead(mid, built, score, config.road)
                    && next == Accepted(mid, built, score, config.minImprovement)
  }

  /** A round has one result only. */
  lemma RoundIsUnique(current: City, a: City, b: City, score: City -> real, config: JointConfig)
    requires RoundLeads(current, a, score, config) && RoundLeads(current, b, score, config)
    ensures a == b
  {
    var p :| LayoutLeads(current, p, score, config.layout)
             && RoadsFollow(Accepted(current, p, score, config.minImprovement), a, score, config);
    var q :| LayoutLeads(current, q, score, config.layout)
             && RoadsFollow(Accepted(current, q, score, config.minImprovement), b, score, config);
    LayoutIsDetermined(current, p, q, score, config.layout);
    var mid := Accepted(current, p, score, config.minImprovement);
    var x :| RoadsLead(mid, x, score, config.road) && a == Accepted(mid, x, score, config.minImprovement);
    var y :| RoadsLead(mid, y, score, config.road) && b == Accepted(mid, y, score, config.minImprovement);
    RoadsAreDetermined(mid, x, y, score, config.road);
  }

  ghost function RoundRelation(score: City -> real, config: JointConfig): (City, City) -> bool {
    (current: City, next: City) => RoundLeads(current, next, score, config)
  }

  /** The maps after each round, until one gains too little, and changes nothing, or there were enough. */
  ghost predicate Rounds(maps: seq<City>, score: City -> real, config: JointConfig) {
    Repeated(maps, config.maxRounds, RoundRelation(score, config))
  }

  /** The rounds, and with them the layout that joint optimisation arrives at, are determined by the map. */
  lemma RoundsAreUnique(a: seq<City>, b: seq<City>, score: City -> real, config: JointConfig)
    requires Rounds(a, score, config) && Rounds(b, score, config) && a[0] == b[0]
    ensures a == b
  {
    var leads := RoundRelation(score, config);
    RoundsGoOneWay(score, config);
    forall k | 0 <= k < |a| ensures k < |b| && a[k] == b[k] { RepeatedIsUnique(a, b, config.maxRounds, leads, k); }
    RepeatedIsUnique(a, b, config.maxRounds, leads, |a| - 1);
    RepeatedIsUnique(b, a, config.maxRounds, leads, |b| - 1);
  }

  lemma RoundsGoOneWay(score: City -> real, config: JointConfig)
    ensures OneWay(RoundRelation(score, config))
  {
    forall a, b, c | RoundLeads(a, b, score, config) && RoundLeads(a, c, score, config) ensures b == c {
      RoundIsUnique(a, b, c, score, config);
    }
  }

  /** One round: relocate if that improves enough, then rework the roads if that does. */
  method OneRound(current: City, currentScore: real, baseline: Origins, score: City -> real, config: JointConfig)
    returns (next: City, nextScore: real, ghost relocated: City)
    requires current.Valid() && currentScore == score(current) && ConfigValid(config)
      && Listing(current.buildings, baseline)
    ensures nextScore == score(next) && nextScore >= currentScore
    ensures Rearranged(current, relocated) && Reworked(relocated, next) && next.buildings == relocated.buildings
    ensures RoundLeads(current, next, score, config)
    ensures nextScore <= currentScore + config.minImprovement ==>
      next == current && AtRest(current, score, currentScore, config)
  {
    next, nextScore, relocated := current, currentScore, current;
    NotMovedYet(current);
    var layout, settled := OptimizeLayout(current, Some(baseline), score, config.layout);
    assert layout.Success?;
    if layout.value.after > nextScore + config.minImprovement {
      next, nextScore, relocated := layout.value.result, layout.value.after, layout.value.result;
    }
    var road, repaired, irreducible := OptimizeRoads(next, score, config.road);
    RoadPlanIsReworked(next, repaired, road.result, config.road.maxConnectorLength);
    ReworkedSelf(next);
    if road.after > nextScore + config.minImprovement {
      next, nextScore := road.result, road.after;
    }
  }

  /** One more round on top of the earlier ones. */
  method NextRound(ghost city: City, current: City, currentScore: real, baseline: Origins, score: City -> real,
                   config: JointConfig)
    returns (next: City, nextScore: real)
    requires Reworked(city, current) && currentScore == score(current) && ConfigValid(config)
    requires Listing(city.buildings, baseline)
    ensures nextScore == score(next) && nextScore >= currentScore && Reworked(city, next)
    ensures RoundLeads(current, next, score, config)
    ensures current == city ==> OffOriginalRoads(city, next)
    ensures nextScore <= currentScore + config.minImprovement ==>
      next == current && AtRest(current, score, currentScore, config)
  {
    SameListing(city, current, baseline);
    ghost var relocated;
    next, nextScore, relocated := OneRound(current, currentScore, baseline, score, config);
    RoundReworks(city, current, relocated, next);
    if current == city { RearrangedIsOffRoads(city, relocated, next); }
  }

  lemma RoundReworks(city: City, current: City, relocated: City, next: City)
    requires Reworked(city, current) && Rearranged(current, relocated) && Reworked(relocated, next)
    ensures Reworked(city, next)
  {
    RearrangedIsReworked(current, relocated);
    ReworkedOn(city, current, relocated);
    ReworkedOn(city, relocated, next);
  }

  method Alternate(city: City, score: City -> real, config: JointConfig)
    returns (current: City, currentScore: real, ghost rested: bool, ghost maps: seq<City>)
    requires city.Valid() && ConfigValid(config)
    ensures currentScore == score(current) >= score(city) && Reworked(city, current)
    ensures Rounds(maps, score, config) && maps[0] == city && maps[|maps| - 1] == current
    ensures config.maxRounds == 1 ==> OffOriginalRoads(city, current)
    ensures if rested then AtRest(current, score, currentScore, config)
            else Gained(score(city), currentScore, config.maxRounds, config.minImprovement)
  {
    var baseline := OriginsOf(city);
    current, currentScore, rested, maps := city, score(city), false, [city];
    ReworkedSelf(city);
    var round := 0;
    while round < config.maxRounds
      invariant currentScore == score(current) >= score(city) && Reworked(city, current)
      invariant round <= config.maxRounds && !rested
      invariant |maps| == round + 1 && maps[0] == city && maps[round] == current
      invariant StepByStep(maps, RoundRelation(score, config))
      invariant Gained(score(city), currentScore, round, config.minImprovement)
      invariant round == 0 ==> current == city
      invariant round == 1 ==> OffOriginalRoads(city, current)
      decreases config.maxRounds - round
    {
      var next, nextScore := NextRound(city, current, currentScore, baseline, score, config);
      var roundStart := currentScore;
      current, currentScore := next, nextScore;
      if currentScore <= roundStart + config.minImprovement {
        rested := true;
        break;
      }
      assert score(next) != score(maps[round]);
      OneStepOn(maps, next, RoundRelation(score, config));
      maps := maps + [next];
      GainedOnce(score(city), roundStart, currentScore, round, config.minImprovement);
      round := round + 1;
    }
  }

  // ---- The plan ----------------------------------------------------------------------

  lemma BaselineIsOrigin(city: City, i: nat)
    requires UniqueIds(city.buildings) && i < |city.buildings|
    ensures OriginsOf(city)[city.buildings[i].spec.id] == city.buildings[i].origin
  {
    IndexOfUnique(city.buildings, i);
  }

  lemma MoveListed(city: City, now: City, i: nat)
    requires city.Valid() && SameCatalog(city, now) && i < |city.buildings|
    requires Listing(now.buildings, OriginsOf(city)) && Displaced(city, now, i)
    ensures LayoutMove(city.buildings[i].spec.id, city.buildings[i].origin, now.buildings[i].origin)
            in MovesFrom(OriginsOf(city), now.buildings)
  {
    BaselineIsOrigin(city, i);
    assert now.buildings[i].spec == city.buildings[i].spec;
    assert LayoutMoveOf(OriginsOf(city), now.buildings[i])
        == LayoutMove(city.buildings[i].spec.id, city.buildings[i].origin, now.buildings[i].origin);
  }

  lemma ListedIsMove(city: City, now: City, m: LayoutMove)
    requires city.Valid() && SameCatalog(city, now) && Listing(now.buildings, OriginsOf(city))
    requires m in MovesFrom(OriginsOf(city), now.buildings)
    ensures MoveIsDiff(city, now, m)
  {
    var origins := OriginsOf(city);
    var i :| 0 <= i < |now.buildings| && now.buildings[i].origin != origins[now.buildings[i].spec.id]
             && m == LayoutMoveOf(origins, now.buildings[i]);
    assert city.buildings[i].spec == now.buildings[i].spec;
    BaselineIsOrigin(city, i);
    assert Displaced(city, now, i);
  }

  lemma PlanIsDiff(city: City, plan: JointPlan)
    requires city.Valid() && plan.result.Valid() && SameCatalog(city, plan.result)
    requires Listing(plan.result.buildings, OriginsOf(city))
      && plan.moves == MovesFrom(OriginsOf(city), plan.result.buildings)
    requires plan.edits == DiffRoads(city.roads, plan.result.roads)
    ensures IsDiff(city, plan)
  {
    DiffIsExact(city.roads, plan.result.roads);
    forall m | m in plan.moves ensures MoveIsDiff(city, plan.result, m) { ListedIsMove(city, plan.result, m); }
    forall i | 0 <= i < |city.buildings| && Displaced(city, plan.result, i)
      ensures city.buildings[i].spec.id in Moved(plan.moves)
    {
      MoveListed(city, plan.result, i);
    }
  }

  /** A reworked map is buildable exactly when no displaced building lands on an original road. */
  lemma BuildableIffOffRoads(city: City, now: City)
    requires Reworked(city, now)
    ensures Buildable(city, now) <==> OffOriginalRoads(city, now)
  {
    forall i | 0 <= i < |city.buildings| && Displaced(city, now, i)
      ensures CanArrive(city, now, i) <==> now.buildings[i].Footprint() !! city.roads
    {
      assert KeepsAccess(city, now, i);
      TouchesMore(now.buildings[i], now.roads, city.roads + now.roads);
    }
  }

  /**
   The plan describes exactly the difference between the input and its result. The score
   never falls; access is kept, every moved building is movable and has it; with a single
   round, or whenever nobody lands on an original road, the plan is buildable. If the rounds
   end early no listed relocation of the result is worth making; if not, each one gained.
   */
  method OptimizeJointly(city: City, score: City -> real, config: JointConfig)
    returns (plan: JointPlan, ghost rested: bool)
    requires city.Valid() && ConfigValid(config)
    ensures plan.before == score(city) && plan.after == score(plan.result) && plan.after >= plan.before
    ensures IsDiff(city, plan) && Reworked(city, plan.result)
    ensures Buildable(city, plan.result) <==> OffOriginalRoads(city, plan.result)
    ensures exists maps :: Rounds(maps, score, config) && maps[0] == city && maps[|maps| - 1] == plan.result
    ensures config.maxRounds == 1 ==> Buildable(city, plan.result)
    ensures if rested then AtRest(plan.result, score, plan.after, config)
            else Gained(plan.before, plan.after, config.maxRounds, config.minImprovement)
  {
    var current, currentScore;
    ghost var maps;
    current, currentScore, rested, maps := Alternate(city, score, config);
    SameListing(city, current, OriginsOf(city));
    plan := JointPlan(score(city), currentScore, MovesFrom(OriginsOf(city), current.buildings),
                      DiffRoads(city.roads, current.roads), current);
    PlanIsDiff(city, plan);
    BuildableIffOffRoads(city, current);
  }
}
