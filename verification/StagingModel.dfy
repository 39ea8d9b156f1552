/** The staging loop as a step relation: who goes home, who steps aside, and when it halts. */
module StagingModel {
  import opened Wrappers
  import opened Orders
  import opened CityMap
  import opened Construction
  import opened Coordinates

  /** What the loop never changes: both maps and the map its prefix leads to. */
  datatype Env = Env(original: City, target: City, city: City)

  datatype StagingState = StagingState(
    pending: map<string, Step>,
    pos: map<string, Point>,
    resolved: seq<Step>,
    completed: set<StepId>,
    points: seq<(string, Point)>,
    count: nat)

  /** The cells building `id` of `c` covers when it stands at `origin`. */
  function At(c: City, id: string, origin: Point): set<Point> {
    match IndexOf(c.buildings, id)
    case None => {}
    case Some(i) => c.buildings[i].(origin := origin).Footprint()
  }

  /** No building other than `id` stands on `cells`. */
  ghost predicate ClearOf(c: City, pos: map<string, Point>, id: string, cells: set<Point>) {
    forall other {:trigger At(c, other, pos[other])} ::
      other in pos && other != id ==> At(c, other, pos[other]) !! cells
  }

  /** No two buildings overlap. */
  ghost predicate Apart(c: City, pos: map<string, Point>) {
    forall id {:trigger At(c, id, pos[id])} :: id in pos ==> ClearOf(c, pos, id, At(c, id, pos[id]))
  }

  // ---- Going home --------------------------------------------------------------------

  function PendingIds(s: StagingState): set<StepId> {
    set id | id in s.pending :: s.pending[id].id
  }

  /** Its dependencies outside the pending moves are completed. */
  predicate Eligible(s: StagingState, id: string) {
    id in s.pending && forall d :: d in s.pending[id].dependsOn ==> d in PendingIds(s) || d in s.completed
  }

  ghost predicate Ready(env: Env, s: StagingState, id: string) {
    && Eligible(s, id) && s.pending[id].destination.Some?
    && ClearOf(env.original, s.pos, id, At(env.original, id, s.pending[id].destination.value))
  }

  ghost predicate FirstReady(env: Env, s: StagingState, id: string) {
    Ready(env, s, id) && forall o {:trigger Ready(env, s, o)} :: Ready(env, s, o) ==> o == id || LexLess(id, o)
  }

  ghost predicate NoneReady(env: Env, s: StagingState) {
    forall id {:trigger Ready(env, s, id)} :: !Ready(env, s, id)
  }

  function Home(s: StagingState, id: string): StagingState
    requires id in s.pending && id in s.pos && s.pending[id].destination.Some?
  {
    var step := s.pending[id];
    s.(pending := s.pending - {id},
       pos := s.pos[id := step.destination.value],
       resolved := s.resolved + [step.(source := Some(s.pos[id]), dependsOn := [])],
       completed := s.completed + {step.id})
  }

  // ---- Stepping aside ----------------------------------------------------------------

  ghost predicate AvoidsTargets(target: City, id: string, cells: set<Point>) {
    forall k {:trigger target.buildings[k].Footprint()} ::
      0 <= k < |target.buildings| && target.buildings[k].spec.id != id ==>
      target.buildings[k].Footprint() !! cells
  }

  predicate InRange(c: City, spec: BuildingSpec, o: Point) {
    0 <= o.x < c.width - spec.width + 1 && 0 <= o.y < c.height - spec.height + 1
  }

  /** A temporary place: on the map, free, off every other target, beside a road. */
  ghost predicate Legal(env: Env, pos: map<string, Point>, id: string, o: Point) {
    match IndexOf(env.original.buildings, id)
    case None => false
    case Some(i) =>
      var b := env.original.buildings[i].(origin := o);
      && InRange(env.city, b.spec, o)
      && AvoidsTargets(env.target, id, b.Footprint())
      && b.Footprint() !! env.city.blocked + env.city.roads
      && ClearOf(env.original, pos, id, b.Footprint())
      && b.Touches(env.city.roads)
  }

  ghost predicate Pivot(s: StagingState, id: string) {
    Eligible(s, id) && forall o {:trigger Eligible(s, o)} :: Eligible(s, o) ==> o == id || LexLess(id, o)
  }

  ghost predicate Best(env: Env, s: StagingState, id: string, cell: Point)
    requires id in s.pos
  {
    && Legal(env, s.pos, id, cell)
    && forall o {:trigger Legal(env, s.pos, id, o)} ::
      Legal(env, s.pos, id, o) ==> o == cell || Closer(s.pos[id], cell, o)
  }

  function Stage(s: StagingState, id: string, cell: Point): StagingState
    requires id in s.pos
  {
    s.(pos := s.pos[id := cell],
       resolved := s.resolved + [MoveStep(StageId(id, s.count + 1), id, s.pos[id], cell, [])],
       completed := s.completed + {StageId(id, s.count + 1)},
       points := s.points + [(id, cell)],
       count := s.count + 1)
  }

  // ---- The loop ----------------------------------------------------------------------

  ghost predicate GoesHome(env: Env, s: StagingState, id: string, t: StagingState) {
    id in s.pos && FirstReady(env, s, id) && t == Home(s, id)
  }

  ghost predicate StepsAside(env: Env, s: StagingState, id: string, cell: Point, t: StagingState) {
    id in s.pos && NoneReady(env, s) && Pivot(s, id) && Best(env, s, id, cell) && t == Stage(s, id, cell)
  }

  /** One turn of the loop. */
  ghost predicate Next(env: Env, s: StagingState, t: StagingState) {
    || (exists id :: GoesHome(env, s, id, t))
    || (exists id, cell :: StepsAside(env, s, id, cell, t))
  }

  /** The loop ends: nothing is pending, or nobody can go home and the pivot has nowhere to go. */
  ghost predicate Halted(env: Env, s: StagingState) {
    NoneReady(env, s) && forall id, cell :: Pivot(s, id) ==> !Legal(env, s.pos, id, cell)
  }

  ghost predicate StandsLegally(env: Env, s: StagingState, id: string) {
    id in s.pos && Legal(env, s.pos, id, s.pos[id])
  }

  /** Nobody can go home and the pivot already stands on a legal temporary place. */
  ghost predicate Stutters(env: Env, s: StagingState) {
    NoneReady(env, s) && exists id :: Pivot(s, id) && StandsLegally(env, s, id)
  }

  /** Successive loop states. */
  ghost predicate Run(env: Env, trace: seq<StagingState>) {
    trace != [] && forall k {:trigger Turn(env, trace, k)} :: 0 <= k < |trace| - 1 ==> Turn(env, trace, k)
  }

  ghost predicate Turn(env: Env, trace: seq<StagingState>, k: int)
    requires 0 <= k < |trace| - 1
  {
    Next(env, trace[k], trace[k + 1])
  }

  /** What the planner guarantees of the moves it leaves to this loop. */
  ghost predicate Aimed(env: Env, s: StagingState) {
    && Positioned(env, s)
    && forall id {:trigger s.pending[id]} :: id in s.pending ==> id in s.pos && AimedMove(env, id, s.pending[id])
  }

  /** The step brings building `id` onto its target cells and waits for no staging step. */
  ghost predicate AimedMove(env: Env, id: string, step: Step) {
    && step.id == MoveId(id) && step.destination.Some?
    && (forall d :: d in step.dependsOn ==> !d.StageId?)
    && TargetHolds(env, id, At(env.original, id, step.destination.value))
  }

  ghost predicate Positioned(env: Env, s: StagingState) {
    UniqueIds(env.original.buildings) && UniqueIds(env.target.buildings) && s.pos.Keys == Ids(env.original.buildings)
  }

  /** The cells are those of building `id` in the target map. */
  ghost predicate TargetHolds(env: Env, id: string, cells: set<Point>) {
    exists k :: 0 <= k < |env.target.buildings| && env.target.buildings[k].spec.id == id
                && env.target.buildings[k].Footprint() == cells
  }

  // ---- A legal temporary place stays legal -------------------------------------------

  /** Moving `id` onto `cells` keeps a clear area clear, unless the area meets `cells`. */
  lemma ClearAfterMove(c: City, pos: map<string, Point>, b: string, cells: set<Point>, id: string, o: Point)
    requires ClearOf(c, pos, b, cells) && (id == b || At(c, id, o) !! cells)
    ensures ClearOf(c, pos[id := o], b, cells)
  {
    var now := pos[id := o];
    forall other | other in now && other != b ensures At(c, other, now[other]) !! cells {
      if other != id { assert now[other] == pos[other]; }
    }
  }

  lemma LegalAfterMove(env: Env, pos: map<string, Point>, b: string, o: Point, id: string, to: Point)
    requires Legal(env, pos, b, o) && (id == b || At(env.original, id, to) !! At(env.original, b, o))
    ensures Legal(env, pos[id := to], b, o)
  {
    ClearAfterMove(env.original, pos, b, At(env.original, b, o), id, to);
  }

  lemma HomeKeepsLegal(env: Env, s: StagingState, id: string, b: string)
    requires Aimed(env, s) && id in s.pending && b != id && StandsLegally(env, s, b)
    ensures StandsLegally(env, Home(s, id), b)
  {
    var cells := At(env.original, id, s.pending[id].destination.value);
    assert TargetHolds(env, id, cells);
    assert cells !! At(env.original, b, s.pos[b]);
    LegalAfterMove(env, s.pos, b, s.pos[b], id, s.pending[id].destination.value);
  }

  lemma StageKeepsLegal(env: Env, s: StagingState, id: string, cell: Point, b: string)
    requires id in s.pos && Legal(env, s.pos, id, cell)
    requires b == id || StandsLegally(env, s, b)
    ensures StandsLegally(env, Stage(s, id, cell), b)
  {
    if b == id {
      LegalAfterMove(env, s.pos, id, cell, id, cell);
    } else {
      assert At(env.original, b, s.pos[b]) !! At(env.original, id, cell);
      LegalAfterMove(env, s.pos, b, s.pos[b], id, cell);
    }
  }

  // ---- Readiness and temporary places told in coordinates ----------------------------

  /** Building `b` covers no cell of a building with another name that stands where `pos` says. */
  ghost predicate ClearOfOthers(c: City, pos: map<string, Point>, b: Building) {
    forall p, j {:trigger Inside(b, p), c.buildings[j]} ::
      Inside(b, p) && 0 <= j < |c.buildings| && c.buildings[j].spec.id != b.spec.id && c.buildings[j].spec.id in pos ==>
        !Inside(c.buildings[j].(origin := pos[c.buildings[j].spec.id]), p)
  }

  /** Building `b` covers no cell of a target with another name. */
  ghost predicate ClearOfTargets(target: City, b: Building) {
    forall p, k {:trigger Inside(b, p), target.buildings[k]} ::
      Inside(b, p) && 0 <= k < |target.buildings| && target.buildings[k].spec.id != b.spec.id ==>
        !Inside(target.buildings[k], p)
  }

  lemma ClearOfExactly(c: City, pos: map<string, Point>, b: Building)
    requires UniqueIds(c.buildings)
    ensures ClearOf(c, pos, b.spec.id, b.Footprint()) <==> ClearOfOthers(c, pos, b)
  {
    if ClearOf(c, pos, b.spec.id, b.Footprint()) {
      forall p, j | Inside(b, p) && 0 <= j < |c.buildings| && c.buildings[j].spec.id != b.spec.id
        && c.buildings[j].spec.id in pos
        ensures !Inside(c.buildings[j].(origin := pos[c.buildings[j].spec.id]), p)
      {
        IndexOfUnique(c.buildings, j);
        var other := c.buildings[j].spec.id;
        assert At(c, other, pos[other]) !! b.Footprint();
        assert p in b.Footprint();
      }
    }
    if ClearOfOthers(c, pos, b) {
      forall other | other in pos && other != b.spec.id ensures At(c, other, pos[other]) !! b.Footprint() {
        forall p | p in At(c, other, pos[other]) ensures p !in b.Footprint() {
          var j := IndexOf(c.buildings, other).value;
          assert Inside(c.buildings[j].(origin := pos[other]), p);
          FootprintIsInside(b, p);
        }
      }
    }
  }

  lemma AvoidsTargetsExactly(target: City, b: Building)
    ensures AvoidsTargets(target, b.spec.id, b.Footprint()) <==> ClearOfTargets(target, b)
  {
    if AvoidsTargets(target, b.spec.id, b.Footprint()) {
      forall p, k | Inside(b, p) && 0 <= k < |target.buildings| && target.buildings[k].spec.id != b.spec.id
        ensures !Inside(target.buildings[k], p)
      {
        assert target.buildings[k].Footprint() !! b.Footprint();
        assert p in b.Footprint();
      }
    }
    if ClearOfTargets(target, b) {
      forall k | 0 <= k < |target.buildings| && target.buildings[k].spec.id != b.spec.id
        ensures target.buildings[k].Footprint() !! b.Footprint()
      {
        forall p | p in target.buildings[k].Footprint() ensures p !in b.Footprint() {
          assert Inside(target.buildings[k], p);
          FootprintIsInside(b, p);
        }
      }
    }
  }

  /** Building `i` may wait at `o`: on the map, off roads, blocked cells, targets and other buildings, by a road. */
  ghost predicate MayWaitAt(env: Env, pos: map<string, Point>, i: nat, o: Point)
    requires i < |env.original.buildings|
  {
    var b := env.original.buildings[i].(origin := o);
    && 0 <= o.x && o.x + b.spec.width <= env.city.width && 0 <= o.y && o.y + b.spec.height <= env.city.height
    && (forall p {:trigger Inside(b, p)} :: Inside(b, p) ==> p !in env.city.blocked && p !in env.city.roads)
    && ClearOfTargets(env.target, b) && ClearOfOthers(env.original, pos, b)
    && exists p :: p in env.city.roads && NextTo(b, p)
  }

  lemma LegalExactly(env: Env, pos: map<string, Point>, i: nat, o: Point)
    requires UniqueIds(env.original.buildings) && i < |env.original.buildings|
    ensures Legal(env, pos, env.original.buildings[i].spec.id, o) <==> MayWaitAt(env, pos, i, o)
  {
    var b := env.original.buildings[i].(origin := o);
    IndexOfUnique(env.original.buildings, i);
    AvoidsTargetsExactly(env.target, b);
    ClearOfExactly(env.original, pos, b);
    TouchesIsNextTo(b, env.city.roads);
    assert forall p :: p in b.Footprint() <==> Inside(b, p);
    if b.Footprint() !! env.city.blocked + env.city.roads {
      assert forall p :: Inside(b, p) ==> p in b.Footprint() && p !in env.city.blocked + env.city.roads;
    }
  }

  /** Building `i` may go home: nothing it waits for is missing and its destination is free of the others. */
  ghost predicate MayGoHome(env: Env, s: StagingState, i: nat)
    requires i < |env.original.buildings|
  {
    var b := env.original.buildings[i];
    && b.spec.id in s.pending && s.pending[b.spec.id].destination.Some?
    && (forall d :: d in s.pending[b.spec.id].dependsOn ==>
          d in s.completed || exists x :: x in s.pending && s.pending[x].id == d)
    && ClearOfOthers(env.original, s.pos, b.(origin := s.pending[b.spec.id].destination.value))
  }

  lemma ReadyExactly(env: Env, s: StagingState, i: nat)
    requires UniqueIds(env.original.buildings) && i < |env.original.buildings|
    ensures Ready(env, s, env.original.buildings[i].spec.id) <==> MayGoHome(env, s, i)
  {
    var id := env.original.buildings[i].spec.id;
    IndexOfUnique(env.original.buildings, i);
    if id in s.pending && s.pending[id].destination.Some? {
      ClearOfExactly(env.original, s.pos,
                     env.original.buildings[i].(origin := s.pending[id].destination.value));
    }
  }
}
