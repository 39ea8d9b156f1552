/** Resolving pure move cycles with temporary free cells. */
module StagingSolver {
  import opened Wrappers
  import opened Orders
  import opened CityMap
  import opened Construction
  import opened Coordinates
  import opened Topology
  import opened Planner
  import opened Buildability
  import opened StagingModel
  import opened StagingProgress
  import opened StagingSafety
  import opened StagingEnd

  // ---- Replaying the ordered prefix --------------------------------------------------

  /** A prefix step: moves are checked, a road edit only has to leave a legal map. */
  function PrefixStep(c: City, step: Step): Result<City, StepError> {
    if step.kind == MoveBuilding then
      if step.building.None? || step.destination.None? then Failure(MissingField)
      else
        match IndexOf(c.buildings, step.building.value)
        case None => Failure(MapRejected(UnknownBuilding))
        case Some(i) =>
          if step.source.Some? && c.buildings[i].origin != step.source.value then Failure(WrongSource)
          else
            match c.MoveBuilding(step.building.value, step.destination.value)
            case Success(moved) => Success(moved)
            case Failure(e) => Failure(MapRejected(e))
    else if step.point.None? then Failure(MissingField)
    else if step.kind == BuildRoad then
      var p := step.point.value;
      if !c.InBounds(p) || exists i :: 0 <= i < |c.buildings| && p in c.buildings[i].Footprint() then
        Failure(MapRejected(InvalidMap))
      else Success(c.(roads := c.roads + {p}))
    else Success(c.(roads := c.roads - {step.point.value}))
  }

  /**
   A road step of the prefix: a road is added exactly on a cell of the map under no building,
   blocked or road already or not, and removed whether there is one or not.
   */
  lemma PrefixRoadStepExactly(c: City, step: Step)
    requires step.kind != MoveBuilding && step.point.Some?
    ensures var p, r := step.point.value, PrefixStep(c, step);
      && (r.Success? <==> step.kind == RemoveRoad || (OnMap(c, p) && !Built(c, p)))
      && (r.Failure? ==> r.error == MapRejected(InvalidMap))
      && (r.Success? ==>
            && (forall q :: q in r.value.roads <==> if q == p then step.kind == BuildRoad else q in c.roads)
            && r.value.width == c.width && r.value.height == c.height && r.value.blocked == c.blocked
            && r.value.buildings == c.buildings)
  {
    var p := step.point.value;
    if i :| 0 <= i < |c.buildings| && p in c.buildings[i].Footprint() { assert Inside(c.buildings[i], p); }
    if Built(c, p) {
      var i :| 0 <= i < |c.buildings| && Inside(c.buildings[i], p);
      assert p in c.buildings[i].Footprint();
    }
  }

  /** A move of the prefix: as the executor applies it, except that the source may be missing. */
  lemma PrefixMoveExactly(c: City, step: Step, i: nat)
    requires c.Valid() && i < |c.buildings| && step.kind == MoveBuilding
      && step.building == Some(c.buildings[i].spec.id)
    requires step.destination.Some?
    ensures var b := c.buildings[i].(origin := step.destination.value);
      var r := PrefixStep(c, step);
      && (r.Success? <==> (step.source == None || step.source == Some(c.buildings[i].origin)) && b.spec.movable
                          && MayOccupy(c, b, Some(b.spec.id)) && exists p :: p in c.roads && NextTo(b, p))
      && (r.Success? ==> r.value == c.(buildings := c.buildings[i := b]))
      && (r == Failure(WrongSource) <==> step.source.Some? && step.source.value != c.buildings[i].origin)
  {
    IndexOfUnique(c.buildings, i);
    RelocateIsUpdate(c.buildings, i, step.destination.value);
    CanPlaceExactly(c, c.buildings[i].spec, step.destination.value, Some(c.buildings[i].spec.id), true);
  }

  function PrefixReplay(city: City, steps: seq<Step>): Result<City, StepError> {
    if steps == [] then Success(city)
    else
      match PrefixReplay(city, steps[..|steps| - 1])
      case Failure(e) => Failure(e)
      case Success(c) => PrefixStep(c, steps[|steps| - 1])
  }

  method ReplayPrefix(city: City, steps: seq<Step>) returns (r: Result<City, StepError>)
    ensures r == PrefixReplay(city, steps)
  {
    var current := city;
    for k := 0 to |steps|
      invariant PrefixReplay(city, steps[..k]) == Success(current)
    {
      assert steps[..k + 1][..k] == steps[..k];
      match PrefixStep(current, steps[k]) {
        case Failure(e) =>
          PrefixFails(city, steps, k + 1);
          return Failure(e);
        case Success(c) => current := c;
      }
    }
    assert steps[..|steps|] == steps;
    return Success(current);
  }

  lemma {:induction false} PrefixFails(city: City, steps: seq<Step>, k: nat)
    requires k <= |steps| && PrefixReplay(city, steps[..k]).Failure?
    ensures PrefixReplay(city, steps) == PrefixReplay(city, steps[..k])
    decreases |steps|
  {
    if k == |steps| {
      assert steps[..k] == steps;
    } else {
      var front := steps[..|steps| - 1];
      assert front[..k] == steps[..k];
      PrefixFails(city, front, k);
    }
  }

  /** Wherever the checked replay gets through, the prefix replay reaches the same map. */
  lemma {:induction false} CheckedReplayIsPrefixReplay(city: City, steps: seq<Step>)
    requires Replay(city, steps).Success?
    ensures PrefixReplay(city, steps) == Replay(city, steps)
  {
    if steps != [] { CheckedReplayIsPrefixReplay(city, steps[..|steps| - 1]); }
  }

  lemma PrefixStepKeeps(base: City, c: City, step: Step)
    requires c.Valid() && SameCatalog(base, c) && PrefixStep(c, step).Success?
    ensures PrefixStep(c, step).value.Valid() && SameCatalog(base, PrefixStep(c, step).value)
  {
    var d := PrefixStep(c, step).value;
    if step.kind == MoveBuilding {
      var i := IndexOf(c.buildings, step.building.value).value;
      MoveSucceedsExactly(c, i, step.destination.value);
      assert forall k :: 0 <= k < |c.buildings| ==> d.buildings[k].spec == c.buildings[k].spec;
    } else {
      RoadsChangeKeepsValid(c, d.roads);
    }
  }

  lemma {:induction false} PrefixReplayKeeps(base: City, steps: seq<Step>)
    requires base.Valid() && PrefixReplay(base, steps).Success?
    ensures PrefixReplay(base, steps).value.Valid() && SameCatalog(base, PrefixReplay(base, steps).value)
  {
    if steps != [] {
      var front := steps[..|steps| - 1];
      PrefixReplayKeeps(base, front);
      PrefixStepKeeps(base, PrefixReplay(base, front).value, steps[|steps| - 1]);
    }
  }

  // ---- Who stands where --------------------------------------------------------------

  /** Each listed cell's owner stands on it, and every covered cell is listed. */
  ghost predicate Occupancy(c: City, pos: map<string, Point>, occupied: map<Point, string>) {
    && (forall p :: p in occupied ==> occupied[p] in pos && p in At(c, occupied[p], pos[occupied[p]]))
    && (forall id {:trigger At(c, id, pos[id])} :: id in pos ==> At(c, id, pos[id]) <= occupied.Keys)
  }

  method OccupiedBy(c: City, pos: map<string, Point>) returns (occupied: map<Point, string>)
    ensures Occupancy(c, pos, occupied)
  {
    occupied := map[];
    var todo := pos.Keys;
    while todo != {}
      invariant todo <= pos.Keys
      invariant forall p :: p in occupied ==> occupied[p] in pos && p in At(c, occupied[p], pos[occupied[p]])
      invariant forall id {:trigger At(c, id, pos[id])} ::
        id in pos && id !in todo ==> At(c, id, pos[id]) <= occupied.Keys
      decreases todo
    {
      var id :| id in todo;
      var cells := At(c, id, pos[id]);
      occupied := occupied + map p | p in cells :: id;
      todo := todo - {id};
    }
  }

  /** Somebody other than `id` is listed on one of the cells. */
  predicate Blocked(occupied: map<Point, string>, id: string, cells: set<Point>) {
    exists p :: p in cells && p in occupied && occupied[p] != id
  }

  lemma BlockedExactly(c: City, pos: map<string, Point>, occupied: map<Point, string>, id: string, cells: set<Point>)
    requires Apart(c, pos) && Occupancy(c, pos, occupied)
    ensures Blocked(occupied, id, cells) <==> !ClearOf(c, pos, id, cells)
  {
    if Blocked(occupied, id, cells) {
      var p :| p in cells && p in occupied && occupied[p] != id;
      assert p in At(c, occupied[p], pos[occupied[p]]);
    }
    if !ClearOf(c, pos, id, cells) {
      var other :| other in pos && other != id && !(At(c, other, pos[other]) !! cells);
      var p :| p in At(c, other, pos[other]) && p in cells;
      assert p in occupied;
      var owner := occupied[p];
      if owner != other { assert ClearOf(c, pos, owner, At(c, owner, pos[owner])); }
    }
  }

  function SortedNames(s: set<string>): (r: seq<string>)
    ensures forall x :: x in r <==> x in s
    ensures forall i, j :: 0 <= i < j < |r| ==> LexLess(r[i], r[j])
  {
    LexStrictTotal();
    SortedAscends(s, LexLess);
    Sorted(s, LexLess)
  }

  /** An eligible move without a destination is met before any that can go home. */
  ghost predicate MissesDestination(env: Env, s: StagingState, id: string) {
    && id in s.pending && Eligible(s, id) && s.pending[id].destination.None?
    && forall o {:trigger Ready(env, s, o)} :: Ready(env, s, o) ==> LexLess(id, o)
  }

  /** The first move by name that can go home; a failure stands for the error on a missing destination. */
  method FirstReadyMove(env: Env, s: StagingState) returns (r: Result<Option<string>, StepError>)
    requires Apart(env.original, s.pos)
    ensures r.Failure? <==> exists id :: MissesDestination(env, s, id)
    ensures r.Success? && r.value.None? ==> NoneReady(env, s)
    ensures r.Success? && r.value.Some? ==> FirstReady(env, s, r.value.value)
  {
    var occupied := OccupiedBy(env.original, s.pos);
    var names := SortedNames(s.pending.Keys);
    for k := 0 to |names|
      invariant forall j :: 0 <= j < k ==> PassedOver(env, s, names[j])
    {
      var id := names[k];
      assert id in names;
      if Eligible(s, id) {
        if s.pending[id].destination.None? {
          MissingInOrder(env, s, names, k);
          return Failure(MissingField);
        }
        BlockedExactly(env.original, s.pos, occupied, id, At(env.original, id, s.pending[id].destination.value));
        if !Blocked(occupied, id, At(env.original, id, s.pending[id].destination.value)) {
          FirstInOrder(env, s, names, k);
          NoneMissing(env, s, names, k);
          return Success(Some(id));
        }
      }
      assert PassedOver(env, s, id);
    }
    AllPassedOver(env, s, names);
    return Success(None);
  }

  ghost predicate PassedOver(env: Env, s: StagingState, id: string) {
    !Ready(env, s, id) && !(id in s.pending && Eligible(s, id) && s.pending[id].destination.None?)
  }

  lemma AllPassedOver(env: Env, s: StagingState, names: seq<string>)
    requires forall x :: x in names <==> x in s.pending
    requires forall j :: 0 <= j < |names| ==> PassedOver(env, s, names[j])
    ensures NoneReady(env, s) && forall id :: !MissesDestination(env, s, id)
  {
    forall id ensures !Ready(env, s, id) && !MissesDestination(env, s, id) {
      if id in s.pending {
        assert id in names;
        var j :| 0 <= j < |names| && names[j] == id;
        assert PassedOver(env, s, names[j]);
      }
    }
  }

  lemma MissingInOrder(env: Env, s: StagingState, names: seq<string>, k: nat)
    requires k < |names| && names[k] in s.pending && Eligible(s, names[k]) && s.pending[names[k]].destination.None?
    requires forall x :: x in names <==> x in s.pending
    requires forall i, j :: 0 <= i < j < |names| ==> LexLess(names[i], names[j])
    requires forall j :: 0 <= j < k ==> PassedOver(env, s, names[j])
    ensures MissesDestination(env, s, names[k])
  {
    forall j | 0 <= j < k ensures !Ready(env, s, names[j]) { assert PassedOver(env, s, names[j]); }
    forall o | Ready(env, s, o) ensures LexLess(names[k], o) {
      assert o in names;
      var j :| 0 <= j < |names| && names[j] == o;
    }
  }

  /** Whoever comes before `names[k]` by name is listed before it. */
  lemma ListedBefore(names: seq<string>, k: nat, id: string)
    requires k < |names| && id in names && forall i, j :: 0 <= i < j < |names| ==> LexLess(names[i], names[j])
    ensures LexLess(id, names[k]) ==> id in names[..k]
  {
    var j :| 0 <= j < |names| && names[j] == id;
    LexAsymmetric(names[k], id);
    if j < k { assert names[..k][j] == id; }
  }

  lemma NotMissing(env: Env, s: StagingState, first: string, id: string)
    requires Ready(env, s, first) && (id in s.pending && LexLess(id, first) ==> PassedOver(env, s, id))
    ensures !MissesDestination(env, s, id)
  {
  }

  lemma NoneMissing(env: Env, s: StagingState, names: seq<string>, k: nat)
    requires k < |names| && Ready(env, s, names[k])
    requires forall x :: x in names <==> x in s.pending
    requires forall i, j :: 0 <= i < j < |names| ==> LexLess(names[i], names[j])
    requires forall j :: 0 <= j < k ==> PassedOver(env, s, names[j])
    ensures forall id :: !MissesDestination(env, s, id)
  {
    forall id ensures !MissesDestination(env, s, id) {
      if id in names { ListedBefore(names, k, id); }
      NotMissing(env, s, names[k], id);
    }
  }

  lemma FirstInOrder(env: Env, s: StagingState, names: seq<string>, k: nat)
    requires k < |names| && Ready(env, s, names[k])
    requires forall x :: x in names <==> x in s.pending
    requires forall i, j :: 0 <= i < j < |names| ==> LexLess(names[i], names[j])
    requires forall j :: 0 <= j < k ==> PassedOver(env, s, names[j])
    ensures FirstReady(env, s, names[k])
  {
    forall o | Ready(env, s, o) ensures o == names[k] || LexLess(names[k], o) {
      ListedBefore(names, k, o);
      NotBeforeFirst(env, s, names, k, o);
      LexTrichotomy(o, names[k]);
    }
  }

  lemma NotBeforeFirst(env: Env, s: StagingState, names: seq<string>, k: nat, o: string)
    requires k <= |names| && Ready(env, s, o) && forall j :: 0 <= j < k ==> PassedOver(env, s, names[j])
    ensures o !in names[..k]
  {
    forall j | 0 <= j < k ensures names[j] != o { assert PassedOver(env, s, names[j]); }
  }

  // ---- The nearest temporary place ---------------------------------------------------

  /** The target cells of every building but `id`. */
  function ReservedFinal(target: City, id: string): set<Point> {
    set k, p | 0 <= k < |target.buildings| && target.buildings[k].spec.id != id
             && p in target.buildings[k].Footprint() :: p
  }

  lemma ReservedExactly(target: City, id: string, cells: set<Point>)
    ensures AvoidsTargets(target, id, cells) <==> cells !! ReservedFinal(target, id)
  {
    var reserved := ReservedFinal(target, id);
    if AvoidsTargets(target, id, cells) {
      forall p | p in reserved ensures p !in cells {
        var k :| 0 <= k < |target.buildings| && target.buildings[k].spec.id != id
          && p in target.buildings[k].Footprint();
      }
    }
  }

  predicate Suits(b: Building, reserved: set<Point>, city: City, occupied: map<Point, string>) {
    var cells := b.Footprint();
    && cells !! reserved && cells !! city.blocked + city.roads
    && !Blocked(occupied, b.spec.id, cells) && b.Touches(city.roads)
  }

  lemma SuitsExactly(env: Env, pos: map<string, Point>, occupied: map<Point, string>, i: nat, o: Point)
    requires UniqueIds(env.original.buildings) && i < |env.original.buildings|
    requires Apart(env.original, pos) && Occupancy(env.original, pos, occupied)
    ensures var b := env.original.buildings[i].(origin := o);
      Legal(env, pos, b.spec.id, o) <==>
        InRange(env.city, b.spec, o) && Suits(b, ReservedFinal(env.target, b.spec.id), env.city, occupied)
  {
    var b := env.original.buildings[i].(origin := o);
    IndexOfUnique(env.original.buildings, i);
    BlockedExactly(env.original, pos, occupied, b.spec.id, b.Footprint());
    ReservedExactly(env.target, b.spec.id, b.Footprint());
  }

  /** The legal cells of row `y` left of column `x`. */
  ghost predicate RowSoFar(env: Env, pos: map<string, Point>, id: string, x: int, y: int, row: seq<Point>) {
    forall o: Point :: o in row <==> o.y == y && o.x < x && Legal(env, pos, id, o)
  }

  lemma RowPush(env: Env, pos: map<string, Point>, id: string, x: int, y: int, row: seq<Point>)
    requires RowSoFar(env, pos, id, x, y, row)
    ensures RowSoFar(env, pos, id, x + 1, y, if Legal(env, pos, id, Point(x, y)) then row + [Point(x, y)] else row)
  {
  }

  method LegalInRow(env: Env, pos: map<string, Point>, occupied: map<Point, string>, i: nat, y: int)
    returns (row: seq<Point>)
    requires UniqueIds(env.original.buildings) && i < |env.original.buildings|
    requires Apart(env.original, pos) && Occupancy(env.original, pos, occupied)
    requires 0 <= y < env.city.height - env.original.buildings[i].spec.height + 1
    ensures forall o: Point :: o in row <==> o.y == y && Legal(env, pos, env.original.buildings[i].spec.id, o)
  {
    var building := env.original.buildings[i];
    var reserved := ReservedFinal(env.target, building.spec.id);
    row := [];
    var x := 0;
    while x < env.city.width - building.spec.width + 1
      invariant 0 <= x && (x == 0 || x <= env.city.width - building.spec.width + 1)
      invariant RowSoFar(env, pos, building.spec.id, x, y, row)
    {
      SuitsExactly(env, pos, occupied, i, Point(x, y));
      RowPush(env, pos, building.spec.id, x, y, row);
      if Suits(building.(origin := Point(x, y)), reserved, env.city, occupied) {
        row := row + [Point(x, y)];
      }
      x := x + 1;
    }
    LegalHasRange(env, pos, i);
  }

  lemma LegalHasRange(env: Env, pos: map<string, Point>, i: nat)
    requires UniqueIds(env.original.buildings) && i < |env.original.buildings|
    ensures forall o: Point :: Legal(env, pos, env.original.buildings[i].spec.id, o) ==>
      InRange(env.city, env.original.buildings[i].spec, o)
  {
    IndexOfUnique(env.original.buildings, i);
  }

  method LegalCells(env: Env, pos: map<string, Point>, i: nat) returns (cells: seq<Point>)
    requires UniqueIds(env.original.buildings) && i < |env.original.buildings| && Apart(env.original, pos)
    ensures forall o: Point :: o in cells <==> Legal(env, pos, env.original.buildings[i].spec.id, o)
  {
    var occupied := OccupiedBy(env.original, pos);
    cells := [];
    LegalHasRange(env, pos, i);
    var y := 0;
    while y < env.city.height - env.original.buildings[i].spec.height + 1
      invariant 0 <= y && (y == 0 || y <= env.city.height - env.original.buildings[i].spec.height + 1)
      invariant forall o: Point :: o in cells <==> o.y < y && Legal(env, pos, env.original.buildings[i].spec.id, o)
    {
      var row := LegalInRow(env, pos, occupied, i, y);
      cells := cells + row;
      y := y + 1;
    }
  }

  /** The candidate nearest to `from`; ties go to the upper row, then to the left. */
  method Nearest(candidates: seq<Point>, from: Point) returns (best: Point)
    requires candidates != []
    ensures best in candidates && forall o :: o in candidates ==> o == best || Closer(from, best, o)
    ensures forall o {:trigger o in candidates} :: o in candidates ==> o == best || Nearer(from, best, o)
  {
    best := candidates[0];
    for k := 1 to |candidates|
      invariant best in candidates
      invariant forall j :: 0 <= j < k ==> candidates[j] == best || Closer(from, best, candidates[j])
    {
      if Closer(from, candidates[k], best) { best := candidates[k]; }
    }
    forall o | o in candidates && o != best ensures Nearer(from, best, o) { CloserIsNearer(from, best, o); }
  }

  /** The nearest legal cell told in coordinates. */
  lemma BestIsNearest(env: Env, s: StagingState, i: nat, cell: Point)
    requires UniqueIds(env.original.buildings) && i < |env.original.buildings|
    requires env.original.buildings[i].spec.id in s.pos && Best(env, s, env.original.buildings[i].spec.id, cell)
    ensures MayWaitAt(env, s.pos, i, cell)
    ensures forall o :: MayWaitAt(env, s.pos, i, o) ==>
      o == cell || Nearer(s.pos[env.original.buildings[i].spec.id], cell, o)
  {
    LegalExactly(env, s.pos, i, cell);
    forall o | MayWaitAt(env, s.pos, i, o) && o != cell
      ensures Nearer(s.pos[env.original.buildings[i].spec.id], cell, o)
    {
      LegalExactly(env, s.pos, i, o);
      CloserIsNearer(s.pos[env.original.buildings[i].spec.id], cell, o);
    }
  }

  method FindStagingCell(env: Env, s: StagingState, i: nat) returns (r: Option<Point>)
    requires UniqueIds(env.original.buildings) && i < |env.original.buildings| && Apart(env.original, s.pos)
    requires env.original.buildings[i].spec.id in s.pos
    ensures r.None? ==> forall o: Point :: !Legal(env, s.pos, env.original.buildings[i].spec.id, o)
    ensures r.Some? ==> Best(env, s, env.original.buildings[i].spec.id, r.value)
    ensures r.None? <==> forall o: Point :: !MayWaitAt(env, s.pos, i, o)
    ensures r.Some? ==> forall o :: MayWaitAt(env, s.pos, i, o) ==>
      o == r.value || Nearer(s.pos[env.original.buildings[i].spec.id], r.value, o)
  {
    forall o: Point ensures Legal(env, s.pos, env.original.buildings[i].spec.id, o) <==> MayWaitAt(env, s.pos, i, o) {
      LegalExactly(env, s.pos, i, o);
    }
    var cells := LegalCells(env, s.pos, i);
    if cells == [] {
      assert forall o: Point :: o !in cells;
      return None;
    }
    var best := Nearest(cells, s.pos[env.original.buildings[i].spec.id]);
    BestIsNearest(env, s, i, best);
    return Some(best);
  }

  // ---- The loop ----------------------------------------------------------------------

  lemma ApartAfterMove(c: City, pos: map<string, Point>, id: string, o: Point)
    requires Apart(c, pos) && ClearOf(c, pos, id, At(c, id, o))
    ensures Apart(c, pos[id := o])
  {
    var now := pos[id := o];
    forall x | x in now ensures ClearOf(c, now, x, At(c, x, now[x])) {
      if x == id {
        ClearAfterMove(c, pos, id, At(c, id, o), id, o);
      } else {
        assert ClearOf(c, pos, x, At(c, x, pos[x]));
        assert At(c, x, pos[x]) !! At(c, id, o);
        ClearAfterMove(c, pos, x, At(c, x, pos[x]), id, o);
      }
    }
  }

  method LeastEligible(s: StagingState) returns (r: Option<string>)
    ensures r.None? ==> forall id :: !Eligible(s, id)
    ensures r.Some? ==> Pivot(s, r.value)
  {
    var eligible := SortedNames(set id | id in s.pending && Eligible(s, id));
    assert forall id :: Eligible(s, id) ==> id in eligible;
    if eligible == [] { return None; }
    assert eligible[0] in eligible;
    return Some(eligible[0]);
  }

  lemma RunAppend(env: Env, trace: seq<StagingState>, t: StagingState)
    requires Run(env, trace) && Next(env, trace[|trace| - 1], t)
    ensures Run(env, trace + [t])
  {
    var now := trace + [t];
    forall k | 0 <= k < |now| - 1 ensures Turn(env, now, k) {
      if k < |trace| - 1 { assert Turn(env, trace, k); }
    }
  }

  /** A trace from `start` to `s` along which nothing but the loop's turns happened. */
  ghost predicate Traces(env: Env, trace: seq<StagingState>, start: StagingState, s: StagingState) {
    Run(env, trace) && trace[0] == start && trace[|trace| - 1] == s
  }

  lemma TracesAppend(env: Env, trace: seq<StagingState>, start: StagingState, s: StagingState, t: StagingState)
    requires Traces(env, trace, start, s) && Next(env, s, t)
    ensures Traces(env, trace + [t], start, t)
  {
    RunAppend(env, trace, t);
  }

  datatype LoopTurn = GoOn(next: StagingState) | Stop | Forever

  /** What the loop maintains. */
  ghost predicate Sound(env: Env, s: StagingState) {
    Aimed(env, s) && Apart(env.original, s.pos)
  }

  /** A turn that moves on: a step of the loop, and progress. */
  ghost predicate Moves(env: Env, s: StagingState, t: StagingState) {
    && Next(env, s, t) && Sound(env, t)
    && (t.pending.Keys < s.pending.Keys || (t.pending.Keys == s.pending.Keys && Misplaced(env, t) < Misplaced(env, s)))
  }

  lemma TurnMoves(env: Env, s: StagingState, t: StagingState)
    requires Aimed(env, s) && Next(env, s, t) && !Stutters(env, s) && Apart(env.original, t.pos)
    ensures Moves(env, s, t)
  {
    TurnProgresses(env, s, t);
    AimedKept(env, s, t);
  }

  /** One turn of the loop: somebody goes home, the pivot steps aside, or the loop stops. */
  method TakeTurn(env: Env, s: StagingState) returns (r: LoopTurn)
    requires Sound(env, s)
    ensures r.GoOn? ==> Moves(env, s, r.next)
    ensures r.Stop? ==> Halted(env, s)
    ensures r.Forever? ==> Stutters(env, s)
  {
    var found := FirstReadyMove(env, s);
    assert found.Success?;
    var ready := found.value;
    if ready.Some? {
      assert GoesHome(env, s, ready.value, Home(s, ready.value));
      ApartAfterMove(env.original, s.pos, ready.value, s.pending[ready.value].destination.value);
      TurnMoves(env, s, Home(s, ready.value));
      return GoOn(Home(s, ready.value));
    }
    var pivot := LeastEligible(s);
    if pivot.None? { return Stop; }
    assert pivot.value in s.pending && pivot.value in s.pos;
    r := MovePivot(env, s, pivot.value);
    if r.GoOn? { TurnMoves(env, s, r.next); }
  }

  method MovePivot(env: Env, s: StagingState, pivot: string) returns (r: LoopTurn)
    requires UniqueIds(env.original.buildings) && Apart(env.original, s.pos)
    requires NoneReady(env, s) && Pivot(s, pivot) && pivot in s.pos && pivot in Ids(env.original.buildings)
    ensures r.GoOn? ==> Next(env, s, r.next) && !Stutters(env, s) && Apart(env.original, r.next.pos)
    ensures r.Stop? ==> Halted(env, s)
    ensures r.Forever? ==> Stutters(env, s)
  {
    var i := IndexOf(env.original.buildings, pivot).value;
    var cell := FindStagingCell(env, s, i);
    if cell.None? {
      PivotHasNowhere(env, s, pivot);
      return Stop;
    }
    AsideProgresses(env, s, pivot, cell.value);
    if cell.value == s.pos[pivot] { return Forever; }
    if StandsLegally(env, s, pivot) { StandingStill(env, s, pivot, cell.value); }
    assert StepsAside(env, s, pivot, cell.value, Stage(s, pivot, cell.value));
    ApartAfterMove(env.original, s.pos, pivot, cell.value);
    return GoOn(Stage(s, pivot, cell.value));
  }

  lemma PivotHasNowhere(env: Env, s: StagingState, pivot: string)
    requires NoneReady(env, s) && Pivot(s, pivot) && forall o: Point :: !Legal(env, s.pos, pivot, o)
    ensures Halted(env, s)
  {
    forall id, cell | Pivot(s, id) ensures !Legal(env, s.pos, id, cell) { PivotUnique(s, id, pivot); }
  }

  /**
   The staging loop. The source has no guard against a pivot that already stands on the
   nearest legal place: there it repeats that turn for ever, which is reported here.
   */
  method StageAll(env: Env, start: StagingState)
    returns (end: StagingState, forever: bool, ghost trace: seq<StagingState>)
    requires Sound(env, start)
    ensures Traces(env, trace, start, end)
    ensures if forever then Stutters(env, end) else Halted(env, end)
  {
    end, trace, forever := start, [start], false;
    while end.pending != map[]
      invariant Traces(env, trace, start, end)
      invariant Sound(env, end)
      decreases end.pending.Keys, Misplaced(env, end)
    {
      var turn := TakeTurn(env, end);
      match turn {
        case Stop => return;
        case Forever => forever := true; return;
        case GoOn(next) =>
          TracesAppend(env, trace, start, end, next);
          end, trace := next, trace + [next];
      }
    }
    NothingPendingHalts(env, end);
  }

  lemma NothingPendingHalts(env: Env, s: StagingState)
    requires s.pending == map[]
    ensures Halted(env, s)
  {
  }

  // ---- The road steps ----------------------------------------------------------------

  /** Road steps picked up so far; `done` are all completed ids. */
  ghost predicate Picked(others: map<StepId, Step>, completed: set<StepId>, tail: seq<Step>, left: set<StepId>,
                         done: set<StepId>)
  {
    && NoDuplicates(StepIds(tail))
    && (forall k {:trigger tail[k]} :: 0 <= k < |tail| ==> tail[k].id in others && others[tail[k].id] == tail[k])
    && left == others.Keys - Elements(StepIds(tail))
    && TailInOrder(completed, tail)
    && done == completed + Elements(StepIds(tail))
  }

  lemma PickOne(others: map<StepId, Step>, completed: set<StepId>, tail: seq<Step>, left: set<StepId>,
                done: set<StepId>, a: StepId)
    requires Picked(others, completed, tail, left, done) && a in left && others[a].id == a
      && DependenciesDone(others[a], done)
    ensures Picked(others, completed, tail + [others[a]], left - {a}, done + {a})
  {
    var now := tail + [others[a]];
    StepIdsPush(tail, others[a]);
    assert StepIds(now) == StepIds(tail) + [a];
    assert forall k :: 0 <= k < |tail| ==> now[..k] == tail[..k];
    assert now[..|tail|] == tail;
  }

  lemma NamesOf(names: seq<StepId>, left: set<StepId>)
    requires names == SortedIds(left)
    ensures NoDuplicates(names) && forall k :: 0 <= k < |names| ==> names[k] in left
  {
    assert forall k :: 0 <= k < |names| ==> names[k] in names;
  }

  /** The pass has come to `names[k]`: nothing was picked, or less is left. */
  ghost predicate Passed(others: map<StepId, Step>, names: seq<StepId>, k: int, left: set<StepId>, done: set<StepId>,
                         left': set<StepId>, done': set<StepId>, progress: bool)
    requires 0 <= k <= |names| && forall j :: 0 <= j < |names| ==> names[j] in others
  {
    && (forall j :: k <= j < |names| ==> names[j] in left')
    && if progress then left' < left
       else left' == left && done' == done && forall j :: 0 <= j < k ==> !DependenciesDone(others[names[j]], done)
  }

  /** One pass over the remaining road steps in id order. */
  method PickPass(others: map<StepId, Step>, ghost completed: set<StepId>, tail: seq<Step>, left: set<StepId>,
                  done: set<StepId>)
    returns (tail': seq<Step>, left': set<StepId>, done': set<StepId>, progress: bool)
    requires Picked(others, completed, tail, left, done) && forall a {:trigger others[a]} ::
      a in others ==> others[a].id == a
    ensures Picked(others, completed, tail', left', done')
    ensures progress ==> left' < left
    ensures !progress ==> left' == left && done' == done && forall a {:trigger others[a]} ::
      a in left ==> !DependenciesDone(others[a], done)
  {
    var names := SortedIds(left);
    NamesOf(names, left);
    tail', left', done', progress := tail, left, done, false;
    for k := 0 to |names|
      invariant Picked(others, completed, tail', left', done')
      invariant Passed(others, names, k, left, done, left', done', progress)
    {
      var a := names[k];
      if DependenciesDone(others[a], done') {
        PickOne(others, completed, tail', left', done', a);
        tail', left', done', progress := tail' + [others[a]], left' - {a}, done' + {a}, true;
      }
    }
    assert forall a :: a in left ==> a in names;
  }

  method PickRoads(others: map<StepId, Step>, completed: set<StepId>) returns (tail: seq<Step>, left: set<StepId>)
    requires forall a {:trigger others[a]} :: a in others ==> others[a].id == a
    ensures TailOf(others, completed, tail, left)
  {
    tail, left := [], others.Keys;
    var done, madeProgress := completed, true;
    while left != {} && madeProgress
      invariant Picked(others, completed, tail, left, done)
      invariant !madeProgress ==> forall a {:trigger others[a]} :: a in left ==> !DependenciesDone(others[a], done)
      decreases left, madeProgress
    {
      tail, left, done, madeProgress := PickPass(others, completed, tail, left, done);
    }
    PickedAll(others, completed, tail, left, done);
  }

  lemma PickedAll(others: map<StepId, Step>, completed: set<StepId>, tail: seq<Step>, left: set<StepId>,
                  done: set<StepId>)
    requires Picked(others, completed, tail, left, done)
    requires left == {} || forall a {:trigger others[a]} :: a in left ==> !DependenciesDone(others[a], done)
    ensures TailOf(others, completed, tail, left)
  {
  }

  // ---- The resolver ------------------------------------------------------------------

  datatype Resolution =
    | Resolved(plan: ConstructionPlan, points: seq<(string, Point)>)
    | Raises(error: StepError)
    | RunsForever

  /** The unresolved moves bring their buildings onto their target cells; ids are unique. */
  ghost predicate Coherent(original: City, target: City, cp: ConstructionPlan) {
    && NoDuplicates(StepIds(cp.unresolved))
    && forall step ::
      step in cp.unresolved && IsMove(step) && Known(original, step.building.value)
        && Known(target, step.building.value) ==>
         AimedMove(Env(original, target, original), step.building.value, step)
  }

  /** What is still pending and what roads are left, in id order. */
  function Leftover(pending: map<string, Step>, others: map<StepId, Step>, left: set<StepId>): seq<Step>
    requires left <= others.Keys
  {
    var ids := (set id | id in pending :: MoveId(id)) + left;
    var names := SortedIds(ids);
    seq(|names|, k requires 0 <= k < |names| =>
      assert names[k] in names;
      match names[k]
      case MoveId(id) => if id in pending then pending[id] else others[names[k]]
      case _ => others[names[k]])
  }

  ghost function LeftoverIds(pending: map<string, Step>, left: set<StepId>): set<StepId> {
    (set id | id in pending :: MoveId(id)) + left
  }

  /** What stands for an id in the remainder. */
  ghost predicate StandsFor(pending: map<string, Step>, others: map<StepId, Step>, x: StepId, step: Step) {
    if x.MoveId? then x.building in pending && pending[x.building] == step else x in others && others[x] == step
  }

  lemma LeftoverAt(pending: map<string, Step>, others: map<StepId, Step>, left: set<StepId>, k: nat)
    requires left <= others.Keys && forall x :: x in left ==> !x.MoveId?
    requires k < |SortedIds(LeftoverIds(pending, left))|
    ensures |Leftover(pending, others, left)| == |SortedIds(LeftoverIds(pending, left))|
    ensures SortedIds(LeftoverIds(pending, left))[k] in LeftoverIds(pending, left)
    ensures StandsFor(pending, others, SortedIds(LeftoverIds(pending, left))[k], Leftover(pending, others, left)[k])
  {
    var names := SortedIds(LeftoverIds(pending, left));
    assert names[k] in names;
  }

  /** The remainder holds every move still pending and every road step left, and nothing else, by id text. */
  lemma LeftoverExactly(pending: map<string, Step>, others: map<StepId, Step>, left: set<StepId>, step: Step)
    requires left <= others.Keys && forall x :: x in left ==> !x.MoveId?
    ensures step in Leftover(pending, others, left) <==>
      (exists id :: id in pending && pending[id] == step) || (exists x :: x in left && others[x] == step)
  {
    var names, r := SortedIds(LeftoverIds(pending, left)), Leftover(pending, others, left);
    if step in r {
      var k :| 0 <= k < |r| && r[k] == step;
      LeftoverAt(pending, others, left, k);
    }
    if id :| id in pending && pending[id] == step { LeftoverHas(pending, others, left, MoveId(id)); }
    if x :| x in left && others[x] == step { LeftoverHas(pending, others, left, x); }
  }

  lemma LeftoverHas(pending: map<string, Step>, others: map<StepId, Step>, left: set<StepId>, x: StepId)
    requires left <= others.Keys && (forall x :: x in left ==> !x.MoveId?) && x in LeftoverIds(pending, left)
    ensures (if x.MoveId? then pending[x.building] else others[x]) in Leftover(pending, others, left)
  {
    var names := SortedIds(LeftoverIds(pending, left));
    var k :| 0 <= k < |names| && names[k] == x;
    LeftoverAt(pending, others, left, k);
  }

  lemma LeftoverAscends(pending: map<string, Step>, others: map<StepId, Step>, left: set<StepId>, i: nat, j: nat)
    requires left <= others.Keys && forall x :: x in left ==> !x.MoveId? && others[x].id == x
    requires forall id :: id in pending ==> pending[id].id == MoveId(id)
    requires i < j < |Leftover(pending, others, left)|
    ensures ComesFirst(Leftover(pending, others, left)[i].id.Text(), Leftover(pending, others, left)[j].id.Text())
  {
    var names := SortedIds(LeftoverIds(pending, left));
    SortedIdsAscend(LeftoverIds(pending, left));
    LeftoverAt(pending, others, left, i);
    LeftoverAt(pending, others, left, j);
    assert IdLess(names[i], names[j]);
    LexLessExactly(names[i].Text(), names[j].Text());
  }

  predicate UnknownMover(original: City, target: City, pending: map<string, Step>) {
    exists id :: id in pending && (!Known(original, id) || !Known(target, id))
  }

  /** How `resolve` answers, told by the loop's trace and the road steps picked after it. */
  ghost predicate Answers(original: City, plan: JointPlan, cp: ConstructionPlan, r: Resolution,
                          trace: seq<StagingState>, tail: seq<Step>, left: set<StepId>)
  {
    var prefix := PrefixReplay(original, cp.ordered);
    if UnresolvedMoves(cp.unresolved) == map[] then r == Resolved(cp, [])
    else if UnknownMover(original, plan.result, UnresolvedMoves(cp.unresolved))
      then r == Raises(MapRejected(UnknownBuilding))
    else if prefix.Failure? then r == Raises(prefix.error)
    else
      var env := StagingEnv(original, plan, prefix.value);
      && trace != [] && Traces(env, trace, StartState(cp, prefix.value), trace[|trace| - 1])
      && var end := trace[|trace| - 1];
         if r.RunsForever? then Stutters(env, end)
         else
           && Halted(env, end) && TailOf(OtherSteps(cp.unresolved), end.completed, tail, left)
           && r == Resolved(ConstructionPlan(end.resolved + tail,
                                             Leftover(end.pending, OtherSteps(cp.unresolved), left)),
                            end.points)
  }

  lemma CoherentIsAimed(original: City, plan: JointPlan, cp: ConstructionPlan, city: City, id: string)
    requires Coherent(original, plan.result, cp) && id in UnresolvedMoves(cp.unresolved)
    requires Known(original, id) && Known(plan.result, id)
    ensures AimedMove(StagingEnv(original, plan, city), id, UnresolvedMoves(cp.unresolved)[id])
  {
    assert AimedMove(Env(original, plan.result, original), id, UnresolvedMoves(cp.unresolved)[id]);
  }

  lemma StartIsSound(original: City, plan: JointPlan, cp: ConstructionPlan, city: City)
    requires original.Valid() && plan.result.Valid() && Coherent(original, plan.result, cp)
    requires SameCatalog(original, city) && city.Valid()
    requires !UnknownMover(original, plan.result, UnresolvedMoves(cp.unresolved))
    ensures Sound(StagingEnv(original, plan, city), StartState(cp, city))
  {
    var s := StartState(cp, city);
    SameIds(original, city);
    forall id | id in s.pending ensures id in s.pos && AimedMove(StagingEnv(original, plan, city), id, s.pending[id]) {
      CoherentIsAimed(original, plan, cp, city, id);
      KnownIsListed(original.buildings, id);
    }
    CityIsApart(original, city);
  }

  lemma SameIds(a: City, b: City)
    requires SameCatalog(a, b)
    ensures Ids(a.buildings) == Ids(b.buildings)
  {
    assert forall i :: 0 <= i < |a.buildings| ==> a.buildings[i].spec.id == b.buildings[i].spec.id;
  }

  lemma KnownIsListed(bs: seq<Building>, id: string)
    requires IndexOf(bs, id).Some?
    ensures id in Ids(bs)
  {
    assert bs[IndexOf(bs, id).value].spec.id == id;
  }

  lemma CityIsApart(original: City, city: City)
    requires original.Valid() && city.Valid() && SameCatalog(original, city)
    ensures Apart(original, PositionsOf(city))
  {
    var pos := PositionsOf(city);
    SameIds(original, city);
    forall a, b | a in pos && b in pos && a != b ensures At(original, b, pos[b]) !! At(original, a, pos[a]) {
      var i :| 0 <= i < |city.buildings| && city.buildings[i].spec.id == a;
      var j :| 0 <= j < |city.buildings| && city.buildings[j].spec.id == b;
      CityCells(original, city, i);
      CityCells(original, city, j);
      TargetsDisjoint(city, i, j);
    }
  }

  lemma CityCells(original: City, city: City, i: nat)
    requires UniqueIds(original.buildings) && UniqueIds(city.buildings) && SameCatalog(original, city)
      && i < |city.buildings|
    ensures var id := city.buildings[i].spec.id;
      id in Ids(city.buildings) && At(original, id, PositionsOf(city)[id]) == city.buildings[i].Footprint()
  {
    IndexOfUnique(original.buildings, i);
    IndexOfUnique(city.buildings, i);
    assert original.buildings[i].(origin := city.buildings[i].origin) == city.buildings[i];
  }

  method Resolve(original: City, plan: JointPlan, cp: ConstructionPlan)
    returns (r: Resolution, ghost trace: seq<StagingState>, ghost tail: seq<Step>, ghost left: set<StepId>)
    requires original.Valid() && plan.result.Valid() && Coherent(original, plan.result, cp)
    ensures Answers(original, plan, cp, r, trace, tail, left)
    ensures exists t, u, l :: Answers(original, plan, cp, r, t, u, l)
  {
    trace, tail, left := [], [], {};
    var pending := UnresolvedMoves(cp.unresolved);
    if pending == map[] {
      r := Resolved(cp, []);
      assert Answers(original, plan, cp, r, trace, tail, left);
      return;
    }
    if UnknownMover(original, plan.result, pending) {
      r := Raises(MapRejected(UnknownBuilding));
      assert Answers(original, plan, cp, r, trace, tail, left);
      return;
    }
    var prefix := ReplayPrefix(original, cp.ordered);
    if prefix.Failure? {
      r := Raises(prefix.error);
      assert Answers(original, plan, cp, r, trace, tail, left);
      return;
    }
    PrefixReplayKeeps(original, cp.ordered);
    StartIsSound(original, plan, cp, prefix.value);
    var end, forever;
    end, forever, trace := StageAll(StagingEnv(original, plan, prefix.value), StartState(cp, prefix.value));
    if forever {
      r := RunsForever;
      assert Answers(original, plan, cp, r, trace, tail, left);
      return;
    }
    var others := OtherSteps(cp.unresolved);
    var picked, remaining := PickRoads(others, end.completed);
    tail, left := picked, remaining;
    r := Resolved(ConstructionPlan(end.resolved + picked, Leftover(end.pending, others, remaining)), end.points);
    assert Answers(original, plan, cp, r, trace, tail, left);
  }
}
