/** The city map: a grid with roads, blocked cells and placed buildings. */
module CityMap {
  import opened Wrappers
  import opened Orders

  datatype Point = Point(x: int, y: int) {
    function Neighbors4(): (r: seq<Point>)
      ensures forall q :: q in r <==> Adjacent(this, q)
    {
      [Point(x - 1, y), Point(x + 1, y), Point(x, y - 1), Point(x, y + 1)]
    }
  }

  predicate Adjacent(p: Point, q: Point) {
    || (p.y == q.y && (q.x == p.x - 1 || q.x == p.x + 1))
    || (p.x == q.x && (q.y == p.y - 1 || q.y == p.y + 1))
  }

  /** Points order by column, then row. */
  predicate PointLess(p: Point, q: Point) {
    p.x < q.x || (p.x == q.x && p.y < q.y)
  }

  lemma PointStrictTotal()
    ensures StrictTotal(PointLess)
  {
  }

  /** `sorted` on a set of points. */
  function SortedPoints(s: set<Point>): (r: seq<Point>)
    ensures NoDuplicates(r) && forall p :: p in r <==> p in s
  {
    PointStrictTotal();
    Sorted(s, PointLess)
  }

  lemma SortedPointsAscend(s: set<Point>)
    ensures Ascending(SortedPoints(s), PointLess)
  {
    PointStrictTotal();
    SortedAscends(s, PointLess);
  }

  predicate RowBefore(p: Point, q: Point) {
    p.y < q.y || (p.y == q.y && p.x < q.x)
  }

  function Distance(p: Point, q: Point): nat {
    (if p.x < q.x then q.x - p.x else p.x - q.x) + (if p.y < q.y then q.y - p.y else p.y - q.y)
  }

  /** `p` sorts before `q` by distance from `from`, then row, then column. */
  predicate Closer(from: Point, p: Point, q: Point) {
    Distance(p, from) < Distance(q, from) || (Distance(p, from) == Distance(q, from) && RowBefore(p, q))
  }

  lemma CloserStrictTotal(from: Point)
    ensures StrictTotal((p: Point, q: Point) => Closer(from, p, q))
  {
  }

  datatype BuildingKind = Residential | Commercial | Industrial | Service | Park | Special

  /** The white space among the ASCII characters. */
  predicate IsSpace(c: char) {
    c == ' ' || '\t' <= c <= '\r' || '\U{1C}' <= c <= '\U{1F}'
  }

  predicate Blank(s: string) {
    forall c :: c in s ==> IsSpace(c)
  }

  /** The codes of the ASCII characters that `strip()` takes off. */
  const STRIPPED_CODES: set<int> := {9, 10, 11, 12, 13, 28, 29, 30, 31, 32}

  /** `strip()`: white space off both ends. */
  ghost function Stripped(s: string): string {
    if s == "" then ""
    else if s[0] as int in STRIPPED_CODES then Stripped(s[1..])
    else if s[|s| - 1] as int in STRIPPED_CODES then Stripped(s[..|s| - 1])
    else s
  }

  /** A blank string is one that `strip()` empties. */
  lemma {:induction false} BlankIsStripped(s: string)
    ensures Blank(s) <==> Stripped(s) == ""
    decreases |s|
  {
    SpaceCodes();
    if s != "" && s[0] as int in STRIPPED_CODES {
      BlankIsStripped(s[1..]);
      assert s == [s[0]] + s[1..];
    } else if s != "" && s[|s| - 1] as int in STRIPPED_CODES {
      BlankIsStripped(s[..|s| - 1]);
      assert s[0] in s && s[0] == s[..|s| - 1][0] && s[0] in s[..|s| - 1];
    } else if s != "" {
      assert s[0] in s;
    }
  }

  lemma SpaceCodes()
    ensures forall c :: IsSpace(c) <==> c as int in STRIPPED_CODES
  {
  }

  datatype BuildingSpec = BuildingSpec(
    id: string,
    kind: BuildingKind,
    width: int,
    height: int,
    population: int,
    serviceRadius: int,
    beautyRadius: int,
    pollution: real,
    trafficLoad: real,
    movable: bool)
  {
    predicate Valid() {
      && !Blank(id)
      && width > 0 && height > 0
      && population >= 0 && serviceRadius >= 0 && beautyRadius >= 0
      && pollution >= 0.0 && trafficLoad >= 0.0
    }
  }

  /** A spec the constructor accepts: a name that is not blank, a size, and no negative amount. */
  lemma ValidSpecExactly(s: BuildingSpec)
    ensures s.Valid() <==>
      && Stripped(s.id) != "" && !(s.width <= 0 || s.height <= 0) && !(s.population < 0)
      && !(s.serviceRadius < 0 || s.beautyRadius < 0) && !(s.pollution < 0.0 || s.trafficLoad < 0.0)
  {
    BlankIsStripped(s.id);
  }

  datatype Building = Building(spec: BuildingSpec, origin: Point) {
    predicate Covers(p: Point) {
      origin.x <= p.x < origin.x + spec.width && origin.y <= p.y < origin.y + spec.height
    }

    function Footprint(): (f: set<Point>)
      ensures forall p :: p in f <==> Covers(p)
    {
      set x, y | origin.x <= x < origin.x + spec.width && origin.y <= y < origin.y + spec.height :: Point(x, y)
    }

    /** Cell `q` touches one of the building's cells. */
    predicate Beside(q: Point) {
      exists p :: p in Footprint() && Adjacent(p, q)
    }

    predicate Touches(roads: set<Point>) {
      exists q :: q in roads && Beside(q)
    }
  }

  predicate Disjoint(a: Building, b: Building) {
    a.Footprint() !! b.Footprint()
  }

  ghost predicate UniqueIds(bs: seq<Building>) {
    forall i, j :: 0 <= i < j < |bs| ==> bs[i].spec.id != bs[j].spec.id
  }

  /** Position of the building called `id`, if there is one. */
  function IndexOf(bs: seq<Building>, id: string): (r: Option<nat>)
    ensures r.None? ==> forall i :: 0 <= i < |bs| ==> bs[i].spec.id != id
    ensures r.Some? ==> r.value < |bs| && bs[r.value].spec.id == id
  {
    if bs == [] then None
    else if bs[0].spec.id == id then Some(0)
    else
      match IndexOf(bs[1..], id)
      case None => None
      case Some(i) => Some(i + 1)
  }

  function Ids(bs: seq<Building>): (r: set<string>)
    ensures forall id :: id in r <==> exists i :: 0 <= i < |bs| && bs[i].spec.id == id
  {
    set i | 0 <= i < |bs| :: bs[i].spec.id
  }

  /** Every building named `id` put at `origin`. */
  function Relocate(bs: seq<Building>, id: string, origin: Point): (r: seq<Building>)
    ensures |r| == |bs|
  {
    seq(|bs|, i requires 0 <= i < |bs| => if bs[i].spec.id == id then bs[i].(origin := origin) else bs[i])
  }

  datatype MapError =
    | UnknownBuilding
    | NotMovable
    | InvalidDestination
    | InvalidMap

  datatype City = City(width: int, height: int, roads: set<Point>, blocked: set<Point>, buildings: seq<Building>) {
    predicate InBounds(p: Point) {
      0 <= p.x < width && 0 <= p.y < height
    }

    /** What the constructor checks of one building against the terrain. */
    ghost predicate Fits(b: Building) {
      forall p :: p in b.Footprint() ==> InBounds(p) && p !in roads && p !in blocked
    }

    /** What the constructor checks. Roads and blocked cells may coincide. */
    ghost predicate Valid() {
      && width > 0 && height > 0
      && UniqueIds(buildings)
      && (forall p :: p in roads ==> InBounds(p))
      && (forall p :: p in blocked ==> InBounds(p))
      && (forall i {:trigger buildings[i].spec.Valid()} :: 0 <= i < |buildings| ==> buildings[i].spec.Valid())
      && (forall i {:trigger Fits(buildings[i])} :: 0 <= i < |buildings| ==> Fits(buildings[i]))
      && (forall i, j {:trigger Disjoint(buildings[i], buildings[j])} :: 0 <= i < j < |buildings| ==>
            Disjoint(buildings[i], buildings[j]))
    }

    predicate RoadAccess(b: Building) {
      b.Touches(roads)
    }

    /** Roads, blocked cells and the cells of every building not called `exclude`. */
    function OccupiedCells(exclude: Option<string>): (r: set<Point>)
      ensures forall p :: p in r <==> p in roads || p in blocked || OccupiedByOther(exclude, p)
    {
      var others := set i, p | 0 <= i < |buildings| && Some(buildings[i].spec.id) != exclude
                               && p in buildings[i].Footprint() :: p;
      roads + blocked + others
    }

    predicate OccupiedByOther(exclude: Option<string>, p: Point) {
      exists i :: 0 <= i < |buildings| && Some(buildings[i].spec.id) != exclude && p in buildings[i].Footprint()
    }

    predicate CanPlace(spec: BuildingSpec, origin: Point, exclude: Option<string>, requireRoadAccess: bool) {
      var candidate := Building(spec, origin);
      && (forall p :: p in candidate.Footprint() ==> InBounds(p))
      && candidate.Footprint() !! OccupiedCells(exclude)
      && (requireRoadAccess ==> candidate.Touches(roads))
    }

    function MoveBuilding(id: string, destination: Point): Result<City, MapError> {
      match IndexOf(buildings, id)
      case None => Failure(UnknownBuilding)
      case Some(i) =>
        if !buildings[i].spec.movable then Failure(NotMovable)
        else if !CanPlace(buildings[i].spec, destination, Some(id), true) then Failure(InvalidDestination)
        else Success(this.(buildings := Relocate(buildings, id, destination)))
    }
  }

  lemma IndexOfUnique(bs: seq<Building>, i: nat)
    requires UniqueIds(bs) && i < |bs|
    ensures IndexOf(bs, bs[i].spec.id) == Some(i)
  {
    var r := IndexOf(bs, bs[i].spec.id);
    assert r.Some? && bs[r.value].spec.id == bs[i].spec.id;
  }

  lemma RelocateIsUpdate(bs: seq<Building>, i: nat, origin: Point)
    requires UniqueIds(bs) && i < |bs|
    ensures Relocate(bs, bs[i].spec.id, origin) == bs[i := bs[i].(origin := origin)]
  {
  }

  /** The map with building `i` put at `origin`. */
  function WithOrigin(c: City, i: nat, origin: Point): City
    requires i < |c.buildings|
  {
    c.(buildings := c.buildings[i := c.buildings[i].(origin := origin)])
  }

  lemma PlaceableIsValid(c: City, i: nat, origin: Point, access: bool)
    requires c.Valid() && i < |c.buildings|
    requires c.CanPlace(c.buildings[i].spec, origin, Some(c.buildings[i].spec.id), access)
    ensures WithOrigin(c, i, origin).Valid()
  {
    var moved := WithOrigin(c, i, origin);
    var b := moved.buildings[i];
    forall j | 0 <= j < |c.buildings| && j != i ensures Disjoint(b, c.buildings[j]) {
      assert forall p :: p in c.buildings[j].Footprint() ==> c.OccupiedByOther(Some(b.spec.id), p);
    }
    assert forall j :: 0 <= j < |c.buildings| ==> c.Fits(c.buildings[j]);
    assert c.Fits(b);
    assert forall j :: 0 <= j < |c.buildings| ==> moved.Fits(moved.buildings[j]);
  }

  lemma ValidIsPlaceable(c: City, i: nat, origin: Point)
    requires i < |c.buildings| && WithOrigin(c, i, origin).Valid()
    ensures c.CanPlace(c.buildings[i].spec, origin, Some(c.buildings[i].spec.id), false)
  {
    var moved := WithOrigin(c, i, origin);
    var id := c.buildings[i].spec.id;
    var b := moved.buildings[i];
    assert moved.Fits(b);
    forall p | p in b.Footprint() ensures p !in c.OccupiedCells(Some(id)) {
      forall j | 0 <= j < |c.buildings| && c.buildings[j].spec.id != id ensures p !in c.buildings[j].Footprint() {
        assert Disjoint(moved.buildings[if i < j then i else j], moved.buildings[if i < j then j else i]);
      }
    }
  }

  /**
   A move succeeds exactly when the building is known and movable, the map with the
   building at its destination is a legal map, and the building touches a road there.
   */
  lemma MoveSucceedsExactly(c: City, i: nat, destination: Point)
    requires c.Valid() && i < |c.buildings|
    ensures var r := c.MoveBuilding(c.buildings[i].spec.id, destination);
      var moved := WithOrigin(c, i, destination);
      && (r.Success? <==> c.buildings[i].spec.movable && moved.Valid() && moved.RoadAccess(moved.buildings[i]))
      && (r.Success? ==> r.value == moved)
  {
    IndexOfUnique(c.buildings, i);
    RelocateIsUpdate(c.buildings, i, destination);
    var b := c.buildings[i];
    if c.CanPlace(b.spec, destination, Some(b.spec.id), true) {
      PlaceableIsValid(c, i, destination, true);
    }
    if WithOrigin(c, i, destination).Valid() {
      ValidIsPlaceable(c, i, destination);
    }
  }

  lemma IdsOfFront(bs: seq<Building>)
    requires bs != []
    ensures Ids(bs) == Ids(bs[..|bs| - 1]) + {bs[|bs| - 1].spec.id}
  {
    var n := |bs| - 1;
    forall id | id in Ids(bs) ensures id in Ids(bs[..n]) || id == bs[n].spec.id {
      var i :| 0 <= i < |bs| && bs[i].spec.id == id;
      assert i < n ==> bs[..n][i].spec.id == id;
    }
    forall id | id in Ids(bs[..n]) ensures id in Ids(bs) {
      var i :| 0 <= i < n && bs[..n][i].spec.id == id;
      assert bs[i].spec.id == id;
    }
  }

  lemma UniqueIdsOfFront(bs: seq<Building>)
    requires bs != []
    ensures UniqueIds(bs) <==> UniqueIds(bs[..|bs| - 1]) && bs[|bs| - 1].spec.id !in Ids(bs[..|bs| - 1])
  {
    var n := |bs| - 1;
    var front := bs[..n];
    assert forall i :: 0 <= i < n ==> front[i] == bs[i];
    if UniqueIds(front) && bs[n].spec.id !in Ids(front) {
      assert forall i :: 0 <= i < n ==> front[i].spec.id != bs[n].spec.id;
    }
    if UniqueIds(bs) {
      assert forall i :: 0 <= i < n ==> front[i].spec.id != bs[n].spec.id;
    }
  }

  /** Counting the distinct ids, as the constructor does, decides uniqueness. */
  lemma {:induction false} IdsCount(bs: seq<Building>)
    ensures |Ids(bs)| <= |bs|
    ensures |Ids(bs)| == |bs| <==> UniqueIds(bs)
  {
    if bs != [] {
      var n := |bs| - 1;
      IdsCount(bs[..n]);
      IdsOfFront(bs);
      UniqueIdsOfFront(bs);
      var ids := Ids(bs[..n]);
      assert |ids + {bs[n].spec.id}| == if bs[n].spec.id in ids then |ids| else |ids| + 1 by {
        if bs[n].spec.id in ids { assert ids + {bs[n].spec.id} == ids; }
      }
    }
  }

  ghost predicate Occupies(bs: seq<Building>, cells: set<Point>) {
    forall p :: p in cells <==> exists i :: 0 <= i < |bs| && p in bs[i].Footprint()
  }

  /** The cell-by-cell check of one building against the terrain. */
  predicate BuildingFits(c: City, b: Building)
    ensures BuildingFits(c, b) <==> c.Fits(b)
  {
    forall p :: p in b.Footprint() ==> c.InBounds(p) && p !in c.roads && p !in c.blocked
  }

  /** Bounds and overlap checks of the constructor, building by building. */
  method BuildingsFit(c: City) returns (ok: bool)
    ensures ok <==>
      && (forall i :: 0 <= i < |c.buildings| ==> c.Fits(c.buildings[i]))
      && (forall i, j :: 0 <= i < j < |c.buildings| ==> Disjoint(c.buildings[i], c.buildings[j]))
  {
    var occupied: set<Point> := {};
    for n := 0 to |c.buildings|
      invariant Occupies(c.buildings[..n], occupied)
      invariant forall i :: 0 <= i < n ==> c.Fits(c.buildings[i])
      invariant forall i, j :: 0 <= i < j < n ==> Disjoint(c.buildings[i], c.buildings[j])
    {
      var b := c.buildings[n];
      OccupiedGrows(c.buildings, n, occupied);
      if !BuildingFits(c, b) { return false; }
      ClashIsOverlap(c.buildings, n, occupied);
      if b.Footprint() * occupied != {} {
        return false;
      }
      occupied := occupied + b.Footprint();
    }
    return true;
  }

  lemma ClashIsOverlap(bs: seq<Building>, n: nat, cells: set<Point>)
    requires n < |bs| && Occupies(bs[..n], cells)
    ensures bs[n].Footprint() * cells == {} <==> forall i :: 0 <= i < n ==> Disjoint(bs[i], bs[n])
  {
    assert forall i :: 0 <= i < n ==> bs[..n][i] == bs[i];
    if bs[n].Footprint() * cells != {} {
      var p :| p in bs[n].Footprint() * cells;
      var i :| 0 <= i < n && p in bs[..n][i].Footprint();
      assert !Disjoint(bs[i], bs[n]);
    } else {
      forall i | 0 <= i < n ensures Disjoint(bs[i], bs[n]) {
        forall p | p in bs[i].Footprint() ensures p !in bs[n].Footprint() {
          assert p in bs[..n][i].Footprint();
          assert p in cells && p !in bs[n].Footprint() * cells;
        }
      }
    }
  }

  lemma OccupiedGrows(bs: seq<Building>, n: nat, cells: set<Point>)
    requires n < |bs| && Occupies(bs[..n], cells)
    ensures Occupies(bs[..n + 1], cells + bs[n].Footprint())
  {
    var now := bs[..n + 1];
    forall p ensures p in cells + bs[n].Footprint() <==> exists i :: 0 <= i < |now| && p in now[i].Footprint() {
      if p in cells {
        var i :| 0 <= i < n && p in bs[..n][i].Footprint();
        assert p in now[i].Footprint();
      }
      if p in bs[n].Footprint() { assert p in now[n].Footprint(); }
      if i :| 0 <= i < n && p in now[i].Footprint() { assert p in bs[..n][i].Footprint(); }
    }
  }

  /** The constructor's checks, in its order. */
  method IsLegal(c: City) returns (ok: bool)
    requires forall i :: 0 <= i < |c.buildings| ==> c.buildings[i].spec.Valid()
    ensures ok <==> c.Valid()
  {
    if c.width <= 0 || c.height <= 0 { return false; }
    IdsCount(c.buildings);
    if |Ids(c.buildings)| != |c.buildings| { return false; }
    if exists p :: p in c.roads + c.blocked && !c.InBounds(p) { return false; }
    assert forall p :: p in c.roads || p in c.blocked ==> p in c.roads + c.blocked;
    ok := BuildingsFit(c);
  }

  ghost predicate RowByRow(s: seq<Point>) {
    forall i, j :: 0 <= i < j < |s| ==> RowBefore(s[i], s[j])
  }

  /** The legal positions of a building in row `y`, left to right. */
  method CandidatesInRow(c: City, spec: BuildingSpec, exclude: Option<string>, requireRoadAccess: bool, y: int)
    returns (row: seq<Point>)
    requires spec.Valid()
    ensures forall o: Point :: o in row <==> o.y == y && c.CanPlace(spec, o, exclude, requireRoadAccess)
    ensures RowByRow(row)
  {
    row := [];
    var x := 0;
    while x < c.width - spec.width + 1
      invariant 0 <= x
      invariant forall o: Point ::
        o in row <==> o.y == y && 0 <= o.x < x && c.CanPlace(spec, o, exclude, requireRoadAccess)
      invariant RowByRow(row)
    {
      if c.CanPlace(spec, Point(x, y), exclude, requireRoadAccess) {
        row := row + [Point(x, y)];
      }
      x := x + 1;
    }
    forall o: Point | c.CanPlace(spec, o, exclude, requireRoadAccess) ensures 0 <= o.x < x {
      OriginInRange(c, spec, o, exclude, requireRoadAccess);
    }
  }

  /** The legal positions of a building, row by row. */
  method CandidateOrigins(c: City, spec: BuildingSpec, exclude: Option<string>, requireRoadAccess: bool)
    returns (candidates: seq<Point>)
    requires spec.Valid()
    ensures forall o: Point :: o in candidates <==> c.CanPlace(spec, o, exclude, requireRoadAccess)
    ensures RowByRow(candidates)
  {
    candidates := [];
    var y := 0;
    while y < c.height - spec.height + 1
      invariant 0 <= y
      invariant forall o: Point :: o in candidates <==> 0 <= o.y < y && c.CanPlace(spec, o, exclude, requireRoadAccess)
      invariant RowByRow(candidates)
    {
      var row := CandidatesInRow(c, spec, exclude, requireRoadAccess, y);
      RowsConcatenate(candidates, row, y);
      candidates := candidates + row;
      y := y + 1;
    }
    forall o: Point | c.CanPlace(spec, o, exclude, requireRoadAccess) ensures 0 <= o.y < y {
      OriginInRange(c, spec, o, exclude, requireRoadAccess);
    }
  }

  lemma RowsConcatenate(above: seq<Point>, row: seq<Point>, y: int)
    requires RowByRow(above) && RowByRow(row)
    requires forall o :: o in above ==> o.y < y
    requires forall o :: o in row ==> o.y == y
    ensures RowByRow(above + row)
  {
    var s := above + row;
    forall i, j | 0 <= i < j < |s| ensures RowBefore(s[i], s[j]) {
      if i < |above| <= j {
        assert s[i] in above && s[j] in row;
      }
    }
  }

  lemma OriginInRange(c: City, spec: BuildingSpec, o: Point, exclude: Option<string>, access: bool)
    requires spec.Valid() && c.CanPlace(spec, o, exclude, access)
    ensures 0 <= o.x < c.width - spec.width + 1 && 0 <= o.y < c.height - spec.height + 1
  {
    var b := Building(spec, o);
    assert o in b.Footprint();
    assert Point(o.x + spec.width - 1, o.y + spec.height - 1) in b.Footprint();
  }
}
