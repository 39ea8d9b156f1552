/** Merging locally scanned tiles into one city map. */
module MapMerge {
  import opened Wrappers
  import opened Orders
  import opened CityMap
  import opened Identity

  /** A scanned viewport and where it lies in the whole map. */
  datatype Tile = Tile(origin: Point, city: City)

  datatype MergeError = NoTiles | OutOfBounds | Disagree | Inconsistent

  function Shift(p: Point, offset: Point): Point {
    Point(p.x + offset.x, p.y + offset.y)
  }

  function ShiftAll(ps: set<Point>, offset: Point): set<Point> {
    set p | p in ps :: Shift(p, offset)
  }

  function TaggedId(prefix: string, origin: Point): string {
    prefix + ['@'] + PlaceText(origin)
  }

  function PlaceText(p: Point): string {
    IntText(p.x) + [','] + IntText(p.y)
  }

  /** The building in global coordinates, named after its catalog prefix and place. */
  function Translate(b: Building, offset: Point): Building {
    var o := Shift(b.origin, offset);
    Building(b.spec.(id := TaggedId(CatalogKey(b.spec.id), o)), o)
  }

  predicate TileFits(width: int, height: int, t: Tile) {
    t.origin.x >= 0 && t.origin.y >= 0 && t.origin.x + t.city.width <= width && t.origin.y + t.city.height <= height
  }

  /** Two detections are taken for the same building. */
  predicate Agree(a: Building, b: Building) {
    CatalogKey(a.spec.id) == CatalogKey(b.spec.id) && a.spec.kind == b.spec.kind && a.Footprint() == b.Footprint()
  }

  function Shown(t: Tile): (r: seq<Building>)
    ensures |r| == |t.city.buildings|
  {
    seq(|t.city.buildings|, i requires 0 <= i < |t.city.buildings| => Translate(t.city.buildings[i], t.origin))
  }

  /** Every building any tile shows, in scan order. */
  function Detections(tiles: seq<Tile>): seq<Building> {
    if tiles == [] then [] else Detections(tiles[..|tiles| - 1]) + Shown(tiles[|tiles| - 1])
  }

  function Roads(tiles: seq<Tile>): set<Point> {
    set t, p | t in tiles && p in ShiftAll(t.city.roads, t.origin) :: p
  }

  function Blocked(tiles: seq<Tile>): set<Point> {
    set t, p | t in tiles && p in ShiftAll(t.city.blocked, t.origin) :: p
  }

  lemma {:induction false} DetectedIffShown(tiles: seq<Tile>, d: Building)
    ensures d in Detections(tiles) <==> exists t :: t in tiles && d in Shown(t)
  {
    if tiles != [] {
      var n := |tiles| - 1;
      DetectedIffShown(tiles[..n], d);
      assert tiles == tiles[..n] + [tiles[n]];
    }
  }

  // ---- Names -------------------------------------------------------------------------

  lemma {:induction false} KeyHasNoAt(id: string)
    ensures '@' !in CatalogKey(id)
  {
    if id != "" && id[0] != '@' { KeyHasNoAt(id[1..]); }
  }

  lemma {:induction false} KeyOfTagged(prefix: string, rest: string)
    requires '@' !in prefix
    ensures CatalogKey(prefix + ['@'] + rest) == prefix
  {
    var id := prefix + ['@'] + rest;
    if prefix != "" {
      assert id[1..] == prefix[1..] + ['@'] + rest;
      KeyOfTagged(prefix[1..], rest);
    }
  }

  /** Translation keeps the catalog prefix. */
  lemma TranslateKeepsKey(b: Building, offset: Point)
    ensures CatalogKey(Translate(b, offset).spec.id) == CatalogKey(b.spec.id)
  {
    KeyHasNoAt(b.spec.id);
    KeyOfTagged(CatalogKey(b.spec.id), PlaceText(Shift(b.origin, offset)));
  }

  lemma PlaceTextInjective(a: Point, b: Point)
    requires PlaceText(a) == PlaceText(b)
    ensures a == b
  {
    CutAtFirst(IntText(a.x), IntText(a.y), IntText(b.x), IntText(b.y), ',');
    IntTextInjective(a.x, b.x);
    IntTextInjective(a.y, b.y);
  }

  /** A generated id tells the prefix and the place. */
  lemma TaggedIdInjective(p: string, a: Point, q: string, b: Point)
    requires '@' !in p && '@' !in q && TaggedId(p, a) == TaggedId(q, b)
    ensures p == q && a == b
  {
    CutAtFirst(p, PlaceText(a), q, PlaceText(b), '@');
    PlaceTextInjective(a, b);
  }

  /** How translation leaves a building: a legal spec named after prefix and place. */
  ghost predicate Tagged(b: Building) {
    b.spec.Valid() && b.spec.id == TaggedId(CatalogKey(b.spec.id), b.origin)
  }

  lemma TranslatedIsTagged(b: Building, offset: Point)
    requires b.spec.Valid()
    ensures Tagged(Translate(b, offset))
  {
    TranslateKeepsKey(b, offset);
    var id := Translate(b, offset).spec.id;
    assert id[|CatalogKey(b.spec.id)|] == '@';
    assert '@' in id && !IsSpace('@');
  }

  lemma SameIdSamePlace(a: Building, b: Building)
    requires Tagged(a) && Tagged(b) && a.spec.id == b.spec.id
    ensures a.origin == b.origin
  {
    KeyHasNoAt(a.spec.id);
    KeyHasNoAt(b.spec.id);
    TaggedIdInjective(CatalogKey(a.spec.id), a.origin, CatalogKey(b.spec.id), b.origin);
  }

  /** Agreeing detections stand on the same cells, so they bear the same id. */
  lemma AgreeSameId(a: Building, b: Building)
    requires Tagged(a) && Tagged(b) && Agree(a, b)
    ensures a.spec.id == b.spec.id
  {
    assert a.origin in a.Footprint() && b.origin in b.Footprint();
  }

  // ---- Gathering ---------------------------------------------------------------------

  ghost predicate Apart(bs: seq<Building>) {
    forall i, j {:trigger Disjoint(bs[i], bs[j])} :: 0 <= i < j < |bs| ==> Disjoint(bs[i], bs[j])
  }

  ghost predicate Represented(bs: seq<Building>, d: Building) {
    exists k {:trigger bs[k]} :: 0 <= k < |bs| && Agree(bs[k], d)
  }

  /** `accepted` keeps one of every kind of detection in `seen`. */
  ghost predicate Gathered(accepted: seq<Building>, seen: seq<Building>) {
    && Apart(accepted)
    && (forall a {:trigger a in seen} :: a in accepted ==> a in seen)
    && (forall d {:trigger Represented(accepted, d)} :: d in seen ==> Represented(accepted, d))
  }

  /** The first detection of every kind, in scan order. */
  ghost function Kept(seen: seq<Building>): seq<Building> {
    if seen == [] then []
    else
      var n := |seen| - 1;
      Kept(seen[..n]) + if Represented(Kept(seen[..n]), seen[n]) then [] else [seen[n]]
  }

  lemma KeptPush(seen: seq<Building>, d: Building)
    ensures Kept(seen + [d]) == Kept(seen) + if Represented(Kept(seen), d) then [] else [d]
  {
    assert (seen + [d])[..|seen|] == seen;
  }

  /** Two detections overlap without agreeing. */
  ghost predicate Clash(a: Building, b: Building) {
    !Disjoint(a, b) && !Agree(a, b)
  }

  ghost predicate ClashAmong(seen: seq<Building>) {
    exists a, b :: a in seen && b in seen && Clash(a, b)
  }

  /** Detections gathered without conflict never clash. */
  lemma GatheredNoClash(accepted: seq<Building>, seen: seq<Building>)
    requires Gathered(accepted, seen)
    ensures !ClashAmong(seen)
  {
    forall a, b | a in seen && b in seen ensures !Clash(a, b) {
      assert Represented(accepted, a) && Represented(accepted, b);
      var i :| 0 <= i < |accepted| && Agree(accepted[i], a);
      var j :| 0 <= j < |accepted| && Agree(accepted[j], b);
      if i != j { assert Disjoint(accepted[if i < j then i else j], accepted[if i < j then j else i]); }
    }
  }

  lemma ClashSpreads(some: seq<Building>, all: seq<Building>)
    requires ClashAmong(some) && forall d :: d in some ==> d in all
    ensures ClashAmong(all)
  {
    var a, b :| a in some && b in some && Clash(a, b);
    assert a in all && b in all;
  }

  method FindDuplicate(accepted: seq<Building>, candidate: Building) returns (found: bool)
    ensures found <==> Represented(accepted, candidate)
  {
    for i := 0 to |accepted|
      invariant !Represented(accepted[..i], candidate)
    {
      if Agree(accepted[i], candidate) { return true; }
      assert accepted[..i + 1] == accepted[..i] + [accepted[i]];
    }
    assert accepted[..|accepted|] == accepted;
    return false;
  }

  /** `i` is the first of them that shares a cell with the candidate. */
  ghost predicate FirstOverlap(accepted: seq<Building>, candidate: Building, i: int) {
    0 <= i < |accepted| && !Disjoint(accepted[i], candidate) && forall k ::
      0 <= k < i ==> Disjoint(accepted[k], candidate)
  }

  method FindOverlap(accepted: seq<Building>, candidate: Building) returns (found: Option<Building>)
    ensures found.Some? ==> exists i :: FirstOverlap(accepted, candidate, i) && found.value == accepted[i]
    ensures found.None? ==> forall a :: a in accepted ==> Disjoint(a, candidate)
  {
    for i := 0 to |accepted|
      invariant forall k :: 0 <= k < i ==> Disjoint(accepted[k], candidate)
    {
      if !(accepted[i].Footprint() !! candidate.Footprint()) {
        assert FirstOverlap(accepted, candidate, i);
        return Some(accepted[i]);
      }
    }
    return None;
  }

  lemma KeepsDuplicate(accepted: seq<Building>, seen: seq<Building>, d: Building)
    requires Gathered(accepted, seen) && Represented(accepted, d)
    ensures Gathered(accepted, seen + [d])
  {
  }

  lemma KeepsNew(accepted: seq<Building>, seen: seq<Building>, d: Building)
    requires Gathered(accepted, seen) && forall a :: a in accepted ==> Disjoint(a, d)
    ensures Gathered(accepted + [d], seen + [d])
  {
    var more := accepted + [d];
    assert Agree(more[|accepted|], d);
    forall e | e in seen + [d] ensures Represented(more, e) {
      if e in seen {
        assert Represented(accepted, e);
        var k :| 0 <= k < |accepted| && Agree(accepted[k], e);
        assert Agree(more[k], e);
      }
    }
    forall i, j | 0 <= i < j < |more| ensures Disjoint(more[i], more[j]) {
      if j < |accepted| { assert Disjoint(accepted[i], accepted[j]); }
      else { assert more[i] in accepted; }
    }
  }

  lemma OverlapClashes(accepted: seq<Building>, seen: seq<Building>, a: Building, d: Building)
    requires Gathered(accepted, seen) && a in accepted && !Disjoint(a, d) && !Represented(accepted, d)
    ensures ClashAmong(seen + [d])
  {
    var k :| 0 <= k < |accepted| && accepted[k] == a;
    assert !Agree(accepted[k], d);
    assert a in seen + [d] && d in seen + [d] && Clash(a, d);
  }

  /** Takes in one detection, unless it clashes with one taken before. */
  method Absorb(accepted: seq<Building>, ghost seen: seq<Building>, d: Building) returns (r: Option<seq<Building>>)
    requires Gathered(accepted, seen) && accepted == Kept(seen)
    ensures r.Some? ==> Gathered(r.value, seen + [d]) && r.value == Kept(seen + [d])
    ensures r.None? ==> ClashAmong(seen + [d])
  {
    KeptPush(seen, d);
    var duplicate := FindDuplicate(accepted, d);
    if duplicate {
      KeepsDuplicate(accepted, seen, d);
      return Some(accepted);
    }
    var conflict := FindOverlap(accepted, d);
    if conflict.Some? {
      OverlapClashes(accepted, seen, conflict.value, d);
      return None;
    }
    KeepsNew(accepted, seen, d);
    return Some(accepted + [d]);
  }

  method AbsorbTile(accepted: seq<Building>, ghost seen: seq<Building>, t: Tile) returns (r: Option<seq<Building>>)
    requires Gathered(accepted, seen) && accepted == Kept(seen)
    ensures r.Some? ==> Gathered(r.value, seen + Shown(t)) && r.value == Kept(seen + Shown(t))
    ensures r.None? ==> ClashAmong(seen + Shown(t))
  {
    var now := accepted;
    assert seen + Shown(t)[..0] == seen;
    for i := 0 to |t.city.buildings|
      invariant Gathered(now, seen + Shown(t)[..i]) && now == Kept(seen + Shown(t)[..i])
    {
      ShownPush(seen, t, i);
      var next := Absorb(now, seen + Shown(t)[..i], Translate(t.city.buildings[i], t.origin));
      if next.None? { return None; }
      now := next.value;
    }
    assert Shown(t)[..|t.city.buildings|] == Shown(t);
    return Some(now);
  }

  lemma ShownPush(seen: seq<Building>, t: Tile, i: nat)
    requires i < |t.city.buildings|
    ensures seen + Shown(t)[..i + 1] == seen + Shown(t)[..i] + [Translate(t.city.buildings[i], t.origin)]
    ensures ClashAmong(seen + Shown(t)[..i + 1]) ==> ClashAmong(seen + Shown(t))
  {
    assert Shown(t)[..i + 1] == Shown(t)[..i] + [Shown(t)[i]];
    if ClashAmong(seen + Shown(t)[..i + 1]) { ClashSpreads(seen + Shown(t)[..i + 1], seen + Shown(t)); }
  }

  // ---- The merge ---------------------------------------------------------------------

  ghost predicate AllFit(width: int, height: int, tiles: seq<Tile>) {
    forall t :: t in tiles ==> TileFits(width, height, t)
  }

  /** A detection stands on a road or a blocked cell some tile shows. */
  ghost predicate OnTerrain(tiles: seq<Tile>) {
    exists d :: d in Detections(tiles) && !(d.Footprint() !! Roads(tiles) + Blocked(tiles))
  }

  /** What stops the scan: the first tile that does not fit or brings a clash. */
  ghost function GatherError(width: int, height: int, tiles: seq<Tile>): Option<MergeError> {
    if tiles == [] then None
    else
      var n := |tiles| - 1;
      match GatherError(width, height, tiles[..n])
      case Some(e) => Some(e)
      case None =>
        if !TileFits(width, height, tiles[n]) then Some(OutOfBounds)
        else if ClashAmong(Detections(tiles)) then Some(Disagree)
        else None
  }

  /** The error a merge raises, if any. */
  ghost function ErrorOf(width: int, height: int, tiles: seq<Tile>): Option<MergeError> {
    if tiles == [] then Some(NoTiles)
    else if GatherError(width, height, tiles).Some? then GatherError(width, height, tiles)
    else if OnTerrain(tiles) then Some(Inconsistent)
    else None
  }

  /** Exactly when tiles can be merged. */
  ghost predicate Mergeable(width: int, height: int, tiles: seq<Tile>) {
    tiles != [] && AllFit(width, height, tiles) && !ClashAmong(Detections(tiles)) && !OnTerrain(tiles)
  }

  /** The merged map: all terrain, and one building for every kind of detection. */
  ghost predicate Merged(width: int, height: int, tiles: seq<Tile>, c: City) {
    && c.width == width && c.height == height && c.roads == Roads(tiles) && c.blocked == Blocked(tiles)
    && Gathered(c.buildings, Detections(tiles))
  }

  /** Scanned cities are legal maps. */
  ghost predicate LegalTiles(tiles: seq<Tile>) {
    forall t {:trigger t.city.Valid()} :: t in tiles ==> t.city.Valid()
  }

  lemma TerrainPush(tiles: seq<Tile>, n: nat)
    requires n < |tiles|
    ensures Roads(tiles[..n + 1]) == Roads(tiles[..n]) + ShiftAll(tiles[n].city.roads, tiles[n].origin)
    ensures Blocked(tiles[..n + 1]) == Blocked(tiles[..n]) + ShiftAll(tiles[n].city.blocked, tiles[n].origin)
  {
    assert tiles[..n + 1] == tiles[..n] + [tiles[n]];
  }

  lemma DetectionsPush(tiles: seq<Tile>, n: nat)
    requires n < |tiles|
    ensures Detections(tiles[..n + 1]) == Detections(tiles[..n]) + Shown(tiles[n])
    ensures forall d :: d in Detections(tiles[..n + 1]) ==> d in Detections(tiles)
  {
    assert tiles[..n + 1][..n] == tiles[..n];
    forall d | d in Detections(tiles[..n + 1]) ensures d in Detections(tiles) {
      DetectedIffShown(tiles[..n + 1], d);
      DetectedIffShown(tiles, d);
    }
  }

  /**
   The merge succeeds exactly when every tile lies inside the map, no two detections clash
   and none stands on merged terrain; then the map is legal and complete and keeps the first
   detection of every building. Otherwise the first trouble in scan order decides the error.
   */
  method Merge(width: int, height: int, tiles: seq<Tile>) returns (r: Result<City, MergeError>)
    requires width > 0 && height > 0 && LegalTiles(tiles)
    ensures r.Success? <==> Mergeable(width, height, tiles)
    ensures r.Success? ==> r.value.Valid() && Merged(width, height, tiles, r.value)
    ensures r.Success? ==> r.value.buildings == Kept(Detections(tiles))
    ensures r.Failure? ==> ErrorOf(width, height, tiles) == Some(r.error)
    ensures r.Success? ==> ErrorOf(width, height, tiles) == None
  {
    if tiles == [] { return Failure(NoTiles); }
    NoGatherError(width, height, tiles);
    var gathered := Gather(width, height, tiles);
    if gathered.Failure? { return gathered; }
    var city := gathered.value;
    GatheredNoClash(city.buildings, Detections(tiles));
    GatheredNames(tiles, city.buildings);
    MergedIsLegal(width, height, tiles, city);
    var legal := IsLegal(city);
    return if legal then Success(city) else Failure(Inconsistent);
  }

  /** Later tiles do not change the error. */
  lemma {:induction false} ErrorStays(width: int, height: int, tiles: seq<Tile>, n: nat)
    requires n <= |tiles| && GatherError(width, height, tiles[..n]).Some?
    ensures GatherError(width, height, tiles) == GatherError(width, height, tiles[..n])
  {
    if n < |tiles| {
      assert tiles[..|tiles| - 1][..n] == tiles[..n];
      ErrorStays(width, height, tiles[..|tiles| - 1], n);
    } else {
      assert tiles[..n] == tiles;
    }
  }

  /** A scan without trouble is one in which every tile fits and no two detections clash. */
  lemma {:induction false} NoGatherError(width: int, height: int, tiles: seq<Tile>)
    ensures GatherError(width, height, tiles) == None <==>
      AllFit(width, height, tiles) && !ClashAmong(Detections(tiles))
    ensures GatherError(width, height, tiles) == Some(Disagree) ==> ClashAmong(Detections(tiles))
    ensures GatherError(width, height, tiles) == Some(OutOfBounds) ==> !AllFit(width, height, tiles)
    ensures GatherError(width, height, tiles) in {None, Some(Disagree), Some(OutOfBounds)}
  {
    if tiles != [] {
      var n := |tiles| - 1;
      NoGatherError(width, height, tiles[..n]);
      assert tiles == tiles[..n] + [tiles[n]];
      DetectionsPush(tiles, n);
      assert tiles[..n + 1] == tiles;
      if ClashAmong(Detections(tiles[..n])) { ClashSpreads(Detections(tiles[..n]), Detections(tiles)); }
    }
  }

  /** The terrain and the buildings of all tiles, not yet checked against each other. */
  method Gather(width: int, height: int, tiles: seq<Tile>) returns (r: Result<City, MergeError>)
    ensures r.Success? ==> AllFit(width, height, tiles) && Merged(width, height, tiles, r.value)
    ensures r.Success? ==> r.value.buildings == Kept(Detections(tiles)) && GatherError(width, height, tiles) == None
    ensures r.Failure? ==> GatherError(width, height, tiles) == Some(r.error)
  {
    var roads: set<Point>, blocked: set<Point>, accepted: seq<Building> := {}, {}, [];
    for n := 0 to |tiles|
      invariant roads == Roads(tiles[..n]) && blocked == Blocked(tiles[..n])
      invariant Gathered(accepted, Detections(tiles[..n])) && accepted == Kept(Detections(tiles[..n]))
      invariant GatherError(width, height, tiles[..n]) == None
    {
      var next := GatherTile(width, height, tiles, n, accepted);
      if next.Failure? {
        ErrorStays(width, height, tiles, n + 1);
        return Failure(next.error);
      }
      TerrainPush(tiles, n);
      roads := roads + ShiftAll(tiles[n].city.roads, tiles[n].origin);
      blocked := blocked + ShiftAll(tiles[n].city.blocked, tiles[n].origin);
      accepted := next.value;
    }
    assert tiles[..|tiles|] == tiles;
    NoGatherError(width, height, tiles);
    return Success(City(width, height, roads, blocked, accepted));
  }

  /** Takes in the buildings of the next tile. */
  method GatherTile(width: int, height: int, tiles: seq<Tile>, n: nat, accepted: seq<Building>)
    returns (r: Result<seq<Building>, MergeError>)
    requires n < |tiles| && GatherError(width, height, tiles[..n]) == None
    requires Gathered(accepted, Detections(tiles[..n])) && accepted == Kept(Detections(tiles[..n]))
    ensures r.Failure? ==> GatherError(width, height, tiles[..n + 1]) == Some(r.error)
    ensures r.Success? ==> GatherError(width, height, tiles[..n + 1]) == None
    ensures r.Success? ==> Gathered(r.value, Detections(tiles[..n + 1])) && r.value == Kept(Detections(tiles[..n + 1]))
  {
    assert tiles[..n + 1][..n] == tiles[..n];
    if !TileFits(width, height, tiles[n]) { return Failure(OutOfBounds); }
    assert Detections(tiles[..n + 1]) == Detections(tiles[..n]) + Shown(tiles[n]);
    var next := AbsorbTile(accepted, Detections(tiles[..n]), tiles[n]);
    if next.None? { return Failure(Disagree); }
    GatheredNoClash(next.value, Detections(tiles[..n + 1]));
    return Success(next.value);
  }

  /** The final check can only fail on terrain. */
  lemma MergedIsLegal(width: int, height: int, tiles: seq<Tile>, c: City)
    requires width > 0 && height > 0 && LegalTiles(tiles) && AllFit(width, height, tiles)
    requires Merged(width, height, tiles, c)
    ensures c.Valid() <==> !OnTerrain(tiles)
  {
    TerrainInBounds(width, height, tiles, c);
    GatheredNames(tiles, c.buildings);
    if !OnTerrain(tiles) {
      forall i | 0 <= i < |c.buildings| ensures c.Fits(c.buildings[i]) {
        FitsOffTerrain(width, height, tiles, c, i);
      }
    } else {
      TerrainNeverFits(width, height, tiles, c);
    }
  }

  lemma TerrainNeverFits(width: int, height: int, tiles: seq<Tile>, c: City)
    requires Merged(width, height, tiles, c) && OnTerrain(tiles)
    ensures !c.Valid()
  {
    var d :| d in Detections(tiles) && !(d.Footprint() !! Roads(tiles) + Blocked(tiles));
    assert Represented(c.buildings, d);
    var k :| 0 <= k < |c.buildings| && Agree(c.buildings[k], d);
    assert !c.Fits(c.buildings[k]);
  }

  lemma TerrainInBounds(width: int, height: int, tiles: seq<Tile>, c: City)
    requires LegalTiles(tiles) && AllFit(width, height, tiles) && Merged(width, height, tiles, c)
    ensures forall p :: p in c.roads + c.blocked ==> c.InBounds(p)
  {
    forall p | p in c.roads + c.blocked ensures c.InBounds(p) {
      var t :| t in tiles && p in ShiftAll(t.city.roads, t.origin) + ShiftAll(t.city.blocked, t.origin);
      assert t.city.Valid() && TileFits(width, height, t);
    }
  }

  lemma DetectedIsTagged(tiles: seq<Tile>, d: Building)
    requires LegalTiles(tiles) && d in Detections(tiles)
    ensures Tagged(d)
  {
    DetectedIffShown(tiles, d);
    var t :| t in tiles && d in Shown(t);
    var i :| 0 <= i < |Shown(t)| && Shown(t)[i] == d;
    assert t.city.Valid() && t.city.buildings[i].spec.Valid();
    TranslatedIsTagged(t.city.buildings[i], t.origin);
  }

  lemma GatheredNames(tiles: seq<Tile>, accepted: seq<Building>)
    requires LegalTiles(tiles) && Gathered(accepted, Detections(tiles))
    ensures UniqueIds(accepted) && forall i :: 0 <= i < |accepted| ==> Tagged(accepted[i])
  {
    forall i | 0 <= i < |accepted| ensures Tagged(accepted[i]) {
      assert accepted[i] in accepted;
      DetectedIsTagged(tiles, accepted[i]);
    }
    forall i, j | 0 <= i < j < |accepted| ensures accepted[i].spec.id != accepted[j].spec.id {
      assert Disjoint(accepted[i], accepted[j]);
      assert accepted[i].origin in accepted[i].Footprint() && accepted[j].origin in accepted[j].Footprint();
      if accepted[i].spec.id == accepted[j].spec.id { SameIdSamePlace(accepted[i], accepted[j]); }
    }
  }

  lemma ShownInBounds(width: int, height: int, t: Tile, i: nat, p: Point)
    requires t.city.Valid() && TileFits(width, height, t) && i < |t.city.buildings|
    requires p in Shown(t)[i].Footprint()
    ensures 0 <= p.x < width && 0 <= p.y < height
  {
    var q := Point(p.x - t.origin.x, p.y - t.origin.y);
    assert t.city.Fits(t.city.buildings[i]);
    assert q in t.city.buildings[i].Footprint();
  }

  lemma FitsOffTerrain(width: int, height: int, tiles: seq<Tile>, c: City, i: nat)
    requires LegalTiles(tiles) && AllFit(width, height, tiles) && !OnTerrain(tiles)
    requires Merged(width, height, tiles, c) && i < |c.buildings|
    ensures c.Fits(c.buildings[i])
  {
    var d := c.buildings[i];
    assert d in c.buildings;
    assert d in Detections(tiles);
    DetectedIffShown(tiles, d);
    var t :| t in tiles && d in Shown(t);
    var k :| 0 <= k < |Shown(t)| && Shown(t)[k] == d;
    assert t.city.Valid() && TileFits(width, height, t);
    forall p | p in d.Footprint() ensures c.InBounds(p) { ShownInBounds(width, height, t, k, p); }
  }

  // ---- What the tile order cannot change ---------------------------------------------

  ghost predicate SameTiles(a: seq<Tile>, b: seq<Tile>) {
    forall t :: t in a <==> t in b
  }

  lemma SameDetections(a: seq<Tile>, b: seq<Tile>)
    requires SameTiles(a, b)
    ensures forall d :: d in Detections(a) <==> d in Detections(b)
    ensures Roads(a) == Roads(b) && Blocked(a) == Blocked(b)
  {
    forall d ensures d in Detections(a) <==> d in Detections(b) {
      DetectedIffShown(a, d);
      DetectedIffShown(b, d);
    }
  }

  /** Whether tiles merge does not depend on their order or repetition. */
  lemma MergeableInAnyOrder(width: int, height: int, a: seq<Tile>, b: seq<Tile>)
    requires SameTiles(a, b)
    ensures Mergeable(width, height, a) <==> Mergeable(width, height, b)
  {
    SameDetections(a, b);
    assert a == [] <==> b == [] by {
      if a != [] { assert a[0] in b; }
      if b != [] { assert b[0] in a; }
    }
  }

  /** A detection is represented by exactly one building of the merged map. */
  lemma RepresentedOnce(width: int, height: int, tiles: seq<Tile>, c: City, d: Building, i: nat, j: nat)
    requires Merged(width, height, tiles, c) && LegalTiles(tiles)
    requires d in Detections(tiles) && i < |c.buildings| && j < |c.buildings|
    requires Agree(c.buildings[i], d) && Agree(c.buildings[j], d)
    ensures i == j
  {
    DetectedIsTagged(tiles, d);
    assert d.origin in d.Footprint();
    ApartFrom(c.buildings, i);
    assert d.origin in c.buildings[i].Footprint() && d.origin in c.buildings[j].Footprint();
  }

  lemma ApartFrom(bs: seq<Building>, i: nat)
    requires Apart(bs) && i < |bs|
    ensures forall k {:trigger bs[k]} :: 0 <= k < |bs| && k != i ==> Disjoint(bs[i], bs[k])
  {
    forall k | 0 <= k < |bs| && k != i ensures Disjoint(bs[i], bs[k]) {
      assert Disjoint(bs[if i < k then i else k], bs[if i < k then k else i]);
    }
  }

  /** Both maps hold, building for building, the same prefixes, kinds, cells and ids. */
  ghost predicate SameCity(c: City, e: City) {
    && c.width == e.width && c.height == e.height && c.roads == e.roads && c.blocked == e.blocked
    && |c.buildings| == |e.buildings|
    && (forall b {:trigger Represented(e.buildings, b)} :: b in c.buildings ==> Represented(e.buildings, b))
    && (forall b {:trigger Represented(c.buildings, b)} :: b in e.buildings ==> Represented(c.buildings, b))
    && Ids(c.buildings) == Ids(e.buildings)
  }

  lemma IdsCarryOver(tiles: seq<Tile>, from: seq<Building>, to: seq<Building>, seen: seq<Building>, id: string)
    requires LegalTiles(tiles) && Gathered(from, Detections(tiles)) && Gathered(to, seen)
    requires (forall d :: d in seen <==> d in Detections(tiles)) && id in Ids(from)
    ensures id in Ids(to)
  {
    var i :| 0 <= i < |from| && from[i].spec.id == id;
    assert from[i] in from;
    assert from[i] in seen;
    assert Represented(to, from[i]);
    var k :| 0 <= k < |to| && Agree(to[k], from[i]);
    assert to[k] in to;
    assert to[k] in seen;
    DetectedIsTagged(tiles, from[i]);
    DetectedIsTagged(tiles, to[k]);
    AgreeSameId(to[k], from[i]);
  }

  lemma SameSizeByIds(a: seq<Building>, b: seq<Building>)
    requires UniqueIds(a) && UniqueIds(b) && Ids(a) == Ids(b)
    ensures |a| == |b|
  {
    IdsCount(a);
    IdsCount(b);
  }

  /** The merged map does not depend on the order of the tiles. */
  lemma SameCityInAnyOrder(width: int, height: int, a: seq<Tile>, b: seq<Tile>, c: City, e: City)
    requires SameTiles(a, b) && LegalTiles(a) && LegalTiles(b)
    requires Merged(width, height, a, c) && Merged(width, height, b, e)
    ensures SameCity(c, e)
  {
    SameDetections(a, b);
    forall id ensures id in Ids(c.buildings) <==> id in Ids(e.buildings) {
      if id in Ids(c.buildings) { IdsCarryOver(a, c.buildings, e.buildings, Detections(b), id); }
      if id in Ids(e.buildings) { IdsCarryOver(b, e.buildings, c.buildings, Detections(a), id); }
    }
    GatheredNames(a, c.buildings);
    GatheredNames(b, e.buildings);
    SameSizeByIds(c.buildings, e.buildings);
    forall d | d in c.buildings ensures Represented(e.buildings, d) { assert d in Detections(a); }
    forall d | d in e.buildings ensures Represented(c.buildings, d) { assert d in Detections(b); }
  }
}
