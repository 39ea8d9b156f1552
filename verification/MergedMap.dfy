/** What a merge of tiles comes to, told cell by cell in the coordinates of the tiles. */
module MergedMap {
  import opened Orders
  import opened CityMap
  import opened Coordinates
  import opened Identity
  import opened MapMerge

  /** Building `i` of the tile where it stands in the whole map. */
  ghost function InWhole(t: Tile, i: int): Building
    requires 0 <= i < |t.city.buildings|
  {
    var b := t.city.buildings[i];
    Building(b.spec, Point(t.origin.x + b.origin.x, t.origin.y + b.origin.y))
  }

  /** The tile's own cell under cell `p` of the whole map. */
  ghost function InTile(t: Tile, p: Point): Point {
    Point(p.x - t.origin.x, p.y - t.origin.y)
  }

  /** Same prefix, kind, place and size: one and the same building. */
  ghost predicate SameSite(a: Building, b: Building) {
    && SamePrefix(a.spec.id, b.spec.id) && a.spec.kind == b.spec.kind && a.origin == b.origin
    && a.spec.width == b.spec.width && a.spec.height == b.spec.height
  }

  /** The id is the detector's prefix, an '@' and the place in the whole map. */
  ghost predicate NamedAfter(id: string, scanned: string, origin: Point) {
    exists n: nat :: PrefixEnds(scanned, n)
                     && id == scanned[..n] + "@" + IntText(origin.x) + "," + IntText(origin.y)
  }

  /** `d` is building `i` of the tile, moved into the whole map and named after its prefix and place. */
  ghost predicate Depicts(t: Tile, i: int, d: Building)
    requires 0 <= i < |t.city.buildings|
  {
    && d == InWhole(t, i).(spec := InWhole(t, i).spec.(id := d.spec.id))
    && NamedAfter(d.spec.id, t.city.buildings[i].spec.id, d.origin)
  }

  lemma ShownDepicts(t: Tile, i: nat)
    requires i < |t.city.buildings|
    ensures Depicts(t, i, Shown(t)[i])
  {
    var b := t.city.buildings[i];
    var key := CatalogKey(b.spec.id);
    CatalogKeyIsPrefix(b.spec.id);
    var o := Shown(t)[i].origin;
    assert key + ['@'] + (IntText(o.x) + [','] + IntText(o.y)) == key + "@" + IntText(o.x) + "," + IntText(o.y);
    assert PrefixEnds(b.spec.id, |key|) && b.spec.id[..|key|] == key;
  }

  /** Equal rectangles have equal corners. */
  lemma SameCellsSameSite(a: Building, b: Building)
    requires a.spec.Valid() && b.spec.Valid()
    ensures a.Footprint() == b.Footprint() <==>
      a.origin == b.origin && a.spec.width == b.spec.width && a.spec.height == b.spec.height
  {
    if a.Footprint() == b.Footprint() {
      CornersInside(a, b);
      CornersInside(b, a);
    }
    if a.origin == b.origin && a.spec.width == b.spec.width && a.spec.height == b.spec.height {
      assert forall p :: a.Covers(p) <==> b.Covers(p);
      assert forall p :: p in a.Footprint() <==> p in b.Footprint();
    }
  }

  lemma CornersInside(a: Building, b: Building)
    requires a.spec.Valid() && a.Footprint() <= b.Footprint()
    ensures Inside(b, a.origin)
    ensures Inside(b, Point(a.origin.x + a.spec.width - 1, a.origin.y + a.spec.height - 1))
  {
    var corner := Point(a.origin.x + a.spec.width - 1, a.origin.y + a.spec.height - 1);
    assert a.origin in a.Footprint() && corner in a.Footprint();
    FootprintIsInside(b, a.origin);
    FootprintIsInside(b, corner);
  }

  /** Two detections are one building exactly when prefix, kind, place and size agree. */
  lemma AgreeExactly(a: Building, b: Building)
    requires a.spec.Valid() && b.spec.Valid()
    ensures Agree(a, b) <==> SameSite(a, b)
  {
    CatalogKeyExactly(a.spec.id, b.spec.id);
    SameCellsSameSite(a, b);
  }

  lemma ShownSite(t: Tile, i: nat, u: Tile, j: nat)
    requires i < |t.city.buildings| && j < |u.city.buildings|
    requires t.city.buildings[i].spec.Valid() && u.city.buildings[j].spec.Valid()
    ensures Agree(Shown(t)[i], Shown(u)[j]) <==> SameSite(InWhole(t, i), InWhole(u, j))
    ensures Disjoint(Shown(t)[i], Shown(u)[j]) <==> forall p :: !(Inside(InWhole(t, i), p) && Inside(InWhole(u, j), p))
  {
    var a, b := t.city.buildings[i], u.city.buildings[j];
    TranslatedIsTagged(a, t.origin);
    TranslatedIsTagged(b, u.origin);
    AgreeExactly(Shown(t)[i], Shown(u)[j]);
    TranslateKeepsKey(a, t.origin);
    TranslateKeepsKey(b, u.origin);
    CatalogKeyExactly(Shown(t)[i].spec.id, Shown(u)[j].spec.id);
    CatalogKeyExactly(a.spec.id, b.spec.id);
    DisjointIsNoSharedCell(Shown(t)[i], Shown(u)[j]);
    assert forall p :: Inside(Shown(t)[i], p) <==> Inside(InWhole(t, i), p);
    assert forall p :: Inside(Shown(u)[j], p) <==> Inside(InWhole(u, j), p);
  }

  // ---- When tiles merge --------------------------------------------------------------

  ghost predicate WithinMap(width: int, height: int, t: Tile) {
    0 <= t.origin.x && 0 <= t.origin.y && t.origin.x <= width - t.city.width && t.origin.y <= height - t.city.height
  }

  /** No two tiles show different buildings on one cell. */
  ghost predicate NoQuarrel(tiles: seq<Tile>) {
    forall t, u, i, j, p {:trigger Inside(InWhole(t, i), p), Inside(InWhole(u, j), p)} ::
      t in tiles && u in tiles && 0 <= i < |t.city.buildings| && 0 <= j < |u.city.buildings|
        && Inside(InWhole(t, i), p) && Inside(InWhole(u, j), p) ==>
        SameSite(InWhole(t, i), InWhole(u, j))
  }

  /** No tile shows a building where one shows a road or a blocked cell. */
  ghost predicate OffTerrain(tiles: seq<Tile>) {
    forall t, u, i, p {:trigger Inside(InWhole(t, i), p), InTile(u, p)} ::
      t in tiles && u in tiles && 0 <= i < |t.city.buildings| && Inside(InWhole(t, i), p) ==>
        InTile(u, p) !in u.city.roads && InTile(u, p) !in u.city.blocked
  }

  lemma RoadsExactly(tiles: seq<Tile>, p: Point)
    ensures p in MapMerge.Roads(tiles) <==> exists t :: t in tiles && InTile(t, p) in t.city.roads
    ensures p in MapMerge.Blocked(tiles) <==> exists t :: t in tiles && InTile(t, p) in t.city.blocked
  {
    if p in MapMerge.Roads(tiles) {
      var t :| t in tiles && p in ShiftAll(t.city.roads, t.origin);
      ShiftedExactly(t.city.roads, t, p);
    }
    if t :| t in tiles && InTile(t, p) in t.city.roads { ShiftedExactly(t.city.roads, t, p); }
    if p in MapMerge.Blocked(tiles) {
      var t :| t in tiles && p in ShiftAll(t.city.blocked, t.origin);
      ShiftedExactly(t.city.blocked, t, p);
    }
    if t :| t in tiles && InTile(t, p) in t.city.blocked { ShiftedExactly(t.city.blocked, t, p); }
  }

  lemma ShiftedExactly(ps: set<Point>, t: Tile, p: Point)
    ensures p in ShiftAll(ps, t.origin) <==> InTile(t, p) in ps
  {
    if InTile(t, p) in ps { assert Shift(InTile(t, p), t.origin) == p; }
  }

  lemma DetectionIsShown(tiles: seq<Tile>, d: Building) returns (t: Tile, i: nat)
    requires d in Detections(tiles)
    ensures t in tiles && i < |t.city.buildings| && d == Shown(t)[i]
  {
    DetectedIffShown(tiles, d);
    t :| t in tiles && d in Shown(t);
    i :| 0 <= i < |Shown(t)| && Shown(t)[i] == d;
  }

  lemma ShownIsDetected(tiles: seq<Tile>, t: Tile, i: nat)
    requires t in tiles && i < |t.city.buildings|
    ensures Shown(t)[i] in Detections(tiles)
  {
    DetectedIffShown(tiles, Shown(t)[i]);
  }

  lemma SpecOfTile(tiles: seq<Tile>, t: Tile, i: nat)
    requires LegalTiles(tiles) && t in tiles && i < |t.city.buildings|
    ensures t.city.buildings[i].spec.Valid()
  {
    assert t.city.Valid();
  }

  lemma NoClashExactly(tiles: seq<Tile>)
    requires LegalTiles(tiles)
    ensures ClashAmong(Detections(tiles)) <==> !NoQuarrel(tiles)
  {
    if ClashAmong(Detections(tiles)) {
      var a, b :| a in Detections(tiles) && b in Detections(tiles) && Clash(a, b);
      var t, i := DetectionIsShown(tiles, a);
      var u, j := DetectionIsShown(tiles, b);
      SpecOfTile(tiles, t, i);
      SpecOfTile(tiles, u, j);
      ShownSite(t, i, u, j);
      var p :| Inside(InWhole(t, i), p) && Inside(InWhole(u, j), p);
      assert !SameSite(InWhole(t, i), InWhole(u, j));
    }
    if !NoQuarrel(tiles) {
      var t, u, i, j, p :|
        t in tiles && u in tiles && 0 <= i < |t.city.buildings| && 0 <= j < |u.city.buildings|
        && Inside(InWhole(t, i), p) && Inside(InWhole(u, j), p) && !SameSite(InWhole(t, i), InWhole(u, j));
      SpecOfTile(tiles, t, i);
      SpecOfTile(tiles, u, j);
      ShownSite(t, i, u, j);
      ShownIsDetected(tiles, t, i);
      ShownIsDetected(tiles, u, j);
      assert Clash(Shown(t)[i], Shown(u)[j]);
    }
  }

  lemma OffTerrainExactly(tiles: seq<Tile>)
    ensures OnTerrain(tiles) <==> !OffTerrain(tiles)
  {
    if OnTerrain(tiles) {
      var d :| d in Detections(tiles) && !(d.Footprint() !! MapMerge.Roads(tiles) + MapMerge.Blocked(tiles));
      var p :| p in d.Footprint() && p in MapMerge.Roads(tiles) + MapMerge.Blocked(tiles);
      var t, i := DetectionIsShown(tiles, d);
      RoadsExactly(tiles, p);
      var u :| u in tiles && (InTile(u, p) in u.city.roads || InTile(u, p) in u.city.blocked);
      assert Inside(InWhole(t, i), p);
    }
    if !OffTerrain(tiles) {
      var t, u, i, p :|
        t in tiles && u in tiles && 0 <= i < |t.city.buildings| && Inside(InWhole(t, i), p)
        && (InTile(u, p) in u.city.roads || InTile(u, p) in u.city.blocked);
      RoadsExactly(tiles, p);
      ShownIsDetected(tiles, t, i);
      assert p in Shown(t)[i].Footprint();
    }
  }

  /**
   Tiles merge exactly when there are some, each lies within the map, no two show different
   buildings on one cell, and none shows a building on a road or a blocked cell of any.
   */
  lemma MergeableExactly(width: int, height: int, tiles: seq<Tile>)
    requires LegalTiles(tiles)
    ensures Mergeable(width, height, tiles) <==>
      tiles != [] && (forall t :: t in tiles ==> WithinMap(width, height, t)) && NoQuarrel(tiles) && OffTerrain(tiles)
  {
    NoClashExactly(tiles);
    OffTerrainExactly(tiles);
    assert AllFit(width, height, tiles) <==> forall t :: t in tiles ==> WithinMap(width, height, t);
  }

  // ---- What the merged map shows -----------------------------------------------------

  ghost predicate DepictsSome(tiles: seq<Tile>, d: Building) {
    exists t, i {:trigger InWhole(t, i)} :: t in tiles && 0 <= i < |t.city.buildings| && Depicts(t, i, d)
  }

  ghost predicate HasSite(c: City, b: Building) {
    exists k {:trigger c.buildings[k]} :: 0 <= k < |c.buildings| && SameSite(c.buildings[k], b)
  }

  /**
   The merged map has a road, and a blocked cell, exactly where some tile shows one; each of
   its buildings is one that some tile shows; and each that a tile shows has its site there.
   */
  lemma MergedExactly(width: int, height: int, tiles: seq<Tile>, c: City)
    requires LegalTiles(tiles) && Merged(width, height, tiles, c)
    ensures forall p :: p in c.roads <==> exists t :: t in tiles && InTile(t, p) in t.city.roads
    ensures forall p :: p in c.blocked <==> exists t :: t in tiles && InTile(t, p) in t.city.blocked
    ensures forall k {:trigger c.buildings[k]} :: 0 <= k < |c.buildings| ==> DepictsSome(tiles, c.buildings[k])
    ensures forall t, i {:trigger InWhole(t, i)} :: t in tiles && 0 <= i < |t.city.buildings| ==>
      HasSite(c, InWhole(t, i))
  {
    forall p ensures p in c.roads <==> exists t :: t in tiles && InTile(t, p) in t.city.roads {
      RoadsExactly(tiles, p);
    }
    forall p ensures p in c.blocked <==> exists t :: t in tiles && InTile(t, p) in t.city.blocked {
      RoadsExactly(tiles, p);
    }
    forall k | 0 <= k < |c.buildings| ensures DepictsSome(tiles, c.buildings[k]) {
      assert c.buildings[k] in c.buildings;
      var t, i := DetectionIsShown(tiles, c.buildings[k]);
      ShownDepicts(t, i);
      assert Depicts(t, i, c.buildings[k]) && InWhole(t, i) == InWhole(t, i);
    }
    forall t, i | t in tiles && 0 <= i < |t.city.buildings| ensures HasSite(c, InWhole(t, i)) {
      HasItsSite(width, height, tiles, c, t, i);
    }
  }

  lemma HasItsSite(width: int, height: int, tiles: seq<Tile>, c: City, t: Tile, i: nat)
    requires LegalTiles(tiles) && Merged(width, height, tiles, c) && t in tiles && i < |t.city.buildings|
    ensures HasSite(c, InWhole(t, i))
  {
    ShownIsDetected(tiles, t, i);
    assert Represented(c.buildings, Shown(t)[i]);
    var k :| 0 <= k < |c.buildings| && Agree(c.buildings[k], Shown(t)[i]);
    assert c.buildings[k] in c.buildings;
    DetectedIsTagged(tiles, c.buildings[k]);
    DetectedIsTagged(tiles, Shown(t)[i]);
    AgreeExactly(c.buildings[k], Shown(t)[i]);
    TranslateKeepsKey(t.city.buildings[i], t.origin);
    CatalogKeyExactly(c.buildings[k].spec.id, Shown(t)[i].spec.id);
    CatalogKeyExactly(c.buildings[k].spec.id, t.city.buildings[i].spec.id);
    assert SameSite(c.buildings[k], InWhole(t, i));
  }
}
