/** What the order of the tiles decides: which error a failing merge raises, and whose spec a building keeps. */
module MergeOrder {
  import opened Wrappers
  import opened CityMap
  import opened Identity
  import opened MapMerge

  /** The same tiles, each as often, in another order. */
  ghost predicate Reordered(a: seq<Tile>, b: seq<Tile>) {
    multiset(a) == multiset(b)
  }

  lemma ReorderedSame(a: seq<Tile>, b: seq<Tile>)
    requires Reordered(a, b)
    ensures SameTiles(a, b) && |a| == |b|
  {
    forall t ensures t in a <==> t in b { assert t in multiset(a) <==> t in multiset(b); }
    assert |multiset(a)| == |multiset(b)|;
  }

  // ---- Errors ------------------------------------------------------------------------

  function Fitting(width: int, height: int, tiles: seq<Tile>): (r: seq<Tile>)
    ensures forall t :: t in r <==> t in tiles && TileFits(width, height, t)
  {
    if tiles == [] then []
    else
      var n := |tiles| - 1;
      assert tiles == tiles[..n] + [tiles[n]];
      Fitting(width, height, tiles[..n]) + if TileFits(width, height, tiles[n]) then [tiles[n]] else []
  }

  function Misfits(width: int, height: int, tiles: seq<Tile>): (r: seq<Tile>)
    ensures forall t :: t in r <==> t in tiles && !TileFits(width, height, t)
  {
    if tiles == [] then []
    else
      var n := |tiles| - 1;
      assert tiles == tiles[..n] + [tiles[n]];
      Misfits(width, height, tiles[..n]) + if TileFits(width, height, tiles[n]) then [] else [tiles[n]]
  }

  lemma {:induction false} SortedByFit(width: int, height: int, tiles: seq<Tile>)
    ensures multiset(Fitting(width, height, tiles)) + multiset(Misfits(width, height, tiles)) == multiset(tiles)
  {
    if tiles != [] {
      var n := |tiles| - 1;
      assert tiles == tiles[..n] + [tiles[n]];
      SortedByFit(width, height, tiles[..n]);
    }
  }

  /** Some two tiles that fit show detections that clash. */
  ghost predicate FittingClash(width: int, height: int, tiles: seq<Tile>) {
    ClashAmong(Detections(Fitting(width, height, tiles)))
  }

  lemma ClashFollowsTiles(some: seq<Tile>, all: seq<Tile>)
    requires ClashAmong(Detections(some)) && forall t :: t in some ==> t in all
    ensures ClashAmong(Detections(all))
  {
    forall d | d in Detections(some) ensures d in Detections(all) {
      DetectedIffShown(some, d);
      DetectedIffShown(all, d);
    }
    ClashSpreads(Detections(some), Detections(all));
  }

  lemma ClashOfFitting(width: int, height: int, tiles: seq<Tile>)
    requires AllFit(width, height, tiles) && ClashAmong(Detections(tiles))
    ensures FittingClash(width, height, tiles)
  {
    ClashFollowsTiles(tiles, Fitting(width, height, tiles));
  }

  lemma FittingClashSpreads(width: int, height: int, some: seq<Tile>, all: seq<Tile>)
    requires FittingClash(width, height, some) && forall t :: t in some ==> t in all
    ensures FittingClash(width, height, all)
  {
    ClashFollowsTiles(Fitting(width, height, some), Fitting(width, height, all));
  }

  /** The scan reports a clash only between tiles that fit. */
  lemma {:induction false} DisagreeMeansClash(width: int, height: int, tiles: seq<Tile>)
    requires GatherError(width, height, tiles) == Some(Disagree)
    ensures FittingClash(width, height, tiles)
  {
    var front := tiles[..|tiles| - 1];
    if GatherError(width, height, front) == Some(Disagree) {
      DisagreeMeansClash(width, height, front);
      FittingClashSpreads(width, height, front, tiles);
    } else {
      ClashFoundLast(width, height, tiles);
    }
  }

  lemma ClashFoundLast(width: int, height: int, tiles: seq<Tile>)
    requires GatherError(width, height, tiles) == Some(Disagree)
    requires GatherError(width, height, tiles[..|tiles| - 1]) != Some(Disagree)
    ensures FittingClash(width, height, tiles)
  {
    var front := tiles[..|tiles| - 1];
    NoGatherError(width, height, front);
    assert TileFits(width, height, tiles[|tiles| - 1]) && ClashAmong(Detections(tiles));
    AllFitPush(width, height, front, tiles[|tiles| - 1]);
    assert tiles == front + [tiles[|tiles| - 1]];
    ClashOfFitting(width, height, tiles);
  }

  lemma AllFitPush(width: int, height: int, front: seq<Tile>, t: Tile)
    requires AllFit(width, height, front) && TileFits(width, height, t)
    ensures AllFit(width, height, front + [t])
  {
  }

  /** Fitting tiles first: the scan stops at a clash. */
  lemma FittingFirst(width: int, height: int, tiles: seq<Tile>)
    requires FittingClash(width, height, tiles)
    ensures var b := Fitting(width, height, tiles) + Misfits(width, height, tiles);
      Reordered(tiles, b) && b != [] && ErrorOf(width, height, b) == Some(Disagree)
  {
    var f, m := Fitting(width, height, tiles), Misfits(width, height, tiles);
    SortedByFit(width, height, tiles);
    NoGatherError(width, height, f);
    assert (f + m)[..|f|] == f;
    ErrorStays(width, height, f + m, |f|);
  }

  /** Misfits first: the scan stops at once. */
  lemma MisfitsFirst(width: int, height: int, tiles: seq<Tile>)
    requires !AllFit(width, height, tiles)
    ensures var b := Misfits(width, height, tiles) + Fitting(width, height, tiles);
      Reordered(tiles, b) && ErrorOf(width, height, b) == Some(OutOfBounds)
  {
    var f, m := Fitting(width, height, tiles), Misfits(width, height, tiles);
    SortedByFit(width, height, tiles);
    assert m != [] by {
      var t :| t in tiles && !TileFits(width, height, t);
      assert t in m;
    }
    assert m[0] in m;
    assert (m + f)[..1] == [m[0]] && [m[0]][..0] == [];
    assert GatherError(width, height, [m[0]]) == Some(OutOfBounds);
    ErrorStays(width, height, m + f, 1);
  }

  /** The error in any order, where it cannot differ. */
  lemma ErrorIsFixed(width: int, height: int, a: seq<Tile>, b: seq<Tile>)
    requires Reordered(a, b)
    requires AllFit(width, height, a) || !FittingClash(width, height, a)
    ensures ErrorOf(width, height, a) == ErrorOf(width, height, b)
  {
    ReorderedSame(a, b);
    SameDetections(a, b);
    NoGatherError(width, height, a);
    NoGatherError(width, height, b);
    assert ClashAmong(Detections(a)) == ClashAmong(Detections(b));
    if !AllFit(width, height, a) {
      if GatherError(width, height, a) == Some(Disagree) { DisagreeMeansClash(width, height, a); }
      if GatherError(width, height, b) == Some(Disagree) {
        DisagreeMeansClash(width, height, b);
        ClashFollowsTiles(Fitting(width, height, b), Fitting(width, height, a));
      }
    }
  }

  /**
   Which error a merge raises depends on the order of the tiles exactly when some tile does
   not fit into the map and, among those that do, two detections clash.
   */
  lemma ErrorDependsOnOrder(width: int, height: int, tiles: seq<Tile>)
    ensures (exists b, c ::
      Reordered(tiles, b) && Reordered(tiles, c) && ErrorOf(width, height, b) != ErrorOf(width, height, c)) <==>
      !AllFit(width, height, tiles) && FittingClash(width, height, tiles)
  {
    if !AllFit(width, height, tiles) && FittingClash(width, height, tiles) {
      FittingFirst(width, height, tiles);
      MisfitsFirst(width, height, tiles);
      var b := Fitting(width, height, tiles) + Misfits(width, height, tiles);
      var c := Misfits(width, height, tiles) + Fitting(width, height, tiles);
      assert Reordered(tiles, b) && Reordered(tiles, c);
    } else {
      forall b, c | Reordered(tiles, b) && Reordered(tiles, c)
        ensures ErrorOf(width, height, b) == ErrorOf(width, height, c)
      {
        ErrorIsFixed(width, height, tiles, b);
        ErrorIsFixed(width, height, tiles, c);
      }
    }
  }

  // ---- Specs -------------------------------------------------------------------------

  ghost function BuildingSet(bs: seq<Building>): set<Building> {
    set b | b in bs
  }

  /** Detections taken for the same building are equal in every field. */
  ghost predicate AgreementIsEquality(seen: seq<Building>) {
    forall d, e {:trigger Agree(d, e)} :: d in seen && e in seen && Agree(d, e) ==> d == e
  }

  lemma {:induction false} KeptFacts(seen: seq<Building>)
    ensures forall d :: d in Kept(seen) ==> d in seen
    ensures forall i, j :: 0 <= i < j < |Kept(seen)| ==> !Agree(Kept(seen)[i], Kept(seen)[j])
    ensures forall d {:trigger Represented(Kept(seen), d)} :: d in seen ==> Represented(Kept(seen), d)
  {
    if seen != [] {
      var n := |seen| - 1;
      KeptFacts(seen[..n]);
      assert seen == seen[..n] + [seen[n]];
      var k := Kept(seen[..n]);
      forall d | d in seen ensures Represented(Kept(seen), d) {
        if d in seen[..n] {
          assert Represented(k, d);
          var i :| 0 <= i < |k| && Agree(k[i], d);
          assert Kept(seen)[i] == k[i];
        } else if Represented(k, seen[n]) {
          assert Kept(seen) == k && d == seen[n];
        } else {
          assert Kept(seen)[|k|] == d;
        }
      }
    }
  }

  lemma KeptGrows(seen: seq<Building>, all: seq<Building>)
    requires seen <= all
    ensures Kept(seen) <= Kept(all)
  {
    KeptStays(seen, all[|seen|..]);
    assert all == seen + all[|seen|..];
  }

  lemma {:induction false} KeptStays(seen: seq<Building>, more: seq<Building>)
    ensures Kept(seen) <= Kept(seen + more)
  {
    if more != [] {
      var n := |more| - 1;
      KeptStays(seen, more[..n]);
      assert (seen + more)[..|seen| + n] == seen + more[..n];
    } else {
      assert seen + more == seen;
    }
  }

  /** Where agreement is equality, everything detected is kept. */
  lemma AllKept(seen: seq<Building>)
    requires AgreementIsEquality(seen)
    ensures BuildingSet(Kept(seen)) == BuildingSet(seen)
  {
    KeptFacts(seen);
    forall d | d in seen ensures d in Kept(seen) {
      assert Represented(Kept(seen), d);
      var k :| 0 <= k < |Kept(seen)| && Agree(Kept(seen)[k], d);
      assert Kept(seen)[k] in Kept(seen);
    }
  }

  /** The buildings of one tile never agree. */
  lemma ShownApart(t: Tile, i: nat, j: nat)
    requires t.city.Valid() && i < |t.city.buildings| && j < |t.city.buildings| && i != j
    ensures !Agree(Shown(t)[i], Shown(t)[j])
  {
    var a, b := t.city.buildings[i], t.city.buildings[j];
    assert Disjoint(t.city.buildings[if i < j then i else j], t.city.buildings[if i < j then j else i]);
    assert a.spec.Valid();
    assert a.origin in a.Footprint() && a.origin !in b.Footprint();
    assert Shown(t)[i].origin in Shown(t)[i].Footprint();
    assert Shown(t)[i].origin !in Shown(t)[j].Footprint();
  }

  lemma {:induction false} ShownIsKept(t: Tile, n: nat)
    requires t.city.Valid() && n <= |t.city.buildings|
    ensures Kept(Shown(t)[..n]) == Shown(t)[..n]
  {
    if n > 0 {
      ShownIsKept(t, n - 1);
      assert Shown(t)[..n] == Shown(t)[..n - 1] + [Shown(t)[n - 1]];
      KeptPush(Shown(t)[..n - 1], Shown(t)[n - 1]);
      var before := Shown(t)[..n - 1];
      forall k | 0 <= k < |before| ensures !Agree(before[k], Shown(t)[n - 1]) { ShownApart(t, k, n - 1); }
    }
  }

  lemma {:induction false} DetectionsFront(t: Tile, rest: seq<Tile>)
    ensures Shown(t) <= Detections([t] + rest)
  {
    if rest == [] {
      assert [t] + rest == [t] && [t][..0] == [];
      assert Detections([t]) == [] + Shown(t);
    } else {
      var n := |rest| - 1;
      DetectionsFront(t, rest[..n]);
      assert ([t] + rest)[..n + 1] == [t] + rest[..n];
    }
  }

  /** The tile scanned first keeps all its buildings as it shows them. */
  lemma FirstTileKept(t: Tile, rest: seq<Tile>, d: Building)
    requires t.city.Valid() && d in Shown(t)
    ensures d in Kept(Detections([t] + rest))
  {
    DetectionsFront(t, rest);
    ShownIsKept(t, |t.city.buildings|);
    assert Shown(t)[..|t.city.buildings|] == Shown(t);
    KeptGrows(Shown(t), Detections([t] + rest));
  }

  lemma ToFront(tiles: seq<Tile>, t: Tile) returns (rest: seq<Tile>)
    requires t in tiles
    ensures Reordered(tiles, [t] + rest)
  {
    var k :| 0 <= k < |tiles| && tiles[k] == t;
    rest := tiles[..k] + tiles[k + 1..];
    assert tiles == tiles[..k] + [t] + tiles[k + 1..];
  }

  /** Of two different detections that agree each is kept in some order, but never both. */
  lemma KeepsEither(tiles: seq<Tile>, d: Building, e: Building) returns (b: seq<Tile>, c: seq<Tile>)
    requires LegalTiles(tiles) && d in Detections(tiles) && e in Detections(tiles) && Agree(d, e) && d != e
    ensures Reordered(tiles, b) && Reordered(tiles, c)
    ensures d in Kept(Detections(b)) && e !in Kept(Detections(b)) && e in Kept(Detections(c))
  {
    DetectedIffShown(tiles, d);
    DetectedIffShown(tiles, e);
    var t :| t in tiles && d in Shown(t);
    var u :| u in tiles && e in Shown(u);
    assert t.city.Valid() && u.city.Valid();
    var rest := ToFront(tiles, t);
    var others := ToFront(tiles, u);
    b, c := [t] + rest, [u] + others;
    FirstTileKept(t, rest, d);
    FirstTileKept(u, others, e);
    OneOfThem(Detections(b), d, e);
  }

  lemma OneOfThem(seen: seq<Building>, d: Building, e: Building)
    requires Agree(d, e) && d != e && d in Kept(seen)
    ensures e !in Kept(seen)
  {
    KeptFacts(seen);
    var i :| 0 <= i < |Kept(seen)| && Kept(seen)[i] == d;
    forall j | 0 <= j < |Kept(seen)| ensures Kept(seen)[j] != e {
      if i < j { assert !Agree(Kept(seen)[i], Kept(seen)[j]); }
      if j < i { assert !Agree(Kept(seen)[j], Kept(seen)[i]); }
    }
  }

  /**
   The buildings of the merged map depend on the order of the tiles exactly when two
   detections taken for the same building differ in some field of their specs.
   */
  lemma BuildingsDependOnOrder(tiles: seq<Tile>)
    requires LegalTiles(tiles)
    ensures (forall b, c :: Reordered(tiles, b) && Reordered(tiles, c) ==>
               BuildingSet(Kept(Detections(b))) == BuildingSet(Kept(Detections(c)))) <==>
      AgreementIsEquality(Detections(tiles))
  {
    if AgreementIsEquality(Detections(tiles)) {
      forall b | Reordered(tiles, b) ensures BuildingSet(Kept(Detections(b))) == BuildingSet(Detections(tiles)) {
        ReorderedSame(tiles, b);
        SameDetections(tiles, b);
        AllKept(Detections(b));
      }
    } else {
      var d, e :| d in Detections(tiles) && e in Detections(tiles) && Agree(d, e) && d != e;
      var b, c := KeepsEither(tiles, d, e);
      assert e in BuildingSet(Kept(Detections(c))) && e !in BuildingSet(Kept(Detections(b)));
    }
  }

  // ---- Two orders --------------------------------------------------------------------

  /** A viewport of one cell with one building, at `origin` of the whole map. */
  function OneCellTile(id: string, population: int, origin: Point): Tile {
    var spec := BuildingSpec(id, Residential, 1, 1, population, 0, 0, 0.0, 0.0, true);
    Tile(origin, City(1, 1, {}, {}, [Building(spec, Point(0, 0))]))
  }

  lemma OneCellCells(b: Building)
    requires b.spec.width == 1 && b.spec.height == 1
    ensures b.Footprint() == {b.origin}
  {
  }

  lemma OneCellShown(t: Tile)
    requires |t.city.buildings| == 1 && t.city.buildings[0].spec.width == t.city.buildings[0].spec.height == 1
    requires t.city.buildings[0].origin == Point(0, 0)
    ensures var d, b := Shown(t)[0], t.city.buildings[0];
      && d.Footprint() == {t.origin} && d.spec.population == b.spec.population && d.spec.kind == b.spec.kind
      && CatalogKey(d.spec.id) == CatalogKey(b.spec.id)
  {
    TranslateKeepsKey(t.city.buildings[0], t.origin);
    OneCellCells(Translate(t.city.buildings[0], t.origin));
  }

  lemma OneCellIsValid(id: string, population: nat, origin: Point)
    requires !Blank(id)
    ensures OneCellTile(id, population, origin).city.Valid()
  {
    var c := OneCellTile(id, population, origin).city;
    assert c.buildings[0].Footprint() == {Point(0, 0)};
  }

  /** `t` shows one cell with one building. */
  ghost predicate OneCell(t: Tile, prefix: string) {
    && |t.city.buildings| == 1 && t.city.buildings[0].spec.width == t.city.buildings[0].spec.height == 1
    && t.city.buildings[0].origin == Point(0, 0) && CatalogKey(t.city.buildings[0].spec.id) == prefix
  }

  /** Two viewports that contradict each other and one off the map: the order decides which is reported. */
  lemma OrderDecidesError(width: int, height: int, a: Tile, b: Tile, off: Tile, p: string, q: string)
    requires OneCell(a, p) && OneCell(b, q) && p != q && a.origin == b.origin
    requires TileFits(width, height, a) && TileFits(width, height, b) && !TileFits(width, height, off)
    ensures ErrorOf(width, height, [a, b, off]) == Some(Disagree)
      && ErrorOf(width, height, [off, a, b]) == Some(OutOfBounds)
  {
    OneCellShown(a);
    OneCellShown(b);
    SameCellClash(Shown(a)[0], Shown(b)[0], a.origin);
    FirstOffMap(width, height, off, [a, b]);
    ClashFirst(width, height, a, b, off);
    assert [off] + [a, b] == [off, a, b];
  }

  lemma TwoErrors(p: string, q: string)
    requires !Blank(p) && !Blank(q) && CatalogKey(p) != CatalogKey(q)
    ensures
      var a, b := OneCellTile(p, 0, Point(0, 0)), OneCellTile(q, 0, Point(0, 0));
      var off := OneCellTile(p, 0, Point(5, 0));
      && a.city.Valid() && b.city.Valid() && off.city.Valid()
      && ErrorOf(2, 2, [a, b, off]) == Some(Disagree) && ErrorOf(2, 2, [off, a, b]) == Some(OutOfBounds)
  {
    var a, b, off := OneCellTile(p, 0, Point(0, 0)), OneCellTile(q, 0, Point(0, 0)), OneCellTile(p, 0, Point(5, 0));
    OneCellIsValid(p, 0, Point(0, 0));
    OneCellIsValid(q, 0, Point(0, 0));
    OneCellIsValid(p, 0, Point(5, 0));
    OrderDecidesError(2, 2, a, b, off, CatalogKey(p), CatalogKey(q));
  }

  lemma SameCellClash(d: Building, e: Building, o: Point)
    requires d.Footprint() == e.Footprint() == {o} && CatalogKey(d.spec.id) != CatalogKey(e.spec.id)
    ensures Clash(d, e)
  {
    assert o in d.Footprint() && o in e.Footprint();
  }

  lemma FirstOffMap(width: int, height: int, off: Tile, rest: seq<Tile>)
    requires !TileFits(width, height, off)
    ensures ErrorOf(width, height, [off] + rest) == Some(OutOfBounds)
  {
    assert ([off] + rest)[..1] == [off] && [off][..0] == [];
    assert GatherError(width, height, [off]) == Some(OutOfBounds);
    ErrorStays(width, height, [off] + rest, 1);
  }

  lemma ClashFirst(width: int, height: int, a: Tile, b: Tile, last: Tile)
    requires |a.city.buildings| == 1 && |b.city.buildings| == 1 && Clash(Shown(a)[0], Shown(b)[0])
    requires TileFits(width, height, a) && TileFits(width, height, b)
    ensures ErrorOf(width, height, [a, b, last]) == Some(Disagree)
  {
    TwoDetected(a, b);
    assert Shown(a)[0] in Detections([a, b]) && Shown(b)[0] in Detections([a, b]);
    NoGatherError(width, height, [a, b]);
    assert [a, b, last][..2] == [a, b];
    ErrorStays(width, height, [a, b, last], 2);
  }

  /** Two viewports that agree on a building but not on its spec: the first one scanned counts. */
  lemma OrderDecidesSpec(width: int, height: int, a: Tile, b: Tile, p: string)
    requires OneCell(a, p) && OneCell(b, p) && a.origin == b.origin
    requires a.city.buildings[0].spec.kind == b.city.buildings[0].spec.kind
    requires TileFits(width, height, a) && TileFits(width, height, b)
    requires a.city.roads + a.city.blocked + b.city.roads + b.city.blocked == {}
    ensures Mergeable(width, height, [a, b]) && Kept(Detections([a, b])) == Shown(a)
  {
    OneCellShown(a);
    OneCellShown(b);
    TwoAlike(a, b);
    TwoMerge(width, height, a, b);
  }

  lemma TwoPopulations(p: string)
    requires !Blank(p)
    ensures var a, b := OneCellTile(p, 1, Point(0, 0)), OneCellTile(p, 2, Point(0, 0));
      && a.city.Valid() && b.city.Valid() && Mergeable(1, 1, [a, b])
      && Kept(Detections([a, b])) == Shown(a) && Kept(Detections([b, a])) == Shown(b)
      && Shown(a)[0].spec.population == 1 && Shown(b)[0].spec.population == 2
  {
    var a, b := OneCellTile(p, 1, Point(0, 0)), OneCellTile(p, 2, Point(0, 0));
    OneCellIsValid(p, 1, Point(0, 0));
    OneCellIsValid(p, 2, Point(0, 0));
    OrderDecidesSpec(1, 1, a, b, CatalogKey(p));
    OrderDecidesSpec(1, 1, b, a, CatalogKey(p));
  }

  lemma TwoDetected(a: Tile, b: Tile)
    requires |a.city.buildings| == 1 && |b.city.buildings| == 1
    ensures Detections([a, b]) == [Shown(a)[0], Shown(b)[0]]
  {
    assert [a, b][..1] == [a] && [a][..0] == [];
    assert Detections([a]) == [] + Shown(a);
    assert Shown(a) == [Shown(a)[0]] && Shown(b) == [Shown(b)[0]];
  }

  lemma TwoAlike(a: Tile, b: Tile)
    requires |a.city.buildings| == 1 && |b.city.buildings| == 1 && Agree(Shown(a)[0], Shown(b)[0])
    ensures Kept(Detections([a, b])) == Shown(a)
  {
    TwoDetected(a, b);
    var x, y := Shown(a)[0], Shown(b)[0];
    assert [x, y][..1] == [x] && [x][..0] == [];
    assert Kept([x]) == [x];
    assert Represented([x], y) by { assert Agree([x][0], y); }
    assert Kept([x, y]) == [x] == Shown(a);
  }

  lemma TwoMerge(width: int, height: int, a: Tile, b: Tile)
    requires |a.city.buildings| == 1 && |b.city.buildings| == 1 && Agree(Shown(a)[0], Shown(b)[0])
    requires TileFits(width, height, a) && TileFits(width, height, b)
    requires a.city.roads + a.city.blocked + b.city.roads + b.city.blocked == {}
    ensures Mergeable(width, height, [a, b])
  {
    TwoDetected(a, b);
    assert Roads([a, b]) == {} && Blocked([a, b]) == {};
  }
}
