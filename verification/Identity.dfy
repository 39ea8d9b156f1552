/** Stable building ids restored from a relabelled, reordered scan. */
module Identity {
  import opened Wrappers
  import opened CityMap

  datatype Fingerprint = Fingerprint(
    catalogKey: string,
    kind: BuildingKind,
    width: int,
    height: int,
    population: int,
    serviceRadius: int,
    beautyRadius: int,
    pollution: real,
    trafficLoad: real,
    movable: bool)

  /** The detector's prefix: everything before the first '@'. */
  function CatalogKey(id: string): string {
    if id == "" || id[0] == '@' then "" else [id[0]] + CatalogKey(id[1..])
  }

  function FingerprintOf(b: Building): Fingerprint {
    var s := b.spec;
    Fingerprint(CatalogKey(s.id), s.kind, s.width, s.height, s.population, s.serviceRadius, s.beautyRadius,
                s.pollution, s.trafficLoad, s.movable)
  }

  /** What a scan shows of a building: everything but the tag in its id. */
  type Sighting = (Fingerprint, Point)

  function Sight(b: Building): Sighting {
    (FingerprintOf(b), b.origin)
  }

  function Sights(bs: seq<Building>): (r: seq<Sighting>)
    ensures |r| == |bs|
  {
    seq(|bs|, i requires 0 <= i < |bs| => Sight(bs[i]))
  }

  function Sightings(bs: seq<Building>): multiset<Sighting> {
    multiset(Sights(bs))
  }

  /** The previous buildings, in order, with the declared moves made. */
  function Expected(bs: seq<Building>, moves: map<string, Point>): (r: seq<Building>)
    ensures |r| == |bs|
  {
    seq(|bs|, i requires 0 <= i < |bs| =>
      if bs[i].spec.id in moves then bs[i].(origin := moves[bs[i].spec.id]) else bs[i])
  }

  /** The scan shows exactly the previous buildings with the declared moves made. */
  ghost predicate Matches(previous: City, scanned: City, moves: map<string, Point>) {
    && previous.width == scanned.width && previous.height == scanned.height
    && |previous.buildings| == |scanned.buildings|
    && moves.Keys <= Ids(previous.buildings)
    && Sightings(scanned.buildings) == Sightings(Expected(previous.buildings, moves))
  }

  datatype IdentityMatch = IdentityMatch(
    stableId: string, scannedId: string, previousOrigin: Point, currentOrigin: Point)

  datatype Reconciliation = Reconciliation(city: City, matches: seq<IdentityMatch>)

  datatype IdentityError =
    | DimensionsChanged
    | CountChanged
    | UnknownMove
    | Ambiguous(candidates: nat)
    | Unmatched

  // ---- Counting sightings ------------------------------------------------------------

  lemma SightsPush(bs: seq<Building>, b: Building)
    ensures Sightings(bs + [b]) == Sightings(bs) + multiset{Sight(b)}
  {
    assert Sights(bs + [b]) == Sights(bs) + [Sight(b)];
  }

  lemma SightingsTake(bs: seq<Building>, n: nat)
    requires n < |bs|
    ensures Sightings(bs[..n + 1]) == Sightings(bs[..n]) + multiset{Sight(bs[n])}
  {
    assert bs[..n + 1] == bs[..n] + [bs[n]];
    SightsPush(bs[..n], bs[n]);
  }

  /** The candidates for a sighting, in list order. */
  function Candidates(available: seq<Building>, sight: Sighting): (r: seq<Building>)
    ensures forall b :: b in r ==> b in available && Sight(b) == sight
  {
    if available == [] then []
    else
      var front, last := available[..|available| - 1], available[|available| - 1];
      if Sight(last) == sight then Candidates(front, sight) + [last] else Candidates(front, sight)
  }

  lemma {:induction false} CandidatesCount(available: seq<Building>, sight: Sighting)
    ensures |Candidates(available, sight)| == Sightings(available)[sight]
  {
    if available != [] {
      var front, last := available[..|available| - 1], available[|available| - 1];
      CandidatesCount(front, sight);
      SightsPush(front, last);
      assert available == front + [last];
    }
  }

  /** `available` without the first occurrence of `b`. */
  function RemoveFirst(available: seq<Building>, b: Building): seq<Building>
    requires b in available
  {
    if available[0] == b then available[1..] else [available[0]] + RemoveFirst(available[1..], b)
  }

  lemma SightsCons(b: Building, bs: seq<Building>)
    ensures Sightings([b] + bs) == multiset{Sight(b)} + Sightings(bs)
  {
    assert Sights([b] + bs) == [Sight(b)] + Sights(bs);
  }

  lemma {:induction false} RemoveFirstCount(available: seq<Building>, b: Building)
    requires b in available
    ensures |RemoveFirst(available, b)| == |available| - 1
    ensures Sightings(available) == Sightings(RemoveFirst(available, b)) + multiset{Sight(b)}
  {
    assert available == [available[0]] + available[1..];
    SightsCons(available[0], available[1..]);
    if available[0] != b {
      RemoveFirstCount(available[1..], b);
      SightsCons(available[0], RemoveFirst(available[1..], b));
    }
  }

  lemma SeenAt(bs: seq<Building>, sight: Sighting) returns (i: nat)
    requires Sightings(bs)[sight] > 0
    ensures i < |bs| && Sight(bs[i]) == sight
  {
    assert sight in Sights(bs);
    i :| 0 <= i < |bs| && Sights(bs)[i] == sight;
  }

  ghost predicate DistinctOrigins(bs: seq<Building>) {
    forall i, j :: 0 <= i < j < |bs| ==> bs[i].origin != bs[j].origin
  }

  lemma {:induction false} SeenOnce(bs: seq<Building>, sight: Sighting)
    requires DistinctOrigins(bs)
    ensures Sightings(bs)[sight] <= 1
    decreases |bs|
  {
    if bs != [] {
      var front, last := bs[..|bs| - 1], bs[|bs| - 1];
      SeenOnce(front, sight);
      SightsPush(front, last);
      assert bs == front + [last];
      if Sightings(front)[sight] > 0 { var i := SeenAt(front, sight); }
    }
  }

  /** On a legal map no two buildings start on the same cell. */
  lemma OriginsDiffer(c: City)
    requires c.Valid()
    ensures DistinctOrigins(c.buildings)
  {
    forall i, j | 0 <= i < j < |c.buildings| ensures c.buildings[i].origin != c.buildings[j].origin {
      assert c.buildings[i].spec.Valid() && c.buildings[j].spec.Valid();
      assert Disjoint(c.buildings[i], c.buildings[j]);
      assert c.buildings[i].origin in c.buildings[i].Footprint() && c.buildings[j].origin in c.buildings[j].Footprint();
    }
  }

  lemma SeenInScan(c: City, sight: Sighting) returns (i: nat)
    requires c.Valid() && Sightings(c.buildings)[sight] > 0
    ensures Sightings(c.buildings)[sight] == 1
    ensures i < |c.buildings| && Sight(c.buildings[i]) == sight
  {
    OriginsDiffer(c);
    SeenOnce(c.buildings, sight);
    i := SeenAt(c.buildings, sight);
  }

  /** The sightings still to come: the next one is among them. */
  lemma {:induction false} NextStillDue(bs: seq<Building>, n: nat, k: nat)
    requires n < k <= |bs|
    ensures Sightings(bs[..k])[Sight(bs[n])] > Sightings(bs[..n])[Sight(bs[n])]
    decreases k
  {
    SightingsTake(bs, k - 1);
    if k > n + 1 { NextStillDue(bs, n, k - 1); }
  }

  // ---- Reconciliation ----------------------------------------------------------------

  /** A sighting determines the building up to its id. */
  lemma SightDetermines(b: Building, prior: Building)
    requires Sight(b) == Sight(prior)
    ensures b.(spec := b.spec.(id := prior.spec.id)) == prior
  {
  }

  // ---- The same told from ids and fields ---------------------------------------------

  /** The text of `id` before its first '@', or all of it, is `n` characters long. */
  ghost predicate PrefixEnds(id: string, n: nat) {
    n <= |id| && (n == |id| || id[n] == '@') && forall k :: 0 <= k < n ==> id[k] != '@'
  }

  /** The two ids have the same text before their first '@'. */
  ghost predicate SamePrefix(a: string, b: string) {
    exists n: nat :: PrefixEnds(a, n) && PrefixEnds(b, n) && a[..n] == b[..n]
  }

  lemma {:induction false} CatalogKeyIsPrefix(id: string)
    ensures PrefixEnds(id, |CatalogKey(id)|) && id[..|CatalogKey(id)|] == CatalogKey(id)
  {
    if id != "" && id[0] != '@' {
      CatalogKeyIsPrefix(id[1..]);
      var n := |CatalogKey(id[1..])|;
      assert forall k :: 0 < k < |id| ==> id[k] == id[1..][k - 1];
      assert id[..n + 1] == [id[0]] + id[1..][..n];
    }
  }

  lemma CatalogKeyExactly(a: string, b: string)
    ensures CatalogKey(a) == CatalogKey(b) <==> SamePrefix(a, b)
  {
    CatalogKeyIsPrefix(a);
    CatalogKeyIsPrefix(b);
    if SamePrefix(a, b) {
      var n: nat :| PrefixEnds(a, n) && PrefixEnds(b, n) && a[..n] == b[..n];
      PrefixEndsOnce(a, n, |CatalogKey(a)|);
      PrefixEndsOnce(b, n, |CatalogKey(b)|);
    }
  }

  lemma PrefixEndsOnce(id: string, n: nat, m: nat)
    requires PrefixEnds(id, n) && PrefixEnds(id, m)
    ensures n == m
  {
  }

  /** Same place, same spec under another id, and ids that differ only after the first '@'. */
  ghost predicate Alike(a: Building, b: Building) {
    && a.origin == b.origin && SamePrefix(a.spec.id, b.spec.id)
    && a.spec.kind == b.spec.kind && a.spec.width == b.spec.width && a.spec.height == b.spec.height
    && a.spec.population == b.spec.population && a.spec.serviceRadius == b.spec.serviceRadius
    && a.spec.beautyRadius == b.spec.beautyRadius && a.spec.pollution == b.spec.pollution
    && a.spec.trafficLoad == b.spec.trafficLoad && a.spec.movable == b.spec.movable
  }

  /** Two buildings look the same to a scan exactly when they are alike. */
  lemma SightExactly(a: Building, b: Building)
    ensures Sight(a) == Sight(b) <==> Alike(a, b)
  {
    CatalogKeyExactly(a.spec.id, b.spec.id);
  }

  /** The building where the declared moves put it. */
  ghost function Meant(b: Building, moves: map<string, Point>): Building {
    if b.spec.id in moves then Building(b.spec, moves[b.spec.id]) else b
  }

  lemma ExpectedIsMeant(bs: seq<Building>, moves: map<string, Point>, i: nat)
    requires i < |bs|
    ensures Expected(bs, moves)[i] == Meant(bs[i], moves)
  {
  }

  /** Every scanned building is some previous one where the moves put it, and there are as many of both. */
  ghost predicate Recognised(previous: City, scanned: City, moves: map<string, Point>) {
    && previous.width == scanned.width && previous.height == scanned.height
    && |previous.buildings| == |scanned.buildings|
    && (forall id :: id in moves ==> exists i :: 0 <= i < |previous.buildings| && previous.buildings[i].spec.id == id)
    && forall k {:trigger scanned.buildings[k]} :: 0 <= k < |scanned.buildings| ==>
         SeenBefore(previous.buildings, scanned.buildings[k], moves)
  }

  ghost predicate SeenBefore(previous: seq<Building>, b: Building, moves: map<string, Point>) {
    exists i {:trigger previous[i]} :: 0 <= i < |previous| && Alike(b, Meant(previous[i], moves))
  }

  lemma SeenBeforeExactly(previous: seq<Building>, b: Building, moves: map<string, Point>)
    ensures SeenBefore(previous, b, moves) <==> Sightings(Expected(previous, moves))[Sight(b)] > 0
  {
    var expected := Expected(previous, moves);
    if SeenBefore(previous, b, moves) {
      var i :| 0 <= i < |previous| && Alike(b, Meant(previous[i], moves));
      SightExactly(b, expected[i]);
      assert Sights(expected)[i] == Sight(b);
    }
    if Sightings(expected)[Sight(b)] > 0 {
      var i := SeenAt(expected, Sight(b));
      SightExactly(b, expected[i]);
      assert Alike(b, Meant(previous[i], moves));
    }
  }

  lemma SmallerAndAsLarge<T>(a: multiset<T>, b: multiset<T>)
    requires a <= b && |a| == |b|
    ensures a == b
  {
    assert b == a + (b - a);
  }

  /** The scan matches exactly when every scanned building is recognised. */
  lemma MatchesExactly(previous: City, scanned: City, moves: map<string, Point>)
    requires scanned.Valid()
    ensures Matches(previous, scanned, moves) <==> Recognised(previous, scanned, moves)
  {
    var expected := Expected(previous.buildings, moves);
    assert (moves.Keys <= Ids(previous.buildings)) <==> forall id :: id in moves ==>
      exists i :: 0 <= i < |previous.buildings| && previous.buildings[i].spec.id == id;
    forall k | 0 <= k < |scanned.buildings|
      ensures SeenBefore(previous.buildings, scanned.buildings[k], moves) <==>
              Sightings(expected)[Sight(scanned.buildings[k])] > 0
    {
      SeenBeforeExactly(previous.buildings, scanned.buildings[k], moves);
    }
    if Recognised(previous, scanned, moves) { AllSeen(scanned, expected); }
    if Matches(previous, scanned, moves) {
      assert forall k :: 0 <= k < |scanned.buildings| ==>
        Sights(scanned.buildings)[k] == Sight(scanned.buildings[k]);
    }
  }

  lemma AllSeen(scanned: City, expected: seq<Building>)
    requires scanned.Valid() && |scanned.buildings| == |expected|
    requires forall k {:trigger scanned.buildings[k]} :: 0 <= k < |scanned.buildings| ==>
      Sightings(expected)[Sight(scanned.buildings[k])] > 0
    ensures Sightings(scanned.buildings) == Sightings(expected)
  {
    OriginsDiffer(scanned);
    forall sight ensures Sightings(scanned.buildings)[sight] <= Sightings(expected)[sight] {
      SeenOnce(scanned.buildings, sight);
      if Sightings(scanned.buildings)[sight] > 0 { var k := SeenAt(scanned.buildings, sight); }
    }
    SmallerAndAsLarge(Sightings(scanned.buildings), Sightings(expected));
  }

  /** With matching sightings the next prior has exactly one candidate among those left. */
  lemma ExactlyOneCandidate(previous: City, scanned: City, moves: map<string, Point>, n: nat, available: seq<Building>)
    requires scanned.Valid() && Matches(previous, scanned, moves) && n < |previous.buildings|
    requires Sightings(available) + Sightings(Expected(previous.buildings, moves)[..n]) == Sightings(scanned.buildings)
    ensures |Candidates(available, Sight(Expected(previous.buildings, moves)[n]))| == 1
  {
    var expected := Expected(previous.buildings, moves);
    var sight := Sight(expected[n]);
    CandidatesCount(available, sight);
    NextStillDue(expected, n, |expected|);
    assert expected[..|expected|] == expected;
    var i := SeenInScan(scanned, sight);
  }

  /** One scanned building explains the record's ids and origins. */
  ghost predicate Explains(scanned: seq<Building>, prior: Building, expected: Building, m: IdentityMatch) {
    && m.stableId == prior.spec.id && m.previousOrigin == prior.origin && m.currentOrigin == expected.origin
    && exists b :: b in scanned && b.spec.id == m.scannedId && Sight(b) == Sight(expected)
  }

  ghost predicate Records(previous: City, scanned: City, moves: map<string, Point>, matches: seq<IdentityMatch>) {
    |matches| <= |previous.buildings|
    && forall k {:trigger matches[k]} :: 0 <= k < |matches| ==>
         Explains(scanned.buildings, previous.buildings[k], Expected(previous.buildings, moves)[k], matches[k])
  }

  /** The loop's state after `n` prior buildings. */
  ghost predicate Partway(scanned: City, expected: seq<Building>, n: nat, available: seq<Building>) {
    && n <= |expected| && |available| + n == |scanned.buildings|
    && Sightings(available) + Sightings(expected[..n]) == Sightings(scanned.buildings)
    && forall b :: b in available ==> b in scanned.buildings
  }

  lemma PartwayNext(scanned: City, expected: seq<Building>, n: nat, available: seq<Building>, matched: Building)
    requires Partway(scanned, expected, n, available) && n < |expected|
    requires matched in available && Sight(matched) == Sight(expected[n])
    ensures Partway(scanned, expected, n + 1, RemoveFirst(available, matched))
  {
    RemoveFirstCount(available, matched);
    RemoveFirstKeeps(available, matched);
    SightingsTake(expected, n);
  }

  lemma RecordsPush(previous: City, scanned: City, moves: map<string, Point>, matches: seq<IdentityMatch>,
                    matched: Building)
    requires Records(previous, scanned, moves, matches) && |matches| < |previous.buildings|
    requires matched in scanned.buildings && Sight(matched) == Sight(Expected(previous.buildings, moves)[|matches|])
    ensures var prior := previous.buildings[|matches|];
      Records(previous, scanned, moves,
              matches + [IdentityMatch(prior.spec.id, matched.spec.id, prior.origin, matched.origin)])
  {
    var prior, n := previous.buildings[|matches|], |matches|;
    var m := IdentityMatch(prior.spec.id, matched.spec.id, prior.origin, matched.origin);
    assert Explains(scanned.buildings, prior, Expected(previous.buildings, moves)[n], m);
    var now := matches + [m];
    assert forall k :: 0 <= k < n ==> now[k] == matches[k];
  }

  /** The only building left that looks like prior `n` after the declared moves. */
  method MatchNext(previous: City, scanned: City, moves: map<string, Point>, n: nat, available: seq<Building>)
    returns (r: Result<Building, IdentityError>)
    requires scanned.Valid() && n < |previous.buildings|
    requires Partway(scanned, Expected(previous.buildings, moves), n, available)
    ensures r.Failure? ==> !Matches(previous, scanned, moves) && r.error.Ambiguous? && r.error.candidates != 1
    ensures r.Success? ==> r.value in available && Sight(r.value) == Sight(Expected(previous.buildings, moves)[n])
  {
    var prior := previous.buildings[n];
    var origin := if prior.spec.id in moves then moves[prior.spec.id] else prior.origin;
    var candidates := Candidates(available, (FingerprintOf(prior), origin));
    assert Sight(Expected(previous.buildings, moves)[n]) == (FingerprintOf(prior), origin);
    if |candidates| != 1 {
      if Matches(previous, scanned, moves) { ExactlyOneCandidate(previous, scanned, moves, n, available); }
      return Failure(Ambiguous(|candidates|));
    }
    return Success(candidates[0]);
  }

  /** The loop over the prior buildings: each must have exactly one candidate. */
  method MatchAll(previous: City, scanned: City, moves: map<string, Point>)
    returns (r: Result<(seq<Building>, seq<IdentityMatch>), IdentityError>)
    requires scanned.Valid() && |previous.buildings| == |scanned.buildings|
    requires previous.width == scanned.width && previous.height == scanned.height
      && moves.Keys <= Ids(previous.buildings)
    ensures r.Success? <==> Matches(previous, scanned, moves)
    ensures r.Success? <==> Recognised(previous, scanned, moves)
    ensures r.Failure? ==> r.error.Ambiguous? && r.error.candidates != 1
    ensures r.Success? ==> r.value.0 == Expected(previous.buildings, moves)
    ensures r.Success? ==> Records(previous, scanned, moves, r.value.1) && |r.value.1| == |previous.buildings|
  {
    MatchesExactly(previous, scanned, moves);
    ghost var expected := Expected(previous.buildings, moves);
    var available, restored, matches := scanned.buildings, [], [];
    assert Sightings(expected[..0]) == multiset{};
    for n := 0 to |previous.buildings|
      invariant Partway(scanned, expected, n, available)
      invariant restored == expected[..n]
      invariant |matches| == n && Records(previous, scanned, moves, matches)
    {
      var prior := previous.buildings[n];
      var next := MatchNext(previous, scanned, moves, n, available);
      if next.Failure? { return Failure(next.error); }
      var matched := next.value;
      RestoredPush(previous, moves, n, matched);
      PartwayNext(scanned, expected, n, available, matched);
      RecordsPush(previous, scanned, moves, matches, matched);
      available := RemoveFirst(available, matched);
      restored := restored + [Building(matched.spec.(id := prior.spec.id), matched.origin)];
      matches := matches + [IdentityMatch(prior.spec.id, matched.spec.id, prior.origin, matched.origin)];
    }
    AllMatched(previous, scanned, moves, available);
    if available != [] { return Failure(Unmatched); }
    assert expected[..|expected|] == expected;
    return Success((restored, matches));
  }

  lemma RestoredPush(previous: City, moves: map<string, Point>, n: nat, matched: Building)
    requires n < |previous.buildings| && Sight(matched) == Sight(Expected(previous.buildings, moves)[n])
    ensures var expected := Expected(previous.buildings, moves);
      expected[..n + 1]
        == expected[..n] + [Building(matched.spec.(id := previous.buildings[n].spec.id), matched.origin)]
  {
    var expected := Expected(previous.buildings, moves);
    SightDetermines(matched, expected[n]);
    assert expected[..n + 1] == expected[..n] + [expected[n]];
  }

  lemma AllMatched(previous: City, scanned: City, moves: map<string, Point>, available: seq<Building>)
    requires |previous.buildings| == |scanned.buildings|
    requires Partway(scanned, Expected(previous.buildings, moves), |previous.buildings|, available)
    ensures available == []
    ensures Sightings(scanned.buildings) == Sightings(Expected(previous.buildings, moves))
  {
    var expected := Expected(previous.buildings, moves);
    assert expected[..|expected|] == expected;
    assert Sightings(available) == multiset{};
  }

  lemma {:induction false} RemoveFirstKeeps(available: seq<Building>, b: Building)
    requires b in available
    ensures forall x :: x in RemoveFirst(available, b) ==> x in available
  {
    if available[0] != b { RemoveFirstKeeps(available[1..], b); }
  }

  /** The record names a scanned building that is alike to the restored one, its prefix included. */
  ghost predicate Traced(prior: Building, scanned: seq<Building>, moves: map<string, Point>, m: IdentityMatch) {
    && m.stableId == prior.spec.id && m.previousOrigin == prior.origin && m.currentOrigin == Meant(prior, moves).origin
    && SamePrefix(m.scannedId, m.stableId)
    && exists k :: 0 <= k < |scanned| && scanned[k].spec.id == m.scannedId && Alike(scanned[k], Meant(prior, moves))
  }

  /** Each previous building under its own id where the moves put it, with a record of its sighting. */
  ghost predicate Restored(previous: seq<Building>, scanned: seq<Building>, moves: map<string, Point>,
                           r: Reconciliation)
  {
    && |r.city.buildings| == |r.matches| == |previous|
    && (forall i :: 0 <= i < |previous| ==> r.city.buildings[i] == Meant(previous[i], moves))
    && forall i {:trigger r.matches[i]} :: 0 <= i < |previous| ==> Traced(previous[i], scanned, moves, r.matches[i])
  }

  lemma ExplainsIsTraced(scanned: seq<Building>, prior: Building, moves: map<string, Point>, m: IdentityMatch)
    requires Explains(scanned, prior, Meant(prior, moves), m)
    ensures Traced(prior, scanned, moves, m)
  {
    var b :| b in scanned && b.spec.id == m.scannedId && Sight(b) == Sight(Meant(prior, moves));
    SightExactly(b, Meant(prior, moves));
    var k :| 0 <= k < |scanned| && scanned[k] == b;
    assert Alike(scanned[k], Meant(prior, moves));
  }

  lemma RecordsRestore(previous: City, scanned: City, moves: map<string, Point>, r: Reconciliation)
    requires Records(previous, scanned, moves, r.matches) && |r.matches| == |previous.buildings|
    requires r.city.buildings == Expected(previous.buildings, moves)
    ensures Restored(previous.buildings, scanned.buildings, moves, r)
  {
    forall i | 0 <= i < |previous.buildings|
      ensures Traced(previous.buildings[i], scanned.buildings, moves, r.matches[i])
    {
      assert Explains(scanned.buildings, previous.buildings[i], Expected(previous.buildings, moves)[i], r.matches[i]);
      ExplainsIsTraced(scanned.buildings, previous.buildings[i], moves, r.matches[i]);
    }
  }

  /**
   Succeeds exactly when the scan shows the previous buildings with the declared moves
   made, in whatever order and under whatever tags; the result is then those buildings,
   in the previous order and under their stable ids, on the scanned terrain.
   */
  method Reconcile(previous: City, scanned: City, moves: map<string, Point>)
    returns (r: Result<Reconciliation, IdentityError>)
    requires previous.Valid() && scanned.Valid()
    ensures r.Success? <==> Matches(previous, scanned, moves)
    ensures r.Success? ==> r.value.city == scanned.(buildings := Expected(previous.buildings, moves))
    ensures r.Success? ==>
      Records(previous, scanned, moves, r.value.matches) && |r.value.matches| == |previous.buildings|
    ensures r.Success? <==> Recognised(previous, scanned, moves)
    ensures r.Success? ==> Restored(previous.buildings, scanned.buildings, moves, r.value)
    ensures r.Failure? ==>
      if previous.width != scanned.width || previous.height != scanned.height then r.error == DimensionsChanged
      else if |previous.buildings| != |scanned.buildings| then r.error == CountChanged
      else if !(moves.Keys <= Ids(previous.buildings)) then r.error == UnknownMove
      else r.error.Ambiguous? && r.error.candidates != 1
  {
    MatchesExactly(previous, scanned, moves);
    if previous.width != scanned.width || previous.height != scanned.height { return Failure(DimensionsChanged); }
    if |previous.buildings| != |scanned.buildings| { return Failure(CountChanged); }
    if !(moves.Keys <= Ids(previous.buildings)) { return Failure(UnknownMove); }
    var matched := MatchAll(previous, scanned, moves);
    match matched {
      case Failure(e) => return Failure(e);
      case Success(pair) =>
        r := Success(Reconciliation(scanned.(buildings := pair.0), pair.1));
        RecordsRestore(previous, scanned, moves, r.value);
    }
  }

  /** A reconciled map is always legal: no id, cell or terrain clash can slip in. */
  lemma ReconciledIsValid(previous: City, scanned: City, moves: map<string, Point>)
    requires previous.Valid() && scanned.Valid() && Matches(previous, scanned, moves)
    ensures scanned.(buildings := Expected(previous.buildings, moves)).Valid()
  {
    var expected := Expected(previous.buildings, moves);
    var c := scanned.(buildings := expected);
    assert forall i :: 0 <= i < |expected| ==> expected[i].spec == previous.buildings[i].spec;
    forall i | 0 <= i < |expected| ensures expected[i].spec.Valid() && c.Fits(expected[i]) {
      assert previous.buildings[i].spec.Valid();
      var k := SeenCounterpart(previous, scanned, moves, i);
      assert scanned.Fits(scanned.buildings[k]);
    }
    forall i, j | 0 <= i < j < |expected| ensures Disjoint(expected[i], expected[j]) {
      CounterpartsDiffer(previous, scanned, moves, i, j);
    }
  }

  lemma SeenCounterpart(previous: City, scanned: City, moves: map<string, Point>, i: nat) returns (k: nat)
    requires scanned.Valid() && Matches(previous, scanned, moves) && i < |previous.buildings|
    ensures k < |scanned.buildings| && Sight(scanned.buildings[k]) == Sight(Expected(previous.buildings, moves)[i])
    ensures scanned.buildings[k].Footprint() == Expected(previous.buildings, moves)[i].Footprint()
    ensures Sightings(Expected(previous.buildings, moves))[Sight(Expected(previous.buildings, moves)[i])] == 1
  {
    var expected := Expected(previous.buildings, moves);
    assert Sights(expected)[i] == Sight(expected[i]);
    k := SeenInScan(scanned, Sight(expected[i]));
    assert forall p :: scanned.buildings[k].Covers(p) <==> expected[i].Covers(p);
  }

  lemma CounterpartsDiffer(previous: City, scanned: City, moves: map<string, Point>, i: nat, j: nat)
    requires scanned.Valid() && Matches(previous, scanned, moves) && i < j < |previous.buildings|
    ensures Disjoint(Expected(previous.buildings, moves)[i], Expected(previous.buildings, moves)[j])
  {
    var expected := Expected(previous.buildings, moves);
    var k := SeenCounterpart(previous, scanned, moves, i);
    var m := SeenCounterpart(previous, scanned, moves, j);
    if k == m {
      SeenTwice(expected, i, j);
      assert false;
    }
    assert Disjoint(scanned.buildings[if k < m then k else m], scanned.buildings[if k < m then m else k]);
  }

  lemma SeenTwice(bs: seq<Building>, i: nat, j: nat)
    requires i < j < |bs| && Sight(bs[i]) == Sight(bs[j])
    ensures Sightings(bs)[Sight(bs[i])] >= 2
  {
    NextStillDue(bs, i, i + 1);
    CountGrows(bs, i + 1, j);
    NextStillDue(bs, j, |bs|);
    assert bs[..|bs|] == bs;
  }

  lemma {:induction false} CountGrows(bs: seq<Building>, n: nat, k: nat)
    requires n <= k <= |bs|
    ensures Sightings(bs[..n]) <= Sightings(bs[..k])
    decreases k
  {
    if n < k {
      CountGrows(bs, n, k - 1);
      SightingsTake(bs, k - 1);
    }
  }
}
