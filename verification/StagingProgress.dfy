/** The staging loop makes progress, or stands still for ever. */
module StagingProgress {
  import opened Orders
  import opened CityMap
  import opened Construction
  import opened StagingModel

  // ---- The loop is deterministic -----------------------------------------------------

  lemma FirstReadyUnique(env: Env, s: StagingState, a: string, b: string)
    requires FirstReady(env, s, a) && FirstReady(env, s, b)
    ensures a == b
  {
    LexAsymmetric(a, b);
  }

  lemma PivotUnique(s: StagingState, a: string, b: string)
    requires Pivot(s, a) && Pivot(s, b)
    ensures a == b
  {
    LexAsymmetric(a, b);
  }

  lemma BestUnique(env: Env, s: StagingState, id: string, a: Point, b: Point)
    requires id in s.pos && Best(env, s, id, a) && Best(env, s, id, b)
    ensures a == b
  {
  }

  lemma NextIsUnique(env: Env, s: StagingState, t: StagingState, u: StagingState)
    requires Next(env, s, t) && Next(env, s, u)
    ensures t == u
  {
    if id :| GoesHome(env, s, id, t) {
      assert Ready(env, s, id);
      var id' :| GoesHome(env, s, id', u);
      FirstReadyUnique(env, s, id, id');
    } else {
      var id, cell :| StepsAside(env, s, id, cell, t);
      assert !exists x :: GoesHome(env, s, x, u) by { assert forall x :: !Ready(env, s, x); }
      var id', cell' :| StepsAside(env, s, id', cell', u);
      PivotUnique(s, id, id');
      BestUnique(env, s, id, cell, cell');
    }
  }

  lemma HaltedHasNoNext(env: Env, s: StagingState, t: StagingState)
    requires Halted(env, s)
    ensures !Next(env, s, t)
  {
    assert forall id :: !Ready(env, s, id);
  }

  // ---- Each turn ---------------------------------------------------------------------

  lemma AimedKept(env: Env, s: StagingState, t: StagingState)
    requires Aimed(env, s) && Next(env, s, t)
    ensures Aimed(env, t)
  {
    if id :| GoesHome(env, s, id, t) {
      AimedAfterHome(env, s, id);
    } else {
      var id, cell :| StepsAside(env, s, id, cell, t);
      AimedAfterStage(env, s, id, cell);
    }
  }

  lemma AimedAfterHome(env: Env, s: StagingState, id: string)
    requires Aimed(env, s) && id in s.pending
    ensures Aimed(env, Home(s, id))
  {
    var t := Home(s, id);
    assert t.pos.Keys == s.pos.Keys;
    assert forall x :: x in t.pending ==> s.pending[x] == t.pending[x];
  }

  lemma AimedAfterStage(env: Env, s: StagingState, id: string, cell: Point)
    requires Aimed(env, s) && id in s.pos
    ensures Aimed(env, Stage(s, id, cell))
  {
    assert Stage(s, id, cell).pos.Keys == s.pos.Keys;
  }

  /** Pending buildings that do not yet stand on a legal temporary place. */
  ghost function Misplaced(env: Env, s: StagingState): set<string> {
    set id | id in s.pending && !StandsLegally(env, s, id)
  }

  lemma HomeShrinks(s: StagingState, id: string)
    requires id in s.pending && id in s.pos && s.pending[id].destination.Some?
    ensures Home(s, id).pending.Keys < s.pending.Keys
  {
    assert Home(s, id).pending.Keys == s.pending.Keys - {id};
  }

  /** On a legal temporary place the nearest legal place is the place itself. */
  lemma StandingStill(env: Env, s: StagingState, id: string, cell: Point)
    requires StandsLegally(env, s, id) && Best(env, s, id, cell)
    ensures cell == s.pos[id] && Stage(s, id, cell).pos == s.pos
  {
    assert Distance(s.pos[id], s.pos[id]) == 0;
    assert cell == s.pos[id];
  }

  lemma StageSettles(env: Env, s: StagingState, id: string, cell: Point)
    requires id in s.pending && id in s.pos && Best(env, s, id, cell) && !StandsLegally(env, s, id)
    ensures Misplaced(env, Stage(s, id, cell)) < Misplaced(env, s)
  {
    var t := Stage(s, id, cell);
    forall b | b in Misplaced(env, t) ensures b in Misplaced(env, s) && b != id {
      if b == id || StandsLegally(env, s, b) { StageKeepsLegal(env, s, id, cell, b); }
    }
    assert id in Misplaced(env, s);
  }

  /**
   A turn brings one building home for good, or puts one pending building on a legal
   temporary place without dislodging another, or changes neither positions nor pending
   moves. The last happens exactly when the pivot already stands on a legal place.
   */
  lemma TurnProgresses(env: Env, s: StagingState, t: StagingState)
    requires Aimed(env, s) && Next(env, s, t)
    ensures Stutters(env, s) ==> t.pending == s.pending && t.pos == s.pos
    ensures !Stutters(env, s) ==>
      t.pending.Keys < s.pending.Keys || (t.pending == s.pending && Misplaced(env, t) < Misplaced(env, s))
  {
    if id :| GoesHome(env, s, id, t) {
      assert Ready(env, s, id);
      HomeShrinks(s, id);
    } else {
      var id, cell :| StepsAside(env, s, id, cell, t);
      AsideProgresses(env, s, id, cell);
    }
  }

  lemma AsideProgresses(env: Env, s: StagingState, id: string, cell: Point)
    requires NoneReady(env, s) && Pivot(s, id) && id in s.pos && Best(env, s, id, cell)
    ensures Stutters(env, s) <==> StandsLegally(env, s, id)
    ensures Stutters(env, s) ==> Stage(s, id, cell).pos == s.pos
    ensures !Stutters(env, s) ==> Misplaced(env, Stage(s, id, cell)) < Misplaced(env, s)
  {
    if p :| Pivot(s, p) && StandsLegally(env, s, p) { PivotUnique(s, id, p); }
    if StandsLegally(env, s, id) {
      StandingStill(env, s, id, cell);
    } else {
      StageSettles(env, s, id, cell);
    }
  }

  /** A building on a legal temporary place stays on one until it goes home. */
  lemma LegalUntilHome(env: Env, s: StagingState, t: StagingState, b: string)
    requires Aimed(env, s) && Next(env, s, t)
    requires b in t.pending && StandsLegally(env, s, b)
    ensures StandsLegally(env, t, b)
  {
    if id :| GoesHome(env, s, id, t) {
      HomeKeepsLegal(env, s, id, b);
    } else {
      var id, cell :| StepsAside(env, s, id, cell, t);
      StageKeepsLegal(env, s, id, cell, b);
    }
  }

  // ---- Standing still is for ever ----------------------------------------------------

  lemma SameEligible(s: StagingState, t: StagingState, id: string)
    requires t.pending == s.pending
    requires id in s.pending ==> forall d :: d in s.pending[id].dependsOn ==> !d.StageId?
    requires forall d: StepId :: !d.StageId? ==> (d in t.completed <==> d in s.completed)
    ensures Eligible(t, id) <==> Eligible(s, id)
  {
    assert PendingIds(t) == PendingIds(s);
  }

  lemma SameDecisions(env: Env, s: StagingState, t: StagingState)
    requires Aimed(env, s) && t.pending == s.pending && t.pos == s.pos
    requires forall d: StepId :: !d.StageId? ==> (d in t.completed <==> d in s.completed)
    requires Stutters(env, s)
    ensures Stutters(env, t)
  {
    forall id ensures Eligible(t, id) <==> Eligible(s, id) {
      if id in s.pending { assert AimedMove(env, id, s.pending[id]); }
      SameEligible(s, t, id);
    }
    forall id ensures !Ready(env, t, id) { assert !Ready(env, s, id); }
    var p :| Pivot(s, p) && StandsLegally(env, s, p);
    assert Pivot(t, p) && StandsLegally(env, t, p);
  }

  lemma StutterDoesNotHalt(env: Env, s: StagingState)
    requires Stutters(env, s)
    ensures !Halted(env, s)
  {
    var p :| Pivot(s, p) && StandsLegally(env, s, p);
  }

  /** Once the pivot stands still the loop never ends: the same turn repeats. */
  lemma StutterRepeats(env: Env, s: StagingState, t: StagingState)
    requires Aimed(env, s) && Stutters(env, s) && Next(env, s, t)
    ensures Stutters(env, t) && Aimed(env, t)
    ensures t.pending == s.pending && t.pos == s.pos
  {
    TurnProgresses(env, s, t);
    AimedKept(env, s, t);
    OnlyStagingCompleted(env, s, t);
    SameDecisions(env, s, t);
  }

  lemma OnlyStagingCompleted(env: Env, s: StagingState, t: StagingState)
    requires NoneReady(env, s) && Next(env, s, t)
    ensures forall d: StepId :: !d.StageId? ==> (d in t.completed <==> d in s.completed)
  {
    assert forall id :: !Ready(env, s, id);
    var id, cell :| StepsAside(env, s, id, cell, t);
  }

  /** `t` stands as still as `s` did. */
  ghost predicate StuckAs(env: Env, s: StagingState, t: StagingState) {
    Aimed(env, t) && Stutters(env, t) && t.pending == s.pending && t.pos == s.pos
  }

  /** What holds at the start of a run and survives each of its turns holds throughout. */
  lemma {:induction false} RunInvariant(trace: seq<StagingState>, k: nat, inv: StagingState -> bool)
    requires k < |trace| && inv(trace[0])
    requires forall j :: 0 < j <= k && inv(trace[j - 1]) ==> inv(trace[j])
    ensures inv(trace[k])
    decreases k
  {
    if k > 0 { RunInvariant(trace, k - 1, inv); }
  }

  lemma StutterForever(env: Env, trace: seq<StagingState>, k: nat)
    requires Run(env, trace) && k < |trace|
    requires Aimed(env, trace[0]) && Stutters(env, trace[0])
    ensures StuckAs(env, trace[0], trace[k]) && !Halted(env, trace[k])
  {
    forall j | 0 < j <= k && StuckAs(env, trace[0], trace[j - 1]) ensures StuckAs(env, trace[0], trace[j]) {
      assert Turn(env, trace, j - 1);
      StutterRepeats(env, trace[j - 1], trace[j]);
    }
    RunInvariant(trace, k, t => StuckAs(env, trace[0], t));
    StutterDoesNotHalt(env, trace[k]);
  }

  // ---- Staged at most once -----------------------------------------------------------

  /** Everybody staged so far is home or on a legal place, and was staged once. */
  ghost predicate StagedOnce(env: Env, s: StagingState) {
    && (forall i, j :: 0 <= i < j < |s.points| ==> s.points[i].0 != s.points[j].0)
    && (forall i {:trigger s.points[i]} :: 0 <= i < |s.points| && s.points[i].0 in s.pending ==>
          StandsLegally(env, s, s.points[i].0))
  }

  lemma StagedOnceKept(env: Env, s: StagingState, t: StagingState)
    requires Aimed(env, s) && StagedOnce(env, s) && Next(env, s, t) && !Stutters(env, s)
    ensures StagedOnce(env, t)
  {
    if id :| GoesHome(env, s, id, t) {
      StagedOnceAfterHome(env, s, id);
    } else {
      var id, cell :| StepsAside(env, s, id, cell, t);
      AsideProgresses(env, s, id, cell);
      StagedOnceAfterStage(env, s, id, cell);
    }
  }

  lemma StagedOnceAfterHome(env: Env, s: StagingState, id: string)
    requires Aimed(env, s) && StagedOnce(env, s) && id in s.pending
    ensures StagedOnce(env, Home(s, id))
  {
    var t := Home(s, id);
    forall i | 0 <= i < |t.points| && t.points[i].0 in t.pending ensures StandsLegally(env, t, t.points[i].0) {
      HomeKeepsLegal(env, s, id, s.points[i].0);
    }
  }

  lemma StagedOnceAfterStage(env: Env, s: StagingState, id: string, cell: Point)
    requires StagedOnce(env, s) && id in s.pending && id in s.pos && Legal(env, s.pos, id, cell)
    requires !StandsLegally(env, s, id)
    ensures StagedOnce(env, Stage(s, id, cell))
  {
    var t := Stage(s, id, cell);
    var n := |s.points|;
    assert t.points[..n] == s.points && t.points[n].0 == id;
    StageKeepsLegal(env, s, id, cell, id);
    forall i | 0 <= i < n
      ensures t.points[i].0 != id && (t.points[i].0 in t.pending ==> StandsLegally(env, t, t.points[i].0))
    {
      assert t.points[i] == s.points[i];
      if t.points[i].0 in t.pending { StageKeepsLegal(env, s, id, cell, t.points[i].0); }
    }
  }

  /** In a run that never stands still no building is staged twice. */
  lemma {:induction false} NobodyStagedTwice(env: Env, trace: seq<StagingState>, k: nat)
    requires Run(env, trace) && k < |trace|
    requires Aimed(env, trace[0]) && trace[0].points == []
    requires forall j :: 0 <= j < k ==> !Stutters(env, trace[j])
    ensures Aimed(env, trace[k]) && StagedOnce(env, trace[k])
    decreases k
  {
    if k > 0 {
      NobodyStagedTwice(env, trace, k - 1);
      assert Turn(env, trace, k - 1);
      StagedOnceKept(env, trace[k - 1], trace[k]);
      AimedKept(env, trace[k - 1], trace[k]);
    }
  }

  // ---- When the loop ends ------------------------------------------------------------

  /** Among finitely many places the nearest exists. */
  lemma NearestExists(places: set<Point>, from: Point) returns (cell: Point)
    requires places != {}
    ensures cell in places && forall o :: o in places ==> o == cell || Closer(from, cell, o)
  {
    var lt := (p: Point, q: Point) => Closer(from, p, q);
    CloserStrictTotal(from);
    LeastExists(places, lt);
    cell :| IsLeast(cell, places, lt);
  }

  ghost function LegalPlaces(env: Env, pos: map<string, Point>, id: string): (places: set<Point>)
    ensures forall o :: o in places <==> Legal(env, pos, id, o)
  {
    match IndexOf(env.original.buildings, id)
    case None => {}
    case Some(i) =>
      var spec := env.original.buildings[i].spec;
      var grid := set x, y | 0 <= x < env.city.width - spec.width + 1 && 0 <= y < env.city.height - spec.height + 1 ::
        Point(x, y);
      set o | o in grid && Legal(env, pos, id, o)
  }

  lemma BestExists(env: Env, s: StagingState, id: string, some: Point) returns (cell: Point)
    requires id in s.pos && Legal(env, s.pos, id, some)
    ensures Best(env, s, id, cell)
  {
    cell := NearestExists(LegalPlaces(env, s.pos, id), s.pos[id]);
  }

  lemma LeastOf(ids: set<string>) returns (id: string)
    requires ids != {}
    ensures id in ids && forall o :: o in ids ==> o == id || LexLess(id, o)
  {
    LexStrictTotal();
    LeastExists(ids, LexLess);
    id :| IsLeast(id, ids, LexLess);
  }

  lemma GoesOnUnlessHalted(env: Env, s: StagingState) returns (t: StagingState)
    requires Aimed(env, s)
    ensures Halted(env, s) || Next(env, s, t)
  {
    t := s;
    var ready := set id | id in s.pending && Ready(env, s, id);
    assert forall id :: Ready(env, s, id) ==> id in ready;
    if ready != {} {
      var id := LeastOf(ready);
      t := Home(s, id);
      assert GoesHome(env, s, id, t);
    } else if !Halted(env, s) {
      var id, some :| Pivot(s, id) && Legal(env, s.pos, id, some);
      var cell := BestExists(env, s, id, some);
      t := Stage(s, id, cell);
      assert StepsAside(env, s, id, cell, t);
    }
  }

  /** From any state the loop reaches its end or a state it never leaves. */
  lemma {:induction false} EndsOrStutters(env: Env, s: StagingState) returns (trace: seq<StagingState>)
    requires Aimed(env, s)
    ensures Run(env, trace) && trace[0] == s
    ensures Halted(env, trace[|trace| - 1]) || Stutters(env, trace[|trace| - 1])
    decreases s.pending.Keys, Misplaced(env, s)
  {
    trace := [s];
    if !Halted(env, s) && !Stutters(env, s) {
      var t := GoesOnUnlessHalted(env, s);
      TurnProgresses(env, s, t);
      AimedKept(env, s, t);
      var rest := EndsOrStutters(env, t);
      RunPrepend(env, s, rest);
      trace := [s] + rest;
    }
  }

  lemma RunPrepend(env: Env, s: StagingState, rest: seq<StagingState>)
    requires Run(env, rest) && Next(env, s, rest[0])
    ensures Run(env, [s] + rest)
  {
    var trace := [s] + rest;
    forall k | 0 <= k < |trace| - 1 ensures Turn(env, trace, k) {
      if k > 0 { assert Turn(env, rest, k - 1); }
    }
  }

  lemma RunTail(env: Env, trace: seq<StagingState>, n: nat)
    requires Run(env, trace) && n < |trace|
    ensures Run(env, trace[n..])
  {
    forall k | 0 <= k < |trace[n..]| - 1 ensures Turn(env, trace[n..], k) {
      assert Turn(env, trace, n + k);
    }
  }

  lemma {:induction false} SameStart(env: Env, a: seq<StagingState>, b: seq<StagingState>, k: nat)
    requires Run(env, a) && Run(env, b) && a[0] == b[0] && k < |a| && k < |b|
    ensures a[k] == b[k]
    decreases k
  {
    if k > 0 {
      SameStart(env, a, b, k - 1);
      assert Turn(env, a, k - 1) && Turn(env, b, k - 1);
      NextIsUnique(env, a[k - 1], a[k], b[k]);
    }
  }

  lemma HaltedNotPassed(env: Env, a: seq<StagingState>, b: seq<StagingState>)
    requires Run(env, a) && Run(env, b) && a[0] == b[0] && |a| < |b|
    ensures !Halted(env, a[|a| - 1])
  {
    SameStart(env, a, b, |a| - 1);
    assert Turn(env, b, |a| - 1);
    if Halted(env, a[|a| - 1]) { HaltedHasNoNext(env, a[|a| - 1], b[|a|]); }
  }

  lemma StutterNotLeft(env: Env, a: seq<StagingState>, b: seq<StagingState>)
    requires Run(env, a) && Run(env, b) && a[0] == b[0] && |b| <= |a| && Aimed(env, a[0])
    requires Stutters(env, b[|b| - 1])
    ensures !Halted(env, a[|a| - 1])
  {
    SameStart(env, a, b, |b| - 1);
    AimedAlong(env, a, |b| - 1);
    RunTail(env, a, |b| - 1);
    StutterForever(env, a[|b| - 1..], |a| - |b|);
  }

  lemma {:induction false} AimedAlong(env: Env, trace: seq<StagingState>, k: nat)
    requires Run(env, trace) && Aimed(env, trace[0]) && k < |trace|
    ensures Aimed(env, trace[k])
    decreases k
  {
    if k > 0 {
      AimedAlong(env, trace, k - 1);
      assert Turn(env, trace, k - 1);
      AimedKept(env, trace[k - 1], trace[k]);
    }
  }

  ghost predicate RunTo(env: Env, s: StagingState, t: StagingState) {
    exists trace :: Run(env, trace) && trace[0] == s && trace[|trace| - 1] == t
  }
}
