/** Which tangles the staging loop can undo, told from its first state. */
module StagingKnots {
  import opened Orders
  import opened CityMap
  import opened Topology
  import opened StagingModel
  import opened StagingProgress

  /** The targets of different buildings do not overlap. */
  ghost predicate TargetsApart(env: Env) {
    forall i, j {:trigger Disjoint(env.target.buildings[i], env.target.buildings[j])} ::
      0 <= i < j < |env.target.buildings| ==> Disjoint(env.target.buildings[i], env.target.buildings[j])
  }

  /** Building `b` stands on cells that `q` is bound for. */
  ghost predicate Blocks(env: Env, s: StagingState, q: string, b: string) {
    && q in s.pending && s.pending[q].destination.Some? && b in s.pos && b != q
    && !(At(env.original, b, s.pos[b]) !! At(env.original, q, s.pending[q].destination.value))
  }

  lemma ReadyIffUnblocked(env: Env, s: StagingState, q: string)
    requires Eligible(s, q) && s.pending[q].destination.Some?
    ensures Ready(env, s, q) <==> forall b :: !Blocks(env, s, q, b)
  {
    var cells := At(env.original, q, s.pending[q].destination.value);
    if forall b :: !Blocks(env, s, q, b) {
      forall b | b in s.pos && b != q ensures At(env.original, b, s.pos[b]) !! cells { assert !Blocks(env, s, q, b); }
    }
  }

  // ---- How a turn changes who blocks whom --------------------------------------------

  /** Where the target map keeps what is aimed there. */
  lemma TargetIndex(env: Env, s: StagingState, q: string) returns (i: nat)
    requires Aimed(env, s) && q in s.pending
    ensures i < |env.target.buildings| && env.target.buildings[i].spec.id == q
    ensures env.target.buildings[i].Footprint() == At(env.original, q, s.pending[q].destination.value)
  {
    assert AimedMove(env, q, s.pending[q]);
    i :| 0 <= i < |env.target.buildings| && env.target.buildings[i].spec.id == q
         && env.target.buildings[i].Footprint() == At(env.original, q, s.pending[q].destination.value);
  }

  lemma BothTargetsClear(env: Env, i: nat, j: nat)
    requires TargetsApart(env) && i < |env.target.buildings| && j < |env.target.buildings| && i != j
    ensures env.target.buildings[i].Footprint() !! env.target.buildings[j].Footprint()
  {
    assert Disjoint(env.target.buildings[if i < j then i else j], env.target.buildings[if i < j then j else i]);
  }

  lemma TargetsDiffer(env: Env, s: StagingState, q: string, id: string)
    requires Aimed(env, s) && TargetsApart(env) && q in s.pending && id in s.pending && q != id
    ensures At(env.original, q, s.pending[q].destination.value) !! At(env.original, id, s.pending[id].destination.value)
  {
    var i := TargetIndex(env, s, q);
    var j := TargetIndex(env, s, id);
    BothTargetsClear(env, i, j);
  }

  lemma HomeBlocksOthers(s: StagingState, id: string, q: string, b: string)
    requires id in s.pending && id in s.pos && s.pending[id].destination.Some? && q != id && b != id
    ensures var t := Home(s, id);
      && (q in t.pending <==> q in s.pending) && (q in t.pending ==> t.pending[q] == s.pending[q])
      && (b in t.pos <==> b in s.pos) && (b in t.pos ==> t.pos[b] == s.pos[b])
  {
  }

  /** Going home ends what a building waits for and frees whoever waits for it. */
  lemma HomeBlocks(env: Env, s: StagingState, id: string, q: string, b: string)
    requires Aimed(env, s) && TargetsApart(env) && id in s.pending
    ensures Blocks(env, Home(s, id), q, b) <==> q != id && b != id && Blocks(env, s, q, b)
  {
    if q != id && b != id {
      HomeBlocksOthers(s, id, q, b);
    } else if q != id && q in s.pending {
      TargetsDiffer(env, s, q, id);
    }
  }

  lemma LegalBlocksNobody(env: Env, s: StagingState, p: string, cell: Point, q: string)
    requires Aimed(env, s) && Legal(env, s.pos, p, cell) && q in s.pending && q != p
    ensures At(env.original, p, cell) !! At(env.original, q, s.pending[q].destination.value)
  {
    assert AimedMove(env, q, s.pending[q]);
    var k :| 0 <= k < |env.target.buildings| && env.target.buildings[k].spec.id == q
             && env.target.buildings[k].Footprint() == At(env.original, q, s.pending[q].destination.value);
  }

  /** Stepping aside frees whoever waits for the building, and changes nothing else. */
  lemma StageBlocks(env: Env, s: StagingState, p: string, cell: Point, q: string, b: string)
    requires Aimed(env, s) && p in s.pos && Legal(env, s.pos, p, cell)
    ensures Blocks(env, Stage(s, p, cell), q, b) <==> b != p && Blocks(env, s, q, b)
  {
    if q in s.pending && q != p { LegalBlocksNobody(env, s, p, cell, q); }
  }

  lemma EligibleAfterHome(s: StagingState, id: string, x: string)
    requires id in s.pending && id in s.pos && s.pending[id].destination.Some?
    ensures Eligible(Home(s, id), x) <==> x != id && Eligible(s, x)
  {
    var t := Home(s, id);
    forall d ensures d in PendingIds(s) || d in s.completed <==> d in PendingIds(t) || d in t.completed {
      if d in PendingIds(s) {
        var y :| y in s.pending && s.pending[y].id == d;
        assert y != id ==> y in t.pending && t.pending[y].id == d;
      }
      if d in PendingIds(t) {
        var y :| y in t.pending && t.pending[y].id == d;
        assert s.pending[y].id == d;
      }
    }
  }

  lemma EligibleAfterStage(env: Env, s: StagingState, p: string, cell: Point, x: string)
    requires Aimed(env, s) && p in s.pos
    ensures Eligible(Stage(s, p, cell), x) <==> Eligible(s, x)
  {
    var t := Stage(s, p, cell);
    assert PendingIds(t) == PendingIds(s);
    if x in s.pending { assert AimedMove(env, x, s.pending[x]); }
  }

  // ---- Knots -------------------------------------------------------------------------

  /** The next of the walk blocks this one, and is named after `x` or cannot move at all. */
  ghost predicate Link(env: Env, s: StagingState, x: string, w: seq<string>, i: int)
    requires 0 <= i < |w| - 1
  {
    Blocks(env, s, w[i], w[i + 1]) && (LexLess(x, w[i + 1]) || !Eligible(s, w[i + 1]))
  }

  ghost predicate BlockingWalk(env: Env, s: StagingState, x: string, w: seq<string>) {
    w != [] && w[0] == x && forall i {:trigger Link(env, s, x, w, i)} :: 0 <= i < |w| - 1 ==> Link(env, s, x, w, i)
  }

  /** From `x` the walk runs into itself or into a building that cannot move. */
  ghost predicate Knot(env: Env, s: StagingState, x: string, w: seq<string>) {
    BlockingWalk(env, s, x, w) && (!NoDuplicates(w) || !Eligible(s, w[|w| - 1]))
  }

  /**
   No building that can move is caught, through blockers named after it, in a cycle it is
   not part of or behind a building that cannot move.
   */
  ghost predicate Untangled(env: Env, s: StagingState) {
    forall x, w {:trigger Knot(env, s, x, w)} :: Eligible(s, x) ==> !Knot(env, s, x, w)
  }

  lemma WalkAfterHome(env: Env, s: StagingState, id: string, x: string, w: seq<string>)
    requires Aimed(env, s) && TargetsApart(env) && id in s.pending
    requires x != id && Knot(env, Home(s, id), x, w)
    ensures Knot(env, s, x, w)
  {
    var t := Home(s, id);
    assert AimedMove(env, id, s.pending[id]);
    HomeOffWalks(env, s, id, x, w);
    forall i | 0 <= i < |w| - 1 ensures Link(env, s, x, w, i) {
      assert Link(env, t, x, w, i);
      HomeBlocks(env, s, id, w[i], w[i + 1]);
      EligibleAfterHome(s, id, w[i + 1]);
    }
    EligibleAfterHome(s, id, w[|w| - 1]);
  }

  /** Nobody waits for a building that is home. */
  lemma HomeOffWalks(env: Env, s: StagingState, id: string, x: string, w: seq<string>)
    requires Aimed(env, s) && TargetsApart(env) && id in s.pending
    requires x != id && BlockingWalk(env, Home(s, id), x, w)
    ensures forall j :: 0 <= j < |w| ==> w[j] != id
  {
    forall j | 0 < j < |w| ensures w[j] != id {
      assert Link(env, Home(s, id), x, w, j - 1);
      HomeBlocks(env, s, id, w[j - 1], w[j]);
    }
  }

  /** Whoever is ready ends every walk it is on. */
  lemma ReadyIsLast(env: Env, s: StagingState, id: string, x: string, w: seq<string>)
    requires Ready(env, s, id) && BlockingWalk(env, s, x, w)
    ensures forall i :: 0 <= i < |w| - 1 ==> w[i] != id
  {
    forall i | 0 <= i < |w| - 1 ensures w[i] != id { assert Link(env, s, x, w, i); }
  }

  lemma WalkBeforeHome(env: Env, s: StagingState, id: string, x: string, w: seq<string>)
    requires Aimed(env, s) && TargetsApart(env) && id in s.pending && x != id
    requires BlockingWalk(env, s, x, w) && id !in w
    ensures BlockingWalk(env, Home(s, id), x, w)
    ensures Eligible(Home(s, id), w[|w| - 1]) <==> Eligible(s, w[|w| - 1])
  {
    var t := Home(s, id);
    assert AimedMove(env, id, s.pending[id]);
    forall i | 0 <= i < |w| - 1 ensures Link(env, t, x, w, i) {
      assert Link(env, s, x, w, i);
      assert w[i] in w && w[i + 1] in w;
      HomeBlocks(env, s, id, w[i], w[i + 1]);
      EligibleAfterHome(s, id, w[i + 1]);
    }
    assert w[|w| - 1] in w;
    EligibleAfterHome(s, id, w[|w| - 1]);
  }

  lemma WalkFront(env: Env, s: StagingState, x: string, w: seq<string>, n: nat)
    requires BlockingWalk(env, s, x, w) && 0 < n <= |w|
    ensures BlockingWalk(env, s, x, w[..n])
  {
    forall i | 0 <= i < n - 1 ensures Link(env, s, x, w[..n], i) { assert Link(env, s, x, w, i); }
  }

  /** A knot does not depend on somebody who can go home at once. */
  lemma KnotSurvivesHome(env: Env, s: StagingState, id: string, x: string, w: seq<string>) returns (v: seq<string>)
    requires Aimed(env, s) && TargetsApart(env) && Ready(env, s, id) && Eligible(s, x) && Knot(env, s, x, w)
    ensures x != id && Knot(env, Home(s, id), x, v)
  {
    ReadyIsLast(env, s, id, x, w);
    v := w;
    if id in w {
      FrontRepeats(w);
      v := w[..|w| - 1];
      WalkFront(env, s, x, w, |w| - 1);
    }
    WalkBeforeHome(env, s, id, x, v);
  }

  /** A repetition that spares the last element is in the front already. */
  lemma FrontRepeats(w: seq<string>)
    requires w != [] && !NoDuplicates(w) && forall j :: 0 <= j < |w| - 1 ==> w[j] != w[|w| - 1]
    ensures |w| > 1 && !NoDuplicates(w[..|w| - 1])
  {
    var i, j :| 0 <= i < j < |w| && w[i] == w[j];
    assert w[..|w| - 1][i] == w[..|w| - 1][j];
  }

  /** The pivot is on no walk of a building that can move, except as its start. */
  lemma PivotOffWalks(env: Env, s: StagingState, p: string, x: string, w: seq<string>)
    requires Pivot(s, p) && Eligible(s, x) && BlockingWalk(env, s, x, w)
    ensures forall i :: 0 < i < |w| ==> w[i] != p
  {
    forall i | 0 < i < |w| ensures w[i] != p {
      assert Link(env, s, x, w, i - 1);
      LexAsymmetric(x, p);
      LexTrichotomy(p, p);
    }
  }

  lemma KnotAfterStage(env: Env, s: StagingState, p: string, cell: Point, x: string, w: seq<string>)
    requires Aimed(env, s) && p in s.pos && Legal(env, s.pos, p, cell) && Pivot(s, p) && Eligible(s, x)
    ensures Knot(env, Stage(s, p, cell), x, w) <==> Knot(env, s, x, w)
  {
    var t := Stage(s, p, cell);
    if BlockingWalk(env, s, x, w) { PivotOffWalks(env, s, p, x, w); }
    forall i | 0 <= i < |w| - 1 && (w[i + 1] != p || Link(env, t, x, w, i))
      ensures Link(env, t, x, w, i) <==> Link(env, s, x, w, i)
    {
      StageBlocks(env, s, p, cell, w[i], w[i + 1]);
      EligibleAfterStage(env, s, p, cell, w[i + 1]);
    }
    if w != [] { EligibleAfterStage(env, s, p, cell, w[|w| - 1]); }
  }

  /** Neither kind of turn ties or unties a knot. */
  lemma UntangledKept(env: Env, s: StagingState, t: StagingState)
    requires Aimed(env, s) && TargetsApart(env) && Next(env, s, t)
    ensures Untangled(env, s) <==> Untangled(env, t)
  {
    if id :| GoesHome(env, s, id, t) {
      UntangledAfterHome(env, s, id);
    } else {
      var id, cell :| StepsAside(env, s, id, cell, t);
      UntangledAfterStage(env, s, id, cell);
    }
  }

  lemma UntangledAfterHome(env: Env, s: StagingState, id: string)
    requires Aimed(env, s) && TargetsApart(env) && Ready(env, s, id) && id in s.pos
    ensures Untangled(env, s) <==> Untangled(env, Home(s, id))
  {
    var t := Home(s, id);
    forall x, w | Eligible(t, x) && Knot(env, t, x, w) ensures Eligible(s, x) && Knot(env, s, x, w) {
      EligibleAfterHome(s, id, x);
      WalkAfterHome(env, s, id, x, w);
    }
    forall x, w | Eligible(s, x) && Knot(env, s, x, w) ensures !Untangled(env, t) {
      var v := KnotSurvivesHome(env, s, id, x, w);
      EligibleAfterHome(s, id, x);
    }
  }

  lemma UntangledAfterStage(env: Env, s: StagingState, p: string, cell: Point)
    requires Aimed(env, s) && p in s.pos && Legal(env, s.pos, p, cell) && Pivot(s, p)
    ensures Untangled(env, s) <==> Untangled(env, Stage(s, p, cell))
  {
    var t := Stage(s, p, cell);
    forall x ensures Eligible(t, x) <==> Eligible(s, x) { EligibleAfterStage(env, s, p, cell, x); }
    forall x, w | Eligible(s, x) ensures Knot(env, t, x, w) <==> Knot(env, s, x, w) {
      KnotAfterStage(env, s, p, cell, x, w);
    }
  }

  // ---- Standing still ----------------------------------------------------------------

  /** From a pivot that blocks nobody, blockers can be followed until a knot shows. */
  lemma {:induction false} WalkOn(env: Env, s: StagingState, p: string, n: nat) returns (w: seq<string>)
    requires Aimed(env, s) && NoneReady(env, s) && Pivot(s, p) && forall q :: !Blocks(env, s, q, p)
    ensures BlockingWalk(env, s, p, w)
    ensures Knot(env, s, p, w) || (|w| == n + 1 && forall i :: 0 <= i < |w| ==> Eligible(s, w[i]))
    decreases n
  {
    if n == 0 {
      w := [p];
    } else {
      w := WalkOn(env, s, p, n - 1);
      if !Knot(env, s, p, w) { w := OneBlockerOn(env, s, p, w); }
    }
  }

  lemma OneBlockerOn(env: Env, s: StagingState, p: string, w: seq<string>) returns (v: seq<string>)
    requires Aimed(env, s) && NoneReady(env, s) && Pivot(s, p) && forall q :: !Blocks(env, s, q, p)
    requires BlockingWalk(env, s, p, w) && forall i :: 0 <= i < |w| ==> Eligible(s, w[i])
    ensures BlockingWalk(env, s, p, v)
    ensures Knot(env, s, p, v) || (|v| == |w| + 1 && forall i :: 0 <= i < |v| ==> Eligible(s, v[i]))
  {
    var b := BlockerOf(env, s, w[|w| - 1]);
    v := w + [b];
    WalkBack(env, s, p, w, b);
  }

  lemma BlockerOf(env: Env, s: StagingState, q: string) returns (b: string)
    requires Aimed(env, s) && NoneReady(env, s) && Eligible(s, q)
    ensures Blocks(env, s, q, b)
  {
    assert AimedMove(env, q, s.pending[q]);
    ReadyIffUnblocked(env, s, q);
    assert !Ready(env, s, q);
    b :| Blocks(env, s, q, b);
  }

  lemma WalkBack(env: Env, s: StagingState, x: string, w: seq<string>, b: string)
    requires BlockingWalk(env, s, x, w) && Blocks(env, s, w[|w| - 1], b) && (LexLess(x, b) || !Eligible(s, b))
    ensures BlockingWalk(env, s, x, w + [b])
  {
    var v := w + [b];
    forall i | 0 <= i < |v| - 1 ensures Link(env, s, x, v, i) {
      if i < |w| - 1 { assert Link(env, s, x, w, i); }
    }
  }

  lemma EligibleArePlaced(env: Env, s: StagingState, w: seq<string>)
    requires Aimed(env, s) && NoDuplicates(w) && forall i :: 0 <= i < |w| ==> Eligible(s, w[i])
    ensures |w| <= |s.pos.Keys|
  {
    forall i | 0 <= i < |w| ensures w[i] in s.pos.Keys { assert AimedMove(env, w[i], s.pending[w[i]]); }
    NoDuplicatesBound(w, s.pos.Keys);
  }

  /** A standstill shows a knot: the loop only stops moving where it is tangled. */
  lemma StutterIsTangled(env: Env, s: StagingState)
    requires Aimed(env, s) && Stutters(env, s)
    ensures !Untangled(env, s)
  {
    var p :| Pivot(s, p) && StandsLegally(env, s, p);
    forall q ensures !Blocks(env, s, q, p) {
      if q in s.pending && q != p { LegalBlocksNobody(env, s, p, s.pos[p], q); }
    }
    var w := WalkOn(env, s, p, |s.pos.Keys|);
    if !Knot(env, s, p, w) { EligibleArePlaced(env, s, w); }
  }

  /**
   Right after the pivot `p` stepped aside the loop stands still exactly when nobody was
   waiting for `p` alone.
   */
  lemma StandsStillUnlessAwaited(env: Env, s: StagingState, p: string, cell: Point, t: StagingState)
    requires Aimed(env, s) && StepsAside(env, s, p, cell, t)
    ensures Stutters(env, t) <==> !exists q :: WaitsForAlone(env, s, q, p)
  {
    StageKeepsLegal(env, s, p, cell, p);
    forall o ensures Eligible(t, o) <==> Eligible(s, o) { EligibleAfterStage(env, s, p, cell, o); }
    assert Pivot(t, p);
    forall q ensures Ready(env, t, q) <==> WaitsForAlone(env, s, q, p) {
      if Eligible(s, q) { ReadyAfterStage(env, s, p, cell, q); }
    }
    if exists q :: WaitsForAlone(env, s, q, p) {
      var q :| WaitsForAlone(env, s, q, p);
      assert Ready(env, t, q);
    }
  }

  /** `q` can move and only `p` is in its way. */
  ghost predicate WaitsForAlone(env: Env, s: StagingState, q: string, p: string) {
    Eligible(s, q) && q != p && forall b :: Blocks(env, s, q, b) ==> b == p
  }

  lemma ReadyAfterStage(env: Env, s: StagingState, p: string, cell: Point, q: string)
    requires Aimed(env, s) && NoneReady(env, s) && p in s.pos && Legal(env, s.pos, p, cell) && Eligible(s, q)
    ensures Ready(env, Stage(s, p, cell), q) <==> WaitsForAlone(env, s, q, p)
  {
    var t := Stage(s, p, cell);
    assert AimedMove(env, q, s.pending[q]);
    EligibleAfterStage(env, s, p, cell, q);
    ReadyIffUnblocked(env, t, q);
    ReadyIffUnblocked(env, s, q);
    assert !Ready(env, s, q);
    forall b ensures Blocks(env, t, q, b) <==> b != p && Blocks(env, s, q, b) { StageBlocks(env, s, p, cell, q, b); }
  }

  // ---- How the loop ends -------------------------------------------------------------

  /** Nobody who can move is still pending. */
  ghost predicate AllMoved(s: StagingState) {
    forall x {:trigger Eligible(s, x)} :: !Eligible(s, x)
  }

  /** Nobody can go home and the pivot has no legal place to go. */
  ghost predicate Cornered(env: Env, s: StagingState) {
    NoneReady(env, s) && exists p :: Pivot(s, p) && forall cell: Point :: !Legal(env, s.pos, p, cell)
  }

  lemma HaltedExactly(env: Env, s: StagingState)
    ensures Halted(env, s) <==> AllMoved(s) || Cornered(env, s)
  {
    if AllMoved(s) {
      forall id ensures !Ready(env, s, id) { assert !Eligible(s, id); }
    }
    if Halted(env, s) && !AllMoved(s) {
      var eligible := set id | id in s.pending && Eligible(s, id);
      var x :| Eligible(s, x);
      assert x in eligible;
      var p := LeastOf(eligible);
      assert Pivot(s, p);
    }
    if Cornered(env, s) {
      var p :| Pivot(s, p) && forall cell: Point :: !Legal(env, s.pos, p, cell);
      forall id, cell | Pivot(s, id) ensures !Legal(env, s.pos, id, cell) { PivotUnique(s, id, p); }
    }
  }

  /** As tangled as the first state was. */
  ghost predicate AsTangled(env: Env, untangled: bool, s: StagingState) {
    Aimed(env, s) && Untangled(env, s) == untangled
  }

  lemma AsTangledKept(env: Env, untangled: bool, s: StagingState, t: StagingState)
    requires TargetsApart(env) && AsTangled(env, untangled, s) && Next(env, s, t)
    ensures AsTangled(env, untangled, t)
  {
    AimedKept(env, s, t);
    UntangledKept(env, s, t);
  }

  lemma UntangledAlong(env: Env, trace: seq<StagingState>, k: nat)
    requires Run(env, trace) && Aimed(env, trace[0]) && TargetsApart(env) && k < |trace|
    ensures AsTangled(env, Untangled(env, trace[0]), trace[k])
  {
    var untangled := Untangled(env, trace[0]);
    forall j | 0 < j <= k && AsTangled(env, untangled, trace[j - 1]) ensures AsTangled(env, untangled, trace[j]) {
      assert Turn(env, trace, j - 1);
      AsTangledKept(env, untangled, trace[j - 1], trace[j]);
    }
    RunInvariant(trace, k, s => AsTangled(env, untangled, s));
  }

  lemma TangledAt(env: Env, s: StagingState, t: StagingState)
    requires Aimed(env, s) && TargetsApart(env) && RunTo(env, s, t)
    ensures AsTangled(env, Untangled(env, s), t)
  {
    var trace := TraceTo(env, s, t);
    UntangledAlong(env, trace, |trace| - 1);
  }

  lemma TraceTo(env: Env, s: StagingState, t: StagingState) returns (trace: seq<StagingState>)
    requires RunTo(env, s, t)
    ensures Run(env, trace) && trace[0] == s && trace[|trace| - 1] == t
  {
    trace :| Run(env, trace) && trace[0] == s && trace[|trace| - 1] == t;
  }

  lemma UntangledAt(env: Env, s: StagingState, t: StagingState)
    requires Aimed(env, s) && TargetsApart(env) && RunTo(env, s, t)
    ensures Aimed(env, t) && (Untangled(env, t) <==> Untangled(env, s))
  {
    TangledAt(env, s, t);
  }

  /** What a run can lead to, told from its first state. */
  lemma RunsAsTangled(env: Env, s: StagingState, t: StagingState)
    requires Aimed(env, s) && TargetsApart(env) && RunTo(env, s, t)
    ensures Stutters(env, t) ==> !Untangled(env, s)
    ensures AllMoved(t) ==> Untangled(env, s)
  {
    UntangledAt(env, s, t);
    if Stutters(env, t) { StutterIsTangled(env, t); }
  }

  /** The loop is over with everybody home who can move, or stands still, or has no place to go. */
  ghost predicate EndsAs(env: Env, t: StagingState, untangled: bool) {
    Cornered(env, t) || if untangled then AllMoved(t) else Stutters(env, t)
  }

  /**
   An untangled start brings everybody home who can move, unless a pivot finds no legal
   place; a tangled one does so never, and runs for ever unless a pivot finds no legal place.
   */
  lemma EndsAsTangled(env: Env, s: StagingState)
    requires Aimed(env, s) && TargetsApart(env)
    ensures exists t :: RunTo(env, s, t) && EndsAs(env, t, Untangled(env, s))
  {
    var trace := EndsOrStutters(env, s);
    var t := trace[|trace| - 1];
    assert RunTo(env, s, t);
    RunsAsTangled(env, s, t);
    HaltedExactly(env, t);
  }

  /** Where no pivot lacks a place, the loop runs for ever exactly when its start is tangled. */
  lemma RunsForeverIffTangled(env: Env, s: StagingState)
    requires Aimed(env, s) && TargetsApart(env)
    requires forall t :: RunTo(env, s, t) ==> !Cornered(env, t)
    ensures (exists t :: RunTo(env, s, t) && Stutters(env, t)) <==> !Untangled(env, s)
    ensures (exists t :: RunTo(env, s, t) && AllMoved(t)) <==> Untangled(env, s)
  {
    EndsAsTangled(env, s);
    forall t | RunTo(env, s, t)
      ensures (Stutters(env, t) ==> !Untangled(env, s)) && (AllMoved(t) ==> Untangled(env, s))
    {
      RunsAsTangled(env, s, t);
    }
  }

  // ---- Two that change places --------------------------------------------------------

  /** `a` and `b` are all that is pending and stand only in each other's way. */
  ghost predicate Swapping(env: Env, s: StagingState, a: string, b: string) {
    && a != b && LexLess(a, b) && s.pending.Keys == {a, b} && Eligible(s, a) && Eligible(s, b)
    && forall q, x {:trigger Blocks(env, s, q, x)} :: Blocks(env, s, q, x) <==> (q == a && x == b) || (q == b && x == a)
  }

  lemma BlockedIsNotReady(env: Env, s: StagingState, q: string, b: string)
    requires Blocks(env, s, q, b)
    ensures !Ready(env, s, q)
  {
    if Eligible(s, q) { ReadyIffUnblocked(env, s, q); }
  }

  lemma SwapWaits(env: Env, s: StagingState, a: string, b: string)
    requires Swapping(env, s, a, b)
    ensures NoneReady(env, s) && Pivot(s, a)
  {
    assert Blocks(env, s, a, b) && Blocks(env, s, b, a);
    BlockedIsNotReady(env, s, a, b);
    BlockedIsNotReady(env, s, b, a);
  }

  /** Somebody unblocked, with nobody else ready, goes home next. */
  lemma OnlyOneGoesHome(env: Env, s: StagingState, p: string)
    requires Aimed(env, s) && Eligible(s, p) && (forall x :: !Blocks(env, s, p, x))
    requires forall q {:trigger Ready(env, s, q)} :: q != p ==> !Ready(env, s, q)
    ensures GoesHome(env, s, p, Home(s, p))
  {
    assert AimedMove(env, p, s.pending[p]);
    ReadyIffUnblocked(env, s, p);
  }

  /** The second goes home as soon as the first has stepped aside. */
  lemma SwapFreesSecond(env: Env, s: StagingState, a: string, b: string, cell: Point)
    requires Aimed(env, s) && Swapping(env, s, a, b) && a in s.pos && Legal(env, s.pos, a, cell)
    ensures var t := Stage(s, a, cell);
      && Aimed(env, t) && t.pending.Keys == {a, b} && Eligible(t, a)
      && (forall q, x {:trigger Blocks(env, t, q, x)} :: Blocks(env, t, q, x) <==> q == a && x == b)
      && b in t.pos && GoesHome(env, t, b, Home(t, b))
  {
    var t := Stage(s, a, cell);
    AimedAfterStage(env, s, a, cell);
    forall q, x ensures Blocks(env, t, q, x) <==> q == a && x == b { StageBlocks(env, s, a, cell, q, x); }
    EligibleAfterStage(env, s, a, cell, a);
    EligibleAfterStage(env, s, a, cell, b);
    assert Blocks(env, t, a, b);
    BlockedIsNotReady(env, t, a, b);
    OnlyOneGoesHome(env, t, b);
  }

  /** Then nothing is left in the way of the first. */
  lemma SwapFreesFirst(env: Env, t: StagingState, a: string, b: string)
    requires Aimed(env, t) && TargetsApart(env) && t.pending.Keys == {a, b} && a != b && Eligible(t, a) && b in t.pos
    requires forall q, x {:trigger Blocks(env, t, q, x)} :: Blocks(env, t, q, x) <==> q == a && x == b
    ensures t.pending[b].destination.Some?
    ensures var u := Home(t, b);
      && Aimed(env, u) && u.pending.Keys == {a} && a in u.pos && u.pending[a].destination.Some?
      && GoesHome(env, u, a, Home(u, a)) && Home(u, a).pending == map[]
  {
    assert AimedMove(env, b, t.pending[b]);
    var u := Home(t, b);
    AimedAfterHome(env, t, b);
    forall q, x ensures !Blocks(env, u, q, x) { HomeBlocks(env, t, b, q, x); }
    EligibleAfterHome(t, b, a);
    assert u.pending.Keys == {a};
    assert AimedMove(env, a, u.pending[a]);
    OnlyOneGoesHome(env, u, a);
  }

  lemma StepRunsTo(env: Env, s: StagingState, t: StagingState, u: StagingState)
    requires Next(env, s, t) && RunTo(env, t, u)
    ensures RunTo(env, s, u)
  {
    var trace :| Run(env, trace) && trace[0] == t && trace[|trace| - 1] == u;
    RunPrepend(env, s, trace);
    var longer := [s] + trace;
    assert longer[0] == s && longer[|longer| - 1] == u;
  }

  lemma RunsToSelf(env: Env, s: StagingState)
    ensures RunTo(env, s, s)
  {
    assert Run(env, [s]);
  }

  /** A swap takes three turns: the first by name steps aside, the other goes home, then the first. */
  lemma SwapRunsHome(env: Env, s: StagingState, a: string, b: string, cell: Point) returns (end: StagingState)
    requires Aimed(env, s) && TargetsApart(env) && Swapping(env, s, a, b) && a in s.pos && Best(env, s, a, cell)
    ensures RunTo(env, s, end) && end.pending == map[]
  {
    SwapWaits(env, s, a, b);
    var t := Stage(s, a, cell);
    assert StepsAside(env, s, a, cell, t);
    SwapFreesSecond(env, s, a, b, cell);
    SwapFreesFirst(env, t, a, b);
    var u := Home(t, b);
    end := Home(u, a);
    RunsToSelf(env, end);
    StepRunsTo(env, u, end, end);
    StepRunsTo(env, t, u, end);
    StepRunsTo(env, s, t, end);
  }

  /** A run that cannot go on has reached the only end there is. */
  lemma EndIsUnique(env: Env, s: StagingState, t: StagingState, u: StagingState)
    requires Aimed(env, s) && RunTo(env, s, t) && RunTo(env, s, u)
    requires Halted(env, u) && (Halted(env, t) || Stutters(env, t))
    ensures t == u
  {
    var a :| Run(env, a) && a[0] == s && a[|a| - 1] == t;
    var b :| Run(env, b) && b[0] == s && b[|b| - 1] == u;
    if |a| < |b| { HaltedNotPassed(env, a, b); }
    if |a| <= |b| && Stutters(env, t) { StutterNotLeft(env, b, a); }
    if |b| < |a| { HaltedNotPassed(env, b, a); }
    SameStart(env, a, b, |a| - 1);
  }

  /** The loop resolves a swap exactly when the first by name has a legal place to step aside to. */
  lemma SwapResolvedExactly(env: Env, s: StagingState, a: string, b: string, t: StagingState)
    requires Aimed(env, s) && TargetsApart(env) && Swapping(env, s, a, b) && a in s.pos
    requires RunTo(env, s, t) && (Halted(env, t) || Stutters(env, t))
    ensures Halted(env, t)
    ensures t.pending == map[] <==> exists cell :: Legal(env, s.pos, a, cell)
  {
    SwapWaits(env, s, a, b);
    if some :| Legal(env, s.pos, a, some) {
      var cell := BestExists(env, s, a, some);
      var end := SwapRunsHome(env, s, a, b, cell);
      HaltedExactly(env, end);
      EndIsUnique(env, s, t, end);
    } else {
      HaltedExactly(env, s);
      RunsToSelf(env, s);
      EndIsUnique(env, s, t, s);
    }
  }
}
