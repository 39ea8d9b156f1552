/** Room to step aside: when no pivot is ever without a legal place. */
module StagingRoom {
  import opened CityMap
  import opened Construction
  import opened Planner
  import opened Buildability
  import opened StagingModel
  import opened StagingProgress
  import opened StagingSafety
  import opened StagingKnots
  import opened StagingSolver
  import opened PlanKnots
  import opened StagingCompletes

  /** Building `a` at `o` and building `b` at `p` would share a cell. */
  ghost predicate Meets(c: City, a: string, o: Point, b: string, p: Point) {
    !(At(c, a, o) !! At(c, b, p))
  }

  /** Places for `x` that nobody who stays put is on, and of which no other pending building can meet two. */
  ghost predicate Refuges(env: Env, s: StagingState, x: string, cells: set<Point>) {
    && (forall c {:trigger Legal(env, map[], x, c)} :: c in cells ==> Legal(env, map[], x, c))
    && (forall c, o {:trigger Meets(env.original, o, s.pos[o], x, c)} ::
          c in cells && o in s.pos && o !in s.pending ==> !Meets(env.original, o, s.pos[o], x, c))
    && (forall c, d, o, y {:trigger Meets(env.original, o, y, x, c), Meets(env.original, o, y, x, d)} ::
          c in cells && d in cells && c != d && o in s.pending && o != x ==>
            !(Meets(env.original, o, y, x, c) && Meets(env.original, o, y, x, d)))
  }

  /** Every pending building has as many such places as buildings are pending. */
  ghost predicate HasRoom(env: Env, s: StagingState) {
    forall x {:trigger x in s.pending} ::
      x in s.pending ==> exists cells :: Refuges(env, s, x, cells) && |cells| >= |s.pending|
  }

  // ---- What a run never changes ------------------------------------------------------

  /** Only buildings pending in `s` have moved since. */
  ghost predicate OnlyPendingMoved(s: StagingState, t: StagingState) {
    && t.pos.Keys == s.pos.Keys && t.pending.Keys <= s.pending.Keys
    && forall o {:trigger t.pos[o]} :: o in s.pos && o !in s.pending ==> t.pos[o] == s.pos[o]
  }

  lemma OnlyPendingMove(env: Env, start: StagingState, s: StagingState, t: StagingState)
    requires OnlyPendingMoved(start, s) && Next(env, s, t)
    ensures OnlyPendingMoved(start, t)
  {
    if id :| GoesHome(env, s, id, t) {
      assert id in s.pending && t.pending.Keys == s.pending.Keys - {id};
    } else {
      var id, cell :| StepsAside(env, s, id, cell, t);
      assert id in s.pending;
    }
  }

  lemma OnlyPendingMovedAlong(env: Env, trace: seq<StagingState>, k: nat)
    requires Run(env, trace) && k < |trace|
    ensures OnlyPendingMoved(trace[0], trace[k])
  {
    var start := trace[0];
    forall j | 0 < j <= k && OnlyPendingMoved(start, trace[j - 1]) ensures OnlyPendingMoved(start, trace[j]) {
      assert Turn(env, trace, j - 1);
      OnlyPendingMove(env, start, trace[j - 1], trace[j]);
    }
    RunInvariant(trace, k, s => OnlyPendingMoved(start, s));
  }

  // ---- Counting blockers -------------------------------------------------------------

  lemma {:induction false} AtMostAsMany(cells: set<Point>, names: set<string>, blocker: map<Point, string>)
    requires blocker.Keys == cells && forall c :: c in cells ==> blocker[c] in names
    requires forall c, d :: c in cells && d in cells && c != d ==> blocker[c] != blocker[d]
    ensures |cells| <= |names|
    decreases cells
  {
    if cells != {} {
      var c :| c in cells;
      var fewer := map d | d in cells - {c} :: blocker[d];
      AtMostAsMany(cells - {c}, names - {blocker[c]}, fewer);
    }
  }

  ghost predicate BlockedBy(env: Env, s: StagingState, x: string, c: Point, o: string) {
    o in s.pos && o != x && Meets(env.original, o, s.pos[o], x, c)
  }

  lemma SomebodyBlocks(env: Env, s: StagingState, x: string, c: Point)
    requires Legal(env, map[], x, c) && !Legal(env, s.pos, x, c)
    ensures exists o :: BlockedBy(env, s, x, c, o)
  {
    var cells := At(env.original, x, c);
    assert !ClearOf(env.original, s.pos, x, cells);
    var o :| o in s.pos && o != x && !(At(env.original, o, s.pos[o]) !! cells);
    assert BlockedBy(env, s, x, c, o);
  }

  ghost function SomeBlocker(env: Env, s: StagingState, x: string, c: Point): (o: string)
    ensures (exists p :: BlockedBy(env, s, x, c, p)) ==> BlockedBy(env, s, x, c, o)
  {
    if p :| BlockedBy(env, s, x, c, p) then p else ""
  }

  lemma BlockerIsPending(env: Env, start: StagingState, s: StagingState, x: string, cells: set<Point>, c: Point)
    requires Refuges(env, start, x, cells) && OnlyPendingMoved(start, s) && c in cells && !Legal(env, s.pos, x, c)
    ensures BlockedBy(env, s, x, c, SomeBlocker(env, s, x, c)) && SomeBlocker(env, s, x, c) in start.pending.Keys - {x}
  {
    assert Legal(env, map[], x, c);
    SomebodyBlocks(env, s, x, c);
    forall o | o in s.pos && o !in start.pending ensures !Meets(env.original, o, s.pos[o], x, c) {
      assert !Meets(env.original, o, start.pos[o], x, c);
    }
  }

  /** If every refuge is blocked there are fewer of them than pending buildings. */
  lemma CrowdedOut(env: Env, start: StagingState, s: StagingState, x: string, cells: set<Point>)
    requires Refuges(env, start, x, cells) && OnlyPendingMoved(start, s) && x in start.pending
    requires forall c :: c in cells ==> !Legal(env, s.pos, x, c)
    ensures |cells| < |start.pending|
  {
    var blocker := map c | c in cells :: SomeBlocker(env, s, x, c);
    forall c | c in cells ensures blocker[c] in start.pending.Keys - {x} && BlockedBy(env, s, x, c, blocker[c]) {
      BlockerIsPending(env, start, s, x, cells, c);
    }
    forall c, d | c in cells && d in cells && c != d ensures blocker[c] != blocker[d] {
      OneBlocksOne(env, start, s, x, cells, c, d, blocker[c]);
    }
    AtMostAsMany(cells, start.pending.Keys - {x}, blocker);
    assert |start.pending.Keys - {x}| == |start.pending| - 1;
  }

  lemma OneBlocksOne(env: Env, start: StagingState, s: StagingState, x: string, cells: set<Point>, c: Point, d: Point,
                     o: string)
    requires Refuges(env, start, x, cells) && c in cells && d in cells && c != d && o in start.pending && o != x
    ensures !(BlockedBy(env, s, x, c, o) && BlockedBy(env, s, x, d, o))
  {
  }

  /** Where every pending building has room no pivot is ever without a legal place. */
  lemma RoomyIsNeverCornered(env: Env, s: StagingState, t: StagingState)
    requires HasRoom(env, s) && RunTo(env, s, t)
    ensures !Cornered(env, t)
  {
    var trace := TraceTo(env, s, t);
    OnlyPendingMovedAlong(env, trace, |trace| - 1);
    forall p | Pivot(t, p) ensures exists cell :: Legal(env, t.pos, p, cell) {
      assert p in s.pending;
      FindsRoom(env, s, t, p);
    }
  }

  lemma FindsRoom(env: Env, start: StagingState, s: StagingState, x: string)
    requires HasRoom(env, start) && OnlyPendingMoved(start, s) && x in start.pending
    ensures exists cell :: Legal(env, s.pos, x, cell)
  {
    var cells :| Refuges(env, start, x, cells) && |cells| >= |start.pending|;
    if forall c :: c in cells ==> !Legal(env, s.pos, x, c) { CrowdedOut(env, start, s, x, cells); }
  }

  // ---- What the solver answers then --------------------------------------------------

  /**
   With room the loop runs for ever exactly from a tangled start, and otherwise brings
   everybody home who can move.
   */
  lemma RoomyRunsForeverIffTangled(env: Env, s: StagingState)
    requires Aimed(env, s) && TargetsApart(env) && HasRoom(env, s)
    ensures (exists t :: RunTo(env, s, t) && Stutters(env, t)) <==> !Untangled(env, s)
    ensures (exists t :: RunTo(env, s, t) && AllMoved(t)) <==> Untangled(env, s)
  {
    forall t | RunTo(env, s, t) ensures !Cornered(env, t) { RoomyIsNeverCornered(env, s, t); }
    RunsForeverIffTangled(env, s);
  }

  /**
   With room, told from the planner's output: the solver runs for ever exactly on a tangled
   plan, and resolves a plan in full exactly when it is untangled and its cycles are pure.
   */
  lemma RoomyIsDecided(original: City, plan: JointPlan, cp: ConstructionPlan, ids: seq<StepId>,
                       r: Resolution, trace: seq<StagingState>, tail: seq<Step>, left: set<StepId>)
    requires IsDiff(original, plan) && Buildable(original, plan.result) && Planned(original, plan, cp, ids)
    requires Answers(original, plan, cp, r, trace, tail, left)
    requires HasRoom(EnvOf(original, plan, ids), StartOf(original, plan, cp, ids))
    ensures r.RunsForever? <==> !PlanUntangled(original, plan)
    ensures r.Resolved? && r.plan.unresolved == [] <==> PlanUntangled(original, plan) && PureCycles(original, plan)
  {
    UntangledIsResolved(original, plan, cp, ids, r, trace, tail, left);
    if UnresolvedMoves(cp.unresolved) == map[] {
      forall x ensures !Stuck(original, plan, x) { PendingIffStuck(original, plan, cp, ids, x); }
    } else {
      AnswerRuns(original, plan, cp, ids, r, trace, tail, left);
      assert RunTo(EnvOf(original, plan, ids), StartOf(original, plan, cp, ids), trace[|trace| - 1]);
      RoomyIsNeverCornered(EnvOf(original, plan, ids), StartOf(original, plan, cp, ids), trace[|trace| - 1]);
      LoopEndsAsPlanned(original, plan, cp, ids, trace[|trace| - 1]);
    }
  }
}
