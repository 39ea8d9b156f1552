/** The planner's results: what it orders, what it leaves, and where its order leads. */
module PlanReplay {
  import opened Wrappers
  import opened Orders
  import opened CityMap
  import opened Construction
  import opened Topology
  import opened Planner
  import opened Buildability

  lemma {:induction false} MoveStepsKeyed(moves: seq<LayoutMove>, id: StepId)
    requires id in MoveSteps(moves)
    ensures MoveSteps(moves)[id].id == id && MoveSteps(moves)[id].kind == MoveBuilding
    ensures MoveSteps(moves)[id].building == Some(id.building)
  {
    var front, last := moves[..|moves| - 1], moves[|moves| - 1];
    assert moves == front + [last];
    if MoveId(last.building) != id { MoveStepsKeyed(front, id); }
  }

  lemma StepsKeyed(plan: JointPlan, id: StepId)
    requires id in Steps(plan)
    ensures Steps(plan)[id].id == id
    ensures Steps(plan)[id].kind == MoveBuilding <==> id.MoveId?
    ensures id.MoveId? ==> Steps(plan)[id].building == Some(id.building)
  {
    if id.MoveId? {
      MoveStepsKeyed(plan.moves, id);
      assert id !in EditSteps(plan.edits);
    } else {
      EditStepsOrigin(plan.edits, id);
    }
  }

  lemma AttachKeepsIds(plan: JointPlan, g: Graph, ids: seq<StepId>)
    requires g.Keys == Steps(plan).Keys && forall k :: 0 <= k < |ids| ==> ids[k] in g
    ensures StepIds(Attach(Steps(plan), g, ids)) == ids
  {
    forall k | 0 <= k < |ids| ensures Steps(plan)[ids[k]].id == ids[k] { StepsKeyed(plan, ids[k]); }
  }

  /**
   The planner loses no step and repeats none: ordered and unresolved ids together list
   every step once. A step is left unresolved exactly when its dependencies lead into a
   cycle, and every ordered step comes after all it waits for.
   */
  lemma RemainderExact(original: City, plan: JointPlan, cp: ConstructionPlan, ids: seq<StepId>)
    requires Planned(original, plan, cp, ids)
    ensures NoDuplicates(StepIds(cp.ordered) + StepIds(cp.unresolved))
    ensures Elements(StepIds(cp.ordered) + StepIds(cp.unresolved)) == Steps(plan).Keys
    ensures forall a :: a in Steps(plan) ==>
      (a in StepIds(cp.unresolved) <==> ReachesCycle(DependencyGraph(original, plan), a))
    ensures DependenciesMet(cp.ordered)
  {
    var g := DependencyGraph(original, plan);
    AttachKeepsIds(plan, g, ids);
    AttachKeepsIds(plan, g, Remainder(g, ids));
    forall a | a in Steps(plan) ensures a in Remainder(g, ids) <==> ReachesCycle(g, a) {
      UnresolvedIffCyclic(g, ids, a);
    }
    OrderMeetsDependencies(plan, g, ids);
    ListsJoin(g, ids);
  }

  lemma ListsJoin(g: Graph, ids: seq<StepId>)
    requires Ordered(g, ids)
    ensures NoDuplicates(ids + Remainder(g, ids)) && Elements(ids + Remainder(g, ids)) == g.Keys
  {
    var rest := Remainder(g, ids);
    assert forall k :: 0 <= k < |ids| ==> ids[k] in ids;
    assert forall k :: 0 <= k < |rest| ==> rest[k] in rest;
    forall a ensures a in Elements(ids + rest) <==> a in g {
      assert a in ids + rest <==> a in ids || a in rest;
    }
  }

  lemma OrderMeetsDependencies(plan: JointPlan, g: Graph, ids: seq<StepId>)
    requires g.Keys == Steps(plan).Keys && Ordered(g, ids)
    ensures DependenciesMet(Attach(Steps(plan), g, ids))
  {
    var steps := Attach(Steps(plan), g, ids);
    forall k | 0 <= k < |steps| ensures DependsOnEarlier(steps, k) {
      forall d | d in steps[k].dependsOn ensures exists j :: 0 <= j < k && steps[j].id == d {
        assert d in Elements(ids[..k]);
        var j :| 0 <= j < k && ids[..k][j] == d;
        StepsKeyed(plan, ids[j]);
        assert steps[j].id == d;
      }
    }
  }

  lemma OrderedPrefixClosed(g: Graph, ids: seq<StepId>, k: nat)
    requires Ordered(g, ids) && k <= |ids|
    ensures DownClosed(g, Elements(ids[..k]))
    ensures k < |ids| ==> ids[k] !in Elements(ids[..k]) && Elements(ids[..k + 1]) == Elements(ids[..k]) + {ids[k]}
  {
    forall a | a in Elements(ids[..k]) ensures a in g && g[a] <= Elements(ids[..k]) {
      var j :| 0 <= j < k && ids[..k][j] == a;
      assert forall x :: x in ids[..j] ==> x in ids[..k];
    }
    if k < |ids| {
      assert ids[..k + 1] == ids[..k] + [ids[k]];
      ElementsPush(ids[..k], ids[k]);
    }
  }

  /** The map a replay result stands for, when the replay got through. */
  ghost predicate Reaches(original: City, plan: JointPlan, done: set<StepId>, r: Result<City, StepError>)
    requires SameCatalog(original, plan.result)
  {
    && (r.Success? <==> NeedsMet(original, plan, done))
    && (r.Success? ==> r.value == MapAfter(original, plan.result, done) && r.value.Valid())
  }

  lemma ReachesNext(original: City, plan: JointPlan, done: set<StepId>, r: Result<City, StepError>, a: StepId)
    requires IsDiff(original, plan) && Reaches(original, plan, done, r)
    requires DownClosed(DependencyGraph(original, plan), done)
    requires a in Steps(plan) && a !in done && DependencyGraph(original, plan)[a] <= done
    ensures Reaches(original, plan, done + {a},
      match r case Failure(e) => Failure(e) case Success(c) => ApplyExpected(c, PlanStep(original, plan, a)))
  {
    assert NeedsMet(original, plan, done + {a}) <==> NeedsMet(original, plan, done) && StepNeed(original, plan, a);
    if r.Success? {
      StepNext(original, plan, done, a);
      if StepNeed(original, plan, a) { ApplyKeepsValid(r.value, PlanStep(original, plan, a)); }
    }
  }

  lemma ReachesAtStart(original: City, plan: JointPlan, ids: seq<StepId>)
    requires IsDiff(original, plan) && Ordered(DependencyGraph(original, plan), ids)
    ensures Reaches(original, plan, Elements(ids[..0]),
      Replay(original, Attach(Steps(plan), DependencyGraph(original, plan), ids)[..0]))
  {
    NothingDone(original, plan.result);
    assert Elements(ids[..0]) == {};
  }

  /**
   After any number of the planner's steps the map holds exactly the done part of the
   target, and the replay got that far exactly when each step's need is met.
   */
  lemma {:induction false} ReplayReaches(original: City, plan: JointPlan, ids: seq<StepId>, k: nat)
    requires IsDiff(original, plan) && Ordered(DependencyGraph(original, plan), ids) && k <= |ids|
    ensures Reaches(original, plan, Elements(ids[..k]),
      Replay(original, Attach(Steps(plan), DependencyGraph(original, plan), ids)[..k]))
    decreases k
  {
    if k == 0 {
      ReachesAtStart(original, plan, ids);
    } else {
      ReplayReaches(original, plan, ids, k - 1);
      OneMore(original, plan, ids, k - 1);
    }
  }

  lemma OneMore(original: City, plan: JointPlan, ids: seq<StepId>, k: nat)
    requires IsDiff(original, plan) && Ordered(DependencyGraph(original, plan), ids) && k < |ids|
    requires Reaches(original, plan, Elements(ids[..k]),
      Replay(original, Attach(Steps(plan), DependencyGraph(original, plan), ids)[..k]))
    ensures Reaches(original, plan, Elements(ids[..k + 1]),
      Replay(original, Attach(Steps(plan), DependencyGraph(original, plan), ids)[..k + 1]))
  {
    var steps := Attach(Steps(plan), DependencyGraph(original, plan), ids);
    OrderedPrefixClosed(DependencyGraph(original, plan), ids, k);
    assert steps[k] == PlanStep(original, plan, ids[k]);
    ReplayNext(original, steps, k);
    ReachesNext(original, plan, Elements(ids[..k]), Replay(original, steps[..k]), ids[k]);
  }

  lemma WholeReplay(original: City, plan: JointPlan, cp: ConstructionPlan, ids: seq<StepId>)
    requires IsDiff(original, plan) && Planned(original, plan, cp, ids)
    ensures Reaches(original, plan, Elements(ids), Replay(original, cp.ordered))
  {
    var steps := Attach(Steps(plan), DependencyGraph(original, plan), ids);
    ReplayReaches(original, plan, ids, |ids|);
    Whole(ids);
    Whole(steps);
  }

  /** Even with cycles left over, the ordered part replays with no precondition failing. */
  lemma PrefixReplays(original: City, plan: JointPlan, cp: ConstructionPlan, ids: seq<StepId>)
    requires IsDiff(original, plan) && Planned(original, plan, cp, ids)
    requires Buildable(original, plan.result)
    ensures Replay(original, cp.ordered) == Success(MapAfter(original, plan.result, Elements(ids)))
    ensures MapAfter(original, plan.result, Elements(ids)).Valid()
  {
    NeedsAreBuildable(original, plan);
    WholeReplay(original, plan, cp, ids);
    assert Elements(ids) <= Steps(plan).Keys;
  }

  lemma NothingUnresolved(original: City, plan: JointPlan, cp: ConstructionPlan, ids: seq<StepId>)
    requires Planned(original, plan, cp, ids) && cp.unresolved == []
    ensures Elements(ids) == Steps(plan).Keys
  {
    var g := DependencyGraph(original, plan);
    assert Remainder(g, ids) == [];
    ListsJoin(g, ids);
    assert ids + [] == ids;
  }

  /**
   A plan with nothing unresolved reaches the target exactly when it is buildable: each
   displaced building is movable, keeps clear of the original roads and touches an
   original or a target road, and no new road lies on a blocked cell.
   */
  lemma ReachesTargetIffBuildable(original: City, plan: JointPlan, cp: ConstructionPlan, ids: seq<StepId>)
    requires IsDiff(original, plan) && Planned(original, plan, cp, ids) && cp.unresolved == []
    ensures Replay(original, cp.ordered).Success? <==> Buildable(original, plan.result)
    ensures Replay(original, cp.ordered).Success? ==> Replay(original, cp.ordered).value == plan.result
  {
    NothingUnresolved(original, plan, cp, ids);
    NeedsAreBuildable(original, plan);
    WholeReplay(original, plan, cp, ids);
    AllDone(original, plan, Elements(ids));
  }
}
