/** What the staging loop writes down: its steps, its positions and its list of temporary places. */
module StagingLog {
  import opened Wrappers
  import opened CityMap
  import opened Construction
  import opened Planner
  import opened StagingModel
  import opened StagingProgress
  import opened StagingSafety

  // ---- One turn ----------------------------------------------------------------------

  /** Building `b` went home: its pending step is used up, and its own id and building are kept. */
  ghost predicate WentHome(s: StagingState, t: StagingState, b: string, step: Step) {
    && b in s.pending && t.pending.Keys == s.pending.Keys - {b}
    && (forall x :: x in t.pending ==> x in s.pending && t.pending[x] == s.pending[x])
    && step.id == s.pending[b].id && step.kind == s.pending[b].kind && step.building == s.pending[b].building
    && step.point == s.pending[b].point && step.destination == s.pending[b].destination
    && t.points == s.points && t.count == s.count
  }

  /** Building `b` stepped aside, under the next number, and stays pending. */
  ghost predicate SteppedAside(s: StagingState, t: StagingState, b: string, step: Step) {
    && b in s.pending && b in t.pos && t.pending == s.pending
    && step.id == StageId(b, s.count + 1) && step.kind == MoveBuilding && step.building == Some(b) && step.point == None
    && t.points == s.points + [(b, t.pos[b])] && t.count == s.count + 1
  }

  /** One building moved, from where it stood to where it stands now, by one new step that waits for nothing. */
  ghost predicate WroteMove(s: StagingState, t: StagingState, b: string) {
    && b in s.pos && b in t.pos && t.pos.Keys == s.pos.Keys
    && (forall x :: x in s.pos && x != b ==> x in t.pos && t.pos[x] == s.pos[x])
    && |t.resolved| == |s.resolved| + 1 && t.resolved[..|s.resolved|] == s.resolved
    && var step := t.resolved[|s.resolved|];
       && step.source == Some(s.pos[b]) && step.destination == Some(t.pos[b]) && step.dependsOn == []
       && (forall d :: d in t.completed <==> d in s.completed || d == step.id)
       && (WentHome(s, t, b, step) || SteppedAside(s, t, b, step))
  }

  lemma HomeWrites(s: StagingState, b: string)
    requires b in s.pos && b in s.pending && s.pending[b].destination.Some?
    ensures WroteMove(s, Home(s, b), b)
  {
  }

  lemma StageWrites(s: StagingState, b: string, cell: Point)
    requires b in s.pos && b in s.pending
    ensures WroteMove(s, Stage(s, b, cell), b)
  {
  }

  /** Every turn of the loop moves one building and writes down exactly that. */
  lemma TurnWrites(env: Env, s: StagingState, t: StagingState) returns (b: string)
    requires Next(env, s, t)
    ensures WroteMove(s, t, b)
  {
    if id :| GoesHome(env, s, id, t) {
      b := id;
      HomeWrites(s, id);
    } else {
      var id, cell :| StepsAside(env, s, id, cell, t);
      b := id;
      StageWrites(s, id, cell);
    }
  }

  // ---- Every run ---------------------------------------------------------------------

  /** The steps aside among the steps, in order. */
  ghost function Asides(steps: seq<Step>): seq<Step> {
    if steps == [] then []
    else
      var front, last := steps[..|steps| - 1], steps[|steps| - 1];
      if last.id.StageId? then Asides(front) + [last] else Asides(front)
  }

  lemma AsidesPush(steps: seq<Step>, step: Step)
    ensures Asides(steps + [step]) == if step.id.StageId? then Asides(steps) + [step] else Asides(steps)
  {
    assert (steps + [step])[..|steps|] == steps;
  }

  /** The list of places tells the steps aside, one by one and numbered from one. */
  ghost predicate Tells(points: seq<(string, Point)>, asides: seq<Step>) {
    |asides| == |points| && forall k {:trigger points[k]} :: 0 <= k < |points| ==> TellsOne(points[k], k + 1, asides[k])
  }

  ghost predicate TellsOne(place: (string, Point), n: nat, step: Step) {
    step.id == StageId(place.0, n) && step.building == Some(place.0) && step.destination == Some(place.1)
  }

  lemma TellsPush(points: seq<(string, Point)>, asides: seq<Step>, place: (string, Point), step: Step)
    requires Tells(points, asides) && TellsOne(place, |points| + 1, step)
    ensures Tells(points + [place], asides + [step])
  {
    var now := points + [place];
    forall k | 0 <= k < |now| ensures TellsOne(now[k], k + 1, (asides + [step])[k]) {
      if k < |points| { assert TellsOne(points[k], k + 1, asides[k]); }
    }
  }

  /** What is done are the ids written down. */
  ghost predicate DoneIsWritten(s: StagingState) {
    forall d :: d in s.completed <==> exists k :: 0 <= k < |s.resolved| && s.resolved[k].id == d
  }

  /** The log beyond the steps `before` that were there first. */
  ghost predicate Logged(before: seq<Step>, s: StagingState) {
    before <= s.resolved && s.count == |s.points| && Tells(s.points, Asides(s.resolved[|before|..]))
  }

  lemma StartIsLogged(cp: ConstructionPlan, city: City)
    ensures Logged(cp.ordered, StartState(cp, city)) && DoneIsWritten(StartState(cp, city))
  {
    var s := StartState(cp, city);
    assert s.resolved[|cp.ordered|..] == [];
    forall d ensures d in s.completed <==> exists k :: 0 <= k < |s.resolved| && s.resolved[k].id == d {
      if d in s.completed {
        var k :| 0 <= k < |cp.ordered| && StepIds(cp.ordered)[k] == d;
        assert s.resolved[k].id == d;
      }
      if k :| 0 <= k < |s.resolved| && s.resolved[k].id == d { assert StepIds(cp.ordered)[k] == d; }
    }
  }

  lemma LogGrows(before: seq<Step>, s: StagingState, t: StagingState, b: string)
    requires before <= s.resolved && WroteMove(s, t, b)
    ensures before <= t.resolved
    ensures var step := t.resolved[|s.resolved|]; t.resolved[|before|..] == s.resolved[|before|..] + [step]
  {
    assert t.resolved == s.resolved + [t.resolved[|s.resolved|]];
  }

  lemma LoggedHome(before: seq<Step>, s: StagingState, t: StagingState, b: string)
    requires Logged(before, s) && WroteMove(s, t, b) && WentHome(s, t, b, t.resolved[|s.resolved|])
    requires !s.pending[b].id.StageId?
    ensures Logged(before, t)
  {
    LogGrows(before, s, t, b);
    AsidesPush(s.resolved[|before|..], t.resolved[|s.resolved|]);
  }

  lemma LoggedAside(before: seq<Step>, s: StagingState, t: StagingState, b: string)
    requires Logged(before, s) && WroteMove(s, t, b) && SteppedAside(s, t, b, t.resolved[|s.resolved|])
    ensures Logged(before, t)
  {
    LogGrows(before, s, t, b);
    AsidesPush(s.resolved[|before|..], t.resolved[|s.resolved|]);
    TellsPush(s.points, Asides(s.resolved[|before|..]), (b, t.pos[b]), t.resolved[|s.resolved|]);
  }

  lemma LoggedOn(before: seq<Step>, env: Env, s: StagingState, t: StagingState)
    requires Logged(before, s) && DoneIsWritten(s) && Aimed(env, s) && Next(env, s, t)
    ensures Logged(before, t) && DoneIsWritten(t)
  {
    var b := TurnWrites(env, s, t);
    DoneOn(s, t, b);
    if WentHome(s, t, b, t.resolved[|s.resolved|]) {
      assert AimedMove(env, b, s.pending[b]);
      LoggedHome(before, s, t, b);
    } else {
      LoggedAside(before, s, t, b);
    }
  }

  lemma DoneOn(s: StagingState, t: StagingState, b: string)
    requires DoneIsWritten(s) && WroteMove(s, t, b)
    ensures DoneIsWritten(t)
  {
    var step := t.resolved[|s.resolved|];
    assert t.resolved == s.resolved + [step];
    forall d ensures d in t.completed <==> exists k :: 0 <= k < |t.resolved| && t.resolved[k].id == d {
      if d in s.completed {
        var k :| 0 <= k < |s.resolved| && s.resolved[k].id == d;
        assert t.resolved[k].id == d;
      }
      if d == step.id { assert t.resolved[|s.resolved|].id == d; }
      if k :| 0 <= k < |t.resolved| && t.resolved[k].id == d {
        if k < |s.resolved| { assert s.resolved[k].id == d; }
      }
    }
  }

  /**
   At every moment of every run the list of temporary places tells exactly the steps aside
   taken so far, in order and numbered from one, and what counts as done is what is written.
   */
  lemma {:induction false} RunIsLogged(env: Env, cp: ConstructionPlan, city: City, trace: seq<StagingState>, k: nat)
    requires Run(env, trace) && k < |trace| && trace[0] == StartState(cp, city) && Aimed(env, trace[0])
    ensures Logged(cp.ordered, trace[k]) && DoneIsWritten(trace[k])
  {
    if k == 0 {
      StartIsLogged(cp, city);
    } else {
      RunIsLogged(env, cp, city, trace, k - 1);
      AimedAlong(env, trace, k - 1);
      assert Turn(env, trace, k - 1);
      LoggedOn(cp.ordered, env, trace[k - 1], trace[k]);
    }
  }
}
