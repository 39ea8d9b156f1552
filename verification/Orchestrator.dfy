/** One cycle of the automation loop, as the sequence evaluate, execute, record. */
module Orchestrator {
  import opened Wrappers
  import opened CityMap
  import opened Keeper
  import opened Metrics
  import opened RateLimits
  import opened Issued

  datatype PlannedAction = PlannedAction(
    name: string, task: string, risk: nat, premium: bool, humanApproved: bool, retry: bool)

  datatype Observed = Seen(screen: ScreenType) | ObserveFailed | ObserveInterrupted

  datatype Planned = Plans(action: PlannedAction) | Nothing | PlanFailed | PlanInterrupted

  /** How an allowed action turns out; `Unhandled` is any exception the cycle does not catch. */
  datatype Outcome = TimedOut | ExecutionRaised | Interrupted | AfterUnseen | AfterInterrupted
                   | Stale | Unhandled | Checked(passed: bool)

  /**
   What the world answers during one cycle. The store behind the metrics may raise before the
   action (`raisesEarly`) or, with the acceptance bookkeeping, after its record (`raisesLate`).
   */
  datatype World = World(
    stopFirst: bool, raisesEarly: bool, observed: Observed, planned: Planned, stopSecond: bool, outcome: Outcome,
    raisesLate: bool)

  datatype Status = NoAction | Denied | HumanNeeded | Verified | ExecutionFailed | VerificationFailed
                  | ObservationFailed | EmergencyStop | Raised
  {
    /** The action was carried out and its result judged. */
    predicate Attempted() {
      Verified? || ExecutionFailed? || VerificationFailed?
    }
  }

  /** What one cycle adds to the record. */
  ghost predicate Recorded(world: World, before: seq<Sample>, after: seq<Sample>) {
    && world.planned.Plans?
    && |after| == |before| + 1 && before <= after
    && var s := after[|before|];
       && s.action == world.planned.action.name && s.task == world.planned.action.task
       && s.success == (world.outcome == Checked(true))
  }

  /** What a cycle's status says about the record. */
  ghost predicate StatusTells(world: World, status: Status, before: seq<Sample>, after: seq<Sample>) {
    && (status.Attempted() ==> Recorded(world, before, after))
    && (!status.Attempted() ==>
          || after == before
          || (Recorded(world, before, after)
              && ((status == ObservationFailed && world.outcome == AfterUnseen)
                || (status == Raised && world.raisesLate))))
    && (status == Verified ==> world.outcome == Checked(true) && !world.raisesLate)
  }

  /** The outcome, told from the report on an action that was carried out, its record and the loss of one. */
  ghost predicate OutcomeTells(world: World, status: Status, recorded: bool, lost: bool) {
    && (lost <==> world.outcome in {Unhandled, Interrupted, AfterInterrupted}) && recorded == !lost
    && (status == EmergencyStop <==> world.outcome in {Interrupted, AfterInterrupted})
    && (status == Raised <==> world.outcome == Unhandled || (recorded && world.raisesLate))
    && (recorded && !world.raisesLate ==>
          && (status == Verified <==> world.outcome == Checked(true))
          && (status == VerificationFailed <==> world.outcome in {Stale, Checked(false)})
          && (status == ExecutionFailed <==> world.outcome in {TimedOut, ExecutionRaised})
          && (status == ObservationFailed <==> world.outcome == AfterUnseen))
  }

  /** Why no action was carried out: a stop, an error, nothing to see or to do, or the gates. */
  ghost predicate StandstillTells(world: World, status: Status) {
    if world.stopFirst then status == EmergencyStop
    else if world.raisesEarly then status == Raised
    else if world.observed == ObserveInterrupted then status == EmergencyStop
    else if world.observed == ObserveFailed then status == ObservationFailed
    else if world.planned == PlanInterrupted then status == EmergencyStop
    else if world.planned == PlanFailed then status == ObservationFailed
    else if world.planned == Nothing then status == NoAction
    else
      && (status == Raised <==> Blank(world.planned.action.name))
      && status in {Raised, Denied, HumanNeeded, EmergencyStop} && (status == EmergencyStop ==> world.stopSecond)
  }

  /** One cycle: an action is carried out only past both stops, and then the outcome decides. */
  ghost predicate CycleTells(world: World, status: Status, carried: bool, recorded: bool, lost: bool) {
    if carried then
      && !world.stopFirst && !world.raisesEarly && world.observed.Seen? && world.planned.Plans? && !world.stopSecond
      && OutcomeTells(world, status, recorded, lost)
    else !recorded && !lost && StandstillTells(world, status)
  }

  ghost predicate CooldownsGrow(before: map<string, real>, after: map<string, real>) {
    forall name {:trigger name in before} :: name in before ==> name in after && before[name] <= after[name]
  }

  /** No action carried out since `from` passed the gate while it was still cooling down by `granted`. */
  ghost predicate Cooled(granted: map<string, real>, from: nat, all: seq<Issue>) {
    forall k {:trigger all[k]} ::
      from <= k < |all| && all[k].action in granted ==> granted[all[k].action] <= all[k].passedAt
  }

  /** What was let through stays let through, and longer cooldowns bind no less. */
  lemma CooledOn(first: map<string, real>, later: map<string, real>, from: nat, before: seq<Issue>, after: seq<Issue>)
    requires Cooled(first, from, before) && CooldownsGrow(first, later) && from <= |before|
    requires before <= after && Cooled(later, |before|, after)
    ensures Cooled(first, from, after)
  {
    forall k | from <= k < |after| && after[k].action in first ensures first[after[k].action] <= after[k].passedAt {
      if k < |before| { assert before[k] == after[k]; }
    }
  }

  /** The cycle breaks off before the record. */
  predicate BreaksOff(outcome: Outcome) {
    outcome.Unhandled? || outcome.Interrupted? || outcome.AfterInterrupted?
  }

  function Judged(outcome: Outcome): Status {
    match outcome
    case Checked(passed) => if passed then Verified else VerificationFailed
    case Stale => VerificationFailed
    case AfterUnseen => ObservationFailed
    case _ => ExecutionFailed
  }

  // ---- When a run ends ---------------------------------------------------------------

  predicate Final(status: Status) {
    status == EmergencyStop || status == HumanNeeded
  }

  /** The last `n` cycles all raised. */
  ghost predicate LastRaised(statuses: seq<Status>, n: nat) {
    n <= |statuses| && forall k :: |statuses| - n <= k < |statuses| ==> statuses[k] == Raised
  }

  /** Exactly the last `n` cycles raised in a row. */
  ghost predicate InRow(statuses: seq<Status>, n: nat) {
    LastRaised(statuses, n) && (n < |statuses| ==> statuses[|statuses| - n - 1] != Raised)
  }

  /** A run ends after a stop, a question to a human, or that many cycles raising in a row. */
  ghost predicate StopsAfter(statuses: seq<Status>, maxLoopErrors: nat) {
    statuses != [] && var last := statuses[|statuses| - 1];
    last == EmergencyStop || last == HumanNeeded || (last == Raised && LastRaised(statuses, maxLoopErrors))
  }

  /** And after no cycle before the last. */
  ghost predicate RunsOn(statuses: seq<Status>, maxLoopErrors: nat) {
    forall k :: 0 <= k < |statuses| ==> !StopsAfter(statuses[..k], maxLoopErrors)
  }

  lemma StatusPush(statuses: seq<Status>, errors: nat, maxLoopErrors: nat)
    requires InRow(statuses, errors) && RunsOn(statuses, maxLoopErrors) && !StopsAfter(statuses, maxLoopErrors)
    ensures forall status :: RunsOn(statuses + [status], maxLoopErrors)
    ensures forall status :: InRow(statuses + [status], if status == Raised then errors + 1 else 0)
    ensures forall status :: StopsAfter(statuses + [status], maxLoopErrors) <==>
      if status == Raised then errors + 1 >= maxLoopErrors else Final(status)
  {
    forall status, k | 0 <= k < |statuses + [status]|
      ensures !StopsAfter((statuses + [status])[..k], maxLoopErrors)
    {
      assert (statuses + [status])[..k] == if k == |statuses| then statuses else statuses[..k];
    }
  }

  class V0Orchestrator {
    const deviceId: string
    const policy: Policy
    const metrics: RuntimeMetrics
    const cooldownSeconds: real
    /** The actions carried out, and how many cycles broke off between an action and its record. */
    ghost var issued: seq<Issue>
    ghost var faults: nat

    /** Everything recorded so far keeps the action rate and the retry limit; everything carried out is tracked. */
    ghost predicate Valid()
      reads this, metrics
    {
      && metrics.Valid() && cooldownSeconds > 0.0 && Lawful(policy, metrics.history, metrics.retention)
      && Tracked(policy.maxActionsPerMinute, metrics.history, issued, faults)
      && forall a {:trigger issued[a]} :: 0 <= a < |issued| ==> issued[a].passedAt <= metrics.Latest()
    }

    constructor (deviceId: string, policy: Policy, metrics: RuntimeMetrics, cooldownSeconds: real)
      requires metrics.Valid() && metrics.history == [] && cooldownSeconds > 0.0
      ensures Valid() && this.policy == policy && this.metrics == metrics && this.deviceId == deviceId && issued == []
        && faults == 0 && this.cooldownSeconds == cooldownSeconds
    {
      this.deviceId, this.policy, this.metrics, this.cooldownSeconds := deviceId, policy, metrics, cooldownSeconds;
      issued, faults := [], 0;
    }

    /** What the gates are asked about. */
    function RequestOf(action: PlannedAction, screen: ScreenType): (r: Request)
      ensures r.deviceId == deviceId && r.name == action.name && r.task == action.task && r.screen == screen
      ensures r.risk == action.risk && r.premium == action.premium && r.humanApproved == action.humanApproved
    {
      Request(deviceId, action.task, action.name, action.risk, screen, action.premium, action.humanApproved)
    }

    /** The gates allowed the action on what was recorded and not forgotten, and it was not cooling down. */
    ghost predicate Allowed(action: PlannedAction, screen: ScreenType, history: seq<Sample>, granted: map<string, real>,
                            i: Issue)
    {
      && i.action == action.name && i.task == action.task && !Blank(action.name)
      && (action.name in granted ==> granted[action.name] <= i.passedAt)
      && exists g: Glimpse :: SeenOf(g, history, metrics.retention) && g.now == i.passedAt
           && policy.Evaluate(RequestOf(action, screen), Window(g.events, action.name, action.task, g.now, false)).0
             == Allow
    }

    /** The gates refused the action, or asked for a human, on what was recorded and not forgotten. */
    ghost predicate Answered(action: PlannedAction, screen: ScreenType, history: seq<Sample>, status: Status) {
      exists g: Glimpse, cooling: bool {:trigger Window(g.events, action.name, action.task, g.now, cooling)} ::
        SeenOf(g, history, metrics.retention)
        && policy.Evaluate(RequestOf(action, screen), Window(g.events, action.name, action.task, g.now, cooling)).0
           == (if status == Denied then Deny else NeedsHuman)
    }

    /**
     At most one action is carried out, the planned one, on the gates' word; a status without
     an attempt may hide it.
     */
    ghost predicate IssueTells(world: World, status: Status, history: seq<Sample>, granted: map<string, real>,
                               before: seq<Issue>, after: seq<Issue>)
    {
      && (after == before
          || (world.observed.Seen? && world.planned.Plans? && |after| == |before| + 1 && before <= after
              && Allowed(world.planned.action, world.observed.screen, history, granted, after[|before|])))
      && (status.Attempted() ==> after != before)
      && (status == Denied || status == HumanNeeded || status == NoAction ==> after == before)
    }

    method RunOnce(world: World) returns (status: Status)
      requires Valid()
      modifies this`issued, this`faults, metrics
      ensures Valid()
      ensures CycleTells(world, status, issued != old(issued), metrics.history != old(metrics.history),
                         faults != old(faults))
      ensures status == Denied || status == HumanNeeded ==>
        && world.observed.Seen? && world.planned.Plans?
        && Answered(world.planned.action, world.observed.screen, old(metrics.history), status)
      ensures StatusTells(world, status, old(metrics.history), metrics.history)
      ensures IssueTells(world, status, old(metrics.history), old(metrics.granted), old(issued), issued)
      ensures faults == old(faults) || (faults == old(faults) + 1 && (status == Raised || status == EmergencyStop))
      ensures CooldownsGrow(old(metrics.granted), metrics.granted)
    {
      if world.stopFirst {
        metrics.Tick();
        return EmergencyStop;
      }
      metrics.Tick();
      if world.raisesEarly { return Raised; }
      if world.observed.ObserveFailed? {
        metrics.Tick();
        return ObservationFailed;
      } else if world.observed.ObserveInterrupted? {
        metrics.Tick();
        return EmergencyStop;
      }
      metrics.Tick();
      match world.planned {
        case PlanFailed =>
          metrics.Tick();
          return ObservationFailed;
        case PlanInterrupted =>
          metrics.Tick();
          return EmergencyStop;
        case Nothing =>
          metrics.Tick();
          return NoAction;
        case Plans(action) =>
          status := Attempt(action, world);
      }
    }

    /** A refused action; past its retry limit it also cools down. */
    method Refuse(action: PlannedAction, reason: Reason, coolingDown: bool, ghost at: real)
      requires Valid() && !Blank(action.name) && at <= metrics.Latest()
      requires !coolingDown && action.name in metrics.granted ==> metrics.granted[action.name] <= at
      modifies metrics
      ensures Valid() && metrics.history == old(metrics.history) && old(metrics.Latest()) <= metrics.Latest()
      ensures CooldownsGrow(old(metrics.granted), metrics.granted)
      ensures reason == RetryLimit && !coolingDown ==>
        action.name in metrics.granted && at + cooldownSeconds <= metrics.granted[action.name]
      ensures !(reason == RetryLimit && !coolingDown) ==> metrics.granted == old(metrics.granted)
    {
      if reason == RetryLimit && !coolingDown {
        metrics.StartActionCooldown(action.name, cooldownSeconds);
      }
      metrics.Tick();
    }

    /** Whether the action is a retry, and what was recorded when that was found out. */
    method Mark(action: PlannedAction) returns (retry: Option<bool>, ghost mark: Glimpse)
      requires Valid()
      modifies metrics
      ensures Valid() && metrics.history == old(metrics.history) && metrics.granted == old(metrics.granted)
      ensures SeenOf(mark, metrics.history, metrics.retention) && mark.now <= metrics.Latest()
      ensures retry.None? ==> Blank(action.name)
      ensures retry.Some? && LastFailed(mark.events, action.name, action.task) ==> retry.value
    {
      if action.retry {
        retry := Some(true);
      } else {
        retry := metrics.IsRetry(action.task, action.name);
      }
      mark := Glimpse(metrics.events, metrics.dropped, metrics.Latest());
    }

    /** The window the gates judge by, and what was recorded when it was taken. */
    method Look(action: PlannedAction) returns (recent: Option<RateWindow>, ghost gate: Glimpse)
      requires Valid()
      modifies metrics
      ensures Valid() && metrics.history == old(metrics.history) && metrics.granted == old(metrics.granted)
      ensures old(metrics.Latest()) <= metrics.Latest() == gate.now && SeenOf(gate, metrics.history, metrics.retention)
      ensures recent.None? <==> Blank(action.name)
      ensures recent.Some? ==>
        && recent.value == Window(gate.events, action.name, action.task, gate.now, recent.value.coolingDown)
        && (!recent.value.coolingDown && action.name in metrics.granted ==> metrics.granted[action.name] <= gate.now)
    {
      recent := metrics.WindowFor(action.name, action.task);
      gate := Glimpse(metrics.events, metrics.dropped, metrics.Latest());
    }

    /**
     Asks the gates. No answer means the action is allowed, by what `mark` and `gate` show. An
     action refused for its retries cools down from then on.
     */
    method Consult(action: PlannedAction, screen: ScreenType)
      returns (answer: Option<Status>, retry: bool, ghost mark: Glimpse, ghost gate: Glimpse, ghost seen: RateWindow)
      requires Valid()
      modifies metrics
      ensures Valid() && metrics.history == old(metrics.history) && CooldownsGrow(old(metrics.granted), metrics.granted)
      ensures SeenOf(mark, metrics.history, metrics.retention) && SeenOf(gate, metrics.history, metrics.retention)
      ensures mark.now <= metrics.Latest() && gate.now <= metrics.Latest()
      ensures answer == Some(Raised) <==> Blank(action.name)
      ensures !Blank(action.name) ==>
        && seen == Window(gate.events, action.name, action.task, gate.now, seen.coolingDown)
        && answer == (match policy.Evaluate(RequestOf(action, screen), seen).0
                      case Allow => None
                      case Deny => Some(Denied)
                      case NeedsHuman => Some(HumanNeeded))
      ensures
        && !Blank(action.name) && !seen.coolingDown
        && policy.Evaluate(RequestOf(action, screen), seen) == (Deny, RetryLimit) ==>
        action.name in metrics.granted && gate.now + cooldownSeconds <= metrics.granted[action.name]
      ensures answer == None ==>
        && (LastFailed(mark.events, action.name, action.task) ==> retry)
        && !seen.coolingDown && metrics.granted == old(metrics.granted)
        && (action.name in metrics.granted ==> metrics.granted[action.name] <= gate.now)
    {
      var flag;
      flag, mark := Mark(action);
      gate, seen, retry := mark, RateWindow(0, 0, false, 0, 0), action.retry;
      if flag.None? { return Some(Raised), retry, mark, gate, seen; }
      retry := flag.value;
      var recent;
      recent, gate := Look(action);
      if recent.None? { return Some(Raised), retry, mark, gate, seen; }
      seen := recent.value;
      var decision := policy.Evaluate(RequestOf(action, screen), recent.value);
      AllowedExactly(policy, RequestOf(action, screen), recent.value);
      match decision.0 {
        case NeedsHuman =>
          metrics.Tick();
          return Some(HumanNeeded), retry, mark, gate, seen;
        case Deny =>
          Refuse(action, decision.1, recent.value.coolingDown, gate.now);
          return Some(Denied), retry, mark, gate, seen;
        case Allow =>
          return None, retry, mark, gate, seen;
      }
    }

    method Attempt(action: PlannedAction, world: World) returns (status: Status)
      requires Valid() && world.observed.Seen? && world.planned == Plans(action)
      requires !world.stopFirst && !world.raisesEarly
      modifies this`issued, this`faults, metrics
      ensures Valid()
      ensures CycleTells(world, status, issued != old(issued), metrics.history != old(metrics.history),
                         faults != old(faults))
      ensures status == Denied || status == HumanNeeded ==>
        && world.observed.Seen? && world.planned.Plans?
        && Answered(world.planned.action, world.observed.screen, old(metrics.history), status)
      ensures StatusTells(world, status, old(metrics.history), metrics.history)
      ensures IssueTells(world, status, old(metrics.history), old(metrics.granted), old(issued), issued)
      ensures faults == old(faults) || (faults == old(faults) + 1 && (status == Raised || status == EmergencyStop))
      ensures CooldownsGrow(old(metrics.granted), metrics.granted)
    {
      var answer, retry, mark, gate, seen := Consult(action, world.observed.screen);
      if answer.Some? { return answer.value; }
      if world.stopSecond {
        metrics.Tick();
        return EmergencyStop;
      }
      metrics.Tick();
      AllowedExactly(policy, RequestOf(action, world.observed.screen), seen);
      status := CarryOut(action, world, retry, mark, gate, seen);
    }

    /** The gates are open: the action is carried out, and what comes of it is told. */
    method CarryOut(action: PlannedAction, world: World, retry: bool, ghost mark: Glimpse, ghost gate: Glimpse,
                    ghost seen: RateWindow)
      returns (status: Status)
      requires Valid() && world.observed.Seen? && world.planned == Plans(action) && !Blank(action.name)
      requires SeenOf(mark, metrics.history, metrics.retention) && SeenOf(gate, metrics.history, metrics.retention)
      requires mark.now <= metrics.Latest() && gate.now <= metrics.Latest()
      requires LastFailed(mark.events, action.name, action.task) ==> retry
      requires seen == Window(gate.events, action.name, action.task, gate.now, false)
      requires policy.Evaluate(RequestOf(action, world.observed.screen), seen).0 == Allow
      requires action.name in metrics.granted ==> metrics.granted[action.name] <= gate.now
      modifies this`issued, this`faults, metrics
      ensures Valid() && metrics.granted == old(metrics.granted)
      ensures issued != old(issued)
      ensures OutcomeTells(world, status, metrics.history != old(metrics.history), faults != old(faults))
      ensures StatusTells(world, status, old(metrics.history), metrics.history)
      ensures IssueTells(world, status, old(metrics.history), old(metrics.granted), old(issued), issued)
      ensures faults == old(faults) || (faults == old(faults) + 1 && (status == Raised || status == EmergencyStop))
    {
      AllowedExactly(policy, RequestOf(action, world.observed.screen), seen);
      ghost var history, granted, before := metrics.history, metrics.granted, issued;
      status := Execute(action, world, retry, mark, gate);
      assert Allowed(action, world.observed.screen, history, granted, issued[|before|]);
    }

    /** Carries the action out, and records how it turned out unless the cycle breaks off. */
    method Execute(action: PlannedAction, world: World, retry: bool, ghost mark: Glimpse, ghost gate: Glimpse)
      returns (status: Status)
      requires Valid() && world.planned == Plans(action) && !Blank(action.name)
      requires SeenOf(mark, metrics.history, metrics.retention) && SeenOf(gate, metrics.history, metrics.retention)
      requires mark.now <= metrics.Latest() && gate.now <= metrics.Latest()
      requires LastFailed(mark.events, action.name, action.task) ==> retry
      requires CountSince(gate.events, gate.now - RATE_WINDOW_SECONDS) < policy.maxActionsPerMinute
      requires ConsecutiveRetries(gate.events, action.name, action.task) < policy.maxRetriesPerAction
      modifies this`issued, this`faults, metrics
      ensures Valid() && metrics.granted == old(metrics.granted)
      ensures StatusTells(world, status, old(metrics.history), metrics.history)
      ensures issued == old(issued) + [Issue(action.name, action.task, gate.now, |old(metrics.history)|, old(faults))]
      ensures OutcomeTells(world, status, metrics.history != old(metrics.history), faults != old(faults))
      ensures status.Attempted() || status == ObservationFailed || status == Raised || status == EmergencyStop
      ensures faults == old(faults) || (faults == old(faults) + 1 && (status == Raised || status == EmergencyStop))
    {
      match world.outcome {
        case Unhandled =>
          BreakOff(action, gate);
          return Raised;
        case Interrupted =>
          BreakOff(action, gate);
          metrics.Tick();
          return EmergencyStop;
        case AfterInterrupted =>
          BreakOff(action, gate);
          metrics.Tick();
          metrics.Tick();
          return EmergencyStop;
        case AfterUnseen => metrics.Tick();
        case Stale => metrics.Tick();
        case Checked(_) => metrics.Tick();
        case TimedOut =>
        case ExecutionRaised =>
      }
      status := Finish(action, world, retry, mark, gate);
    }

    method Finish(action: PlannedAction, world: World, retry: bool, ghost mark: Glimpse, ghost gate: Glimpse)
      returns (status: Status)
      requires Valid() && world.planned == Plans(action) && !Blank(action.name) && !BreaksOff(world.outcome)
      requires SeenOf(mark, metrics.history, metrics.retention) && SeenOf(gate, metrics.history, metrics.retention)
      requires mark.now <= metrics.Latest() && gate.now <= metrics.Latest()
      requires LastFailed(mark.events, action.name, action.task) ==> retry
      requires CountSince(gate.events, gate.now - RATE_WINDOW_SECONDS) < policy.maxActionsPerMinute
      requires ConsecutiveRetries(gate.events, action.name, action.task) < policy.maxRetriesPerAction
      modifies this`issued, metrics
      ensures Valid() && metrics.granted == old(metrics.granted)
      ensures Recorded(world, old(metrics.history), metrics.history)
      ensures issued == old(issued) + [Issue(action.name, action.task, gate.now, |old(metrics.history)|, faults)]
      ensures OutcomeTells(world, status, true, false)
      ensures status == if world.raisesLate then Raised else Judged(world.outcome)
    {
      Record(action, world.outcome == Checked(true), retry, mark, gate);
      if world.raisesLate { return Raised; }
      metrics.Tick();
      return Judged(world.outcome);
    }

    /** The cycle breaks off between the action and its record. */
    ghost method BreakOff(action: PlannedAction, gate: Glimpse)
      requires Valid() && SeenOf(gate, metrics.history, metrics.retention) && gate.now <= metrics.Latest()
      requires CountSince(gate.events, gate.now - RATE_WINDOW_SECONDS) < policy.maxActionsPerMinute
      modifies this`issued, this`faults
      ensures Valid() && faults == old(faults) + 1
      ensures issued == old(issued) + [Issue(action.name, action.task, gate.now, |metrics.history|, old(faults))]
    {
      var i := Issue(action.name, action.task, gate.now, |metrics.history|, faults);
      BreakKeepsTrack(policy.maxActionsPerMinute, metrics.history, metrics.retention, issued, faults, gate, i);
      issued, faults := issued + [i], faults + 1;
    }

    method Record(action: PlannedAction, success: bool, retry: bool, ghost mark: Glimpse, ghost gate: Glimpse)
      requires Valid() && !Blank(action.name)
      requires SeenOf(mark, metrics.history, metrics.retention) && SeenOf(gate, metrics.history, metrics.retention)
      requires mark.now <= metrics.Latest() && gate.now <= metrics.Latest()
      requires LastFailed(mark.events, action.name, action.task) ==> retry
      requires CountSince(gate.events, gate.now - RATE_WINDOW_SECONDS) < policy.maxActionsPerMinute
      requires ConsecutiveRetries(gate.events, action.name, action.task) < policy.maxRetriesPerAction
      modifies this`issued, metrics
      ensures Valid() && metrics.granted == old(metrics.granted)
      ensures metrics.history == old(metrics.history) + [Sample(metrics.Latest(), action.name, action.task, success,
        retry)]
      ensures issued == old(issued) + [Issue(action.name, action.task, gate.now, |old(metrics.history)|, faults)]
    {
      ghost var history, i := metrics.history, Issue(action.name, action.task, gate.now, |metrics.history|, faults);
      var ok := metrics.RecordAction(action.name, action.task, success, Some(retry));
      ghost var s := metrics.history[|history|];
      RecordIsLawful(policy, history, metrics.retention, mark, gate, s);
      RecordKeepsTrack(policy.maxActionsPerMinute, history, metrics.retention, issued, faults, gate, i, s);
      issued := issued + [i];
    }

    /** One cycle of the run and what it means for the next. */
    method Cycle(world: World, errors: nat, maxLoopErrors: nat) returns (status: Status, inRow: nat, done: bool)
      requires Valid()
      modifies this`issued, this`faults, metrics
      ensures Valid() && faults <= old(faults) + (if status == Raised || done then 1 else 0)
      ensures old(issued) <= issued && Cooled(old(metrics.granted), |old(issued)|, issued)
      ensures CooldownsGrow(old(metrics.granted), metrics.granted)
      ensures inRow == if status == Raised then errors + 1 else 0
      ensures done <==> if status == Raised then inRow >= maxLoopErrors else Final(status)
    {
      status := RunOnce(world);
      if status == Raised {
        inRow := errors + 1;
        metrics.Tick();
        done := inRow >= maxLoopErrors;
      } else {
        inRow := 0;
        done := status == EmergencyStop || status == HumanNeeded;
      }
    }

    /**
     Cycles until a stop, a question to a human or too many unhandled errors in a row. However
     often and whenever it runs, both limits hold of everything recorded; what is carried out
     in a minute exceeds the limit at most by the cycles that broke off, and those are at most
     the cycles that raised and the last one; and nothing is carried out while it cools down.
     */
    method Run(worlds: seq<World>, maxLoopErrors: nat)
      returns (cycles: nat, raised: nat, ghost statuses: seq<Status>)
      requires Valid()
      modifies this`issued, this`faults, metrics
      ensures Valid() && raised <= cycles <= |worlds|
      ensures |statuses| == cycles && RunsOn(statuses, maxLoopErrors)
      ensures cycles < |worlds| ==> StopsAfter(statuses, maxLoopErrors)
      ensures RateKept(policy.maxActionsPerMinute, metrics.history)
      ensures FailuresKept(policy.maxRetriesPerAction, metrics.history, metrics.retention)
      ensures IssuesPaced(policy.maxActionsPerMinute, issued) && faults <= old(faults) + raised + 1
      ensures old(issued) <= issued && Cooled(old(metrics.granted), |old(issued)|, issued)
    {
      cycles, raised, statuses := 0, 0, [];
      var errors, done := 0, false;
      while cycles < |worlds| && !done
        invariant Valid() && raised <= cycles <= |worlds|
        invariant |statuses| == cycles && RunsOn(statuses, maxLoopErrors) && InRow(statuses, errors)
        invariant done <==> StopsAfter(statuses, maxLoopErrors)
        invariant faults <= old(faults) + raised + if done then 1 else 0
        invariant old(issued) <= issued && Cooled(old(metrics.granted), |old(issued)|, issued)
        invariant CooldownsGrow(old(metrics.granted), metrics.granted)
        decreases |worlds| - cycles
      {
        ghost var before, granted := issued, metrics.granted;
        var status;
        StatusPush(statuses, errors, maxLoopErrors);
        status, errors, done := Cycle(worlds[cycles], errors, maxLoopErrors);
        CooledOn(old(metrics.granted), granted, |old(issued)|, before, issued);
        statuses := statuses + [status];
        cycles := cycles + 1;
        if status == Raised { raised := raised + 1; }
      }
      LawfulKeepsFailures(policy, metrics.history, metrics.retention);
      TrackedIsPaced(policy.maxActionsPerMinute, metrics.history, issued, faults);
    }
  }
}
