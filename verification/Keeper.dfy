/** The policy gate in front of the device. */
module Keeper {
  datatype RunMode = DryRun | Assist | Auto

  datatype ScreenType = CityScreen | FactoryScreen | ShopScreen | StorageScreen
                      | Loading | NetworkError | UnknownPopup | Unknown
  {
    predicate Actionable() {
      CityScreen? || FactoryScreen? || ShopScreen? || StorageScreen?
    }
  }

  datatype Decision = Allow | Deny | NeedsHuman

  datatype Reason = Approved | DryRunOnly | HumanApprovalRequired | DeviceMismatch | ScreenNotActionable
                  | PremiumCurrencyDisabled | RiskRequiresHuman | RateLimit | RetryLimit | ActionCooldown
                  | CircuitBreaker

  datatype Request = Request(
    deviceId: string, task: string, name: string, risk: nat, screen: ScreenType, premium: bool, humanApproved: bool)

  datatype RateWindow = RateWindow(
    actionsLastMinute: nat, retriesForAction: nat, coolingDown: bool, samples5m: nat, failures5m: nat)
  {
    function FailureRate(): real {
      if samples5m == 0 then 0.0 else failures5m as real / samples5m as real
    }
  }

  datatype Policy = Policy(
    deviceId: string,
    runMode: RunMode,
    maxAutoRisk: nat,
    allowPremium: bool,
    maxActionsPerMinute: int,
    maxRetriesPerAction: int,
    breakerMinSamples: int,
    breakerFailureRate: real)
  {
    /** The first gate that closes decides. */
    function Evaluate(request: Request, recent: RateWindow): (Decision, Reason) {
      if request.deviceId != deviceId then (Deny, DeviceMismatch)
      else if runMode == DryRun then (Deny, DryRunOnly)
      else if !request.screen.Actionable() then (Deny, ScreenNotActionable)
      else if request.premium && !allowPremium then (Deny, PremiumCurrencyDisabled)
      else if recent.actionsLastMinute >= maxActionsPerMinute then (Deny, RateLimit)
      else if recent.retriesForAction >= maxRetriesPerAction then (Deny, RetryLimit)
      else if recent.coolingDown then (Deny, ActionCooldown)
      else if recent.samples5m >= breakerMinSamples && recent.FailureRate() > breakerFailureRate
        then (Deny, CircuitBreaker)
      else if (runMode == Assist || request.risk > maxAutoRisk) && !request.humanApproved then
        (NeedsHuman, if request.risk > maxAutoRisk then RiskRequiresHuman else HumanApprovalRequired)
      else (Allow, Approved)
    }

    /** Every gate is open. */
    predicate Clear(request: Request, recent: RateWindow) {
      && request.deviceId == deviceId && (runMode == Assist || runMode == Auto)
      && request.screen in {CityScreen, FactoryScreen, ShopScreen, StorageScreen}
      && (request.premium ==> allowPremium)
      && recent.actionsLastMinute < maxActionsPerMinute && recent.retriesForAction < maxRetriesPerAction
      && !recent.coolingDown
      && (recent.samples5m < breakerMinSamples
          || (if recent.samples5m == 0 then breakerFailureRate >= 0.0
              else recent.failures5m as real <= breakerFailureRate * recent.samples5m as real))
    }

    /** The gate that gives this reason is closed. */
    predicate Closes(gate: Reason, request: Request, recent: RateWindow) {
      match gate
      case DeviceMismatch => request.deviceId != deviceId
      case DryRunOnly => runMode == DryRun
      case ScreenNotActionable => request.screen in {Loading, NetworkError, UnknownPopup, Unknown}
      case PremiumCurrencyDisabled => request.premium && !allowPremium
      case RateLimit => recent.actionsLastMinute >= maxActionsPerMinute
      case RetryLimit => recent.retriesForAction >= maxRetriesPerAction
      case ActionCooldown => recent.coolingDown
      case CircuitBreaker => recent.samples5m >= breakerMinSamples && recent.FailureRate() > breakerFailureRate
      case _ => false
    }

    predicate Consented(request: Request) {
      request.humanApproved || (runMode == Auto && request.risk <= maxAutoRisk)
    }
  }

  lemma RateAbove(recent: RateWindow, limit: real)
    requires recent.samples5m > 0
    ensures recent.FailureRate() > limit <==> recent.failures5m as real > limit * recent.samples5m as real
  {
    var n, f := recent.samples5m as real, recent.failures5m as real;
    assert n > 0.0;
    assert f / n * n == f;
    if f / n > limit { assert (f / n - limit) * n > 0.0; }
    if f > limit * n { assert (f - limit * n) / n > 0.0; }
  }

  /** An action is allowed exactly when every gate is open and, where needed, a human agreed. */
  lemma AllowedExactly(policy: Policy, request: Request, recent: RateWindow)
    ensures policy.Evaluate(request, recent).0 == Allow <==>
              policy.Clear(request, recent) && policy.Consented(request)
    ensures policy.Evaluate(request, recent).0 == NeedsHuman <==>
              policy.Clear(request, recent) && !policy.Consented(request)
  {
    if recent.samples5m > 0 { RateAbove(recent, policy.breakerFailureRate); }
  }

  /** The gates in the order they are asked. */
  const GATES: seq<Reason> := [DeviceMismatch, DryRunOnly, ScreenNotActionable, PremiumCurrencyDisabled,
                               RateLimit, RetryLimit, ActionCooldown, CircuitBreaker]

  /** The reason of a denial is the first closed gate; a human is asked for the risk before the mode. */
  lemma DeniedByFirst(policy: Policy, request: Request, recent: RateWindow, k: nat)
    requires k < |GATES|
    ensures policy.Evaluate(request, recent) == (Deny, GATES[k]) <==>
      policy.Closes(GATES[k], request, recent) && forall i :: 0 <= i < k ==> !policy.Closes(GATES[i], request, recent)
    ensures policy.Evaluate(request, recent).0 == Deny <==> exists i ::
      0 <= i < |GATES| && policy.Closes(GATES[i], request, recent)
    ensures policy.Evaluate(request, recent).0 == NeedsHuman ==>
      (policy.Evaluate(request, recent).1 == RiskRequiresHuman <==> request.risk > policy.maxAutoRisk)
  {
    assert GATES[0] == DeviceMismatch && GATES[1] == DryRunOnly && GATES[2] == ScreenNotActionable;
    assert GATES[3] == PremiumCurrencyDisabled && GATES[4] == RateLimit && GATES[5] == RetryLimit;
    assert GATES[6] == ActionCooldown && GATES[7] == CircuitBreaker;
  }
}
