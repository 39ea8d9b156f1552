/** What the runtime remembers of its actions, and the windows it counts them in. */
module Metrics {
  import opened Wrappers
  import opened CityMap
  import opened Keeper

  const RATE_WINDOW_SECONDS := 60.0
  const FAILURE_WINDOW_SECONDS := 300.0

  datatype Sample = Sample(timestamp: real, action: string, task: string, success: bool, retry: bool)

  /** An empty task matches the action under any task. */
  predicate SameAction(s: Sample, action: string, task: string) {
    s.action == action && (task == "" || s.task == task)
  }

  function CountSince(events: seq<Sample>, from: real): nat {
    if events == [] then 0
    else
      var n := |events| - 1;
      CountSince(events[..n], from) + if events[n].timestamp >= from then 1 else 0
  }

  function FailuresSince(events: seq<Sample>, from: real): nat {
    if events == [] then 0
    else
      var n := |events| - 1;
      FailuresSince(events[..n], from) + if events[n].timestamp >= from && !events[n].success then 1 else 0
  }

  /** The latest matching sample is a failure. */
  predicate LastFailed(events: seq<Sample>, action: string, task: string) {
    events != [] &&
    var n := |events| - 1;
    if SameAction(events[n], action, task) then !events[n].success else LastFailed(events[..n], action, task)
  }

  /** The retries among the matching samples since the last success. */
  function ConsecutiveRetries(events: seq<Sample>, action: string, task: string): nat {
    if events == [] then 0
    else
      var n := |events| - 1;
      if !SameAction(events[n], action, task) then ConsecutiveRetries(events[..n], action, task)
      else if events[n].success then 0
      else ConsecutiveRetries(events[..n], action, task) + if events[n].retry then 1 else 0
  }

  function Window(events: seq<Sample>, action: string, task: string, now: real, coolingDown: bool): RateWindow {
    RateWindow(CountSince(events, now - RATE_WINDOW_SECONDS), ConsecutiveRetries(events, action, task), coolingDown,
               CountSince(events, now - FAILURE_WINDOW_SECONDS), FailuresSince(events, now - FAILURE_WINDOW_SECONDS))
  }

  /** Recorded in the order of their times. */
  ghost predicate InOrder(history: seq<Sample>) {
    forall i, j :: 0 <= i < j < |history| ==> history[i].timestamp <= history[j].timestamp
  }

  ghost predicate Monotone(clock: nat -> real) {
    forall i, j {:trigger clock(i), clock(j)} :: i <= j ==> clock(i) <= clock(j)
  }

  /** `events` is `history` without samples older than `cutoff`. */
  ghost predicate Recent(history: seq<Sample>, events: seq<Sample>, dropped: nat, cutoff: real) {
    && dropped <= |history| && events == history[dropped..]
    && forall i {:trigger history[i]} :: 0 <= i < dropped ==> history[i].timestamp < cutoff
  }

  lemma RecentPush(history: seq<Sample>, events: seq<Sample>, dropped: nat, cutoff: real, s: Sample)
    requires Recent(history, events, dropped, cutoff) && InOrder(history)
    requires forall h {:trigger h in history} :: h in history ==> h.timestamp <= s.timestamp
    ensures Recent(history + [s], events + [s], dropped, cutoff) && InOrder(history + [s])
  {
    assert forall i :: 0 <= i < |history| ==> history[i] in history;
    assert (history + [s])[dropped..] == history[dropped..] + [s];
  }

  // ---- The window told by counting ---------------------------------------------------

  /** The sample is of this action, and of this task unless none is named. */
  ghost predicate Concerns(s: Sample, action: string, task: string) {
    s.action == action && !(task != "" && s.task != task)
  }

  ghost function Since(events: seq<Sample>, from: real): set<nat> {
    set i | 0 <= i < |events| && events[i].timestamp >= from
  }

  ghost function FailedSince(events: seq<Sample>, from: real): set<nat> {
    set i | 0 <= i < |events| && events[i].timestamp >= from && !events[i].success
  }

  /** The matching retries with no matching success at or after them. */
  ghost function OpenRetries(events: seq<Sample>, action: string, task: string): set<nat> {
    set i | 0 <= i < |events| && Concerns(events[i], action, task) && events[i].retry
            && forall j :: i <= j < |events| && Concerns(events[j], action, task) ==> !events[j].success
  }

  lemma SincePush(events: seq<Sample>, from: real)
    requires events != []
    ensures var n := |events| - 1;
      && n !in Since(events[..n], from)
      && Since(events, from) == Since(events[..n], from) + if events[n].timestamp >= from then {n} else {}
  {
  }

  lemma FailedSincePush(events: seq<Sample>, from: real)
    requires events != []
    ensures var n := |events| - 1;
      && n !in FailedSince(events[..n], from)
      && FailedSince(events, from)
         == FailedSince(events[..n], from) + if events[n].timestamp >= from && !events[n].success then {n} else {}
  {
  }

  lemma {:induction false} CountSinceIsSize(events: seq<Sample>, from: real)
    ensures CountSince(events, from) == |Since(events, from)|
  {
    if events != [] {
      CountSinceIsSize(events[..|events| - 1], from);
      SincePush(events, from);
    }
  }

  lemma {:induction false} FailuresSinceIsSize(events: seq<Sample>, from: real)
    ensures FailuresSince(events, from) == |FailedSince(events, from)|
  {
    if events != [] {
      FailuresSinceIsSize(events[..|events| - 1], from);
      FailedSincePush(events, from);
    }
  }

  lemma OpenRetriesPush(events: seq<Sample>, action: string, task: string)
    requires events != []
    ensures var n := |events| - 1;
      var before := OpenRetries(events[..n], action, task);
      && n !in before
      && OpenRetries(events, action, task) ==
         if !Concerns(events[n], action, task) then before
         else if events[n].success then {}
         else before + if events[n].retry then {n} else {}
  {
  }

  lemma {:induction false} RetriesAreSize(events: seq<Sample>, action: string, task: string)
    ensures ConsecutiveRetries(events, action, task) == |OpenRetries(events, action, task)|
  {
    if events != [] {
      RetriesAreSize(events[..|events| - 1], action, task);
      OpenRetriesPush(events, action, task);
    }
  }

  /** The window counts what was recorded in the last minute and the last five, and the retries since a success. */
  lemma WindowIsCounted(events: seq<Sample>, action: string, task: string, now: real, coolingDown: bool)
    ensures var w := Window(events, action, task, now, coolingDown);
      && w.actionsLastMinute == |Since(events, now - 60.0)| && w.coolingDown == coolingDown
      && w.samples5m == |Since(events, now - 300.0)| && w.failures5m == |FailedSince(events, now - 300.0)|
      && w.retriesForAction == |OpenRetries(events, action, task)|
  {
    CountSinceIsSize(events, now - 60.0);
    CountSinceIsSize(events, now - 300.0);
    FailuresSinceIsSize(events, now - 300.0);
    RetriesAreSize(events, action, task);
  }

  /** An action is locked for retry exactly when some matching sample failed and no later one matches. */
  lemma {:induction false} LastFailedExactly(events: seq<Sample>, action: string, task: string)
    ensures LastFailed(events, action, task) <==> exists i ::
      && 0 <= i < |events| && Concerns(events[i], action, task) && !events[i].success
      && forall j :: i < j < |events| ==> !Concerns(events[j], action, task)
  {
    if events != [] {
      var n := |events| - 1;
      LastFailedExactly(events[..n], action, task);
      if !Concerns(events[n], action, task) {
        assert forall i :: 0 <= i < n ==> events[..n][i] == events[i];
      }
    }
  }

  class RuntimeMetrics {
    const retention: real
    const clock: nat -> real
    var readings: nat
    var events: seq<Sample>
    var cooldowns: map<string, real>
    ghost var history: seq<Sample>
    ghost var dropped: nat
    /** Until when each action was last told to cool down. */
    ghost var granted: map<string, real>

    /** When the clock was last read. */
    ghost function Latest(): real
      reads this
    {
      if readings == 0 then clock(0) else clock(readings - 1)
    }

    ghost predicate Valid()
      reads this
    {
      && retention >= FAILURE_WINDOW_SECONDS && Monotone(clock)
      && InOrder(history) && (forall s {:trigger s in history} :: s in history ==> s.timestamp <= Latest())
      && Recent(history, events, dropped, Latest() - retention)
      && forall name {:trigger name in granted} :: name in granted && granted[name] > Latest() ==>
           name in cooldowns && cooldowns[name] == granted[name]
    }

    constructor (retention: real, clock: nat -> real)
      requires retention >= FAILURE_WINDOW_SECONDS && Monotone(clock)
      ensures Valid() && this.retention == retention && this.clock == clock && history == [] && cooldowns == map[]
        && granted == map[]
    {
      this.retention, this.clock := retention, clock;
      readings, events, cooldowns, history, dropped, granted := 0, [], map[], [], 0, map[];
    }

    /** Reads the clock. */
    method Now() returns (now: real)
      requires Valid()
      modifies this`readings
      ensures Valid() && now == Latest() && old(Latest()) <= now && readings == old(readings) + 1
    {
      now := clock(readings);
      readings := readings + 1;
    }

    /** Forgets what is older than the retention, and cooldowns that are over. */
    method PruneEvents(now: real)
      requires Valid() && now == Latest()
      modifies this`events, this`dropped, this`cooldowns
      ensures Valid()
      ensures forall name :: name in cooldowns <==> name in old(cooldowns) && old(cooldowns)[name] > now
      ensures forall name :: name in cooldowns ==> cooldowns[name] == old(cooldowns)[name]
      ensures events == [] || events[0].timestamp >= now - retention
    {
      var cutoff := now - retention;
      while events != [] && events[0].timestamp < cutoff
        invariant Recent(history, events, dropped, cutoff) && cooldowns == old(cooldowns)
        decreases |events|
      {
        assert history[dropped] == events[0];
        events := events[1..];
        dropped := dropped + 1;
      }
      cooldowns := map name | name in cooldowns && cooldowns[name] > now :: cooldowns[name];
    }

    method Tick()
      requires Valid()
      modifies this
      ensures Valid() && history == old(history) && granted == old(granted) && old(Latest()) <= Latest()
      ensures forall name :: name in cooldowns <==> name in old(cooldowns) && old(cooldowns)[name] > Latest()
      ensures forall name :: name in cooldowns ==> cooldowns[name] == old(cooldowns)[name]
    {
      var now := Now();
      PruneEvents(now);
    }

    /** `None` stands for the error raised on a blank name. */
    method IsRetry(task: string, action: string) returns (r: Option<bool>)
      requires Valid()
      modifies this
      ensures Valid() && history == old(history) && granted == old(granted) && old(Latest()) <= Latest()
      ensures r.None? <==> Blank(action)
      ensures r.Some? ==> r.value == LastFailed(events, action, task)
    {
      if Blank(action) { return None; }
      Tick();
      var failed := IsRetryLocked(task, action);
      return Some(failed);
    }

    method IsRetryLocked(task: string, action: string) returns (r: bool)
      ensures r == LastFailed(events, action, task)
    {
      var n := |events|;
      assert events[..n] == events;
      while n > 0
        invariant n <= |events| && LastFailed(events, action, task) == LastFailed(events[..n], action, task)
      {
        n := n - 1;
        assert events[..n + 1][..n] == events[..n];
        if SameAction(events[n], action, task) { return !events[n].success; }
      }
      return false;
    }

    method RecordAction(action: string, task: string, success: bool, retry: Option<bool>) returns (ok: bool)
      requires Valid()
      modifies this
      ensures Valid() && granted == old(granted) && old(Latest()) <= Latest()
      ensures ok == !Blank(action)
      ensures !ok ==> history == old(history)
      ensures ok && retry.Some? ==>
        history == old(history) + [Sample(Latest(), action, task, success, retry.value)]
      ensures ok && retry.None? ==>
        history == old(history) + [Sample(Latest(), action, task, success, LastFailed(old(events), action, task))]
    {
      if Blank(action) { return false; }
      var now := Now();
      var flag := false;
      if retry.Some? { flag := retry.value; } else { flag := IsRetryLocked(task, action); }
      Append(Sample(now, action, task, success, flag));
      PruneEvents(now);
      return true;
    }

    /** Adds a sample taken just now. */
    method Append(s: Sample)
      requires Valid() && s.timestamp == Latest()
      modifies this`events, this`history
      ensures Valid() && history == old(history) + [s]
    {
      RecentPush(history, events, dropped, Latest() - retention, s);
      events := events + [s];
      history := history + [s];
    }

    method WindowFor(action: string, task: string) returns (w: Option<RateWindow>)
      requires Valid()
      modifies this
      ensures Valid() && history == old(history) && granted == old(granted) && old(Latest()) <= Latest()
      ensures w.None? <==> Blank(action)
      ensures w.Some? ==>
        w.value == Window(events, action, task, Latest(),
          Latest() < (if action in cooldowns then cooldowns[action] else 0.0))
    {
      if Blank(action) { return None; }
      var now := Now();
      PruneEvents(now);
      var window := Counts(action, task, now);
      return Some(window);
    }

    method Counts(action: string, task: string, now: real) returns (w: RateWindow)
      ensures w == Window(events, action, task, now, now < (if action in cooldowns then cooldowns[action] else 0.0))
    {
      var actions, samples, failures := Tally(now);
      var retries := Retries(action, task);
      var until := if action in cooldowns then cooldowns[action] else 0.0;
      return RateWindow(actions, retries, now < until, samples, failures);
    }

    method Tally(now: real) returns (actions: nat, samples: nat, failures: nat)
      ensures actions == CountSince(events, now - RATE_WINDOW_SECONDS)
      ensures samples == CountSince(events, now - FAILURE_WINDOW_SECONDS)
      ensures failures == FailuresSince(events, now - FAILURE_WINDOW_SECONDS)
    {
      actions, samples, failures := 0, 0, 0;
      for i := 0 to |events|
        invariant actions == CountSince(events[..i], now - RATE_WINDOW_SECONDS)
        invariant samples == CountSince(events[..i], now - FAILURE_WINDOW_SECONDS)
        invariant failures == FailuresSince(events[..i], now - FAILURE_WINDOW_SECONDS)
      {
        assert events[..i + 1][..i] == events[..i];
        if events[i].timestamp >= now - RATE_WINDOW_SECONDS { actions := actions + 1; }
        if events[i].timestamp >= now - FAILURE_WINDOW_SECONDS {
          samples := samples + 1;
          if !events[i].success { failures := failures + 1; }
        }
      }
      assert events[..|events|] == events;
    }

    method Retries(action: string, task: string) returns (count: nat)
      ensures count == ConsecutiveRetries(events, action, task)
    {
      count := 0;
      var n := |events|;
      assert events[..n] == events;
      while n > 0
        invariant n <= |events|
        invariant ConsecutiveRetries(events, action, task) == count + ConsecutiveRetries(events[..n], action, task)
      {
        n := n - 1;
        assert events[..n + 1][..n] == events[..n];
        if SameAction(events[n], action, task) {
          if events[n].success { return; }
          if events[n].retry { count := count + 1; }
        }
      }
    }

    method StartActionCooldown(action: string, seconds: real)
      requires Valid() && !Blank(action) && seconds > 0.0
      modifies this
      ensures Valid() && history == old(history) && old(Latest()) <= Latest()
      ensures cooldowns == old(cooldowns)[action := Latest() + seconds]
        && granted == old(granted)[action := Latest() + seconds]
    {
      var now := Now();
      cooldowns := cooldowns[action := now + seconds];
      granted := granted[action := now + seconds];
    }
  }
}
