/** How often actions are carried out, whether or not they come to be recorded. */
module Issued {
  import opened Keeper
  import opened Metrics
  import opened RateLimits

  /**
   An action that was carried out: when the gate let it pass, what was recorded before, how
   many cycles had broken off.
   */
  datatype Issue = Issue(action: string, task: string, passedAt: real, recorded: nat, faults: nat)

  /** Every action is followed by its record or by a cycle that broke off. */
  ghost predicate Accounted(history: seq<Sample>, issued: seq<Issue>, faults: nat) {
    forall a {:trigger issued[a]} :: 0 <= a < |issued| ==>
      && issued[a].recorded <= |history| && issued[a].faults <= faults
      && |issued| - a <= |history| - issued[a].recorded + faults - issued[a].faults
  }

  ghost predicate AccountedBetween(issued: seq<Issue>) {
    forall a, b {:trigger issued[a], issued[b]} :: 0 <= a <= b < |issued| ==>
      && issued[a].recorded <= issued[b].recorded && issued[a].faults <= issued[b].faults
      && b - a <= issued[b].recorded - issued[a].recorded + issued[b].faults - issued[a].faults
  }

  /** What is recorded after an action passed the gate is not older than that. */
  ghost predicate RecordedLater(history: seq<Sample>, issued: seq<Issue>) {
    forall a, r {:trigger issued[a], history[r]} :: 0 <= a < |issued| && issued[a].recorded <= r < |history| ==>
      issued[a].passedAt <= history[r].timestamp
  }

  /** Fewer than `limit` records separate two actions let through within a minute. */
  ghost predicate Spaced(limit: int, issued: seq<Issue>) {
    forall a, b {:trigger issued[a], issued[b]} :: 0 <= a <= b < |issued| ==>
      issued[b].passedAt - issued[a].passedAt <= 60.0 ==> issued[b].recorded - issued[a].recorded < limit
  }

  ghost predicate Tracked(limit: int, history: seq<Sample>, issued: seq<Issue>, faults: nat) {
    Accounted(history, issued, faults) && AccountedBetween(issued) && RecordedLater(history, issued)
      && Spaced(limit, issued)
  }

  /** The gate let an action pass on what `g` shows. */
  ghost predicate LetPass(limit: int, history: seq<Sample>, retention: real, g: Glimpse, i: Issue, faults: nat) {
    && SeenOf(g, history, retention) && CountSince(g.events, g.now - RATE_WINDOW_SECONDS) < limit
    && i.passedAt == g.now && i.recorded == |history| && i.faults == faults
  }

  lemma IssueIsSpaced(limit: int, history: seq<Sample>, retention: real, issued: seq<Issue>, g: Glimpse, i: Issue,
                      faults: nat)
    requires Spaced(limit, issued) && RecordedLater(history, issued) && Accounted(history, issued, faults)
    requires LetPass(limit, history, retention, g, i, faults) && retention >= RATE_WINDOW_SECONDS
    ensures Spaced(limit, issued + [i])
  {
    var more := issued + [i];
    forall a, b | 0 <= a <= b < |more| && more[b].passedAt - more[a].passedAt <= RATE_WINDOW_SECONDS
      ensures more[b].recorded - more[a].recorded < limit
    {
      if b < |issued| {
        assert more[a] == issued[a] && more[b] == issued[b];
      } else if a < |issued| {
        assert more[a] == issued[a];
        FewSince(limit, history, retention, issued, g, a);
      }
    }
  }

  lemma FewSince(limit: int, history: seq<Sample>, retention: real, issued: seq<Issue>, g: Glimpse, a: nat)
    requires a < |issued| && issued[a].recorded <= |history| && RecordedLater(history, issued)
    requires SeenOf(g, history, retention) && CountSince(g.events, g.now - RATE_WINDOW_SECONDS) < limit
    requires retention >= RATE_WINDOW_SECONDS && g.now - issued[a].passedAt <= RATE_WINDOW_SECONDS
    ensures |history| - issued[a].recorded < limit
  {
    var r := issued[a].recorded;
    if r < |history| {
      StillThere(history, g.events, g.dropped, g.now - retention, r);
      SuffixCounted(g.events, r - g.dropped, g.now - RATE_WINDOW_SECONDS);
    }
  }

  /** An action let through and then recorded. */
  lemma RecordKeepsTrack(limit: int, history: seq<Sample>, retention: real, issued: seq<Issue>, faults: nat, g: Glimpse,
                         i: Issue, s: Sample)
    requires Tracked(limit, history, issued, faults) && retention >= RATE_WINDOW_SECONDS
    requires LetPass(limit, history, retention, g, i, faults)
    requires g.now <= s.timestamp && forall a {:trigger issued[a]} ::
      0 <= a < |issued| ==> issued[a].passedAt <= s.timestamp
    ensures Tracked(limit, history + [s], issued + [i], faults)
  {
    IssueIsSpaced(limit, history, retention, issued, g, i, faults);
    IssueIsAccounted(history, issued, faults, i);
  }

  /** An action let through in a cycle that then broke off. */
  lemma BreakKeepsTrack(limit: int, history: seq<Sample>, retention: real, issued: seq<Issue>, faults: nat, g: Glimpse,
                        i: Issue)
    requires Tracked(limit, history, issued, faults) && retention >= RATE_WINDOW_SECONDS
    requires LetPass(limit, history, retention, g, i, faults)
    ensures Tracked(limit, history, issued + [i], faults + 1)
  {
    IssueIsSpaced(limit, history, retention, issued, g, i, faults);
    IssueIsAccounted(history, issued, faults, i);
  }

  lemma IssueIsAccounted(history: seq<Sample>, issued: seq<Issue>, faults: nat, i: Issue)
    requires Accounted(history, issued, faults) && AccountedBetween(issued)
    requires i.recorded == |history| && i.faults == faults
    ensures AccountedBetween(issued + [i])
  {
    var more := issued + [i];
    forall a, b | 0 <= a <= b < |more|
      ensures more[a].recorded <= more[b].recorded && more[a].faults <= more[b].faults
      ensures b - a <= more[b].recorded - more[a].recorded + more[b].faults - more[a].faults
    {
      if a < |issued| { assert more[a] == issued[a]; }
      if b < |issued| { assert more[b] == issued[b]; }
    }
  }

  /** No minute sees more than `limit` actions carried out, not counting those whose cycle broke off. */
  ghost predicate IssuesPaced(limit: int, issued: seq<Issue>) {
    forall a, b {:trigger issued[a], issued[b]} :: 0 <= a <= b < |issued| ==>
      issued[b].passedAt - issued[a].passedAt <= RATE_WINDOW_SECONDS ==>
        b - a + 1 <= limit + issued[b].faults - issued[a].faults
  }

  lemma PacedPair(limit: int, issued: seq<Issue>, a: nat, b: nat)
    requires Spaced(limit, issued) && AccountedBetween(issued) && a <= b < |issued|
    requires issued[b].passedAt - issued[a].passedAt <= RATE_WINDOW_SECONDS
    ensures 0 < limit && b - a + 1 <= limit + issued[b].faults - issued[a].faults
  {
    assert issued[a].passedAt - issued[a].passedAt <= RATE_WINDOW_SECONDS;
  }

  lemma TrackedIsPaced(limit: int, history: seq<Sample>, issued: seq<Issue>, faults: nat)
    requires Tracked(limit, history, issued, faults)
    ensures IssuesPaced(limit, issued)
  {
  }

  // ---- How far break-offs pass the rate ----------------------------------------------

  /** Successes of one moment. */
  function BurstRecords(n: nat, action: string, task: string): (h: seq<Sample>)
    ensures |h| == n && forall k :: 0 <= k < n ==> h[k] == Sample(0.0, action, task, true, false)
  {
    seq(n, k => Sample(0.0, action, task, true, false))
  }

  /** `n` actions that are recorded, then `m` whose cycles break off, all let through at one moment. */
  function BurstIssues(n: nat, m: nat, action: string, task: string): (log: seq<Issue>)
    ensures |log| == n + m
    ensures forall k :: 0 <= k < n + m ==>
      log[k] == if k < n then Issue(action, task, 0.0, k, 0) else Issue(action, task, 0.0, n, k - n)
  {
    seq(n + m, k requires 0 <= k < n + m =>
      if k < n then Issue(action, task, 0.0, k, 0) else Issue(action, task, 0.0, n, k - n))
  }

  /** Every gate on rate and retries was open for action `k` of the log, on what was recorded before it. */
  ghost predicate PassedGates(policy: Policy, history: seq<Sample>, retention: real, log: seq<Issue>, k: int)
    requires 0 <= k < |log|
  {
    && log[k].recorded <= |history|
    && var seen := history[..log[k].recorded];
       && LetPass(policy.maxActionsPerMinute, seen, retention, Glimpse(seen, 0, log[k].passedAt), log[k], log[k].faults)
       && ConsecutiveRetries(seen, log[k].action, log[k].task) < policy.maxRetriesPerAction
  }

  lemma {:induction false} NeverFailed(events: seq<Sample>, action: string, task: string)
    requires forall k :: 0 <= k < |events| ==> events[k].success
    ensures !LastFailed(events, action, task)
  {
    if events != [] { NeverFailed(events[..|events| - 1], action, task); }
  }

  lemma BurstPasses(policy: Policy, f: nat, action: string, task: string, retention: real, k: nat)
    requires policy.maxActionsPerMinute > 0 && policy.maxRetriesPerAction > 0 && k < policy.maxActionsPerMinute + f
    ensures var n := policy.maxActionsPerMinute - 1;
      PassedGates(policy, BurstRecords(n, action, task), retention, BurstIssues(n, f + 1, action, task), k)
  {
    var n := policy.maxActionsPerMinute - 1;
    var h, i := BurstRecords(n, action, task), BurstIssues(n, f + 1, action, task)[k];
    var seen := h[..i.recorded];
    assert seen[0..] == seen;
    CountAtMost(seen, 0.0 - RATE_WINDOW_SECONDS);
    NoRetriesMarked(seen, action, task);
  }

  lemma BurstRecordsPass(policy: Policy, n: nat, action: string, task: string)
    requires n < policy.maxActionsPerMinute && policy.maxRetriesPerAction > 0
    ensures AllPass(policy, BurstRecords(n, action, task))
  {
    var h := BurstRecords(n, action, task);
    forall k | 0 <= k < |h| ensures Passes(policy, h, k) {
      NeverFailed(h[..k], action, task);
      NoRetriesMarked(h[..k], action, task);
      CountAtMost(h[..k], h[k].timestamp - RATE_WINDOW_SECONDS);
    }
  }

  lemma BurstIsTracked(limit: nat, f: nat, action: string, task: string)
    requires limit > 0
    ensures Tracked(limit, BurstRecords(limit - 1, action, task), BurstIssues(limit - 1, f + 1, action, task), f + 1)
  {
  }

  /**
   For every positive rate and every `f`: `limit + f` actions at one moment, each let through by
   open gates, with `f` break-offs between the first and the last of them.
   */
  lemma BreakOffsPassTheRate(policy: Policy, f: nat, action: string, task: string, retention: real)
    requires policy.maxActionsPerMinute > 0 && policy.maxRetriesPerAction > 0
    ensures var limit := policy.maxActionsPerMinute;
      var h, log := BurstRecords(limit - 1, action, task), BurstIssues(limit - 1, f + 1, action, task);
      && AllPass(policy, h) && Tracked(limit, h, log, f + 1)
      && (forall k :: 0 <= k < |log| ==> PassedGates(policy, h, retention, log, k) && log[k].passedAt == 0.0)
      && |log| == limit + f && log[|log| - 1].faults - log[0].faults == f
  {
    var n := policy.maxActionsPerMinute - 1;
    var h, log := BurstRecords(n, action, task), BurstIssues(n, f + 1, action, task);
    BurstRecordsPass(policy, n, action, task);
    BurstIsTracked(policy.maxActionsPerMinute, f, action, task);
    forall k | 0 <= k < |log| ensures PassedGates(policy, h, retention, log, k) {
      BurstPasses(policy, f, action, task, retention, k);
    }
  }

  /** No minute with `f` break-offs between its first and its last action sees more than `limit` actions. */
  ghost predicate RateBounds(limit: int, f: nat) {
    forall history: seq<Sample>, issued: seq<Issue>, faults, a, b
      {:trigger Tracked(limit, history, issued, faults), issued[a], issued[b]} ::
      Tracked(limit, history, issued, faults) && 0 <= a <= b < |issued|
      && issued[b].passedAt - issued[a].passedAt <= RATE_WINDOW_SECONDS && issued[b].faults - issued[a].faults == f ==>
        b - a + 1 <= limit
  }

  /** The rate bounds what is carried out exactly where no cycle breaks off, or nothing is allowed. */
  lemma RateBoundsIffUnbroken(limit: int, f: nat)
    ensures RateBounds(limit, f) <==> f == 0 || limit <= 0
  {
    if f == 0 || limit <= 0 {
      forall history: seq<Sample>, issued: seq<Issue>, faults, a, b | Tracked(limit, history, issued, faults)
        && 0 <= a <= b < |issued|
        && issued[b].passedAt - issued[a].passedAt <= RATE_WINDOW_SECONDS && issued[b].faults - issued[a].faults == f
        ensures b - a + 1 <= limit
      {
        PacedPair(limit, issued, a, b);
      }
    } else {
      BurstIsTracked(limit, f, "a", "t");
      var h, log := BurstRecords(limit - 1, "a", "t"), BurstIssues(limit - 1, f + 1, "a", "t");
      assert Tracked(limit, h, log, f + 1) && log[|log| - 1].faults - log[0].faults == f;
      assert |log| - 1 - 0 + 1 > limit;
    }
  }
}
