/** How the gate's windows bound everything that is ever recorded. */
module RateLimits {
  import opened Keeper
  import opened Metrics

  // ---- The action rate ---------------------------------------------------------------

  /** No minute, its ends included, holds more than `limit` records. */
  ghost predicate RateKept(limit: int, history: seq<Sample>) {
    forall i, j {:trigger history[i], history[j]} :: 0 <= i <= j < |history| ==>
      history[j].timestamp - history[i].timestamp <= 60.0 ==> j - i + 1 <= limit
  }

  /** Whatever is newer than `from` is counted. */
  lemma {:induction false} SuffixCounted(events: seq<Sample>, m: nat, from: real)
    requires m <= |events| && forall x :: m <= x < |events| ==> events[x].timestamp >= from
    ensures CountSince(events, from) >= |events| - m
  {
    if m < |events| { SuffixCounted(events[..|events| - 1], m, from); }
  }

  /** What is newer than the cutoff has not been dropped. */
  lemma StillThere(history: seq<Sample>, events: seq<Sample>, dropped: nat, cutoff: real, i: nat)
    requires Recent(history, events, dropped, cutoff) && i < |history| && history[i].timestamp >= cutoff
    ensures dropped <= i && events == history[dropped..i] + history[i..]
  {
  }

  /** A record made after the gate saw fewer than `limit` records in its last minute keeps the rate. */
  lemma RecordKeepsRate(limit: int, history: seq<Sample>, events: seq<Sample>, dropped: nat, retention: real, now: real,
                        s: Sample)
    requires RateKept(limit, history) && InOrder(history)
    requires retention >= RATE_WINDOW_SECONDS && Recent(history, events, dropped, now - retention)
    requires CountSince(events, now - RATE_WINDOW_SECONDS) < limit && now <= s.timestamp
    ensures RateKept(limit, history + [s])
  {
    var more := history + [s];
    forall i | 0 <= i < |history| && s.timestamp - history[i].timestamp <= RATE_WINDOW_SECONDS
      ensures |history| - i + 1 <= limit
    {
      StillThere(history, events, dropped, now - retention, i);
      SuffixCounted(events, i - dropped, now - RATE_WINDOW_SECONDS);
    }
    forall i, j | 0 <= i <= j < |more| && more[j].timestamp - more[i].timestamp <= RATE_WINDOW_SECONDS
      ensures j - i + 1 <= limit
    {
      if j < |history| { assert more[i] == history[i] && more[j] == history[j]; }
      else if i < |history| { assert more[i] == history[i]; }
    }
  }

  // ---- Retries -----------------------------------------------------------------------

  ghost predicate NoSuccess(h: seq<Sample>, action: string, task: string) {
    forall x {:trigger h[x]} :: 0 <= x < |h| && SameAction(h[x], action, task) ==> !h[x].success
  }

  /** Matching samples marked as retries. */
  function RetriesIn(h: seq<Sample>, action: string, task: string): nat {
    if h == [] then 0
    else
      var n := |h| - 1;
      RetriesIn(h[..n], action, task) + if SameAction(h[n], action, task) && h[n].retry then 1 else 0
  }

  /** Recorded under exactly this task; the gate takes an empty task for any. */
  predicate Own(s: Sample, action: string, task: string) {
    s.action == action && s.task == task
  }

  function FailuresIn(h: seq<Sample>, action: string, task: string): nat {
    if h == [] then 0
    else
      var n := |h| - 1;
      FailuresIn(h[..n], action, task) + if Own(h[n], action, task) && !h[n].success then 1 else 0
  }

  /** Without a success since, every retry counts against the gate. */
  lemma {:induction false} RetriesCounted(before: seq<Sample>, h: seq<Sample>, action: string, task: string)
    requires NoSuccess(h, action, task)
    ensures ConsecutiveRetries(before + h, action, task) >= RetriesIn(h, action, task)
  {
    if h != [] {
      var n := |h| - 1;
      RetriesCounted(before, h[..n], action, task);
      assert (before + h)[..|before| + n] == before + h[..n];
    }
  }

  lemma {:induction false} FailureNoticed(before: seq<Sample>, h: seq<Sample>, action: string, task: string, i: nat)
    requires NoSuccess(h, action, task) && i < |h| && SameAction(h[i], action, task)
    ensures LastFailed(before + h, action, task)
  {
    var n := |h| - 1;
    assert (before + h)[..|before| + n] == before + h[..n];
    if i < n && !SameAction(h[n], action, task) { FailureNoticed(before, h[..n], action, task, i); }
  }

  /** Sample `j` comes within the retention of sample `i`, with no success of its own action between. */
  ghost predicate Follows(history: seq<Sample>, retention: real, i: int, j: int)
    requires 0 <= i <= j < |history|
  {
    && history[j].timestamp - history[i].timestamp <= retention
    && NoSuccess(history[i..j], history[j].action, history[j].task)
  }

  /** A record that follows a failure of its own is marked as a retry. */
  ghost predicate RetriesMarked(history: seq<Sample>, retention: real) {
    forall i, j {:trigger Follows(history, retention, i, j)} :: 0 <= i < j < |history| ==>
      Follows(history, retention, i, j) && SameAction(history[i], history[j].action, history[j].task) ==>
        history[j].retry
  }

  /** Nothing is recorded behind `limit` retries of its own. */
  ghost predicate RetriesGated(limit: int, history: seq<Sample>, retention: real) {
    forall i, j {:trigger Follows(history, retention, i, j)} :: 0 <= i <= j < |history| ==>
      Follows(history, retention, i, j) ==> RetriesIn(history[i..j], history[j].action, history[j].task) < limit
  }

  lemma FollowsEarlier(history: seq<Sample>, s: Sample, retention: real, i: nat, j: nat)
    requires i <= j < |history|
    ensures (history + [s])[i..j] == history[i..j]
    ensures Follows(history + [s], retention, i, j) == Follows(history, retention, i, j)
  {
    assert (history + [s])[i..j] == history[i..j];
  }

  lemma FollowsNow(history: seq<Sample>, s: Sample, retention: real, i: nat)
    requires i <= |history| && Follows(history + [s], retention, i, |history|)
    ensures (history + [s])[i..|history|] == history[i..]
    ensures NoSuccess(history[i..], s.action, s.task)
    ensures i < |history| ==> s.timestamp - history[i].timestamp <= retention
  {
    assert (history + [s])[i..|history|] == history[i..];
  }

  /** A record marked by what was seen before it keeps the marking complete. */
  lemma RecordKeepsMarks(history: seq<Sample>, events: seq<Sample>, dropped: nat, retention: real, now: real, s: Sample)
    requires RetriesMarked(history, retention)
    requires Recent(history, events, dropped, now - retention) && now <= s.timestamp
    requires LastFailed(events, s.action, s.task) ==> s.retry
    ensures RetriesMarked(history + [s], retention)
  {
    var more := history + [s];
    forall i, j | 0 <= i < j < |more| && Follows(more, retention, i, j)
      && SameAction(more[i], more[j].action, more[j].task)
      ensures more[j].retry
    {
      if j < |history| {
        FollowsEarlier(history, s, retention, i, j);
      } else {
        FollowsNow(history, s, retention, i);
        StillThere(history, events, dropped, now - retention, i);
        FailureNoticed(history[dropped..i], history[i..], s.action, s.task, 0);
      }
    }
  }

  /** A record made after the gate saw fewer than `limit` retries keeps them gated. */
  lemma RecordKeepsGate(limit: int, history: seq<Sample>, events: seq<Sample>, dropped: nat, retention: real, now: real,
                        s: Sample)
    requires RetriesGated(limit, history, retention)
    requires Recent(history, events, dropped, now - retention) && now <= s.timestamp
    requires ConsecutiveRetries(events, s.action, s.task) < limit
    ensures RetriesGated(limit, history + [s], retention)
  {
    var more := history + [s];
    forall i, j | 0 <= i <= j < |more| && Follows(more, retention, i, j)
      ensures RetriesIn(more[i..j], more[j].action, more[j].task) < limit
    {
      if j < |history| {
        FollowsEarlier(history, s, retention, i, j);
      } else {
        FollowsNow(history, s, retention, i);
        if i < |history| {
          StillThere(history, events, dropped, now - retention, i);
          RetriesCounted(history[dropped..i], history[i..], s.action, s.task);
        }
      }
    }
  }

  lemma {:induction false} MarkedFailures(h: seq<Sample>, action: string, task: string)
    requires forall i, j {:trigger h[i], h[j]} ::
      0 <= i < j < |h| && Own(h[i], action, task) && Own(h[j], action, task) ==> h[j].retry
    ensures FailuresIn(h, action, task) <= RetriesIn(h, action, task) + 1
    ensures FailuresIn(h, action, task) > 0 ==> exists i :: 0 <= i < |h| && Own(h[i], action, task)
  {
    if h != [] { MarkedFailures(h[..|h| - 1], action, task); }
  }

  lemma SliceOfSlice(history: seq<Sample>, lo: nat, hi: nat, i: nat, j: nat)
    requires lo <= hi <= |history| && i <= j <= hi - lo
    ensures history[lo..hi][i..j] == history[lo + i..lo + j]
  {
    var a, b := history[lo..hi][i..j], history[lo + i..lo + j];
    assert |a| == |b|;
    forall x | 0 <= x < |a| ensures a[x] == b[x] { assert a[x] == history[lo..hi][i + x]; }
  }

  lemma MarksInside(history: seq<Sample>, retention: real, lo: nat, hi: nat, action: string, task: string)
    requires lo <= hi <= |history| && InOrder(history) && RetriesMarked(history, retention)
    requires NoSuccess(history[lo..hi], action, task)
    requires forall i :: lo <= i < hi ==> history[hi - 1].timestamp - history[i].timestamp <= retention
    ensures FailuresIn(history[lo..hi], action, task) <= RetriesIn(history[lo..hi], action, task) + 1
  {
    var h := history[lo..hi];
    forall i, j | 0 <= i < j < |h| && Own(h[i], action, task) && Own(h[j], action, task)
      ensures h[j].retry
    {
      SliceOfSlice(history, lo, hi, i, j);
      assert Follows(history, retention, lo + i, lo + j);
    }
    MarkedFailures(h, action, task);
  }

  /**
   However events are forgotten, no stretch of history within the retention and without a
   success of the action that the gate would notice under `task` holds more than `limit + 1`
   failures under that very task, or any if `limit` is zero.
   */
  lemma {:induction false} FailuresBounded(limit: int, history: seq<Sample>, retention: real, lo: nat, hi: nat,
                                           action: string, task: string)
    requires lo <= hi <= |history| && InOrder(history)
    requires RetriesMarked(history, retention) && RetriesGated(limit, history, retention)
    requires NoSuccess(history[lo..hi], action, task)
    requires lo < hi ==> history[hi - 1].timestamp - history[lo].timestamp <= retention
    ensures FailuresIn(history[lo..hi], action, task) <= if limit <= 0 then 0 else limit + 1
    decreases hi
  {
    if lo < hi {
      var j := hi - 1;
      assert history[lo..hi][..j - lo] == history[lo..j];
      assert forall x :: 0 <= x < j - lo ==> history[lo..j][x] == history[lo..hi][x];
      assert history[lo..hi][j - lo] == history[j];
      if Own(history[j], action, task) {
        assert Follows(history, retention, lo, j);
        MarksInside(history, retention, lo, j, action, task);
      } else {
        FailuresBounded(limit, history, retention, lo, j, action, task);
      }
    }
  }

  // ---- Both limits -------------------------------------------------------------------

  /** Everything recorded so far passed the gates. */
  ghost predicate Lawful(policy: Policy, history: seq<Sample>, retention: real) {
    && RateKept(policy.maxActionsPerMinute, history)
    && RetriesMarked(history, retention)
    && RetriesGated(policy.maxRetriesPerAction, history, retention)
  }

  /** What the metrics held at some moment before a record. */
  datatype Glimpse = Glimpse(events: seq<Sample>, dropped: nat, now: real)

  ghost predicate SeenOf(g: Glimpse, history: seq<Sample>, retention: real) {
    Recent(history, g.events, g.dropped, g.now - retention)
  }

  lemma RecordIsLawful(policy: Policy, history: seq<Sample>, retention: real, mark: Glimpse, gate: Glimpse, s: Sample)
    requires Lawful(policy, history, retention) && InOrder(history) && retention >= RATE_WINDOW_SECONDS
    requires SeenOf(mark, history, retention) && SeenOf(gate, history, retention)
    requires mark.now <= s.timestamp && gate.now <= s.timestamp
    requires LastFailed(mark.events, s.action, s.task) ==> s.retry
    requires CountSince(gate.events, gate.now - RATE_WINDOW_SECONDS) < policy.maxActionsPerMinute
    requires ConsecutiveRetries(gate.events, s.action, s.task) < policy.maxRetriesPerAction
    ensures Lawful(policy, history + [s], retention)
  {
    RecordKeepsRate(policy.maxActionsPerMinute, history, gate.events, gate.dropped, retention, gate.now, s);
    RecordKeepsMarks(history, mark.events, mark.dropped, retention, mark.now, s);
    RecordKeepsGate(policy.maxRetriesPerAction, history, gate.events, gate.dropped, retention, gate.now, s);
  }

  /** A stretch of history within the retention, without a success of the action. */
  ghost predicate Unbroken(history: seq<Sample>, retention: real, lo: int, hi: int, action: string, task: string)
    requires 0 <= lo <= hi <= |history|
  {
    NoSuccess(history[lo..hi], action, task)
    && (lo < hi ==> history[hi - 1].timestamp - history[lo].timestamp <= retention)
  }

  ghost predicate FailuresKept(limit: int, history: seq<Sample>, retention: real) {
    forall lo, hi, action, task {:trigger Unbroken(history, retention, lo, hi, action, task)} ::
      0 <= lo <= hi <= |history| ==>
        Unbroken(history, retention, lo, hi, action, task) ==>
          FailuresIn(history[lo..hi], action, task) <= if limit <= 0 then 0 else limit + 1
  }

  lemma LawfulKeepsFailures(policy: Policy, history: seq<Sample>, retention: real)
    requires Lawful(policy, history, retention) && InOrder(history)
    ensures FailuresKept(policy.maxRetriesPerAction, history, retention)
  {
    forall lo, hi, action, task | 0 <= lo <= hi <= |history| && Unbroken(history, retention, lo, hi, action, task)
      ensures FailuresIn(history[lo..hi], action, task)
              <= if policy.maxRetriesPerAction <= 0 then 0 else policy.maxRetriesPerAction + 1
    {
      FailuresBounded(policy.maxRetriesPerAction, history, retention, lo, hi, action, task);
    }
  }

  // ---- The scope of retries ----------------------------------------------------------

  ghost predicate NoOwnSuccess(h: seq<Sample>, action: string, task: string) {
    forall x {:trigger h[x]} :: 0 <= x < |h| && Own(h[x], action, task) ==> !h[x].success
  }

  /** The documented scope: within the retention, no success under this very task. */
  ghost predicate OwnUnbroken(history: seq<Sample>, retention: real, lo: int, hi: int, action: string, task: string)
    requires 0 <= lo <= hi <= |history|
  {
    NoOwnSuccess(history[lo..hi], action, task)
    && (lo < hi ==> history[hi - 1].timestamp - history[lo].timestamp <= retention)
  }

  /** Every record passed the gates that saw all the records before it. */
  ghost predicate Passes(policy: Policy, history: seq<Sample>, k: int)
    requires 0 <= k < |history|
  {
    var seen, s := history[..k], history[k];
    && s.retry == LastFailed(seen, s.action, s.task)
    && CountSince(seen, s.timestamp - RATE_WINDOW_SECONDS) < policy.maxActionsPerMinute
    && ConsecutiveRetries(seen, s.action, s.task) < policy.maxRetriesPerAction
  }

  ghost predicate AllPass(policy: Policy, history: seq<Sample>) {
    forall k {:trigger Passes(policy, history, k)} :: 0 <= k < |history| ==> Passes(policy, history, k)
  }

  /** At most `limit + 1` own failures in any stretch of the documented scope, whatever else is recorded. */
  ghost predicate ScopedPerTask(limit: int, action: string, task: string) {
    forall policy: Policy, history, retention, lo, hi
      {:trigger Lawful(policy, history, retention), OwnUnbroken(history, retention, lo, hi, action, task)} ::
      policy.maxRetriesPerAction == limit && Lawful(policy, history, retention) && InOrder(history)
      && 0 <= lo <= hi <= |history| && OwnUnbroken(history, retention, lo, hi, action, task) ==>
        FailuresIn(history[lo..hi], action, task) <= if limit <= 0 then 0 else limit + 1
  }

  /** A failure without a task and a success of the same action under a task, `n` times at one moment. */
  function Alternating(n: nat, action: string): (h: seq<Sample>)
    ensures |h| == 2 * n
    ensures forall k :: 0 <= k < |h| ==> h[k].timestamp == 0.0 && h[k].action == action && !h[k].retry
    ensures forall k :: 0 <= k < |h| ==> h[k].task == (if k % 2 == 0 then "" else "t") && h[k].success == (k % 2 == 1)
  {
    if n == 0 then []
    else Alternating(n - 1, action) + [Sample(0.0, action, "", false, false), Sample(0.0, action, "t", true, false)]
  }

  lemma {:induction false} AlternatingFailures(n: nat, action: string)
    ensures FailuresIn(Alternating(n, action), action, "") == n
  {
    if n > 0 {
      AlternatingFailures(n - 1, action);
      var h, before := Alternating(n, action), Alternating(n - 1, action);
      assert h[..2 * n - 1][..2 * n - 2] == before && h[..2 * n - 1][2 * n - 2] == h[2 * n - 2];
    }
  }

  lemma {:induction false} NoRetriesMarked(events: seq<Sample>, action: string, task: string)
    requires forall k :: 0 <= k < |events| ==> !events[k].retry
    ensures ConsecutiveRetries(events, action, task) == 0
  {
    if events != [] { NoRetriesMarked(events[..|events| - 1], action, task); }
  }

  lemma {:induction false} CountAtMost(events: seq<Sample>, from: real)
    ensures CountSince(events, from) <= |events|
  {
    if events != [] { CountAtMost(events[..|events| - 1], from); }
  }

  /** Neither the success before a failure nor the failure before a success makes a retry. */
  lemma AlternatingUnmarked(n: nat, action: string, k: nat)
    requires k < 2 * n
    ensures var h := Alternating(n, action); !LastFailed(h[..k], h[k].action, h[k].task)
  {
    var h := Alternating(n, action);
    if k > 0 {
      assert h[..k][k - 1] == h[k - 1];
      if k % 2 == 1 && k > 1 {
        assert h[..k][..k - 1][k - 2] == h[k - 2];
      }
    }
  }

  lemma AlternatingPasses(policy: Policy, n: nat, action: string)
    requires policy.maxActionsPerMinute > 2 * n && policy.maxRetriesPerAction > 0
    ensures AllPass(policy, Alternating(n, action))
  {
    var h := Alternating(n, action);
    forall k | 0 <= k < |h| ensures Passes(policy, h, k) {
      AlternatingUnmarked(n, action, k);
      NoRetriesMarked(h[..k], h[k].action, h[k].task);
      CountAtMost(h[..k], h[k].timestamp - RATE_WINDOW_SECONDS);
    }
  }

  /** Records of one moment that all passed are lawful: nothing was forgotten between them. */
  lemma {:induction false} PassedIsLawful(policy: Policy, history: seq<Sample>, retention: real)
    requires AllPass(policy, history) && retention >= RATE_WINDOW_SECONDS
    requires forall k :: 0 <= k < |history| ==> history[k].timestamp == 0.0
    ensures Lawful(policy, history, retention) && InOrder(history)
  {
    if history != [] {
      var n := |history| - 1;
      var before := history[..n];
      assert history == before + [history[n]];
      forall k | 0 <= k < n ensures Passes(policy, before, k) {
        assert Passes(policy, history, k) && before[..k] == history[..k];
      }
      PassedIsLawful(policy, before, retention);
      assert Passes(policy, history, n);
      var g := Glimpse(before, 0, 0.0);
      assert before[0..] == before;
      RecordIsLawful(policy, before, retention, g, g, history[n]);
    }
  }

  /** `limit + 2` failures without a task, each recorded after passing the gates. */
  lemma InterleavedFailures(policy: Policy, action: string, retention: real)
    requires policy.maxRetriesPerAction > 0 && policy.maxActionsPerMinute > 2 * (policy.maxRetriesPerAction + 2)
    requires retention >= RATE_WINDOW_SECONDS
    ensures var h := Alternating(policy.maxRetriesPerAction + 2, action);
      && AllPass(policy, h) && Lawful(policy, h, retention) && InOrder(h)
      && OwnUnbroken(h, retention, 0, |h|, action, "")
      && FailuresIn(h[0..|h|], action, "") == policy.maxRetriesPerAction + 2
  {
    var n := policy.maxRetriesPerAction + 2;
    var h := Alternating(n, action);
    AlternatingPasses(policy, n, action);
    PassedIsLawful(policy, h, retention);
    AlternatingFailures(n, action);
    assert h[0..|h|] == h;
  }

  /** Retries are scoped by task and action exactly for the actions that name a task, or when none are allowed. */
  lemma ScopedIffNamed(limit: int, action: string, task: string)
    ensures ScopedPerTask(limit, action, task) <==> task != "" || limit <= 0
  {
    if task != "" {
      NamedIsScoped(limit, action, task);
    } else if limit <= 0 {
      NothingIsScoped(limit, action, task);
    } else {
      var policy := Policy("d", Auto, 0, false, 2 * (limit + 2) + 1, limit, 0, 0.0);
      InterleavedFailures(policy, action, RATE_WINDOW_SECONDS);
      var h := Alternating(limit + 2, action);
      assert Lawful(policy, h, RATE_WINDOW_SECONDS) && OwnUnbroken(h, RATE_WINDOW_SECONDS, 0, |h|, action, task);
      assert !ScopedPerTask(limit, action, task);
    }
  }

  lemma NamedIsScoped(limit: int, action: string, task: string)
    requires task != ""
    ensures ScopedPerTask(limit, action, task)
  {
    forall policy: Policy, history, retention, lo, hi |
      policy.maxRetriesPerAction == limit && Lawful(policy, history, retention) && InOrder(history)
      && 0 <= lo <= hi <= |history| && OwnUnbroken(history, retention, lo, hi, action, task)
      ensures FailuresIn(history[lo..hi], action, task) <= if limit <= 0 then 0 else limit + 1
    {
      FailuresBounded(limit, history, retention, lo, hi, action, task);
    }
  }

  /** With a limit of zero the gate lets nothing through. */
  lemma NothingIsScoped(limit: int, action: string, task: string)
    requires limit <= 0
    ensures ScopedPerTask(limit, action, task)
  {
    forall policy: Policy, history, retention, lo, hi |
      policy.maxRetriesPerAction == limit && Lawful(policy, history, retention) && InOrder(history)
      && 0 <= lo <= hi <= |history| && OwnUnbroken(history, retention, lo, hi, action, task)
      ensures FailuresIn(history[lo..hi], action, task) <= 0
    {
      NothingRecorded(limit, history, retention);
      assert lo == hi;
    }
  }

  lemma NothingRecorded(limit: int, history: seq<Sample>, retention: real)
    requires RetriesGated(limit, history, retention) && limit <= 0
    ensures history == [] || retention < 0.0
  {
    if history != [] && retention >= 0.0 {
      assert history[0..0] == [];
      assert Follows(history, retention, 0, 0);
    }
  }
}
