/** Kahn's algorithm over step ids, keeping what it cannot order as a remainder. */
module Topology {
  import opened Orders
  import opened Construction

  type Graph = map<StepId, set<StepId>>

  /** Every dependency is itself a step. */
  ghost predicate Closed(g: Graph) {
    forall id, d :: id in g && d in g[id] ==> d in g
  }

  function Elements(s: seq<StepId>): set<StepId> {
    set x | x in s
  }

  lemma ElementsPush(s: seq<StepId>, x: StepId)
    ensures Elements(s + [x]) == Elements(s) + {x}
  {
  }

  /** `ordered` lists steps once each, none before one of its dependencies. */
  ghost predicate Ordered(g: Graph, ordered: seq<StepId>) {
    && NoDuplicates(ordered)
    && forall k :: 0 <= k < |ordered| ==> ordered[k] in g && g[ordered[k]] <= Elements(ordered[..k])
  }

  /** `ordered` cannot be extended: whatever is left waits for something left. */
  ghost predicate Exhausted(g: Graph, ordered: seq<StepId>) {
    forall id :: id in g && g[id] <= Elements(ordered) ==> id in ordered
  }

  lemma OrderedInGraph(g: Graph, ordered: seq<StepId>)
    requires Ordered(g, ordered)
    ensures Elements(ordered) <= g.Keys
  {
    forall a | a in Elements(ordered) ensures a in g {
      var k :| 0 <= k < |ordered| && ordered[k] == a;
    }
  }

  // ---- What the remainder means ------------------------------------------------------

  /** Each element of `walk` depends directly on the next. */
  ghost predicate DependencyWalk(g: Graph, walk: seq<StepId>) {
    && (forall k :: 0 <= k < |walk| ==> walk[k] in g)
    && (forall k :: 0 <= k < |walk| - 1 ==> walk[k + 1] in g[walk[k]])
  }

  /** Following dependencies from `id` can come back to a step already passed. */
  ghost predicate ReachesCycle(g: Graph, id: StepId) {
    exists walk :: DependencyWalk(g, walk) && walk != [] && walk[0] == id && !NoDuplicates(walk)
  }

  lemma {:induction false} StuckWalk(g: Graph, ordered: seq<StepId>, id: StepId, n: nat) returns (walk: seq<StepId>)
    requires Closed(g) && Exhausted(g, ordered)
    requires id in g && id !in ordered
    ensures DependencyWalk(g, walk) && |walk| == n + 1 && walk[0] == id
    ensures forall k :: 0 <= k < |walk| ==> walk[k] !in ordered
    decreases n
  {
    if n == 0 {
      walk := [id];
    } else {
      var d :| d in g[id] && d !in Elements(ordered);
      var rest := StuckWalk(g, ordered, d, n - 1);
      walk := [id] + rest;
    }
  }

  lemma {:induction false} NoDuplicatesBound<T>(s: seq<T>, keys: set<T>)
    requires NoDuplicates(s) && forall k :: 0 <= k < |s| ==> s[k] in keys
    ensures |s| <= |keys|
    decreases |s|
  {
    if s != [] {
      var n := |s| - 1;
      NoDuplicatesBound(s[..n], keys - {s[n]});
    }
  }

  /** An ordered step sits after its dependencies, so a walk through it moves strictly back. */
  lemma {:induction false} OrderedWalkIsSimple(g: Graph, ordered: seq<StepId>, walk: seq<StepId>, at: nat)
    requires Ordered(g, ordered) && DependencyWalk(g, walk) && walk != []
    requires at < |ordered| && ordered[at] == walk[0]
    ensures NoDuplicates(walk)
    ensures forall k :: 0 <= k < |walk| ==> walk[k] in ordered[..at + 1]
    ensures forall k :: 0 < k < |walk| ==> walk[k] in ordered[..at]
    decreases |walk|
  {
    if |walk| > 1 {
      assert walk[1] in Elements(ordered[..at]);
      var next :| 0 <= next < at && ordered[next] == walk[1];
      OrderedWalkIsSimple(g, ordered, walk[1..], next);
      forall k | 0 < k < |walk| ensures walk[k] in ordered[..at] && walk[k] != walk[0] {
        assert walk[k] == walk[1..][k - 1];
        var j :| 0 <= j < next + 1 && ordered[j] == walk[k];
        assert ordered[..at][j] == walk[k];
      }
      assert ordered[..at + 1][at] == walk[0];
      forall i, j | 0 <= i < j < |walk| ensures walk[i] != walk[j] {
        if i > 0 { assert walk[1..][i - 1] != walk[1..][j - 1]; }
      }
    } else {
      assert ordered[..at + 1][at] == walk[0];
    }
  }

  /** A step stays unresolved exactly when its dependency chain reaches a cycle. */
  lemma UnresolvedIffCyclic(g: Graph, ordered: seq<StepId>, id: StepId)
    requires Closed(g) && Ordered(g, ordered) && Exhausted(g, ordered) && id in g
    ensures id !in ordered <==> ReachesCycle(g, id)
  {
    if id !in ordered {
      var walk := StuckWalk(g, ordered, id, |g.Keys|);
      if NoDuplicates(walk) {
        NoDuplicatesBound(walk, g.Keys);
      }
    } else if ReachesCycle(g, id) {
      var walk :| DependencyWalk(g, walk) && walk != [] && walk[0] == id && !NoDuplicates(walk);
      var at :| 0 <= at < |ordered| && ordered[at] == id;
      OrderedWalkIsSimple(g, ordered, walk, at);
    }
  }

  // ---- The order of the queue --------------------------------------------------------

  /** Nothing `w` waits for comes after the first `n` steps. */
  ghost predicate FreeAfter(g: Graph, order: seq<StepId>, n: int, w: StepId) {
    0 <= n <= |order| && w in g && g[w] <= Elements(order[..n])
  }

  ghost predicate SoonerFree(g: Graph, order: seq<StepId>, a: StepId, b: StepId) {
    forall n {:trigger FreeAfter(g, order, n, a)} {:trigger FreeAfter(g, order, n, b)} ::
      FreeAfter(g, order, n, b) ==> FreeAfter(g, order, n, a)
  }

  /** `a` is free no later than `b`, and comes first by id when both are freed by the same step. */
  ghost predicate ServedFirst(g: Graph, order: seq<StepId>, a: StepId, b: StepId) {
    && SoonerFree(g, order, a, b)
    && (SoonerFree(g, order, b, a) ==> IdLess(a, b))
  }

  /** First freed, first served. */
  ghost predicate InQueueOrder(g: Graph, order: seq<StepId>, all: seq<StepId>) {
    forall i, j {:trigger ServedFirst(g, order, all[i], all[j])} ::
      0 <= i < j < |all| ==> ServedFirst(g, order, all[i], all[j])
  }

  lemma FreeEarlier(g: Graph, order: seq<StepId>, id: StepId, n: nat, w: StepId)
    requires n <= |order|
    ensures FreeAfter(g, order + [id], n, w) <==> FreeAfter(g, order, n, w)
  {
    assert (order + [id])[..n] == order[..n];
  }

  lemma FreeLast(g: Graph, order: seq<StepId>, id: StepId, w: StepId)
    ensures FreeAfter(g, order + [id], |order| + 1, w) <==> w in g && g[w] <= Elements(order) + {id}
  {
    assert (order + [id])[..|order| + 1] == order + [id];
    ElementsPush(order, id);
  }

  lemma SoonerPush(g: Graph, order: seq<StepId>, id: StepId, a: StepId, b: StepId)
    requires FreeAfter(g, order, |order|, a) && FreeAfter(g, order, |order|, b)
    ensures SoonerFree(g, order + [id], a, b) <==> SoonerFree(g, order, a, b)
  {
    FreeLast(g, order, id, a);
    FreeLast(g, order, id, b);
    assert order[..|order|] == order;
    forall n: nat | n <= |order|
      ensures FreeAfter(g, order + [id], n, a) <==> FreeAfter(g, order, n, a)
      ensures FreeAfter(g, order + [id], n, b) <==> FreeAfter(g, order, n, b)
    {
      FreeEarlier(g, order, id, n, a);
      FreeEarlier(g, order, id, n, b);
    }
  }

  /** `w` is free once `id` is served, and not before. */
  ghost predicate FreedBy(g: Graph, order: seq<StepId>, id: StepId, w: StepId) {
    w in g && id in g[w] && id !in Elements(order) && g[w] <= Elements(order) + {id}
  }

  lemma FreedNotBefore(g: Graph, order: seq<StepId>, id: StepId, w: StepId, n: int)
    requires FreedBy(g, order, id, w)
    ensures FreeAfter(g, order + [id], n, w) <==> n == |order| + 1
  {
    FreeLast(g, order, id, w);
    if 0 <= n <= |order| {
      FreeEarlier(g, order, id, n, w);
      assert id !in Elements(order[..n]) by {
        assert forall x :: x in order[..n] ==> x in order;
      }
    }
  }

  lemma QueuedFirst(g: Graph, order: seq<StepId>, id: StepId, a: StepId, w: StepId)
    requires FreeAfter(g, order, |order|, a) && FreedBy(g, order, id, w)
    ensures ServedFirst(g, order + [id], a, w)
  {
    FreeLast(g, order, id, a);
    assert order[..|order|] == order;
    forall n | FreeAfter(g, order + [id], n, w)
      ensures FreeAfter(g, order + [id], n, a)
    {
      FreedNotBefore(g, order, id, w, n);
    }
    FreeEarlier(g, order, id, |order|, a);
    FreedNotBefore(g, order, id, w, |order|);
  }

  lemma FreedTogether(g: Graph, order: seq<StepId>, id: StepId, v: StepId, w: StepId)
    requires FreedBy(g, order, id, v) && FreedBy(g, order, id, w) && IdLess(v, w)
    ensures ServedFirst(g, order + [id], v, w)
  {
    forall n | FreeAfter(g, order + [id], n, w) ensures FreeAfter(g, order + [id], n, v) {
      FreedNotBefore(g, order, id, v, n);
      FreedNotBefore(g, order, id, w, n);
    }
  }

  lemma QueueGrows(g: Graph, order: seq<StepId>, id: StepId, all: seq<StepId>, freed: seq<StepId>)
    requires InQueueOrder(g, order, all) && forall a :: a in all ==> FreeAfter(g, order, |order|, a)
    requires Ascending(freed, IdLess) && forall w :: w in freed ==> FreedBy(g, order, id, w)
    ensures InQueueOrder(g, order + [id], all + freed)
  {
    var more := all + freed;
    forall i, j | 0 <= i < j < |more| ensures ServedFirst(g, order + [id], more[i], more[j]) {
      if j < |all| {
        assert ServedFirst(g, order, all[i], all[j]) && all[i] in all && all[j] in all;
        SoonerPush(g, order, id, all[i], all[j]);
        SoonerPush(g, order, id, all[j], all[i]);
      } else if i < |all| {
        assert all[i] in all && freed[j - |all|] in freed;
        QueuedFirst(g, order, id, all[i], freed[j - |all|]);
      } else {
        assert freed[i - |all|] in freed && freed[j - |all|] in freed;
        FreedTogether(g, order, id, freed[i - |all|], freed[j - |all|]);
      }
    }
  }

  lemma QueueStarts(g: Graph, ready: seq<StepId>)
    requires Ascending(ready, IdLess) && forall w :: w in ready ==> w in g && g[w] == {}
    ensures InQueueOrder(g, [], ready)
  {
    forall i, j | 0 <= i < j < |ready| ensures ServedFirst(g, [], ready[i], ready[j]) {
      assert ready[i] in ready && ready[j] in ready;
    }
  }

  /** Two orders that agree on their first `n` steps free the next ones at the same times. */
  lemma SameNext(g: Graph, a: seq<StepId>, b: seq<StepId>, n: nat)
    requires Ordered(g, a) && Ordered(g, b) && InQueueOrder(g, a, a) && InQueueOrder(g, b, b)
    requires Exhausted(g, a) && Exhausted(g, b)
    requires n < |a| && n <= |b| && a[..n] == b[..n]
    ensures n < |b| && a[n] == b[n]
  {
    var m := Later(g, a, b, n);
    var k := Later(g, b, a, n);
    if m > n && k > n {
      assert ServedFirst(g, b, b[n], b[m]) && ServedFirst(g, a, a[n], a[k]);
      SameTimes(g, a, b, n, b[n], a[n]);
      SameTimes(g, b, a, n, a[n], b[n]);
      IdStrictTotal();
    }
  }

  /** What `a` serves next, `b` serves from there on. */
  lemma Later(g: Graph, a: seq<StepId>, b: seq<StepId>, n: nat) returns (m: nat)
    requires Ordered(g, a) && Exhausted(g, b) && n < |a| && n <= |b| && a[..n] == b[..n]
    ensures n <= m < |b| && b[m] == a[n]
  {
    assert g[a[n]] <= Elements(a[..n]);
    assert forall x :: x in b[..n] ==> x in b;
    assert Elements(b[..n]) <= Elements(b);
    assert a[n] in b;
    m :| 0 <= m < |b| && b[m] == a[n];
    forall i | 0 <= i < n ensures b[i] != a[n] { assert b[i] == b[..n][i] == a[..n][i] == a[i]; }
  }

  lemma SameTimes(g: Graph, a: seq<StepId>, b: seq<StepId>, n: nat, x: StepId, y: StepId)
    requires n <= |a| && n <= |b| && a[..n] == b[..n]
    requires FreeAfter(g, a, n, x) && FreeAfter(g, a, n, y) && SoonerFree(g, b, x, y)
    ensures SoonerFree(g, a, x, y)
  {
    forall k | FreeAfter(g, a, k, y) ensures FreeAfter(g, a, k, x) {
      if k <= n {
        assert a[..k] == a[..n][..k] == b[..n][..k] == b[..k];
        assert FreeAfter(g, b, k, y);
      } else {
        assert forall z :: z in a[..n] ==> z in a[..k] by { assert a[..n] == a[..k][..n]; }
      }
    }
  }

  /** Where the two agree so far, they agree once more. */
  ghost predicate AgreeNext(a: seq<StepId>, b: seq<StepId>, n: nat) {
    n < |a| && n <= |b| && a[..n] == b[..n] ==> n < |b| && a[n] == b[n]
  }

  lemma {:induction false} AgreeThroughout(a: seq<StepId>, b: seq<StepId>, n: nat)
    requires forall k: nat :: AgreeNext(a, b, k) && AgreeNext(b, a, k)
    requires n <= |a| && n <= |b| && a[..n] == b[..n]
    ensures a == b
    decreases |a| - n
  {
    assert AgreeNext(a, b, n) && AgreeNext(b, a, n);
    if n < |a| {
      assert a[..n + 1] == a[..n] + [a[n]] && b[..n + 1] == b[..n] + [b[n]];
      AgreeThroughout(a, b, n + 1);
    } else {
      assert a[..n] == a && b[..n] == b;
    }
  }

  /** The order is determined: the graph has only one in which nothing is forgotten and the queue is kept. */
  lemma OrderIsUnique(g: Graph, a: seq<StepId>, b: seq<StepId>)
    requires Ordered(g, a) && Ordered(g, b) && InQueueOrder(g, a, a) && InQueueOrder(g, b, b)
    requires Exhausted(g, a) && Exhausted(g, b)
    ensures a == b
  {
    forall n: nat ensures AgreeNext(a, b, n) && AgreeNext(b, a, n) {
      if n < |a| && n <= |b| && a[..n] == b[..n] { SameNext(g, a, b, n); }
      if n < |b| && n <= |a| && b[..n] == a[..n] { SameNext(g, b, a, n); }
    }
    AgreeThroughout(a, b, 0);
  }

  // ---- The algorithm -----------------------------------------------------------------

  /** `indegree` counts, for each step, its dependencies not yet ordered. */
  ghost predicate Counts(g: Graph, indegree: map<StepId, int>, done: set<StepId>) {
    indegree.Keys == g.Keys && forall id :: id in g ==> indegree[id] == |g[id] - done|
  }

  /** Ordered or queued are exactly the steps whose dependencies are all ordered. */
  ghost predicate Frontier(g: Graph, ordered: seq<StepId>, ready: seq<StepId>) {
    && NoDuplicates(ordered + ready)
    && forall id :: id in ordered + ready <==> id in g && g[id] <= Elements(ordered)
  }

  /** The steps depending directly on `d`. */
  function Waiting(g: Graph, d: StepId): set<StepId> {
    set id | id in g && d in g[id]
  }

  /** Who waits for whom, once the steps outside `todo` have been entered. */
  ghost predicate ReversesBut(g: Graph, reverse: map<StepId, set<StepId>>, todo: set<StepId>) {
    reverse.Keys == g.Keys && forall d :: d in g ==> reverse[d] == Waiting(g, d) - todo
  }

  function AddWaiter(g: Graph, reverse: map<StepId, set<StepId>>, id: StepId): map<StepId, set<StepId>>
    requires id in g
  {
    map d | d in reverse :: if d in g[id] then reverse[d] + {id} else reverse[d]
  }

  lemma WaiterAdded(g: Graph, reverse: map<StepId, set<StepId>>, todo: set<StepId>, id: StepId)
    requires ReversesBut(g, reverse, todo) && id in todo && id in g
    ensures ReversesBut(g, AddWaiter(g, reverse, id), todo - {id})
  {
    forall d | d in g ensures AddWaiter(g, reverse, id)[d] == Waiting(g, d) - (todo - {id}) {
      assert id in Waiting(g, d) <==> d in g[id];
    }
  }

  method CountDependencies(g: Graph) returns (indegree: map<StepId, int>, reverse: map<StepId, set<StepId>>)
    ensures Counts(g, indegree, {})
    ensures ReversesBut(g, reverse, {})
  {
    indegree := map id | id in g :: |g[id]|;
    reverse := map d | d in g :: {};
    var todo := g.Keys;
    while todo != {}
      invariant todo <= g.Keys && ReversesBut(g, reverse, todo)
      decreases todo
    {
      var id :| id in todo;
      WaiterAdded(g, reverse, todo, id);
      reverse := AddWaiter(g, reverse, id);
      todo := todo - {id};
    }
    assert forall id :: id in g ==> g[id] - {} == g[id];
  }

  lemma OneLess(deps: set<StepId>, done: set<StepId>, id: StepId)
    requires id !in done
    ensures |deps - (done + {id})| == if id in deps then |deps - done| - 1 else |deps - done|
  {
    if id in deps {
      assert deps - done == (deps - (done + {id})) + {id};
    } else {
      assert deps - (done + {id}) == deps - done;
    }
  }

  lemma NoneLeft(deps: set<StepId>, done: set<StepId>)
    ensures |deps - done| == 0 <==> deps <= done
  {
    if deps - done == {} {
      assert forall d :: d in deps ==> d !in deps - done;
    } else {
      var d :| d in deps - done;
    }
  }

  lemma AscendingPush(freed: seq<StepId>, waiting: seq<StepId>, k: nat)
    requires k < |waiting| && Ascending(waiting, IdLess) && Ascending(freed, IdLess)
    requires forall w :: w in freed ==> w in waiting[..k]
    ensures Ascending(freed + [waiting[k]], IdLess)
  {
    forall i | 0 <= i < |freed| ensures IdLess(freed[i], waiting[k]) {
      assert freed[i] in freed;
      var j :| 0 <= j < k && waiting[j] == freed[i];
    }
  }

  /** The first `k` of the waiting steps have lost a dependency. */
  ghost predicate CountedDown(g: Graph, done: set<StepId>, waiting: seq<StepId>, k: int, indegree: map<StepId, int>)
    requires 0 <= k <= |waiting|
  {
    && indegree.Keys == g.Keys
    && forall w :: w in g ==> indegree[w] == if w in waiting[..k] then |g[w] - done| - 1 else |g[w] - done|
  }

  /** Those of them that lost their last one. */
  ghost predicate FreedSoFar(g: Graph, done: set<StepId>, waiting: seq<StepId>, k: int, freed: seq<StepId>)
    requires 0 <= k <= |waiting|
  {
    && NoDuplicates(freed) && Ascending(freed, IdLess)
    && forall w :: w in freed <==> w in g && w in waiting[..k] && |g[w] - done| == 1
  }

  lemma NotBefore(waiting: seq<StepId>, k: nat)
    requires k < |waiting| && NoDuplicates(waiting)
    ensures waiting[k] !in waiting[..k] && waiting[..k + 1] == waiting[..k] + [waiting[k]]
  {
  }

  lemma CountDown(g: Graph, done: set<StepId>, waiting: seq<StepId>, k: nat, indegree: map<StepId, int>)
    requires k < |waiting| && NoDuplicates(waiting) && waiting[k] in g && CountedDown(g, done, waiting, k, indegree)
    ensures CountedDown(g, done, waiting, k + 1, indegree[waiting[k] := indegree[waiting[k]] - 1])
    ensures indegree[waiting[k]] == |g[waiting[k]] - done|
  {
    NotBefore(waiting, k);
  }

  lemma FreeNext(g: Graph, done: set<StepId>, waiting: seq<StepId>, k: nat, freed: seq<StepId>)
    requires k < |waiting| && NoDuplicates(waiting) && Ascending(waiting, IdLess) && waiting[k] in g
    requires FreedSoFar(g, done, waiting, k, freed)
    ensures FreedSoFar(g, done, waiting, k + 1, if |g[waiting[k]] - done| == 1 then freed + [waiting[k]] else freed)
  {
    NotBefore(waiting, k);
    AscendingPush(freed, waiting, k);
  }

  /** One removal from the queue: the steps waiting for `id` lose one dependency each. */
  method Release(g: Graph, ghost done: set<StepId>, id: StepId, waiting: seq<StepId>, before: map<StepId, int>)
    returns (indegree: map<StepId, int>, freed: seq<StepId>)
    requires id in g && id !in done && Counts(g, before, done)
    requires NoDuplicates(waiting) && Ascending(waiting, IdLess) && forall w :: w in waiting <==> w in Waiting(g, id)
    ensures Counts(g, indegree, done + {id})
    ensures NoDuplicates(freed) && Ascending(freed, IdLess)
    ensures forall w :: w in freed <==> w in g && id in g[w] && g[w] <= done + {id}
  {
    indegree, freed := before, [];
    for k := 0 to |waiting|
      invariant CountedDown(g, done, waiting, k, indegree) && FreedSoFar(g, done, waiting, k, freed)
    {
      var w := waiting[k];
      assert w in waiting;
      CountDown(g, done, waiting, k, indegree);
      FreeNext(g, done, waiting, k, freed);
      indegree := indegree[w := indegree[w] - 1];
      if indegree[w] == 0 { freed := freed + [w]; }
    }
    assert waiting[..|waiting|] == waiting;
    Released(g, done, id, waiting, indegree);
    forall w | w in g && id in g[w] ensures g[w] <= done + {id} <==> |g[w] - done| == 1 { LastMissing(g[w], done, id); }
  }

  /** With all its dependents counted down, `id` is done. */
  lemma Released(g: Graph, done: set<StepId>, id: StepId, waiting: seq<StepId>, indegree: map<StepId, int>)
    requires id in g && id !in done && (forall w :: w in waiting <==> w in Waiting(g, id)) && indegree.Keys == g.Keys
    requires forall w :: w in g ==> indegree[w] == if w in waiting then |g[w] - done| - 1 else |g[w] - done|
    ensures Counts(g, indegree, done + {id})
  {
    forall w | w in g ensures indegree[w] == |g[w] - (done + {id})| { OneLess(g[w], done, id); }
  }

  lemma LastMissing(deps: set<StepId>, done: set<StepId>, id: StepId)
    requires id !in done && id in deps
    ensures deps <= done + {id} <==> |deps - done| == 1
  {
    OneLess(deps, done, id);
    NoneLeft(deps, done + {id});
  }

  lemma QueueHeadIsNew(ordered: seq<StepId>, ready: seq<StepId>)
    requires ready != [] && NoDuplicates(ordered + ready)
    ensures ready[0] !in ordered && NoDuplicates(ready)
  {
    var all := ordered + ready;
    assert forall k :: 0 <= k < |ordered| ==> all[k] == ordered[k];
    assert forall k :: 0 <= k < |ready| ==> all[|ordered| + k] == ready[k];
    assert all[|ordered|] == ready[0];
  }

  lemma FrontierAdvances(g: Graph, ordered: seq<StepId>, ready: seq<StepId>, freed: seq<StepId>)
    requires ready != [] && Frontier(g, ordered, ready)
    requires NoDuplicates(freed)
    requires forall w :: w in freed <==> w in g && ready[0] in g[w] && g[w] <= Elements(ordered) + {ready[0]}
    ensures Frontier(g, ordered + [ready[0]], ready[1..] + freed)
  {
    var id := ready[0];
    var all := ordered + ready;
    assert (ordered + [id]) + (ready[1..] + freed) == all + freed;
    QueueHeadIsNew(ordered, ready);
    ElementsPush(ordered, id);
    forall w | w in freed ensures w !in all {
      assert id in g[w] && id !in Elements(ordered);
    }
    assert NoDuplicates(all + freed) by {
      assert forall i, j :: 0 <= i < |all| && 0 <= j < |freed| ==> all[i] in all && freed[j] in freed;
    }
  }

  lemma OrderedPush(g: Graph, ordered: seq<StepId>, id: StepId)
    requires Ordered(g, ordered) && id in g && id !in ordered && g[id] <= Elements(ordered)
    ensures Ordered(g, ordered + [id])
  {
    var now := ordered + [id];
    assert forall k :: 0 <= k < |ordered| ==> now[..k] == ordered[..k];
    assert now[..|ordered|] == ordered;
  }

  lemma FreeAtStart(g: Graph, indegree: map<StepId, int>, ready: seq<StepId>)
    requires Counts(g, indegree, Elements([])) && NoDuplicates(ready)
    requires forall id :: id in ready <==> id in g && indegree[id] == 0
    ensures Frontier(g, [], ready)
  {
    assert [] + ready == ready;
    forall id | id in g ensures id in ready <==> g[id] <= Elements([]) {
      NoneLeft(g[id], Elements([]));
    }
  }

  lemma StartInOrder(g: Graph, ready: seq<StepId>)
    requires Frontier(g, [], ready) && Ascending(ready, IdLess)
    ensures InQueueOrder(g, [], [] + ready)
  {
    assert [] + ready == ready;
    forall w | w in ready ensures w in g && g[w] == {} {
      assert w in [] + ready;
      assert g[w] <= Elements([]);
    }
    QueueStarts(g, ready);
  }

  ghost predicate KahnState(g: Graph, ordered: seq<StepId>, ready: seq<StepId>, indegree: map<StepId, int>) {
    && Counts(g, indegree, Elements(ordered)) && Frontier(g, ordered, ready) && Ordered(g, ordered)
    && InQueueOrder(g, ordered, ordered + ready)
  }

  lemma HeadIsFree(g: Graph, ordered: seq<StepId>, ready: seq<StepId>)
    requires ready != [] && Frontier(g, ordered, ready)
    ensures ready[0] in g && g[ready[0]] <= Elements(ordered)
    ensures ready[0] !in ordered && ready[0] !in Elements(ordered)
  {
    assert ready[0] in ordered + ready;
    QueueHeadIsNew(ordered, ready);
  }

  lemma StateAdvances(g: Graph, ordered: seq<StepId>, ready: seq<StepId>, freed: seq<StepId>,
                      indegree: map<StepId, int>)
    requires ready != [] && Frontier(g, ordered, ready) && Ordered(g, ordered)
    requires NoDuplicates(freed) && Ascending(freed, IdLess) && InQueueOrder(g, ordered, ordered + ready)
    requires forall w :: w in freed <==> w in g && ready[0] in g[w] && g[w] <= Elements(ordered) + {ready[0]}
    requires Counts(g, indegree, Elements(ordered) + {ready[0]})
    ensures KahnState(g, ordered + [ready[0]], ready[1..] + freed, indegree)
  {
    HeadIsFree(g, ordered, ready);
    FrontierAdvances(g, ordered, ready, freed);
    OrderedPush(g, ordered, ready[0]);
    ElementsPush(ordered, ready[0]);
    QueueAdvances(g, ordered, ready, freed);
  }

  lemma QueueAdvances(g: Graph, ordered: seq<StepId>, ready: seq<StepId>, freed: seq<StepId>)
    requires ready != [] && Frontier(g, ordered, ready) && InQueueOrder(g, ordered, ordered + ready)
    requires ready[0] !in Elements(ordered) && Ascending(freed, IdLess)
    requires forall w :: w in freed <==> w in g && ready[0] in g[w] && g[w] <= Elements(ordered) + {ready[0]}
    ensures InQueueOrder(g, ordered + [ready[0]], (ordered + [ready[0]]) + (ready[1..] + freed))
  {
    assert (ordered + [ready[0]]) + (ready[1..] + freed) == (ordered + ready) + freed;
    assert ordered[..|ordered|] == ordered;
    QueueGrows(g, ordered, ready[0], ordered + ready, freed);
  }

  /** One turn of the loop: the queue's head is ordered and its dependents released in id order. */
  method OrderNext(g: Graph, reverse: map<StepId, set<StepId>>, ordered: seq<StepId>, ready: seq<StepId>,
                   indegree: map<StepId, int>)
    returns (ordered': seq<StepId>, ready': seq<StepId>, indegree': map<StepId, int>)
    requires ready != [] && KahnState(g, ordered, ready, indegree) && ReversesBut(g, reverse, {})
    ensures KahnState(g, ordered', ready', indegree')
    ensures ordered' == ordered + [ready[0]] && ready[0] in g && ready[0] !in ordered
  {
    var id := ready[0];
    HeadIsFree(g, ordered, ready);
    var freed;
    SortedIdsAscend(reverse[id]);
    indegree', freed := Release(g, Elements(ordered), id, SortedIds(reverse[id]), indegree);
    StateAdvances(g, ordered, ready, freed, indegree');
    ordered', ready' := ordered + [id], ready[1..] + freed;
  }

  /** Kahn's loop over a queue of free steps. */
  method Kahn(g: Graph) returns (ordered: seq<StepId>)
    ensures Ordered(g, ordered)
    ensures Exhausted(g, ordered)
    ensures InQueueOrder(g, ordered, ordered)
  {
    var indegree, reverse := CountDependencies(g);
    var ready := SortedIds(set id | id in g && indegree[id] == 0);
    ordered := [];
    assert Elements([]) == {};
    FreeAtStart(g, indegree, ready);
    SortedIdsAscend(set id | id in g && indegree[id] == 0);
    StartInOrder(g, ready);
    while ready != []
      invariant KahnState(g, ordered, ready, indegree)
      decreases g.Keys - Elements(ordered)
    {
      ElementsPush(ordered, ready[0]);
      ordered, ready, indegree := OrderNext(g, reverse, ordered, ready, indegree);
    }
    assert ordered + [] == ordered;
  }
}
