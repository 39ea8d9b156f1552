/** The order in which a breadth-first search meets paths: by length, then cell by cell. */
module PathOrder {
  import opened CityMap
  import opened Roads

  /** The place of `q` among the neighbours of `p`. */
  function Heading(p: Point, q: Point): nat {
    if q.x < p.x then 0 else if q.x > p.x then 1 else if q.y < p.y then 2 else 3
  }

  lemma HeadingIsIndex(p: Point, k: nat)
    requires k < |p.Neighbors4()|
    ensures Heading(p, p.Neighbors4()[k]) == k
  {
  }

  lemma HeadingsDiffer(p: Point, q: Point, r: Point)
    requires Adjacent(p, q) && Adjacent(p, r) && q != r
    ensures Heading(p, q) != Heading(p, r)
  {
  }

  /** Of two paths of one length: the first difference is a smaller start or an earlier neighbour. */
  predicate Before(p: seq<Point>, q: seq<Point>)
    requires |p| == |q|
  {
    var n := |p| - 1;
    if n < 0 then false
    else if n == 0 then PointLess(p[0], q[0])
    else Before(p[..n], q[..n]) || (p[..n] == q[..n] && Heading(p[n - 1], p[n]) < Heading(q[n - 1], q[n]))
  }

  predicate NotAfter(p: seq<Point>, q: seq<Point>)
    requires |p| == |q|
  {
    p == q || Before(p, q)
  }

  /** Shorter, or of the same length and before. */
  predicate Earlier(p: seq<Point>, q: seq<Point>) {
    |p| < |q| || (|p| == |q| && Before(p, q))
  }

  lemma {:induction false} BeforeTransitive(p: seq<Point>, q: seq<Point>, r: seq<Point>)
    requires |p| == |q| == |r| && Before(p, q) && Before(q, r)
    ensures Before(p, r)
    decreases |p|
  {
    var n := |p| - 1;
    if n > 0 && Before(p[..n], q[..n]) && Before(q[..n], r[..n]) { BeforeTransitive(p[..n], q[..n], r[..n]); }
  }

  lemma NotAfterTransitive(p: seq<Point>, q: seq<Point>, r: seq<Point>)
    requires |p| == |q| == |r| && NotAfter(p, q) && NotAfter(q, r)
    ensures NotAfter(p, r)
  {
    if Before(p, q) && Before(q, r) { BeforeTransitive(p, q, r); }
  }

  lemma {:induction false} BeforeIrreflexive(p: seq<Point>)
    ensures !Before(p, p)
    decreases |p|
  {
    if |p| > 1 { BeforeIrreflexive(p[..|p| - 1]); }
  }

  lemma PathFront(cells: set<Point>, p: seq<Point>)
    requires Path(cells, p) && |p| > 1
    ensures Path(cells, p[..|p| - 1]) && Adjacent(p[|p| - 2], p[|p| - 1])
  {
    var front := p[..|p| - 1];
    forall i | 0 <= i < |front| - 1 ensures Hop(front, i) { assert Hop(p, i); }
    assert Hop(p, |p| - 2);
  }

  /** Two different paths of one length come one before the other. */
  lemma {:induction false} BeforeTotal(cells: set<Point>, p: seq<Point>, q: seq<Point>)
    requires |p| == |q| && Path(cells, p) && Path(cells, q) && p != q
    ensures Before(p, q) || Before(q, p)
    decreases |p|
  {
    var n := |p| - 1;
    if n > 0 {
      PathFront(cells, p);
      PathFront(cells, q);
      if p[..n] != q[..n] {
        BeforeTotal(cells, p[..n], q[..n]);
      } else {
        assert p == p[..n] + [p[n]] && q == q[..n] + [q[n]];
        assert p[n - 1] == p[..n][n - 1] == q[..n][n - 1] == q[n - 1];
        HeadingsDiffer(p[n - 1], p[n], q[n]);
      }
    }
  }

  /** No two paths are each earlier than the other. */
  lemma EarlierIsStrict(p: seq<Point>, q: seq<Point>)
    ensures !(Earlier(p, q) && Earlier(q, p))
  {
    if |p| == |q| && Before(p, q) && Before(q, p) {
      BeforeTransitive(p, q, p);
      BeforeIrreflexive(p);
    }
  }

  /** One more cell keeps the order of paths that differ, and orders the extensions of one path. */
  lemma BeforeOn(p: seq<Point>, q: seq<Point>, v: Point, w: Point)
    requires |p| == |q| > 0
    requires Before(p, q) || (p == q && Heading(p[|p| - 1], v) < Heading(p[|p| - 1], w))
    ensures Before(p + [v], q + [w])
  {
    var n := |p|;
    assert (p + [v])[..n] == p && (q + [w])[..n] == q;
  }

  // ---- The order told from the first difference --------------------------------------

  /** From `r`, cell `a` is looked at before `b`: left, right, up, down. */
  ghost predicate LookedAtFirst(r: Point, a: Point, b: Point) {
    || (a.x < r.x && b.x >= r.x)
    || (a.x > r.x && b.x == r.x)
    || (a.x == r.x && b.x == r.x && a.y < r.y && b.y >= r.y)
  }

  /** The paths agree up to cell `k`, where `p` has the further left or upper start, or the earlier neighbour. */
  ghost predicate FirstDifference(p: seq<Point>, q: seq<Point>, k: int) {
    && 0 <= k < |p| && k < |q| && p[..k] == q[..k]
    && if k == 0 then p[0].x < q[0].x || (p[0].x == q[0].x && p[0].y < q[0].y)
       else LookedAtFirst(p[k - 1], p[k], q[k])
  }

  ghost predicate Precedes(p: seq<Point>, q: seq<Point>) {
    exists k :: FirstDifference(p, q, k)
  }

  lemma DifferenceInFront(p: seq<Point>, q: seq<Point>, k: nat)
    requires |p| == |q| && k + 1 < |p|
    ensures FirstDifference(p, q, k) <==> FirstDifference(p[..|p| - 1], q[..|q| - 1], k)
  {
    var n := |p| - 1;
    assert p[..n][..k] == p[..k] && q[..n][..k] == q[..k];
  }

  lemma {:induction false} BeforeExactly(p: seq<Point>, q: seq<Point>)
    requires |p| == |q|
    ensures Before(p, q) <==> Precedes(p, q)
    decreases |p|
  {
    var n := |p| - 1;
    if n == 0 {
      assert FirstDifference(p, q, 0) <==> PointLess(p[0], q[0]);
    } else if n > 0 {
      BeforeExactly(p[..n], q[..n]);
      if Precedes(p, q) {
        var k :| FirstDifference(p, q, k);
        if k < n { DifferenceInFront(p, q, k); }
      }
      if Precedes(p[..n], q[..n]) {
        var k :| FirstDifference(p[..n], q[..n], k);
        DifferenceInFront(p, q, k);
      }
      LastDifference(p, q);
    }
  }

  lemma LastDifference(p: seq<Point>, q: seq<Point>)
    requires |p| == |q| > 1
    ensures var n := |p| - 1;
      FirstDifference(p, q, n) <==> p[..n] == q[..n] && Heading(p[n - 1], p[n]) < Heading(q[n - 1], q[n])
  {
    var n := |p| - 1;
    if p[..n] == q[..n] { assert p[n - 1] == p[..n][n - 1] == q[..n][n - 1] == q[n - 1]; }
  }
}
