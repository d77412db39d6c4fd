/** What the treemap promises: totals are sums over leaves, areas are shares, rectangles tile. */
module Tiling {
  import opened Layouts
  import opened LevelLaunch
  import opened Kernels
  import opened PassEffects
  import opened Intervals
  import opened Treemap
  import Passes

  lemma ParentOf(t: Topology, f: seq<nat>, i: nat)
    requires TreemapOk(t, f) && 1 < i < |f|
    ensures 0 < Parent(f, i) < i && Inner(t.cls[Parent(f, i)])
  {
    assert ClassOk(t, f, Parent(f, i));
  }

  /** No child has more than its parent. */
  lemma ShareOfParent(s: Rects, t: Topology, f: seq<nat>, i: nat, c: nat)
    requires RectsOk(s, t, f) && i < |f| && IsKid(f, i, c)
    ensures 0.0 <= s.mag[c] <= s.mag[i]
  {
    assert RectAt(s, t, f, i) && ClassOk(t, f, i);
    forall x | 0 <= x < |f| ensures s.mag[x] >= 0.0 { assert RectAt(s, t, f, x); }
    SumMonotone(s.mag, f[i], c, Next(f, i));
    SumMonotone(s.mag, f[i], c + 1, Next(f, i));
  }

  /** Which nodes have a rectangle: the root's child, and the children of nodes with a positive total. */
  lemma {:induction false} DrawnIff(s: Rects, t: Topology, f: seq<nat>, i: nat)
    requires RectsOk(s, t, f) && 0 < i < |f|
    ensures s.drawn[i] <==> i == 1 || s.mag[Parent(f, i)] > 0.0
    decreases i
  {
    if i > 1 {
      var p := Parent(f, i);
      ParentOf(t, f, i);
      assert RectAt(s, t, f, p);
      DrawnIff(s, t, f, p);
      if p > 1 { ShareOfParent(s, t, f, Parent(f, p), p); }
    }
  }

  lemma ShareNonNegative(mag: real, total: real, extent: real)
    requires 0.0 <= mag <= total && total > 0.0 && extent >= 0.0
    ensures mag / total * extent >= 0.0
    ensures mag == 0.0 ==> mag / total * extent == 0.0
  {
    var share := mag / total;
    assert share >= 0.0 && (mag == 0.0 ==> share == 0.0);
  }

  lemma {:induction false} ExtentsNonNegative(s: Rects, t: Topology, f: seq<nat>, i: nat)
    requires RectsOk(s, t, f) && 0 < i < |f| && s.drawn[i]
    ensures s.w[i] >= 0.0 && s.h[i] >= 0.0
    ensures s.mag[i] == 0.0 ==> s.w[i] == 0.0 || s.h[i] == 0.0
    decreases i
  {
    if i > 1 {
      var p := Parent(f, i);
      ParentOf(t, f, i);
      assert RectAt(s, t, f, p) && Sliced(s, f, Horizontal(t.cls[p]), p, i);
      ExtentsNonNegative(s, t, f, p);
      ShareOfParent(s, t, f, p, i);
      ShareNonNegative(s.mag[i], s.mag[p], s.w[p]);
      ShareNonNegative(s.mag[i], s.mag[p], s.h[p]);
    }
  }

  lemma ShareOfArea(mag: real, total: real, area: real, all: real, whole: real)
    requires total > 0.0 && area * all == total * whole
    ensures mag / total * area * all == mag * whole
  {
    var share := mag / total;
    assert share * total == mag;
    calc {
      share * area * all;
      share * (area * all);
      share * (total * whole);
      (share * total) * whole;
      mag * whole;
    }
  }

  /** Every drawn node's area is its share of the total magnitude times the area of the root's child. */
  lemma {:induction false} AreaIsShare(s: Rects, t: Topology, f: seq<nat>, i: nat)
    requires RectsOk(s, t, f) && 0 < i < |f| && s.drawn[i]
    ensures s.w[i] * s.h[i] * s.mag[1] == s.mag[i] * (s.w[1] * s.h[1])
    decreases i
  {
    if i > 1 {
      var p := Parent(f, i);
      ParentOf(t, f, i);
      assert RectAt(s, t, f, p) && Sliced(s, f, Horizontal(t.cls[p]), p, i);
      AreaIsShare(s, t, f, p);
      var share := s.mag[i] / s.mag[p];
      assert s.w[i] * s.h[i] == share * (s.w[p] * s.h[p]) by {
        if Horizontal(t.cls[p]) {
          assert share * s.w[p] * s.h[p] == share * (s.w[p] * s.h[p]);
        } else {
          assert s.w[p] * (share * s.h[p]) == share * (s.w[p] * s.h[p]);
        }
      }
      ShareOfArea(s.mag[i], s.mag[p], s.w[p] * s.h[p], s.mag[1], s.w[1] * s.h[1]);
    }
  }

  // ---- rectangles tile ----

  /** The point (q.0, q.1) lies in the rectangle of node `i`; the root stands for its child. */
  predicate InRect(s: Rects, i: nat, q: (real, real)) {
    var j := if i == 0 then 1 else i;
    && j < |s.drawn| && j < |s.x| && j < |s.y| && j < |s.w| && j < |s.h| && s.drawn[j]
    && s.x[j] <= q.0 < s.x[j] + s.w[j] && s.y[j] <= q.1 < s.y[j] + s.h[j]
  }

  ghost predicate IsShare(s: seq<real>, mag: seq<real>, total: real, extent: real, c: nat)
    requires total > 0.0 && |mag| == |s|
  {
    c < |s| && s[c] == mag[c] / total * extent
  }

  lemma {:induction false} SharesAddUp(s: seq<real>, mag: seq<real>, total: real, extent: real, lo: nat, hi: nat)
    requires lo <= hi <= |s| && |mag| == |s| && total > 0.0
    requires forall c :: lo <= c < hi ==> IsShare(s, mag, total, extent, c)
    ensures Sum(s, lo, hi) == Sum(mag, lo, hi) / total * extent
  {
    if lo < hi {
      SharesAddUp(s, mag, total, extent, lo, hi - 1);
      assert IsShare(s, mag, total, extent, hi - 1);
      AddShares(Sum(mag, lo, hi - 1), mag[hi - 1], total, extent);
    }
  }

  lemma AddShares(a: real, b: real, total: real, extent: real)
    requires total > 0.0
    ensures a / total * extent + b / total * extent == (a + b) / total * extent
  {
    var p, q := a / total, b / total;
    assert (a + b) / total == p + q;
    assert (p + q) * extent == p * extent + q * extent;
  }

  /** The extents of the children along the cut add up to their parent's. */
  lemma CutAddsUp(s: Rects, t: Topology, f: seq<nat>, i: nat)
    requires RectsOk(s, t, f) && 0 < i < |f| && Inner(t.cls[i]) && s.drawn[i] && s.mag[i] > 0.0
    ensures Horizontal(t.cls[i]) ==> Sum(s.w, f[i], Next(f, i)) == s.w[i]
    ensures !Horizontal(t.cls[i]) ==> Sum(s.h, f[i], Next(f, i)) == s.h[i]
  {
    assert RectAt(s, t, f, i) && ClassOk(t, f, i);
    forall c | f[i] <= c < Next(f, i) ensures Sliced(s, f, Horizontal(t.cls[i]), i, c) {}
    if Horizontal(t.cls[i]) { ColumnsAddUp(s, f, i); } else { RowsAddUp(s, f, i); }
  }

  lemma ColumnsAddUp(s: Rects, f: seq<nat>, i: nat)
    requires Valid(f) && RectsSized(s, |f|) && i < |f| && s.mag[i] > 0.0
    requires Sum(s.mag, f[i], Next(f, i)) == s.mag[i]
    requires forall c :: f[i] <= c < Next(f, i) ==> Sliced(s, f, true, i, c)
    ensures Sum(s.w, f[i], Next(f, i)) == s.w[i]
  {
    forall c | f[i] <= c < Next(f, i) ensures IsShare(s.w, s.mag, s.mag[i], s.w[i], c) {
      assert Sliced(s, f, true, i, c);
    }
    SharesAddUp(s.w, s.mag, s.mag[i], s.w[i], f[i], Next(f, i));
    Whole(s.mag[i], s.w[i]);
  }

  lemma RowsAddUp(s: Rects, f: seq<nat>, i: nat)
    requires Valid(f) && RectsSized(s, |f|) && i < |f| && s.mag[i] > 0.0
    requires Sum(s.mag, f[i], Next(f, i)) == s.mag[i]
    requires forall c :: f[i] <= c < Next(f, i) ==> Sliced(s, f, false, i, c)
    ensures Sum(s.h, f[i], Next(f, i)) == s.h[i]
  {
    forall c | f[i] <= c < Next(f, i) ensures IsShare(s.h, s.mag, s.mag[i], s.h[i], c) {
      assert Sliced(s, f, false, i, c);
    }
    SharesAddUp(s.h, s.mag, s.mag[i], s.h[i], f[i], Next(f, i));
    Whole(s.mag[i], s.h[i]);
  }

  lemma Whole(total: real, extent: real)
    requires total > 0.0
    ensures total / total * extent == extent
  {
    assert total / total == 1.0;
  }

  lemma KidsNonNegative(s: Rects, t: Topology, f: seq<nat>, i: nat)
    requires RectsOk(s, t, f) && 0 < i < |f| && Inner(t.cls[i]) && s.drawn[i] && s.mag[i] > 0.0
    ensures forall c :: f[i] <= c < Next(f, i) ==> s.w[c] >= 0.0 && s.h[c] >= 0.0
  {
    assert RectAt(s, t, f, i);
    forall c | f[i] <= c < Next(f, i) ensures s.w[c] >= 0.0 && s.h[c] >= 0.0 {
      ExtentsNonNegative(s, t, f, c);
    }
  }

  /** A point in a child's rectangle, along the cut and across it. */
  lemma InKid(s: Rects, t: Topology, f: seq<nat>, i: nat, c: nat, q: (real, real))
    requires RectsOk(s, t, f) && 0 < i < |f| && Inner(t.cls[i]) && s.drawn[i] && s.mag[i] > 0.0 && IsKid(f, i, c)
    ensures Horizontal(t.cls[i]) ==> (InRect(s, c, q) <==>
      InInterval(s.w, s.x[i], f[i], c, q.0) && s.y[i] <= q.1 < s.y[i] + s.h[i])
    ensures !Horizontal(t.cls[i]) ==> (InRect(s, c, q) <==>
      InInterval(s.h, s.y[i], f[i], c, q.1) && s.x[i] <= q.0 < s.x[i] + s.w[i])
  {
    assert RectAt(s, t, f, i) && Sliced(s, f, Horizontal(t.cls[i]), i, c);
  }

  /** The children of a drawn node with a positive total tile its rectangle. */
  lemma ChildrenTile(s: Rects, t: Topology, f: seq<nat>, i: nat, q: (real, real))
    requires RectsOk(s, t, f) && 0 < i < |f| && Inner(t.cls[i]) && s.drawn[i] && s.mag[i] > 0.0
    ensures InRect(s, i, q) <==> exists c :: IsKid(f, i, c) && InRect(s, c, q)
    ensures forall c, d :: IsKid(f, i, c) && IsKid(f, i, d) && InRect(s, c, q) && InRect(s, d, q) ==> c == d
  {
    var lo, hi := f[i], Next(f, i);
    CutAddsUp(s, t, f, i);
    KidsNonNegative(s, t, f, i);
    forall c: nat, d: nat | IsKid(f, i, c) && IsKid(f, i, d) && InRect(s, c, q)
      ensures InRect(s, i, q) && (InRect(s, d, q) ==> c == d)
    {
      InKid(s, t, f, i, c, q);
      InKid(s, t, f, i, d, q);
      if Horizontal(t.cls[i]) {
        HoldsWithin(s.w, s.x[i], lo, hi, c, d, q.0);
      } else {
        HoldsWithin(s.h, s.y[i], lo, hi, c, d, q.1);
      }
    }
    if InRect(s, i, q) {
      var c;
      if Horizontal(t.cls[i]) {
        c := Holding(s.w, s.x[i], lo, hi, q.0);
      } else {
        c := Holding(s.h, s.y[i], lo, hi, q.1);
      }
      InKid(s, t, f, i, c, q);
      assert IsKid(f, i, c) && InRect(s, c, q);
    }
  }

  ghost predicate InLeaf(s: Rects, t: Topology, i: nat, q: (real, real)) {
    i < |t.cls| && t.cls[i] == POLLINGPLACE && InRect(s, i, q)
  }

  ghost function Inside(s: Rects): (nat, (real, real)) -> bool {
    (i: nat, q: (real, real)) => InRect(s, i, q)
  }

  ghost function Own(s: Rects, t: Topology): (nat, (real, real)) -> bool {
    (i: nat, q: (real, real)) => InLeaf(s, t, i, q)
  }

  lemma RectsSplit(s: Rects, t: Topology, f: seq<nat>, i: nat, q: (real, real))
    requires RectsOk(s, t, f) && i < |f|
    ensures SplitsAt(f, Inside(s), Own(s, t), q, i)
  {
    assert ClassOk(t, f, i) && RectAt(s, t, f, i);
    if i == 0 {
      assert InRect(s, 0, q) ==> IsKid(f, 0, 1) && Inside(s)(1, q);
    } else if Inner(t.cls[i]) {
      if s.drawn[i] && s.mag[i] > 0.0 {
        ChildrenTile(s, t, f, i, q);
        if InRect(s, i, q) {
          var c :| IsKid(f, i, c) && InRect(s, c, q);
          assert Inside(s)(c, q);
        }
      } else {
        if s.drawn[i] { ExtentsNonNegative(s, t, f, i); }
        assert !InRect(s, i, q);
      }
    }
  }

  /** The rectangles of the polling places tile the rectangle of the root's child. */
  lemma LeavesTile(s: Rects, t: Topology, f: seq<nat>, q: (real, real))
    requires RectsOk(s, t, f)
    ensures InRect(s, 1, q) <==> exists i :: 0 <= i < |f| && InLeaf(s, t, i, q)
    ensures forall i, j :: 0 <= i < |f| && 0 <= j < |f| && InLeaf(s, t, i, q) && InLeaf(s, t, j, q) ==> i == j
  {
    forall i | 0 <= i < |f| ensures SplitsAt(f, Inside(s), Own(s, t), q, i) {
      RectsSplit(s, t, f, i, q);
    }
    Partition(f, Inside(s), Own(s, t), q);
    assert Inside(s)(0, q) <==> InRect(s, 1, q);
    assert forall i :: 0 <= i < |f| ==> Own(s, t)(i, q) == InLeaf(s, t, i, q);
  }

  // ---- totals are sums over the leaves below ----

  /** Polling place `j` is `i` or lies below it. */
  ghost predicate LeafBelow(t: Topology, f: seq<nat>, i: nat, j: nat)
    requires Valid(f) && |t.cls| == |f| && j < |f|
  {
    t.cls[j] == POLLINGPLACE && Ancestor(f, i, j)
  }

  /** The magnitudes of the polling places below `i` among the first `k` nodes. */
  ghost function LeafSum(t: Topology, f: seq<nat>, mag: seq<real>, i: nat, k: nat): real
    requires Valid(f) && |t.cls| == |f| == |mag| && k <= |f|
  {
    if k == 0 then 0.0 else LeafSum(t, f, mag, i, k - 1) + if LeafBelow(t, f, i, k - 1) then mag[k - 1] else 0.0
  }

  ghost function LeafSums(t: Topology, f: seq<nat>, mag: seq<real>, k: nat): (r: seq<real>)
    requires Valid(f) && |t.cls| == |f| == |mag| && k <= |f|
    ensures |r| == |f| && forall i :: 0 <= i < |f| ==> r[i] == LeafSum(t, f, mag, i, k)
  {
    seq(|f|, i requires 0 <= i < |f| => LeafSum(t, f, mag, i, k))
  }

  lemma {:induction false} AncestorAtMost(f: seq<nat>, a: nat, c: nat)
    requires Valid(f) && c < |f| && Ancestor(f, a, c)
    ensures a <= c
    decreases c
  {
  }

  lemma {:induction false} AncestorTrans(f: seq<nat>, a: nat, b: nat, c: nat)
    requires Valid(f) && b < |f| && c < |f| && Ancestor(f, a, b) && Ancestor(f, b, c)
    ensures Ancestor(f, a, c)
    decreases c
  {
    AncestorAtMost(f, a, b);
    if b != c {
      AncestorTrans(f, a, b, Parent(f, c));
    }
  }

  /** Two ancestors of a node are one above the other. */
  lemma {:induction false} AncestorsNested(f: seq<nat>, a: nat, b: nat, c: nat)
    requires Valid(f) && a <= b && c < |f| && Ancestor(f, a, c) && Ancestor(f, b, c)
    ensures b < |f| && Ancestor(f, a, b)
    decreases c
  {
    if b != c {
      AncestorsNested(f, a, b, Parent(f, c));
    }
  }

  /** A node below `i` is below exactly one child of `i`. */
  lemma OneChildAbove(f: seq<nat>, i: nat, c: nat, d: nat, j: nat)
    requires Valid(f) && i < |f| && j < |f| && IsKid(f, i, c) && IsKid(f, i, d) && Ancestor(f, c, j)
    ensures Ancestor(f, i, j) && i != j
    ensures Ancestor(f, d, j) ==> c == d
  {
    ParentUnique(f, i, c);
    ParentUnique(f, i, d);
    AncestorAtMost(f, c, j);
    AncestorTrans(f, i, c, j);
    if Ancestor(f, d, j) && c != d {
      var a, b := if c < d then c else d, if c < d then d else c;
      AncestorsNested(f, a, b, j);
      AncestorAtMost(f, a, i);
    }
  }

  lemma {:induction false} SumPlus(a: seq<real>, b: seq<real>, c: seq<real>, lo: nat, hi: nat)
    requires lo <= hi <= |a| && |b| == |a| && |c| == |a| && forall x :: lo <= x < hi ==> c[x] == a[x] + b[x]
    ensures Sum(c, lo, hi) == Sum(a, lo, hi) + Sum(b, lo, hi)
  {
    if lo < hi {
      SumPlus(a, b, c, lo, hi - 1);
    }
  }

  lemma {:induction false} SumOfOne(a: seq<real>, lo: nat, hi: nat, k: nat)
    requires lo <= hi <= |a| && forall x :: lo <= x < hi && x != k ==> a[x] == 0.0
    ensures Sum(a, lo, hi) == if lo <= k < hi then a[k] else 0.0
  {
    if lo < hi {
      SumOfOne(a, lo, hi - 1, k);
    }
  }

  /** What polling place `j` adds to the sum of each node. */
  ghost function Terms(t: Topology, f: seq<nat>, mag: seq<real>, j: nat): (r: seq<real>)
    requires Valid(f) && |t.cls| == |f| == |mag| && j < |f|
    ensures |r| == |f| && forall i :: 0 <= i < |f| ==> r[i] == if LeafBelow(t, f, i, j) then mag[j] else 0.0
  {
    seq(|f|, i requires 0 <= i < |f| => if LeafBelow(t, f, i, j) then mag[j] else 0.0)
  }

  /** It adds as much to a node above it as to that node's children together. */
  lemma TermsSplit(t: Topology, f: seq<nat>, mag: seq<real>, i: nat, j: nat)
    requires TreemapOk(t, f) && |mag| == |f| && i < |f| && j < |f| && t.cls[i] != POLLINGPLACE
    ensures Sum(Terms(t, f, mag, j), f[i], Next(f, i)) == Terms(t, f, mag, j)[i]
  {
    var a, lo, hi := Terms(t, f, mag, j), f[i], Next(f, i);
    if LeafBelow(t, f, i, j) {
      AncestorAtMost(f, i, j);
      var k := ChildTowards(f, i, j);
      forall x | lo <= x < hi && x != k ensures a[x] == 0.0 {
        OneChildAbove(f, i, k, x, j);
      }
      SumOfOne(a, lo, hi, k);
    } else {
      forall x | lo <= x < hi ensures a[x] == 0.0 {
        if LeafBelow(t, f, x, j) { OneChildAbove(f, i, x, x, j); }
      }
      SumOfOne(a, lo, hi, hi);
    }
  }

  lemma {:induction false} LeafSumSplits(t: Topology, f: seq<nat>, mag: seq<real>, i: nat, k: nat)
    requires TreemapOk(t, f) && |mag| == |f| && i < |f| && k <= |f| && t.cls[i] != POLLINGPLACE
    ensures LeafSum(t, f, mag, i, k) == Sum(LeafSums(t, f, mag, k), f[i], Next(f, i))
    decreases k
  {
    if k == 0 {
      SumOfOne(LeafSums(t, f, mag, 0), f[i], Next(f, i), Next(f, i));
    } else {
      LeafSumSplits(t, f, mag, i, k - 1);
      TermsSplit(t, f, mag, i, k - 1);
      SumPlus(LeafSums(t, f, mag, k - 1), Terms(t, f, mag, k - 1), LeafSums(t, f, mag, k), f[i], Next(f, i));
    }
  }

  lemma {:induction false} LeafSumOfLeaf(t: Topology, f: seq<nat>, mag: seq<real>, i: nat, k: nat)
    requires TreemapOk(t, f) && |mag| == |f| && i < |f| && k <= |f| && t.cls[i] == POLLINGPLACE
    ensures LeafSum(t, f, mag, i, k) == if i < k then mag[i] else 0.0
    decreases k
  {
    if k > 0 {
      LeafSumOfLeaf(t, f, mag, i, k - 1);
      assert ClassOk(t, f, i);
      if Ancestor(f, i, k - 1) && i != k - 1 {
        AncestorAtMost(f, i, k - 1);
        var c := ChildTowards(f, i, k - 1);
      }
    }
  }

  lemma {:induction false} SumSame(a: seq<real>, b: seq<real>, lo: nat, hi: nat)
    requires lo <= hi <= |a| && |b| == |a| && forall x :: lo <= x < hi ==> a[x] == b[x]
    ensures Sum(a, lo, hi) == Sum(b, lo, hi)
  {
    if lo < hi {
      SumSame(a, b, lo, hi - 1);
    }
  }

  /** Every node's total is the sum of the magnitudes of the polling places below it. */
  lemma {:induction false} TotalIsLeafSum(s: Rects, t: Topology, f: seq<nat>, i: nat)
    requires RectsOk(s, t, f) && i < |f|
    ensures s.mag[i] == LeafSum(t, f, s.mag, i, |f|)
    decreases |f| - i
  {
    assert RectAt(s, t, f, i);
    if t.cls[i] == POLLINGPLACE {
      LeafSumOfLeaf(t, f, s.mag, i, |f|);
    } else {
      forall c | f[i] <= c < Next(f, i) ensures s.mag[c] == LeafSums(t, f, s.mag, |f|)[c] {
        TotalIsLeafSum(s, t, f, c);
      }
      SumSame(s.mag, LeafSums(t, f, s.mag, |f|), f[i], Next(f, i));
      LeafSumSplits(t, f, s.mag, i, |f|);
    }
  }

  // ---- in the buffers ----

  /** The point lies in the rectangle the buffers hold for node `i`. */
  ghost predicate Shows(m: Memory, n: nat, i: nat, q: (real, real))
    requires Shaped(m, FIELDS, n)
  {
    && i < n && Drawn(m, n, i)
    && At(m, Cell(X, i)).v <= q.0 < At(m, Cell(X, i)).v + At(m, Cell(W, i)).v
    && At(m, Cell(Y, i)).v <= q.1 < At(m, Cell(Y, i)).v + At(m, Cell(H, i)).v
  }

  lemma LayoutIsRects(m: Memory, t: Topology, f: seq<nat>, levels: seq<Level>)
    requires TreemapOk(t, f) && Ready(m, t, f) && LevelsOk(f, levels)
    ensures RectsOk(RectsOf(Layout(m, t, f, levels), |f|), t, f)
    ensures forall i :: 0 <= i < |f| ==> NonNegative(At(Layout(m, t, f, levels), Cell(MAG, i)))
  {
    var r := Layout(m, t, f, levels);
    forall i | 0 <= i < |f| ensures LaidOutAt(r, t, f, i) {
      LaidOut(m, t, f, levels, i);
    }
    BuffersAreRects(r, t, f);
    MagnitudesAreNumbers(r, t, f, 0);
    forall i | 0 <= i < |f| ensures NonNegative(At(r, Cell(MAG, i))) {
      assert At(r, Cell(MAG, i)) == r[MAG][i];
    }
  }

  lemma ShowsIsInRect(r: Memory, n: nat, i: nat, q: (real, real))
    requires Shaped(r, FIELDS, n) && 0 < i < n
    ensures Shows(r, n, i, q) <==> InRect(RectsOf(r, n), i, q)
  {
  }

  /** Each node's total is that of the polling places below it, whose magnitudes are as they were. */
  lemma TotalsAreLeafSums(m: Memory, t: Topology, f: seq<nat>, levels: seq<Level>, i: nat)
    requires TreemapOk(t, f) && Ready(m, t, f) && LevelsOk(f, levels) && i < |f|
    ensures var r, n := Layout(m, t, f, levels), |f|;
      && At(r, Cell(MAG, i)) == Num(LeafSum(t, f, Values(r, n, MAG), i, n))
      && (t.cls[i] == POLLINGPLACE ==> At(r, Cell(MAG, i)) == At(m, Cell(MAG, i)))
  {
    var m1, r, n := AfterPass(Pass1, m, t, f, levels), Layout(m, t, f, levels), |f|;
    LayoutIsRects(m, t, f, levels);
    TotalIsLeafSum(RectsOf(r, n), t, f, i);
    Kept1(m, t, f, levels, i);
    Kept2(m1, t, f, levels, i);
  }

  /** area : area of the root's child == total : total of the root's child */
  ghost predicate AreaShared(m: Memory, n: nat, i: nat)
    requires Shaped(m, FIELDS, n) && 0 < i < n
  {
    Value(m, n, W, i) * Value(m, n, H, i) * Value(m, n, MAG, 1) ==
      Value(m, n, MAG, i) * (Value(m, n, W, 1) * Value(m, n, H, 1))
  }

  /** A node has a rectangle exactly if it is the root's child or its parent's total is positive (otherwise
      its share is 0 / 0), and its area is then its share of the area of the root's child. */
  lemma AreasAreShares(m: Memory, t: Topology, f: seq<nat>, levels: seq<Level>, i: nat)
    requires TreemapOk(t, f) && Ready(m, t, f) && LevelsOk(f, levels) && 0 < i < |f|
    ensures var r, n := Layout(m, t, f, levels), |f|;
      && (Drawn(r, n, i) <==> i == 1 || Value(r, n, MAG, Parent(f, i)) > 0.0)
      && (Drawn(r, n, i) ==> AreaShared(r, n, i))
  {
    LayoutIsRects(m, t, f, levels);
    SharesIn(Layout(m, t, f, levels), t, f, i);
  }

  lemma SharesIn(r: Memory, t: Topology, f: seq<nat>, i: nat)
    requires TreemapOk(t, f) && Shaped(r, FIELDS, |f|) && RectsOk(RectsOf(r, |f|), t, f) && 0 < i < |f|
    ensures Drawn(r, |f|, i) <==> i == 1 || Value(r, |f|, MAG, Parent(f, i)) > 0.0
    ensures Drawn(r, |f|, i) ==> AreaShared(r, |f|, i)
  {
    var s := RectsOf(r, |f|);
    DrawnIff(s, t, f, i);
    if s.drawn[i] { AreaIsShare(s, t, f, i); }
  }

  /** The children of a node tile its rectangle, if it has one and its total is positive. */
  lemma ChildrenTileTheirParent(m: Memory, t: Topology, f: seq<nat>, levels: seq<Level>, i: nat, q: (real, real))
    requires TreemapOk(t, f) && Ready(m, t, f) && LevelsOk(f, levels) && 0 < i < |f| && Inner(t.cls[i])
    ensures var r, n := Layout(m, t, f, levels), |f|;
      Drawn(r, n, i) && Value(r, n, MAG, i) > 0.0 ==>
        && (Shows(r, n, i, q) <==> exists c :: IsKid(f, i, c) && Shows(r, n, c, q))
        && (forall c, d :: IsKid(f, i, c) && IsKid(f, i, d) && Shows(r, n, c, q) && Shows(r, n, d, q) ==> c == d)
  {
    var r, n := Layout(m, t, f, levels), |f|;
    LayoutIsRects(m, t, f, levels);
    if Drawn(r, n, i) && Value(r, n, MAG, i) > 0.0 {
      ChildrenTileIn(r, t, f, i, q);
    }
  }

  lemma ChildrenTileIn(r: Memory, t: Topology, f: seq<nat>, i: nat, q: (real, real))
    requires TreemapOk(t, f) && Shaped(r, FIELDS, |f|) && RectsOk(RectsOf(r, |f|), t, f) && 0 < i < |f| &&
      Inner(t.cls[i])
    requires Drawn(r, |f|, i) && Value(r, |f|, MAG, i) > 0.0
    ensures Shows(r, |f|, i, q) <==> exists c :: IsKid(f, i, c) && Shows(r, |f|, c, q)
    ensures forall c, d :: IsKid(f, i, c) && IsKid(f, i, d) && Shows(r, |f|, c, q) && Shows(r, |f|, d, q) ==> c == d
  {
    var s := RectsOf(r, |f|);
    ChildrenTile(s, t, f, i, q);
    ShowsIsInRect(r, |f|, i, q);
    forall c: nat | IsKid(f, i, c) ensures Shows(r, |f|, c, q) <==> InRect(s, c, q) {
      ShowsIsInRect(r, |f|, c, q);
    }
  }

  /** Child `c` has the height of node `i`, its share of the width, and the earlier children to its left. */
  ghost predicate SideBySide(r: Memory, n: nat, f: seq<nat>, i: nat, c: nat)
    requires Shaped(r, FIELDS, n) && i < n && c < n && i < |f| && f[i] <= c && Value(r, n, MAG, i) > 0.0
  {
    && Value(r, n, Y, c) == Value(r, n, Y, i) && Value(r, n, H, c) == Value(r, n, H, i)
    && Value(r, n, X, c) == Value(r, n, X, i) + Sum(Values(r, n, W), f[i], c)
    && Value(r, n, W, c) == Value(r, n, MAG, c) / Value(r, n, MAG, i) * Value(r, n, W, i)
  }

  /** It has the width, its share of the height, and the earlier children above it. */
  ghost predicate Stacked(r: Memory, n: nat, f: seq<nat>, i: nat, c: nat)
    requires Shaped(r, FIELDS, n) && i < n && c < n && i < |f| && f[i] <= c && Value(r, n, MAG, i) > 0.0
  {
    && Value(r, n, X, c) == Value(r, n, X, i) && Value(r, n, W, c) == Value(r, n, W, i)
    && Value(r, n, Y, c) == Value(r, n, Y, i) + Sum(Values(r, n, H), f[i], c)
    && Value(r, n, H, c) == Value(r, n, MAG, c) / Value(r, n, MAG, i) * Value(r, n, H, i)
  }

  /** How the children of a node with a rectangle and a positive total stand: side by side in districts,
      hsquares and country containers, on top of each other in regions and vsquares. */
  lemma ChildrenStand(m: Memory, t: Topology, f: seq<nat>, levels: seq<Level>, i: nat, c: nat)
    requires TreemapOk(t, f) && Ready(m, t, f) && LevelsOk(f, levels)
    requires 0 < i < |f| && IsKid(f, i, c) && c < |f|
    requires Drawn(Layout(m, t, f, levels), |f|, i) && Value(Layout(m, t, f, levels), |f|, MAG, i) > 0.0
    ensures var r, n, cls := Layout(m, t, f, levels), |f|, t.cls[i];
      && Drawn(r, n, c)
      && (cls == DISTRICT || cls == HSQUARE || cls == COUNTRYCONTAINER ==> SideBySide(r, n, f, i, c))
      && (cls == REGION || cls == VSQUARE ==> Stacked(r, n, f, i, c))
      && (cls == DISTRICT || cls == HSQUARE || cls == COUNTRYCONTAINER || cls == REGION || cls == VSQUARE)
  {
    LayoutIsRects(m, t, f, levels);
    StandsIn(Layout(m, t, f, levels), t, f, i, c);
  }

  lemma StandsIn(r: Memory, t: Topology, f: seq<nat>, i: nat, c: nat)
    requires TreemapOk(t, f) && Shaped(r, FIELDS, |f|) && RectsOk(RectsOf(r, |f|), t, f)
    requires 0 < i < |f| && IsKid(f, i, c) && c < |f| && Drawn(r, |f|, i) && Value(r, |f|, MAG, i) > 0.0
    ensures var n, cls := |f|, t.cls[i];
      && Drawn(r, n, c)
      && (cls == DISTRICT || cls == HSQUARE || cls == COUNTRYCONTAINER ==> SideBySide(r, n, f, i, c))
      && (cls == REGION || cls == VSQUARE ==> Stacked(r, n, f, i, c))
      && (cls == DISTRICT || cls == HSQUARE || cls == COUNTRYCONTAINER || cls == REGION || cls == VSQUARE)
  {
    var s := RectsOf(r, |f|);
    assert ClassOk(t, f, i) && RectAt(s, t, f, i);
    assert s.drawn[i] && s.mag[i] > 0.0;
    assert s.drawn[c] && Sliced(s, f, Horizontal(t.cls[i]), i, c);
  }

  /** The rectangle of the root's child, from the root's inputs and the total: the height, and the width unless
      it is fixed, shrink with the total; the right and bottom edges are those given. */
  lemma RootChildStands(m: Memory, t: Topology, f: seq<nat>, levels: seq<Level>)
    requires TreemapOk(t, f) && Ready(m, t, f) && LevelsOk(f, levels)
    ensures var r, n := Layout(m, t, f, levels), |f|;
      var scale := Value(r, n, MAG, 1) / 63895164.0;
      && Drawn(r, n, 1) && At(r, Cell(MAG, 0)) == At(r, Cell(MAG, 1))
      && Value(r, n, H, 1) == Value(m, n, HEIGHT, 0) * scale
      && Value(r, n, W, 1) == Value(m, n, WIDTH, 0) * (if At(m, Cell(FIXWIDTH, 0)) != Num(0.0) then 1.0 else scale)
      && Value(r, n, X, 1) == Value(m, n, RX, 1) - Value(r, n, W, 1)
      && Value(r, n, Y, 1) == Value(m, n, BY, 1) - Value(r, n, H, 1)
  {
    var m1, r, n := AfterPass(Pass1, m, t, f, levels), Layout(m, t, f, levels), |f|;
    LaidOut(m, t, f, levels, 0);
    LaidOut(m, t, f, levels, 1);
    assert RootEq(r, n) && CornerEq(r, n, 1);
    Kept1(m, t, f, levels, 0);
    Kept2(m1, t, f, levels, 0);
    Kept1(m, t, f, levels, 1);
    Kept2(m1, t, f, levels, 1);
    RootChildNumbers(m, t, f, levels);
  }

  lemma RootChildNumbers(m: Memory, t: Topology, f: seq<nat>, levels: seq<Level>)
    requires TreemapOk(t, f) && Ready(m, t, f) && LevelsOk(f, levels)
    ensures Drawn(Layout(m, t, f, levels), |f|, 1) && At(Layout(m, t, f, levels), Cell(MAG, 1)).Num?
  {
    LayoutIsRects(m, t, f, levels);
    var s := RectsOf(Layout(m, t, f, levels), |f|);
    assert s.drawn[1] && NonNegative(At(Layout(m, t, f, levels), Cell(MAG, 1)));
  }

  /** The polling places tile the rectangle of the root's child. */
  lemma PollingPlacesTile(m: Memory, t: Topology, f: seq<nat>, levels: seq<Level>, q: (real, real))
    requires TreemapOk(t, f) && Ready(m, t, f) && LevelsOk(f, levels)
    ensures var r, n := Layout(m, t, f, levels), |f|;
      && (Shows(r, n, 1, q) <==> exists i :: 0 <= i < n && ShowsLeaf(r, t, n, i, q))
      && (forall i, j :: 0 <= i < n && 0 <= j < n && ShowsLeaf(r, t, n, i, q) && ShowsLeaf(r, t, n, j, q) ==> i == j)
  {
    LayoutIsRects(m, t, f, levels);
    LeavesTileIn(Layout(m, t, f, levels), t, f, q);
  }

  ghost predicate ShowsLeaf(m: Memory, t: Topology, n: nat, i: nat, q: (real, real))
    requires Shaped(m, FIELDS, n)
  {
    i < |t.cls| && t.cls[i] == POLLINGPLACE && Shows(m, n, i, q)
  }

  lemma LeavesTileIn(r: Memory, t: Topology, f: seq<nat>, q: (real, real))
    requires TreemapOk(t, f) && Shaped(r, FIELDS, |f|) && RectsOk(RectsOf(r, |f|), t, f)
    ensures Shows(r, |f|, 1, q) <==> exists i :: 0 <= i < |f| && ShowsLeaf(r, t, |f|, i, q)
    ensures forall i, j :: 0 <= i < |f| && 0 <= j < |f| && ShowsLeaf(r, t, |f|, i, q) && ShowsLeaf(r, t, |f|, j, q) ==>
      i == j
  {
    var s := RectsOf(r, |f|);
    LeavesTile(s, t, f, q);
    ShowsIsInRect(r, |f|, 1, q);
    forall i | 0 <= i < |f| ensures ShowsLeaf(r, t, |f|, i, q) <==> InLeaf(s, t, i, q) {
      assert ClassOk(t, f, i);
      if i > 0 { ShowsIsInRect(r, |f|, i, q); }
    }
  }

  /** Pass 1 and pass 2 on the CPU. */
  method LayOut(g: Passes.Fields, levels: seq<Level>, ghost f: seq<nat>)
    requires g.Synced() && TreemapOk(g.Links(), f) && LevelsOk(f, levels)
    modifies g`memory, g.buffer
    ensures g.Synced() && g.memory == Layout(old(g.memory), g.Links(), f, levels)
  {
    g.BottomUpTraversal(Pass1, levels, f);
    g.TopDownTraversal(Pass2, levels, f);
  }

  /** The same when both passes run on the GPU, whatever the interleaving. */
  lemma LaunchedLayout(mems1: seq<Memory>, mems2: seq<Memory>, t: Topology, f: seq<nat>, levels: seq<Level>)
    requires TreemapOk(t, f) && LevelsOk(f, levels) && |mems1| > 0 && |mems2| > 0 && Shaped(mems1[0], FIELDS, |f|)
    requires Launches(mems1, KernelOf(Pass1, t, f), Reversed(levels), FIELDS, |f|)
    requires Launches(mems2, KernelOf(Pass2, t, f), levels, FIELDS, |f|) && mems2[0] == mems1[|levels|]
    ensures mems2[|levels|] == Layout(mems1[0], t, f, levels)
  {
    LaunchedPass(Pass1, mems1, t, f, levels);
    LaunchedPass(Pass2, mems2, t, f, levels);
  }
}
