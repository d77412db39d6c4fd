/** Breadth-first layouts of a tree in an array.

    A layout is given by one number per node: `f[j]` is the index of the first child of node j,
    or the index where it would be if node j has none. The children of j are [f[j], Next(f, j)). */
module Layouts {

  ghost predicate Valid(f: seq<nat>) {
    && |f| > 0 && f[0] == 1
    && (forall j :: 0 <= j < |f| ==> j < f[j] <= |f|)
    && (forall j, k :: 0 <= j <= k < |f| ==> f[j] <= f[k])
  }

  function Next(f: seq<nat>, j: nat): nat
    requires j < |f|
  {
    if j + 1 < |f| then f[j + 1] else |f|
  }

  predicate IsKid(f: seq<nat>, j: nat, c: nat)
    requires j < |f|
  {
    f[j] <= c < Next(f, j)
  }

  /** Search downwards from `j` for the node whose children include `c`. */
  ghost function ParentFrom(f: seq<nat>, c: nat, j: nat): (p: nat)
    requires Valid(f) && 1 <= c < |f| && j < c && Next(f, j) > c
    ensures p <= j && IsKid(f, p, c)
    decreases j
  {
    if f[j] <= c then j else ParentFrom(f, c, j - 1)
  }

  ghost function Parent(f: seq<nat>, c: nat): (p: nat)
    requires Valid(f) && 1 <= c < |f|
    ensures p < c && IsKid(f, p, c)
  {
    ParentFrom(f, c, c - 1)
  }

  lemma ParentUnique(f: seq<nat>, j: nat, c: nat)
    requires Valid(f) && j < |f| && IsKid(f, j, c)
    ensures 1 <= c < |f| && j < c && Parent(f, c) == j
  {
    var p := Parent(f, c);
  }

  /** Parents are laid out in the order of their children. */
  lemma ParentMonotone(f: seq<nat>, c: nat, d: nat)
    requires Valid(f) && 1 <= c <= d < |f|
    ensures Parent(f, c) <= Parent(f, d)
  {
    var p, q := Parent(f, c), Parent(f, d);
  }

  /** `a` is `c` or an ancestor of `c`. */
  ghost predicate Ancestor(f: seq<nat>, a: nat, c: nat)
    requires Valid(f) && c < |f|
    decreases c
  {
    a == c || (a < c && Ancestor(f, a, Parent(f, c)))
  }

  lemma {:induction false} RootIsAncestor(f: seq<nat>, c: nat)
    requires Valid(f) && c < |f|
    ensures Ancestor(f, 0, c)
    decreases c
  {
    if c > 0 {
      RootIsAncestor(f, Parent(f, c));
    }
  }

  /** A proper ancestor reaches its descendant through one of its children. */
  lemma {:induction false} ChildTowards(f: seq<nat>, a: nat, c: nat) returns (k: nat)
    requires Valid(f) && a < c < |f| && Ancestor(f, a, c)
    ensures IsKid(f, a, k) && k <= c && Ancestor(f, k, c)
    decreases c
  {
    var p := Parent(f, c);
    if p == a {
      k := c;
    } else {
      k := ChildTowards(f, a, p);
    }
  }

  // ---- levels ----

  datatype Level = Level(start: nat, length: nat)

  /** The levels cut [0, n) into non-empty runs, the first holding the root alone. */
  ghost predicate Cut(levels: seq<Level>, n: nat) {
    && |levels| > 0 && levels[0] == Level(0, 1)
    && (forall l :: 0 <= l < |levels| ==> CutAt(levels, l, n))
    && LevelEnd(levels, |levels| - 1) == n
  }

  ghost predicate CutAt(levels: seq<Level>, l: nat, n: nat) {
    && l < |levels| && levels[l].length > 0 && LevelEnd(levels, l) <= n
    && (l > 0 ==> levels[l].start == LevelEnd(levels, l - 1))
  }

  /** The children of a level's first node start where the level ends. */
  ghost predicate LevelsOk(f: seq<nat>, levels: seq<Level>) {
    && Cut(levels, |f|)
    && (forall l :: 0 <= l < |levels| ==> ChildrenAfter(f, levels, l))
  }

  ghost predicate ChildrenAfter(f: seq<nat>, levels: seq<Level>, l: nat) {
    l < |levels| && levels[l].start < |f| && f[levels[l].start] == LevelEnd(levels, l)
  }

  function LevelEnd(levels: seq<Level>, l: nat): nat
    requires l < |levels|
  {
    levels[l].start + levels[l].length
  }

  predicate InLevel(levels: seq<Level>, l: nat, i: nat)
    requires l < |levels|
  {
    levels[l].start <= i < LevelEnd(levels, l)
  }

  /** Every node is in some level. */
  lemma {:induction false} LevelOf(levels: seq<Level>, n: nat, i: nat, m: nat) returns (l: nat)
    requires Cut(levels, n) && m < |levels| && i < LevelEnd(levels, m)
    ensures l <= m && InLevel(levels, l, i)
    decreases m
  {
    assert CutAt(levels, m, n);
    if levels[m].start <= i {
      l := m;
    } else {
      l := LevelOf(levels, n, i, m - 1);
    }
  }

  lemma {:induction false} LevelsAscend(levels: seq<Level>, n: nat, l: nat, m: nat)
    requires Cut(levels, n) && l < m < |levels|
    ensures LevelEnd(levels, l) <= levels[m].start
    decreases m
  {
    assert CutAt(levels, m, n) && CutAt(levels, m - 1, n);
    if l < m - 1 {
      LevelsAscend(levels, n, l, m - 1);
    }
  }

  /** The levels partition the array, and a node below the root has its parent one level up. */
  lemma LevelsPartition(f: seq<nat>, levels: seq<Level>, i: nat)
    requires Valid(f) && LevelsOk(f, levels) && i < |f|
    ensures exists l :: 0 <= l < |levels| && InLevel(levels, l, i)
    ensures forall l, m :: 0 <= l < |levels| && 0 <= m < |levels| && InLevel(levels, l, i) && InLevel(levels, m, i) ==>
      l == m
    ensures forall l :: 0 < l < |levels| && InLevel(levels, l, i) ==> i > 0 && InLevel(levels, l - 1, Parent(f, i))
    ensures InLevel(levels, 0, i) <==> i == 0
  {
    var l0 := LevelOf(levels, |f|, i, |levels| - 1);
    forall l, m | 0 <= l < m < |levels| ensures !(InLevel(levels, l, i) && InLevel(levels, m, i)) {
      LevelsAscend(levels, |f|, l, m);
    }
    forall l | 0 < l < |levels| && InLevel(levels, l, i) ensures i > 0 && InLevel(levels, l - 1, Parent(f, i)) {
      LevelsAscend(levels, |f|, 0, l);
      var p := Parent(f, i);
      assert ChildrenAfter(f, levels, l - 1) && ChildrenAfter(f, levels, l) && CutAt(levels, l, |f|) &&
        CutAt(levels, l - 1, |f|);
    }
  }

  // ---- the partition principle ----

  /** At every node: what the node covers is what it owns itself plus what its children cover,
      and these parts do not overlap at point `p`. */
  ghost predicate Splits<P>(f: seq<nat>, inside: (nat, P) -> bool, own: (nat, P) -> bool, p: P) {
    forall i :: 0 <= i < |f| ==> SplitsAt(f, inside, own, p, i)
  }

  ghost predicate SplitsAt<P>(f: seq<nat>, inside: (nat, P) -> bool, own: (nat, P) -> bool, p: P, i: nat)
    requires i < |f|
  {
    && (own(i, p) ==> inside(i, p))
    && (forall c :: IsKid(f, i, c) && inside(c, p) ==> inside(i, p) && !own(i, p))
    && (forall c, d :: IsKid(f, i, c) && IsKid(f, i, d) && inside(c, p) && inside(d, p) ==> c == d)
    && (inside(i, p) && !own(i, p) ==> exists c :: IsKid(f, i, c) && inside(c, p))
  }

  lemma {:induction false} CoveredByAncestors<P>(f: seq<nat>, inside: (nat, P) -> bool, own: (nat, P) -> bool, p: P,
      a: nat, c: nat)
    requires Valid(f) && Splits(f, inside, own, p) && c < |f| && Ancestor(f, a, c) && inside(c, p)
    ensures inside(a, p)
    decreases c
  {
    if a != c {
      assert SplitsAt(f, inside, own, p, Parent(f, c));
      CoveredByAncestors(f, inside, own, p, a, Parent(f, c));
    }
  }

  /** Two nodes that both cover a point lie on one path from the root. */
  lemma {:induction false} CoversAreNested<P>(f: seq<nat>, inside: (nat, P) -> bool, own: (nat, P) -> bool, p: P,
      i: nat, j: nat)
    requires Valid(f) && Splits(f, inside, own, p) && i < j < |f|
    requires inside(i, p) && inside(j, p)
    ensures Ancestor(f, i, j)
    decreases i + j
  {
    var q := Parent(f, j);
    assert SplitsAt(f, inside, own, p, q);
    if i < q {
      CoversAreNested(f, inside, own, p, i, q);
    } else if q < i {
      CoversAreNested(f, inside, own, p, q, i);
      // the child of q towards i lies left of j, so i is itself a child of q, like j
      var k := ChildTowards(f, q, i);
    }
  }

  lemma {:induction false} OwnerBelow<P>(f: seq<nat>, inside: (nat, P) -> bool, own: (nat, P) -> bool, p: P, i: nat)
      returns (o: nat)
    requires Valid(f) && Splits(f, inside, own, p) && i < |f| && inside(i, p)
    ensures o < |f| && own(o, p)
    decreases |f| - i
  {
    if own(i, p) {
      o := i;
    } else {
      assert SplitsAt(f, inside, own, p, i);
      var c :| IsKid(f, i, c) && inside(c, p);
      o := OwnerBelow(f, inside, own, p, c);
    }
  }

  /** If every node's cover splits into its own part and its children's covers, then the root's
      cover splits into the own parts of all nodes: each point in it has exactly one owner. */
  lemma Partition<P>(f: seq<nat>, inside: (nat, P) -> bool, own: (nat, P) -> bool, p: P)
    requires Valid(f) && Splits(f, inside, own, p)
    ensures inside(0, p) <==> exists i :: 0 <= i < |f| && own(i, p)
    ensures forall i, j :: 0 <= i < |f| && 0 <= j < |f| && own(i, p) && own(j, p) ==> i == j
  {
    if inside(0, p) {
      var o := OwnerBelow(f, inside, own, p, 0);
    }
    forall i | 0 <= i < |f| && own(i, p) ensures inside(0, p) {
      assert SplitsAt(f, inside, own, p, i);
      RootIsAncestor(f, i);
      CoveredByAncestors(f, inside, own, p, 0, i);
    }
    forall i, j | 0 <= i < j < |f| && own(i, p) && own(j, p) ensures false {
      assert SplitsAt(f, inside, own, p, i) && SplitsAt(f, inside, own, p, j);
      CoversAreNested(f, inside, own, p, i, j);
      var k := ChildTowards(f, i, j);
      CoveredByAncestors(f, inside, own, p, k, j);
    }
  }
}
