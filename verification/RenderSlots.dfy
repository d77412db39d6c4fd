/** Allocating vertex-buffer slots: pass 3 sums render sizes bottom up, pass 4 hands out offsets top down. */
module RenderSlots {
  import opened Layouts
  import opened LevelLaunch
  import opened Kernels
  import opened PassEffects
  import opened Intervals
  import Passes

  // ---- slots, as numbers ----

  /** A node's size is its own and its children's; its own slot comes first, then the children's in turn. */
  datatype Slots = Slots(own: seq<real>, size: seq<real>, offset: seq<real>)

  ghost predicate SlotsOk(s: Slots, f: seq<nat>) {
    && Valid(f) && |s.own| == |s.size| == |s.offset| == |f| && s.offset[0] == 0.0
    && forall i :: 0 <= i < |f| ==> SlotAt(s, f, i)
  }

  ghost predicate SlotAt(s: Slots, f: seq<nat>, i: nat)
    requires Valid(f) && |s.own| == |s.size| == |s.offset| == |f| && i < |f|
  {
    && s.own[i] >= 0.0 && s.size[i] == Sum(s.size, f[i], Next(f, i)) + s.own[i]
    && forall c :: f[i] <= c < Next(f, i) ==> s.offset[c] == s.offset[i] + s.own[i] + Sum(s.size, f[i], c)
  }

  lemma {:induction false} SizesNonNegative(s: Slots, f: seq<nat>, k: nat)
    requires SlotsOk(s, f) && k <= |f|
    ensures forall i :: k <= i < |f| ==> s.size[i] >= 0.0
    decreases |f| - k
  {
    if k < |f| {
      SizesNonNegative(s, f, k + 1);
      assert SlotAt(s, f, k);
      SumMonotone(s.size, f[k], f[k], Next(f, k));
    }
  }

  /** The slots of a subtree: all of them together, and the node's own. */
  predicate InSubtree(s: Slots, i: nat, p: real) {
    i < |s.offset| && i < |s.size| && s.offset[i] <= p < s.offset[i] + s.size[i]
  }

  predicate InSlot(s: Slots, i: nat, p: real) {
    i < |s.offset| && i < |s.own| && s.offset[i] <= p < s.offset[i] + s.own[i]
  }

  ghost function Inside(s: Slots): (nat, real) -> bool {
    (i: nat, p: real) => InSubtree(s, i, p)
  }

  ghost function Own(s: Slots): (nat, real) -> bool {
    (i: nat, p: real) => InSlot(s, i, p)
  }

  /** A child's slots lie within its parent's, after the parent's own, and apart from a sibling's. */
  lemma ChildWithin(s: Slots, f: seq<nat>, i: nat, c: nat, d: nat, p: real)
    requires SlotsOk(s, f) && i < |f| && IsKid(f, i, c) && IsKid(f, i, d) && InSubtree(s, c, p)
    ensures InSubtree(s, i, p) && !InSlot(s, i, p)
    ensures InSubtree(s, d, p) ==> c == d
  {
    assert SlotAt(s, f, i);
    SizesNonNegative(s, f, 0);
    assert forall x :: IsKid(f, i, x) ==> InSubtree(s, x, p) == InInterval(s.size, s.offset[i] + s.own[i], f[i], x, p);
    HoldsWithin(s.size, s.offset[i] + s.own[i], f[i], Next(f, i), c, d, p);
  }

  lemma SlotsSplit(s: Slots, f: seq<nat>, i: nat, p: real)
    requires SlotsOk(s, f) && i < |f|
    ensures SplitsAt(f, Inside(s), Own(s), p, i)
  {
    assert SlotAt(s, f, i);
    SizesNonNegative(s, f, 0);
    SumMonotone(s.size, f[i], f[i], Next(f, i));
    forall c: nat | IsKid(f, i, c) && InSubtree(s, c, p) ensures InSubtree(s, i, p) && !InSlot(s, i, p) {
      ChildWithin(s, f, i, c, c, p);
    }
    forall c: nat, d: nat | IsKid(f, i, c) && IsKid(f, i, d) && InSubtree(s, c, p) && InSubtree(s, d, p)
      ensures c == d {
      ChildWithin(s, f, i, c, d, p);
    }
    if InSubtree(s, i, p) && !InSlot(s, i, p) {
      var c := Holding(s.size, s.offset[i] + s.own[i], f[i], Next(f, i), p);
      assert IsKid(f, i, c) && Inside(s)(c, p);
    }
  }

  /** The own slots of all nodes tile [0, size of the root): each point of it is in exactly one of them, and
      no other point is in any. */
  lemma SlotsTile(s: Slots, f: seq<nat>, p: real)
    requires SlotsOk(s, f)
    ensures 0.0 <= p < s.size[0] <==> exists i :: 0 <= i < |f| && InSlot(s, i, p)
    ensures forall i, j :: 0 <= i < |f| && 0 <= j < |f| && InSlot(s, i, p) && InSlot(s, j, p) ==> i == j
  {
    forall i | 0 <= i < |f| ensures SplitsAt(f, Inside(s), Own(s), p, i) {
      SlotsSplit(s, f, i, p);
    }
    Partition(f, Inside(s), Own(s), p);
    assert Inside(s)(0, p) <==> 0.0 <= p < s.size[0];
    assert forall i :: 0 <= i < |f| ==> Own(s)(i, p) == InSlot(s, i, p);
  }

  // ---- whole numbers ----

  predicate IsWhole(x: real) {
    x == x.Floor as real
  }

  lemma WholeSum(a: real, b: real)
    requires IsWhole(a) && IsWhole(b)
    ensures IsWhole(a + b)
  {
    assert a + b == (a.Floor + b.Floor) as real;
  }

  lemma {:induction false} SumIsWhole(s: seq<real>, lo: nat, hi: nat)
    requires lo <= hi <= |s| && forall x :: lo <= x < hi ==> IsWhole(s[x])
    ensures IsWhole(Sum(s, lo, hi))
  {
    if lo < hi {
      SumIsWhole(s, lo, hi - 1);
      WholeSum(Sum(s, lo, hi - 1), s[hi - 1]);
    }
  }

  lemma {:induction false} SizesAreWhole(s: Slots, f: seq<nat>, k: nat)
    requires SlotsOk(s, f) && k <= |f| && forall i :: 0 <= i < |f| ==> IsWhole(s.own[i])
    ensures forall i :: k <= i < |f| ==> IsWhole(s.size[i])
    decreases |f| - k
  {
    if k < |f| {
      SizesAreWhole(s, f, k + 1);
      assert SlotAt(s, f, k);
      SumIsWhole(s.size, f[k], Next(f, k));
      WholeSum(Sum(s.size, f[k], Next(f, k)), s.own[k]);
    }
  }

  /** If self sizes are whole numbers, so are all offsets. */
  lemma {:induction false} OffsetsAreWhole(s: Slots, f: seq<nat>, c: nat)
    requires SlotsOk(s, f) && c < |f| && forall i :: 0 <= i < |f| ==> IsWhole(s.own[i])
    ensures IsWhole(s.offset[c])
    decreases c
  {
    if c > 0 {
      var i := Parent(f, c);
      OffsetsAreWhole(s, f, i);
      SizesAreWhole(s, f, 0);
      assert SlotAt(s, f, i);
      SumIsWhole(s.size, f[i], c);
      WholeSum(s.offset[i], s.own[i]);
      WholeSum(s.offset[i] + s.own[i], Sum(s.size, f[i], c));
    }
  }

  // ---- the slots in the buffers ----

  /** Before pass 3: self sizes are non-negative, the root's is zero, and a polling place's size is its own. */
  ghost predicate Ready(m: Memory, t: Topology, f: seq<nat>)
    requires TreemapOk(t, f)
  {
    Shaped(m, FIELDS, |f|) && At(m, Cell(SELF, 0)) == Num(0.0) && forall i :: 0 <= i < |f| ==> ReadyAt(m, t, f, i)
  }

  ghost predicate ReadyAt(m: Memory, t: Topology, f: seq<nat>, i: nat)
    requires TreemapOk(t, f) && Shaped(m, FIELDS, |f|) && i < |f|
  {
    && At(m, Cell(SELF, i)).Num? && At(m, Cell(SELF, i)).v >= 0.0
    && (t.cls[i] == POLLINGPLACE ==> At(m, Cell(SIZE, i)) == At(m, Cell(SELF, i)))
  }

  /** Both passes. */
  ghost function Allocate(m: Memory, t: Topology, f: seq<nat>, levels: seq<Level>): (r: Memory)
    requires TreemapOk(t, f) && Shaped(m, FIELDS, |f|) && LevelsOk(f, levels)
    ensures Shaped(r, FIELDS, |f|)
  {
    AfterPass(Pass4, AfterPass(Pass3, m, t, f, levels), t, f, levels)
  }

  ghost function Value(m: Memory, n: nat, fld: nat, i: nat): real
    requires Shaped(m, FIELDS, n) && fld < FIELDS && i < n
  {
    if At(m, Cell(fld, i)).Num? then At(m, Cell(fld, i)).v else 0.0
  }

  ghost function Values(m: Memory, n: nat, fld: nat): (r: seq<real>)
    requires Shaped(m, FIELDS, n) && fld < FIELDS
    ensures |r| == n && forall i :: 0 <= i < n ==> r[i] == Value(m, n, fld, i)
  {
    seq(n, i requires 0 <= i < n => Value(m, n, fld, i))
  }

  ghost function SlotsOf(m: Memory, n: nat): Slots
    requires Shaped(m, FIELDS, n)
  {
    Slots(Values(m, n, SELF), Values(m, n, SIZE), Values(m, n, OFFSET))
  }

  // what the passes leave untouched

  lemma NeverWritten3(t: Topology, f: seq<nat>, i: nat)
    requires TreemapOk(t, f) && i < |f|
    ensures NeverWrites(Pass3, t, f, Cell(SELF, i))
    ensures t.cls[i] == POLLINGPLACE ==> NeverWrites(Pass3, t, f, Cell(SIZE, i))
  {
    assert ClassOk(t, f, i);
  }

  lemma NeverWritten4(t: Topology, f: seq<nat>, i: nat)
    requires TreemapOk(t, f) && i < |f|
    ensures NeverWrites(Pass4, t, f, Cell(SELF, i)) && NeverWrites(Pass4, t, f, Cell(SIZE, i))
    ensures i == 0 ==> NeverWrites(Pass4, t, f, Cell(OFFSET, i))
    ensures i <= 1 ==> NeverWrites(Pass4, t, f, Cell(RIGHT, i))
  {
    forall j | 0 <= j < |f|
      ensures i == 0 ==> !Writes(Pass4, f, t.cls[j], j, Cell(OFFSET, i))
      ensures i <= 1 ==> !Writes(Pass4, f, t.cls[j], j, Cell(RIGHT, i))
    {
      assert ClassOk(t, f, j);
      if IsKid(f, j, i) { ParentUnique(f, j, i); }
    }
  }

  lemma Kept3(m: Memory, t: Topology, f: seq<nat>, levels: seq<Level>, i: nat)
    requires TreemapOk(t, f) && Shaped(m, FIELDS, |f|) && LevelsOk(f, levels) && i < |f|
    ensures var r := AfterPass(Pass3, m, t, f, levels);
      && At(r, Cell(SELF, i)) == At(m, Cell(SELF, i))
      && (t.cls[i] == POLLINGPLACE ==> At(r, Cell(SIZE, i)) == At(m, Cell(SIZE, i)))
  {
    NeverWritten3(t, f, i);
    PassKeeps(Pass3, m, t, f, levels, Cell(SELF, i));
    if t.cls[i] == POLLINGPLACE {
      PassKeeps(Pass3, m, t, f, levels, Cell(SIZE, i));
    }
  }

  lemma Kept4(m: Memory, t: Topology, f: seq<nat>, levels: seq<Level>, i: nat)
    requires TreemapOk(t, f) && Shaped(m, FIELDS, |f|) && LevelsOk(f, levels) && i < |f|
    ensures var r := AfterPass(Pass4, m, t, f, levels);
      && At(r, Cell(SELF, i)) == At(m, Cell(SELF, i)) && At(r, Cell(SIZE, i)) == At(m, Cell(SIZE, i))
      && (i == 0 ==> At(r, Cell(OFFSET, i)) == At(m, Cell(OFFSET, i)))
      && (i <= 1 ==> At(r, Cell(RIGHT, i)) == At(m, Cell(RIGHT, i)))
  {
    NeverWritten4(t, f, i);
    PassKeeps(Pass4, m, t, f, levels, Cell(SELF, i));
    PassKeeps(Pass4, m, t, f, levels, Cell(SIZE, i));
    if i == 0 { PassKeeps(Pass4, m, t, f, levels, Cell(OFFSET, i)); }
    if i <= 1 { PassKeeps(Pass4, m, t, f, levels, Cell(RIGHT, i)); }
  }

  // ---- what holds of the buffers after both passes ----

  ghost predicate SizeEq(m: Memory, f: seq<nat>, i: nat)
    requires Valid(f) && Shaped(m, FIELDS, |f|) && i < |f|
  {
    At(m, Cell(SIZE, i)) == Add(Total(m[SIZE], f[i], Next(f, i)), At(m, Cell(SELF, i)))
  }

  ghost predicate RightEq(m: Memory, f: seq<nat>, i: nat, c: nat)
    requires Valid(f) && Shaped(m, FIELDS, |f|) && i < |f| && f[i] <= c < |f|
  {
    At(m, Cell(RIGHT, c)) ==
      Add(if c == f[i] then Add(At(m, Cell(OFFSET, i)), At(m, Cell(SELF, i))) else At(m, Cell(RIGHT, c - 1)),
          At(m, Cell(SIZE, c)))
  }

  ghost predicate AllocatedAt(m: Memory, f: seq<nat>, i: nat)
    requires Valid(f) && Shaped(m, FIELDS, |f|) && i < |f|
  {
    && At(m, Cell(SELF, i)).Num? && At(m, Cell(SELF, i)).v >= 0.0
    && SizeEq(m, f, i)
    && At(m, Cell(OFFSET, i)) == Sub(At(m, Cell(RIGHT, i)), At(m, Cell(SIZE, i)))
    && forall c :: f[i] <= c < Next(f, i) ==> RightEq(m, f, i, c)
  }

  lemma HoldsTwo(m: Memory, dst: Cell, a: Cell, b: Cell, op: Op, n: nat)
    requires Holds(m, Instr(dst, [a, b], op), n)
    ensures CellOk(a, FIELDS, n) && CellOk(b, FIELDS, n) && CellOk(dst, FIELDS, n)
    ensures op == Plus ==> At(m, dst) == Add(At(m, a), At(m, b))
    ensures op == Minus ==> At(m, dst) == Sub(At(m, a), At(m, b))
  {
    assert [a, b][0] == a && [a, b][1] == b;
    assert CellOk([a, b][0], FIELDS, n) && CellOk([a, b][1], FIELDS, n);
    assert Load(m, [a, b], FIELDS, n) == [At(m, a), At(m, b)];
  }

  lemma HoldsOne(m: Memory, dst: Cell, a: Cell, n: nat)
    requires Holds(m, Instr(dst, [a], Copy), n)
    ensures CellOk(a, FIELDS, n) && CellOk(dst, FIELDS, n) && At(m, dst) == At(m, a)
  {
    assert CellOk([a][0], FIELDS, n);
    assert Load(m, [a], FIELDS, n) == [At(m, a)];
  }

  lemma RootDone3(m: Memory, f: seq<nat>)
    requires Valid(f) && |f| > 1 && Next(f, 0) == 2 && AllHold(m, Root3(f), |f|)
    ensures Shaped(m, FIELDS, |f|) && SizeEq(m, f, 0)
    ensures At(m, Cell(RIGHT, 0)) == At(m, Cell(SIZE, 0))
    ensures At(m, Cell(OFFSET, 0)) == Sub(At(m, Cell(RIGHT, 0)), At(m, Cell(SIZE, 0)))
    ensures At(m, Cell(RIGHT, 1)) == Add(At(m, Cell(OFFSET, 0)), At(m, Cell(SIZE, 1)))
  {
    var p := Root3(f);
    assert Holds(m, p[0], |f|) && Holds(m, p[1], |f|) && Holds(m, p[3], |f|) && Holds(m, p[4], |f|) &&
      Holds(m, p[5], |f|);
    HoldsOne(m, Cell(SUM, 0), Cell(SIZE, f[0]), |f|);
    HoldsTwo(m, Cell(SIZE, 0), Cell(SUM, 0), Cell(SELF, 0), Plus, |f|);
    HoldsOne(m, Cell(RIGHT, 0), Cell(SIZE, 0), |f|);
    HoldsTwo(m, Cell(OFFSET, 0), Cell(RIGHT, 0), Cell(SIZE, 0), Minus, |f|);
    HoldsTwo(m, Cell(RIGHT, f[0]), Cell(OFFSET, 0), Cell(SIZE, f[0]), Plus, |f|);
    assert Total(m[SIZE], 1, 2) == Add(Total(m[SIZE], 1, 1), m[SIZE][1]);
  }

  /** Pass 3 gives every node its size. */
  lemma Pass3Sizes(m: Memory, t: Topology, f: seq<nat>, levels: seq<Level>, i: nat)
    requires TreemapOk(t, f) && Ready(m, t, f) && LevelsOk(f, levels) && i < |f|
    ensures SizeEq(AfterPass(Pass3, m, t, f, levels), f, i)
  {
    assert ReadyAt(m, t, f, i);
    PassDone(Pass3, m, t, f, levels, i);
    Kept3(m, t, f, levels, i);
    SizeFromDone(m, AfterPass(Pass3, m, t, f, levels), t, f, i);
  }

  lemma SizeFromDone(m: Memory, r: Memory, t: Topology, f: seq<nat>, i: nat)
    requires TreemapOk(t, f) && Shaped(m, FIELDS, |f|) && Shaped(r, FIELDS, |f|) && i < |f|
    requires ReadyAt(m, t, f, i) && Done(Pass3, r, t, f, i)
    requires At(r, Cell(SELF, i)) == At(m, Cell(SELF, i)) &&
      (t.cls[i] == POLLINGPLACE ==> At(r, Cell(SIZE, i)) == At(m, Cell(SIZE, i)))
    ensures SizeEq(r, f, i)
  {
    assert ClassOk(t, f, i);
    if i == 0 {
      RootDone3(r, f);
    } else if t.cls[i] == POLLINGPLACE {
      assert Total(r[SIZE], f[i], Next(f, i)) == Num(0.0);
    } else {
      DoneIsSize(r, t, f, i);
    }
  }

  lemma DoneIsSize(r: Memory, t: Topology, f: seq<nat>, i: nat)
    requires TreemapOk(t, f) && Shaped(r, FIELDS, |f|) && i < |f| && Inner(t.cls[i]) && Done(Pass3, r, t, f, i)
    ensures SizeEq(r, f, i)
  {
  }

  lemma InnerDone4(m: Memory, f: seq<nat>, i: nat)
    requires Valid(f) && i < |f| && Shaped(m, FIELDS, |f|) && AllHold(m, Inner4(f, i), |f|)
    ensures At(m, Cell(OFFSET, i)) == Sub(At(m, Cell(RIGHT, i)), At(m, Cell(SIZE, i)))
    ensures forall c :: f[i] <= c < Next(f, i) ==> RightEq(m, f, i, c)
  {
    var p := Inner4(f, i);
    assert Holds(m, p[0], |f|) && Holds(m, p[1], |f|);
    HoldsTwo(m, Cell(OFFSET, i), Cell(RIGHT, i), Cell(SIZE, i), Minus, |f|);
    HoldsTwo(m, Cell(LAST, i), Cell(OFFSET, i), Cell(SELF, i), Plus, |f|);
    forall c | f[i] <= c < Next(f, i) ensures RightEq(m, f, i, c) {
      assert p[c - f[i] + 2] == Ends(f, i, c, LAST, RIGHT, SIZE);
      HoldsTwo(m, Cell(RIGHT, c), if c <= f[i] then Cell(LAST, i) else Cell(RIGHT, c - 1), Cell(SIZE, c), Plus, |f|);
    }
  }

  lemma SizeKept(m: Memory, r: Memory, f: seq<nat>, i: nat)
    requires Valid(f) && Shaped(m, FIELDS, |f|) && Shaped(r, FIELDS, |f|) && i < |f| && SizeEq(m, f, i)
    requires forall j :: 0 <= j < |f| ==> r[SIZE][j] == m[SIZE][j]
    requires At(r, Cell(SELF, i)) == At(m, Cell(SELF, i))
    ensures SizeEq(r, f, i)
  {
    TotalSame(m[SIZE], r[SIZE], f[i], Next(f, i));
  }

  /** Sizes and self sizes are as they were. */
  ghost predicate SameSizes(m: Memory, r: Memory, n: nat)
    requires Shaped(m, FIELDS, n) && Shaped(r, FIELDS, n)
  {
    forall j :: 0 <= j < n ==> r[SIZE][j] == m[SIZE][j] && r[SELF][j] == m[SELF][j]
  }

  lemma SizesKept(m: Memory, t: Topology, f: seq<nat>, levels: seq<Level>)
    requires TreemapOk(t, f) && Shaped(m, FIELDS, |f|) && LevelsOk(f, levels)
    ensures SameSizes(m, AfterPass(Pass4, m, t, f, levels), |f|)
  {
    var r := AfterPass(Pass4, m, t, f, levels);
    forall j | 0 <= j < |f| ensures r[SIZE][j] == m[SIZE][j] && r[SELF][j] == m[SELF][j] {
      Kept4(m, t, f, levels, j);
      assert At(r, Cell(SIZE, j)) == At(m, Cell(SIZE, j)) && At(r, Cell(SELF, j)) == At(m, Cell(SELF, j));
    }
  }

  lemma RootAllocated(m3: Memory, r: Memory, t: Topology, f: seq<nat>)
    requires TreemapOk(t, f) && Shaped(m3, FIELDS, |f|) && Shaped(r, FIELDS, |f|) && SameSizes(m3, r, |f|)
    requires Done(Pass3, m3, t, f, 0) && SizeEq(m3, f, 0) && At(m3, Cell(SELF, 0)) == Num(0.0)
    requires At(r, Cell(OFFSET, 0)) == At(m3, Cell(OFFSET, 0)) && At(r, Cell(RIGHT, 0)) == At(m3, Cell(RIGHT, 0))
    requires At(r, Cell(RIGHT, 1)) == At(m3, Cell(RIGHT, 1))
    ensures AllocatedAt(r, f, 0) && At(r, Cell(RIGHT, 0)) == At(r, Cell(SIZE, 0))
  {
    assert ClassOk(t, f, 0);
    RootDone3(m3, f);
    SizeKept(m3, r, f, 0);
    RootRight(m3, m3, r, f);
  }

  lemma NodeAllocated(m3: Memory, r: Memory, t: Topology, f: seq<nat>, i: nat)
    requires TreemapOk(t, f) && Shaped(m3, FIELDS, |f|) && Shaped(r, FIELDS, |f|) && SameSizes(m3, r, |f|) &&
      0 < i < |f|
    requires Done(Pass4, r, t, f, i) && SizeEq(m3, f, i) && At(m3, Cell(SELF, i)).Num? && At(m3, Cell(SELF, i)).v >= 0.0
    ensures AllocatedAt(r, f, i)
  {
    assert ClassOk(t, f, i);
    SizeKept(m3, r, f, i);
    if t.cls[i] == POLLINGPLACE {
      assert Holds(r, Inner4(f, i)[..1][0], |f|);
      HoldsTwo(r, Cell(OFFSET, i), Cell(RIGHT, i), Cell(SIZE, i), Minus, |f|);
    } else {
      InnerDone4(r, f, i);
    }
  }

  /** Pass 4 then gives every node its offset. */
  lemma Allocated(m: Memory, t: Topology, f: seq<nat>, levels: seq<Level>, i: nat)
    requires TreemapOk(t, f) && Ready(m, t, f) && LevelsOk(f, levels) && i < |f|
    ensures AllocatedAt(Allocate(m, t, f, levels), f, i)
    ensures At(Allocate(m, t, f, levels), Cell(SELF, i)) == At(m, Cell(SELF, i))
    ensures i == 0 ==> At(Allocate(m, t, f, levels), Cell(RIGHT, 0)) == At(Allocate(m, t, f, levels), Cell(SIZE, 0))
  {
    var m3, r := AfterPass(Pass3, m, t, f, levels), Allocate(m, t, f, levels);
    assert ReadyAt(m, t, f, i);
    Kept3(m, t, f, levels, i);
    Kept4(m3, t, f, levels, i);
    Pass3Sizes(m, t, f, levels, i);
    SizesKept(m3, t, f, levels);
    if i == 0 {
      PassDone(Pass3, m, t, f, levels, 0);
      Kept4(m3, t, f, levels, 1);
      RootAllocated(m3, r, t, f);
    } else {
      PassDone(Pass4, m3, t, f, levels, i);
      NodeAllocated(m3, r, t, f, i);
    }
  }

  lemma RootRight(m: Memory, m3: Memory, r: Memory, f: seq<nat>)
    requires Valid(f) && |f| > 1 && Next(f, 0) == 2 && Shaped(m, FIELDS, |f|) && Shaped(m3, FIELDS, |f|) &&
      Shaped(r, FIELDS, |f|)
    requires At(m, Cell(SELF, 0)) == At(r, Cell(SELF, 0)) == Num(0.0)
    requires At(m3, Cell(RIGHT, 1)) == Add(At(m3, Cell(OFFSET, 0)), At(m3, Cell(SIZE, 1)))
    requires At(r, Cell(RIGHT, 1)) == At(m3, Cell(RIGHT, 1)) && At(r, Cell(OFFSET, 0)) == At(m3, Cell(OFFSET, 0)) &&
      At(r, Cell(SIZE, 1)) == At(m3, Cell(SIZE, 1))
    ensures forall c :: f[0] <= c < Next(f, 0) ==> RightEq(r, f, 0, c)
  {
  }

  // ---- and so the slots tile ----

  ghost predicate AllAllocated(m: Memory, f: seq<nat>) {
    && Valid(f) && Shaped(m, FIELDS, |f|)
    && At(m, Cell(SELF, 0)) == Num(0.0) && At(m, Cell(RIGHT, 0)) == At(m, Cell(SIZE, 0))
    && forall i :: 0 <= i < |f| ==> AllocatedAt(m, f, i)
  }

  lemma {:induction false} TotalIsSum(m: Memory, n: nat, lo: nat, hi: nat)
    requires Shaped(m, FIELDS, n) && lo <= hi <= n && forall x :: lo <= x < hi ==> m[SIZE][x].Num?
    ensures Total(m[SIZE], lo, hi) == Num(Sum(SlotsOf(m, n).size, lo, hi))
  {
    if lo < hi {
      TotalIsSum(m, n, lo, hi - 1);
      assert At(m, Cell(SIZE, hi - 1)) == m[SIZE][hi - 1];
    }
  }

  lemma {:induction false} SizesAreNumbers(m: Memory, f: seq<nat>, k: nat)
    requires AllAllocated(m, f) && k <= |f|
    ensures forall i :: k <= i < |f| ==> m[SIZE][i].Num?
    decreases |f| - k
  {
    if k < |f| {
      SizesAreNumbers(m, f, k + 1);
      assert AllocatedAt(m, f, k);
      TotalIsSum(m, |f|, f[k], Next(f, k));
      assert At(m, Cell(SIZE, k)) == m[SIZE][k];
    }
  }

  /** The right end of a child's slots, from its parent's offset. */
  lemma {:induction false} RightOfKid(m: Memory, f: seq<nat>, i: nat, c: nat)
    requires AllAllocated(m, f) && i < |f| && f[i] <= c < Next(f, i) && At(m, Cell(OFFSET, i)).Num?
    requires forall j :: 0 <= j < |f| ==> m[SIZE][j].Num?
    ensures var s := SlotsOf(m, |f|); At(m, Cell(RIGHT, c)) == Num(s.offset[i] + s.own[i] + Sum(s.size, f[i], c + 1))
    decreases c
  {
    assert AllocatedAt(m, f, i) && RightEq(m, f, i, c);
    var s := SlotsOf(m, |f|);
    assert At(m, Cell(SIZE, c)) == m[SIZE][c] == Num(s.size[c]);
    if c > f[i] {
      RightOfKid(m, f, i, c - 1);
    } else {
      assert Sum(s.size, c, c) == 0.0;
    }
  }

  lemma {:induction false} OffsetsAreNumbers(m: Memory, f: seq<nat>, c: nat)
    requires AllAllocated(m, f) && c < |f| && forall j :: 0 <= j < |f| ==> m[SIZE][j].Num?
    ensures At(m, Cell(OFFSET, c)).Num?
    ensures c == 0 ==> At(m, Cell(OFFSET, c)) == Num(0.0)
    decreases c
  {
    assert AllocatedAt(m, f, c) && At(m, Cell(SIZE, c)) == m[SIZE][c];
    if c > 0 {
      var i := Parent(f, c);
      OffsetsAreNumbers(m, f, i);
      RightOfKid(m, f, i, c);
    }
  }

  lemma BuffersAreSlots(m: Memory, f: seq<nat>)
    requires AllAllocated(m, f)
    ensures SlotsOk(SlotsOf(m, |f|), f) && forall j :: 0 <= j < |f| ==> m[SIZE][j].Num?
  {
    SizesAreNumbers(m, f, 0);
    OffsetsAreNumbers(m, f, 0);
    forall i | 0 <= i < |f| ensures SlotAt(SlotsOf(m, |f|), f, i) {
      NodeIsSlot(m, f, i);
    }
  }

  lemma NodeIsSlot(m: Memory, f: seq<nat>, i: nat)
    requires AllAllocated(m, f) && i < |f| && forall j :: 0 <= j < |f| ==> m[SIZE][j].Num?
    ensures SlotAt(SlotsOf(m, |f|), f, i)
  {
    var s := SlotsOf(m, |f|);
    assert AllocatedAt(m, f, i) && At(m, Cell(SIZE, i)) == m[SIZE][i];
    TotalIsSum(m, |f|, f[i], Next(f, i));
    OffsetsAreNumbers(m, f, i);
    forall c | f[i] <= c < Next(f, i) ensures s.offset[c] == s.offset[i] + s.own[i] + Sum(s.size, f[i], c) {
      assert AllocatedAt(m, f, c) && At(m, Cell(SIZE, c)) == m[SIZE][c];
      RightOfKid(m, f, i, c);
    }
  }

  /** A point of the vertex buffer that node `i` draws to. */
  ghost predicate DrawsAt(m: Memory, n: nat, i: nat, p: real)
    requires Shaped(m, FIELDS, n)
  {
    i < n && At(m, Cell(OFFSET, i)).Num? && At(m, Cell(SELF, i)).Num?
    && At(m, Cell(OFFSET, i)).v <= p < At(m, Cell(OFFSET, i)).v + At(m, Cell(SELF, i)).v
  }

  /** After passes 3 and 4 the slots [renderoffset, renderoffset + selfrendersize) of all nodes are
      disjoint and fill exactly [0, rendersize of the root); self sizes are as they were. */
  lemma SlotsTileTheBuffer(m: Memory, t: Topology, f: seq<nat>, levels: seq<Level>, p: real)
    requires TreemapOk(t, f) && Ready(m, t, f) && LevelsOk(f, levels)
    ensures var r, n := Allocate(m, t, f, levels), |f|;
      && At(r, Cell(SIZE, 0)).Num?
      && (0.0 <= p < At(r, Cell(SIZE, 0)).v <==> exists i :: 0 <= i < n && DrawsAt(r, n, i, p))
      && (forall i, j :: 0 <= i < n && 0 <= j < n && DrawsAt(r, n, i, p) && DrawsAt(r, n, j, p) ==> i == j)
      && (forall i :: 0 <= i < n ==> At(r, Cell(SELF, i)) == At(m, Cell(SELF, i)))
  {
    AllocatesAll(m, t, f, levels);
    BufferSlots(Allocate(m, t, f, levels), f, p);
  }

  lemma AllocatesAll(m: Memory, t: Topology, f: seq<nat>, levels: seq<Level>)
    requires TreemapOk(t, f) && Ready(m, t, f) && LevelsOk(f, levels)
    ensures AllAllocated(Allocate(m, t, f, levels), f)
    ensures forall i :: 0 <= i < |f| ==> At(Allocate(m, t, f, levels), Cell(SELF, i)) == At(m, Cell(SELF, i))
  {
    var r := Allocate(m, t, f, levels);
    forall i | 0 <= i < |f|
      ensures AllocatedAt(r, f, i) && At(r, Cell(SELF, i)) == At(m, Cell(SELF, i))
      ensures i == 0 ==> At(r, Cell(RIGHT, 0)) == At(r, Cell(SIZE, 0))
    {
      Allocated(m, t, f, levels, i);
    }
  }

  /** In which order: a node's own slot, then all slots below its first child, then below the next, and so on;
      a node's size is what it and its children take. */
  lemma SlotsInOrder(m: Memory, t: Topology, f: seq<nat>, levels: seq<Level>, i: nat)
    requires TreemapOk(t, f) && Ready(m, t, f) && LevelsOk(f, levels) && i < |f|
    ensures var r, n := Allocate(m, t, f, levels), |f|;
      var self, offset, sizes := Value(m, n, SELF, i), Value(r, n, OFFSET, i), Values(r, n, SIZE);
      && At(r, Cell(SIZE, i)) == Num(self + Sum(sizes, f[i], Next(f, i)))
      && At(r, Cell(OFFSET, 0)) == Num(0.0)
      && forall c :: f[i] <= c < Next(f, i) ==> At(r, Cell(OFFSET, c)) == Num(offset + self + Sum(sizes, f[i], c))
  {
    var r, n := Allocate(m, t, f, levels), |f|;
    AllocatesAll(m, t, f, levels);
    BuffersAreSlots(r, f);
    var s := SlotsOf(r, n);
    assert SlotAt(s, f, i) && At(r, Cell(SIZE, i)) == r[SIZE][i] && At(r, Cell(SELF, i)) == At(m, Cell(SELF, i));
    OffsetsAreNumbers(r, f, 0);
    forall c | f[i] <= c < Next(f, i) ensures At(r, Cell(OFFSET, c)) == Num(s.offset[c]) {
      OffsetsAreNumbers(r, f, c);
    }
  }

  /** The number of vertices to render is recorded at the root. */
  lemma LastDrawIsSize(m: Memory, t: Topology, f: seq<nat>, levels: seq<Level>)
    requires TreemapOk(t, f) && Ready(m, t, f) && LevelsOk(f, levels)
    ensures At(Allocate(m, t, f, levels), Cell(LASTDRAW, 0)) == At(Allocate(m, t, f, levels), Cell(SIZE, 0))
  {
    var m3 := AfterPass(Pass3, m, t, f, levels);
    assert ClassOk(t, f, 0);
    PassDone(Pass3, m, t, f, levels, 0);
    assert Holds(m3, Root3(f)[2], |f|);
    HoldsOne(m3, Cell(LASTDRAW, 0), Cell(SIZE, 0), |f|);
    PassKeeps(Pass4, m3, t, f, levels, Cell(LASTDRAW, 0));
    Kept4(m3, t, f, levels, 0);
  }

  lemma BufferSlots(r: Memory, f: seq<nat>, p: real)
    requires AllAllocated(r, f)
    ensures At(r, Cell(SIZE, 0)).Num?
    ensures 0.0 <= p < At(r, Cell(SIZE, 0)).v <==> exists i :: 0 <= i < |f| && DrawsAt(r, |f|, i, p)
    ensures forall i, j :: 0 <= i < |f| && 0 <= j < |f| && DrawsAt(r, |f|, i, p) && DrawsAt(r, |f|, j, p) ==> i == j
  {
    var s := SlotsOf(r, |f|);
    BuffersAreSlots(r, f);
    SlotsTile(s, f, p);
    forall i | 0 <= i < |f| ensures DrawsAt(r, |f|, i, p) <==> InSlot(s, i, p) {
      assert AllocatedAt(r, f, i);
      OffsetsAreNumbers(r, f, i);
    }
    assert At(r, Cell(SIZE, 0)) == r[SIZE][0];
  }

  /** The same when both passes run on the GPU, whatever the interleaving. */
  lemma LaunchedSlotsTile(mems3: seq<Memory>, mems4: seq<Memory>, t: Topology, f: seq<nat>, levels: seq<Level>, p: real)
    requires TreemapOk(t, f) && LevelsOk(f, levels) && |mems3| > 0 && |mems4| > 0 && Ready(mems3[0], t, f)
    requires Launches(mems3, KernelOf(Pass3, t, f), Reversed(levels), FIELDS, |f|)
    requires Launches(mems4, KernelOf(Pass4, t, f), levels, FIELDS, |f|) && mems4[0] == mems3[|levels|]
    ensures var r, n := mems4[|levels|], |f|;
      && Shaped(r, FIELDS, n) && At(r, Cell(SIZE, 0)).Num?
      && (0.0 <= p < At(r, Cell(SIZE, 0)).v <==> exists i :: 0 <= i < n && DrawsAt(r, n, i, p))
      && (forall i, j :: 0 <= i < n && 0 <= j < n && DrawsAt(r, n, i, p) && DrawsAt(r, n, j, p) ==> i == j)
  {
    LaunchedPass(Pass3, mems3, t, f, levels);
    LaunchedPass(Pass4, mems4, t, f, levels);
    SlotsTileTheBuffer(mems3[0], t, f, levels, p);
  }

  /** Pass 3 and pass 4 on the CPU. */
  method AllocateSlots(g: Passes.Fields, levels: seq<Level>, ghost f: seq<nat>)
    requires g.Synced() && TreemapOk(g.Links(), f) && LevelsOk(f, levels)
    modifies g`memory, g.buffer
    ensures g.Synced() && g.memory == Allocate(old(g.memory), g.Links(), f, levels)
  {
    g.BottomUpTraversal(Pass3, levels, f);
    g.TopDownTraversal(Pass4, levels, f);
  }
}
