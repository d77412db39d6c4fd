/** Laying out the treemap: pass 1 totals magnitudes bottom up, pass 2 cuts rectangles top down. */
module Treemap {
  import opened Layouts
  import opened LevelLaunch
  import opened Kernels
  import opened PassEffects
  import opened Intervals
  import Passes

  /** Before pass 1: magnitudes of polling places and the root's inputs are non-negative, and the right and
      bottom edges of the root's child have been set. */
  ghost predicate Ready(m: Memory, t: Topology, f: seq<nat>)
    requires TreemapOk(t, f)
  {
    && Shaped(m, FIELDS, |f|)
    && NonNegative(At(m, Cell(WIDTH, 0))) && NonNegative(At(m, Cell(HEIGHT, 0)))
    && At(m, Cell(RX, 1)).Num? && At(m, Cell(BY, 1)).Num?
    && forall i :: 0 <= i < |f| ==> ReadyAt(m, t, f, i)
  }

  predicate NonNegative(x: Num) {
    x.Num? && x.v >= 0.0
  }

  ghost predicate ReadyAt(m: Memory, t: Topology, f: seq<nat>, i: nat)
    requires TreemapOk(t, f) && Shaped(m, FIELDS, |f|) && i < |f|
  {
    t.cls[i] == POLLINGPLACE ==> NonNegative(At(m, Cell(MAG, i)))
  }

  /** Both passes. */
  ghost function Layout(m: Memory, t: Topology, f: seq<nat>, levels: seq<Level>): (r: Memory)
    requires TreemapOk(t, f) && Shaped(m, FIELDS, |f|) && LevelsOk(f, levels)
    ensures Shaped(r, FIELDS, |f|)
  {
    AfterPass(Pass2, AfterPass(Pass1, m, t, f, levels), t, f, levels)
  }

  // ---- what holds of the buffers after both passes ----

  ghost predicate TotalEq(m: Memory, f: seq<nat>, i: nat)
    requires Valid(f) && Shaped(m, FIELDS, |f|) && i < |f|
  {
    At(m, Cell(MAG, i)) == Total(m[MAG], f[i], Next(f, i))
  }

  ghost predicate CornerEq(m: Memory, n: nat, i: nat)
    requires Shaped(m, FIELDS, n) && i < n
  {
    && At(m, Cell(X, i)) == Sub(At(m, Cell(RX, i)), At(m, Cell(W, i)))
    && At(m, Cell(Y, i)) == Sub(At(m, Cell(BY, i)), At(m, Cell(H, i)))
  }

  /** Child `c` of the horizontal node `i`: full height, its share of the width, after the previous child. */
  ghost predicate ColumnEq(m: Memory, f: seq<nat>, i: nat, c: nat)
    requires Valid(f) && Shaped(m, FIELDS, |f|) && i < |f| && f[i] <= c < |f|
  {
    && At(m, Cell(H, c)) == At(m, Cell(H, i))
    && At(m, Cell(W, c)) == Mul(Div(At(m, Cell(MAG, c)), At(m, Cell(MAG, i))), At(m, Cell(W, i)))
    && At(m, Cell(BY, c)) == Add(At(m, Cell(Y, i)), At(m, Cell(H, i)))
    && At(m, Cell(RX, c)) == Add(if c == f[i] then At(m, Cell(X, i)) else At(m, Cell(RX, c - 1)), At(m, Cell(W, c)))
  }

  /** Child `c` of the vertical node `i`: full width, its share of the height, below the previous child. */
  ghost predicate RowEq(m: Memory, f: seq<nat>, i: nat, c: nat)
    requires Valid(f) && Shaped(m, FIELDS, |f|) && i < |f| && f[i] <= c < |f|
  {
    && At(m, Cell(W, c)) == At(m, Cell(W, i))
    && At(m, Cell(H, c)) == Mul(Div(At(m, Cell(MAG, c)), At(m, Cell(MAG, i))), At(m, Cell(H, i)))
    && At(m, Cell(RX, c)) == Add(At(m, Cell(X, i)), At(m, Cell(W, i)))
    && At(m, Cell(BY, c)) == Add(if c == f[i] then At(m, Cell(Y, i)) else At(m, Cell(BY, c - 1)), At(m, Cell(H, c)))
  }

  ghost predicate RootEq(m: Memory, n: nat)
    requires Shaped(m, FIELDS, n) && n > 1
  {
    && At(m, Cell(MAG, 0)) == At(m, Cell(MAG, 1))
    && At(m, Cell(H, 1)) == Mul(At(m, Cell(HEIGHT, 0)), Div(At(m, Cell(MAG, 0)), SCALE))
    && At(m, Cell(W, 1)) == (if At(m, Cell(FIXWIDTH, 0)) != Num(0.0) then At(m, Cell(WIDTH, 0))
                             else Mul(At(m, Cell(WIDTH, 0)), Div(At(m, Cell(MAG, 0)), SCALE)))
    && NonNegative(At(m, Cell(WIDTH, 0))) && NonNegative(At(m, Cell(HEIGHT, 0)))
    && At(m, Cell(RX, 1)).Num? && At(m, Cell(BY, 1)).Num?
  }

  ghost predicate LaidOutAt(m: Memory, t: Topology, f: seq<nat>, i: nat)
    requires TreemapOk(t, f) && Shaped(m, FIELDS, |f|) && i < |f|
  {
    && (t.cls[i] == POLLINGPLACE ==> NonNegative(At(m, Cell(MAG, i))))
    && (Inner(t.cls[i]) ==> TotalEq(m, f, i))
    && (i > 0 ==> CornerEq(m, |f|, i))
    && (Horizontal(t.cls[i]) ==> forall c :: f[i] <= c < Next(f, i) ==> ColumnEq(m, f, i, c))
    && (Inner(t.cls[i]) && !Horizontal(t.cls[i]) ==> forall c :: f[i] <= c < Next(f, i) ==> RowEq(m, f, i, c))
    && (i == 0 ==> RootEq(m, |f|))
  }

  lemma HoldsIs(m: Memory, ins: Instr, n: nat)
    requires Holds(m, ins, n)
    ensures Means(m, ins, n)
  {
    var v := Load(m, ins.srcs, FIELDS, n);
    assert |v| == 1 ==> v == [At(m, ins.srcs[0])];
    assert |v| == 2 ==> v == [At(m, ins.srcs[0]), At(m, ins.srcs[1])];
    assert |v| == 3 ==> v == [At(m, ins.srcs[0]), At(m, ins.srcs[1]), At(m, ins.srcs[2])];
  }

  lemma CornerDone(m: Memory, p: seq<Instr>, i: nat, n: nat)
    requires Shaped(m, FIELDS, n) && i < n && AllHold(m, p, n) && |p| >= 2 && p[0] == Corner(i)[0] &&
      p[1] == Corner(i)[1]
    ensures CornerEq(m, n, i)
  {
    assert Holds(m, p[0], n) && Holds(m, p[1], n);
    HoldsIs(m, p[0], n);
    HoldsIs(m, p[1], n);
  }

  lemma HorizontalDone(m: Memory, f: seq<nat>, i: nat, c: nat)
    requires Valid(f) && i < |f| && Shaped(m, FIELDS, |f|) && AllHold(m, Horizontal2(f, i), |f|) && IsKid(f, i, c)
    ensures ColumnEq(m, f, i, c)
  {
    HorizontalShares(m, f, i, c);
    HorizontalEnds(m, f, i, c);
  }

  lemma HorizontalShares(m: Memory, f: seq<nat>, i: nat, c: nat)
    requires Valid(f) && i < |f| && Shaped(m, FIELDS, |f|) && AllHold(m, Horizontal2(f, i), |f|) && IsKid(f, i, c) &&
      c < |f|
    ensures At(m, Cell(H, c)) == At(m, Cell(H, i))
    ensures At(m, Cell(W, c)) == Mul(Div(At(m, Cell(MAG, c)), At(m, Cell(MAG, i))), At(m, Cell(W, i)))
    ensures At(m, Cell(BY, c)) == Add(At(m, Cell(Y, i)), At(m, Cell(H, i)))
  {
    var k := 2 + 3 * (c - f[i]);
    HorizontalHolds(m, f, i, k, Column(i, c, 0));
    HorizontalHolds(m, f, i, k + 1, Column(i, c, 1));
    HorizontalHolds(m, f, i, k + 2, Column(i, c, 2));
  }

  lemma HorizontalEnds(m: Memory, f: seq<nat>, i: nat, c: nat)
    requires Valid(f) && i < |f| && Shaped(m, FIELDS, |f|) && AllHold(m, Horizontal2(f, i), |f|) && IsKid(f, i, c) &&
      c < |f|
    ensures At(m, Cell(RX, c)) ==
      Add(if c == f[i] then At(m, Cell(X, i)) else At(m, Cell(RX, c - 1)), At(m, Cell(W, c)))
  {
    var e := 2 + 3 * NumKids(f, i);
    HorizontalHolds(m, f, i, e, Instr(Cell(EDGE, i), [Cell(X, i)], Copy));
    HorizontalHolds(m, f, i, e + 1 + c - f[i], Ends(f, i, c, EDGE, RX, W));
  }

  /** The k-th instruction of a horizontal visit still holds. */
  lemma HorizontalHolds(m: Memory, f: seq<nat>, i: nat, k: nat, ins: Instr)
    requires Valid(f) && i < |f| && Shaped(m, FIELDS, |f|) && AllHold(m, Horizontal2(f, i), |f|)
    requires k < |Horizontal2(f, i)| && k < 3 + 4 * NumKids(f, i) && ins == HorizontalAt(f, i, k)
    ensures Means(m, ins, |f|)
  {
    HorizontalIs(f, i, k);
    assert Holds(m, Horizontal2(f, i)[k], |f|);
    HoldsIs(m, ins, |f|);
  }

  lemma VerticalDone(m: Memory, f: seq<nat>, i: nat, c: nat)
    requires Valid(f) && i < |f| && Shaped(m, FIELDS, |f|) && AllHold(m, Vertical2(f, i), |f|) && IsKid(f, i, c)
    ensures RowEq(m, f, i, c)
  {
    VerticalShares(m, f, i, c);
    VerticalEnds(m, f, i, c);
  }

  lemma VerticalShares(m: Memory, f: seq<nat>, i: nat, c: nat)
    requires Valid(f) && i < |f| && Shaped(m, FIELDS, |f|) && AllHold(m, Vertical2(f, i), |f|) && IsKid(f, i, c) &&
      c < |f|
    ensures At(m, Cell(H, c)) == Mul(Div(At(m, Cell(MAG, c)), At(m, Cell(MAG, i))), At(m, Cell(H, i)))
    ensures At(m, Cell(W, c)) == At(m, Cell(W, i))
    ensures At(m, Cell(RX, c)) == Add(At(m, Cell(X, i)), At(m, Cell(W, i)))
  {
    var k, e := 3 + 3 * (c - f[i]), 3 + 3 * NumKids(f, i) + c - f[i];
    VerticalHolds(m, f, i, k, Row(f, i, c, 0));
    VerticalHolds(m, f, i, k + 1, Row(f, i, c, 1));
    VerticalHolds(m, f, i, e, Instr(Cell(RX, c), [Cell(X, i), Cell(W, i)], Plus));
  }

  /** The k-th instruction of a vertical visit still holds. */
  lemma VerticalHolds(m: Memory, f: seq<nat>, i: nat, k: nat, ins: Instr)
    requires Valid(f) && i < |f| && Shaped(m, FIELDS, |f|) && AllHold(m, Vertical2(f, i), |f|)
    requires k < |Vertical2(f, i)| && k < 3 + 4 * NumKids(f, i) && ins == VerticalAt(f, i, k)
    ensures Means(m, ins, |f|)
  {
    VerticalIs(f, i, k);
    assert Holds(m, Vertical2(f, i)[k], |f|);
    HoldsIs(m, ins, |f|);
  }

  ghost predicate Means(m: Memory, ins: Instr, n: nat)
    requires Shaped(m, FIELDS, n)
  {
    && CellOk(ins.dst, FIELDS, n) && (forall k :: 0 <= k < |ins.srcs| ==> CellOk(ins.srcs[k], FIELDS, n))
    && (|ins.srcs| == 1 ==> At(m, ins.dst) == Eval(ins.op, [At(m, ins.srcs[0])]))
    && (|ins.srcs| == 2 ==> At(m, ins.dst) == Eval(ins.op, [At(m, ins.srcs[0]), At(m, ins.srcs[1])]))
    && (|ins.srcs| == 3 ==>
          At(m, ins.dst) == Eval(ins.op, [At(m, ins.srcs[0]), At(m, ins.srcs[1]), At(m, ins.srcs[2])]))
  }

  lemma VerticalEnds(m: Memory, f: seq<nat>, i: nat, c: nat)
    requires Valid(f) && i < |f| && Shaped(m, FIELDS, |f|) && AllHold(m, Vertical2(f, i), |f|) && IsKid(f, i, c) &&
      c < |f|
    ensures At(m, Cell(BY, c)) ==
      Add(if c == f[i] then At(m, Cell(Y, i)) else At(m, Cell(BY, c - 1)), At(m, Cell(H, c)))
  {
    VerticalHolds(m, f, i, 2, Instr(Cell(EDGE, i), [Cell(Y, i)], Copy));
    VerticalHolds(m, f, i, 5 + 3 * (c - f[i]), Row(f, i, c, 2));
  }

  lemma RootDone1(m: Memory, f: seq<nat>)
    requires Valid(f) && |f| > 1 && Shaped(m, FIELDS, |f|) && AllHold(m, Root1(f), |f|)
    requires NonNegative(At(m, Cell(WIDTH, 0))) && NonNegative(At(m, Cell(HEIGHT, 0)))
    requires At(m, Cell(RX, 1)).Num? && At(m, Cell(BY, 1)).Num?
    ensures RootEq(m, |f|)
  {
    var p := Root1(f);
    assert Holds(m, p[0], |f|) && Holds(m, p[1], |f|) && Holds(m, p[2], |f|);
    HoldsIs(m, p[0], |f|);
    HoldsIs(m, p[1], |f|);
    HoldsIs(m, p[2], |f|);
  }

  // what the passes leave untouched

  lemma NeverWritten1(t: Topology, f: seq<nat>, i: nat)
    requires TreemapOk(t, f) && i < |f|
    ensures t.cls[i] == POLLINGPLACE ==> NeverWrites(Pass1, t, f, Cell(MAG, i))
    ensures NeverWrites(Pass1, t, f, Cell(WIDTH, i)) && NeverWrites(Pass1, t, f, Cell(HEIGHT, i))
    ensures NeverWrites(Pass1, t, f, Cell(FIXWIDTH, i))
    ensures NeverWrites(Pass1, t, f, Cell(RX, i)) && NeverWrites(Pass1, t, f, Cell(BY, i))
  {
    assert ClassOk(t, f, i);
  }

  lemma NeverWritten2(t: Topology, f: seq<nat>, i: nat)
    requires TreemapOk(t, f) && i < |f|
    ensures NeverWrites(Pass2, t, f, Cell(MAG, i))
    ensures NeverWrites(Pass2, t, f, Cell(WIDTH, i)) && NeverWrites(Pass2, t, f, Cell(HEIGHT, i))
    ensures NeverWrites(Pass2, t, f, Cell(FIXWIDTH, i))
    ensures i == 1 ==> NeverWrites(Pass2, t, f, Cell(W, i)) && NeverWrites(Pass2, t, f, Cell(H, i))
    ensures i == 1 ==> NeverWrites(Pass2, t, f, Cell(RX, i)) && NeverWrites(Pass2, t, f, Cell(BY, i))
  {
    if i == 1 {
      forall j | 0 <= j < |f| ensures !(IsKid(f, j, 1) && Inner(t.cls[j])) {
        assert ClassOk(t, f, j);
        if IsKid(f, j, 1) { ParentUnique(f, j, 1); }
      }
    }
  }

  lemma Kept1(m: Memory, t: Topology, f: seq<nat>, levels: seq<Level>, i: nat)
    requires TreemapOk(t, f) && Shaped(m, FIELDS, |f|) && LevelsOk(f, levels) && i < |f|
    ensures var r := AfterPass(Pass1, m, t, f, levels);
      && (t.cls[i] == POLLINGPLACE ==> At(r, Cell(MAG, i)) == At(m, Cell(MAG, i)))
      && At(r, Cell(WIDTH, i)) == At(m, Cell(WIDTH, i)) && At(r, Cell(HEIGHT, i)) == At(m, Cell(HEIGHT, i))
      && At(r, Cell(FIXWIDTH, i)) == At(m, Cell(FIXWIDTH, i))
      && At(r, Cell(RX, i)) == At(m, Cell(RX, i)) && At(r, Cell(BY, i)) == At(m, Cell(BY, i))
  {
    NeverWritten1(t, f, i);
    if t.cls[i] == POLLINGPLACE { PassKeeps(Pass1, m, t, f, levels, Cell(MAG, i)); }
    PassKeeps(Pass1, m, t, f, levels, Cell(WIDTH, i));
    PassKeeps(Pass1, m, t, f, levels, Cell(HEIGHT, i));
    PassKeeps(Pass1, m, t, f, levels, Cell(FIXWIDTH, i));
    PassKeeps(Pass1, m, t, f, levels, Cell(RX, i));
    PassKeeps(Pass1, m, t, f, levels, Cell(BY, i));
  }

  lemma Kept2(m: Memory, t: Topology, f: seq<nat>, levels: seq<Level>, i: nat)
    requires TreemapOk(t, f) && Shaped(m, FIELDS, |f|) && LevelsOk(f, levels) && i < |f|
    ensures var r := AfterPass(Pass2, m, t, f, levels);
      && At(r, Cell(MAG, i)) == At(m, Cell(MAG, i))
      && At(r, Cell(WIDTH, i)) == At(m, Cell(WIDTH, i)) && At(r, Cell(HEIGHT, i)) == At(m, Cell(HEIGHT, i))
      && At(r, Cell(FIXWIDTH, i)) == At(m, Cell(FIXWIDTH, i))
      && (i == 1 ==> At(r, Cell(W, i)) == At(m, Cell(W, i)) && At(r, Cell(H, i)) == At(m, Cell(H, i)))
      && (i == 1 ==> At(r, Cell(RX, i)) == At(m, Cell(RX, i)) && At(r, Cell(BY, i)) == At(m, Cell(BY, i)))
  {
    NeverWritten2(t, f, i);
    PassKeeps(Pass2, m, t, f, levels, Cell(MAG, i));
    PassKeeps(Pass2, m, t, f, levels, Cell(WIDTH, i));
    PassKeeps(Pass2, m, t, f, levels, Cell(HEIGHT, i));
    PassKeeps(Pass2, m, t, f, levels, Cell(FIXWIDTH, i));
    if i == 1 {
      PassKeeps(Pass2, m, t, f, levels, Cell(W, i));
      PassKeeps(Pass2, m, t, f, levels, Cell(H, i));
      PassKeeps(Pass2, m, t, f, levels, Cell(RX, i));
      PassKeeps(Pass2, m, t, f, levels, Cell(BY, i));
    }
  }

  /** Pass 1 totals the magnitudes. */
  lemma Pass1Totals(m: Memory, t: Topology, f: seq<nat>, levels: seq<Level>, i: nat)
    requires TreemapOk(t, f) && Ready(m, t, f) && LevelsOk(f, levels) && i < |f|
    ensures var r := AfterPass(Pass1, m, t, f, levels);
      && (t.cls[i] == POLLINGPLACE ==> NonNegative(At(r, Cell(MAG, i))))
      && (Inner(t.cls[i]) ==> TotalEq(r, f, i))
      && (i == 0 ==> RootEq(r, |f|))
  {
    var r := AfterPass(Pass1, m, t, f, levels);
    assert ClassOk(t, f, i) && ReadyAt(m, t, f, i);
    Kept1(m, t, f, levels, i);
    PassDone(Pass1, m, t, f, levels, i);
    DoneIsTotal(r, t, f, i);
    if i == 0 {
      Kept1(m, t, f, levels, 1);
      RootDone1(r, f);
    }
  }

  lemma DoneIsTotal(r: Memory, t: Topology, f: seq<nat>, i: nat)
    requires TreemapOk(t, f) && Shaped(r, FIELDS, |f|) && i < |f| && Done(Pass1, r, t, f, i)
    ensures Inner(t.cls[i]) ==> TotalEq(r, f, i)
    ensures i == 0 ==> AllHold(r, Root1(f), |f|)
  {
    assert ClassOk(t, f, i);
  }

  lemma TotalKept(m: Memory, r: Memory, f: seq<nat>, i: nat)
    requires Valid(f) && Shaped(m, FIELDS, |f|) && Shaped(r, FIELDS, |f|) && i < |f| && TotalEq(m, f, i)
    requires forall j :: 0 <= j < |f| ==> r[MAG][j] == m[MAG][j]
    ensures TotalEq(r, f, i)
  {
    TotalSame(m[MAG], r[MAG], f[i], Next(f, i));
    assert At(r, Cell(MAG, i)) == r[MAG][i] == m[MAG][i] == At(m, Cell(MAG, i));
  }

  /** Pass 2 cuts each node's rectangle among its children. */
  lemma Pass2Cuts(m: Memory, t: Topology, f: seq<nat>, levels: seq<Level>, i: nat)
    requires TreemapOk(t, f) && Shaped(m, FIELDS, |f|) && LevelsOk(f, levels) && i < |f|
    ensures var r := AfterPass(Pass2, m, t, f, levels);
      && (i > 0 ==> CornerEq(r, |f|, i))
      && (Horizontal(t.cls[i]) ==> forall c :: f[i] <= c < Next(f, i) ==> ColumnEq(r, f, i, c))
      && (Inner(t.cls[i]) && !Horizontal(t.cls[i]) ==> forall c :: f[i] <= c < Next(f, i) ==> RowEq(r, f, i, c))
  {
    var r := AfterPass(Pass2, m, t, f, levels);
    assert ClassOk(t, f, i);
    PassDone(Pass2, m, t, f, levels, i);
    if i > 0 {
      var p := Visit(Pass2, f, t.cls[i], i);
      assert p[0] == Corner(i)[0] && p[1] == Corner(i)[1];
      CornerDone(r, p, i, |f|);
      forall c | f[i] <= c < Next(f, i)
        ensures Horizontal(t.cls[i]) ==> ColumnEq(r, f, i, c)
        ensures Inner(t.cls[i]) && !Horizontal(t.cls[i]) ==> RowEq(r, f, i, c)
      {
        if Horizontal(t.cls[i]) {
          HorizontalDone(r, f, i, c);
        } else if Inner(t.cls[i]) {
          VerticalDone(r, f, i, c);
        }
      }
    }
  }

  lemma LaidOut(m: Memory, t: Topology, f: seq<nat>, levels: seq<Level>, i: nat)
    requires TreemapOk(t, f) && Ready(m, t, f) && LevelsOk(f, levels) && i < |f|
    ensures LaidOutAt(Layout(m, t, f, levels), t, f, i)
  {
    var m1, r := AfterPass(Pass1, m, t, f, levels), Layout(m, t, f, levels);
    Pass1Totals(m, t, f, levels, i);
    Pass2Cuts(m1, t, f, levels, i);
    Kept2(m1, t, f, levels, i);
    forall j | 0 <= j < |f| ensures r[MAG][j] == m1[MAG][j] {
      Kept2(m1, t, f, levels, j);
      assert At(r, Cell(MAG, j)) == At(m1, Cell(MAG, j));
    }
    if Inner(t.cls[i]) {
      TotalKept(m1, r, f, i);
    }
    if i == 0 {
      Kept2(m1, t, f, levels, 1);
    }
  }

  // ---- the treemap, as numbers ----

  /** Magnitudes and rectangles; a node is `drawn` if none of its rectangle's numbers is NaN. */
  datatype Rects = Rects(mag: seq<real>, w: seq<real>, h: seq<real>, x: seq<real>, y: seq<real>, drawn: seq<bool>)

  ghost predicate RectsSized(s: Rects, n: nat) {
    |s.mag| == |s.w| == |s.h| == |s.x| == |s.y| == |s.drawn| == n
  }

  /** The children of `i` side by side or on top of each other, each with its share. */
  ghost predicate Sliced(s: Rects, f: seq<nat>, horizontal: bool, i: nat, c: nat)
    requires Valid(f) && RectsSized(s, |f|) && i < |f| && f[i] <= c < Next(f, i) && s.mag[i] > 0.0
  {
    if horizontal then
      && s.h[c] == s.h[i] && s.y[c] == s.y[i]
      && s.w[c] == s.mag[c] / s.mag[i] * s.w[i] && s.x[c] == s.x[i] + Sum(s.w, f[i], c)
    else
      && s.w[c] == s.w[i] && s.x[c] == s.x[i]
      && s.h[c] == s.mag[c] / s.mag[i] * s.h[i] && s.y[c] == s.y[i] + Sum(s.h, f[i], c)
  }

  ghost predicate RectAt(s: Rects, t: Topology, f: seq<nat>, i: nat)
    requires TreemapOk(t, f) && RectsSized(s, |f|) && i < |f|
  {
    && s.mag[i] >= 0.0 && (t.cls[i] != POLLINGPLACE ==> s.mag[i] == Sum(s.mag, f[i], Next(f, i)))
    && (Inner(t.cls[i]) ==> forall c :: f[i] <= c < Next(f, i) ==>
         && (s.drawn[c] <==> s.drawn[i] && s.mag[i] > 0.0)
         && (s.drawn[i] && s.mag[i] > 0.0 ==> Sliced(s, f, Horizontal(t.cls[i]), i, c)))
  }

  ghost predicate RectsOk(s: Rects, t: Topology, f: seq<nat>) {
    && TreemapOk(t, f) && RectsSized(s, |f|)
    && s.drawn[1] && s.w[1] >= 0.0 && s.h[1] >= 0.0 && (s.mag[1] == 0.0 ==> s.h[1] == 0.0)
    && forall i :: 0 <= i < |f| ==> RectAt(s, t, f, i)
  }

  ghost predicate Drawn(m: Memory, n: nat, i: nat)
    requires Shaped(m, FIELDS, n) && i < n
  {
    At(m, Cell(W, i)).Num? && At(m, Cell(H, i)).Num? && At(m, Cell(X, i)).Num? && At(m, Cell(Y, i)).Num?
  }

  ghost function Value(m: Memory, n: nat, fld: nat, i: nat): real
    requires Shaped(m, FIELDS, n) && fld < FIELDS && i < n
  {
    if At(m, Cell(fld, i)).Num? then At(m, Cell(fld, i)).v else 0.0
  }

  ghost function Values(m: Memory, n: nat, fld: nat): (r: seq<real>)
    requires Shaped(m, FIELDS, n) && fld < FIELDS
    ensures |r| == n && forall i :: 0 <= i < n ==> r[i] == Value(m, n, fld, i)
  {
    seq(n, i requires 0 <= i < n => Value(m, n, fld, i))
  }

  ghost function RectsOf(m: Memory, n: nat): Rects
    requires Shaped(m, FIELDS, n)
  {
    Rects(Values(m, n, MAG), Values(m, n, W), Values(m, n, H), Values(m, n, X), Values(m, n, Y),
          seq(n, i requires 0 <= i < n => Drawn(m, n, i)))
  }

  ghost predicate AllLaidOut(m: Memory, t: Topology, f: seq<nat>) {
    TreemapOk(t, f) && Shaped(m, FIELDS, |f|) && forall i :: 0 <= i < |f| ==> LaidOutAt(m, t, f, i)
  }

  lemma {:induction false} TotalIsSum(m: Memory, n: nat, lo: nat, hi: nat)
    requires Shaped(m, FIELDS, n) && lo <= hi <= n && forall x :: lo <= x < hi ==> NonNegative(m[MAG][x])
    ensures Total(m[MAG], lo, hi) == Num(Sum(Values(m, n, MAG), lo, hi)) && Sum(Values(m, n, MAG), lo, hi) >= 0.0
  {
    if lo < hi {
      TotalIsSum(m, n, lo, hi - 1);
      assert At(m, Cell(MAG, hi - 1)) == m[MAG][hi - 1];
    }
  }

  lemma {:induction false} MagnitudesAreNumbers(m: Memory, t: Topology, f: seq<nat>, k: nat)
    requires AllLaidOut(m, t, f) && k <= |f|
    ensures forall i :: k <= i < |f| ==> NonNegative(m[MAG][i])
    decreases |f| - k
  {
    if k < |f| {
      MagnitudesAreNumbers(m, t, f, k + 1);
      assert LaidOutAt(m, t, f, k) && ClassOk(t, f, k) && At(m, Cell(MAG, k)) == m[MAG][k];
      if k == 0 {
        assert At(m, Cell(MAG, 1)) == m[MAG][1];
      } else if Inner(t.cls[k]) {
        TotalIsSum(m, |f|, f[k], Next(f, k));
      }
    }
  }

  lemma MagnitudeIsSum(m: Memory, t: Topology, f: seq<nat>, i: nat)
    requires AllLaidOut(m, t, f) && i < |f| && t.cls[i] != POLLINGPLACE
    requires forall j :: 0 <= j < |f| ==> NonNegative(m[MAG][j])
    ensures Value(m, |f|, MAG, i) == Sum(Values(m, |f|, MAG), f[i], Next(f, i))
  {
    assert LaidOutAt(m, t, f, i) && ClassOk(t, f, i);
    if i == 0 {
      var s := Values(m, |f|, MAG);
      assert Sum(s, 1, 2) == Sum(s, 1, 1) + s[1];
    } else {
      TotalIsSum(m, |f|, f[i], Next(f, i));
    }
  }

  // ---- from the buffers to the numbers ----

  ghost predicate ChainEq(m: Memory, f: seq<nat>, i: nat, start: nat, end: nat, len: nat, c: nat)
    requires Valid(f) && Shaped(m, FIELDS, |f|) && i < |f| && f[i] <= c < |f| && start < FIELDS && end < FIELDS &&
      len < FIELDS
  {
    At(m, Cell(end, c)) ==
      Add(if c == f[i] then At(m, Cell(start, i)) else At(m, Cell(end, c - 1)), At(m, Cell(len, c)))
  }

  /** Ends placed one after the other, each by its length. */
  lemma {:induction false} ChainEnds(m: Memory, f: seq<nat>, i: nat, start: nat, end: nat, len: nat, c: nat)
    requires Valid(f) && Shaped(m, FIELDS, |f|) && i < |f| && f[i] <= c < Next(f, i) && start < FIELDS &&
      end < FIELDS && len < FIELDS
    requires forall d :: f[i] <= d < Next(f, i) ==> ChainEq(m, f, i, start, end, len, d)
    ensures At(m, Cell(end, c)).Num? ==> At(m, Cell(start, i)).Num?
    ensures At(m, Cell(start, i)).Num? && (forall d :: f[i] <= d <= c ==> At(m, Cell(len, d)).Num?) ==>
      At(m, Cell(end, c)) == Num(At(m, Cell(start, i)).v + Sum(Values(m, |f|, len), f[i], c + 1))
    decreases c
  {
    assert ChainEq(m, f, i, start, end, len, c);
    var s := Values(m, |f|, len);
    assert Sum(s, f[i], c + 1) == Sum(s, f[i], c) + s[c];
    if c > f[i] {
      ChainEnds(m, f, i, start, end, len, c - 1);
    }
  }

  /** Child `c` is drawn iff its parent is and has a positive total, and then it is the slice it should be. */
  ghost predicate KidOk(m: Memory, t: Topology, f: seq<nat>, i: nat, c: nat)
    requires TreemapOk(t, f) && Shaped(m, FIELDS, |f|) && i < |f| && f[i] <= c < Next(f, i)
  {
    var s := RectsOf(m, |f|);
    && (s.drawn[c] <==> s.drawn[i] && s.mag[i] > 0.0)
    && (s.drawn[i] && s.mag[i] > 0.0 ==> Sliced(s, f, Horizontal(t.cls[i]), i, c))
  }

  lemma ColumnOk(m: Memory, t: Topology, f: seq<nat>, i: nat, c: nat)
    requires AllLaidOut(m, t, f) && i < |f| && f[i] <= c < Next(f, i) && Horizontal(t.cls[i])
    requires forall j :: 0 <= j < |f| ==> NonNegative(m[MAG][j])
    ensures KidOk(m, t, f, i, c)
  {
    assert LaidOutAt(m, t, f, i) && LaidOutAt(m, t, f, c) && CornerEq(m, |f|, c) && ColumnEq(m, f, i, c) &&
      ClassOk(t, f, i);
    forall d | f[i] <= d < Next(f, i) ensures ChainEq(m, f, i, X, RX, W, d) {
      assert ColumnEq(m, f, i, d);
    }
    ChainEnds(m, f, i, X, RX, W, c);
    assert At(m, Cell(MAG, i)) == m[MAG][i] && At(m, Cell(MAG, c)) == m[MAG][c];
    if At(m, Cell(W, i)).Num? && At(m, Cell(MAG, i)).v > 0.0 {
      forall d | f[i] <= d <= c ensures At(m, Cell(W, d)).Num? {
        assert ColumnEq(m, f, i, d) && At(m, Cell(MAG, d)) == m[MAG][d];
      }
    }
  }

  lemma RowOk(m: Memory, t: Topology, f: seq<nat>, i: nat, c: nat)
    requires AllLaidOut(m, t, f) && i < |f| && f[i] <= c < Next(f, i) && Inner(t.cls[i]) && !Horizontal(t.cls[i])
    requires forall j :: 0 <= j < |f| ==> NonNegative(m[MAG][j])
    ensures KidOk(m, t, f, i, c)
  {
    assert LaidOutAt(m, t, f, i) && LaidOutAt(m, t, f, c) && CornerEq(m, |f|, c) && RowEq(m, f, i, c) &&
      ClassOk(t, f, i);
    forall d | f[i] <= d < Next(f, i) ensures ChainEq(m, f, i, Y, BY, H, d) {
      assert RowEq(m, f, i, d);
    }
    ChainEnds(m, f, i, Y, BY, H, c);
    assert At(m, Cell(MAG, i)) == m[MAG][i] && At(m, Cell(MAG, c)) == m[MAG][c];
    if At(m, Cell(H, i)).Num? && At(m, Cell(MAG, i)).v > 0.0 {
      forall d | f[i] <= d <= c ensures At(m, Cell(H, d)).Num? {
        assert RowEq(m, f, i, d) && At(m, Cell(MAG, d)) == m[MAG][d];
      }
    }
  }

  lemma BuffersAreRects(m: Memory, t: Topology, f: seq<nat>)
    requires AllLaidOut(m, t, f)
    ensures RectsOk(RectsOf(m, |f|), t, f)
  {
    var s := RectsOf(m, |f|);
    MagnitudesAreNumbers(m, t, f, 0);
    RootChild(m, t, f);
    forall i | 0 <= i < |f| ensures RectAt(s, t, f, i) {
      assert At(m, Cell(MAG, i)) == m[MAG][i];
      if t.cls[i] != POLLINGPLACE { MagnitudeIsSum(m, t, f, i); }
      forall c | f[i] <= c < Next(f, i) && Inner(t.cls[i])
        ensures (s.drawn[c] <==> s.drawn[i] && s.mag[i] > 0.0)
        ensures s.drawn[i] && s.mag[i] > 0.0 ==> Sliced(s, f, Horizontal(t.cls[i]), i, c)
      {
        if Horizontal(t.cls[i]) { ColumnOk(m, t, f, i, c); } else { RowOk(m, t, f, i, c); }
      }
    }
  }

  lemma RootChild(m: Memory, t: Topology, f: seq<nat>)
    requires AllLaidOut(m, t, f) && forall j :: 0 <= j < |f| ==> NonNegative(m[MAG][j])
    ensures var s := RectsOf(m, |f|);
      s.drawn[1] && s.w[1] >= 0.0 && s.h[1] >= 0.0 && (s.mag[1] == 0.0 ==> s.h[1] == 0.0)
  {
    assert LaidOutAt(m, t, f, 0) && LaidOutAt(m, t, f, 1);
    assert At(m, Cell(MAG, 0)) == m[MAG][0];
    RootScaled(At(m, Cell(WIDTH, 0)), At(m, Cell(MAG, 0)));
    RootScaled(At(m, Cell(HEIGHT, 0)), At(m, Cell(MAG, 0)));
  }

  lemma RootScaled(extent: Num, mag: Num)
    requires NonNegative(extent) && NonNegative(mag)
    ensures NonNegative(Mul(extent, Div(mag, SCALE)))
    ensures mag.v == 0.0 ==> Mul(extent, Div(mag, SCALE)).v == 0.0
  {
    var share := mag.v / 63895164.0;
    assert share >= 0.0 && (mag.v == 0.0 ==> share == 0.0);
    assert extent.v * share >= 0.0;
  }
}
