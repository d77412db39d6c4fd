/** What each visit leaves behind, and what holds of all nodes after a whole pass. */
module PassEffects {
  import opened Layouts
  import opened LevelLaunch
  import opened Kernels

  // ---- programs ----

  ghost function Full(m: Memory, p: seq<Instr>, n: nat): (r: Memory)
    requires Shaped(m, FIELDS, n) && ProgramOk(p, FIELDS, n)
    ensures Shaped(r, FIELDS, n)
  {
    Exec(m, p, |p|, FIELDS, n)
  }

  /** A cell that no instruction from the j-th to before the k-th stores into stays as it is. */
  lemma {:induction false} Untouched(m: Memory, p: seq<Instr>, j: nat, k: nat, c: Cell, n: nat)
    requires Shaped(m, FIELDS, n) && ProgramOk(p, FIELDS, n) && j <= k <= |p| && CellOk(c, FIELDS, n)
    requires forall x :: j <= x < k ==> p[x].dst != c
    ensures At(Exec(m, p, k, FIELDS, n), c) == At(Exec(m, p, j, FIELDS, n), c)
    decreases k
  {
    if j < k {
      Untouched(m, p, j, k - 1, c, n);
      assert InstrOk(p[k - 1], FIELDS, n);
    }
  }

  /** No later instruction stores into what the k-th loads or stores into. */
  ghost predicate Settled(p: seq<Instr>, k: nat) {
    k < |p| && p[k].dst !in p[k].srcs && forall x :: k < x < |p| ==> Apart(p[k], p[x].dst)
  }

  predicate Apart(ins: Instr, c: Cell) {
    c != ins.dst && c !in ins.srcs
  }

  ghost predicate Holds(m: Memory, ins: Instr, n: nat) {
    Shaped(m, FIELDS, n) && InstrOk(ins, FIELDS, n) && At(m, ins.dst) == Eval(ins.op, Load(m, ins.srcs, FIELDS, n))
  }

  /** What a settled instruction stores is still right at the end. */
  lemma SettledHolds(m: Memory, p: seq<Instr>, k: nat, n: nat)
    requires Shaped(m, FIELDS, n) && ProgramOk(p, FIELDS, n) && Settled(p, k)
    ensures Holds(Full(m, p, n), p[k], n)
  {
    var ins, before, after, r := p[k], Exec(m, p, k, FIELDS, n), Exec(m, p, k + 1, FIELDS, n), Full(m, p, n);
    assert InstrOk(ins, FIELDS, n);
    forall x | k < x < |p| ensures p[x].dst != ins.dst {
      assert Apart(ins, p[x].dst);
    }
    Untouched(m, p, k + 1, |p|, ins.dst, n);
    forall x | 0 <= x < |ins.srcs| ensures Same(before, r, ins.srcs[x], FIELDS, n) {
      assert CellOk(ins.srcs[x], FIELDS, n) && ins.srcs[x] in ins.srcs;
      forall y | k <= y < |p| ensures p[y].dst != ins.srcs[x] {
        assert y > k ==> Apart(ins, p[y].dst);
      }
      Untouched(m, p, k, |p|, ins.srcs[x], n);
    }
    SameLoad(before, r, ins.srcs, FIELDS, n);
  }

  // ---- sums over children ----

  ghost function Total(s: seq<Num>, lo: nat, hi: nat): Num
    requires lo <= hi <= |s|
  {
    if lo == hi then Num(0.0) else Add(Total(s, lo, hi - 1), s[hi - 1])
  }

  lemma {:induction false} TotalSame(s: seq<Num>, s': seq<Num>, lo: nat, hi: nat)
    requires lo <= hi <= |s| && |s'| == |s| && forall x :: lo <= x < hi ==> s[x] == s'[x]
    ensures Total(s, lo, hi) == Total(s', lo, hi)
  {
    if lo < hi {
      TotalSame(s, s', lo, hi - 1);
    }
  }

  ghost predicate TurnAt(p: seq<Instr>, k: nat, f: seq<nat>, i: nat, acc: nat, src: nat, x: nat)
    requires i < |f|
  {
    k + x < |p| && p[k + x] == Adds(i, f[i] + x, acc, src)
  }

  /** After `d` turns of the summing loop. */
  lemma {:induction false} SumsUpTo(m: Memory, p: seq<Instr>, k: nat, f: seq<nat>, i: nat, acc: nat, src: nat, d: nat)
    requires Valid(f) && i < |f| && Shaped(m, FIELDS, |f|) && ProgramOk(p, FIELDS, |f|) && acc < FIELDS && src < FIELDS
    requires k + NumKids(f, i) <= |p| && d <= NumKids(f, i)
    requires forall x :: 0 <= x < NumKids(f, i) ==> TurnAt(p, k, f, i, acc, src, x)
    requires At(Exec(m, p, k, FIELDS, |f|), Cell(acc, i)) == Num(0.0)
    ensures At(Exec(m, p, k + d, FIELDS, |f|), Cell(acc, i)) == Total(Exec(m, p, k, FIELDS, |f|)[src], f[i], f[i] + d)
    ensures forall c :: CellOk(c, FIELDS, |f|) && c != Cell(acc, i) ==>
      At(Exec(m, p, k + d, FIELDS, |f|), c) == At(Exec(m, p, k, FIELDS, |f|), c)
    decreases d
  {
    if d > 0 {
      SumsUpTo(m, p, k, f, i, acc, src, d - 1);
      var c := f[i] + d - 1;
      assert TurnAt(p, k, f, i, acc, src, d - 1);
      assert InstrOk(p[k + d - 1], FIELDS, |f|);
      var a, b := Exec(m, p, k + d - 1, FIELDS, |f|), Exec(m, p, k, FIELDS, |f|);
      assert At(a, Cell(src, c)) == At(b, Cell(src, c)) == b[src][c];
    }
  }

  // ---- no visit of these stores into a cell it has already used ----

  ghost predicate AllSettled(p: seq<Instr>) {
    forall k :: 0 <= k < |p| ==> Settled(p, k)
  }

  ghost predicate AllHold(m: Memory, p: seq<Instr>, n: nat) {
    forall k :: 0 <= k < |p| ==> Holds(m, p[k], n)
  }

  lemma AllSettledHold(m: Memory, p: seq<Instr>, n: nat)
    requires Shaped(m, FIELDS, n) && ProgramOk(p, FIELDS, n) && AllSettled(p)
    ensures AllHold(Full(m, p, n), p, n)
  {
    forall k | 0 <= k < |p| ensures Holds(Full(m, p, n), p[k], n) {
      SettledHolds(m, p, k, n);
    }
  }

  ghost function HorizontalAt(f: seq<nat>, i: nat, k: nat): Instr
    requires Valid(f) && i < |f| && k < 3 + 4 * NumKids(f, i)
  {
    if k < 2 then Corner(i)[k]
    else if k < 2 + 3 * NumKids(f, i) then Column(i, f[i] + (k - 2) / 3, (k - 2) % 3)
    else if k == 2 + 3 * NumKids(f, i) then Instr(Cell(EDGE, i), [Cell(X, i)], Copy)
    else Ends(f, i, f[i] + k - 3 - 3 * NumKids(f, i), EDGE, RX, W)
  }

  lemma HorizontalIs(f: seq<nat>, i: nat, k: nat)
    requires Valid(f) && i < |f| && k < |Horizontal2(f, i)|
    ensures k < 3 + 4 * NumKids(f, i) && Horizontal2(f, i)[k] == HorizontalAt(f, i, k)
  {
  }

  lemma HorizontalApart(f: seq<nat>, i: nat, k: nat, x: nat)
    requires Valid(f) && i < |f| && k <= x < 3 + 4 * NumKids(f, i)
    ensures HorizontalAt(f, i, k).dst !in HorizontalAt(f, i, k).srcs
    ensures k < x ==> Apart(HorizontalAt(f, i, k), HorizontalAt(f, i, x).dst)
  {
  }

  ghost function VerticalAt(f: seq<nat>, i: nat, k: nat): Instr
    requires Valid(f) && i < |f| && k < 3 + 4 * NumKids(f, i)
  {
    if k < 2 then Corner(i)[k]
    else if k == 2 then Instr(Cell(EDGE, i), [Cell(Y, i)], Copy)
    else if k < 3 + 3 * NumKids(f, i) then Row(f, i, f[i] + (k - 3) / 3, (k - 3) % 3)
    else Instr(Cell(RX, f[i] + k - 3 - 3 * NumKids(f, i)), [Cell(X, i), Cell(W, i)], Plus)
  }

  lemma VerticalIs(f: seq<nat>, i: nat, k: nat)
    requires Valid(f) && i < |f| && k < |Vertical2(f, i)|
    ensures k < 3 + 4 * NumKids(f, i) && Vertical2(f, i)[k] == VerticalAt(f, i, k)
  {
  }

  lemma VerticalApart(f: seq<nat>, i: nat, k: nat, x: nat)
    requires Valid(f) && i < |f| && k <= x < 3 + 4 * NumKids(f, i)
    ensures VerticalAt(f, i, k).dst !in VerticalAt(f, i, k).srcs
    ensures k < x ==> Apart(VerticalAt(f, i, k), VerticalAt(f, i, x).dst)
  {
  }

  lemma HorizontalSettled(f: seq<nat>, i: nat)
    requires Valid(f) && i < |f|
    ensures AllSettled(Horizontal2(f, i))
  {
    var p := Horizontal2(f, i);
    forall k, x | 0 <= k <= x < |p| ensures PairApart(p, k, x) {
      HorizontalIs(f, i, k);
      HorizontalIs(f, i, x);
      HorizontalApart(f, i, k, x);
    }
    SettledAll(p);
  }

  lemma VerticalSettled(f: seq<nat>, i: nat)
    requires Valid(f) && i < |f|
    ensures AllSettled(Vertical2(f, i))
  {
    var p := Vertical2(f, i);
    forall k, x | 0 <= k <= x < |p| ensures PairApart(p, k, x) {
      VerticalIs(f, i, k);
      VerticalIs(f, i, x);
      VerticalApart(f, i, k, x);
    }
    SettledAll(p);
  }

  predicate PairApart(p: seq<Instr>, k: nat, x: nat)
    requires k <= x < |p|
  {
    p[k].dst !in p[k].srcs && (k < x ==> Apart(p[k], p[x].dst))
  }

  lemma SettledAll(p: seq<Instr>)
    requires forall k, x :: 0 <= k <= x < |p| ==> PairApart(p, k, x)
    ensures AllSettled(p)
  {
    forall k | 0 <= k < |p| ensures Settled(p, k) {
      assert PairApart(p, k, k);
      forall x | k < x < |p| ensures Apart(p[k], p[x].dst) { assert PairApart(p, k, x); }
    }
  }

  lemma Inner4Settled(f: seq<nat>, i: nat)
    requires Valid(f) && i < |f|
    ensures AllSettled(Inner4(f, i)) && AllSettled(Inner4(f, i)[..1])
  {
    var p := Inner4(f, i);
    forall k, x | 0 <= k <= x < |p| ensures PairApart(p, k, x) {
      assert k >= 2 ==> p[k] == Ends(f, i, f[i] + k - 2, LAST, RIGHT, SIZE);
      assert x >= 2 ==> p[x] == Ends(f, i, f[i] + x - 2, LAST, RIGHT, SIZE);
    }
    SettledAll(p);
    assert PairApart(p, 0, 0);
    SettledAll(p[..1]);
  }

  // ---- what holds at a node once its visit is done ----

  ghost predicate Done(pass: Pass, m: Memory, t: Topology, f: seq<nat>, i: nat)
    requires TreemapOk(t, f) && Shaped(m, FIELDS, |f|) && i < |f|
  {
    if pass == Pass1 && Inner(t.cls[i]) then
      At(m, Cell(MAG, i)) == Total(m[MAG], f[i], Next(f, i))
    else if pass == Pass3 && Inner(t.cls[i]) then
      At(m, Cell(SIZE, i)) == Add(Total(m[SIZE], f[i], Next(f, i)), At(m, Cell(SELF, i)))
    else
      AllHold(m, Visit(pass, f, t.cls[i], i), |f|)
  }

  /** The cells a visit stores into. */
  ghost predicate Writes(pass: Pass, f: seq<nat>, cls: nat, i: nat, c: Cell)
    requires Valid(f) && i < |f|
  {
    match pass
    case Pass1 =>
      || (c == Cell(MAG, i) && (cls == ROOT || Inner(cls)))
      || (cls == ROOT && (c == Cell(H, f[0]) || c == Cell(W, f[0])))
    case Pass2 =>
      || (c.node == i && (c.fld == X || c.fld == Y || c.fld == EDGE) && (Inner(cls) || cls == POLLINGPLACE))
      || (IsKid(f, i, c.node) && (c.fld == H || c.fld == W || c.fld == BY || c.fld == RX) && Inner(cls))
    case Pass3 =>
      || (c.node == i && (c.fld == SUM || c.fld == SIZE) && (cls == ROOT || Inner(cls)))
      || (cls == ROOT && (c == Cell(LASTDRAW, 0) || c == Cell(RIGHT, 0) || c == Cell(OFFSET, 0) ||
         c == Cell(RIGHT, f[0])))
    case Pass4 =>
      || (c.node == i && (c.fld == OFFSET || c.fld == LAST) && (Inner(cls) || cls == POLLINGPLACE))
      || (IsKid(f, i, c.node) && c.fld == RIGHT && Inner(cls))
  }

  lemma WritesOnly(pass: Pass, f: seq<nat>, cls: nat, i: nat, k: nat)
    requires Valid(f) && i < |f| && k < |Visit(pass, f, cls, i)| && (cls == ROOT ==> i == 0 && Next(f, 0) == 2)
    ensures Writes(pass, f, cls, i, Visit(pass, f, cls, i)[k].dst)
  {
    match pass
    case Pass1 => if Inner(cls) && k > 0 { SumsWithin(f, i, k - 1); }
    case Pass2 => WritesOnly2(f, cls, i, k);
    case Pass3 => if Inner(cls) && 1 <= k <= NumKids(f, i) { SumsWithin(f, i, k - 1); }
    case Pass4 => if k >= 2 { assert Inner4(f, i)[k] == Ends(f, i, f[i] + k - 2, LAST, RIGHT, SIZE); }
  }

  lemma WritesOnly2(f: seq<nat>, cls: nat, i: nat, k: nat)
    requires Valid(f) && i < |f| && k < |Visit(Pass2, f, cls, i)|
    ensures Writes(Pass2, f, cls, i, Visit(Pass2, f, cls, i)[k].dst)
  {
    if Horizontal(cls) {
      HorizontalIs(f, i, k);
    } else if Inner(cls) {
      VerticalIs(f, i, k);
    }
  }

  lemma SumsWithin(f: seq<nat>, i: nat, d: nat)
    requires Valid(f) && i < |f| && d < NumKids(f, i)
    ensures d + 1 < |Inner1(f, i)| && Sums(f, i, MAG, MAG)[d] == Inner1(f, i)[1 + d] == Adds(i, f[i] + d, MAG, MAG)
    ensures d + 1 < |Inner3(f, i)| && Sums(f, i, SUM, SIZE)[d] == Inner3(f, i)[1 + d] == Adds(i, f[i] + d, SUM, SIZE)
  {
  }

  lemma VisitKeeps(pass: Pass, m: Memory, t: Topology, f: seq<nat>, i: nat, c: Cell)
    requires TreemapOk(t, f) && Shaped(m, FIELDS, |f|) && i < |f| && CellOk(c, FIELDS, |f|)
    requires !Writes(pass, f, t.cls[i], i, c)
    ensures ProgramOk(Visit(pass, f, t.cls[i], i), FIELDS, |f|)
    ensures At(Full(m, Visit(pass, f, t.cls[i], i), |f|), c) == At(m, c)
  {
    VisitProgram(pass, t, f, i);
    var p := Visit(pass, f, t.cls[i], i);
    forall x | 0 <= x < |p| ensures p[x].dst != c {
      WritesOnly(pass, f, t.cls[i], i, x);
    }
    Untouched(m, p, 0, |p|, c, |f|);
  }

  lemma StartsAtZero(m: Memory, p: seq<Instr>, c: Cell, n: nat)
    requires Shaped(m, FIELDS, n) && ProgramOk(p, FIELDS, n) && p != [] && p[0] == Instr(c, [], Zero)
    ensures InstrOk(p[0], FIELDS, n) && At(Exec(m, p, 1, FIELDS, n), c) == Num(0.0)
  {
    assert Exec(m, p, 1, FIELDS, n) == Step(Exec(m, p, 0, FIELDS, n), p[0], FIELDS, n);
  }

  lemma SumDone1(m: Memory, f: seq<nat>, i: nat)
    requires Valid(f) && i < |f| && Shaped(m, FIELDS, |f|) && ProgramOk(Inner1(f, i), FIELDS, |f|)
    ensures var r := Full(m, Inner1(f, i), |f|); At(r, Cell(MAG, i)) == Total(r[MAG], f[i], Next(f, i))
  {
    var p, n := Inner1(f, i), |f|;
    var e, r := Exec(m, p, 1, FIELDS, n), Full(m, p, n);
    StartsAtZero(m, p, Cell(MAG, i), n);
    forall x | 0 <= x < NumKids(f, i) ensures TurnAt(p, 1, f, i, MAG, MAG, x) {
      SumsWithin(f, i, x);
    }
    SumsUpTo(m, p, 1, f, i, MAG, MAG, NumKids(f, i));
    forall x | f[i] <= x < Next(f, i) ensures e[MAG][x] == r[MAG][x] {
      assert At(r, Cell(MAG, x)) == At(e, Cell(MAG, x));
    }
    TotalSame(e[MAG], r[MAG], f[i], Next(f, i));
  }

  lemma SumDone3(m: Memory, f: seq<nat>, i: nat)
    requires Valid(f) && i < |f| && Shaped(m, FIELDS, |f|) && ProgramOk(Inner3(f, i), FIELDS, |f|)
    ensures var r := Full(m, Inner3(f, i), |f|);
      At(r, Cell(SIZE, i)) == Add(Total(r[SIZE], f[i], Next(f, i)), At(r, Cell(SELF, i)))
  {
    var p, n := Inner3(f, i), |f|;
    var k := 1 + NumKids(f, i);
    var e, a, r := Exec(m, p, 1, FIELDS, n), Exec(m, p, k, FIELDS, n), Full(m, p, n);
    StartsAtZero(m, p, Cell(SUM, i), n);
    forall x | 0 <= x < NumKids(f, i) ensures TurnAt(p, 1, f, i, SUM, SIZE, x) {
      SumsWithin(f, i, x);
    }
    SumsUpTo(m, p, 1, f, i, SUM, SIZE, NumKids(f, i));
    assert r == Step(a, p[k], FIELDS, n);
    forall x | f[i] <= x < Next(f, i) ensures e[SIZE][x] == r[SIZE][x] {
      assert At(r, Cell(SIZE, x)) == At(a, Cell(SIZE, x)) == At(e, Cell(SIZE, x));
    }
    TotalSame(e[SIZE], r[SIZE], f[i], Next(f, i));
  }

  /** Its visit makes it so. */
  lemma VisitDone(pass: Pass, m: Memory, t: Topology, f: seq<nat>, i: nat)
    requires TreemapOk(t, f) && Shaped(m, FIELDS, |f|) && i < |f|
    ensures ProgramOk(Visit(pass, f, t.cls[i], i), FIELDS, |f|)
    ensures Done(pass, Full(m, Visit(pass, f, t.cls[i], i), |f|), t, f, i)
  {
    VisitProgram(pass, t, f, i);
    var p := Visit(pass, f, t.cls[i], i);
    if pass == Pass1 && Inner(t.cls[i]) {
      SumDone1(m, f, i);
    } else if pass == Pass3 && Inner(t.cls[i]) {
      SumDone3(m, f, i);
    } else {
      VisitSettled(pass, f, t.cls[i], i);
      AllSettledHold(m, p, |f|);
    }
  }

  lemma VisitSettled(pass: Pass, f: seq<nat>, cls: nat, i: nat)
    requires Valid(f) && i < |f| && (Inner(cls) ==> pass != Pass1 && pass != Pass3)
    ensures AllSettled(Visit(pass, f, cls, i))
  {
    HorizontalSettled(f, i);
    VerticalSettled(f, i);
    Inner4Settled(f, i);
    assert forall k, x :: 0 <= k <= x < |Corner(i)| ==> PairApart(Corner(i), k, x);
    SettledAll(Corner(i));
    SettledAll(Root1(f));
    SettledAll(Root3(f));
  }

  // ---- later visits keep it ----

  predicate BottomUp(pass: Pass) {
    pass == Pass1 || pass == Pass3
  }

  /** The fields of its children that a visit loads or stores. */
  predicate KidField(pass: Pass, fld: nat) {
    match pass
    case Pass1 => fld == MAG || fld == H || fld == W
    case Pass2 => fld == MAG || fld == H || fld == W || fld == BY || fld == RX
    case Pass3 => fld == SIZE || fld == RIGHT
    case Pass4 => fld == SIZE || fld == RIGHT
  }

  predicate Uses(pass: Pass, f: seq<nat>, i: nat, c: Cell)
    requires i < |f|
  {
    c.node == i || (IsKid(f, i, c.node) && KidField(pass, c.fld))
  }

  lemma UsesOnly(pass: Pass, f: seq<nat>, cls: nat, i: nat, k: nat, c: Cell)
    requires Valid(f) && i < |f| && k < |Visit(pass, f, cls, i)| && (cls == ROOT ==> i == 0 && Next(f, 0) == 2)
    requires var ins := Visit(pass, f, cls, i)[k]; c == ins.dst || c in ins.srcs
    ensures Uses(pass, f, i, c)
  {
    match pass
    case Pass1 => if Inner(cls) && k > 0 { SumsWithin(f, i, k - 1); }
    case Pass2 => UsesOnly2(f, cls, i, k, c);
    case Pass3 => if Inner(cls) && 1 <= k <= NumKids(f, i) { SumsWithin(f, i, k - 1); }
    case Pass4 => if k >= 2 { assert Inner4(f, i)[k] == Ends(f, i, f[i] + k - 2, LAST, RIGHT, SIZE); }
  }

  lemma UsesOnly2(f: seq<nat>, cls: nat, i: nat, k: nat, c: Cell)
    requires Valid(f) && i < |f| && k < |Visit(Pass2, f, cls, i)|
    requires var ins := Visit(Pass2, f, cls, i)[k]; c == ins.dst || c in ins.srcs
    ensures Uses(Pass2, f, i, c)
  {
    if Horizontal(cls) {
      HorizontalUses(f, i, k, c);
    } else if Inner(cls) {
      VerticalUses(f, i, k, c);
    }
  }

  lemma HorizontalUses(f: seq<nat>, i: nat, k: nat, c: Cell)
    requires Valid(f) && i < |f| && k < |Horizontal2(f, i)|
    requires var ins := Horizontal2(f, i)[k]; c == ins.dst || c in ins.srcs
    ensures Uses(Pass2, f, i, c)
  {
    HorizontalIs(f, i, k);
  }

  lemma VerticalUses(f: seq<nat>, i: nat, k: nat, c: Cell)
    requires Valid(f) && i < |f| && k < |Vertical2(f, i)|
    requires var ins := Vertical2(f, i)[k]; c == ins.dst || c in ins.srcs
    ensures Uses(Pass2, f, i, c)
  {
    VerticalIs(f, i, k);
  }

  lemma VisitUses(pass: Pass, t: Topology, f: seq<nat>, i: nat, k: nat, c: Cell)
    requires TreemapOk(t, f) && i < |f| && k < |Visit(pass, f, t.cls[i], i)|
    requires var ins := Visit(pass, f, t.cls[i], i)[k]; c == ins.dst || c in ins.srcs
    requires BottomUp(pass) ==> !Inner(t.cls[i])
    ensures Uses(pass, f, i, c) && (t.cls[i] == ROOT || !BottomUp(pass) || c.node != i)
  {
    assert ClassOk(t, f, i);
    UsesOnly(pass, f, t.cls[i], i, k, c);
  }

  /** Visit `j` comes after visit `i`: bottom up, not a child of it; top down, to its right. */
  predicate After(pass: Pass, f: seq<nat>, i: nat, j: nat)
    requires i < |f|
  {
    if BottomUp(pass) then i != j && !IsKid(f, i, j) else i < j
  }

  lemma NoClash(pass: Pass, t: Topology, f: seq<nat>, i: nat, j: nat, c: Cell)
    requires TreemapOk(t, f) && i < |f| && j < |f| && After(pass, f, i, j) && Uses(pass, f, i, c)
    requires t.cls[i] == ROOT || !BottomUp(pass) || c.node != i || c.fld == MAG || c.fld == SIZE || c.fld == SELF
    ensures !Writes(pass, f, t.cls[j], j, c)
  {
    assert ClassOk(t, f, j) && ClassOk(t, f, i);
    if IsKid(f, i, c.node) { ParentUnique(f, i, c.node); }
    if IsKid(f, j, c.node) { ParentUnique(f, j, c.node); }
    match pass
    case Pass1 => assert c.node == f[0] ==> IsKid(f, 0, c.node);
    case Pass2 =>
    case Pass3 => assert c.node == f[0] ==> IsKid(f, 0, c.node);
    case Pass4 =>
  }

  lemma HoldsKept(m: Memory, r: Memory, ins: Instr, n: nat)
    requires Holds(m, ins, n) && Shaped(r, FIELDS, n)
    requires forall c :: CellOk(c, FIELDS, n) && (c == ins.dst || c in ins.srcs) ==> At(r, c) == At(m, c)
    ensures Holds(r, ins, n)
  {
    forall x | 0 <= x < |ins.srcs| ensures Same(m, r, ins.srcs[x], FIELDS, n) {
      assert CellOk(ins.srcs[x], FIELDS, n) && ins.srcs[x] in ins.srcs;
    }
    SameLoad(m, r, ins.srcs, FIELDS, n);
  }

  /** So a later visit leaves every cell that a visit uses. */
  lemma UsedKept(pass: Pass, m: Memory, t: Topology, f: seq<nat>, i: nat, j: nat, c: Cell)
    requires TreemapOk(t, f) && Shaped(m, FIELDS, |f|) && i < |f| && j < |f| && After(pass, f, i, j)
    requires CellOk(c, FIELDS, |f|) && Uses(pass, f, i, c)
    requires t.cls[i] == ROOT || !BottomUp(pass) || c.node != i || c.fld == MAG || c.fld == SIZE || c.fld == SELF
    ensures ProgramOk(Visit(pass, f, t.cls[j], j), FIELDS, |f|)
    ensures At(Full(m, Visit(pass, f, t.cls[j], j), |f|), c) == At(m, c)
  {
    NoClash(pass, t, f, i, j, c);
    VisitKeeps(pass, m, t, f, j, c);
  }

  lemma SumKept(pass: Pass, m: Memory, t: Topology, f: seq<nat>, i: nat, j: nat, fld: nat)
    requires TreemapOk(t, f) && Shaped(m, FIELDS, |f|) && i < |f| && j < |f| && After(pass, f, i, j)
    requires BottomUp(pass) && fld == if pass == Pass1 then MAG else SIZE
    ensures ProgramOk(Visit(pass, f, t.cls[j], j), FIELDS, |f|)
    ensures var r := Full(m, Visit(pass, f, t.cls[j], j), |f|);
      && Total(r[fld], f[i], Next(f, i)) == Total(m[fld], f[i], Next(f, i))
      && At(r, Cell(fld, i)) == At(m, Cell(fld, i)) && At(r, Cell(SELF, i)) == At(m, Cell(SELF, i))
  {
    VisitProgram(pass, t, f, j);
    var r := Full(m, Visit(pass, f, t.cls[j], j), |f|);
    forall x | f[i] <= x < Next(f, i) ensures r[fld][x] == m[fld][x] {
      UsedKept(pass, m, t, f, i, j, Cell(fld, x));
      assert At(r, Cell(fld, x)) == At(m, Cell(fld, x));
    }
    TotalSame(m[fld], r[fld], f[i], Next(f, i));
    UsedKept(pass, m, t, f, i, j, Cell(fld, i));
    UsedKept(pass, m, t, f, i, j, Cell(SELF, i));
  }

  lemma InstrKept(pass: Pass, m: Memory, t: Topology, f: seq<nat>, i: nat, j: nat, k: nat)
    requires TreemapOk(t, f) && Shaped(m, FIELDS, |f|) && i < |f| && j < |f| && After(pass, f, i, j)
    requires k < |Visit(pass, f, t.cls[i], i)| && Holds(m, Visit(pass, f, t.cls[i], i)[k], |f|)
    requires BottomUp(pass) ==> !Inner(t.cls[i])
    ensures ProgramOk(Visit(pass, f, t.cls[j], j), FIELDS, |f|)
    ensures Holds(Full(m, Visit(pass, f, t.cls[j], j), |f|), Visit(pass, f, t.cls[i], i)[k], |f|)
  {
    VisitProgram(pass, t, f, j);
    var r, ins := Full(m, Visit(pass, f, t.cls[j], j), |f|), Visit(pass, f, t.cls[i], i)[k];
    forall c | CellOk(c, FIELDS, |f|) && (c == ins.dst || c in ins.srcs) ensures At(r, c) == At(m, c) {
      VisitUses(pass, t, f, i, k, c);
      UsedKept(pass, m, t, f, i, j, c);
    }
    HoldsKept(m, r, ins, |f|);
  }

  lemma DoneKept(pass: Pass, m: Memory, t: Topology, f: seq<nat>, i: nat, j: nat)
    requires TreemapOk(t, f) && Shaped(m, FIELDS, |f|) && i < |f| && j < |f| && After(pass, f, i, j)
    requires Done(pass, m, t, f, i)
    ensures ProgramOk(Visit(pass, f, t.cls[j], j), FIELDS, |f|)
    ensures Done(pass, Full(m, Visit(pass, f, t.cls[j], j), |f|), t, f, i)
  {
    VisitProgram(pass, t, f, j);
    if BottomUp(pass) && Inner(t.cls[i]) {
      SumKept(pass, m, t, f, i, j, if pass == Pass1 then MAG else SIZE);
    } else {
      var r, p := Full(m, Visit(pass, f, t.cls[j], j), |f|), Visit(pass, f, t.cls[i], i);
      forall k | 0 <= k < |p| ensures Holds(r, p[k], |f|) {
        InstrKept(pass, m, t, f, i, j, k);
      }
    }
  }

  // ---- whole passes ----

  predicate Before(pass: Pass, lo: nat, hi: nat, i: nat) {
    if BottomUp(pass) then hi <= i else i < lo
  }

  /** What one more visit of a level does: its own node is done, and nodes done before stay so. */
  lemma TurnDone(pass: Pass, r: Memory, t: Topology, f: seq<nat>, j: nat, i: nat)
    requires TreemapOk(t, f) && Shaped(r, FIELDS, |f|) && i < |f| && j < |f|
    requires i == j || (After(pass, f, i, j) && Done(pass, r, t, f, i))
    ensures ProgramOk(Visit(pass, f, t.cls[j], j), FIELDS, |f|)
    ensures Done(pass, Full(r, Visit(pass, f, t.cls[j], j), |f|), t, f, i)
  {
    if i == j {
      VisitDone(pass, r, t, f, i);
    } else {
      DoneKept(pass, r, t, f, i, j);
    }
  }

  lemma LevelAfter(pass: Pass, f: seq<nat>, lo: nat, j: nat, hi: nat, i: nat)
    requires Valid(f) && lo <= j < hi <= |f| && f[lo] == hi && i < |f| && i != j
    requires lo <= i < j || Before(pass, lo, hi, i)
    ensures After(pass, f, i, j)
  {
  }

  /** Node `i` is done before the level, or once the loop over the level has passed it. */
  ghost function DoneSoFar(pass: Pass, t: Topology, f: seq<nat>, lo: nat, hi: nat, i: nat): (Memory, nat) -> bool
    requires TreemapOk(t, f) && i < |f|
  {
    (r: Memory, j: nat) => Shaped(r, FIELDS, |f|) && ((lo <= i && j <= i < hi) || Done(pass, r, t, f, i))
  }

  lemma VisitCarriesDone(pass: Pass, t: Topology, f: seq<nat>, lo: nat, hi: nat, j: nat, i: nat)
    requires TreemapOk(t, f) && KernelOk(KernelOf(pass, t, f), FIELDS, |f|)
    requires lo <= j < hi <= |f| && f[lo] == hi && i < |f| && (lo <= i < hi || Before(pass, lo, hi, i))
    ensures VisitCarries(KernelOf(pass, t, f), j, FIELDS, |f|, DoneSoFar(pass, t, f, lo, hi, i))
  {
    var kernel, inv := KernelOf(pass, t, f), DoneSoFar(pass, t, f, lo, hi, i);
    forall r: Memory | Shaped(r, FIELDS, |f|) && inv(r, j)
      ensures inv(Exec(r, kernel[j], |kernel[j]|, FIELDS, |f|), j + 1)
    {
      if i <= j || i >= hi || i < lo {
        if i != j { LevelAfter(pass, f, lo, j, hi, i); }
        TurnDone(pass, r, t, f, j, i);
      }
    }
  }

  /** A cell that no visit of the pass stores into. */
  ghost predicate NeverWrites(pass: Pass, t: Topology, f: seq<nat>, c: Cell)
    requires Valid(f) && |t.cls| == |f|
  {
    forall i :: 0 <= i < |f| ==> !Writes(pass, f, t.cls[i], i, c)
  }

  lemma TurnKeeps(pass: Pass, m: Memory, t: Topology, f: seq<nat>, j: nat, c: Cell)
    requires TreemapOk(t, f) && Shaped(m, FIELDS, |f|) && j < |f|
    requires CellOk(c, FIELDS, |f|) && NeverWrites(pass, t, f, c)
    ensures ProgramOk(Visit(pass, f, t.cls[j], j), FIELDS, |f|)
    ensures At(Full(m, Visit(pass, f, t.cls[j], j), |f|), c) == At(m, c)
  {
    assert !Writes(pass, f, t.cls[j], j, c);
    VisitKeeps(pass, m, t, f, j, c);
  }

  /** Cell `c` holds `v` throughout. */
  ghost function CellHolds(c: Cell, v: Num, n: nat): (Memory, nat) -> bool
    requires CellOk(c, FIELDS, n)
  {
    (r: Memory, k: nat) => Shaped(r, FIELDS, n) && At(r, c) == v
  }

  lemma VisitCarriesCell(pass: Pass, t: Topology, f: seq<nat>, j: nat, c: Cell, v: Num)
    requires TreemapOk(t, f) && KernelOk(KernelOf(pass, t, f), FIELDS, |f|) && j < |f|
    requires CellOk(c, FIELDS, |f|) && NeverWrites(pass, t, f, c)
    ensures VisitCarries(KernelOf(pass, t, f), j, FIELDS, |f|, CellHolds(c, v, |f|))
  {
    var kernel, inv := KernelOf(pass, t, f), CellHolds(c, v, |f|);
    forall r: Memory | Shaped(r, FIELDS, |f|) && inv(r, j)
      ensures inv(Exec(r, kernel[j], |kernel[j]|, FIELDS, |f|), j + 1)
    {
      TurnKeeps(pass, r, t, f, j, c);
    }
  }

  /** The order in which a pass takes the levels. */
  ghost function Order(pass: Pass, levels: seq<Level>): (r: seq<Level>)
    ensures |r| == |levels|
  {
    if BottomUp(pass) then Reversed(levels) else levels
  }

  /** The buffers after a pass. */
  ghost function AfterPass(pass: Pass, m: Memory, t: Topology, f: seq<nat>, levels: seq<Level>): (r: Memory)
    requires TreemapOk(t, f) && Shaped(m, FIELDS, |f|) && LevelsOk(f, levels)
    ensures Shaped(r, FIELDS, |f|)
  {
    KernelsLocal(pass, t, f);
    BothDirections(f, levels);
    Sequential(m, KernelOf(pass, t, f), Order(pass, levels), |levels|, FIELDS, |f|)
  }

  /** The nodes whose visits are over after `k` levels. */
  ghost predicate Visited(pass: Pass, levels: seq<Level>, n: nat, k: nat, i: nat)
    requires k <= |levels|
  {
    if BottomUp(pass) then (if k == 0 then n else levels[|levels| - k].start) <= i < n
    else i < if k == 0 then 0 else LevelEnd(levels, k - 1)
  }

  /** The k-th level taken: where it lies, and that it follows the levels taken before. */
  lemma LevelTaken(pass: Pass, f: seq<nat>, levels: seq<Level>, k: nat, i: nat) returns (lo: nat, hi: nat)
    requires Valid(f) && LevelsOk(f, levels) && 0 < k <= |levels| && i < |f|
    ensures Order(pass, levels)[k - 1].start == lo && LevelEnd(Order(pass, levels), k - 1) == hi
    ensures lo < hi <= |f| && f[lo] == hi
    ensures Visited(pass, levels, |f|, k, i) && !(lo <= i < hi) ==>
      Visited(pass, levels, |f|, k - 1, i) && Before(pass, lo, hi, i)
  {
    var l := if BottomUp(pass) then |levels| - k else k - 1;
    lo, hi := levels[l].start, LevelEnd(levels, l);
    ReversedAt(levels, k - 1);
    assert CutAt(levels, l, |f|) && ChildrenAfter(f, levels, l) && (l + 1 < |levels| ==> CutAt(levels, l + 1, |f|));
  }

  lemma PassSetUp(pass: Pass, t: Topology, f: seq<nat>, levels: seq<Level>)
    requires TreemapOk(t, f) && LevelsOk(f, levels)
    ensures KernelOk(KernelOf(pass, t, f), FIELDS, |f|)
    ensures Within(Order(pass, levels), |f|)
  {
    KernelsLocal(pass, t, f);
    BothDirections(f, levels);
  }

  /** Node `i` is done once its level has been taken. */
  ghost function DoneInTime(pass: Pass, t: Topology, f: seq<nat>, levels: seq<Level>, i: nat): (Memory, nat) -> bool
    requires TreemapOk(t, f) && i < |f|
  {
    (r: Memory, k: nat) =>
      Shaped(r, FIELDS, |f|) && (k <= |levels| && Visited(pass, levels, |f|, k, i) ==> Done(pass, r, t, f, i))
  }

  lemma LevelCarriesDone(pass: Pass, t: Topology, f: seq<nat>, levels: seq<Level>, order: seq<Level>, l: nat,
      lo: nat, hi: nat, i: nat)
    requires TreemapOk(t, f) && KernelOk(KernelOf(pass, t, f), FIELDS, |f|) && i < |f|
    requires l < |levels| == |order| && order[l].start == lo < hi == LevelEnd(order, l) <= |f| && f[lo] == hi
    requires Visited(pass, levels, |f|, l + 1, i)
    requires lo <= i < hi || (Visited(pass, levels, |f|, l, i) && Before(pass, lo, hi, i))
    ensures LevelCarries(KernelOf(pass, t, f), order, l, FIELDS, |f|, DoneInTime(pass, t, f, levels, i))
  {
    var kernel, inv, inner := KernelOf(pass, t, f), DoneInTime(pass, t, f, levels, i), DoneSoFar(pass, t, f, lo, hi, i);
    forall j | lo <= j < hi ensures VisitCarries(kernel, j, FIELDS, |f|, inner) {
      VisitCarriesDone(pass, t, f, lo, hi, j, i);
    }
    LevelRule(kernel, order, l, FIELDS, |f|, inv, inner);
  }

  lemma LevelBefore(pass: Pass, t: Topology, f: seq<nat>, levels: seq<Level>, order: seq<Level>, l: nat, i: nat)
    requires TreemapOk(t, f) && KernelOk(KernelOf(pass, t, f), FIELDS, |f|) && i < |f|
    requires l < |levels| == |order| && order[l].start <= LevelEnd(order, l) <= |f|
    requires !Visited(pass, levels, |f|, l + 1, i)
    ensures LevelCarries(KernelOf(pass, t, f), order, l, FIELDS, |f|, DoneInTime(pass, t, f, levels, i))
  {
  }

  /** After a whole pass every node is done. */
  lemma PassDone(pass: Pass, m: Memory, t: Topology, f: seq<nat>, levels: seq<Level>, i: nat)
    requires TreemapOk(t, f) && Shaped(m, FIELDS, |f|) && LevelsOk(f, levels) && i < |f|
    ensures Done(pass, AfterPass(pass, m, t, f, levels), t, f, i)
  {
    PassSetUp(pass, t, f, levels);
    var kernel, order, inv := KernelOf(pass, t, f), Order(pass, levels), DoneInTime(pass, t, f, levels, i);
    forall l | 0 <= l < |levels| ensures LevelCarries(kernel, order, l, FIELDS, |f|, inv) {
      var lo, hi := LevelTaken(pass, f, levels, l + 1, i);
      if Visited(pass, levels, |f|, l + 1, i) {
        LevelCarriesDone(pass, t, f, levels, order, l, lo, hi, i);
      } else {
        LevelBefore(pass, t, f, levels, order, l, i);
      }
    }
    LevelsRule(m, kernel, order, |levels|, FIELDS, |f|, inv);
    assert inv(AfterPass(pass, m, t, f, levels), |levels|) && Visited(pass, levels, |f|, |levels|, i);
  }

  lemma LevelCarriesCell(pass: Pass, t: Topology, f: seq<nat>, order: seq<Level>, l: nat, c: Cell, v: Num)
    requires TreemapOk(t, f) && KernelOk(KernelOf(pass, t, f), FIELDS, |f|)
    requires l < |order| && order[l].start <= LevelEnd(order, l) <= |f|
    requires CellOk(c, FIELDS, |f|) && NeverWrites(pass, t, f, c)
    ensures LevelCarries(KernelOf(pass, t, f), order, l, FIELDS, |f|, CellHolds(c, v, |f|))
  {
    var kernel, inv := KernelOf(pass, t, f), CellHolds(c, v, |f|);
    forall j | order[l].start <= j < LevelEnd(order, l) ensures VisitCarries(kernel, j, FIELDS, |f|, inv) {
      VisitCarriesCell(pass, t, f, j, c, v);
    }
    LevelRule(kernel, order, l, FIELDS, |f|, inv, inv);
  }

  /** A pass leaves what none of its visits stores into. */
  lemma PassKeeps(pass: Pass, m: Memory, t: Topology, f: seq<nat>, levels: seq<Level>, c: Cell)
    requires TreemapOk(t, f) && Shaped(m, FIELDS, |f|) && LevelsOk(f, levels)
    requires CellOk(c, FIELDS, |f|) && NeverWrites(pass, t, f, c)
    ensures At(AfterPass(pass, m, t, f, levels), c) == At(m, c)
  {
    PassSetUp(pass, t, f, levels);
    var kernel, order, inv := KernelOf(pass, t, f), Order(pass, levels), CellHolds(c, At(m, c), |f|);
    forall l | 0 <= l < |levels| ensures LevelCarries(kernel, order, l, FIELDS, |f|, inv) {
      var lo, hi := LevelTaken(pass, f, levels, l + 1, 0);
      LevelCarriesCell(pass, t, f, order, l, c, At(m, c));
    }
    LevelsRule(m, kernel, order, |levels|, FIELDS, |f|, inv);
    assert inv(AfterPass(pass, m, t, f, levels), |levels|);
  }

  /** Launching whole levels leaves the same buffers as the loops. */
  lemma LaunchedPass(pass: Pass, mems: seq<Memory>, t: Topology, f: seq<nat>, levels: seq<Level>)
    requires TreemapOk(t, f) && LevelsOk(f, levels)
    requires Launches(mems, KernelOf(pass, t, f), Order(pass, levels), FIELDS, |f|) && Shaped(mems[0], FIELDS, |f|)
    ensures mems[|levels|] == AfterPass(pass, mems[0], t, f, levels)
  {
    KernelsLocal(pass, t, f);
    BothDirections(f, levels);
    LaunchesRefineLoops(mems, KernelOf(pass, t, f), Order(pass, levels), f, |levels|, FIELDS, |f|);
  }
}
