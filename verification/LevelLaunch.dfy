/** Running a level's visits at the same time.

    A visit is a list of instructions, each of which loads some cells and stores into one. The CPU runs
    the visits of a level one after the other; the GPU runs them at once, so their instructions
    interleave in any way. */
module LevelLaunch {
  import opened Layouts

  /** A number as the kernels compute it, without rounding; dividing by zero gives NaN. */
  datatype Num = NaN | Num(v: real)

  function Add(a: Num, b: Num): Num {
    if a.Num? && b.Num? then Num(a.v + b.v) else NaN
  }

  function Sub(a: Num, b: Num): Num {
    if a.Num? && b.Num? then Num(a.v - b.v) else NaN
  }

  function Mul(a: Num, b: Num): Num {
    if a.Num? && b.Num? then Num(a.v * b.v) else NaN
  }

  function Div(a: Num, b: Num): Num {
    if a.Num? && b.Num? && b.v != 0.0 then Num(a.v / b.v) else NaN
  }

  /** The constant the root's total is divided by. */
  const SCALE := Num(63895164.0)

  /** What the kernels compute from what they load. */
  datatype Op = Zero | Copy | Plus | Minus | Share | Scale | RootWidth

  function Eval(op: Op, v: seq<Num>): Num {
    match op
    case Zero => Num(0.0)
    case Copy => if |v| == 1 then v[0] else NaN
    case Plus => if |v| == 2 then Add(v[0], v[1]) else NaN
    case Minus => if |v| == 2 then Sub(v[0], v[1]) else NaN
    case Share => if |v| == 3 then Mul(Div(v[0], v[1]), v[2]) else NaN
    case Scale => if |v| == 2 then Mul(v[0], Div(v[1], SCALE)) else NaN
    case RootWidth => if |v| == 3 then (if v[2] != Num(0.0) then v[1] else Mul(v[1], Div(v[0], SCALE))) else NaN
  }

  datatype Cell = Cell(fld: nat, node: nat)

  /** Stores into `dst` what `op` makes of the cells `srcs`. */
  datatype Instr = Instr(dst: Cell, srcs: seq<Cell>, op: Op)

  /** A row for each field, with an entry for each node. */
  type Memory = seq<seq<Num>>

  /** The visit of each node. */
  type Kernel = seq<seq<Instr>>

  ghost predicate Shaped(m: Memory, fields: nat, n: nat) {
    |m| == fields && forall f :: 0 <= f < fields ==> |m[f]| == n
  }

  predicate CellOk(c: Cell, fields: nat, n: nat) {
    c.fld < fields && c.node < n
  }

  ghost predicate InstrOk(ins: Instr, fields: nat, n: nat) {
    CellOk(ins.dst, fields, n) && forall k :: 0 <= k < |ins.srcs| ==> CellOk(ins.srcs[k], fields, n)
  }

  function At(m: Memory, c: Cell): Num
    requires c.fld < |m| && c.node < |m[c.fld]|
  {
    m[c.fld][c.node]
  }

  function Load(m: Memory, srcs: seq<Cell>, fields: nat, n: nat): (r: seq<Num>)
    requires Shaped(m, fields, n) && forall k :: 0 <= k < |srcs| ==> CellOk(srcs[k], fields, n)
  {
    seq(|srcs|, k requires 0 <= k < |srcs| => assert CellOk(srcs[k], fields, n); At(m, srcs[k]))
  }

  ghost function Step(m: Memory, ins: Instr, fields: nat, n: nat): (r: Memory)
    requires Shaped(m, fields, n) && InstrOk(ins, fields, n)
    ensures Shaped(r, fields, n)
  {
    m[ins.dst.fld := m[ins.dst.fld][ins.dst.node := Eval(ins.op, Load(m, ins.srcs, fields, n))]]
  }

  ghost predicate ProgramOk(p: seq<Instr>, fields: nat, n: nat) {
    forall k :: 0 <= k < |p| ==> InstrOk(p[k], fields, n)
  }

  ghost predicate KernelOk(kernel: Kernel, fields: nat, n: nat) {
    |kernel| == n && forall i :: 0 <= i < n ==> ProgramOk(kernel[i], fields, n)
  }

  /** The memory after the first `k` instructions of a program. */
  ghost function Exec(m: Memory, p: seq<Instr>, k: nat, fields: nat, n: nat): (r: Memory)
    requires Shaped(m, fields, n) && ProgramOk(p, fields, n) && k <= |p|
    ensures Shaped(r, fields, n)
  {
    if k == 0 then m else Step(Exec(m, p, k - 1, fields, n), p[k - 1], fields, n)
  }

  // ---- interleavings ----

  /** How often a visit has been scheduled. */
  ghost function Count(sched: seq<nat>, i: nat): nat {
    if sched == [] then 0
    else Count(sched[..|sched| - 1], i) + if sched[|sched| - 1] == i then 1 else 0
  }

  /** The schedule names visits of [lo, hi), none more often than it has instructions. */
  ghost predicate Partial(kernel: Kernel, lo: nat, hi: nat, sched: seq<nat>)
    requires hi <= |kernel|
  {
    sched == [] ||
    var i, before := sched[|sched| - 1], sched[..|sched| - 1];
    lo <= i < hi && Count(before, i) < |kernel[i]| && Partial(kernel, lo, hi, before)
  }

  ghost predicate Complete(kernel: Kernel, lo: nat, hi: nat, sched: seq<nat>)
    requires hi <= |kernel|
  {
    Partial(kernel, lo, hi, sched) && forall i :: lo <= i < hi ==> Count(sched, i) == |kernel[i]|
  }

  /** Each entry of the schedule lets one visit run its next instruction. */
  ghost function Interleaved(m: Memory, kernel: Kernel, lo: nat, hi: nat, sched: seq<nat>, fields: nat,
      n: nat): (r: Memory)
    requires Shaped(m, fields, n) && KernelOk(kernel, fields, n) && hi <= n && Partial(kernel, lo, hi, sched)
    ensures Shaped(r, fields, n)
  {
    if sched == [] then m else
      var i, before := sched[|sched| - 1], sched[..|sched| - 1];
      assert ProgramOk(kernel[i], fields, n);
      Step(Interleaved(m, kernel, lo, hi, before, fields, n), kernel[i][Count(before, i)], fields, n)
  }

  /** The visits of [lo, hi) one after the other. */
  ghost function InTurn(m: Memory, kernel: Kernel, lo: nat, hi: nat, fields: nat, n: nat): (r: Memory)
    requires Shaped(m, fields, n) && KernelOk(kernel, fields, n) && lo <= hi <= n
    ensures Shaped(r, fields, n)
    decreases hi
  {
    if lo == hi then m else
      assert ProgramOk(kernel[hi - 1], fields, n);
      Exec(InTurn(m, kernel, lo, hi - 1, fields, n), kernel[hi - 1], |kernel[hi - 1]|, fields, n)
  }

  // ---- no races ----

  /** Whose node `x` is. */
  function Of(owner: seq<int>, x: nat): int {
    if x < |owner| then owner[x] else -1
  }

  /** Visit `i` stores only into nodes it owns, and loads no node that another visit of [lo, hi) owns. */
  ghost predicate OwnsIt(ins: Instr, owner: seq<int>, lo: nat, hi: nat, i: nat) {
    Of(owner, ins.dst.node) == i && forall k :: 0 <= k < |ins.srcs| ==> MayLoad(ins.srcs[k], owner, lo, hi, i)
  }

  ghost predicate MayLoad(c: Cell, owner: seq<int>, lo: nat, hi: nat, i: nat) {
    Of(owner, c.node) == i || !(lo <= Of(owner, c.node) < hi)
  }

  ghost predicate VisitOwns(kernel: Kernel, owner: seq<int>, lo: nat, hi: nat, i: nat)
    requires i < |kernel|
  {
    forall k :: 0 <= k < |kernel[i]| ==> OwnsIt(kernel[i][k], owner, lo, hi, i)
  }

  ghost predicate RaceFree(kernel: Kernel, owner: seq<int>, lo: nat, hi: nat)
    requires hi <= |kernel|
  {
    forall i :: lo <= i < hi ==> VisitOwns(kernel, owner, lo, hi, i)
  }

  /** A visit changes only what it owns; and where two memories agree on what it may load, they agree
      after it on what it owns. */
  lemma {:induction false} ExecLocal(m: Memory, m': Memory, kernel: Kernel, owner: seq<int>,
                                              lo: nat, hi: nat, i: nat, k: nat, fields: nat, n: nat)
    requires Shaped(m, fields, n) && Shaped(m', fields, n) && i < |kernel| && ProgramOk(kernel[i], fields, n) &&
      k <= |kernel[i]|
    requires VisitOwns(kernel, owner, lo, hi, i)
    requires forall c :: CellOk(c, fields, n) && MayLoad(c, owner, lo, hi, i) ==> At(m, c) == At(m', c)
    ensures var r, r' := Exec(m, kernel[i], k, fields, n), Exec(m', kernel[i], k, fields, n);
      && (forall c :: CellOk(c, fields, n) && Of(owner, c.node) != i ==> At(r, c) == At(m, c))
      && (forall c :: CellOk(c, fields, n) && MayLoad(c, owner, lo, hi, i) ==> At(r, c) == At(r', c))
    decreases k
  {
    if k > 0 {
      ExecLocal(m, m', kernel, owner, lo, hi, i, k - 1, fields, n);
      var ins, r, r' := kernel[i][k - 1], Exec(m, kernel[i], k - 1, fields, n), Exec(m', kernel[i], k - 1, fields, n);
      assert OwnsIt(ins, owner, lo, hi, i);
      forall x | 0 <= x < |ins.srcs| ensures Same(r, r', ins.srcs[x], fields, n) {
        assert CellOk(ins.srcs[x], fields, n) && MayLoad(ins.srcs[x], owner, lo, hi, i);
      }
      SameLoad(r, r', ins.srcs, fields, n);
    }
  }

  ghost predicate Same(m: Memory, m': Memory, c: Cell, fields: nat, n: nat)
    requires Shaped(m, fields, n) && Shaped(m', fields, n)
  {
    CellOk(c, fields, n) && At(m, c) == At(m', c)
  }

  lemma SameLoad(m: Memory, m': Memory, srcs: seq<Cell>, fields: nat, n: nat)
    requires Shaped(m, fields, n) && Shaped(m', fields, n) && forall k :: 0 <= k < |srcs| ==> CellOk(srcs[k], fields, n)
    requires forall k :: 0 <= k < |srcs| ==> Same(m, m', srcs[k], fields, n)
    ensures Load(m, srcs, fields, n) == Load(m', srcs, fields, n)
  {
    forall k | 0 <= k < |srcs| ensures Load(m, srcs, fields, n)[k] == Load(m', srcs, fields, n)[k] {
      assert Same(m, m', srcs[k], fields, n);
    }
  }

  /** What cell `c` holds when each visit has run some of its instructions on its own. */
  ghost function Alone(m: Memory, kernel: Kernel, i: nat, k: nat, c: Cell, fields: nat, n: nat): Num
    requires Shaped(m, fields, n) && i < |kernel| && ProgramOk(kernel[i], fields, n) && k <= |kernel[i]| &&
      CellOk(c, fields, n)
  {
    At(Exec(m, kernel[i], k, fields, n), c)
  }

  lemma {:induction false} CountWithin(kernel: Kernel, lo: nat, hi: nat, sched: seq<nat>, i: nat)
    requires hi <= |kernel| && i < |kernel| && Partial(kernel, lo, hi, sched)
    ensures Count(sched, i) <= |kernel[i]|
    decreases |sched|
  {
    if sched != [] {
      CountWithin(kernel, lo, hi, sched[..|sched| - 1], i);
    }
  }

  /** At every moment each visit's nodes are as if it had run alone, and the others are unchanged. */
  lemma {:induction false} Projection(m: Memory, kernel: Kernel, owner: seq<int>, lo: nat, hi: nat,
                                               sched: seq<nat>, c: Cell, fields: nat, n: nat)
    requires Shaped(m, fields, n) && KernelOk(kernel, fields, n) && hi <= n && Partial(kernel, lo, hi, sched)
    requires RaceFree(kernel, owner, lo, hi) && CellOk(c, fields, n)
    ensures Projected(m, kernel, owner, lo, hi, sched, c, fields, n)
    decreases |sched|, 0
  {
    var i := Of(owner, c.node);
    if lo <= i < hi {
      CountWithin(kernel, lo, hi, sched, i);
      assert ProgramOk(kernel[i], fields, n);
    }
    if sched != [] {
      var t, before := sched[|sched| - 1], sched[..|sched| - 1];
      assert ProgramOk(kernel[t], fields, n);
      Projection(m, kernel, owner, lo, hi, before, c, fields, n);
      LoadProjected(m, kernel, owner, lo, hi, before, t, fields, n);
      var k := Count(before, t);
      var r, alone, ins := Interleaved(m, kernel, lo, hi, before, fields, n), Exec(m, kernel[t], k, fields, n),
        kernel[t][k];
      StepAgrees(r, alone, ins, c, fields, n);
      assert Interleaved(m, kernel, lo, hi, sched, fields, n) == Step(r, ins, fields, n);
      assert Exec(m, kernel[t], k + 1, fields, n) == Step(alone, ins, fields, n);
    }
  }

  /** An instruction that loads the same from two memories stores the same in them. */
  lemma StepAgrees(m: Memory, m': Memory, ins: Instr, c: Cell, fields: nat, n: nat)
    requires Shaped(m, fields, n) && Shaped(m', fields, n) && InstrOk(ins, fields, n) && CellOk(c, fields, n)
    requires Load(m, ins.srcs, fields, n) == Load(m', ins.srcs, fields, n)
    ensures At(m, c) == At(m', c) ==> At(Step(m, ins, fields, n), c) == At(Step(m', ins, fields, n), c)
    ensures c != ins.dst ==> At(Step(m, ins, fields, n), c) == At(m, c)
  {
  }

  ghost predicate Projected(m: Memory, kernel: Kernel, owner: seq<int>, lo: nat, hi: nat,
                                     sched: seq<nat>, c: Cell, fields: nat, n: nat)
    requires Shaped(m, fields, n) && KernelOk(kernel, fields, n) && hi <= n && Partial(kernel, lo, hi, sched)
    requires CellOk(c, fields, n)
  {
    var i, r := Of(owner, c.node), Interleaved(m, kernel, lo, hi, sched, fields, n);
    if lo <= i < hi then
      && Count(sched, i) <= |kernel[i]| && ProgramOk(kernel[i], fields, n)
      && At(r, c) == Alone(m, kernel, i, Count(sched, i), c, fields, n)
    else At(r, c) == At(m, c)
  }

  /** The next instruction of `t` loads what it would load if `t` had run alone. */
  lemma {:induction false} LoadProjected(m: Memory, kernel: Kernel, owner: seq<int>, lo: nat, hi: nat,
                                                  sched: seq<nat>, t: nat, fields: nat, n: nat)
    requires Shaped(m, fields, n) && KernelOk(kernel, fields, n) && hi <= n && Partial(kernel, lo, hi, sched)
    requires RaceFree(kernel, owner, lo, hi) && lo <= t < hi && Count(sched, t) < |kernel[t]|
    requires ProgramOk(kernel[t], fields, n)
    ensures var srcs := kernel[t][Count(sched, t)].srcs;
      InstrOk(kernel[t][Count(sched, t)], fields, n) && OwnsIt(kernel[t][Count(sched, t)], owner, lo, hi, t) &&
      Load(Interleaved(m, kernel, lo, hi, sched, fields, n), srcs, fields, n)
      == Load(Exec(m, kernel[t], Count(sched, t), fields, n), srcs, fields, n)
    decreases |sched|, 1
  {
    var k := Count(sched, t);
    var ins, alone := kernel[t][k], Exec(m, kernel[t], k, fields, n);
    assert VisitOwns(kernel, owner, lo, hi, t) && OwnsIt(ins, owner, lo, hi, t);
    ExecLocal(m, m, kernel, owner, lo, hi, t, k, fields, n);
    forall x | 0 <= x < |ins.srcs|
      ensures Same(Interleaved(m, kernel, lo, hi, sched, fields, n), alone, ins.srcs[x], fields, n)
    {
      assert CellOk(ins.srcs[x], fields, n);
      assert MayLoad(ins.srcs[x], owner, lo, hi, t);
      Projection(m, kernel, owner, lo, hi, sched, ins.srcs[x], fields, n);
    }
    SameLoad(Interleaved(m, kernel, lo, hi, sched, fields, n), alone, ins.srcs, fields, n);
  }

  /** After the visits before `hi` have run in turn, their nodes are as if each had run alone. */
  lemma {:induction false} InTurnProjection(m: Memory, kernel: Kernel, owner: seq<int>, lo: nat, mid: nat, hi: nat,
                                                     fields: nat, n: nat)
    requires Shaped(m, fields, n) && KernelOk(kernel, fields, n) && lo <= mid <= hi <= n &&
      RaceFree(kernel, owner, lo, hi)
    ensures forall c :: CellOk(c, fields, n) ==> TurnsProjected(m, kernel, owner, lo, mid, c, fields, n)
    decreases mid
  {
    if mid > lo {
      var t := mid - 1;
      InTurnProjection(m, kernel, owner, lo, t, hi, fields, n);
      var r := InTurn(m, kernel, lo, t, fields, n);
      assert ProgramOk(kernel[t], fields, n) && VisitOwns(kernel, owner, lo, hi, t);
      forall c | CellOk(c, fields, n) && MayLoad(c, owner, lo, hi, t) ensures At(r, c) == At(m, c) {
        assert TurnsProjected(m, kernel, owner, lo, t, c, fields, n);
      }
      ExecLocal(r, m, kernel, owner, lo, hi, t, |kernel[t]|, fields, n);
      forall c | CellOk(c, fields, n) ensures TurnsProjected(m, kernel, owner, lo, mid, c, fields, n) {
        assert TurnsProjected(m, kernel, owner, lo, t, c, fields, n);
      }
    }
  }

  ghost predicate TurnsProjected(m: Memory, kernel: Kernel, owner: seq<int>, lo: nat, mid: nat, c: Cell,
                                          fields: nat, n: nat)
    requires Shaped(m, fields, n) && KernelOk(kernel, fields, n) && lo <= mid <= n && CellOk(c, fields, n)
  {
    var i, r := Of(owner, c.node), InTurn(m, kernel, lo, mid, fields, n);
    if lo <= i < mid then
      ProgramOk(kernel[i], fields, n) && At(r, c) == Alone(m, kernel, i, |kernel[i]|, c, fields, n)
    else At(r, c) == At(m, c)
  }

  /** Without races every complete schedule of a level leaves what running the visits in turn leaves. */
  lemma ScheduleDoesNotMatter(m: Memory, kernel: Kernel, owner: seq<int>, lo: nat, hi: nat, sched: seq<nat>,
                                       fields: nat, n: nat)
    requires Shaped(m, fields, n) && KernelOk(kernel, fields, n) && lo <= hi <= n
    requires RaceFree(kernel, owner, lo, hi) && Complete(kernel, lo, hi, sched)
    ensures Interleaved(m, kernel, lo, hi, sched, fields, n) == InTurn(m, kernel, lo, hi, fields, n)
  {
    var r, r' := Interleaved(m, kernel, lo, hi, sched, fields, n), InTurn(m, kernel, lo, hi, fields, n);
    InTurnProjection(m, kernel, owner, lo, hi, hi, fields, n);
    forall f, j | 0 <= f < fields && 0 <= j < n ensures r[f][j] == r'[f][j] {
      var c := Cell(f, j);
      Projection(m, kernel, owner, lo, hi, sched, c, fields, n);
      assert TurnsProjected(m, kernel, owner, lo, hi, c, fields, n);
      assert At(r, c) == At(r', c);
    }
    SameRows(r, r', fields, n);
  }

  lemma SameRows(m: Memory, m': Memory, fields: nat, n: nat)
    requires Shaped(m, fields, n) && Shaped(m', fields, n)
    requires forall f, j :: 0 <= f < fields && 0 <= j < n ==> m[f][j] == m'[f][j]
    ensures m == m'
  {
    forall f | 0 <= f < fields ensures m[f] == m'[f] {
    }
  }

  // ---- traversals ----

  ghost predicate Within(order: seq<Level>, n: nat) {
    forall l :: 0 <= l < |order| ==> WithinAt(order, l, n)
  }

  ghost predicate WithinAt(order: seq<Level>, l: nat, n: nat) {
    l < |order| && LevelEnd(order, l) <= n
  }

  /** The loop over the first `k` levels of the given order, each level's visits in turn. */
  ghost function Sequential(m: Memory, kernel: Kernel, order: seq<Level>, k: nat, fields: nat, n: nat): (r: Memory)
    requires Shaped(m, fields, n) && KernelOk(kernel, fields, n) && Within(order, n) && k <= |order|
    ensures Shaped(r, fields, n)
  {
    if k == 0 then m else
      assert WithinAt(order, k - 1, n);
      InTurn(Sequential(m, kernel, order, k - 1, fields, n), kernel, order[k - 1].start, LevelEnd(order, k - 1),
        fields, n)
  }

  /** The visit of node `j` carries `inv` one node on. */
  ghost predicate VisitCarries(kernel: Kernel, j: nat, fields: nat, n: nat, inv: (Memory, nat) -> bool)
    requires j < |kernel| && ProgramOk(kernel[j], fields, n)
  {
    forall r: Memory {:trigger inv(r, j)} :: Shaped(r, fields, n) && inv(r, j) ==>
      inv(Exec(r, kernel[j], |kernel[j]|, fields, n), j + 1)
  }

  /** What every visit of a loop over nodes carries on holds at its end. */
  lemma {:induction false} LoopRule(
      m: Memory, kernel: Kernel, lo: nat, hi: nat, fields: nat, n: nat, inv: (Memory, nat) -> bool)
    requires Shaped(m, fields, n) && KernelOk(kernel, fields, n) && lo <= hi <= n && inv(m, lo)
    requires forall j :: lo <= j < hi ==> VisitCarries(kernel, j, fields, n, inv)
    ensures inv(InTurn(m, kernel, lo, hi, fields, n), hi)
    decreases hi
  {
    if lo < hi {
      LoopRule(m, kernel, lo, hi - 1, fields, n, inv);
      assert VisitCarries(kernel, hi - 1, fields, n, inv);
    }
  }

  /** The loop over level `l` carries `inv` one level on. */
  ghost predicate LevelCarries(
      kernel: Kernel, order: seq<Level>, l: nat, fields: nat, n: nat, inv: (Memory, nat) -> bool)
    requires KernelOk(kernel, fields, n)
  {
    && l < |order| && LevelEnd(order, l) <= n
    && forall r: Memory {:trigger inv(r, l)} :: Shaped(r, fields, n) && inv(r, l) ==>
      inv(InTurn(r, kernel, order[l].start, LevelEnd(order, l), fields, n), l + 1)
  }

  lemma LevelRule(kernel: Kernel, order: seq<Level>, l: nat, fields: nat, n: nat,
      inv: (Memory, nat) -> bool, inner: (Memory, nat) -> bool)
    requires KernelOk(kernel, fields, n) && l < |order| && order[l].start <= LevelEnd(order, l) <= n
    requires forall r: Memory {:trigger inv(r, l)} :: Shaped(r, fields, n) && inv(r, l) ==> inner(r, order[l].start)
    requires forall j :: order[l].start <= j < LevelEnd(order, l) ==> VisitCarries(kernel, j, fields, n, inner)
    requires forall r: Memory {:trigger inner(r, LevelEnd(order, l))} ::
      Shaped(r, fields, n) && inner(r, LevelEnd(order, l)) ==> inv(r, l + 1)
    ensures LevelCarries(kernel, order, l, fields, n, inv)
  {
    var lo, hi := order[l].start, LevelEnd(order, l);
    forall r: Memory | Shaped(r, fields, n) && inv(r, l) ensures inv(InTurn(r, kernel, lo, hi, fields, n), l + 1) {
      LoopRule(r, kernel, lo, hi, fields, n, inner);
    }
  }

  lemma {:induction false} LevelsRule(
      m: Memory, kernel: Kernel, order: seq<Level>, k: nat, fields: nat, n: nat, inv: (Memory, nat) -> bool)
    requires Shaped(m, fields, n) && KernelOk(kernel, fields, n) && Within(order, n) && k <= |order| && inv(m, 0)
    requires forall l :: 0 <= l < k ==> LevelCarries(kernel, order, l, fields, n, inv)
    ensures inv(Sequential(m, kernel, order, k, fields, n), k)
    decreases k
  {
    if k > 0 {
      LevelsRule(m, kernel, order, k - 1, fields, n, inv);
      assert WithinAt(order, k - 1, n) && LevelCarries(kernel, order, k - 1, fields, n, inv);
    }
  }

  /** The levels in the given order, each launched as a whole and waited for: `mems` are the memories in between. */
  ghost predicate Launches(mems: seq<Memory>, kernel: Kernel, order: seq<Level>, fields: nat, n: nat) {
    |mems| == |order| + 1 && forall l :: 0 <= l < |order| ==> LaunchAt(mems, kernel, order, l, fields, n)
  }

  ghost predicate LaunchAt(mems: seq<Memory>, kernel: Kernel, order: seq<Level>, l: nat, fields: nat, n: nat) {
    && WithinAt(order, l, n) && l + 1 < |mems| && Shaped(mems[l], fields, n) && KernelOk(kernel, fields, n)
    && exists sched ::
      && Complete(kernel, order[l].start, LevelEnd(order, l), sched)
      && mems[l + 1] == Interleaved(mems[l], kernel, order[l].start, LevelEnd(order, l), sched, fields, n)
  }

  /** A visit touches only its node and that node's children. */
  ghost predicate Local(kernel: Kernel, f: seq<nat>) {
    |kernel| == |f| && forall i :: 0 <= i < |f| ==> LocalVisit(kernel, f, i)
  }

  ghost predicate LocalVisit(kernel: Kernel, f: seq<nat>, i: nat)
    requires i < |f| && i < |kernel|
  {
    forall k :: 0 <= k < |kernel[i]| ==> LocalInstr(kernel[i][k], f, i)
  }

  ghost predicate LocalInstr(ins: Instr, f: seq<nat>, i: nat)
    requires i < |f|
  {
    Near(f, i, ins.dst.node) && forall k :: 0 <= k < |ins.srcs| ==> Near(f, i, ins.srcs[k].node)
  }

  predicate Near(f: seq<nat>, i: nat, x: nat)
    requires i < |f|
  {
    x == i || IsKid(f, i, x)
  }

  /** Within the level [lo, hi) a node belongs to its own visit, and a child to its parent's. */
  ghost function Owner(f: seq<nat>, lo: nat, hi: nat): (r: seq<int>)
    requires Valid(f)
    ensures |r| == |f|
  {
    seq(|f|, x requires 0 <= x < |f| =>
      if lo <= x < hi then x else if 0 < x && lo <= Parent(f, x) < hi then Parent(f, x) else -1)
  }

  lemma LocalIsRaceFree(kernel: Kernel, f: seq<nat>, lo: nat, hi: nat)
    requires Valid(f) && Local(kernel, f) && lo < hi <= |f| && f[lo] == hi
    ensures RaceFree(kernel, Owner(f, lo, hi), lo, hi)
  {
    var owner := Owner(f, lo, hi);
    forall i | lo <= i < hi ensures VisitOwns(kernel, owner, lo, hi, i) {
      forall x | Near(f, i, x) ensures Of(owner, x) == i {
        if x != i { ParentUnique(f, i, x); }
      }
      assert LocalVisit(kernel, f, i);
      forall k | 0 <= k < |kernel[i]| ensures OwnsIt(kernel[i][k], owner, lo, hi, i) {
        assert LocalInstr(kernel[i][k], f, i);
      }
    }
  }

  /** The order lists levels of the layout. */
  ghost predicate LevelsOf(f: seq<nat>, order: seq<Level>) {
    forall l :: 0 <= l < |order| ==> LevelOfLayout(f, order, l)
  }

  ghost predicate LevelOfLayout(f: seq<nat>, order: seq<Level>, l: nat) {
    l < |order| && order[l].length > 0 && LevelEnd(order, l) <= |f| && f[order[l].start] == LevelEnd(order, l)
  }

  /** Launching whole levels refines the loops: however the visits of each level interleave, the buffers are
      after each level as the sequential traversal leaves them. */
  lemma {:induction false} LaunchesRefineLoops(mems: seq<Memory>, kernel: Kernel, order: seq<Level>, f: seq<nat>,
                                                        k: nat, fields: nat, n: nat)
    requires Valid(f) && |f| == n && Local(kernel, f) && LevelsOf(f, order) && KernelOk(kernel, fields, n)
    requires Launches(mems, kernel, order, fields, n) && Shaped(mems[0], fields, n) && k <= |order|
    ensures Within(order, n) && mems[k] == Sequential(mems[0], kernel, order, k, fields, n)
    decreases k
  {
    forall l | 0 <= l < |order| ensures WithinAt(order, l, n) {
      assert LevelOfLayout(f, order, l);
    }
    if k > 0 {
      LaunchesRefineLoops(mems, kernel, order, f, k - 1, fields, n);
      assert LevelOfLayout(f, order, k - 1) && LaunchAt(mems, kernel, order, k - 1, fields, n);
      var lo, hi := order[k - 1].start, LevelEnd(order, k - 1);
      var sched :| Complete(kernel, lo, hi, sched) &&
        mems[k] == Interleaved(mems[k - 1], kernel, lo, hi, sched, fields, n);
      LocalIsRaceFree(kernel, f, lo, hi);
      ScheduleDoesNotMatter(mems[k - 1], kernel, Owner(f, lo, hi), lo, hi, sched, fields, n);
    }
  }

  /** Top down the levels come in order, bottom up in reverse. */
  ghost function Reversed(levels: seq<Level>): (r: seq<Level>)
    ensures |r| == |levels|
  {
    if levels == [] then [] else [levels[|levels| - 1]] + Reversed(levels[..|levels| - 1])
  }

  lemma {:induction false} ReversedAt(levels: seq<Level>, l: nat)
    requires l < |levels|
    ensures Reversed(levels)[l] == levels[|levels| - 1 - l]
  {
    if l > 0 {
      ReversedAt(levels[..|levels| - 1], l - 1);
    }
  }

  lemma BothDirections(f: seq<nat>, levels: seq<Level>)
    requires Valid(f) && LevelsOk(f, levels)
    ensures LevelsOf(f, levels) && LevelsOf(f, Reversed(levels))
    ensures Within(levels, |f|) && Within(Reversed(levels), |f|)
  {
    forall l | 0 <= l < |levels|
      ensures LevelOfLayout(f, levels, l) && LevelOfLayout(f, Reversed(levels), l)
      ensures WithinAt(levels, l, |f|) && WithinAt(Reversed(levels), l, |f|)
    {
      assert CutAt(levels, l, |f|) && ChildrenAfter(f, levels, l);
      var j := |levels| - 1 - l;
      assert CutAt(levels, j, |f|) && ChildrenAfter(f, levels, j);
      ReversedAt(levels, l);
    }
  }
}
