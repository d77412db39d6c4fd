/** The visit kernels and traversals on the buffers, one visit after the other. */
module Passes {
  import opened Layouts
  import opened LevelLaunch
  import opened Kernels

  class Fields {
    const cls: array<nat>
    const leftmost: array<int>
    const right: array<int>
    const buffer: array2<Num>
    const size: nat
    /** What the buffer holds. */
    ghost var memory: Memory

    constructor (cls: array<nat>, leftmost: array<int>, right: array<int>, buffer: array2<Num>)
      requires buffer.Length0 == FIELDS && buffer.Length1 == cls.Length == leftmost.Length == right.Length
      ensures this.cls == cls && this.leftmost == leftmost && this.right == right && this.buffer == buffer &&
        size == cls.Length
      ensures Synced()
    {
      this.cls, this.leftmost, this.right, this.buffer, size := cls, leftmost, right, buffer, cls.Length;
      memory := seq(FIELDS, r requires 0 <= r < FIELDS reads buffer =>
        seq(cls.Length, j requires 0 <= j < cls.Length reads buffer => buffer[r, j]));
    }

    ghost predicate Synced()
      reads this, buffer
    {
      && buffer.Length0 == FIELDS && buffer.Length1 == cls.Length == leftmost.Length == right.Length == size
      && Shaped(memory, FIELDS, size)
      && forall r, j :: 0 <= r < FIELDS && 0 <= j < size ==> memory[r][j] == buffer[r, j]
    }

    ghost function Links(): Topology
      reads cls, leftmost, right
    {
      Topology(cls[..], leftmost[..], right[..])
    }

    /** The buffer is what the first `k` instructions of the program `p` leave of the memory `m`. */
    ghost predicate Ran(m: Memory, p: seq<Instr>, k: nat)
      reads this, buffer
    {
      && Synced() && Shaped(m, FIELDS, size) && ProgramOk(p, FIELDS, size) && k <= |p|
      && memory == Exec(m, p, k, FIELDS, size)
    }

    lemma StartProgram(p: seq<Instr>)
      requires Synced() && ProgramOk(p, FIELDS, size)
      ensures Ran(memory, p, 0)
    {
    }

    method Store(fld: nat, node: nat, v: Num, ghost m: Memory, ghost p: seq<Instr>, ghost k: nat)
      requires Synced() && fld < FIELDS && node < size
      requires Ran(m, p, k) && k < |p|
      requires InstrOk(p[k], FIELDS, size) && p[k].dst == Cell(fld, node)
      requires v == Eval(p[k].op, Load(memory, p[k].srcs, FIELDS, size))
      modifies this`memory, buffer
      ensures Ran(m, p, k + 1)
    {
      buffer[fld, node] := v;
      memory := Step(memory, p[k], FIELDS, size);
    }

    /** Stores what `op` makes of one, two or three fields. */
    method Store1(op: Op, fld: nat, node: nat, a: nat, i: nat, ghost m: Memory, ghost p: seq<Instr>, ghost k: nat)
      requires Synced() && fld < FIELDS && node < size && a < FIELDS && i < size
      requires Ran(m, p, k) && k < |p| && p[k] == Instr(Cell(fld, node), [Cell(a, i)], op)
      modifies this`memory, buffer
      ensures Ran(m, p, k + 1)
    {
      assert InstrOk(p[k], FIELDS, size);
      Store(fld, node, Eval(op, [buffer[a, i]]), m, p, k);
    }

    method Store2(op: Op, fld: nat, node: nat, a: nat, i: nat, b: nat, j: nat, ghost m: Memory, ghost p: seq<Instr>,
        ghost k: nat)
      requires Synced() && fld < FIELDS && node < size && a < FIELDS && i < size && b < FIELDS && j < size
      requires Ran(m, p, k) && k < |p| && p[k] == Instr(Cell(fld, node), [Cell(a, i), Cell(b, j)], op)
      modifies this`memory, buffer
      ensures Ran(m, p, k + 1)
    {
      assert InstrOk(p[k], FIELDS, size);
      Store(fld, node, Eval(op, [buffer[a, i], buffer[b, j]]), m, p, k);
    }

    method Store3(op: Op, fld: nat, node: nat, a: nat, i: nat, b: nat, j: nat, c: nat, l: nat, ghost m: Memory,
        ghost p: seq<Instr>, ghost k: nat)
      requires Synced() && fld < FIELDS && node < size && a < FIELDS && i < size && b < FIELDS && j < size &&
        c < FIELDS && l < size
      requires Ran(m, p, k) && k < |p| && p[k] == Instr(Cell(fld, node), [Cell(a, i), Cell(b, j), Cell(c, l)], op)
      modifies this`memory, buffer
      ensures Ran(m, p, k + 1)
    {
      assert InstrOk(p[k], FIELDS, size);
      Store(fld, node, Eval(op, [buffer[a, i], buffer[b, j], buffer[c, l]]), m, p, k);
    }

    /** The first child, or 0. */
    method FirstOf(index: nat, ghost f: seq<nat>) returns (c: nat)
      requires Synced() && LinksOk(Links(), f) && index < size
      ensures Valid(f) && size == |f| && NumKids(f, index) >= 0 && c == KidAt(f, index, 0)
    {
      FirstChild(Links(), f, index);
      c := GetAbsoluteIndex(leftmost[index], index);
    }

    /** The child after the step-th, or 0. */
    method NextOf(index: nat, ghost step: nat, current: nat, ghost f: seq<nat>) returns (c: nat)
      requires Synced() && LinksOk(Links(), f) && index < size && current == KidAt(f, index, step) != 0
      ensures Valid(f) && size == |f| && step < NumKids(f, index) && current == f[index] + step < size
      ensures c == KidAt(f, index, step + 1)
    {
      NextChild(Links(), f, index, current);
      c := GetAbsoluteIndex(right[current], current);
    }

    /** Adds the step-th child's field, and goes on to the next child. */
    method AddChild(index: nat, acc: nat, src: nat, ghost step: nat, current: nat, ghost f: seq<nat>,
                    ghost m: Memory, ghost p: seq<Instr>, ghost k: nat) returns (next: nat)
      requires LinksOk(Links(), f) && index < size == |f| && acc < FIELDS && src < FIELDS
      requires current == KidAt(f, index, step) != 0
      requires Ran(m, p, k + step) && Contains(p, k, Sums(f, index, acc, src))
      modifies this`memory, buffer
      ensures step < NumKids(f, index) && next == KidAt(f, index, step + 1) && Ran(m, p, k + (step + 1))
    {
      next := NextOf(index, step, current, f);
      SumsAt(p, k, f, index, acc, src, step);
      Store2(Plus, acc, index, acc, index, src, current, m, p, k + step);
    }

    /** The loop that adds up a field of the children. */
    method SumChildren(index: nat, acc: nat, src: nat, ghost f: seq<nat>, ghost m: Memory, ghost p: seq<Instr>,
        ghost k: nat)
      requires Synced() && LinksOk(Links(), f) && index < size && acc < FIELDS && src < FIELDS
      requires Ran(m, p, k) && Contains(p, k, Sums(f, index, acc, src))
      modifies this`memory, buffer
      ensures Ran(m, p, k + NumKids(f, index))
    {
      var current := FirstOf(index, f);
      ghost var step := 0;
      while current != 0
        invariant 0 <= step <= NumKids(f, index) && current == KidAt(f, index, step)
        invariant Ran(m, p, k + step)
        decreases NumKids(f, index) - step
      {
        current := AddChild(index, acc, src, step, current, f, m, p, k);
        step := step + 1;
      }
    }

    /** A child's end, from the previous child's or, for the first, from the start. */
    method PlaceOne(index: nat, start: nat, end: nat, len: nat, step: nat, prev: nat, current: nat, ghost f: seq<nat>,
                    ghost m: Memory, ghost p: seq<Instr>, ghost k: nat)
      requires Synced() && index < size && size == |f| && start < FIELDS && end < FIELDS && len < FIELDS
      requires step > 0 && current == f[index] + step - 1 && current < size && (step > 1 ==> prev == current - 1)
      requires Ran(m, p, k) && k < |p| && p[k] == Ends(f, index, current, start, end, len)
      modifies this`memory, buffer
      ensures Ran(m, p, k + 1)
    {
      if step == 1 {
        Store2(Plus, end, current, start, index, len, current, m, p, k);
      } else {
        Store2(Plus, end, current, end, prev, len, current, m, p, k);
      }
    }

    method PlaceChild(index: nat, start: nat, end: nat, len: nat, step: nat, prev: nat, current: nat, ghost f: seq<nat>,
                      ghost m: Memory, ghost p: seq<Instr>, ghost k: nat)
      requires Synced() && index < size && start < FIELDS && end < FIELDS && len < FIELDS && Valid(f) && size == |f|
      requires 0 < step <= NumKids(f, index) && current == f[index] + step - 1 < size &&
        (step > 1 ==> prev == current - 1)
      requires Ran(m, p, k + step - 1) && Contains(p, k, Prefixes(f, index, start, end, len))
      modifies this`memory, buffer
      ensures Ran(m, p, k + step)
    {
      PrefixesAt(p, k, f, index, start, end, len, step - 1);
      PlaceOne(index, start, end, len, step, prev, current, f, m, p, k + step - 1);
    }

    /** The loop that places the children's ends one after the other. */
    method PlaceChildren(index: nat, start: nat, end: nat, len: nat, ghost f: seq<nat>, ghost m: Memory,
        ghost p: seq<Instr>, ghost k: nat)
      requires Synced() && LinksOk(Links(), f) && index < size && start < FIELDS && end < FIELDS && len < FIELDS
      requires Ran(m, p, k) && Contains(p, k, Prefixes(f, index, start, end, len))
      modifies this`memory, buffer
      ensures Ran(m, p, k + NumKids(f, index))
    {
      var current := FirstOf(index, f);
      var step, prev := 0, 0;
      while current != 0
        invariant 0 <= step <= NumKids(f, index) && current == KidAt(f, index, step)
        invariant prev == if step == 0 then 0 else f[index] + step - 1
        invariant Ran(m, p, k + step)
        decreases NumKids(f, index) - step
      {
        var next := NextOf(index, step, current, f);
        step := step + 1;
        PlaceChild(index, start, end, len, step, prev, current, f, m, p, k);
        prev, current := current, next;
      }
    }

    // ---- pass 1: totals ----

    method VisitRoot1(ghost f: seq<nat>)
      requires Synced() && TreemapOk(Links(), f) && ProgramOk(Root1(f), FIELDS, |f|)
      modifies this`memory, buffer
      ensures Ran(old(memory), Root1(f), |Root1(f)|)
    {
      ghost var m, p := memory, Root1(f);
      var child := FirstOf(0, f);
      Store1(Copy, MAG, 0, MAG, child, m, p, 0);
      Store2(Scale, H, child, HEIGHT, 0, MAG, 0, m, p, 1);
      Store3(RootWidth, W, child, MAG, 0, WIDTH, 0, FIXWIDTH, 0, m, p, 2);
    }

    method VisitInner1(index: nat, ghost f: seq<nat>)
      requires Synced() && LinksOk(Links(), f) && index < size && ProgramOk(Inner1(f, index), FIELDS, |f|)
      modifies this`memory, buffer
      ensures Ran(old(memory), Inner1(f, index), |Inner1(f, index)|)
    {
      ghost var m, p := memory, Inner1(f, index);
      Store(MAG, index, Num(0.0), m, p, 0);
      SumChildren(index, MAG, MAG, f, m, p, 1);
    }

    // ---- pass 2: rectangles ----

    method VisitCorner(index: nat, ghost m: Memory, ghost p: seq<Instr>)
      requires Synced() && index < size && Ran(m, p, 0) && Contains(p, 0, Corner(index))
      modifies this`memory, buffer
      ensures Ran(m, p, 2)
    {
      assert Corner(index)[0] == p[0] && Corner(index)[1] == p[1];
      Store2(Minus, X, index, RX, index, W, index, m, p, 0);
      Store2(Minus, Y, index, BY, index, H, index, m, p, 1);
    }

    method VisitColumn(index: nat, current: nat, ghost step: nat, ghost f: seq<nat>, ghost m: Memory,
        ghost p: seq<Instr>, ghost k: nat)
      requires Synced() && index < size && Valid(f) && size == |f|
      requires step < NumKids(f, index) && current == f[index] + step < size
      requires Ran(m, p, k + 3 * step) && Contains(p, k, Columns(f, index))
      modifies this`memory, buffer
      ensures Ran(m, p, k + 3 * (step + 1))
    {
      ColumnAt(p, k, f, index, step);
      ShareWidth(index, current, m, p, k + 3 * step);
    }

    method ShareWidth(index: nat, current: nat, ghost m: Memory, ghost p: seq<Instr>, ghost k: nat)
      requires Synced() && index < size && current < size && Ran(m, p, k) && k + 2 < |p|
      requires p[k] == Column(index, current, 0) && p[k + 1] == Column(index, current, 1)
      requires p[k + 2] == Column(index, current, 2)
      modifies this`memory, buffer
      ensures Ran(m, p, k + 3)
    {
      Store1(Copy, H, current, H, index, m, p, k);
      Store3(Share, W, current, MAG, current, MAG, index, W, index, m, p, k + 1);
      Store2(Plus, BY, current, Y, index, H, index, m, p, k + 2);
    }

    method VisitColumns(index: nat, ghost f: seq<nat>, ghost m: Memory, ghost p: seq<Instr>, ghost k: nat)
      requires Synced() && LinksOk(Links(), f) && index < size
      requires Ran(m, p, k) && Contains(p, k, Columns(f, index))
      modifies this`memory, buffer
      ensures Ran(m, p, k + 3 * NumKids(f, index))
    {
      var current := FirstOf(index, f);
      ghost var step := 0;
      while current != 0
        invariant 0 <= step <= NumKids(f, index) && current == KidAt(f, index, step)
        invariant Ran(m, p, k + 3 * step)
        decreases NumKids(f, index) - step
      {
        var next := NextOf(index, step, current, f);
        VisitColumn(index, current, step, f, m, p, k);
        step, current := step + 1, next;
      }
    }

    method VisitHorizontal2(index: nat, ghost f: seq<nat>)
      requires Synced() && LinksOk(Links(), f) && index < size && ProgramOk(Horizontal2(f, index), FIELDS, |f|)
      modifies this`memory, buffer
      ensures Ran(old(memory), Horizontal2(f, index), |Horizontal2(f, index)|)
    {
      StartProgram(Horizontal2(f, index));
      HorizontalRun(index, f, memory);
    }

    method HorizontalRun(index: nat, ghost f: seq<nat>, ghost m: Memory)
      requires Synced() && LinksOk(Links(), f) && index < size && Ran(m, Horizontal2(f, index), 0)
      modifies this`memory, buffer
      ensures Ran(m, Horizontal2(f, index), |Horizontal2(f, index)|)
    {
      HorizontalParts(f, index);
      HorizontalVisit(index, f, m, Horizontal2(f, index), 2 + 3 * NumKids(f, index));
    }

    method HorizontalVisit(index: nat, ghost f: seq<nat>, ghost m: Memory, ghost p: seq<Instr>, ghost k: nat)
      requires Synced() && LinksOk(Links(), f) && index < size && Ran(m, p, 0)
      requires k == 2 + 3 * NumKids(f, index) && IsHorizontal(p, f, index, k)
      modifies this`memory, buffer
      ensures Ran(m, p, |p|)
    {
      VisitCorner(index, m, p);
      VisitColumns(index, f, m, p, 2);
      PlaceColumns(index, f, m, p, k);
    }

    method PlaceColumns(index: nat, ghost f: seq<nat>, ghost m: Memory, ghost p: seq<Instr>, ghost k: nat)
      requires Synced() && LinksOk(Links(), f) && index < size
      requires Ran(m, p, k) && |p| == k + 1 + NumKids(f, index)
      requires p[k] == Instr(Cell(EDGE, index), [Cell(X, index)], Copy)
      requires Contains(p, k + 1, Prefixes(f, index, EDGE, RX, W))
      modifies this`memory, buffer
      ensures Ran(m, p, |p|)
    {
      Store1(Copy, EDGE, index, X, index, m, p, k);
      PlaceChildren(index, EDGE, RX, W, f, m, p, k + 1);
    }

    method VisitRow(index: nat, step: nat, prev: nat, current: nat, ghost f: seq<nat>, ghost m: Memory,
        ghost p: seq<Instr>, ghost k: nat)
      requires Synced() && index < size && Valid(f) && size == |f|
      requires 0 < step <= NumKids(f, index) && current == f[index] + step - 1 < size &&
        (step > 1 ==> prev == current - 1)
      requires Ran(m, p, k + 3 * (step - 1)) && Contains(p, k, Stack(f, index))
      modifies this`memory, buffer
      ensures Ran(m, p, k + 3 * step)
    {
      RowAt(p, k, f, index, step - 1);
      ShareHeight(index, step, prev, current, f, m, p, k + 3 * (step - 1));
    }

    method ShareHeight(index: nat, step: nat, prev: nat, current: nat, ghost f: seq<nat>, ghost m: Memory,
        ghost p: seq<Instr>, ghost k: nat)
      requires Synced() && index < size && size == |f| && step > 0
      requires current == f[index] + step - 1 < size && (step > 1 ==> prev == current - 1)
      requires Ran(m, p, k) && k + 2 < |p|
      requires p[k] == Row(f, index, current, 0) && p[k + 1] == Row(f, index, current, 1) &&
        p[k + 2] == Row(f, index, current, 2)
      modifies this`memory, buffer
      ensures Ran(m, p, k + 3)
    {
      Store3(Share, H, current, MAG, current, MAG, index, H, index, m, p, k);
      Store1(Copy, W, current, W, index, m, p, k + 1);
      PlaceOne(index, EDGE, BY, H, step, prev, current, f, m, p, k + 2);
    }

    method VisitStack(index: nat, ghost f: seq<nat>, ghost m: Memory, ghost p: seq<Instr>, ghost k: nat)
      requires Synced() && LinksOk(Links(), f) && index < size
      requires Ran(m, p, k) && Contains(p, k, Stack(f, index))
      modifies this`memory, buffer
      ensures Ran(m, p, k + 3 * NumKids(f, index))
    {
      var current := FirstOf(index, f);
      var step, prev := 0, 0;
      while current != 0
        invariant 0 <= step <= NumKids(f, index) && current == KidAt(f, index, step)
        invariant prev == if step == 0 then 0 else f[index] + step - 1
        invariant Ran(m, p, k + 3 * step)
        decreases NumKids(f, index) - step
      {
        var next := NextOf(index, step, current, f);
        step := step + 1;
        VisitRow(index, step, prev, current, f, m, p, k);
        prev, current := current, next;
      }
    }

    method VisitRight(index: nat, ghost step: nat, current: nat, ghost f: seq<nat>,
                      ghost m: Memory, ghost p: seq<Instr>, ghost k: nat) returns (next: nat)
      requires LinksOk(Links(), f) && index < size == |f| && current == KidAt(f, index, step) != 0
      requires Ran(m, p, k + step) && Contains(p, k, Rights(f, index))
      modifies this`memory, buffer
      ensures step < NumKids(f, index) && next == KidAt(f, index, step + 1) && Ran(m, p, k + (step + 1))
    {
      next := NextOf(index, step, current, f);
      RightAt(p, k, f, index, step);
      Store2(Plus, RX, current, X, index, W, index, m, p, k + step);
    }

    method VisitRights(index: nat, ghost f: seq<nat>, ghost m: Memory, ghost p: seq<Instr>, ghost k: nat)
      requires Synced() && LinksOk(Links(), f) && index < size
      requires Ran(m, p, k) && Contains(p, k, Rights(f, index))
      modifies this`memory, buffer
      ensures Ran(m, p, k + NumKids(f, index))
    {
      var current := FirstOf(index, f);
      ghost var step := 0;
      while current != 0
        invariant 0 <= step <= NumKids(f, index) && current == KidAt(f, index, step)
        invariant Ran(m, p, k + step)
        decreases NumKids(f, index) - step
      {
        current := VisitRight(index, step, current, f, m, p, k);
        step := step + 1;
      }
    }

    method VisitVertical2(index: nat, ghost f: seq<nat>)
      requires Synced() && LinksOk(Links(), f) && index < size && ProgramOk(Vertical2(f, index), FIELDS, |f|)
      modifies this`memory, buffer
      ensures Ran(old(memory), Vertical2(f, index), |Vertical2(f, index)|)
    {
      StartProgram(Vertical2(f, index));
      VerticalRun(index, f, memory);
    }

    method VerticalRun(index: nat, ghost f: seq<nat>, ghost m: Memory)
      requires Synced() && LinksOk(Links(), f) && index < size && Ran(m, Vertical2(f, index), 0)
      modifies this`memory, buffer
      ensures Ran(m, Vertical2(f, index), |Vertical2(f, index)|)
    {
      VerticalParts(f, index);
      VerticalVisit(index, f, m, Vertical2(f, index), 3 + 3 * NumKids(f, index));
    }

    method VerticalVisit(index: nat, ghost f: seq<nat>, ghost m: Memory, ghost p: seq<Instr>, ghost k: nat)
      requires Synced() && LinksOk(Links(), f) && index < size && Ran(m, p, 0)
      requires k == 3 + 3 * NumKids(f, index) && IsVertical(p, f, index, k)
      modifies this`memory, buffer
      ensures Ran(m, p, |p|)
    {
      VisitCorner(index, m, p);
      Store1(Copy, EDGE, index, Y, index, m, p, 2);
      VisitStack(index, f, m, p, 3);
      VisitRights(index, f, m, p, k);
    }

    // ---- pass 3: render sizes ----

    method VisitRoot3(ghost f: seq<nat>)
      requires Synced() && TreemapOk(Links(), f) && ProgramOk(Root3(f), FIELDS, |f|)
      modifies this`memory, buffer
      ensures Ran(old(memory), Root3(f), |Root3(f)|)
    {
      ghost var m, p := memory, Root3(f);
      var child := FirstOf(0, f);
      Store1(Copy, SUM, 0, SIZE, child, m, p, 0);
      Store2(Plus, SIZE, 0, SUM, 0, SELF, 0, m, p, 1);
      Store1(Copy, LASTDRAW, 0, SIZE, 0, m, p, 2);
      PlaceRoot(child, f, m);
    }

    method PlaceRoot(child: nat, ghost f: seq<nat>, ghost m: Memory)
      requires size > 0 && |f| == size && child == f[0] < size && Ran(m, Root3(f), 3)
      modifies this`memory, buffer
      ensures Ran(m, Root3(f), 6)
    {
      ghost var p := Root3(f);
      Store1(Copy, RIGHT, 0, SIZE, 0, m, p, 3);
      Store2(Minus, OFFSET, 0, RIGHT, 0, SIZE, 0, m, p, 4);
      Store2(Plus, RIGHT, child, OFFSET, 0, SIZE, child, m, p, 5);
    }

    method VisitInner3(index: nat, ghost f: seq<nat>)
      requires Synced() && LinksOk(Links(), f) && index < size && ProgramOk(Inner3(f, index), FIELDS, |f|)
      modifies this`memory, buffer
      ensures Ran(old(memory), Inner3(f, index), |Inner3(f, index)|)
    {
      ghost var m, p := memory, Inner3(f, index);
      Store(SUM, index, Num(0.0), m, p, 0);
      SumChildren(index, SUM, SIZE, f, m, p, 1);
      Store2(Plus, SIZE, index, SUM, index, SELF, index, m, p, 1 + NumKids(f, index));
    }

    // ---- pass 4: slots ----

    method VisitInner4(index: nat, ghost f: seq<nat>)
      requires Synced() && LinksOk(Links(), f) && index < size && ProgramOk(Inner4(f, index), FIELDS, |f|)
      modifies this`memory, buffer
      ensures Ran(old(memory), Inner4(f, index), |Inner4(f, index)|)
    {
      StartProgram(Inner4(f, index));
      Inner4Parts(f, index);
      Inner4Visit(index, f, memory, Inner4(f, index));
    }

    method Inner4Visit(index: nat, ghost f: seq<nat>, ghost m: Memory, ghost p: seq<Instr>)
      requires Synced() && LinksOk(Links(), f) && index < size && Ran(m, p, 0) && |p| >= 2
      requires p[0] == Instr(Cell(OFFSET, index), [Cell(RIGHT, index), Cell(SIZE, index)], Minus)
      requires p[1] == Instr(Cell(LAST, index), [Cell(OFFSET, index), Cell(SELF, index)], Plus)
      requires Contains(p, 2, Prefixes(f, index, LAST, RIGHT, SIZE))
      modifies this`memory, buffer
      ensures Ran(m, p, 2 + NumKids(f, index))
    {
      Store2(Minus, OFFSET, index, RIGHT, index, SIZE, index, m, p, 0);
      Store2(Plus, LAST, index, OFFSET, index, SELF, index, m, p, 1);
      PlaceChildren(index, LAST, RIGHT, SIZE, f, m, p, 2);
    }

    method VisitPollingplace4(index: nat, ghost f: seq<nat>)
      requires Synced() && Valid(f) && |f| == size && index < size && ProgramOk(Inner4(f, index)[..1], FIELDS, |f|)
      modifies this`memory, buffer
      ensures Ran(old(memory), Inner4(f, index)[..1], 1)
    {
      ghost var m, p := memory, Inner4(f, index)[..1];
      Store2(Minus, OFFSET, index, RIGHT, index, SIZE, index, m, p, 0);
    }

    // ---- dispatchers and traversals ----

    /** The dispatcher of a pass, by class token. */
    method VisitNode(pass: Pass, index: nat, ghost f: seq<nat>)
      requires Synced() && TreemapOk(Links(), f) && index < size
      modifies this`memory, buffer
      ensures Ran(old(memory), Visit(pass, f, cls[index], index), |Visit(pass, f, cls[index], index)|)
    {
      VisitProgram(pass, Links(), f, index);
      match pass
      case Pass1 =>
        if cls[index] == ROOT { VisitRoot1(f); }
        else if Inner(cls[index]) { VisitInner1(index, f); }
      case Pass2 =>
        if Horizontal(cls[index]) { VisitHorizontal2(index, f); }
        else if Inner(cls[index]) { VisitVertical2(index, f); }
        else if cls[index] == POLLINGPLACE { VisitCorner(index, memory, Corner(index)); }
      case Pass3 =>
        if cls[index] == ROOT { VisitRoot3(f); }
        else if Inner(cls[index]) { VisitInner3(index, f); }
      case Pass4 =>
        if Inner(cls[index]) { VisitInner4(index, f); }
        else if cls[index] == POLLINGPLACE { VisitPollingplace4(index, f); }
    }

    ghost predicate TurnsRan(m: Memory, pass: Pass, f: seq<nat>, start: nat, idx: nat)
      reads this, cls, leftmost, right, buffer
    {
      && Synced() && TreemapOk(Links(), f) && Shaped(m, FIELDS, size) && start <= idx <= size
      && KernelOk(KernelOf(pass, Links(), f), FIELDS, size)
      && memory == InTurn(m, KernelOf(pass, Links(), f), start, idx, FIELDS, size)
    }

    method VisitNext(pass: Pass, idx: nat, ghost m: Memory, ghost start: nat, ghost f: seq<nat>)
      requires Synced() && TurnsRan(m, pass, f, start, idx) && idx < size
      modifies this`memory, buffer
      ensures TurnsRan(m, pass, f, start, idx + 1)
    {
      VisitNode(pass, idx, f);
    }

    /** The inner loop of a traversal: one level. */
    method VisitLevel(pass: Pass, start: nat, end: nat, ghost f: seq<nat>)
      requires Synced() && TreemapOk(Links(), f) && start <= end <= size
      modifies this`memory, buffer
      ensures TurnsRan(old(memory), pass, f, start, end)
    {
      KernelsLocal(pass, Links(), f);
      for idx := start to end
        invariant TurnsRan(old(memory), pass, f, start, idx)
      {
        VisitNext(pass, idx, old(memory), start, f);
      }
    }

    /** The buffer is what the first `k` levels of the order leave of `m`. */
    ghost predicate LevelsRan(m: Memory, pass: Pass, f: seq<nat>, order: seq<Level>, k: nat)
      reads this, cls, leftmost, right, buffer
    {
      && Synced() && TreemapOk(Links(), f) && Shaped(m, FIELDS, size) && k <= |order| && Within(order, size)
      && KernelOk(KernelOf(pass, Links(), f), FIELDS, size)
      && memory == Sequential(m, KernelOf(pass, Links(), f), order, k, FIELDS, size)
    }

    method NextLevel(pass: Pass, level: Level, ghost m: Memory, ghost f: seq<nat>, ghost order: seq<Level>,
        ghost k: nat)
      requires Synced() && LevelsRan(m, pass, f, order, k) && k < |order| && order[k] == level
      requires level.start + level.length <= size
      modifies this`memory, buffer
      ensures LevelsRan(m, pass, f, order, k + 1)
    {
      VisitLevel(pass, level.start, level.start + level.length, f);
    }

    method TopDownTraversal(pass: Pass, levels: seq<Level>, ghost f: seq<nat>)
      requires Synced() && TreemapOk(Links(), f) && LevelsOk(f, levels)
      modifies this`memory, buffer
      ensures LevelsRan(old(memory), pass, f, levels, |levels|)
    {
      KernelsLocal(pass, Links(), f);
      BothDirections(f, levels);
      for i := 0 to |levels|
        invariant LevelsRan(old(memory), pass, f, levels, i)
      {
        assert WithinAt(levels, i, size);
        NextLevel(pass, levels[i], old(memory), f, levels, i);
      }
    }

    method BottomUpTraversal(pass: Pass, levels: seq<Level>, ghost f: seq<nat>)
      requires Synced() && TreemapOk(Links(), f) && LevelsOk(f, levels)
      modifies this`memory, buffer
      ensures LevelsRan(old(memory), pass, f, Reversed(levels), |levels|)
    {
      KernelsLocal(pass, Links(), f);
      BothDirections(f, levels);
      var i := |levels|;
      while i > 0
        invariant 0 <= i <= |levels|
        invariant LevelsRan(old(memory), pass, f, Reversed(levels), |levels| - i)
      {
        i := i - 1;
        assert WithinAt(levels, i, size);
        ReversedAt(levels, |levels| - i - 1);
        NextLevel(pass, levels[i], old(memory), f, Reversed(levels), |levels| - i - 1);
      }
    }
  }

  lemma ContainsParts(a: seq<Instr>, b: seq<Instr>, c: seq<Instr>, d: seq<Instr>)
    ensures var p := a + b + c + d;
      && Contains(p, 0, a) && Contains(p, |a|, b)
      && Contains(p, |a| + |b|, c) && Contains(p, |a| + |b| + |c|, d)
  {
  }

  lemma ContainsOne(p: seq<Instr>, k: nat, ins: Instr)
    requires Contains(p, k, [ins])
    ensures k < |p| && p[k] == ins
  {
    assert [ins][0] == p[k + 0];
  }

  ghost predicate IsHorizontal(p: seq<Instr>, f: seq<nat>, i: nat, k: nat)
    requires Valid(f) && i < |f|
  {
    && |p| == k + 1 + NumKids(f, i)
    && Contains(p, 0, Corner(i)) && Contains(p, 2, Columns(f, i))
    && p[k] == Instr(Cell(EDGE, i), [Cell(X, i)], Copy) && Contains(p, k + 1, Prefixes(f, i, EDGE, RX, W))
  }

  lemma HorizontalParts(f: seq<nat>, i: nat)
    requires Valid(f) && i < |f|
    ensures IsHorizontal(Horizontal2(f, i), f, i, 2 + 3 * NumKids(f, i))
  {
    var edge := Instr(Cell(EDGE, i), [Cell(X, i)], Copy);
    ContainsParts(Corner(i), Columns(f, i), [edge], Prefixes(f, i, EDGE, RX, W));
    ContainsOne(Horizontal2(f, i), 2 + 3 * NumKids(f, i), edge);
  }

  ghost predicate IsVertical(p: seq<Instr>, f: seq<nat>, i: nat, k: nat)
    requires Valid(f) && i < |f|
  {
    && |p| == k + NumKids(f, i) && k >= 3
    && Contains(p, 0, Corner(i)) && p[2] == Instr(Cell(EDGE, i), [Cell(Y, i)], Copy)
    && Contains(p, 3, Stack(f, i)) && Contains(p, k, Rights(f, i))
  }

  lemma VerticalParts(f: seq<nat>, i: nat)
    requires Valid(f) && i < |f|
    ensures IsVertical(Vertical2(f, i), f, i, 3 + 3 * NumKids(f, i))
  {
    var edge := Instr(Cell(EDGE, i), [Cell(Y, i)], Copy);
    ContainsParts(Corner(i), [edge], Stack(f, i), Rights(f, i));
    ContainsOne(Vertical2(f, i), 2, edge);
  }

  lemma Inner4Parts(f: seq<nat>, i: nat)
    requires Valid(f) && i < |f|
    ensures var p := Inner4(f, i);
      && |p| == 2 + NumKids(f, i)
      && p[0] == Instr(Cell(OFFSET, i), [Cell(RIGHT, i), Cell(SIZE, i)], Minus)
      && p[1] == Instr(Cell(LAST, i), [Cell(OFFSET, i), Cell(SELF, i)], Plus)
      && Contains(p, 2, Prefixes(f, i, LAST, RIGHT, SIZE))
  {
  }

  lemma ColumnAt(p: seq<Instr>, k: nat, f: seq<nat>, i: nat, d: nat)
    requires Valid(f) && i < |f| && Contains(p, k, Columns(f, i)) && d < NumKids(f, i)
    ensures k + 3 * d + 2 < |p|
    ensures p[k + 3 * d] == Column(i, f[i] + d, 0) && p[k + 3 * d + 1] == Column(i, f[i] + d, 1) &&
      p[k + 3 * d + 2] == Column(i, f[i] + d, 2)
  {
    var q := Columns(f, i);
    assert q[3 * d] == p[k + 3 * d] && q[3 * d + 1] == p[k + (3 * d + 1)] && q[3 * d + 2] == p[k + (3 * d + 2)];
  }

  lemma RowAt(p: seq<Instr>, k: nat, f: seq<nat>, i: nat, d: nat)
    requires Valid(f) && i < |f| && Contains(p, k, Stack(f, i)) && d < NumKids(f, i)
    ensures k + 3 * d + 2 < |p|
    ensures p[k + 3 * d] == Row(f, i, f[i] + d, 0) && p[k + 3 * d + 1] == Row(f, i, f[i] + d, 1) &&
      p[k + 3 * d + 2] == Row(f, i, f[i] + d, 2)
  {
    var q := Stack(f, i);
    assert q[3 * d] == p[k + 3 * d] && q[3 * d + 1] == p[k + (3 * d + 1)] && q[3 * d + 2] == p[k + (3 * d + 2)];
  }

  lemma RightAt(p: seq<Instr>, k: nat, f: seq<nat>, i: nat, d: nat)
    requires Valid(f) && i < |f| && Contains(p, k, Rights(f, i)) && d < NumKids(f, i)
    ensures k + d < |p| && p[k + d] == Instr(Cell(RX, f[i] + d), [Cell(X, i), Cell(W, i)], Plus)
  {
    assert Rights(f, i)[d] == p[k + d];
  }

  /** The program runs through `q` from its k-th instruction on. */
  ghost predicate Contains(p: seq<Instr>, k: nat, q: seq<Instr>) {
    k + |q| <= |p| && forall d :: 0 <= d < |q| ==> q[d] == p[k + d]
  }

  lemma SumsAt(p: seq<Instr>, k: nat, f: seq<nat>, i: nat, acc: nat, src: nat, d: nat)
    requires Valid(f) && i < |f| && Contains(p, k, Sums(f, i, acc, src)) && d < NumKids(f, i)
    ensures k + d < |p| && p[k + d] == Adds(i, f[i] + d, acc, src)
  {
    assert Sums(f, i, acc, src)[d] == p[k + d];
  }

  lemma PrefixesAt(p: seq<Instr>, k: nat, f: seq<nat>, i: nat, start: nat, end: nat, len: nat, d: nat)
    requires Valid(f) && i < |f| && Contains(p, k, Prefixes(f, i, start, end, len)) && d < NumKids(f, i)
    ensures k + d < |p| && p[k + d] == Ends(f, i, f[i] + d, start, end, len)
  {
    assert Prefixes(f, i, start, end, len)[d] == p[k + d];
  }

  /** The d-th child, or 0 after the last. */
  function KidAt(f: seq<nat>, i: nat, d: nat): nat
    requires i < |f|
  {
    if d < NumKids(f, i) then f[i] + d else 0
  }
}
