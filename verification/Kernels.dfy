/** What the generated visit kernels have in common: the links they follow and the buffer they write. */
module Kernels {
  import opened Layouts
  import opened LevelLaunch
  import Trees
  import Flattener

  const COUNTRYCONTAINER := 6
  const DISTRICT := 7
  const HSQUARE := 8
  const POLLINGPLACE := 10
  const REGION := 11
  const ROOT := 12
  const VSQUARE := 15

  predicate Inner(cls: nat) {
    cls == COUNTRYCONTAINER || cls == REGION || cls == DISTRICT || cls == VSQUARE || cls == HSQUARE
  }

  function GetAbsoluteIndex(rel: int, ref: nat): int {
    if rel == 0 then 0 else rel + ref
  }

  /** Class tokens, leftmost-child links and right-sibling links. */
  datatype Topology = Topology(cls: seq<nat>, leftmost: seq<int>, right: seq<int>)

  /** The links are those of the layout `f`: a node without children has link 0. */
  ghost predicate LinksOk(t: Topology, f: seq<nat>) {
    && Valid(f) && |t.cls| == |t.leftmost| == |t.right| == |f|
    && forall i :: 0 <= i < |f| ==> LinkedAt(t, f, i)
  }

  ghost predicate LinkedAt(t: Topology, f: seq<nat>, i: nat)
    requires |t.cls| == |t.leftmost| == |t.right| == |f|
  {
    && i < |f|
    && t.leftmost[i] == (if f[i] < Next(f, i) then f[i] - i else 0)
    && forall c :: f[i] <= c < Next(f, i) && c < |f| ==> t.right[c] == if c + 1 < Next(f, i) then 1 else 0
  }

  /** The tree a grammar of the treemap allows: one root with one child, polling places without children,
      and the five inner classes. */
  ghost predicate TreemapOk(t: Topology, f: seq<nat>) {
    && LinksOk(t, f) && |f| > 1 && Next(f, 0) == 2
    && forall i :: 0 <= i < |f| ==> ClassOk(t, f, i)
  }

  ghost predicate ClassOk(t: Topology, f: seq<nat>, i: nat)
    requires |t.cls| == |f|
  {
    && i < |f| && (t.cls[i] == ROOT <==> i == 0)
    && (i > 0 ==> Inner(t.cls[i]) || t.cls[i] == POLLINGPLACE)
    && (t.cls[i] == POLLINGPLACE ==> f[i] == Next(f, i))
  }

  // ---- from the flattened buffers ----

  const CHILDS := 5

  /** The leftmost-child link a kernel reads: the one in the row of its class's child field. */
  ghost function LeftmostOf(b: Flattener.Buffers, s: Trees.Schema, rows: nat, n: nat): (r: seq<int>)
    requires Flattener.Sized(b, rows, n) && Flattener.SchemaOk(s, rows)
    ensures |r| == n
  {
    seq(n, i requires 0 <= i < n =>
      if (b.displayname[i], CHILDS) in s then b.leftmost[s[(b.displayname[i], CHILDS)]][i] else 0)
  }

  ghost predicate OnlyChilds(node: Trees.Node) {
    Trees.NoEmptyArrays(node) && forall k :: 0 <= k < |node.children| ==> node.children[k].lbl == CHILDS
  }

  /** The buffers of every flattened tree whose nodes have a non-empty list of children or none give the
      kernels the links of its layout. */
  lemma FlattenedLinks(b: Flattener.Buffers, s: Trees.Schema, rows: nat, n: nat, data: Trees.Node,
                       order: seq<Trees.Node>, first: seq<nat>, levels: seq<Level>)
    requires Flattener.Flattened(b, s, rows, n, data, order, first, levels)
    requires forall i :: 0 <= i < n ==> OnlyChilds(order[i]) && Trees.DistinctLabels(order[i])
    ensures LinksOk(Topology(b.displayname, LeftmostOf(b, s, rows, n), b.rightSiblings), first)
  {
    var t := Topology(b.displayname, LeftmostOf(b, s, rows, n), b.rightSiblings);
    forall i | 0 <= i < n ensures LinkedAt(t, first, i) {
      var node, l := order[i], first[i];
      assert OnlyChilds(node) && Flattener.WrittenAt(b, s, rows, n, order, first, i) &&
        Flattener.LaidOutAt(order, first, i);
      NodeLinks(b, s, rows, n, i, node, l);
    }
  }

  lemma NodeLinks(b: Flattener.Buffers, s: Trees.Schema, rows: nat, n: nat, i: nat, node: Trees.Node, l: nat)
    requires Flattener.Sized(b, rows, n) && Flattener.SchemaOk(s, rows) && i < l
    requires Flattener.NodeWritten(b, s, rows, n, i, node, l) && OnlyChilds(node) && Trees.DistinctLabels(node)
    ensures LeftmostOf(b, s, rows, n)[i] == if Trees.Kids(node) != [] then l - i else 0
    ensures forall c :: l <= c < l + |Trees.Kids(node)| ==>
      b.rightSiblings[c] == if c + 1 < l + |Trees.Kids(node)| then 1 else 0
  {
    if node.children == [] {
      assert forall r :: !Flattener.RowUsed(s, node, 0, r);
    } else {
      assert node.children[0].lbl == node.children[|node.children| - 1].lbl;
      assert Flattener.LinkAt(b, s, rows, n, i, node, l, 0);
      assert node.children[1..] == [] && Trees.EdgeKids(node.children[1..]) == [];
      assert Trees.Kids(node) == Trees.Nodes(node.children[0].kid);
    }
  }

  /** What the grammar allows: a root with one child, and below it inner nodes and childless polling places. */
  ghost predicate GrammarOk(node: Trees.Node, root: bool) {
    && OnlyChilds(node) && Trees.DistinctLabels(node)
    && (if root then node.cls == ROOT && |Trees.Kids(node)| == 1 else Inner(node.cls) || node.cls == POLLINGPLACE)
    && (node.cls == POLLINGPLACE ==> Trees.Kids(node) == [])
  }

  /** The buffers of every flattened tree that the grammar allows are as the passes below require. */
  lemma FlattenedTreemap(b: Flattener.Buffers, s: Trees.Schema, rows: nat, n: nat, data: Trees.Node,
                         order: seq<Trees.Node>, first: seq<nat>, levels: seq<Level>)
    requires Flattener.Flattened(b, s, rows, n, data, order, first, levels)
    requires forall i :: 0 <= i < n ==> GrammarOk(order[i], i == 0)
    ensures TreemapOk(Topology(b.displayname, LeftmostOf(b, s, rows, n), b.rightSiblings), first)
  {
    var t := Topology(b.displayname, LeftmostOf(b, s, rows, n), b.rightSiblings);
    forall i | 0 <= i < n ensures OnlyChilds(order[i]) && Trees.DistinctLabels(order[i]) {
      assert GrammarOk(order[i], i == 0);
    }
    FlattenedLinks(b, s, rows, n, data, order, first, levels);
    forall i | 0 <= i < n ensures ClassOk(t, first, i) {
      assert GrammarOk(order[i], i == 0);
      assert Flattener.WrittenAt(b, s, rows, n, order, first, i) && Flattener.LaidOutAt(order, first, i);
    }
    assert GrammarOk(order[0], true) && Flattener.LaidOutAt(order, first, 0);
  }

  // ---- the rows of the buffers ----

  const MAG := 0       // totalmag
  const W := 1
  const H := 2
  const RX := 3        // right edge
  const BY := 4        // bottom edge
  const X := 5
  const Y := 6
  const EDGE := 7      // where the first child's rx or by starts
  const WIDTH := 8     // the root's inputs
  const HEIGHT := 9
  const FIXWIDTH := 10
  const SELF := 11     // selfrendersize
  const SUM := 12      // childsrendersize
  const SIZE := 13     // rendersize
  const LAST := 14     // where the first child's renderrightoffset starts
  const RIGHT := 15    // renderrightoffset
  const OFFSET := 16   // renderoffset
  const LASTDRAW := 17 // dorenderinglast, of the root
  const FIELDS := 18

  // ---- the instructions of the visits ----

  function NumKids(f: seq<nat>, i: nat): int
    requires i < |f|
  {
    Next(f, i) - f[i]
  }

  /** Adds the child's field to the node's. */
  function Adds(i: nat, c: nat, acc: nat, src: nat): Instr {
    Instr(Cell(acc, i), [Cell(acc, i), Cell(src, c)], Plus)
  }

  /** Where child `c` ends: its length after the previous child's end, or after `start` for the first. */
  function Ends(f: seq<nat>, i: nat, c: nat, start: nat, end: nat, len: nat): Instr
    requires i < |f|
  {
    Instr(Cell(end, c), [if c <= f[i] then Cell(start, i) else Cell(end, c - 1), Cell(len, c)], Plus)
  }

  ghost function Sums(f: seq<nat>, i: nat, acc: nat, src: nat): seq<Instr>
    requires Valid(f) && i < |f|
  {
    seq(NumKids(f, i), d requires 0 <= d < NumKids(f, i) => Adds(i, f[i] + d, acc, src))
  }

  ghost function Prefixes(f: seq<nat>, i: nat, start: nat, end: nat, len: nat): seq<Instr>
    requires Valid(f) && i < |f|
  {
    seq(NumKids(f, i), d requires 0 <= d < NumKids(f, i) => Ends(f, i, f[i] + d, start, end, len))
  }

  ghost function Root1(f: seq<nat>): seq<Instr>
    requires |f| > 0
  {
    [Instr(Cell(MAG, 0), [Cell(MAG, f[0])], Copy),
     Instr(Cell(H, f[0]), [Cell(HEIGHT, 0), Cell(MAG, 0)], Scale),
     Instr(Cell(W, f[0]), [Cell(MAG, 0), Cell(WIDTH, 0), Cell(FIXWIDTH, 0)], RootWidth)]
  }

  ghost function Inner1(f: seq<nat>, i: nat): seq<Instr>
    requires Valid(f) && i < |f|
  {
    [Instr(Cell(MAG, i), [], Zero)] + Sums(f, i, MAG, MAG)
  }

  ghost function Corner(i: nat): seq<Instr> {
    [Instr(Cell(X, i), [Cell(RX, i), Cell(W, i)], Minus), Instr(Cell(Y, i), [Cell(BY, i), Cell(H, i)], Minus)]
  }

  predicate Horizontal(cls: nat) {
    cls == DISTRICT || cls == HSQUARE || cls == COUNTRYCONTAINER
  }

  /** Side by side: the children share the width. */
  ghost function Column(i: nat, c: nat, r: int): Instr {
    if r == 0 then Instr(Cell(H, c), [Cell(H, i)], Copy)
    else if r == 1 then Instr(Cell(W, c), [Cell(MAG, c), Cell(MAG, i), Cell(W, i)], Share)
    else Instr(Cell(BY, c), [Cell(Y, i), Cell(H, i)], Plus)
  }

  ghost function Columns(f: seq<nat>, i: nat): seq<Instr>
    requires Valid(f) && i < |f|
  {
    seq(3 * NumKids(f, i), k requires 0 <= k < 3 * NumKids(f, i) => Column(i, f[i] + k / 3, k % 3))
  }

  ghost function Horizontal2(f: seq<nat>, i: nat): seq<Instr>
    requires Valid(f) && i < |f|
  {
    Corner(i) + Columns(f, i) + [Instr(Cell(EDGE, i), [Cell(X, i)], Copy)] + Prefixes(f, i, EDGE, RX, W)
  }

  /** On top of each other: the children share the height. */
  ghost function Row(f: seq<nat>, i: nat, c: nat, r: int): Instr
    requires i < |f|
  {
    if r == 0 then Instr(Cell(H, c), [Cell(MAG, c), Cell(MAG, i), Cell(H, i)], Share)
    else if r == 1 then Instr(Cell(W, c), [Cell(W, i)], Copy)
    else Ends(f, i, c, EDGE, BY, H)
  }

  ghost function Stack(f: seq<nat>, i: nat): seq<Instr>
    requires Valid(f) && i < |f|
  {
    seq(3 * NumKids(f, i), k requires 0 <= k < 3 * NumKids(f, i) => Row(f, i, f[i] + k / 3, k % 3))
  }

  ghost function Rights(f: seq<nat>, i: nat): seq<Instr>
    requires Valid(f) && i < |f|
  {
    seq(NumKids(f, i), d requires 0 <= d < NumKids(f, i) => Instr(Cell(RX, f[i] + d), [Cell(X, i), Cell(W, i)], Plus))
  }

  ghost function Vertical2(f: seq<nat>, i: nat): seq<Instr>
    requires Valid(f) && i < |f|
  {
    Corner(i) + [Instr(Cell(EDGE, i), [Cell(Y, i)], Copy)] + Stack(f, i) + Rights(f, i)
  }

  ghost function Root3(f: seq<nat>): seq<Instr>
    requires |f| > 0
  {
    [Instr(Cell(SUM, 0), [Cell(SIZE, f[0])], Copy),
     Instr(Cell(SIZE, 0), [Cell(SUM, 0), Cell(SELF, 0)], Plus),
     Instr(Cell(LASTDRAW, 0), [Cell(SIZE, 0)], Copy),
     Instr(Cell(RIGHT, 0), [Cell(SIZE, 0)], Copy),
     Instr(Cell(OFFSET, 0), [Cell(RIGHT, 0), Cell(SIZE, 0)], Minus),
     Instr(Cell(RIGHT, f[0]), [Cell(OFFSET, 0), Cell(SIZE, f[0])], Plus)]
  }

  ghost function Inner3(f: seq<nat>, i: nat): seq<Instr>
    requires Valid(f) && i < |f|
  {
    [Instr(Cell(SUM, i), [], Zero)] + Sums(f, i, SUM, SIZE)
      + [Instr(Cell(SIZE, i), [Cell(SUM, i), Cell(SELF, i)], Plus)]
  }

  ghost function Inner4(f: seq<nat>, i: nat): seq<Instr>
    requires Valid(f) && i < |f|
  {
    [Instr(Cell(OFFSET, i), [Cell(RIGHT, i), Cell(SIZE, i)], Minus),
     Instr(Cell(LAST, i), [Cell(OFFSET, i), Cell(SELF, i)], Plus)]
    + Prefixes(f, i, LAST, RIGHT, SIZE)
  }

  /** The visits of one pass, by class. */
  datatype Pass = Pass1 | Pass2 | Pass3 | Pass4

  ghost function Visit(pass: Pass, f: seq<nat>, cls: nat, i: nat): seq<Instr>
    requires Valid(f) && i < |f|
  {
    match pass
    case Pass1 => if cls == ROOT then Root1(f) else if Inner(cls) then Inner1(f, i) else []
    case Pass2 => if Horizontal(cls) then Horizontal2(f, i) else if Inner(cls) then Vertical2(f, i)
                  else if cls == POLLINGPLACE then Corner(i) else []
    case Pass3 => if cls == ROOT then Root3(f) else if Inner(cls) then Inner3(f, i) else []
    case Pass4 => if Inner(cls) then Inner4(f, i) else if cls == POLLINGPLACE then Inner4(f, i)[..1] else []
  }

  ghost function KernelOf(pass: Pass, t: Topology, f: seq<nat>): (k: Kernel)
    requires Valid(f) && |t.cls| == |f|
    ensures |k| == |f| && forall i :: 0 <= i < |f| ==> k[i] == Visit(pass, f, t.cls[i], i)
  {
    seq(|f|, i requires 0 <= i < |f| => Visit(pass, f, t.cls[i], i))
  }

  /** Within the buffers, and within its node and that node's children. */
  ghost predicate Good(ins: Instr, f: seq<nat>, i: nat) {
    i < |f| && InstrOk(ins, FIELDS, |f|) && LocalInstr(ins, f, i)
  }

  ghost predicate AllGood(p: seq<Instr>, f: seq<nat>, i: nat) {
    forall k :: 0 <= k < |p| ==> Good(p[k], f, i)
  }

  lemma AppendGood(p: seq<Instr>, q: seq<Instr>, f: seq<nat>, i: nat)
    requires AllGood(p, f, i) && AllGood(q, f, i)
    ensures AllGood(p + q, f, i)
  {
  }

  lemma LoopsGood(f: seq<nat>, i: nat, a: nat, b: nat, c: nat)
    requires Valid(f) && i < |f| && a < FIELDS && b < FIELDS && c < FIELDS
    ensures AllGood(Sums(f, i, a, b), f, i) && AllGood(Prefixes(f, i, a, b, c), f, i)
  {
    forall k | 0 <= k < NumKids(f, i) ensures Good(Sums(f, i, a, b)[k], f, i) &&
      Good(Prefixes(f, i, a, b, c)[k], f, i) {
      TurnGood(f, i, f[i] + k, a, b, c);
      assert Sums(f, i, a, b)[k] == Adds(i, f[i] + k, a, b) &&
        Prefixes(f, i, a, b, c)[k] == Ends(f, i, f[i] + k, a, b, c);
    }
  }

  lemma TurnGood(f: seq<nat>, i: nat, k: nat, a: nat, b: nat, c: nat)
    requires Valid(f) && i < |f| && IsKid(f, i, k) && a < FIELDS && b < FIELDS && c < FIELDS
    ensures Good(Adds(i, k, a, b), f, i) && Good(Ends(f, i, k, a, b, c), f, i)
  {
    assert k < |f| && Near(f, i, k);
  }

  lemma HorizontalGood(f: seq<nat>, i: nat)
    requires Valid(f) && i < |f|
    ensures AllGood(Horizontal2(f, i), f, i)
  {
    var p := Columns(f, i);
    forall k | 0 <= k < |p| ensures Good(p[k], f, i) {
      assert Near(f, i, f[i] + k / 3) && p[k] == Column(i, f[i] + k / 3, k % 3);
    }
    LoopsGood(f, i, EDGE, RX, W);
    var q := Corner(i) + p + [Instr(Cell(EDGE, i), [Cell(X, i)], Copy)];
    AppendGood(Corner(i), p, f, i);
    AppendGood(Corner(i) + p, [Instr(Cell(EDGE, i), [Cell(X, i)], Copy)], f, i);
    AppendGood(q, Prefixes(f, i, EDGE, RX, W), f, i);
  }

  lemma VerticalGood(f: seq<nat>, i: nat)
    requires Valid(f) && i < |f|
    ensures AllGood(Vertical2(f, i), f, i)
  {
    var p := Stack(f, i);
    forall k | 0 <= k < |p| ensures Good(p[k], f, i) {
      assert Near(f, i, f[i] + k / 3) && p[k] == Row(f, i, f[i] + k / 3, k % 3);
    }
    var r := Rights(f, i);
    forall k | 0 <= k < |r| ensures Good(r[k], f, i) {
      assert Near(f, i, f[i] + k);
    }
    var q := Corner(i) + [Instr(Cell(EDGE, i), [Cell(Y, i)], Copy)];
    AppendGood(q, p, f, i);
    AppendGood(q + p, r, f, i);
  }

  lemma Inner3Good(f: seq<nat>, i: nat)
    requires Valid(f) && i < |f|
    ensures AllGood(Inner3(f, i), f, i)
  {
    var p, q, r := [Instr(Cell(SUM, i), [], Zero)], Sums(f, i, SUM, SIZE),
      [Instr(Cell(SIZE, i), [Cell(SUM, i), Cell(SELF, i)], Plus)];
    LoopsGood(f, i, SUM, SIZE, 0);
    AppendGood(p, q, f, i);
    AppendGood(p + q, r, f, i);
  }

  lemma Inner4Good(f: seq<nat>, i: nat)
    requires Valid(f) && i < |f|
    ensures AllGood(Inner4(f, i), f, i) && AllGood(Inner4(f, i)[..1], f, i)
  {
    var p := [Instr(Cell(OFFSET, i), [Cell(RIGHT, i), Cell(SIZE, i)], Minus),
      Instr(Cell(LAST, i), [Cell(OFFSET, i), Cell(SELF, i)], Plus)];
    LoopsGood(f, i, LAST, RIGHT, SIZE);
    AppendGood(p, Prefixes(f, i, LAST, RIGHT, SIZE), f, i);
  }

  lemma Inner1Good(f: seq<nat>, i: nat)
    requires Valid(f) && i < |f|
    ensures AllGood(Inner1(f, i), f, i)
  {
    LoopsGood(f, i, MAG, MAG, 0);
    AppendGood([Instr(Cell(MAG, i), [], Zero)], Sums(f, i, MAG, MAG), f, i);
  }

  lemma RootGood(f: seq<nat>)
    requires Valid(f) && |f| > 0 && Next(f, 0) == 2
    ensures AllGood(Root1(f), f, 0) && AllGood(Root3(f), f, 0)
  {
  }

  lemma VisitGood(pass: Pass, f: seq<nat>, cls: nat, i: nat)
    requires Valid(f) && i < |f| && (cls == ROOT ==> i == 0 && Next(f, 0) == 2)
    ensures AllGood(Visit(pass, f, cls, i), f, i)
  {
    if cls == ROOT { RootGood(f); }
    Inner1Good(f, i);
    HorizontalGood(f, i);
    VerticalGood(f, i);
    Inner3Good(f, i);
    Inner4Good(f, i);
  }

  lemma VisitProgram(pass: Pass, t: Topology, f: seq<nat>, i: nat)
    requires TreemapOk(t, f) && i < |f|
    ensures ClassOk(t, f, i) && ProgramOk(Visit(pass, f, t.cls[i], i), FIELDS, |f|)
  {
    assert ClassOk(t, f, i);
    var p := Visit(pass, f, t.cls[i], i);
    VisitGood(pass, f, t.cls[i], i);
    forall k | 0 <= k < |p| ensures InstrOk(p[k], FIELDS, |f|) {
      assert Good(p[k], f, i);
    }
  }

  /** Every visit stays within the buffers and touches only its node and that node's children. */
  lemma KernelsLocal(pass: Pass, t: Topology, f: seq<nat>)
    requires TreemapOk(t, f)
    ensures KernelOk(KernelOf(pass, t, f), FIELDS, |f|) && Local(KernelOf(pass, t, f), f)
  {
    var kernel := KernelOf(pass, t, f);
    forall i | 0 <= i < |f| ensures ProgramOk(kernel[i], FIELDS, |f|) && LocalVisit(kernel, f, i) {
      assert ClassOk(t, f, i);
      VisitGood(pass, f, t.cls[i], i);
      forall k | 0 <= k < |kernel[i]| ensures InstrOk(kernel[i][k], FIELDS, |f|) && LocalInstr(kernel[i][k], f, i) {
        assert Good(kernel[i][k], f, i);
      }
    }
  }

  /** The first child, or 0. */
  lemma FirstChild(t: Topology, f: seq<nat>, i: nat)
    requires LinksOk(t, f) && i < |f|
    ensures GetAbsoluteIndex(t.leftmost[i], i) == if f[i] < Next(f, i) then f[i] else 0
    ensures i < f[i] <= Next(f, i) <= |f|
  {
    assert LinkedAt(t, f, i);
  }

  /** The next child, or 0. */
  lemma NextChild(t: Topology, f: seq<nat>, i: nat, c: nat)
    requires LinksOk(t, f) && i < |f| && IsKid(f, i, c) && c < |f|
    ensures GetAbsoluteIndex(t.right[c], c) == if c + 1 < Next(f, i) then c + 1 else 0
  {
    assert LinkedAt(t, f, i);
  }
}
