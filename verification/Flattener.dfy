/** Flattening a JSON tree into structure-of-arrays buffers, level by level. */
module Flattener {
  import opened Trees
  import opened Layouts

  /** 1 when the r-th child has a right sibling under the same label, else 0. */
  function RightOf(es: seq<Edge>, r: nat): int
    requires r < |EdgeKids(es)|
  {
    var n := |Nodes(es[0].kid)|;
    if r < n then (if r + 1 < n then 1 else 0) else RightOf(es[1..], r - n)
  }

  lemma {:induction false} RightOfAt(es: seq<Edge>, k: nat, r: nat)
    requires k < |es| && r < |Nodes(es[k].kid)|
    ensures Roll(es, k) + r < |EdgeKids(es)|
    ensures RightOf(es, Roll(es, k) + r) == if r + 1 < |Nodes(es[k].kid)| then 1 else 0
  {
    RollStep(es, k);
    if k > 0 {
      RightOfAt(es[1..], k - 1, r);
      RollShift(es, k);
    }
  }

  lemma RightOfEdge(es: seq<Edge>, k: nat)
    requires k < |es|
    ensures Roll(es, k + 1) <= |EdgeKids(es)|
    ensures forall r :: Roll(es, k) <= r < Roll(es, k + 1) ==>
      RightOf(es, r) == if r + 1 < Roll(es, k + 1) then 1 else 0
  {
    RollStep(es, k);
    forall r | Roll(es, k) <= r < Roll(es, k + 1)
      ensures RightOf(es, r) == if r + 1 < Roll(es, k + 1) then 1 else 0
    {
      RightOfAt(es, k, r - Roll(es, k));
    }
  }

  ghost function Declared(s: Schema): Node -> bool {
    n => DeclaredHere(n, s)
  }

  /** `order` lists the tree's nodes so that the children of node j fill [first[j], Next(first, j)). */
  ghost predicate LaidOut(order: seq<Node>, first: seq<nat>) {
    && Valid(first) && |order| == |first|
    && forall j :: 0 <= j < |order| ==> LaidOutAt(order, first, j)
  }

  ghost predicate LaidOutAt(order: seq<Node>, first: seq<nat>, j: nat) {
    j < |order| && j < |first| && KidsAt(order, j, first[j], Next(first, j))
  }

  ghost predicate KidsAt(order: seq<Node>, j: nat, lo: nat, hi: nat) {
    j < |order| && hi == lo + |Kids(order[j])| && PlacedAt(order, lo, Kids(order[j]))
  }

  /** `order` lists the nodes `ns` from index `lo` on. */
  ghost predicate PlacedAt(order: seq<Node>, lo: nat, ns: seq<Node>) {
    lo + |ns| <= |order| && forall i :: lo <= i < lo + |ns| ==> order[i] == ns[i - lo]
  }

  /** A property of every listed node holds throughout the tree below any listed node. */
  lemma {:induction false} ListedEverywhere(order: seq<Node>, first: seq<nat>, p: Node -> bool, j: nat)
    requires LaidOut(order, first) && j < |order|
    requires forall i :: 0 <= i < |order| ==> p(order[i])
    ensures Everywhere(order[j], p)
    decreases |order| - j
  {
    assert LaidOutAt(order, first, j);
    forall r | 0 <= r < |Kids(order[j])| ensures Everywhere(Kids(order[j])[r], p) {
      ListedEverywhere(order, first, p, first[j] + r);
      assert order[first[j] + r] == Kids(order[j])[r];
    }
    EverywhereKids(order[j], p);
  }

  /** A snapshot of the buffers of a flattened tree. */
  datatype Buffers = Buffers(
    displayname: seq<nat>, id: seq<nat>,
    parent: seq<int>, leftSiblings: seq<int>, rightSiblings: seq<int>,
    leftmost: seq<seq<int>>,
    tokens: seq<string>)

  ghost predicate Sized(b: Buffers, rows: nat, n: nat) {
    && |b.displayname| == |b.id| == |b.parent| == |b.leftSiblings| == |b.rightSiblings| == n
    && |b.leftmost| == rows && (forall r :: 0 <= r < rows ==> |b.leftmost[r]| == n)
  }

  /** Rows are within the buffer, and different child fields have different rows. */
  ghost predicate SchemaOk(s: Schema, rows: nat) {
    && (forall f :: f in s ==> s[f] < rows)
    && (forall f, g :: f in s && g in s && s[f] == s[g] ==> f == g)
  }

  /** The buffer row of the i-th edge's label, or -1 if the grammar does not declare it. */
  function RowOf(s: Schema, node: Node, i: nat): int
    requires i < |node.children|
  {
    var f := (node.cls, node.children[i].lbl);
    if f in s then s[f] else -1
  }

  ghost predicate LinkAt(b: Buffers, s: Schema, rows: nat, n: nat, j: nat, node: Node, l: nat, i: nat)
    requires Sized(b, rows, n) && j < n
  {
    && i < |node.children| && 0 <= RowOf(s, node, i) < rows
    && b.leftmost[RowOf(s, node, i)][j] == l + Roll(node.children, i) - j
  }

  ghost predicate RowUsed(s: Schema, node: Node, k: nat, r: int) {
    k <= |node.children| && exists i :: 0 <= i < k && RowOf(s, node, i) == r
  }

  /** The leftmost-child links of node `j` for its first `k` edges; all its other rows are still zero. */
  ghost predicate LeftmostWritten(b: Buffers, s: Schema, rows: nat, n: nat, j: nat, node: Node, l: nat, k: nat)
    requires Sized(b, rows, n) && j < n
  {
    && k <= |node.children|
    && (forall i :: 0 <= i < k ==> LinkAt(b, s, rows, n, j, node, l, i))
    && (forall r :: 0 <= r < rows && b.leftmost[r][j] != 0 ==> RowUsed(s, node, k, r))
  }

  /** The links of the first `count` children of node `j`, which start at `l`. */
  ghost predicate KidsWritten(b: Buffers, rows: nat, n: nat, j: nat, node: Node, l: nat, count: nat)
    requires Sized(b, rows, n) && l + |Kids(node)| <= n && count <= |Kids(node)|
  {
    forall c :: l <= c < l + count ==>
      && b.parent[c] == j
      && b.leftSiblings[c] == (if c == l then 0 else 1)
      && b.rightSiblings[c] == RightOf(node.children, c - l)
  }

  ghost predicate IdWritten(b: Buffers, rows: nat, n: nat, j: nat, node: Node)
    requires Sized(b, rows, n) && j < n
  {
    match node.id
    case None => b.id[j] == 0
    case Some(s) => b.id[j] < |b.tokens| && b.tokens[b.id[j]] == s
  }

  ghost predicate NodeWritten(b: Buffers, s: Schema, rows: nat, n: nat, j: nat, node: Node, l: nat)
    requires Sized(b, rows, n) && SchemaOk(s, rows)
  {
    && j < n && l + |Kids(node)| <= n
    && b.displayname[j] == node.cls
    && IdWritten(b, rows, n, j, node)
    && LeftmostWritten(b, s, rows, n, j, node, l, |node.children|)
    && KidsWritten(b, rows, n, j, node, l, |Kids(node)|)
  }

  /** Writing the k-th label's link leaves the earlier ones: distinct labels have distinct rows. */
  lemma LeftmostStep(b: Buffers, c: Buffers, s: Schema, rows: nat, n: nat, j: nat, node: Node, l: nat, k: nat)
    requires SchemaOk(s, rows) && Sized(b, rows, n) && Sized(c, rows, n) && j < n
    requires DistinctLabels(node) && k < |node.children| && LeftmostWritten(b, s, rows, n, j, node, l, k)
    requires LinkAt(c, s, rows, n, j, node, l, k)
    requires forall r :: 0 <= r < rows && r != RowOf(s, node, k) ==> c.leftmost[r][j] == b.leftmost[r][j]
    ensures LeftmostWritten(c, s, rows, n, j, node, l, k + 1)
  {
    forall i | 0 <= i < k ensures LinkAt(c, s, rows, n, j, node, l, i) {
      assert LinkAt(b, s, rows, n, j, node, l, i);
    }
    forall r | 0 <= r < rows && c.leftmost[r][j] != 0 ensures RowUsed(s, node, k + 1, r) {
      if r == RowOf(s, node, k) {
      } else {
        assert RowUsed(s, node, k, r);
      }
    }
  }

  lemma LeftmostKept(b: Buffers, c: Buffers, s: Schema, rows: nat, n: nat, j: nat, node: Node, l: nat, k: nat)
    requires Sized(b, rows, n) && Sized(c, rows, n) && j < n && LeftmostWritten(b, s, rows, n, j, node, l, k)
    requires forall r :: 0 <= r < rows ==> c.leftmost[r][j] == b.leftmost[r][j]
    ensures LeftmostWritten(c, s, rows, n, j, node, l, k)
  {
    forall i | 0 <= i < k ensures LinkAt(c, s, rows, n, j, node, l, i) {
      assert LinkAt(b, s, rows, n, j, node, l, i);
    }
  }

  lemma LinksDeclared(b: Buffers, s: Schema, rows: nat, n: nat, j: nat, node: Node, l: nat)
    requires Sized(b, rows, n) && j < n && LeftmostWritten(b, s, rows, n, j, node, l, |node.children|)
    ensures DeclaredHere(node, s)
  {
    forall i | 0 <= i < |node.children| ensures (node.cls, node.children[i].lbl) in s {
      assert LinkAt(b, s, rows, n, j, node, l, i);
    }
  }

  ghost predicate Distinct(tokens: seq<string>) {
    forall a, b :: 0 <= a < b < |tokens| ==> tokens[a] != tokens[b]
  }

  /** From `b` to `c` only column `i` and the child columns [from, to) have changed. */
  ghost predicate Elsewhere(b: Buffers, c: Buffers, rows: nat, n: nat, i: nat, from: nat, to: nat)
    requires Sized(b, rows, n) && Sized(c, rows, n)
  {
    && (forall k :: 0 <= k < n && !(from <= k < to) ==>
          c.parent[k] == b.parent[k] && c.leftSiblings[k] == b.leftSiblings[k] &&
            c.rightSiblings[k] == b.rightSiblings[k])
    && (forall r, j :: 0 <= r < rows && 0 <= j < n && j != i ==> c.leftmost[r][j] == b.leftmost[r][j])
    && (forall j :: 0 <= j < n && j != i ==> c.displayname[j] == b.displayname[j] && c.id[j] == b.id[j])
    && b.tokens <= c.tokens
  }

  ghost predicate WrittenAt(b: Buffers, s: Schema, rows: nat, n: nat, order: seq<Node>, first: seq<nat>, j: nat)
    requires Sized(b, rows, n) && SchemaOk(s, rows)
  {
    j < |first| && j < |order| && NodeWritten(b, s, rows, n, j, order[j], first[j])
  }

  /** What holds of the buffers after `absIdx` of the nodes in `order` have been visited. */
  ghost predicate Written(b: Buffers, s: Schema, rows: nat, n: nat, order: seq<Node>, first: seq<nat>)
    requires Sized(b, rows, n) && SchemaOk(s, rows)
  {
    && |first| <= |order| && |first| <= n
    && (forall j :: 0 <= j < |first| ==> WrittenAt(b, s, rows, n, order, first, j))
    && (forall j :: |first| <= j < n ==> b.id[j] == 0)
    && (forall r, j :: 0 <= r < rows && |first| <= j < n ==> b.leftmost[r][j] == 0)
    && (n > 0 ==> b.parent[0] == b.leftSiblings[0] == b.rightSiblings[0] == 0)
  }

  /** Visiting one more node keeps what was written for earlier nodes: their children end before the
      columns that change. */
  lemma WrittenStep(b: Buffers, c: Buffers, s: Schema, rows: nat, n: nat, order: seq<Node>, first: seq<nat>,
      node: Node, l: nat)
    requires Sized(b, rows, n) && Sized(c, rows, n) && SchemaOk(s, rows)
    requires Written(b, s, rows, n, order, first) && |first| < |order| && order[|first|] == node
    requires 0 < l && forall j :: 0 <= j < |first| ==> first[j] + |Kids(order[j])| <= l
    requires Elsewhere(b, c, rows, n, |first|, l, l + |Kids(node)|)
    requires NodeWritten(c, s, rows, n, |first|, node, l)
    ensures Written(c, s, rows, n, order, first + [l])
  {
    var first' := first + [l];
    forall j | 0 <= j < |first'| ensures WrittenAt(c, s, rows, n, order, first', j) {
      if j < |first| {
        assert WrittenAt(b, s, rows, n, order, first, j);
        LeftmostKept(b, c, s, rows, n, j, order[j], first[j], |order[j].children|);
      }
    }
  }

  /** Listing more nodes does not disturb what was written. */
  lemma WrittenMore(b: Buffers, s: Schema, rows: nat, n: nat, order: seq<Node>, first: seq<nat>, more: seq<Node>)
    requires Sized(b, rows, n) && SchemaOk(s, rows) && Written(b, s, rows, n, order, first)
    ensures Written(b, s, rows, n, order + more, first)
  {
    forall j | 0 <= j < |first| ensures WrittenAt(b, s, rows, n, order + more, first, j) {
      assert WrittenAt(b, s, rows, n, order, first, j);
    }
  }

  ghost function EndSoFar(order: seq<Node>, first: seq<nat>, j: nat): nat
    requires j < |first|
  {
    if j + 1 < |first| then first[j + 1] else |order|
  }

  /** The layout while it grows: `order` lists the visited nodes and those still to visit. */
  ghost predicate Growing(order: seq<Node>, first: seq<nat>) {
    && |first| <= |order| && 0 < |order|
    && (forall j :: 0 <= j < |first| ==> GrownAt(order, first, j))
    && (if |first| > 0 then first[0] == 1 else |order| == 1)
  }

  ghost predicate GrownAt(order: seq<Node>, first: seq<nat>, j: nat) {
    j < |first| && j < first[j] && KidsAt(order, j, first[j], EndSoFar(order, first, j))
  }

  /** Labels are distinct everywhere, and declared everywhere if they are in the whole tree. */
  ghost predicate Inherited(data: Node, s: Schema, order: seq<Node>, first: seq<nat>) {
    && |first| <= |order| && 0 < |order| && order[0] == data
    && (forall j :: 0 <= j < |order| ==> InheritedAt(data, s, order, j, |first|))
  }

  ghost predicate InheritedAt(data: Node, s: Schema, order: seq<Node>, j: nat, visited: nat) {
    && j < |order| && Everywhere(order[j], DistinctLabels)
    && (Everywhere(data, Declared(s)) ==> Everywhere(order[j], Declared(s)))
    && (j < visited ==> DeclaredHere(order[j], s))
  }

  lemma GrowingStep(order: seq<Node>, first: seq<nat>)
    requires Growing(order, first) && |first| < |order|
    ensures forall j :: 0 <= j < |first| ==> first[j] + |Kids(order[j])| <= |order|
    ensures Growing(order + Kids(order[|first|]), first + [|order|])
  {
    var order', first' := order + Kids(order[|first|]), first + [|order|];
    forall j | 0 <= j < |first|
      ensures first[j] + |Kids(order[j])| <= |order|
      ensures GrownAt(order', first', j)
    {
      assert GrownAt(order, first, j);
    }
  }

  lemma InheritedStep(data: Node, s: Schema, order: seq<Node>, first: seq<nat>)
    requires Inherited(data, s, order, first) && |first| < |order|
    ensures var node := order[|first|];
      && DistinctLabels(node)
      && (!DeclaredHere(node, s) ==> !Everywhere(data, Declared(s)))
      && (DeclaredHere(node, s) ==> Inherited(data, s, order + Kids(node), first + [|order|]))
  {
    var node := order[|first|];
    assert InheritedAt(data, s, order, |first|, |first|);
    EverywhereKids(node, DistinctLabels);
    EverywhereKids(node, Declared(s));
    if DeclaredHere(node, s) {
      var order', visited := order + Kids(node), |first| + 1;
      forall j | 0 <= j < |order'| ensures InheritedAt(data, s, order', j, visited) {
        if j < |order| {
          assert InheritedAt(data, s, order, j, |first|);
        } else {
          assert order'[j] == Kids(node)[j - |order|];
        }
      }
    }
  }

  ghost predicate LevelsSoFar(first: seq<nat>, levels: seq<Level>) {
    if first == [] then levels == []
    else LevelsOk(first, levels)
  }

  lemma LevelsStep(before: seq<nat>, first: seq<nat>, levels: seq<Level>)
    requires levels != [] && levels[|levels| - 1].start == |before| < |first|
    requires LevelsSoFar(before, levels[..|levels| - 1]) && before <= first
    requires LevelEnd(levels, |levels| - 1) == |first| && first[|before|] == |first|
    requires before == [] ==> |first| == 1
    ensures LevelsSoFar(first, levels)
  {
    var prev := levels[..|levels| - 1];
    forall l | 0 <= l < |levels| ensures CutAt(levels, l, |first|) && ChildrenAfter(first, levels, l) {
      if l < |prev| {
        assert CutAt(prev, l, |before|) && ChildrenAfter(before, prev, l);
      }
    }
  }

  lemma {:induction false} EndsAscend(order: seq<Node>, first: seq<nat>, j: nat, k: nat)
    requires Growing(order, first) && j <= k < |first|
    ensures first[j] <= first[k] <= |order|
    decreases k
  {
    assert GrownAt(order, first, k);
    if j < k {
      assert GrownAt(order, first, k - 1);
      EndsAscend(order, first, j, k - 1);
    }
  }

  /** Once every listed node has been visited, the listing is a layout of the tree. */
  lemma Complete(data: Node, s: Schema, order: seq<Node>, first: seq<nat>)
    requires Growing(order, first) && Inherited(data, s, order, first) && |first| == |order|
    ensures LaidOut(order, first) && Everywhere(data, Declared(s))
  {
    forall j, k | 0 <= j <= k < |first| ensures first[j] <= first[k] <= |order| {
      EndsAscend(order, first, j, k);
    }
    forall j | 0 <= j < |order| ensures j < first[j] && LaidOutAt(order, first, j) {
      assert GrownAt(order, first, j);
    }
    forall j | 0 <= j < |order| ensures DeclaredHere(order[j], s) {
      assert InheritedAt(data, s, order, j, |first|);
    }
    ListedEverywhere(order, first, Declared(s), 0);
  }

  /** The buffers hold the layout `first` of the tree `data`, whose nodes in layout order are `order`. */
  ghost predicate Flattened(b: Buffers, s: Schema, rows: nat, n: nat, data: Node, order: seq<Node>, first: seq<nat>,
      levels: seq<Level>) {
    && SchemaOk(s, rows) && Sized(b, rows, n)
    && |order| == n && LaidOut(order, first) && order[0] == data
    && Written(b, s, rows, n, order, first)
    && LevelsOk(first, levels)
    && Distinct(b.tokens)
  }

  ghost function Rows(a: array2<int>): (rs: seq<seq<int>>)
    reads a
    ensures |rs| == a.Length0 && forall r :: 0 <= r < a.Length0 ==> |rs[r]| == a.Length1
    ensures forall r, j :: 0 <= r < a.Length0 && 0 <= j < a.Length1 ==> rs[r][j] == a[r, j]
  {
    seq(a.Length0, r requires 0 <= r < a.Length0 reads a =>
      seq(a.Length1, j requires 0 <= j < a.Length1 reads a => a[r, j]))
  }

  class CLRunner {
    const schema: Schema
    const rows: nat
    const size: nat
    const displayname: array<nat>
    const id: array<nat>
    const parent: array<int>
    const leftSiblings: array<int>
    const rightSiblings: array<int>
    const leftmost: array2<int>
    var tokens: seq<string>

    ghost var order: seq<Node>  // the tree's nodes in layout order
    ghost var first: seq<nat>   // the layout: where each node's children start

    /** Allocates zeroed buffers for a tree of `treeSize` nodes. */
    constructor (schema: Schema, rows: nat, treeSize: nat)
      requires SchemaOk(schema, rows)
      ensures this.schema == schema && this.rows == rows && size == treeSize
      ensures Allocated() && Zeroed() && tokens == []
      ensures fresh(displayname) && fresh(id) && fresh(parent) && fresh(leftSiblings) && fresh(rightSiblings) &&
        fresh(leftmost)
    {
      this.schema, this.rows, this.size, this.tokens := schema, rows, treeSize, [];
      displayname, id := new nat[treeSize](_ => 0), new nat[treeSize](_ => 0);
      parent, leftSiblings, rightSiblings := new int[treeSize](_ => 0), new int[treeSize](_ => 0),
        new int[treeSize](_ => 0);
      leftmost := new int[rows, treeSize]((_, _) => 0);
      order, first := [], [];
    }

    ghost predicate Allocated() {
      && SchemaOk(schema, rows)
      && displayname.Length == id.Length == size && displayname != id
      && parent.Length == leftSiblings.Length == rightSiblings.Length == size
      && parent != leftSiblings && parent != rightSiblings && leftSiblings != rightSiblings
      && leftmost.Length0 == rows && leftmost.Length1 == size
    }

    ghost predicate Zeroed()
      requires Allocated()
      reads id, parent, leftSiblings, rightSiblings, leftmost
    {
      && (forall j :: 0 <= j < size ==> id[j] == 0 && parent[j] == 0 && leftSiblings[j] == 0 && rightSiblings[j] == 0)
      && (forall r, j :: 0 <= r < rows && 0 <= j < size ==> leftmost[r, j] == 0)
    }

    ghost function Snap(): (b: Buffers)
      reads this, displayname, id, parent, leftSiblings, rightSiblings, leftmost
    {
      Buffers(displayname[..], id[..], parent[..], leftSiblings[..], rightSiblings[..], Rows(leftmost), tokens)
    }

    static method TreeSize(data: Node) returns (res: nat)
      ensures res == Size(data)
      decreases data
    {
      res := 1;
      for i := 0 to |data.children|
        invariant res + SizeEdges(data.children[i..]) == Size(data)
      {
        match data.children[i]
        case Edge(_, Many(c)) =>
          ghost var before := res;
          for j := 0 to |c|
            invariant res + SizeForest(c[j..]) == before + SizeForest(c)
          {
            var s := TreeSize(c[j]);
            res := res + s;
            assert c[j..][1..] == c[j + 1..];
          }
          assert data.children[i..][1..] == data.children[i + 1..];
        case Edge(_, One(c)) =>
          var s := TreeSize(c);
          res := res + s;
          assert data.children[i..][1..] == data.children[i + 1..];
      }
    }

    method Tokenize(str: string) returns (idx: nat)
      requires Distinct(tokens)
      modifies this`tokens
      ensures Distinct(tokens) && old(tokens) <= tokens
      ensures idx < |tokens| && tokens[idx] == str
      ensures str in old(tokens) ==> tokens == old(tokens)
    {
      idx := 0;
      while idx < |tokens|
        invariant idx <= |tokens| && str !in tokens[..idx]
      {
        if tokens[idx] == str { return; }
        idx := idx + 1;
      }
      tokens := tokens + [str];
    }

    /** The sibling and parent links of the children of the k-th edge. */
    method WriteKids(es: seq<Edge>, k: nat, absIdx: nat, leftmostChildIdx: nat, rollCount: nat)
      requires Allocated() && k < |es| && rollCount == Roll(es, k)
      requires leftmostChildIdx + |EdgeKids(es)| <= size
      modifies parent, leftSiblings, rightSiblings
      ensures Roll(es, k + 1) <= |EdgeKids(es)|
      ensures forall c :: leftmostChildIdx + Roll(es, k) <= c < leftmostChildIdx + Roll(es, k + 1) ==>
                parent[c] == absIdx
                && leftSiblings[c] == (if c == leftmostChildIdx then 0 else 1)
                && rightSiblings[c] == RightOf(es, c - leftmostChildIdx)
      ensures forall c ::
                0 <= c < size && !(leftmostChildIdx + Roll(es, k) <= c < leftmostChildIdx + Roll(es, k + 1)) ==>
                parent[c] == old(parent[c]) && leftSiblings[c] == old(leftSiblings[c]) &&
                  rightSiblings[c] == old(rightSiblings[c])
    {
      RollStep(es, k);
      RightOfEdge(es, k);
      match es[k].kid {
        case Many(c) =>
          WriteArray(absIdx, leftmostChildIdx + rollCount, |c|, rollCount);
        case One(_) =>
          var childIdx := leftmostChildIdx + rollCount;
          rightSiblings[childIdx] := 0;
          parent[childIdx] := absIdx;
          leftSiblings[childIdx] := if rollCount != 0 then 1 else 0;
      }
    }

    /** The links of an array of `len` children placed at `base`, after `rollCount` earlier children. */
    method WriteArray(absIdx: nat, base: nat, len: nat, rollCount: nat)
      requires Allocated() && base + len <= size
      modifies parent, leftSiblings, rightSiblings
      ensures forall c :: base <= c < base + len ==>
                parent[c] == absIdx
                && leftSiblings[c] == (if c == base && rollCount == 0 then 0 else 1)
                && rightSiblings[c] == (if c + 1 < base + len then 1 else 0)
      ensures forall c :: 0 <= c < size && !(base <= c < base + len) ==>
                parent[c] == old(parent[c]) && leftSiblings[c] == old(leftSiblings[c]) &&
                  rightSiblings[c] == old(rightSiblings[c])
    {
      var ci := 0;
      while ci < len - 1
        invariant 0 <= ci && (len > 0 ==> ci <= len - 1) && (len == 0 ==> ci == 0)
        invariant forall c :: base <= c < base + ci ==> rightSiblings[c] == 1
        invariant forall c :: 0 <= c < size && !(base <= c < base + ci) ==> rightSiblings[c] == old(rightSiblings[c])
        modifies rightSiblings
      {
        rightSiblings[base + ci] := 1;
        ci := ci + 1;
      }
      if len > 0 {
        rightSiblings[base + len - 1] := 0;
      }
      for ci := 0 to len
        invariant forall c :: base <= c < base + ci ==> parent[c] == absIdx
        invariant forall c :: 0 <= c < size && !(base <= c < base + ci) ==> parent[c] == old(parent[c])
        modifies parent
      {
        parent[base + ci] := absIdx;
      }
      if len > 0 {
        leftSiblings[base] := if rollCount != 0 then 1 else 0;
      }
      ci := 1;
      while ci < len
        invariant 1 <= ci && (len > 0 ==> ci <= len)
        invariant forall c :: base < c < base + ci && c < base + len ==> leftSiblings[c] == 1
        invariant len > 0 ==> leftSiblings[base] == if rollCount != 0 then 1 else 0
        invariant forall c :: 0 <= c < size && !(base <= c < base + ci && c < base + len) ==>
          leftSiblings[c] == old(leftSiblings[c])
        modifies leftSiblings
      {
        leftSiblings[base + ci] := 1;
        ci := ci + 1;
      }
    }

    method WriteLeftmost(node: Node, k: nat, absIdx: nat, leftmostChildIdx: nat, rollCount: nat)
      requires Allocated() && absIdx < size
      requires DistinctLabels(node) && k < |node.children| && RowOf(schema, node, k) >= 0
      requires rollCount == Roll(node.children, k)
      requires LeftmostWritten(Snap(), schema, rows, size, absIdx, node, leftmostChildIdx, k)
      modifies leftmost
      ensures LeftmostWritten(Snap(), schema, rows, size, absIdx, node, leftmostChildIdx, k + 1)
      ensures forall r, j :: 0 <= r < rows && 0 <= j < size && j != absIdx ==> leftmost[r, j] == old(leftmost[r, j])
    {
      leftmost[schema[(node.cls, node.children[k].lbl)], absIdx] := leftmostChildIdx + rollCount - absIdx;
      LeftmostStep(old(Snap()), Snap(), schema, rows, size, absIdx, node, leftmostChildIdx, k);
    }

    method FlattenEdge(node: Node, k: nat, absIdx: nat, leftmostChildIdx: nat, rollCount: nat)
      requires Allocated() && absIdx < size && leftmostChildIdx + |Kids(node)| <= size
      requires DistinctLabels(node) && k < |node.children| && RowOf(schema, node, k) >= 0
      requires rollCount == Roll(node.children, k) <= |Kids(node)|
      requires LeftmostWritten(Snap(), schema, rows, size, absIdx, node, leftmostChildIdx, k)
      requires KidsWritten(Snap(), rows, size, absIdx, node, leftmostChildIdx, rollCount)
      modifies parent, leftSiblings, rightSiblings, leftmost
      ensures Roll(node.children, k + 1) == rollCount + |Nodes(node.children[k].kid)| <= |Kids(node)|
      ensures LeftmostWritten(Snap(), schema, rows, size, absIdx, node, leftmostChildIdx, k + 1)
      ensures KidsWritten(Snap(), rows, size, absIdx, node, leftmostChildIdx, Roll(node.children, k + 1))
      ensures forall c :: 0 <= c < size && !(leftmostChildIdx <= c < leftmostChildIdx + |Kids(node)|) ==>
                parent[c] == old(parent[c]) && leftSiblings[c] == old(leftSiblings[c]) &&
                  rightSiblings[c] == old(rightSiblings[c])
      ensures forall r, j :: 0 <= r < rows && 0 <= j < size && j != absIdx ==> leftmost[r, j] == old(leftmost[r, j])
    {
      RollStep(node.children, k);
      WriteLeftmost(node, k, absIdx, leftmostChildIdx, rollCount);
      ghost var before := Snap();
      WriteKids(node.children, k, absIdx, leftmostChildIdx, rollCount);
      LeftmostKept(before, Snap(), schema, rows, size, absIdx, node, leftmostChildIdx, k + 1);
    }

    method FlattenEdges(node: Node, absIdx: nat, leftmostChildIdx: nat) returns (ok: bool)
      requires Allocated() && absIdx < size && leftmostChildIdx + |Kids(node)| <= size
      requires DistinctLabels(node)
      requires forall r :: 0 <= r < rows ==> leftmost[r, absIdx] == 0
      modifies parent, leftSiblings, rightSiblings, leftmost
      ensures ok <==> DeclaredHere(node, schema)
      ensures ok ==> LeftmostWritten(Snap(), schema, rows, size, absIdx, node, leftmostChildIdx, |node.children|)
      ensures ok ==> KidsWritten(Snap(), rows, size, absIdx, node, leftmostChildIdx, |Kids(node)|)
      ensures forall c :: 0 <= c < size && !(leftmostChildIdx <= c < leftmostChildIdx + |Kids(node)|) ==>
                parent[c] == old(parent[c]) && leftSiblings[c] == old(leftSiblings[c]) &&
                  rightSiblings[c] == old(rightSiblings[c])
      ensures forall r, j :: 0 <= r < rows && 0 <= j < size && j != absIdx ==> leftmost[r, j] == old(leftmost[r, j])
    {
      var rollCount := 0;
      for k := 0 to |node.children|
        invariant rollCount == Roll(node.children, k) <= |Kids(node)|
        invariant LeftmostWritten(Snap(), schema, rows, size, absIdx, node, leftmostChildIdx, k)
        invariant KidsWritten(Snap(), rows, size, absIdx, node, leftmostChildIdx, rollCount)
        invariant forall c :: 0 <= c < size && !(leftmostChildIdx <= c < leftmostChildIdx + |Kids(node)|) ==>
                    parent[c] == old(parent[c]) && leftSiblings[c] == old(leftSiblings[c]) &&
                      rightSiblings[c] == old(rightSiblings[c])
        invariant forall r, j :: 0 <= r < rows && 0 <= j < size && j != absIdx ==> leftmost[r, j] == old(leftmost[r, j])
      {
        if (node.cls, node.children[k].lbl) !in schema {
          return false;
        }
        FlattenEdge(node, k, absIdx, leftmostChildIdx, rollCount);
        rollCount := rollCount + |Nodes(node.children[k].kid)|;
      }
      RollAll(node.children);
      LinksDeclared(Snap(), schema, rows, size, absIdx, node, leftmostChildIdx);
      return true;
    }

    method FlattenNode(node: Node, absIdx: nat, leftmostChildIdx: nat) returns (ok: bool)
      requires Allocated() && absIdx < size && leftmostChildIdx + |Kids(node)| <= size
      requires DistinctLabels(node) && Distinct(tokens)
      requires id[absIdx] == 0 && forall r :: 0 <= r < rows ==> leftmost[r, absIdx] == 0
      modifies this`tokens, displayname, id, parent, leftSiblings, rightSiblings, leftmost
      ensures ok <==> DeclaredHere(node, schema)
      ensures ok ==> NodeWritten(Snap(), schema, rows, size, absIdx, node, leftmostChildIdx)
      ensures Distinct(tokens)
      ensures Elsewhere(old(Snap()), Snap(), rows, size, absIdx, leftmostChildIdx, leftmostChildIdx + |Kids(node)|)
    {
      ok := FlattenEdges(node, absIdx, leftmostChildIdx);
      if !ok { return; }
      ghost var before := Snap();
      displayname[absIdx] := node.cls;
      match node.id {
        case None =>
        case Some(s) =>
          var tok := Tokenize(s);
          id[absIdx] := tok;
      }
      LeftmostKept(before, Snap(), schema, rows, size, absIdx, node, leftmostChildIdx, |node.children|);
    }

    method PushChildren(node: Node, nextLevel: seq<Node>, leftmostChildIdx: nat) returns (next: seq<Node>, idx: nat)
      ensures next == nextLevel + Kids(node) && idx == leftmostChildIdx + |Kids(node)|
    {
      next, idx := nextLevel, leftmostChildIdx;
      ghost var es := node.children;
      for j := 0 to |node.children|
        invariant next + EdgeKids(es[j..]) == nextLevel + Kids(node)
        invariant idx + |EdgeKids(es[j..])| == leftmostChildIdx + |Kids(node)|
      {
        assert EdgeKids(es[j..]) == Nodes(es[j].kid) + EdgeKids(es[j + 1..]) by {
          assert es[j..][1..] == es[j + 1..];
        }
        match node.children[j].kid {
          case Many(c) =>
            ghost var before := next;
            for k := 0 to |c|
              invariant next == before + c[..k]
            {
              next := next + [c[k]];
            }
            idx := idx + |c|;
          case One(c) =>
            next := next + [c];
            idx := idx + 1;
        }
      }
    }

    method Flatten(data: Node) returns (ok: bool, levels: seq<Level>)
      requires size == Size(data) && Allocated() && Zeroed()
      requires Distinct(tokens) && Everywhere(data, DistinctLabels)
      modifies this`tokens, this`order, this`first
      modifies displayname, id, parent, leftSiblings, rightSiblings, leftmost
      ensures ok <==> Everywhere(data, Declared(schema))
      ensures ok ==> Flattened(Snap(), schema, rows, size, data, order, first, levels)
    {
      ok, levels, order, first := true, [], [data], [];
      var level := [data];
      var absIdx := 0;
      while level != []
        invariant Visited(data) == absIdx
        invariant order[absIdx..] == level && absIdx + SizeForest(level) == size
        invariant LevelsSoFar(first, levels)
        decreases size - absIdx
      {
        var nextLevel;
        levels := levels + [Level(absIdx, |level|)];
        ghost var firstBefore := first;
        ok, nextLevel := VisitLevel(data, level, absIdx);
        if !ok { return; }
        absIdx := absIdx + |level|;
        LevelsStep(firstBefore, first, levels);
        level := nextLevel;
      }
      Complete(data, schema, order, first);
      ok := true;
    }

    /** How many nodes have been visited, when the buffers hold a consistent part of `data`'s layout; else -1. */
    ghost function Visited(data: Node): int
      reads this, displayname, id, parent, leftSiblings, rightSiblings, leftmost
    {
      if && Allocated() && Distinct(tokens)
         && Written(Snap(), schema, rows, size, order, first)
         && Growing(order, first) && Inherited(data, schema, order, first)
      then |first| else -1
    }

    /** Visits the nodes of one level in order; the children found form the next level. */
    method VisitLevel(data: Node, level: seq<Node>, start: nat) returns (ok: bool, nextLevel: seq<Node>)
      requires Visited(data) == start && level != []
      requires order[start..] == level && start + SizeForest(level) == size
      modifies this`tokens, this`order, this`first
      modifies displayname, id, parent, leftSiblings, rightSiblings, leftmost
      ensures !ok ==> !Everywhere(data, Declared(schema))
      ensures ok ==> Visited(data) == start + |level|
      ensures ok ==> order[start + |level|..] == nextLevel && start + |level| + SizeForest(nextLevel) == size
      ensures ok ==> first[..start] == old(first) && first[start] == start + |level|
    {
      var absIdx, leftmostChildIdx := start, start + |level|;
      ok, nextLevel := true, [];
      for i := 0 to |level|
        invariant absIdx == start + i && Visited(data) == absIdx
        invariant InLine(order, absIdx, level, i, nextLevel, size) && leftmostChildIdx == |order|
        invariant |first| == absIdx && first[..start] == old(first)
        invariant if i == 0 then leftmostChildIdx == start + |level| else first[start] == start + |level|
      {
        ok, nextLevel, leftmostChildIdx := VisitNext(data, level, i, nextLevel, absIdx, leftmostChildIdx);
        if !ok { return; }
        absIdx := absIdx + 1;
      }
      ok := true;
    }

    method VisitNext(data: Node, level: seq<Node>, i: nat, nextLevel: seq<Node>, absIdx: nat, leftmostChildIdx: nat)
      returns (ok: bool, next: seq<Node>, idx: nat)
      requires Visited(data) == absIdx && i < |level| && leftmostChildIdx == |order|
      requires InLine(order, absIdx, level, i, nextLevel, size)
      modifies this`tokens, this`order, this`first
      modifies displayname, id, parent, leftSiblings, rightSiblings, leftmost
      ensures !ok ==> !Everywhere(data, Declared(schema))
      ensures ok ==> Visited(data) == absIdx + 1 && idx == |order| && first == old(first) + [leftmostChildIdx]
      ensures ok ==> InLine(order, absIdx + 1, level, i + 1, next, size)
    {
      NextInLine(order, absIdx, level, i, nextLevel, size);
      ok := VisitNode(data, level[i], absIdx, leftmostChildIdx);
      next, idx := PushChildren(level[i], nextLevel, leftmostChildIdx);
    }

    /** Visits the next node and lists its children. */
    method VisitNode(data: Node, node: Node, absIdx: nat, leftmostChildIdx: nat) returns (ok: bool)
      requires Visited(data) == absIdx
      requires absIdx < |order| && order[absIdx] == node && leftmostChildIdx == |order|
      requires |order| + |Kids(node)| <= size
      modifies this`tokens, this`order, this`first
      modifies displayname, id, parent, leftSiblings, rightSiblings, leftmost
      ensures !ok ==> !Everywhere(data, Declared(schema))
      ensures ok ==> order == old(order) + Kids(node) && first == old(first) + [leftmostChildIdx]
      ensures ok ==> Visited(data) == absIdx + 1
    {
      GrowingStep(order, first);
      InheritedStep(data, schema, order, first);
      ok := FlattenNode(node, absIdx, leftmostChildIdx);
      if !ok { return; }
      WrittenStep(old(Snap()), Snap(), schema, rows, size, order, first, node, leftmostChildIdx);
      WrittenMore(Snap(), schema, rows, size, order, first + [leftmostChildIdx], Kids(node));
      first := first + [leftmostChildIdx];
      order := order + Kids(node);
    }

  }

  /** The nodes still to visit are the rest of this level and the next level found so far. */
  ghost predicate InLine(order: seq<Node>, absIdx: nat, level: seq<Node>, i: nat, nextLevel: seq<Node>, n: nat) {
    && absIdx <= |order| && i <= |level| && order[absIdx..] == level[i..] + nextLevel
    && absIdx + SizeForest(level[i..]) + SizeForest(nextLevel) == n
  }

  lemma NextInLine(order: seq<Node>, absIdx: nat, level: seq<Node>, i: nat, nextLevel: seq<Node>, n: nat)
    requires i < |level| && InLine(order, absIdx, level, i, nextLevel, n)
    ensures absIdx < |order| && order[absIdx] == level[i] && |order| + |Kids(level[i])| <= n
    ensures InLine(order + Kids(level[i]), absIdx + 1, level, i + 1, nextLevel + Kids(level[i]), n)
  {
    TakeFirst(order, absIdx, level, i, nextLevel, Kids(level[i]));
    ForestStep(level[i..], nextLevel);
  }

  lemma TakeFirst(order: seq<Node>, absIdx: nat, level: seq<Node>, i: nat, nextLevel: seq<Node>, kids: seq<Node>)
    requires absIdx <= |order| && i < |level| && order[absIdx..] == level[i..] + nextLevel
    ensures absIdx < |order| && order[absIdx] == level[i] == level[i..][0] && level[i..][1..] == level[i + 1..]
    ensures (order + kids)[absIdx + 1..] == level[i + 1..] + (nextLevel + kids)
  {
    assert order[absIdx..] != [] && order[absIdx] == order[absIdx..][0];
    assert (order + kids)[absIdx + 1..] == order[absIdx..][1..] + kids;
  }

  lemma ForestStep(rest: seq<Node>, nextLevel: seq<Node>)
    requires rest != []
    ensures SizeForest(rest) + SizeForest(nextLevel) == 1 + SizeForest(rest[1..])
      + SizeForest(nextLevel + Kids(rest[0]))
    ensures |rest| + |nextLevel| + |Kids(rest[0])| <= SizeForest(rest) + SizeForest(nextLevel)
  {
    SizeEdgesIsForest(rest[0].children);
    SizeForestAppend(nextLevel, Kids(rest[0]));
    ForestAtLeastItsLength(rest[1..]);
    ForestAtLeastItsLength(nextLevel);
    ForestAtLeastItsLength(Kids(rest[0]));
  }

  /** Sizes, allocates and flattens. */
  method LoadData(schema: Schema, rows: nat, data: Node) returns (clr: CLRunner, ok: bool, levels: seq<Level>)
    requires SchemaOk(schema, rows) && Everywhere(data, DistinctLabels)
    ensures fresh(clr) && clr.Allocated()
    ensures ok <==> Everywhere(data, Declared(schema))
    ensures ok ==> Flattened(clr.Snap(), schema, rows, Size(data), data, clr.order, clr.first, levels)
  {
    var n := CLRunner.TreeSize(data);
    clr := new CLRunner(schema, rows, n);
    ok, levels := clr.Flatten(data);
  }
}
