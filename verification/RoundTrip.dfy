/** Reading a tree back from its flattened buffers. */
module RoundTrip {
  import opened Trees
  import opened Layouts
  import opened Flattener

  /** A tree as the links show it: the non-empty child lists of each node, by label. `Dangling` stands
      for a link that does not lead forward to a node. */
  datatype View = View(cls: nat, kids: map<nat, seq<View>>) | Dangling

  // ---- the tree that was given ----

  function Seen(n: Node): View
    decreases n
  {
    View(n.cls, SeenEdges(n.children))
  }

  function SeenEdges(es: seq<Edge>): map<nat, seq<View>>
    decreases es
  {
    if es == [] then map[] else
      var vs := SeenEdge(es[0]);
      if vs == [] then SeenEdges(es[1..]) else SeenEdges(es[1..])[es[0].lbl := vs]
  }

  function SeenEdge(e: Edge): seq<View>
    decreases e
  {
    match e
    case Edge(_, One(n)) => [Seen(n)]
    case Edge(_, Many(ns)) => SeenForest(ns)
  }

  function SeenForest(ns: seq<Node>): seq<View>
    decreases ns
  {
    seq(|ns|, r requires 0 <= r < |ns| => Seen(ns[r]))
  }

  // ---- the tree the buffers show ----

  /** The labels under which node `i` has a leftmost child. */
  ghost function Links(b: Buffers, s: Schema, rows: nat, n: nat, i: nat): set<nat>
    requires Sized(b, rows, n) && SchemaOk(s, rows) && i < n
  {
    set f | f in s && f.0 == b.displayname[i] && b.leftmost[s[f]][i] != 0 :: f.1
  }

  /** The nodes met by following right-sibling links from `c`; -1 ends a chain that does not lead forward. */
  ghost function Chain(right: seq<int>, c: int): (r: seq<int>)
    ensures forall x :: 0 <= x < |r| ==> r[x] == -1 || c <= r[x] < |right|
    decreases |right| - c
  {
    if !(0 <= c < |right|) || right[c] < 0 then [-1]
    else if right[c] == 0 then [c]
    else [c] + Chain(right, c + right[c])
  }

  /** Follows the class token and the links of node `i`. */
  ghost function Decode(b: Buffers, s: Schema, rows: nat, n: nat, i: nat): View
    requires Sized(b, rows, n) && SchemaOk(s, rows) && i < n
    decreases n - i
  {
    View(b.displayname[i], map lbl | lbl in Links(b, s, rows, n, i) ::
      var ch := Chain(b.rightSiblings, i + b.leftmost[s[(b.displayname[i], lbl)]][i]);
      seq(|ch|, x requires 0 <= x < |ch| => if ch[x] <= i then Dangling else Decode(b, s, rows, n, ch[x])))
  }

  // ---- the given tree, edge by edge ----

  ghost predicate HasLabel(es: seq<Edge>, lbl: nat) {
    exists k :: 0 <= k < |es| && es[k].lbl == lbl
  }

  ghost predicate HasNonEmpty(es: seq<Edge>, lbl: nat) {
    exists k :: 0 <= k < |es| && es[k].lbl == lbl && Nodes(es[k].kid) != []
  }

  lemma SeenEdgeIsForest(e: Edge)
    ensures SeenEdge(e) == SeenForest(Nodes(e.kid))
  {
    match e
    case Edge(_, One(n)) =>
      assert SeenForest([n]) == [Seen(n)];
    case Edge(_, Many(ns)) =>
  }

  lemma {:induction false} SeenEdgesKeys(es: seq<Edge>, lbl: nat)
    ensures lbl in SeenEdges(es) <==> HasNonEmpty(es, lbl)
  {
    if es != [] {
      SeenEdgesKeys(es[1..], lbl);
      SeenEdgeIsForest(es[0]);
      assert forall k :: 1 <= k < |es| ==> es[k] == es[1..][k - 1];
      assert forall k :: 0 <= k < |es| - 1 ==> es[1..][k] == es[k + 1];
    }
  }

  lemma {:induction false} SeenEdgesValue(es: seq<Edge>, k: nat)
    requires k < |es| && Nodes(es[k].kid) != []
    requires forall i, j :: 0 <= i < j < |es| ==> es[i].lbl != es[j].lbl
    ensures es[k].lbl in SeenEdges(es) && SeenEdges(es)[es[k].lbl] == SeenForest(Nodes(es[k].kid))
  {
    SeenEdgesKeys(es, es[k].lbl);
    if k == 0 {
      SeenEdgeIsForest(es[0]);
    } else {
      SeenEdgesValue(es[1..], k - 1);
    }
  }

  // ---- the buffers, edge by edge ----

  /** The links of node `j` are the labels of its edges, those of empty arrays included. */
  lemma LinksAreLabels(b: Buffers, s: Schema, rows: nat, n: nat, j: nat, node: Node, l: nat, lbl: nat)
    requires Sized(b, rows, n) && SchemaOk(s, rows) && j < l
    requires NodeWritten(b, s, rows, n, j, node, l)
    ensures lbl in Links(b, s, rows, n, j) <==> HasLabel(node.children, lbl)
  {
    LinksDeclared(b, s, rows, n, j, node, l);
    if HasLabel(node.children, lbl) {
      var k :| 0 <= k < |node.children| && node.children[k].lbl == lbl;
      assert LinkAt(b, s, rows, n, j, node, l, k);
      assert (node.cls, lbl) in s && b.leftmost[s[(node.cls, lbl)]][j] != 0;
    }
    if lbl in Links(b, s, rows, n, j) {
      assert RowUsed(s, node, |node.children|, s[(node.cls, lbl)]);
      var i :| 0 <= i < |node.children| && RowOf(s, node, i) == s[(node.cls, lbl)];
    }
  }

  ghost predicate Consecutive(ch: seq<int>, c: int, len: nat) {
    |ch| == len && forall x :: 0 <= x < len ==> ch[x] == c + x
  }

  /** From the r-th child of an edge the right-sibling links lead through the edge's later children. */
  lemma {:induction false} ChainOfEdge(b: Buffers, rows: nat, n: nat, j: nat, node: Node, l: nat, k: nat, r: nat)
    requires Sized(b, rows, n) && l + |Kids(node)| <= n && KidsWritten(b, rows, n, j, node, l, |Kids(node)|)
    requires k < |node.children| && r < |Nodes(node.children[k].kid)|
    ensures Consecutive(Chain(b.rightSiblings, l + Roll(node.children, k) + r), l + Roll(node.children, k) + r,
      |Nodes(node.children[k].kid)| - r)
    decreases |Nodes(node.children[k].kid)| - r
  {
    RightOfAt(node.children, k, r);
    var c := l + Roll(node.children, k) + r;
    assert b.rightSiblings[c] == RightOf(node.children, c - l);
    if r + 1 < |Nodes(node.children[k].kid)| {
      ChainOfEdge(b, rows, n, j, node, l, k, r + 1);
    }
  }

  lemma PlacedWithin(order: seq<Node>, lo: nat, ks: seq<Node>, i: nat, ns: seq<Node>)
    requires PlacedAt(order, lo, ks) && i + |ns| <= |ks|
    requires forall x :: i <= x < i + |ns| ==> ks[x] == ns[x - i]
    ensures PlacedAt(order, lo + i, ns)
  {
    forall x | lo + i <= x < lo + i + |ns| ensures order[x] == ns[x - (lo + i)] {
      assert ns[x - (lo + i)] == ks[x - lo];
    }
  }

  /** Where the k-th edge's children lie. */
  lemma EdgePlaced(order: seq<Node>, node: Node, l: nat, k: nat)
    requires PlacedAt(order, l, Kids(node)) && k < |node.children|
    ensures Roll(node.children, k) + |Nodes(node.children[k].kid)| <= |Kids(node)|
    ensures PlacedAt(order, l + Roll(node.children, k), Nodes(node.children[k].kid))
  {
    RollStep(node.children, k);
    PlacedWithin(order, l, Kids(node), Roll(node.children, k), Nodes(node.children[k].kid));
  }

  // ---- the round trip ----

  // Below, d[i] is what the buffers show at node i and v[i] what was given there.

  /** Under the k-th label, if its array is not empty, `t` has the list of the members of `d` where that
      edge's children lie. */
  ghost predicate ListAt(t: View, es: seq<Edge>, k: nat, l: nat, d: seq<View>) {
    k < |es| && (Nodes(es[k].kid) != [] ==> ListIs(t, es, k, l, d))
  }

  ghost predicate ListIs(t: View, es: seq<Edge>, k: nat, l: nat, d: seq<View>)
    requires k < |es|
  {
    && t.View? && es[k].lbl in t.kids
    && l + Roll(es, k) + |Nodes(es[k].kid)| <= |d|
    && t.kids[es[k].lbl] == d[l + Roll(es, k)..l + Roll(es, k) + |Nodes(es[k].kid)|]
  }

  /** The labels and lists of a node whose children start at `l`: of all its edges, or of those that are not empty. */
  ghost predicate Shows(t: View, cls: nat, es: seq<Edge>, l: nat, d: seq<View>, empties: bool) {
    && t.View? && t.cls == cls
    && (forall lbl :: lbl in t.kids <==> if empties then HasLabel(es, lbl) else HasNonEmpty(es, lbl))
    && (forall k :: 0 <= k < |es| ==> ListAt(t, es, k, l, d))
  }

  ghost predicate Agree(d: seq<View>, v: seq<View>, lo: nat, hi: nat) {
    hi <= |d| && hi <= |v| && forall i :: lo <= i < hi ==> d[i] == v[i]
  }

  lemma ListsAgree(t: View, u: View, es: seq<Edge>, k: nat, l: nat, d: seq<View>, v: seq<View>)
    requires k < |es| && ListIs(t, es, k, l, d) && ListIs(u, es, k, l, v)
    ensures t.kids[es[k].lbl] == u.kids[es[k].lbl] <==>
      Agree(d, v, l + Roll(es, k), l + Roll(es, k) + |Nodes(es[k].kid)|)
  {
    var lo, hi := l + Roll(es, k), l + Roll(es, k) + |Nodes(es[k].kid)|;
    if d[lo..hi] == v[lo..hi] {
      forall i | lo <= i < hi ensures d[i] == v[i] {
        assert d[lo..hi][i - lo] == v[lo..hi][i - lo];
      }
    }
  }

  lemma NodeAgreesOnlyIf(t: View, es: seq<Edge>, l: nat, d: seq<View>, v: seq<View>, cls: nat)
    requires l + |EdgeKids(es)| <= |d| && |d| == |v|
    requires Shows(t, cls, es, l, d, true) && Shows(t, cls, es, l, v, false)
    requires forall i, j :: 0 <= i < j < |es| ==> es[i].lbl != es[j].lbl
    ensures forall k :: 0 <= k < |es| ==> Nodes(es[k].kid) != []
    ensures Agree(d, v, l, l + |EdgeKids(es)|)
  {
    forall k | 0 <= k < |es| ensures Nodes(es[k].kid) != [] {
      assert HasLabel(es, es[k].lbl) && HasNonEmpty(es, es[k].lbl);
    }
    forall i | l <= i < l + |EdgeKids(es)| ensures d[i] == v[i] {
      KidAgrees(t, es, l, d, v, i);
    }
  }

  lemma KidAgrees(t: View, es: seq<Edge>, l: nat, d: seq<View>, v: seq<View>, i: nat)
    requires l <= i < l + |EdgeKids(es)| <= |d| && |d| == |v|
    requires forall k :: 0 <= k < |es| ==> ListAt(t, es, k, l, d) && ListAt(t, es, k, l, v)
    ensures d[i] == v[i]
  {
    var k := EdgeOfKid(es, i - l);
    assert ListAt(t, es, k, l, d) && ListAt(t, es, k, l, v);
    ListsAgree(t, t, es, k, l, d, v);
  }

  lemma LabelAgrees(t: View, u: View, es: seq<Edge>, l: nat, d: seq<View>, v: seq<View>, cls: nat, lbl: nat)
    requires l + |EdgeKids(es)| <= |d| && |d| == |v|
    requires Shows(t, cls, es, l, d, true) && Shows(u, cls, es, l, v, false)
    requires forall k :: 0 <= k < |es| ==> Nodes(es[k].kid) != []
    requires Agree(d, v, l, l + |EdgeKids(es)|)
    ensures (lbl in t.kids <==> lbl in u.kids) && (lbl in u.kids ==> t.kids[lbl] == u.kids[lbl])
  {
    if HasLabel(es, lbl) {
      var k :| 0 <= k < |es| && es[k].lbl == lbl;
      RollStep(es, k);
      assert ListAt(t, es, k, l, d) && ListAt(u, es, k, l, v);
      ListsAgree(t, u, es, k, l, d, v);
    }
  }

  /** At one node: what is shown is what was given iff no array is empty and the children agree. */
  lemma NodeAgrees(t: View, u: View, node: Node, l: nat, d: seq<View>, v: seq<View>)
    requires DistinctLabels(node) && l + |Kids(node)| <= |d| && |d| == |v|
    requires Shows(t, node.cls, node.children, l, d, true) && Shows(u, node.cls, node.children, l, v, false)
    ensures t == u <==> NoEmptyArrays(node) && Agree(d, v, l, l + |Kids(node)|)
  {
    if t == u {
      NodeAgreesOnlyIf(t, node.children, l, d, v, node.cls);
    }
    if NoEmptyArrays(node) && Agree(d, v, l, l + |Kids(node)|) {
      forall lbl ensures (lbl in t.kids <==> lbl in u.kids) && (lbl in u.kids ==> t.kids[lbl] == u.kids[lbl]) {
        LabelAgrees(t, u, node.children, l, d, v, node.cls, lbl);
      }
      assert t.kids == u.kids;
    }
  }

  /** What the buffers show at node `j`. */
  lemma DecodeShows(b: Buffers, s: Schema, rows: nat, n: nat, j: nat, node: Node, l: nat, d: seq<View>)
    requires Sized(b, rows, n) && SchemaOk(s, rows) && j < l && NodeWritten(b, s, rows, n, j, node, l)
    requires |d| == n && forall i :: 0 <= i < n ==> d[i] == Decode(b, s, rows, n, i)
    ensures Shows(Decode(b, s, rows, n, j), node.cls, node.children, l, d, true)
  {
    var t := Decode(b, s, rows, n, j);
    forall lbl ensures lbl in t.kids <==> HasLabel(node.children, lbl) {
      LinksAreLabels(b, s, rows, n, j, node, l, lbl);
    }
    forall k | 0 <= k < |node.children| ensures ListAt(t, node.children, k, l, d) {
      if Nodes(node.children[k].kid) != [] {
        ListDecoded(b, s, rows, n, j, node, l, d, k);
      }
    }
  }

  lemma DecodedList(b: Buffers, s: Schema, rows: nat, n: nat, j: nat, lbl: nat, c: nat, len: nat)
    requires Sized(b, rows, n) && SchemaOk(s, rows) && j < n && j < c && lbl in Links(b, s, rows, n, j)
    requires j + b.leftmost[s[(b.displayname[j], lbl)]][j] == c
    requires Consecutive(Chain(b.rightSiblings, c), c, len) && c + len <= n
    ensures var t := Decode(b, s, rows, n, j);
      && lbl in t.kids && |t.kids[lbl]| == len
      && forall x :: 0 <= x < len ==> t.kids[lbl][x] == Decode(b, s, rows, n, c + x)
  {
    var ch := Chain(b.rightSiblings, c);
    assert forall x :: 0 <= x < len ==> ch[x] == c + x;
  }

  lemma SliceIs(vs: seq<View>, d: seq<View>, c: nat)
    requires c + |vs| <= |d| && forall x :: 0 <= x < |vs| ==> vs[x] == d[c + x]
    ensures vs == d[c..c + |vs|]
  {
  }

  lemma ListDecoded(b: Buffers, s: Schema, rows: nat, n: nat, j: nat, node: Node, l: nat, d: seq<View>, k: nat)
    requires Sized(b, rows, n) && SchemaOk(s, rows) && j < l && NodeWritten(b, s, rows, n, j, node, l)
    requires |d| == n && forall i :: 0 <= i < n ==> d[i] == Decode(b, s, rows, n, i)
    requires k < |node.children| && Nodes(node.children[k].kid) != []
    ensures ListIs(Decode(b, s, rows, n, j), node.children, k, l, d)
  {
    var c, len, lbl := l + Roll(node.children, k), |Nodes(node.children[k].kid)|, node.children[k].lbl;
    LinksAreLabels(b, s, rows, n, j, node, l, lbl);
    assert HasLabel(node.children, lbl);
    assert LinkAt(b, s, rows, n, j, node, l, k);
    RollStep(node.children, k);
    ChainOfEdge(b, rows, n, j, node, l, k, 0);
    DecodedList(b, s, rows, n, j, lbl, c, len);
    SliceIs(Decode(b, s, rows, n, j).kids[lbl], d, c);
  }

  /** What was given at node `j`. */
  lemma SeenShows(order: seq<Node>, node: Node, l: nat, v: seq<View>)
    requires DistinctLabels(node) && PlacedAt(order, l, Kids(node))
    requires |v| == |order| && forall i :: 0 <= i < |v| ==> v[i] == Seen(order[i])
    ensures Shows(Seen(node), node.cls, node.children, l, v, false)
  {
    var t := Seen(node);
    forall lbl ensures lbl in t.kids <==> HasNonEmpty(node.children, lbl) {
      SeenEdgesKeys(node.children, lbl);
    }
    forall k | 0 <= k < |node.children| ensures ListAt(t, node.children, k, l, v) {
      if Nodes(node.children[k].kid) != [] {
        ListSeen(order, node, l, v, k);
      }
    }
  }

  lemma ListSeen(order: seq<Node>, node: Node, l: nat, v: seq<View>, k: nat)
    requires DistinctLabels(node) && PlacedAt(order, l, Kids(node))
    requires |v| == |order| && forall i :: 0 <= i < |v| ==> v[i] == Seen(order[i])
    requires k < |node.children| && Nodes(node.children[k].kid) != []
    ensures ListIs(Seen(node), node.children, k, l, v)
  {
    SeenEdgesValue(node.children, k);
    EdgePlaced(order, node, l, k);
    ForestSeen(order, l + Roll(node.children, k), Nodes(node.children[k].kid), v);
  }

  lemma ForestSeen(order: seq<Node>, c: nat, ns: seq<Node>, v: seq<View>)
    requires PlacedAt(order, c, ns)
    requires |v| == |order| && forall i :: 0 <= i < |v| ==> v[i] == Seen(order[i])
    ensures SeenForest(ns) == v[c..c + |ns|]
  {
    forall x | 0 <= x < |ns| ensures SeenForest(ns)[x] == v[c + x] {
      assert order[c + x] == ns[x];
    }
  }

  /** Below every node the buffers show the given subtree iff it has no empty child array. */
  lemma {:induction false} SubtreeAgrees(b: Buffers, s: Schema, rows: nat, n: nat, order: seq<Node>, first: seq<nat>,
                                         d: seq<View>, v: seq<View>, j: nat)
    requires Sized(b, rows, n) && SchemaOk(s, rows) && LaidOut(order, first) && |first| == n
    requires Written(b, s, rows, n, order, first) && j < n && Everywhere(order[j], DistinctLabels)
    requires |d| == n && forall i :: 0 <= i < n ==> d[i] == Decode(b, s, rows, n, i)
    requires |v| == n && forall i :: 0 <= i < n ==> v[i] == Seen(order[i])
    ensures d[j] == v[j] <==> Everywhere(order[j], NoEmptyArrays)
    decreases n - j
  {
    var node, l := order[j], first[j];
    assert WrittenAt(b, s, rows, n, order, first, j) && LaidOutAt(order, first, j);
    EverywhereKids(node, DistinctLabels);
    EverywhereKids(node, NoEmptyArrays);
    forall c | l <= c < l + |Kids(node)|
      ensures d[c] == v[c] <==> Everywhere(Kids(node)[c - l], NoEmptyArrays)
    {
      assert order[c] == Kids(node)[c - l];
      SubtreeAgrees(b, s, rows, n, order, first, d, v, c);
    }
    KidsAgree(node, l, d, v);
    DecodeShows(b, s, rows, n, j, node, l, d);
    SeenShows(order, node, l, v);
    NodeAgrees(d[j], v[j], node, l, d, v);
  }

  lemma KidsAgree(node: Node, l: nat, d: seq<View>, v: seq<View>)
    requires l + |Kids(node)| <= |d| && |d| == |v|
    requires forall c :: l <= c < l + |Kids(node)| ==> (d[c] == v[c] <==> Everywhere(Kids(node)[c - l], NoEmptyArrays))
    ensures Agree(d, v, l, l + |Kids(node)|) <==> forall r :: 0 <= r < |Kids(node)| ==>
      Everywhere(Kids(node)[r], NoEmptyArrays)
  {
    var kids := Kids(node);
    assert forall r :: 0 <= r < |kids| ==> (d[l + r] == v[l + r] <==> Everywhere(kids[r], NoEmptyArrays));
  }

  /** Round trip: class tokens, leftmost-child links and right-sibling links, followed from index 0, give
      back the flattened tree exactly when it has no empty child array. (An empty array still gets a
      leftmost-child link, which then shows children of other nodes or leads out of the buffers.) */
  lemma ReadsBack(b: Buffers, s: Schema, rows: nat, n: nat, data: Node, order: seq<Node>, first: seq<nat>,
      levels: seq<Level>)
    requires Flattened(b, s, rows, n, data, order, first, levels) && Everywhere(data, DistinctLabels)
    ensures Decode(b, s, rows, n, 0) == Seen(data) <==> Everywhere(data, NoEmptyArrays)
  {
    var d := seq(n, i requires 0 <= i < n => Decode(b, s, rows, n, i));
    var v := seq(n, i requires 0 <= i < n => Seen(order[i]));
    SubtreeAgrees(b, s, rows, n, order, first, d, v, 0);
  }

  /** A test of node ids against an id token gives the nodes with that id, unless the token is the first
      one: a node without an id is left with id 0, so it passes for a node with the first id seen. */
  lemma IdTestExact(b: Buffers, s: Schema, rows: nat, n: nat, data: Node, order: seq<Node>, first: seq<nat>,
      levels: seq<Level>, t: nat)
    requires Flattened(b, s, rows, n, data, order, first, levels) && t < |b.tokens|
    ensures (forall j :: 0 <= j < n ==> (b.id[j] == t <==> order[j].id == Some(b.tokens[t]))) <==>
      (t == 0 ==> forall j :: 0 <= j < n ==> order[j].id.Some?)
  {
    forall j | 0 <= j < n ensures IdWritten(b, rows, n, j, order[j]) {
      assert WrittenAt(b, s, rows, n, order, first, j);
    }
  }
}
