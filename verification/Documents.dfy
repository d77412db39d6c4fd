/** The documents that selectors are matched against: exactly the buffers of flattened trees. */
module Documents {
  import opened Trees
  import Layouts
  import Flattener

  /** The buffers a selector reads. */
  datatype Doc = Doc(id: seq<nat>, tag: seq<nat>, parent: seq<int>, left: seq<int>) {
    predicate Valid() {
      && 0 < |parent| == |left| == |id| == |tag|
      && parent[0] == 0 && left[0] == 0
      && (forall i :: 0 < i < |parent| ==> 0 <= parent[i] < i)
      && (forall i :: 0 < i < |left| ==> left[i] == if i > 1 && parent[i - 1] == parent[i] then 1 else 0)
    }
  }

  function DocOf(b: Flattener.Buffers): Doc {
    Doc(b.id, b.displayname, b.parent, b.leftSiblings)
  }

  /** Some grammar, some tokens and some tree make the flattener produce this document. */
  ghost predicate IsFlattened(doc: Doc) {
    exists b, s, rows, n, data, order, first, levels ::
      && Flattener.Flattened(b, s, rows, n, data, order, first, levels)
      && Everywhere(data, DistinctLabels) && doc == DocOf(b)
  }

  /** The buffers of any flattened tree are such a document. */
  lemma FlattenedIsDoc(b: Flattener.Buffers, s: Schema, rows: nat, n: nat, data: Node,
                       order: seq<Node>, first: seq<nat>, levels: seq<Layouts.Level>)
    requires Flattener.Flattened(b, s, rows, n, data, order, first, levels)
    ensures DocOf(b).Valid()
    ensures forall i :: 0 < i < n ==> b.parent[i] == Layouts.Parent(first, i)
  {
    forall i | 0 < i < n
      ensures b.parent[i] == Layouts.Parent(first, i)
      ensures b.leftSiblings[i] == if i == first[b.parent[i]] then 0 else 1
    {
      var p := Layouts.Parent(first, i);
      assert Flattener.WrittenAt(b, s, rows, n, order, first, p) && Flattener.LaidOutAt(order, first, p);
      assert Flattener.KidsWritten(b, rows, n, p, order[p], first[p], |Kids(order[p])|);
    }
    forall i | 1 < i < n ensures b.parent[i - 1] == b.parent[i] <==> i != first[b.parent[i]] {
      var p := Layouts.Parent(first, i);
      if i != first[p] {
        Layouts.ParentUnique(first, p, i - 1);
      }
    }
  }

  // ---- which documents these are ----

  /** Breadth-first order: parents come in the order of their children. */
  ghost predicate Ordered(doc: Doc)
    requires doc.Valid()
  {
    forall i, j :: 0 < i <= j < |doc.parent| ==> doc.parent[i] <= doc.parent[j]
  }

  // Below, a tree is built whose flattening is a given document.

  /** Where the children of node `j` start: at the first node from `c` on whose parent is `j` or later. */
  ghost function FirstFrom(doc: Doc, j: nat, c: nat): (r: nat)
    requires doc.Valid() && 1 <= c <= |doc.parent|
    ensures c <= r <= |doc.parent|
    ensures forall i :: c <= i < r ==> doc.parent[i] < j
    ensures r < |doc.parent| ==> doc.parent[r] >= j
    decreases |doc.parent| - c
  {
    if c == |doc.parent| || doc.parent[c] >= j then c else FirstFrom(doc, j, c + 1)
  }

  ghost function LayoutOf(doc: Doc): (f: seq<nat>)
    requires doc.Valid()
    ensures |f| == |doc.parent|
  {
    seq(|doc.parent|, j requires 0 <= j < |doc.parent| => FirstFrom(doc, j, 1))
  }

  lemma LayoutOk(doc: Doc)
    requires doc.Valid() && Ordered(doc)
    ensures Layouts.Valid(LayoutOf(doc))
    ensures forall j: nat, c: nat :: j < |doc.parent| ==>
      (Layouts.IsKid(LayoutOf(doc), j, c) <==> 0 < c < |doc.parent| && doc.parent[c] == j)
  {
    var f, n := LayoutOf(doc), |doc.parent|;
    forall j, k | 0 <= j <= k < n ensures f[j] <= f[k] {
      assert f[k] < n ==> doc.parent[f[k]] >= k;
    }
    forall j: nat, c: nat | j < n ensures Layouts.IsKid(f, j, c) <==> 0 < c < n && doc.parent[c] == j {
      KidsOfLayout(doc, j, c);
    }
  }

  lemma KidsOfLayout(doc: Doc, j: nat, c: nat)
    requires doc.Valid() && Ordered(doc) && j < |doc.parent|
    ensures Layouts.IsKid(LayoutOf(doc), j, c) <==> 0 < c < |doc.parent| && doc.parent[c] == j
  {
    var f, n := LayoutOf(doc), |doc.parent|;
    if 0 < c < n {
      assert c >= f[j] <==> doc.parent[c] >= j;
      if j + 1 < n {
        assert c >= f[j + 1] <==> doc.parent[c] >= j + 1;
      }
    }
  }

  /** The tree below node `i`; `names` are the id strings. */
  ghost function TreeAt(doc: Doc, f: seq<nat>, names: seq<string>, i: nat): Node
    requires doc.Valid() && Layouts.Valid(f) && |f| == |doc.parent| && i < |f|
    decreases |f| - i
  {
    var next := Layouts.Next(f, i);
    var kids := seq(next - f[i], d requires 0 <= d < next - f[i] => TreeAt(doc, f, names, f[i] + d));
    Node(doc.tag[i], if doc.id[i] < |names| then Option.Some(names[doc.id[i]]) else None,
         if kids == [] then [] else [Edge(0, Many(kids))])
  }

  ghost function Listing(doc: Doc, f: seq<nat>, names: seq<string>): (order: seq<Node>)
    requires doc.Valid() && Layouts.Valid(f) && |f| == |doc.parent|
    ensures |order| == |f| && forall i :: 0 <= i < |f| ==> order[i] == TreeAt(doc, f, names, i)
  {
    seq(|f|, i requires 0 <= i < |f| => TreeAt(doc, f, names, i))
  }

  lemma KidsAreListed(doc: Doc, f: seq<nat>, names: seq<string>, i: nat)
    requires doc.Valid() && Layouts.Valid(f) && |f| == |doc.parent| && i < |f|
    ensures var node, cnt := TreeAt(doc, f, names, i), Layouts.Next(f, i) - f[i];
      && |Kids(node)| == cnt && (forall d :: 0 <= d < cnt ==> Kids(node)[d] == TreeAt(doc, f, names, f[i] + d))
      && |node.children| == (if cnt == 0 then 0 else 1)
      && (cnt > 0 ==> node.children[0].lbl == 0 && Nodes(node.children[0].kid) == Kids(node))
  {
    var node := TreeAt(doc, f, names, i);
    if node.children != [] {
      assert node.children[1..] == [] && EdgeKids(node.children[1..]) == [];
    }
  }

  lemma ListingIsLaidOut(doc: Doc, f: seq<nat>, names: seq<string>)
    requires doc.Valid() && Layouts.Valid(f) && |f| == |doc.parent|
    ensures Flattener.LaidOut(Listing(doc, f, names), f)
    ensures Everywhere(TreeAt(doc, f, names, 0), DistinctLabels)
  {
    var order := Listing(doc, f, names);
    forall j | 0 <= j < |f| ensures Flattener.LaidOutAt(order, f, j) && DistinctLabels(order[j]) {
      KidsAreListed(doc, f, names, j);
    }
    Flattener.ListedEverywhere(order, f, DistinctLabels, 0);
  }

  // ---- tokens, rows and levels ----

  ghost function Bound(s: seq<nat>): (r: nat)
    ensures forall i :: 0 <= i < |s| ==> s[i] < r
  {
    if s == [] then 0 else
      var k := |s| - 1;
      var r := Bound(s[..k]);
      assert forall i :: 0 <= i < k ==> s[i] == s[..k][i];
      if s[k] < r then r else s[k] + 1
  }

  /** Strings that differ in length. */
  function Names(k: nat): (r: seq<string>)
    ensures |r| == k && forall i :: 0 <= i < k ==> |r[i]| == i
  {
    seq(k, i requires 0 <= i < k => seq(i, _ => 'a'))
  }

  /** One child field for each class, in the row numbered by the class. */
  ghost function SchemaOf(doc: Doc): (s: Schema)
    ensures forall f :: f in s <==> f.0 in doc.tag && f.1 == 0
    ensures forall f :: f in s ==> s[f] == f.0
  {
    map f | f in set c | c in doc.tag :: (c, 0) :: f.0
  }

  ghost function BuffersOf(doc: Doc): Flattener.Buffers
    requires doc.Valid()
  {
    var f, n := LayoutOf(doc), |doc.parent|;
    Flattener.Buffers(doc.tag, doc.id, doc.parent, doc.left,
      seq(n, c requires 0 <= c < n => if 0 < c && c + 1 < n && doc.parent[c + 1] == doc.parent[c] then 1 else 0),
      seq(Bound(doc.tag), r => seq(n, j requires 0 <= j < n =>
        if doc.tag[j] == r && f[j] < Layouts.Next(f, j) then f[j] - j else 0)),
      Names(Bound(doc.id)))
  }

  lemma BuffersSized(doc: Doc)
    requires doc.Valid()
    ensures Flattener.Sized(BuffersOf(doc), Bound(doc.tag), |doc.parent|)
    ensures Flattener.SchemaOk(SchemaOf(doc), Bound(doc.tag))
  {
  }

  /** The buffers hold the listed tree's node `j`. */
  lemma NodeIsWritten(doc: Doc, j: nat)
    requires doc.Valid() && Ordered(doc) && j < |doc.parent| && Layouts.Valid(LayoutOf(doc))
    requires Flattener.Sized(BuffersOf(doc), Bound(doc.tag), |doc.parent|)
    requires Flattener.SchemaOk(SchemaOf(doc), Bound(doc.tag))
    ensures var f, n := LayoutOf(doc), |doc.parent|;
      Flattener.NodeWritten(BuffersOf(doc), SchemaOf(doc), Bound(doc.tag), n, j,
                            TreeAt(doc, f, Names(Bound(doc.id)), j), f[j])
  {
    var f, node := LayoutOf(doc), TreeAt(doc, LayoutOf(doc), Names(Bound(doc.id)), j);
    KidsAreListed(doc, f, Names(Bound(doc.id)), j);
    LinksAreWritten(doc, j, node);
    forall c | f[j] <= c < f[j] + |Kids(node)|
      ensures doc.parent[c] == j && doc.left[c] == (if c == f[j] then 0 else 1)
      ensures BuffersOf(doc).rightSiblings[c] == Flattener.RightOf(node.children, c - f[j])
    {
      SiblingLinks(doc, j, c);
      RightOfOnly(node.children, c - f[j]);
    }
  }

  lemma SiblingLinks(doc: Doc, j: nat, c: nat)
    requires doc.Valid() && Ordered(doc) && j < |doc.parent| && Layouts.Valid(LayoutOf(doc))
    requires Layouts.IsKid(LayoutOf(doc), j, c) && c < |doc.parent|
    ensures doc.parent[c] == j && doc.left[c] == (if c == LayoutOf(doc)[j] then 0 else 1)
    ensures BuffersOf(doc).rightSiblings[c] == if c + 1 < Layouts.Next(LayoutOf(doc), j) then 1 else 0
  {
    KidsOfLayout(doc, j, c);
    KidsOfLayout(doc, j, c - 1);
    KidsOfLayout(doc, j, c + 1);
  }

  lemma RightOfOnly(es: seq<Edge>, r: nat)
    requires |es| == 1 && EdgeKids(es) == Nodes(es[0].kid) && r < |EdgeKids(es)|
    ensures Flattener.RightOf(es, r) == if r + 1 < |EdgeKids(es)| then 1 else 0
  {
  }

  lemma LinksAreWritten(doc: Doc, j: nat, node: Node)
    requires doc.Valid() && Ordered(doc) && j < |doc.parent| && Layouts.Valid(LayoutOf(doc))
    requires Flattener.Sized(BuffersOf(doc), Bound(doc.tag), |doc.parent|)
    requires node == TreeAt(doc, LayoutOf(doc), Names(Bound(doc.id)), j)
    ensures Flattener.LeftmostWritten(BuffersOf(doc), SchemaOf(doc), Bound(doc.tag), |doc.parent|, j, node,
                                      LayoutOf(doc)[j], |node.children|)
  {
    var f, n, b, s, rows := LayoutOf(doc), |doc.parent|, BuffersOf(doc), SchemaOf(doc), Bound(doc.tag);
    KidsAreListed(doc, f, Names(Bound(doc.id)), j);
    RowsOfClasses(doc, j);
    OneLink(b, s, rows, n, j, node, f[j]);
  }

  lemma OneLink(b: Flattener.Buffers, s: Schema, rows: nat, n: nat, j: nat, node: Node, l: nat)
    requires Flattener.Sized(b, rows, n) && j < n && |node.children| <= 1
    requires node.children != [] ==> node.children[0].lbl == 0
    requires (node.cls, 0) in s && s[(node.cls, 0)] == node.cls < rows
    requires forall r :: 0 <= r < rows ==> b.leftmost[r][j] == if r == node.cls && node.children != [] then l - j else 0
    ensures Flattener.LeftmostWritten(b, s, rows, n, j, node, l, |node.children|)
  {
    if node.children != [] {
      assert Flattener.RowOf(s, node, 0) == node.cls && Roll(node.children, 0) == 0;
      assert Flattener.LinkAt(b, s, rows, n, j, node, l, 0);
    }
  }

  /** A node has a link only in the row of its class, and there only if it has children. */
  lemma RowsOfClasses(doc: Doc, j: nat)
    requires doc.Valid() && j < |doc.parent| && Layouts.Valid(LayoutOf(doc))
    ensures (doc.tag[j], 0) in SchemaOf(doc) && SchemaOf(doc)[(doc.tag[j], 0)] == doc.tag[j] < Bound(doc.tag)
    ensures var f, left := LayoutOf(doc), BuffersOf(doc).leftmost;
      forall r :: 0 <= r < Bound(doc.tag) ==>
        left[r][j] == if r == doc.tag[j] && f[j] < Layouts.Next(f, j) then f[j] - j else 0
  {
    assert doc.tag[j] in doc.tag;
  }

  /** Every layout is cut into levels. */
  lemma {:induction false} LevelsFrom(f: seq<nat>, levels: seq<Layouts.Level>) returns (all: seq<Layouts.Level>)
    requires Layouts.Valid(f) && |levels| > 0 && levels[0] == Layouts.Level(0, 1)
    requires Layouts.LevelEnd(levels, |levels| - 1) <= |f|
    requires forall l :: 0 <= l < |levels| ==> Layouts.CutAt(levels, l, |f|) && Layouts.ChildrenAfter(f, levels, l)
    ensures Layouts.LevelsOk(f, all)
    decreases |f| - Layouts.LevelEnd(levels, |levels| - 1)
  {
    var end := Layouts.LevelEnd(levels, |levels| - 1);
    if end == |f| {
      all := levels;
    } else {
      var more := levels + [Layouts.Level(end, f[end] - end)];
      forall l | 0 <= l < |more| ensures Layouts.CutAt(more, l, |f|) && Layouts.ChildrenAfter(f, more, l) {
        if l < |levels| {
          assert Layouts.CutAt(levels, l, |f|) && Layouts.ChildrenAfter(f, levels, l);
        }
      }
      all := LevelsFrom(f, more);
    }
  }

  lemma LevelsOf(f: seq<nat>) returns (levels: seq<Layouts.Level>)
    requires Layouts.Valid(f)
    ensures Layouts.LevelsOk(f, levels)
  {
    var root := [Layouts.Level(0, 1)];
    assert Layouts.CutAt(root, 0, |f|) && Layouts.ChildrenAfter(f, root, 0);
    levels := LevelsFrom(f, root);
  }

  /** A valid document in breadth-first order is the flattening of a tree. */
  lemma OrderedIsFlattened(doc: Doc)
    requires doc.Valid() && Ordered(doc)
    ensures IsFlattened(doc)
  {
    var f, n, names, b, s, rows := LayoutOf(doc), |doc.parent|, Names(Bound(doc.id)), BuffersOf(doc), SchemaOf(doc),
      Bound(doc.tag);
    LayoutOk(doc);
    BuffersSized(doc);
    var order := Listing(doc, f, names);
    ListingIsLaidOut(doc, f, names);
    forall j | 0 <= j < n ensures Flattener.WrittenAt(b, s, rows, n, order, f, j) {
      NodeIsWritten(doc, j);
    }
    var levels := LevelsOf(f);
    assert Flattener.Flattened(b, s, rows, n, order[0], order, f, levels);
    assert doc == DocOf(b);
  }

  /** The documents the flattener produces are exactly the valid ones in breadth-first order, whatever classes
      and ids they have: for every such document there are a grammar, tokens and a tree that give it. */
  lemma FlattenedIffOrdered(doc: Doc)
    ensures IsFlattened(doc) <==> doc.Valid() && Ordered(doc)
  {
    if IsFlattened(doc) {
      var b, s, rows, n, data, order, first, levels :|
        && Flattener.Flattened(b, s, rows, n, data, order, first, levels)
        && Everywhere(data, DistinctLabels) && doc == DocOf(b);
      FlattenedIsDoc(b, s, rows, n, data, order, first, levels);
      forall i, j | 0 < i <= j < |doc.parent| ensures doc.parent[i] <= doc.parent[j] {
        Layouts.ParentMonotone(first, i, j);
      }
    }
    if doc.Valid() && Ordered(doc) {
      OrderedIsFlattened(doc);
    }
  }
}
