/** The JSON tree handed to the flattener: every node has a class, an optional id and
    labelled children, each label holding either one node or an array of nodes. */
module Trees {

  datatype Option<+T> = None | Some(value: T)

  datatype Node = Node(cls: nat, id: Option<string>, children: seq<Edge>)
  datatype Edge = Edge(lbl: nat, kid: Kid)
  datatype Kid = One(node: Node) | Many(nodes: seq<Node>)

  function Nodes(k: Kid): seq<Node> {
    match k
    case One(n) => [n]
    case Many(ns) => ns
  }

  /** The children of a list of edges, in enumeration order. */
  function EdgeKids(es: seq<Edge>): seq<Node> {
    if es == [] then [] else Nodes(es[0].kid) + EdgeKids(es[1..])
  }

  function Kids(n: Node): seq<Node> {
    EdgeKids(n.children)
  }

  /** How many children the first `k` edges hold. */
  function Roll(es: seq<Edge>, k: nat): nat
    requires k <= |es|
  {
    if k == 0 then 0 else Roll(es, k - 1) + |Nodes(es[k - 1].kid)|
  }

  // ---- sizes ----

  ghost function Size(n: Node): nat
    decreases n
  {
    1 + SizeEdges(n.children)
  }

  ghost function SizeEdges(es: seq<Edge>): nat
    decreases es
  {
    if es == [] then 0 else SizeEdge(es[0]) + SizeEdges(es[1..])
  }

  ghost function SizeEdge(e: Edge): nat
    decreases e
  {
    match e
    case Edge(_, One(n)) => Size(n)
    case Edge(_, Many(ns)) => SizeForest(ns)
  }

  ghost function SizeForest(ns: seq<Node>): nat
    decreases ns
  {
    if ns == [] then 0 else Size(ns[0]) + SizeForest(ns[1..])
  }

  lemma {:induction false} SizeForestAppend(a: seq<Node>, b: seq<Node>)
    ensures SizeForest(a + b) == SizeForest(a) + SizeForest(b)
  {
    if a == [] {
      assert a + b == b;
    } else {
      SizeForestAppend(a[1..], b);
      assert (a + b)[1..] == a[1..] + b;
    }
  }

  lemma {:induction false} SizeEdgesIsForest(es: seq<Edge>)
    ensures SizeEdges(es) == SizeForest(EdgeKids(es))
  {
    if es != [] {
      SizeEdgesIsForest(es[1..]);
      SizeForestAppend(Nodes(es[0].kid), EdgeKids(es[1..]));
      if es[0].kid.One? {
        var n := es[0].kid.node;
        assert SizeForest([n]) == Size(n) + SizeForest([n][1..]);
      }
    }
  }

  lemma {:induction false} ForestAtLeastItsLength(ns: seq<Node>)
    ensures |ns| <= SizeForest(ns)
  {
    if ns != [] {
      ForestAtLeastItsLength(ns[1..]);
    }
  }

  // ---- where the children of each edge lie among all children ----

  lemma {:induction false} RollShift(es: seq<Edge>, k: nat)
    requires 0 < k <= |es|
    ensures Roll(es, k) == |Nodes(es[0].kid)| + Roll(es[1..], k - 1)
  {
    if k > 1 {
      RollShift(es, k - 1);
    }
  }

  lemma {:induction false} RollStep(es: seq<Edge>, k: nat)
    requires k < |es|
    ensures Roll(es, k) <= Roll(es, k + 1) == Roll(es, k) + |Nodes(es[k].kid)| <= |EdgeKids(es)|
    ensures forall i :: Roll(es, k) <= i < Roll(es, k + 1) ==> EdgeKids(es)[i] == Nodes(es[k].kid)[i - Roll(es, k)]
  {
    if k > 0 {
      RollStep(es[1..], k - 1);
      RollShift(es, k);
      RollShift(es, k + 1);
      var a, b := Nodes(es[0].kid), EdgeKids(es[1..]);
      forall i | Roll(es, k) <= i < Roll(es, k + 1) ensures EdgeKids(es)[i] == Nodes(es[k].kid)[i - Roll(es, k)] {
        assert EdgeKids(es)[i] == (a + b)[i] == b[i - |a|];
      }
    }
  }

  lemma {:induction false} RollAll(es: seq<Edge>)
    ensures Roll(es, |es|) == |EdgeKids(es)|
  {
    if es != [] {
      RollAll(es[1..]);
      RollShift(es, |es|);
    }
  }

  /** Every child belongs to one edge. */
  lemma {:induction false} EdgeOfKid(es: seq<Edge>, r: nat) returns (k: nat)
    requires r < |EdgeKids(es)|
    ensures k < |es| && Roll(es, k) <= r < Roll(es, k) + |Nodes(es[k].kid)|
  {
    if r < |Nodes(es[0].kid)| {
      k := 0;
    } else {
      var k' := EdgeOfKid(es[1..], r - |Nodes(es[0].kid)|);
      k := k' + 1;
      RollShift(es, k);
    }
  }

  // ---- declared labels, distinct labels, non-empty arrays: checks over a whole tree ----

  /** The grammar's child fields: which (class, label) pairs have a leftmost-child buffer, and its row. */
  type Schema = map<(nat, nat), nat>

  ghost predicate DeclaredHere(n: Node, s: Schema) {
    forall k :: 0 <= k < |n.children| ==> (n.cls, n.children[k].lbl) in s
  }

  /** Object keys are distinct. */
  ghost predicate DistinctLabels(n: Node) {
    forall j, k :: 0 <= j < k < |n.children| ==> n.children[j].lbl != n.children[k].lbl
  }

  ghost predicate NoEmptyArrays(n: Node) {
    forall k :: 0 <= k < |n.children| ==> Nodes(n.children[k].kid) != []
  }

  /** `p` holds of `n` and of all its descendants. */
  ghost predicate Everywhere(n: Node, p: Node -> bool)
    decreases n
  {
    p(n) && EverywhereEdges(n.children, p)
  }

  ghost predicate EverywhereEdges(es: seq<Edge>, p: Node -> bool)
    decreases es
  {
    es == [] || (EverywhereEdge(es[0], p) && EverywhereEdges(es[1..], p))
  }

  ghost predicate EverywhereEdge(e: Edge, p: Node -> bool)
    decreases e
  {
    match e
    case Edge(_, One(n)) => Everywhere(n, p)
    case Edge(_, Many(ns)) => EverywhereForest(ns, p)
  }

  ghost predicate EverywhereForest(ns: seq<Node>, p: Node -> bool)
    decreases ns
  {
    ns == [] || (Everywhere(ns[0], p) && EverywhereForest(ns[1..], p))
  }

  lemma {:induction false} EverywhereForestAll(ns: seq<Node>, p: Node -> bool)
    ensures EverywhereForest(ns, p) <==> forall i :: 0 <= i < |ns| ==> Everywhere(ns[i], p)
  {
    if ns != [] {
      EverywhereForestAll(ns[1..], p);
      assert forall i :: 1 <= i < |ns| ==> ns[i] == ns[1..][i - 1];
      assert forall i :: 0 <= i < |ns| - 1 ==> ns[1..][i] == ns[i + 1];
    }
  }

  lemma {:induction false} EverywhereForestAppend(a: seq<Node>, b: seq<Node>, p: Node -> bool)
    ensures EverywhereForest(a + b, p) <==> EverywhereForest(a, p) && EverywhereForest(b, p)
  {
    if a == [] {
      assert a + b == b;
    } else {
      EverywhereForestAppend(a[1..], b, p);
      assert (a + b)[1..] == a[1..] + b;
    }
  }

  lemma {:induction false} EverywhereEdgesAll(es: seq<Edge>, p: Node -> bool)
    ensures EverywhereEdges(es, p) <==> EverywhereForest(EdgeKids(es), p)
  {
    if es != [] {
      EverywhereEdgesAll(es[1..], p);
      EverywhereForestAppend(Nodes(es[0].kid), EdgeKids(es[1..]), p);
      if es[0].kid.One? {
        var n := es[0].kid.node;
        assert EverywhereForest([n], p) <==> Everywhere(n, p) && EverywhereForest([n][1..], p);
      }
    }
  }

  /** A property holds throughout a tree iff it holds at the root and throughout each child. */
  lemma EverywhereKids(n: Node, p: Node -> bool)
    ensures Everywhere(n, p) <==> p(n) && forall r :: 0 <= r < |Kids(n)| ==> Everywhere(Kids(n)[r], p)
  {
    EverywhereEdgesAll(n.children, p);
    EverywhereForestAll(Kids(n), p);
  }
}
