/** Matching a compiled selector against a node of a flattened tree: the interpreter, what selectors
    mean, and how far the two agree.

    A selector is the token array [predicate, combinator, predicate, ..., predicate]. */
module Selectors {
  import opened Documents

  const STAR: nat := 0

  // combinator tokens: descendant " ", child ">", adjacent sibling "+"
  const DESCENDANT: nat := 0
  const CHILD: nat := 1
  const ADJACENT: nat := 2

  datatype Item = Pred(tag: nat, id: nat) | Op(combinator: nat)

  predicate SelectorOk(sel: seq<Item>) {
    && |sel| % 2 == 1
    && (forall i :: 0 <= i < |sel| && i % 2 == 0 ==> sel[i].Pred?)
    && (forall i :: 0 <= i < |sel| && i % 2 == 1 ==> sel[i].Op? && sel[i].combinator <= ADJACENT)
  }

  /** The index of the last predicate, counting predicates only. */
  function Last(sel: seq<Item>): nat
    requires SelectorOk(sel)
  {
    |sel| / 2
  }

  function PredAt(sel: seq<Item>, k: nat): (p: Item)
    requires SelectorOk(sel) && k <= Last(sel)
    ensures p.Pred?
  {
    sel[2 * k]
  }

  /** The combinator between predicates k and k + 1. */
  function OpAt(sel: seq<Item>, k: nat): (c: nat)
    requires SelectorOk(sel) && k < Last(sel)
    ensures c <= ADJACENT
  {
    sel[2 * k + 1].combinator
  }

  // ---- the interpreter ----

  predicate Fits(doc: Doc, noId: nat, p: Item, i: int)
    requires doc.Valid() && p.Pred? && 0 <= i < |doc.parent|
  {
    && (p.id != noId ==> doc.id[i] == p.id)
    && (p.tag != STAR ==> doc.tag[i] == p.tag)
  }

  /** The nearest proper ancestor of `x` that fits, or -1. */
  function Climb(doc: Doc, noId: nat, p: Item, x: int): (a: int)
    requires doc.Valid() && p.Pred? && 0 <= x < |doc.parent|
    ensures -1 <= a && (a != -1 ==> a < x && Fits(doc, noId, p, a))
    decreases x
  {
    if x == 0 then -1
    else if Fits(doc, noId, p, doc.parent[x]) then doc.parent[x]
    else Climb(doc, noId, p, doc.parent[x])
  }

  /** From node `x`, which stands for predicate k, the matcher finds nodes for predicates k - 1, ..., 0:
      for each combinator it takes the first candidate and never goes back. */
  predicate Greedy(doc: Doc, noId: nat, sel: seq<Item>, k: nat, x: int)
    requires doc.Valid() && SelectorOk(sel) && k <= Last(sel) && 0 <= x < |doc.parent|
    decreases k
  {
    if k == 0 then true
    else if OpAt(sel, k - 1) == DESCENDANT then
      var a := Climb(doc, noId, PredAt(sel, k - 1), x);
      a != -1 && Greedy(doc, noId, sel, k - 1, a)
    else if OpAt(sel, k - 1) == CHILD then
      x != 0 && Fits(doc, noId, PredAt(sel, k - 1), doc.parent[x]) && Greedy(doc, noId, sel, k - 1, doc.parent[x])
    else
      doc.left[x] != 0 && Fits(doc, noId, PredAt(sel, k - 1), x - 1) && Greedy(doc, noId, sel, k - 1, x - 1)
  }

  predicate Matches(doc: Doc, noId: nat, sel: seq<Item>, node: nat)
    requires doc.Valid() && SelectorOk(sel) && node < |doc.parent|
  {
    Fits(doc, noId, PredAt(sel, Last(sel)), node) && Greedy(doc, noId, sel, Last(sel), node)
  }

  /** `next` and its siblings down to `next - sib` have one parent. */
  predicate Run(doc: Doc, next: int, sib: int)
    requires doc.Valid()
  {
    && 0 <= sib <= next < |doc.parent|
    && (sib > 0 ==> next - sib > 0 && doc.parent[next - sib] == doc.parent[next])
  }

  lemma ClimbFromSibling(doc: Doc, noId: nat, p: Item, next: int, sib: int)
    requires doc.Valid() && p.Pred? && Run(doc, next, sib)
    ensures Climb(doc, noId, p, next) == Climb(doc, noId, p, next - sib)
  {
  }

  method MatchNodeSelectorPredicate(doc: Doc, noId: nat, nodeIdx: nat, pred: Item) returns (r: bool)
    requires doc.Valid() && pred.Pred? && nodeIdx < |doc.parent|
    ensures r == Fits(doc, noId, pred, nodeIdx)
  {
    if pred.id != noId {
      if doc.id[nodeIdx] != pred.id { return false; }
    }
    if pred.tag != STAR {
      if doc.tag[nodeIdx] != pred.tag { return false; }
    }
    return true;
  }

  /** The inner loop for a descendant combinator. */
  method MatchAncestor(doc: Doc, noId: nat, nodeIdx: int, pred: Item) returns (matched: bool, nextNodeIdx: int)
    requires doc.Valid() && pred.Pred? && 0 <= nodeIdx < |doc.parent|
    ensures matched <==> Climb(doc, noId, pred, nodeIdx) != -1
    ensures matched ==> nextNodeIdx == Climb(doc, noId, pred, nodeIdx)
  {
    matched, nextNodeIdx := false, nodeIdx;
    while !matched
      invariant 0 <= nextNodeIdx < |doc.parent|
      invariant Climb(doc, noId, pred, nodeIdx) == if matched then nextNodeIdx else Climb(doc, noId, pred, nextNodeIdx)
      decreases nextNodeIdx, !matched
    {
      if nextNodeIdx == 0 { return; }
      nextNodeIdx := doc.parent[nextNodeIdx];
      matched := MatchNodeSelectorPredicate(doc, noId, nextNodeIdx, pred);
    }
  }

  /** The matching loop walks right to left over the token array, with the current node split into an
      ancestor index and a count of steps to the left from it. */
  method MatchNodeSelector(doc: Doc, noId: nat, nodeIdx: nat, sel: seq<Item>) returns (r: bool)
    requires doc.Valid() && SelectorOk(sel) && nodeIdx < |doc.parent|
    ensures r == Matches(doc, noId, sel, nodeIdx)
  {
    var matchRoot := MatchNodeSelectorPredicate(doc, noId, nodeIdx, sel[|sel| - 1]);
    if !matchRoot { return false; }
    var plen := |sel|;
    if plen > 1 {
      if nodeIdx == 0 { return false; }
      var nextNodeIdx: int := nodeIdx;
      var nextSib := 0;
      var i := plen - 2;
      ghost var k, goal := Last(sel), Greedy(doc, noId, sel, Last(sel), nodeIdx);
      while i >= 1
        invariant k <= Last(sel) && i == 2 * k - 1
        invariant Run(doc, nextNodeIdx, nextSib)
        invariant goal == Greedy(doc, noId, sel, k, nextNodeIdx - nextSib)
      {
        k := k - 1;
        assert sel[i].combinator == OpAt(sel, k) && sel[i - 1] == PredAt(sel, k);
        if sel[i].combinator == DESCENDANT {
          ClimbFromSibling(doc, noId, sel[i - 1], nextNodeIdx, nextSib);
          var found;
          found, nextNodeIdx := MatchAncestor(doc, noId, nextNodeIdx, sel[i - 1]);
          if !found { return false; }
          nextSib := 0;
        } else if sel[i].combinator == CHILD {
          if nextNodeIdx == 0 { return false; }
          nextNodeIdx := doc.parent[nextNodeIdx];
          var ok := MatchNodeSelectorPredicate(doc, noId, nextNodeIdx, sel[i - 1]);
          if !ok { return false; }
          nextSib := 0;
        } else {
          if doc.left[nextNodeIdx - nextSib] == 0 { return false; }
          nextSib := nextSib + 1;
          var sibIdx := nextNodeIdx - nextSib;
          var ok := MatchNodeSelectorPredicate(doc, noId, sibIdx, sel[i - 1]);
          if !ok { return false; }
        }
        i := i - 2;
      }
    }
    return true;
  }

  // ---- what selectors mean ----

  ghost predicate ProperAncestor(doc: Doc, a: int, x: int)
    requires doc.Valid() && 0 <= x < |doc.parent|
    decreases x
  {
    x > 0 && (doc.parent[x] == a || ProperAncestor(doc, a, doc.parent[x]))
  }

  ghost predicate Related(doc: Doc, op: nat, y: int, x: int)
    requires doc.Valid() && 0 <= x < |doc.parent| && 0 <= y < |doc.parent|
  {
    if op == DESCENDANT then ProperAncestor(doc, y, x)
    else if op == CHILD then x > 0 && doc.parent[x] == y
    else y > 0 && y + 1 == x && doc.parent[y] == doc.parent[x]
  }

  /** Node `x` stands for predicate k in some assignment of nodes to predicates 0..k that respects every
      predicate and every combinator. */
  ghost predicate Holds(doc: Doc, noId: nat, sel: seq<Item>, k: nat, x: int)
    requires doc.Valid() && SelectorOk(sel) && k <= Last(sel) && 0 <= x < |doc.parent|
    decreases k
  {
    && (PredAt(sel, k).id == noId || doc.id[x] == PredAt(sel, k).id)
    && (PredAt(sel, k).tag == STAR || doc.tag[x] == PredAt(sel, k).tag)
    && (k > 0 ==>
        var j := k - 1;
        exists y :: 0 <= y < |doc.parent| && Related(doc, OpAt(sel, j), y, x) && Holds(doc, noId, sel, j, y))
  }

  ghost predicate Selected(doc: Doc, noId: nat, sel: seq<Item>, node: nat)
    requires doc.Valid() && SelectorOk(sel) && node < |doc.parent|
  {
    Holds(doc, noId, sel, Last(sel), node)
  }

  lemma {:induction false} ClimbsToAncestor(doc: Doc, noId: nat, p: Item, x: int)
    requires doc.Valid() && p.Pred? && 0 <= x < |doc.parent|
    ensures var a := Climb(doc, noId, p, x); a != -1 ==> ProperAncestor(doc, a, x)
    decreases x
  {
    if x > 0 {
      ClimbsToAncestor(doc, noId, p, doc.parent[x]);
    }
  }

  lemma {:induction false} GreedySound(doc: Doc, noId: nat, sel: seq<Item>, k: nat, x: int)
    requires doc.Valid() && SelectorOk(sel) && k <= Last(sel) && 0 <= x < |doc.parent|
    requires Fits(doc, noId, PredAt(sel, k), x) && Greedy(doc, noId, sel, k, x)
    ensures Holds(doc, noId, sel, k, x)
    decreases k
  {
    if k > 0 {
      var y := if OpAt(sel, k - 1) == DESCENDANT then Climb(doc, noId, PredAt(sel, k - 1), x)
               else if OpAt(sel, k - 1) == CHILD then doc.parent[x] else x - 1;
      ClimbsToAncestor(doc, noId, PredAt(sel, k - 1), x);
      GreedySound(doc, noId, sel, k - 1, y);
      assert Related(doc, OpAt(sel, k - 1), y, x);
    }
  }

  /** Whatever the interpreter matches is selected, on every document. */
  lemma MatchesSound(doc: Doc, noId: nat, sel: seq<Item>, node: nat)
    requires doc.Valid() && SelectorOk(sel) && node < |doc.parent|
    requires Matches(doc, noId, sel, node)
    ensures Selected(doc, noId, sel, node)
  {
    GreedySound(doc, noId, sel, Last(sel), node);
  }

  /** A selector of one predicate matches by the id and the class of the node, both unless left open. */
  lemma OnePredicate(doc: Doc, noId: nat, tag: nat, id: nat, node: nat)
    requires doc.Valid() && node < |doc.parent|
    ensures SelectorOk([Pred(tag, id)])
    ensures Matches(doc, noId, [Pred(tag, id)], node) <==>
      (id == noId || doc.id[node] == id) && (tag == STAR || doc.tag[node] == tag)
  {
    var sel := [Pred(tag, id)];
    assert SelectorOk(sel) && Last(sel) == 0 && PredAt(sel, 0) == Pred(tag, id);
  }

  /** One of two predicates also by the node's parent, left sibling or ancestors. */
  lemma TwoPredicates(doc: Doc, noId: nat, left: Item, op: nat, right: Item, node: nat)
    requires doc.Valid() && node < |doc.parent| && left.Pred? && right.Pred? && op <= ADJACENT
    ensures SelectorOk([left, Op(op), right]) && SelectorOk([left]) && SelectorOk([right])
    ensures op == CHILD ==>
      (Matches(doc, noId, [left, Op(op), right], node) <==>
        Matches(doc, noId, [right], node) && node > 0 && Matches(doc, noId, [left], doc.parent[node]))
    ensures op == ADJACENT ==>
      (Matches(doc, noId, [left, Op(op), right], node) <==>
        && Matches(doc, noId, [right], node)
        && node > 1 && doc.parent[node - 1] == doc.parent[node] && Matches(doc, noId, [left], node - 1))
    ensures op == DESCENDANT ==>
      (Matches(doc, noId, [left, Op(op), right], node) <==>
        && Matches(doc, noId, [right], node)
        && exists a: nat :: a < node && ProperAncestor(doc, a, node) && Matches(doc, noId, [left], a))
  {
    var sel := [left, Op(op), right];
    assert SelectorOk(sel) && Last(sel) == 1 && PredAt(sel, 0) == left && PredAt(sel, 1) == right && OpAt(sel, 0) == op;
    assert Last([left]) == 0 && Last([right]) == 0;
    assert forall a: nat :: a < |doc.parent| ==> (Matches(doc, noId, [left], a) <==> Fits(doc, noId, left, a));
    if op == DESCENDANT {
      ClimbsToAncestor(doc, noId, left, node);
      var up := Climb(doc, noId, left, node);
      assert Greedy(doc, noId, sel, 1, node) <==> up != -1;
      assert up != -1 ==> Matches(doc, noId, [left], up);
      forall a: nat | a < node && ProperAncestor(doc, a, node) && Fits(doc, noId, left, a)
        ensures Climb(doc, noId, left, node) != -1
      {
        ClimbIsNearest(doc, noId, left, node, a);
      }
    }
  }

  // ---- when greedy matching is complete ----

  predicate Universal(noId: nat, p: Item)
    requires p.Pred?
  {
    p.tag == STAR && p.id == noId
  }

  /** A combinator for which a lower starting point may fail where a higher one succeeds. */
  predicate Rigid(noId: nat, sel: seq<Item>, j: nat)
    requires SelectorOk(sel) && j < Last(sel)
  {
    OpAt(sel, j) == ADJACENT || (OpAt(sel, j) == CHILD && !Universal(noId, PredAt(sel, j)))
  }

  /** No "+", and no ">" after a predicate other than "*", stands left of a descendant combinator. */
  predicate Safe(noId: nat, sel: seq<Item>)
    requires SelectorOk(sel)
  {
    forall b, d :: 0 <= b < d < Last(sel) && OpAt(sel, d) == DESCENDANT ==> !Rigid(noId, sel, b)
  }

  ghost predicate AtOrAbove(doc: Doc, a: int, x: int)
    requires doc.Valid() && 0 <= x < |doc.parent|
  {
    a == x || ProperAncestor(doc, a, x)
  }

  lemma {:induction false} AncestorIsNode(doc: Doc, a: int, x: int)
    requires doc.Valid() && 0 <= x < |doc.parent| && ProperAncestor(doc, a, x)
    ensures 0 <= a < x
    decreases x
  {
    if doc.parent[x] != a {
      AncestorIsNode(doc, a, doc.parent[x]);
    }
  }

  lemma {:induction false} AncestorTransitive(doc: Doc, a: int, b: int, x: int)
    requires doc.Valid() && 0 <= b < |doc.parent| && 0 <= x < |doc.parent|
    requires ProperAncestor(doc, a, b) && AtOrAbove(doc, b, x)
    ensures ProperAncestor(doc, a, x)
    decreases x
  {
    if b != x && doc.parent[x] != b {
      AncestorTransitive(doc, a, b, doc.parent[x]);
    }
  }

  /** The nearest fitting ancestor is found whenever some ancestor fits, and is at or below it. */
  lemma {:induction false} ClimbIsNearest(doc: Doc, noId: nat, p: Item, x: int, y: int)
    requires doc.Valid() && p.Pred? && 0 <= x < |doc.parent| && 0 <= y < |doc.parent|
    requires ProperAncestor(doc, y, x) && Fits(doc, noId, p, y)
    ensures var a := Climb(doc, noId, p, x); a != -1 && AtOrAbove(doc, y, a)
    decreases x
  {
    if !Fits(doc, noId, p, doc.parent[x]) {
      ClimbIsNearest(doc, noId, p, doc.parent[x], y);
    }
  }

  lemma ParentAtOrAbove(doc: Doc, a: int, x: int)
    requires doc.Valid() && 0 < a < |doc.parent| && 0 <= x < |doc.parent| && AtOrAbove(doc, a, x)
    ensures x > 0 && AtOrAbove(doc, doc.parent[a], doc.parent[x])
  {
    if a != x {
      if doc.parent[x] != a {
        assert ProperAncestor(doc, doc.parent[a], a);
        AncestorTransitive(doc, doc.parent[a], a, doc.parent[x]);
      }
    }
  }

  lemma ClimbFromBelow(doc: Doc, noId: nat, p: Item, a: int, x: int)
    requires doc.Valid() && p.Pred? && 0 <= a < |doc.parent| && 0 <= x < |doc.parent| && AtOrAbove(doc, a, x)
    requires Climb(doc, noId, p, a) != -1
    ensures Climb(doc, noId, p, x) != -1 && AtOrAbove(doc, Climb(doc, noId, p, a), Climb(doc, noId, p, x))
  {
    var q := Climb(doc, noId, p, a);
    ClimbsToAncestor(doc, noId, p, a);
    AncestorTransitive(doc, q, a, x);
    ClimbIsNearest(doc, noId, p, x, q);
  }

  /** With no rigid combinator to the left, matching that succeeds from a node succeeds from any fitting
      node below it. (`== true` keeps the verifier from taking the premise apart.) */
  lemma {:induction false} GreedyFromBelow(doc: Doc, noId: nat, sel: seq<Item>, k: nat, a: int, x: int)
    requires doc.Valid() && SelectorOk(sel) && k <= Last(sel)
    requires 0 <= a < |doc.parent| && 0 <= x < |doc.parent| && AtOrAbove(doc, a, x)
    requires forall b :: 0 <= b < k ==> !Rigid(noId, sel, b)
    requires Greedy(doc, noId, sel, k, a) == true
    ensures Greedy(doc, noId, sel, k, x)
    decreases k
  {
    if k > 0 {
      var p := PredAt(sel, k - 1);
      assert !Rigid(noId, sel, k - 1);
      if OpAt(sel, k - 1) == DESCENDANT {
        var q := Climb(doc, noId, p, a);
        ClimbFromBelow(doc, noId, p, a, x);
        GreedyFromBelow(doc, noId, sel, k - 1, q, Climb(doc, noId, p, x));
      } else {
        ParentAtOrAbove(doc, a, x);
        GreedyFromBelow(doc, noId, sel, k - 1, doc.parent[a], doc.parent[x]);
      }
    }
  }

  lemma {:induction false} GreedyComplete(doc: Doc, noId: nat, sel: seq<Item>, k: nat, x: int)
    requires doc.Valid() && SelectorOk(sel) && k <= Last(sel) && 0 <= x < |doc.parent|
    requires Safe(noId, sel) && Holds(doc, noId, sel, k, x)
    ensures Greedy(doc, noId, sel, k, x)
    decreases k
  {
    if k > 0 {
      var j := k - 1;
      var y :| 0 <= y < |doc.parent| && Related(doc, OpAt(sel, j), y, x) && Holds(doc, noId, sel, j, y);
      GreedyComplete(doc, noId, sel, k - 1, y);
      if OpAt(sel, k - 1) == DESCENDANT {
        ClimbIsNearest(doc, noId, PredAt(sel, k - 1), x, y);
        GreedyFromBelow(doc, noId, sel, k - 1, y, Climb(doc, noId, PredAt(sel, k - 1), x));
      }
    }
  }

  // ---- a document on which every other selector fails ----
  //
  // Let combinator b be rigid, combinator d > b be a descendant combinator, and no descendant combinator
  // stand between them. The document is a chain of sibling runs, each run's last node holding the next
  // run, with one node per predicate placed as the combinators ask. Between the nodes of predicates d
  // and d + 1 stand d - b + 1 single children: the last fits predicate d, so the matcher stops there, and
  // the first does not fit predicate b.

  /** Which predicate the node at index i stands for; the extra nodes repeat predicate d. */
  function Role(sel: seq<Item>, b: nat, d: nat, i: nat): nat {
    if i == 0 then 0
    else if i <= d + 1 then i - 1
    else if i <= 2 * d - b + 2 then d
    else i - (d - b) - 2
  }

  /** Whether the node at index i is a right sibling of the node before it, rather than its child. */
  predicate Beside(sel: seq<Item>, b: nat, d: nat, i: nat)
    requires SelectorOk(sel) && b < d < Last(sel)
  {
    && 2 <= i && !(d + 2 <= i <= 2 * d - b + 3)
    && 0 < Role(sel, b, d, i) <= Last(sel)
    && OpAt(sel, Role(sel, b, d, i) - 1) == ADJACENT
  }

  function ParentOf(sel: seq<Item>, b: nat, d: nat, i: nat): (p: nat)
    requires SelectorOk(sel) && b < d < Last(sel)
    ensures i > 0 ==> p < i
    decreases i
  {
    if i == 0 then 0 else if Beside(sel, b, d, i) then ParentOf(sel, b, d, i - 1) else i - 1
  }

  /** Its class: that of its predicate, or any class for `*`; the first extra node has another. */
  function TagOf(sel: seq<Item>, b: nat, d: nat, i: nat): nat
    requires SelectorOk(sel) && b < d < Last(sel)
  {
    if i == d + 2 then PredAt(sel, b).tag + 1
    else if Role(sel, b, d, i) <= Last(sel) && PredAt(sel, Role(sel, b, d, i)).tag != STAR
    then PredAt(sel, Role(sel, b, d, i)).tag else STAR + 1
  }

  /** Its id: that of its predicate, or none; the first extra node has another. */
  function IdOf(noId: nat, sel: seq<Item>, b: nat, d: nat, i: nat): nat
    requires SelectorOk(sel) && b < d < Last(sel)
  {
    if i == d + 2 then (if PredAt(sel, b).id + 1 != noId then PredAt(sel, b).id + 1 else PredAt(sel, b).id + 2)
    else if Role(sel, b, d, i) <= Last(sel) && PredAt(sel, Role(sel, b, d, i)).id != noId
    then PredAt(sel, Role(sel, b, d, i)).id else 0
  }

  function SizeOf(sel: seq<Item>, b: nat, d: nat): nat
    requires SelectorOk(sel) && b < d < Last(sel)
  {
    Last(sel) + (d - b) + 3
  }

  function Trap(noId: nat, sel: seq<Item>, b: nat, d: nat): (doc: Doc)
    requires SelectorOk(sel) && b < d < Last(sel)
    ensures |doc.parent| == SizeOf(sel, b, d) && doc.Valid()
  {
    var n := SizeOf(sel, b, d);
    var doc := Doc(seq(n, i requires 0 <= i < n => IdOf(noId, sel, b, d, i)),
        seq(n, i requires 0 <= i < n => TagOf(sel, b, d, i)),
        seq(n, i requires 0 <= i < n => ParentOf(sel, b, d, i)),
        seq(n, i requires 0 <= i < n => if Beside(sel, b, d, i) then 1 else 0));
    doc
  }

  /** The index of the node for predicate k. */
  function Place(b: nat, d: nat, k: nat): nat
    requires b < d
  {
    if k <= d then k + 1 else k + (d - b) + 2
  }

  lemma PlaceFits(sel: seq<Item>, noId: nat, b: nat, d: nat, k: nat)
    requires SelectorOk(sel) && b < d < Last(sel) && k <= Last(sel)
    ensures Place(b, d, k) < SizeOf(sel, b, d) && Role(sel, b, d, Place(b, d, k)) == k
    ensures Fits(Trap(noId, sel, b, d), noId, PredAt(sel, k), Place(b, d, k))
  {
  }

  /** Between d and d + 1 the extra nodes are single children below the node for predicate d. */
  lemma {:induction false} ExtraBelow(noId: nat, sel: seq<Item>, b: nat, d: nat, i: nat)
    requires SelectorOk(sel) && b < d < Last(sel) && d + 2 <= i <= Place(b, d, d + 1)
    ensures ProperAncestor(Trap(noId, sel, b, d), Place(b, d, d), i)
    decreases i
  {
    assert Trap(noId, sel, b, d).parent[i] == i - 1;
    if i > d + 2 {
      ExtraBelow(noId, sel, b, d, i - 1);
    }
  }

  lemma TrapRelated(noId: nat, sel: seq<Item>, b: nat, d: nat, j: nat)
    requires SelectorOk(sel) && b < d < Last(sel) && OpAt(sel, d) == DESCENDANT && j < Last(sel)
    ensures Place(b, d, j) < SizeOf(sel, b, d) && Place(b, d, j + 1) < SizeOf(sel, b, d)
    ensures Related(Trap(noId, sel, b, d), OpAt(sel, j), Place(b, d, j), Place(b, d, j + 1))
  {
    var x, y := Place(b, d, j + 1), Place(b, d, j);
    if j == d {
      ExtraBelow(noId, sel, b, d, x);
    } else {
      assert Role(sel, b, d, x) == j + 1 && x == y + 1;
      assert Trap(noId, sel, b, d).parent[x] == ParentOf(sel, b, d, x) &&
        Trap(noId, sel, b, d).parent[y] == ParentOf(sel, b, d, y);
    }
  }

  lemma {:induction false} TrapHolds(sel: seq<Item>, noId: nat, b: nat, d: nat, k: nat)
    requires SelectorOk(sel) && b < d < Last(sel) && OpAt(sel, d) == DESCENDANT && k <= Last(sel)
    ensures Place(b, d, k) < SizeOf(sel, b, d)
    ensures Holds(Trap(noId, sel, b, d), noId, sel, k, Place(b, d, k))
    decreases k
  {
    PlaceFits(sel, noId, b, d, k);
    if k > 0 {
      TrapHolds(sel, noId, b, d, k - 1);
      TrapRelated(noId, sel, b, d, k - 1);
    }
  }

  /** From the last extra node the matcher fails on its way to predicate b. */
  lemma {:induction false} ExtraFails(sel: seq<Item>, noId: nat, b: nat, d: nat, k: nat)
    requires SelectorOk(sel) && b < k <= d < Last(sel) && Rigid(noId, sel, b)
    requires forall j :: b < j < d ==> OpAt(sel, j) != DESCENDANT
    ensures d + 2 + (k - b) < SizeOf(sel, b, d)
    ensures !Greedy(Trap(noId, sel, b, d), noId, sel, k, d + 2 + (k - b))
    decreases k
  {
    var doc, x := Trap(noId, sel, b, d), d + 2 + (k - b);
    assert doc.left[x] == 0 && doc.parent[x] == x - 1;
    if k > b + 1 {
      ExtraFails(sel, noId, b, d, k - 1);
    } else {
      assert doc.tag[d + 2] == PredAt(sel, b).tag + 1 && doc.id[d + 2] != PredAt(sel, b).id;
    }
  }

  /** From the node for predicate d + 1 the matcher climbs to the last extra node. */
  lemma TrapSprings(sel: seq<Item>, noId: nat, b: nat, d: nat)
    requires SelectorOk(sel) && b < d < Last(sel) && Rigid(noId, sel, b) && OpAt(sel, d) == DESCENDANT
    requires forall j :: b < j < d ==> OpAt(sel, j) != DESCENDANT
    ensures Place(b, d, d + 1) < SizeOf(sel, b, d)
    ensures !Greedy(Trap(noId, sel, b, d), noId, sel, d + 1, Place(b, d, d + 1))
  {
    var doc, x := Trap(noId, sel, b, d), Place(b, d, d + 1);
    assert doc.parent[x] == x - 1 == d + 2 + (d - b);
    assert Fits(doc, noId, PredAt(sel, d), x - 1);
    assert Climb(doc, noId, PredAt(sel, d), x) == x - 1;
    ExtraFails(sel, noId, b, d, d);
  }

  /** The node for predicate j fits it, and is the parent of the next unless a "+" joins the two. */
  predicate Links(doc: Doc, noId: nat, sel: seq<Item>, b: nat, d: nat, j: nat)
    requires doc.Valid() && SelectorOk(sel) && b < d && j < Last(sel) && Place(b, d, j + 1) < |doc.parent|
  {
    && (OpAt(sel, j) != ADJACENT ==> doc.parent[Place(b, d, j + 1)] == Place(b, d, j))
    && Fits(doc, noId, PredAt(sel, j), Place(b, d, j))
  }

  predicate Linked(doc: Doc, noId: nat, sel: seq<Item>, b: nat, d: nat, k: nat)
    requires doc.Valid() && SelectorOk(sel) && b < d < k <= Last(sel) && Place(b, d, k) < |doc.parent|
  {
    forall j: nat :: d < j < k ==> Links(doc, noId, sel, b, d, j)
  }

  /** Right of predicate d + 1 the matcher goes from each node to the one before, and so fails where the
      first fails. */
  lemma {:induction false} ChainFails(doc: Doc, noId: nat, sel: seq<Item>, b: nat, d: nat, k: nat)
    requires doc.Valid() && SelectorOk(sel) && b < d < k <= Last(sel) && Place(b, d, k) < |doc.parent|
    requires Linked(doc, noId, sel, b, d, k)
    requires !Greedy(doc, noId, sel, d + 1, Place(b, d, d + 1))
    ensures !Greedy(doc, noId, sel, k, Place(b, d, k))
    decreases k
  {
    if d + 1 < k {
      ChainFails(doc, noId, sel, b, d, k - 1);
      assert Links(doc, noId, sel, b, d, k - 1);
    }
  }

  lemma TrapLinked(sel: seq<Item>, noId: nat, b: nat, d: nat, k: nat)
    requires SelectorOk(sel) && b < d < k <= Last(sel)
    ensures Place(b, d, k) < SizeOf(sel, b, d) && Linked(Trap(noId, sel, b, d), noId, sel, b, d, k)
  {
    var doc := Trap(noId, sel, b, d);
    forall j: nat | d < j < k ensures Links(doc, noId, sel, b, d, j) {
      PlaceFits(sel, noId, b, d, j);
      assert Role(sel, b, d, Place(b, d, j + 1)) == j + 1;
    }
  }

  lemma TrapFails(sel: seq<Item>, noId: nat, b: nat, d: nat, k: nat)
    requires SelectorOk(sel) && b < d < k <= Last(sel) && Rigid(noId, sel, b) && OpAt(sel, d) == DESCENDANT
    requires forall j :: b < j < d ==> OpAt(sel, j) != DESCENDANT
    ensures Place(b, d, k) < SizeOf(sel, b, d)
    ensures !Greedy(Trap(noId, sel, b, d), noId, sel, k, Place(b, d, k))
  {
    TrapSprings(sel, noId, b, d);
    TrapLinked(sel, noId, b, d, k);
    ChainFails(Trap(noId, sel, b, d), noId, sel, b, d, k);
  }

  lemma {:induction false} FirstDescendant(sel: seq<Item>, b: nat, d: nat) returns (e: nat)
    requires SelectorOk(sel) && b < d < Last(sel) && OpAt(sel, d) == DESCENDANT
    ensures b < e <= d && OpAt(sel, e) == DESCENDANT && forall j :: b < j < e ==> OpAt(sel, j) != DESCENDANT
    decreases d
  {
    if j :| b < j < d && OpAt(sel, j) == DESCENDANT {
      e := FirstDescendant(sel, b, j);
    } else {
      e := d;
    }
  }

  /** The trap is in breadth-first order. */
  lemma {:induction false} TrapOrdered(noId: nat, sel: seq<Item>, b: nat, d: nat, i: nat, j: nat)
    requires SelectorOk(sel) && b < d < Last(sel) && 0 < i <= j < SizeOf(sel, b, d)
    ensures Trap(noId, sel, b, d).parent[i] <= Trap(noId, sel, b, d).parent[j]
    decreases j
  {
    if i < j {
      TrapOrdered(noId, sel, b, d, i, j - 1);
      assert Trap(noId, sel, b, d).parent[j - 1] == ParentOf(sel, b, d, j - 1) < j - 1;
      assert Trap(noId, sel, b, d).parent[j] == ParentOf(sel, b, d, j);
    }
  }

  /** Every node has a class, and none the token for "no id" as its id. (A node without an id has id 0.) */
  predicate Classed(noId: nat, doc: Doc) {
    && (forall i :: 0 <= i < |doc.tag| ==> doc.tag[i] != STAR)
    && (forall i :: 0 <= i < |doc.id| ==> doc.id[i] == noId ==> noId == 0)
  }

  lemma TrapIsFlattened(noId: nat, sel: seq<Item>, b: nat, d: nat)
    requires SelectorOk(sel) && b < d < Last(sel)
    ensures IsFlattened(Trap(noId, sel, b, d)) && Classed(noId, Trap(noId, sel, b, d))
  {
    var doc := Trap(noId, sel, b, d);
    forall i, j | 0 < i <= j < |doc.parent| ensures doc.parent[i] <= doc.parent[j] {
      TrapOrdered(noId, sel, b, d, i, j);
    }
    FlattenedIffOrdered(doc);
  }

  /** The interpreter finds exactly the selected nodes of every flattened tree. */
  ghost predicate Exact(noId: nat, sel: seq<Item>)
    requires SelectorOk(sel)
  {
    forall doc: Doc, node: nat :: IsFlattened(doc) && Classed(noId, doc) && doc.Valid() && node < |doc.parent| ==>
      (Matches(doc, noId, sel, node) <==> Selected(doc, noId, sel, node))
  }

  /** It does so if and only if the selector is safe. For an unsafe selector the tree that shows it has the
      classes and ids the selector names, and one node of another class and id. */
  lemma ExactIffSafe(noId: nat, sel: seq<Item>)
    requires SelectorOk(sel)
    ensures Exact(noId, sel) <==> Safe(noId, sel)
  {
    if Safe(noId, sel) {
      forall doc: Doc, node: nat | doc.Valid() && node < |doc.parent|
        ensures Matches(doc, noId, sel, node) <==> Selected(doc, noId, sel, node)
      {
        if Selected(doc, noId, sel, node) {
          GreedyComplete(doc, noId, sel, Last(sel), node);
        }
        if Matches(doc, noId, sel, node) {
          MatchesSound(doc, noId, sel, node);
        }
      }
    } else {
      var b, d0 :| 0 <= b < d0 < Last(sel) && OpAt(sel, d0) == DESCENDANT && Rigid(noId, sel, b);
      var d := FirstDescendant(sel, b, d0);
      var doc, node := Trap(noId, sel, b, d), Place(b, d, Last(sel));
      TrapHolds(sel, noId, b, d, Last(sel));
      TrapFails(sel, noId, b, d, Last(sel));
      TrapIsFlattened(noId, sel, b, d);
      assert Selected(doc, noId, sel, node) && !Matches(doc, noId, sel, node);
    }
  }

  /** A > B C */
  function ChildThenDescendant(): (sel: seq<Item>) {
    [Pred(1, 0), Op(CHILD), Pred(2, 0), Op(DESCENDANT), Pred(3, 0)]
  }

  /** The tree A > B > D > B > C, without ids. */
  function NestedTwice(): Doc {
    Doc([0, 0, 0, 0, 0], [1, 2, 4, 2, 3], [0, 0, 1, 2, 3], [0, 0, 0, 0, 0])
  }

  lemma NestedTwiceIsFlattened()
    ensures NestedTwice().Valid() && IsFlattened(NestedTwice()) && Classed(0, NestedTwice())
  {
    FlattenedIffOrdered(NestedTwice());
  }

  /** For instance `A > B C` misses the C in A > B > D > B > C. */
  lemma GreedyMisses()
    ensures var sel, doc := ChildThenDescendant(), NestedTwice();
      && SelectorOk(sel) && doc.Valid() && IsFlattened(doc) && Classed(0, doc)
      && Selected(doc, 0, sel, 4) && !Matches(doc, 0, sel, 4)
  {
    var sel, doc := ChildThenDescendant(), NestedTwice();
    NestedTwiceIsFlattened();
    assert SelectorOk(sel) && Last(sel) == 2;
    assert Holds(doc, 0, sel, 0, 0);
    assert Related(doc, OpAt(sel, 0), 0, 1) && Holds(doc, 0, sel, 1, 1);
    assert ProperAncestor(doc, 1, 2) && ProperAncestor(doc, 1, 3) && Related(doc, OpAt(sel, 1), 1, 4);
    assert Climb(doc, 0, PredAt(sel, 1), 4) == 3;
  }
}
