/** The straight-line match function that the selector engine emits for one selector, and its meaning. */
module SelectorCompiler {
  import opened Documents
  import opened Selectors

  /** The node expressions of the emitted code: nodeindex, nextNodeIdx, nextNodeIdx - nextSib. */
  datatype Ref = Self | NextNode | NextMinusSib

  /** One emitted line; `return 0` is the consequence of every `IfNot...`. */
  datatype Stmt =
    | IfNotPred(p: Item, at: Ref)
    | IfZero(at: Ref)
    | IfNoLeftSibling
    | NextIsSelf
    | NextIsParent
    | SibIsZero
    | IncSib
    | MatchedIsZero
    | MatchedIsPred(p: Item)
    | WhileNotMatched(body: seq<Stmt>)
    | Return1

  datatype Env = Env(next: int, sib: int, matched: bool)

  /** `Stuck` stands for a read outside the buffers. */
  datatype Outcome = Running(env: Env) | Returned(result: bool) | Stuck | OutOfFuel

  // ---- running emitted code ----

  function Node(at: Ref, node: nat, env: Env): int {
    match at
    case Self => node
    case NextNode => env.next
    case NextMinusSib => env.next - env.sib
  }

  function Read(doc: Doc, noId: nat, p: Item, i: int): (r: Outcome)
    requires doc.Valid()
    ensures r.Returned? || r.Stuck?
  {
    if p.Pred? && 0 <= i < |doc.parent| then Returned(Fits(doc, noId, p, i)) else Stuck
  }

  function ExecStmt(s: Stmt, doc: Doc, noId: nat, node: nat, env: Env, fuel: nat): Outcome
    requires doc.Valid()
    decreases fuel, s
  {
    match s
    case IfNotPred(p, at) =>
      var r := Read(doc, noId, p, Node(at, node, env));
      if r == Returned(true) then Running(env) else r
    case IfZero(at) => if Node(at, node, env) == 0 then Returned(false) else Running(env)
    case IfNoLeftSibling =>
      var i := env.next - env.sib;
      if !(0 <= i < |doc.left|) then Stuck else if doc.left[i] == 0 then Returned(false) else Running(env)
    case NextIsSelf => Running(env.(next := node))
    case NextIsParent => if 0 <= env.next < |doc.parent| then Running(env.(next := doc.parent[env.next])) else Stuck
    case SibIsZero => Running(env.(sib := 0))
    case IncSib => Running(env.(sib := env.sib + 1))
    case MatchedIsZero => Running(env.(matched := false))
    case MatchedIsPred(p) =>
      var r := Read(doc, noId, p, env.next);
      if r.Returned? then Running(env.(matched := r.result)) else r
    case WhileNotMatched(body) => ExecWhile(body, doc, noId, node, env, fuel)
    case Return1 => Returned(true)
  }

  function ExecWhile(body: seq<Stmt>, doc: Doc, noId: nat, node: nat, env: Env, fuel: nat): Outcome
    requires doc.Valid()
    decreases fuel, body
  {
    if env.matched then Running(env)
    else if fuel == 0 then OutOfFuel
    else
      var r := Exec(body, doc, noId, node, env, fuel - 1);
      if r.Running? then ExecWhile(body, doc, noId, node, r.env, fuel - 1) else r
  }

  function Exec(code: seq<Stmt>, doc: Doc, noId: nat, node: nat, env: Env, fuel: nat): Outcome
    requires doc.Valid()
    decreases fuel, code
  {
    if code == [] then Running(env)
    else
      var r := ExecStmt(code[0], doc, noId, node, env, fuel);
      if r.Running? then Exec(code[1..], doc, noId, node, r.env, fuel) else r
  }

  // ---- the emitted code ----

  function Snippet(op: nat, p: Item): seq<Stmt> {
    if op == DESCENDANT then
      [MatchedIsZero,
       WhileNotMatched([IfZero(NextNode), NextIsParent, MatchedIsPred(p)]),
       SibIsZero]
    else if op == CHILD then
      [IfZero(NextNode), NextIsParent, IfNotPred(p, NextNode), SibIsZero]
    else
      [IfNoLeftSibling, IncSib, IfNotPred(p, NextMinusSib)]
  }

  function CodeFrom(sel: seq<Item>, k: nat): seq<Stmt>
    requires SelectorOk(sel) && k <= Last(sel)
  {
    if k == 0 then [Return1] else Snippet(OpAt(sel, k - 1), PredAt(sel, k - 1)) + CodeFrom(sel, k - 1)
  }

  function Code(sel: seq<Item>): seq<Stmt>
    requires SelectorOk(sel)
  {
    [IfNotPred(PredAt(sel, Last(sel)), Self)]
    + (if |sel| != 1 then [IfZero(Self), NextIsSelf, SibIsZero, MatchedIsZero] else [])
    + CodeFrom(sel, Last(sel))
  }

  /** The lines for one combinator and the predicate left of it. */
  method EmitStep(code: seq<Stmt>, op: nat, pred: Item) returns (res: seq<Stmt>)
    ensures res == code + Snippet(op, pred)
  {
    res := code;
    if op == DESCENDANT {
      res := res + [MatchedIsZero, WhileNotMatched([IfZero(NextNode), NextIsParent, MatchedIsPred(pred)]), SibIsZero];
    } else if op == CHILD {
      res := res + [IfZero(NextNode), NextIsParent, IfNotPred(pred, NextNode), SibIsZero];
    } else {
      res := res + [IfNoLeftSibling, IncSib, IfNotPred(pred, NextMinusSib)];
    }
  }

  /** The lines for all combinators, right to left. */
  method EmitSteps(sel: seq<Item>, code: seq<Stmt>) returns (res: seq<Stmt>)
    requires SelectorOk(sel)
    ensures res + [Return1] == code + CodeFrom(sel, Last(sel))
  {
    res := code;
    var p := |sel| - 2;
    ghost var k, all := Last(sel), code + CodeFrom(sel, Last(sel));
    while p >= 1
      invariant 0 <= k <= Last(sel) && p == 2 * k - 1
      invariant res + CodeFrom(sel, k) == all
    {
      k := k - 1;
      assert sel[p].combinator == OpAt(sel, k) && sel[p - 1] == PredAt(sel, k);
      Associative(res, Snippet(OpAt(sel, k), PredAt(sel, k)), CodeFrom(sel, k));
      res := EmitStep(res, sel[p].combinator, sel[p - 1]);
      p := p - 2;
    }
  }

  lemma Associative(a: seq<Stmt>, b: seq<Stmt>, c: seq<Stmt>)
    ensures a + (b + c) == (a + b) + c
  {
  }

  method MakeMatchSelector(sel: seq<Item>) returns (res: seq<Stmt>)
    requires SelectorOk(sel)
    ensures res == Code(sel)
  {
    res := [IfNotPred(sel[|sel| - 1], Self)];
    if |sel| != 1 {
      res := res + [IfZero(Self), NextIsSelf, SibIsZero, MatchedIsZero];
      res := EmitSteps(sel, res);
    }
    res := res + [Return1];
  }

  // ---- it means the same as the interpreter ----

  lemma {:induction false} ExecAppend(a: seq<Stmt>, b: seq<Stmt>, doc: Doc, noId: nat, node: nat, env: Env, fuel: nat)
    requires doc.Valid()
    ensures Exec(a + b, doc, noId, node, env, fuel) ==
      var r := Exec(a, doc, noId, node, env, fuel);
      if r.Running? then Exec(b, doc, noId, node, r.env, fuel) else r
    decreases a
  {
    if a == [] {
      assert a + b == b;
    } else {
      assert (a + b)[0] == a[0] && (a + b)[1..] == a[1..] + b;
      var r := ExecStmt(a[0], doc, noId, node, env, fuel);
      if r.Running? {
        ExecAppend(a[1..], b, doc, noId, node, r.env, fuel);
      }
    }
  }

  lemma ExecCons(a: Stmt, rest: seq<Stmt>, doc: Doc, noId: nat, node: nat, env: Env, fuel: nat)
    requires doc.Valid()
    ensures Exec([a] + rest, doc, noId, node, env, fuel) ==
      var r := ExecStmt(a, doc, noId, node, env, fuel);
      if r.Running? then Exec(rest, doc, noId, node, r.env, fuel) else r
  {
    assert ([a] + rest)[0] == a && ([a] + rest)[1..] == rest;
  }

  lemma Exec3(a: Stmt, b: Stmt, c: Stmt, doc: Doc, noId: nat, node: nat, env: Env, fuel: nat)
    requires doc.Valid()
    ensures Exec([a, b, c], doc, noId, node, env, fuel) ==
      var r := ExecStmt(a, doc, noId, node, env, fuel);
      if !r.Running? then r else
        var r' := ExecStmt(b, doc, noId, node, r.env, fuel);
        if !r'.Running? then r' else ExecStmt(c, doc, noId, node, r'.env, fuel)
  {
    ExecCons(a, [b, c], doc, noId, node, env, fuel);
    assert [a, b, c] == [a] + [b, c];
    var r := ExecStmt(a, doc, noId, node, env, fuel);
    if r.Running? {
      ExecCons(b, [c], doc, noId, node, r.env, fuel);
      assert [b, c] == [b] + [c];
      var r' := ExecStmt(b, doc, noId, node, r.env, fuel);
      if r'.Running? {
        ExecCons(c, [], doc, noId, node, r'.env, fuel);
        assert [c] == [c] + [];
      }
    }
  }

  /** The emitted loop climbs like the interpreter and ends within as many turns as the node has index. */
  lemma {:induction false} LoopClimbs(doc: Doc, noId: nat, p: Item, node: nat, env: Env, fuel: nat)
    requires doc.Valid() && p.Pred? && 0 <= env.next < |doc.parent| && !env.matched && fuel > env.next
    ensures var a := Climb(doc, noId, p, env.next);
      ExecWhile([IfZero(NextNode), NextIsParent, MatchedIsPred(p)], doc, noId, node, env, fuel) ==
      if a == -1 then Returned(false) else Running(Env(a, env.sib, true))
    decreases env.next
  {
    var body := [IfZero(NextNode), NextIsParent, MatchedIsPred(p)];
    Exec3(IfZero(NextNode), NextIsParent, MatchedIsPred(p), doc, noId, node, env, fuel - 1);
    if env.next > 0 {
      var up := Env(doc.parent[env.next], env.sib, Fits(doc, noId, p, doc.parent[env.next]));
      assert Exec(body, doc, noId, node, env, fuel - 1) == Running(up);
      if !up.matched {
        LoopClimbs(doc, noId, p, node, up, fuel - 1);
      }
    }
  }

  /** `r` is the interpreter's step from predicate k in `env` to predicate k - 1, or its failure. */
  ghost predicate IsStep(doc: Doc, noId: nat, sel: seq<Item>, k: nat, env: Env, r: Outcome)
    requires doc.Valid() && SelectorOk(sel) && 0 < k <= Last(sel) && Run(doc, env.next, env.sib)
  {
    var goal := Greedy(doc, noId, sel, k, env.next - env.sib);
    if r.Running? then
      && Run(doc, r.env.next, r.env.sib) && r.env.next <= env.next
      && goal == Greedy(doc, noId, sel, k - 1, r.env.next - r.env.sib)
    else
      r == Returned(false) && !goal
  }

  lemma DescendantSteps(doc: Doc, noId: nat, sel: seq<Item>, k: nat, node: nat, env: Env, fuel: nat)
    requires doc.Valid() && SelectorOk(sel) && 0 < k <= Last(sel) && OpAt(sel, k - 1) == DESCENDANT
    requires Run(doc, env.next, env.sib) && fuel > env.next
    ensures IsStep(doc, noId, sel, k, env, Exec(Snippet(DESCENDANT, PredAt(sel, k - 1)), doc, noId, node, env, fuel))
  {
    var p := PredAt(sel, k - 1);
    var body := [IfZero(NextNode), NextIsParent, MatchedIsPred(p)];
    Exec3(MatchedIsZero, WhileNotMatched(body), SibIsZero, doc, noId, node, env, fuel);
    LoopClimbs(doc, noId, p, node, env.(matched := false), fuel);
    ClimbFromSibling(doc, noId, p, env.next, env.sib);
  }

  lemma ChildSteps(doc: Doc, noId: nat, sel: seq<Item>, k: nat, node: nat, env: Env, fuel: nat)
    requires doc.Valid() && SelectorOk(sel) && 0 < k <= Last(sel) && OpAt(sel, k - 1) == CHILD
    requires Run(doc, env.next, env.sib)
    ensures IsStep(doc, noId, sel, k, env, Exec(Snippet(CHILD, PredAt(sel, k - 1)), doc, noId, node, env, fuel))
  {
    var p := PredAt(sel, k - 1);
    var test := [IfZero(NextNode), NextIsParent, IfNotPred(p, NextNode)];
    assert Snippet(CHILD, p) == test + [SibIsZero];
    ExecAppend(test, [SibIsZero], doc, noId, node, env, fuel);
    Exec3(IfZero(NextNode), NextIsParent, IfNotPred(p, NextNode), doc, noId, node, env, fuel);
    assert [SibIsZero][1..] == [];
  }

  lemma AdjacentSteps(doc: Doc, noId: nat, sel: seq<Item>, k: nat, node: nat, env: Env, fuel: nat)
    requires doc.Valid() && SelectorOk(sel) && 0 < k <= Last(sel) && OpAt(sel, k - 1) == ADJACENT
    requires Run(doc, env.next, env.sib)
    ensures IsStep(doc, noId, sel, k, env, Exec(Snippet(ADJACENT, PredAt(sel, k - 1)), doc, noId, node, env, fuel))
  {
    Exec3(IfNoLeftSibling, IncSib, IfNotPred(PredAt(sel, k - 1), NextMinusSib), doc, noId, node, env, fuel);
  }

  lemma {:induction false} CodeFromMeans(doc: Doc, noId: nat, sel: seq<Item>, k: nat, node: nat, env: Env, fuel: nat)
    requires doc.Valid() && SelectorOk(sel) && k <= Last(sel)
    requires Run(doc, env.next, env.sib) && fuel > env.next
    ensures Exec(CodeFrom(sel, k), doc, noId, node, env, fuel) ==
      Returned(Greedy(doc, noId, sel, k, env.next - env.sib))
    decreases k
  {
    if k > 0 {
      var s := Snippet(OpAt(sel, k - 1), PredAt(sel, k - 1));
      ExecAppend(s, CodeFrom(sel, k - 1), doc, noId, node, env, fuel);
      var r := Exec(s, doc, noId, node, env, fuel);
      assert IsStep(doc, noId, sel, k, env, r) by {
        if OpAt(sel, k - 1) == DESCENDANT {
          DescendantSteps(doc, noId, sel, k, node, env, fuel);
        } else if OpAt(sel, k - 1) == CHILD {
          ChildSteps(doc, noId, sel, k, node, env, fuel);
        } else {
          AdjacentSteps(doc, noId, sel, k, node, env, fuel);
        }
      }
      if r.Running? {
        CodeFromMeans(doc, noId, sel, k - 1, node, r.env, fuel);
      }
    }
  }

  /** After the test of the last predicate: the declarations, then the steps. */
  lemma BodyMeans(doc: Doc, noId: nat, sel: seq<Item>, node: nat, env: Env, fuel: nat)
    requires doc.Valid() && SelectorOk(sel) && Last(sel) > 0 && node < |doc.parent| && fuel > node
    ensures Exec([IfZero(Self), NextIsSelf, SibIsZero, MatchedIsZero] + CodeFrom(sel, Last(sel)), doc, noId, node, env,
      fuel)
      == Returned(Greedy(doc, noId, sel, Last(sel), node))
  {
    var init, tail := [IfZero(Self), NextIsSelf, SibIsZero], [MatchedIsZero] + CodeFrom(sel, Last(sel));
    assert [IfZero(Self), NextIsSelf, SibIsZero, MatchedIsZero] + CodeFrom(sel, Last(sel)) == init + tail;
    ExecAppend(init, tail, doc, noId, node, env, fuel);
    Exec3(IfZero(Self), NextIsSelf, SibIsZero, doc, noId, node, env, fuel);
    if node != 0 {
      assert tail[0] == MatchedIsZero && tail[1..] == CodeFrom(sel, Last(sel));
      CodeFromMeans(doc, noId, sel, Last(sel), node, Env(node, 0, false), fuel);
    }
  }

  /** Running the code emitted for a selector gives the interpreter's answer, whatever its variables hold
      at the start; it never reads outside the buffers, and its loops end within node + 1 turns. */
  lemma CodeMeansMatches(doc: Doc, noId: nat, sel: seq<Item>, node: nat, env: Env, fuel: nat)
    requires doc.Valid() && SelectorOk(sel) && node < |doc.parent| && fuel > node
    ensures Exec(Code(sel), doc, noId, node, env, fuel) == Returned(Matches(doc, noId, sel, node))
  {
    var head := IfNotPred(PredAt(sel, Last(sel)), Self);
    var rest := (if |sel| != 1 then [IfZero(Self), NextIsSelf, SibIsZero, MatchedIsZero] else [])
      + CodeFrom(sel, Last(sel));
    assert Code(sel)[0] == head && Code(sel)[1..] == rest;
    if |sel| != 1 {
      assert Last(sel) > 0;
      BodyMeans(doc, noId, sel, node, env, fuel);
      assert Exec(rest, doc, noId, node, env, fuel) == Returned(Greedy(doc, noId, sel, Last(sel), node));
    } else {
      assert rest == CodeFrom(sel, 0) == [Return1] && rest[0] == Return1;
      assert Exec(rest, doc, noId, node, env, fuel) == Returned(true);
    }
  }
}
