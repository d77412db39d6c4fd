/** The selector kernel as a whole: the emitted match functions and tables, run at every node. */
module EmittedKernel {
  import opened Documents
  import opened Selectors
  import opened Cascade
  import opened Painting
  import opened Cascades
  import opened KernelMerge
  import opened Layouts
  import SelectorCompiler

  /** What is emitted for a hit: its match function, its number as an unsigned int, its assignments. */
  datatype Compiled = Compiled(code: seq<SelectorCompiler.Stmt>, specificity: nat, properties: Props)

  ghost predicate CompiledFrom(c: Compiled, h: Hit) {
    c == Compiled(SelectorCompiler.Code(h.pred), Spec(h), h.properties)
  }

  ghost predicate AllCompiled(cs: seq<Compiled>, hs: seq<Hit>) {
    |cs| == |hs| && forall i :: 0 <= i < |cs| ==> CompiledFrom(cs[i], hs[i])
  }

  /** The switches over id and tag tokens, and the star functions. */
  datatype Kernel = Kernel(ids: map<nat, seq<Compiled>>, tags: map<nat, seq<Compiled>>, stars: seq<Compiled>)

  ghost predicate KernelOf(kernel: Kernel, hashes: Hashes) {
    && (forall k :: AllCompiled(Get(kernel.ids, k), Get(hashes.idHash, k)))
    && (forall k :: AllCompiled(Get(kernel.tags, k), Get(hashes.tagHash, k)))
    && AllCompiled(kernel.stars, hashes.star)
  }

  // ---- emitting it ----

  method EmitSels(sels: seq<Hit>) returns (res: seq<Compiled>)
    ensures AllCompiled(res, sels)
  {
    res := [];
    for j := 0 to |sels|
      invariant AllCompiled(res, sels[..j])
    {
      var code := SelectorCompiler.MakeMatchSelector(sels[j].pred);
      res := res + [Compiled(code, Spec(sels[j]), sels[j].properties)];
    }
    assert sels[..|sels|] == sels;
  }

  method EmitSwitch(hash: map<nat, seq<Hit>>) returns (res: map<nat, seq<Compiled>>)
    ensures forall k :: AllCompiled(Get(res, k), Get(hash, k))
  {
    res := map[];
    var keys := hash.Keys;
    while keys != {}
      invariant keys <= hash.Keys && res.Keys == hash.Keys - keys
      invariant forall k :: k in res ==> AllCompiled(res[k], hash[k])
    {
      var k :| k in keys;
      var cs := EmitSels(hash[k]);
      res := res[k := cs];
      keys := keys - {k};
    }
  }

  method MakeKernel(hashes: Hashes) returns (kernel: Kernel)
    ensures KernelOf(kernel, hashes)
  {
    var ids := EmitSwitch(hashes.idHash);
    var tags := EmitSwitch(hashes.tagHash);
    var stars := EmitSels(hashes.star);
    kernel := Kernel(ids, tags, stars);
  }

  // ---- running it ----

  /** Runs the emitted match function and, if it returns 1, the assignments; returns how many. */
  method MatchSelector(doc: Doc, noId: nat, node: nat, c: Compiled, style: Props, ghost h: Hit)
      returns (res: Props, count: nat)
    requires doc.Valid() && node < |doc.parent| && CompiledFrom(c, h)
    ensures res == Try(doc, noId, node, style, h)
    ensures count == if Matches(doc, noId, h.pred, node) then |h.properties| else 0
  {
    var env := SelectorCompiler.Env(0, 0, false);
    SelectorCompiler.CodeMeansMatches(doc, noId, h.pred, node, env, node + 1);
    var r := SelectorCompiler.Exec(c.code, doc, noId, node, env, node + 1);
    if r.result {
      res, count := style + c.properties, |c.properties|;
    } else {
      res, count := style, 0;
    }
  }

  lemma NextInBucket(cs: seq<Compiled>, hs: seq<Hit>, i: nat)
    requires AllCompiled(cs, hs) && i <= |cs|
    ensures i < |cs| ==> CompiledFrom(cs[i], hs[i]) && hs[i..][0] == hs[i] && hs[i..][1..] == hs[i + 1..]
  {
  }

  /** The cursors of the loop. */
  datatype Cursors = Cursors(id: nat, tag: nat, star: nat)

  ghost predicate Within(c: Cursors, ids: seq<Hit>, tags: seq<Hit>, stars: seq<Hit>) {
    c.id <= |ids| && c.tag <= |tags| && c.star <= |stars|
  }

  /** The hits still to be tried, in order. */
  ghost function Left(c: Cursors, ids: seq<Hit>, tags: seq<Hit>, stars: seq<Hit>): seq<Hit>
    requires Within(c, ids, tags, stars)
  {
    Merge3(ids[c.id..], tags[c.tag..], stars[c.star..])
  }

  /** Picks the candidate to try next and advances its cursor. */
  method Choose(ids: seq<Compiled>, tags: seq<Compiled>, stars: seq<Compiled>, c: Cursors,
                ghost idHits: seq<Hit>, ghost tagHits: seq<Hit>, ghost starHits: seq<Hit>)
    returns (sel: Compiled, next: Cursors, ghost hit: Hit)
    requires AllCompiled(ids, idHits) && AllCompiled(tags, tagHits) && AllCompiled(stars, starHits)
    requires Within(c, idHits, tagHits, starHits) && (c.id != |ids| || c.tag != |tags| || c.star != |stars|)
    ensures CompiledFrom(sel, hit) && Within(next, idHits, tagHits, starHits)
    ensures next.id + next.tag + next.star == c.id + c.tag + c.star + 1
    ensures Left(c, idHits, tagHits, starHits) == [hit] + Left(next, idHits, tagHits, starHits)
  {
    ghost var i, t, s := idHits[c.id..], tagHits[c.tag..], starHits[c.star..];
    NextInBucket(ids, idHits, c.id);
    NextInBucket(tags, tagHits, c.tag);
    NextInBucket(stars, starHits, c.star);
    var tryId :=
      if c.id == |ids| then false
      else if c.tag != |tags| && ids[c.id].specificity >= tags[c.tag].specificity then false
      else if c.star != |stars| && ids[c.id].specificity >= stars[c.star].specificity then false
      else true;
    assert tryId == TryId(i, t, s);
    if tryId {
      sel, next, hit := ids[c.id], c.(id := c.id + 1), i[0];
    } else if c.tag != |tags| && (c.star == |stars| || tags[c.tag].specificity >= stars[c.star].specificity) {
      sel, next, hit := tags[c.tag], c.(tag := c.tag + 1), t[0];
    } else {
      sel, next, hit := stars[c.star], c.(star := c.star + 1), s[0];
    }
  }

  /** One turn of the loop: what is left to paint and to count stays the same in sum. */
  lemma TryFirst(doc: Doc, noId: nat, node: nat, style: Props, h: Hit, rest: seq<Hit>)
    requires doc.Valid() && node < |doc.parent|
    ensures Paint(doc, noId, node, style, [h] + rest)
      == Paint(doc, noId, node, Try(doc, noId, node, style, h), rest)
    ensures Applied(doc, noId, node, [h] + rest)
      == (if Matches(doc, noId, h.pred, node) then |h.properties| else 0) + Applied(doc, noId, node, rest)
  {
    assert ([h] + rest)[1..] == rest;
  }

  /** The emitted loop at one node, with its three cursors. */
  method MatchNodeKernel(doc: Doc, noId: nat, node: nat, style: Props, kernel: Kernel, ghost hashes: Hashes)
    returns (res: Props, matches: nat)
    requires doc.Valid() && node < |doc.parent| && KernelOf(kernel, hashes)
    ensures res == Paint(doc, noId, node, style, Tried(doc, hashes, node))
    ensures matches == Applied(doc, noId, node, Tried(doc, hashes, node))
  {
    var ids, tags, stars := Get(kernel.ids, doc.id[node]), Get(kernel.tags, doc.tag[node]), kernel.stars;
    ghost var i, t, s := Get(hashes.idHash, doc.id[node]), Get(hashes.tagHash, doc.tag[node]), hashes.star;
    var cur := Cursors(0, 0, 0);
    res, matches := style, 0;
    ghost var final, all := Paint(doc, noId, node, style, Tried(doc, hashes, node)),
      Applied(doc, noId, node, Tried(doc, hashes, node));
    while cur.id != |ids| || cur.tag != |tags| || cur.star != |stars|
      invariant Within(cur, i, t, s)
      invariant final == Paint(doc, noId, node, res, Left(cur, i, t, s))
      invariant all == matches + Applied(doc, noId, node, Left(cur, i, t, s))
      decreases |ids| + |tags| + |stars| - cur.id - cur.tag - cur.star
    {
      var sel, next, hit := Choose(ids, tags, stars, cur, i, t, s);
      TryFirst(doc, noId, node, res, hit, Left(next, i, t, s));
      var count;
      res, count := MatchSelector(doc, noId, node, sel, res, hit);
      matches := matches + count;
      cur := next;
    }
  }

  /** The hits the kernel tries at a node, in order. */
  ghost function Tried(doc: Doc, hashes: Hashes, node: nat): seq<Hit>
    requires doc.Valid() && node < |doc.parent|
  {
    Merge3(Get(hashes.idHash, doc.id[node]), Get(hashes.tagHash, doc.tag[node]), hashes.star)
  }

  /** The kernel at every node. A node's run reads and writes nothing of other nodes but the tree's links,
      ids and classes, so their order does not matter. */
  method RunKernel(painter: Painter, selectorsBuffer: array<nat>, doc: Doc, noId: nat, kernel: Kernel,
      ghost hashes: Hashes)
    requires doc.Valid() && |doc.parent| == painter.style.Length == selectorsBuffer.Length && KernelOf(kernel, hashes)
    modifies painter.style, selectorsBuffer
    ensures forall i :: 0 <= i < painter.style.Length ==>
      && painter.style[i] == Paint(doc, noId, i, old(painter.style[i]), Tried(doc, hashes, i))
      && selectorsBuffer[i] == Applied(doc, noId, i, Tried(doc, hashes, i))
  {
    for node := 0 to painter.style.Length
      invariant forall i :: node <= i < painter.style.Length ==> painter.style[i] == old(painter.style[i])
      invariant forall i :: 0 <= i < node ==>
        && painter.style[i] == Paint(doc, noId, i, old(painter.style[i]), Tried(doc, hashes, i))
        && selectorsBuffer[i] == Applied(doc, noId, i, Tried(doc, hashes, i))
    {
      var res, matches := MatchNodeKernel(doc, noId, node, painter.style[node], kernel, hashes);
      painter.style[node], selectorsBuffer[node] := res, matches;
    }
  }

  // ---- it does what the interpreter does ----

  /** The numbers fit an unsigned int. */
  ghost predicate FewIds(noId: nat, rules: seq<Rule>) {
    forall g :: g in Hits(noId, rules, |rules|) ==> Ids(noId, g.pred) <= 3
  }

  /** No rule ends in "*" without an id. */
  ghost predicate NoStars(noId: nat, rules: seq<Rule>) {
    forall g :: g in Hits(noId, rules, |rules|) ==> !EndsInStar(noId, g.pred)
  }

  lemma FiledFits(noId: nat, rules: seq<Rule>, hashes: Hashes, key: Key, h: Hit)
    requires RulesInRange(noId, rules) && FewIds(noId, rules) && Index(noId, Hits(noId, rules, |rules|), hashes)
    requires h in hashes.Bucket(key)
    ensures h.specificity < UINT && h in Hits(noId, rules, |rules|) && KeyOf(noId, h.pred) == key
  {
    var hits := Hits(noId, rules, |rules|);
    assert h in multiset(hashes.Bucket(key)) && multiset(hashes.Bucket(key)) == multiset(Filed(noId, hits, key));
    FiledMembers(noId, hits, key, h);
    HitsAreOf(noId, rules, |rules|, h);
    WeightFits(Ids(noId, h.pred), Tags(h.pred), h.line);
  }

  lemma NoStarHits(noId: nat, rules: seq<Rule>, hashes: Hashes)
    requires NoStars(noId, rules) && Index(noId, Hits(noId, rules, |rules|), hashes)
    ensures hashes.star == []
  {
    assert hashes.star != [] ==> hashes.star[0] in multiset(hashes.star);
    forall h ensures h !in multiset(hashes.star) {
      IndexFiles(noId, Hits(noId, rules, |rules|), hashes, h, 0);
    }
  }

  /** Then the kernel tries the candidates that the interpreter tries, in the same order. */
  lemma TriesTheCandidates(noId: nat, rules: seq<Rule>, hashes: Hashes, doc: Doc, node: nat)
    requires doc.Valid() && node < |doc.parent|
    requires RulesInRange(noId, rules) && FewIds(noId, rules) && NoStars(noId, rules)
    requires Index(noId, Hits(noId, rules, |rules|), hashes)
    ensures Tried(doc, hashes, node) == Candidates(doc, hashes, node)
  {
    var ids, tags := hashes.Bucket(ById(doc.id[node])), hashes.Bucket(ByTag(doc.tag[node]));
    forall h | h in ids || h in tags ensures h.specificity < UINT {
      FiledFits(noId, rules, hashes, if h in ids then ById(doc.id[node]) else ByTag(doc.tag[node]), h);
    }
    NoStarHits(noId, rules, hashes);
    Merge3IsMerge(ids, tags);
  }

  /** With no star rule and at most three ids in a selector, in range, the emitted kernel leaves at every node
      what the object engine leaves, each from its own index over the rules, and counts the properties set. */
  method StyleByKernel(noId: nat, rules: seq<Rule>, doc: Doc, levels: seq<Level>)
    returns (objects: Painter, emitted: Painter, selectorsBuffer: array<nat>)
    requires doc.Valid() && Cut(levels, |doc.parent|)
    ensures objects.style.Length == emitted.style.Length == selectorsBuffer.Length == |doc.parent|
    ensures RulesInRange(noId, rules) && FewIds(noId, rules) && NoStars(noId, rules) ==>
      forall i :: 0 <= i < |doc.parent| ==> emitted.style[i] == objects.style[i]
  {
    var interpreted := Hash(noId, rules);
    objects := new Painter(|doc.parent|);
    objects.Run(doc, noId, interpreted, levels);
    var hashes := Hash(noId, rules);
    var kernel := MakeKernel(hashes);
    emitted := new Painter(|doc.parent|);
    selectorsBuffer := new nat[|doc.parent|];
    RunKernel(emitted, selectorsBuffer, doc, noId, kernel, hashes);
    if RulesInRange(noId, rules) && FewIds(noId, rules) && NoStars(noId, rules) {
      forall i | 0 <= i < |doc.parent| ensures emitted.style[i] == objects.style[i] {
        TriesTheCandidates(noId, rules, hashes, doc, i);
        SameStyles(noId, rules, interpreted, hashes, doc, i, map[]);
      }
    }
  }
}
