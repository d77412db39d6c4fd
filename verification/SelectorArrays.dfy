/** The selector engine over flat arrays: all rules' predicates and combinators in shared arrays, and per
    hit only indices into them. */
module SelectorArrays {
  import opened Documents
  import opened Selectors
  import opened Cascade
  import opened Painting
  import opened Cascades
  import opened Layouts

  /** Where a hit's data starts in the shared arrays; `len` is the length of its token array. */
  datatype FlatHit = FlatHit(combinator: nat, tag: nat, id: nat, len: nat, props: nat, specificity: nat)

  datatype Arrays = Arrays(combinators: seq<nat>, tags: seq<nat>, ids: seq<nat>, props: seq<nat>)

  /** Tags and ids are pushed together, so they have one index. */
  predicate Aligned(a: Arrays) {
    |a.tags| == |a.ids|
  }

  predicate Extends(a: Arrays, b: Arrays) {
    a.combinators <= b.combinators && a.tags <= b.tags && a.ids <= b.ids && a.props <= b.props
  }

  /** The arrays hold the hit's predicates and combinators from the indices in `f` on. */
  ghost predicate Stored(a: Arrays, f: FlatHit, h: Hit) {
    && f.len == |h.pred| && f.specificity == h.specificity && f.tag == f.id
    && f.tag + Last(h.pred) < |a.tags| && f.id + Last(h.pred) < |a.ids|
    && f.combinator + Last(h.pred) <= |a.combinators|
    && f.props < |a.props| && a.props[f.props] == h.line
    && (forall k :: 0 <= k <= Last(h.pred) ==> PredStored(a, f, h, k))
    && (forall k :: 0 <= k < Last(h.pred) ==> OpStored(a, f, h, k))
  }

  ghost predicate PredStored(a: Arrays, f: FlatHit, h: Hit, k: nat) {
    && k <= Last(h.pred) && f.tag + k < |a.tags| && f.id + k < |a.ids|
    && a.tags[f.tag + k] == PredAt(h.pred, k).tag && a.ids[f.id + k] == PredAt(h.pred, k).id
  }

  ghost predicate OpStored(a: Arrays, f: FlatHit, h: Hit, k: nat) {
    k < Last(h.pred) && f.combinator + k < |a.combinators| && a.combinators[f.combinator + k] == OpAt(h.pred, k)
  }

  /** Later pushes leave what is stored. */
  lemma StoredKept(a: Arrays, b: Arrays, f: FlatHit, h: Hit)
    requires Stored(a, f, h) && Extends(a, b)
    ensures Stored(b, f, h)
  {
    forall k | 0 <= k <= Last(h.pred) ensures PredStored(b, f, h, k) {
      assert PredStored(a, f, h, k);
    }
    forall k | 0 <= k < Last(h.pred) ensures OpStored(b, f, h, k) {
      assert OpStored(a, f, h, k);
    }
  }

  ghost predicate AllStored(a: Arrays, fs: seq<FlatHit>, hs: seq<Hit>) {
    |fs| == |hs| && forall i :: 0 <= i < |fs| ==> Stored(a, fs[i], hs[i])
  }

  lemma AllStoredKept(a: Arrays, b: Arrays, fs: seq<FlatHit>, hs: seq<Hit>)
    requires AllStored(a, fs, hs) && Extends(a, b)
    ensures AllStored(b, fs, hs)
  {
    forall i | 0 <= i < |fs| ensures Stored(b, fs[i], hs[i]) {
      StoredKept(a, b, fs[i], hs[i]);
    }
  }

  /** A flattened hash: the same labels, and under each label the flattened hits in the same order. */
  ghost predicate MapStored(a: Arrays, m: map<nat, seq<FlatHit>>, hash: map<nat, seq<Hit>>) {
    m.Keys == hash.Keys && forall lbl :: lbl in hash ==> AllStored(a, m[lbl], hash[lbl])
  }

  method FlattenHit(a: Arrays, hit: Hit) returns (f: FlatHit, b: Arrays)
    requires Aligned(a)
    ensures Aligned(b) && Extends(a, b) && Stored(b, f, hit)
  {
    f := FlatHit(|a.combinators|, |a.tags|, |a.ids|, |hit.pred|, |a.props|, hit.specificity);
    var tags, ids, combinators := a.tags, a.ids, a.combinators;
    var pi := 0;
    ghost var k := 0;
    while pi < |hit.pred|
      invariant pi == 2 * k && k <= Last(hit.pred) + 1
      invariant |tags| == |a.tags| + k && |ids| == |a.ids| + k && a.tags <= tags && a.ids <= ids
      invariant forall j :: 0 <= j < k ==> PredStored(Arrays(combinators, tags, ids, []), f, hit, j)
    {
      assert hit.pred[pi] == PredAt(hit.pred, k);
      ghost var was := Arrays(combinators, tags, ids, []);
      tags := tags + [hit.pred[pi].tag];
      ids := ids + [hit.pred[pi].id];
      forall j | 0 <= j < k + 1 ensures PredStored(Arrays(combinators, tags, ids, []), f, hit, j) {
        assert j < k ==> PredStored(was, f, hit, j);
      }
      pi := pi + 2;
      k := k + 1;
    }
    var props := a.props + [hit.line];
    pi := 1;
    k := 0;
    while pi < |hit.pred|
      invariant pi == 2 * k + 1 && k <= Last(hit.pred)
      invariant |combinators| == |a.combinators| + k && a.combinators <= combinators
      invariant forall j :: 0 <= j < k ==> OpStored(Arrays(combinators, tags, ids, []), f, hit, j)
    {
      assert hit.pred[pi].combinator == OpAt(hit.pred, k);
      ghost var was := Arrays(combinators, tags, ids, []);
      combinators := combinators + [hit.pred[pi].combinator];
      forall j | 0 <= j < k + 1 ensures OpStored(Arrays(combinators, tags, ids, []), f, hit, j) {
        assert j < k ==> OpStored(was, f, hit, j);
      }
      pi := pi + 2;
      k := k + 1;
    }
    b := Arrays(combinators, tags, ids, props);
    FlatHitDone(a, b, f, hit);
  }

  lemma FlatHitDone(a: Arrays, b: Arrays, f: FlatHit, hit: Hit)
    requires f.len == |hit.pred| && f.specificity == hit.specificity && f.tag == f.id
    requires f.tag + Last(hit.pred) < |b.tags| && f.id + Last(hit.pred) < |b.ids|
    requires f.combinator + Last(hit.pred) <= |b.combinators|
    requires f.props < |b.props| && b.props[f.props] == hit.line
    requires forall j :: 0 <= j <= Last(hit.pred) ==> PredStored(Arrays(a.combinators, b.tags, b.ids, []), f, hit, j)
    requires forall j :: 0 <= j < Last(hit.pred) ==> OpStored(Arrays(b.combinators, b.tags, b.ids, []), f, hit, j)
    ensures Stored(b, f, hit)
  {
    forall j | 0 <= j <= Last(hit.pred) ensures PredStored(b, f, hit, j) {
      assert PredStored(Arrays(a.combinators, b.tags, b.ids, []), f, hit, j);
    }
    forall j | 0 <= j < Last(hit.pred) ensures OpStored(b, f, hit, j) {
      assert OpStored(Arrays(b.combinators, b.tags, b.ids, []), f, hit, j);
    }
  }

  method FlattenHash(hash: map<nat, seq<Hit>>, a: Arrays) returns (m: map<nat, seq<FlatHit>>, b: Arrays)
    requires Aligned(a)
    ensures Aligned(b) && Extends(a, b) && MapStored(b, m, hash)
  {
    m, b := map[], a;
    var lbls := hash.Keys;
    while lbls != {}
      invariant lbls <= hash.Keys && m.Keys == hash.Keys - lbls
      invariant Aligned(b) && Extends(a, b)
      invariant forall lbl :: lbl in m ==> AllStored(b, m[lbl], hash[lbl])
    {
      var lbl :| lbl in lbls;
      ghost var before := b;
      var fs;
      fs, b := FlattenHits(hash[lbl], b);
      forall l | l in m ensures AllStored(b, m[l], hash[l]) {
        AllStoredKept(before, b, m[l], hash[l]);
      }
      m := m[lbl := fs];
      lbls := lbls - {lbl};
    }
  }

  method FlattenHits(sels: seq<Hit>, a: Arrays) returns (fs: seq<FlatHit>, b: Arrays)
    requires Aligned(a)
    ensures Aligned(b) && Extends(a, b) && AllStored(b, fs, sels)
  {
    fs, b := [], a;
    for si := 0 to |sels|
      invariant Aligned(b) && Extends(a, b) && AllStored(b, fs, sels[..si])
    {
      ghost var before := b;
      var f;
      f, b := FlattenHit(b, sels[si]);
      AllStoredKept(before, b, fs, sels[..si]);
      fs := fs + [f];
      assert sels[..si + 1] == sels[..si] + [sels[si]];
    }
    assert sels[..|sels|] == sels;
  }

  datatype FlatHashes = FlatHashes(tagMap: map<nat, seq<FlatHit>>, idMap: map<nat, seq<FlatHit>>, arrays: Arrays)

  ghost predicate FlatOf(flat: FlatHashes, hashes: Hashes) {
    MapStored(flat.arrays, flat.tagMap, hashes.tagHash) && MapStored(flat.arrays, flat.idMap, hashes.idHash)
  }

  method FlattenSelectors(hashes: Hashes) returns (flat: FlatHashes)
    ensures Aligned(flat.arrays) && FlatOf(flat, hashes)
  {
    var tagMap, a := FlattenHash(hashes.tagHash, Arrays([], [], [], []));
    var idMap, b := FlattenHash(hashes.idHash, a);
    forall lbl | lbl in hashes.tagHash ensures AllStored(b, tagMap[lbl], hashes.tagHash[lbl]) {
      AllStoredKept(a, b, tagMap[lbl], hashes.tagHash[lbl]);
    }
    flat := FlatHashes(tagMap, idMap, b);
  }

  /** One property setter per rule. */
  method MakePropertyAppliers(rules: seq<Rule>) returns (applyTable: seq<Props>)
    ensures |applyTable| == |rules| && forall i :: 0 <= i < |rules| ==> applyTable[i] == rules[i].properties
  {
    applyTable := [];
    for si := 0 to |rules|
      invariant |applyTable| == si && forall i :: 0 <= i < si ==> applyTable[i] == rules[i].properties
    {
      applyTable := applyTable + [rules[si].properties];
    }
  }

  // ---- matching over the arrays ----

  /** Reads both tokens at the id index, as the engine does. */
  method MatchPredicateGPU(a: Arrays, doc: Doc, noId: nat, nodeIdx: nat, tagIdx: nat, idIdx: nat) returns (r: bool)
    requires Aligned(a) && doc.Valid() && nodeIdx < |doc.parent| && idIdx < |a.ids|
    ensures r == Fits(doc, noId, Pred(a.tags[idIdx], a.ids[idIdx]), nodeIdx)
  {
    var predId := a.ids[idIdx];
    if predId != noId {
      if doc.id[nodeIdx] != predId { return false; }
    }
    var predTag := a.tags[idIdx];
    if predTag != STAR {
      if doc.tag[nodeIdx] != predTag { return false; }
    }
    return true;
  }

  method MatchAncestorGPU(a: Arrays, doc: Doc, noId: nat, nodeIdx: int, tagIdx: nat, idIdx: nat)
      returns (matched: bool, nextNodeIdx: int)
    requires Aligned(a) && doc.Valid() && 0 <= nodeIdx < |doc.parent| && idIdx < |a.ids|
    ensures matched <==> Climb(doc, noId, Pred(a.tags[idIdx], a.ids[idIdx]), nodeIdx) != -1
    ensures matched ==> nextNodeIdx == Climb(doc, noId, Pred(a.tags[idIdx], a.ids[idIdx]), nodeIdx)
  {
    matched, nextNodeIdx := false, nodeIdx;
    ghost var pred := Pred(a.tags[idIdx], a.ids[idIdx]);
    while !matched
      invariant 0 <= nextNodeIdx < |doc.parent|
      invariant Climb(doc, noId, pred, nodeIdx) == if matched then nextNodeIdx else Climb(doc, noId, pred, nextNodeIdx)
      decreases nextNodeIdx, !matched
    {
      if nextNodeIdx == 0 { return; }
      nextNodeIdx := doc.parent[nextNodeIdx];
      matched := MatchPredicateGPU(a, doc, noId, nextNodeIdx, tagIdx, idIdx);
    }
  }

  /** Matching by indices answers as matching the stored hit. */
  method MatchNodeSelectorGPU(a: Arrays, doc: Doc, noId: nat, nodeIdx: nat, f: FlatHit, ghost h: Hit) returns (r: bool)
    requires Aligned(a) && Stored(a, f, h) && doc.Valid() && nodeIdx < |doc.parent|
    ensures r == Matches(doc, noId, h.pred, nodeIdx)
  {
    var plen := f.len;
    assert PredStored(a, f, h, Last(h.pred));
    var matchRoot := MatchPredicateGPU(a, doc, noId, nodeIdx, f.tag + (plen - 1) / 2, f.id + (plen - 1) / 2);
    if !matchRoot { return false; }
    if plen > 1 {
      if nodeIdx == 0 { return false; }
      var nextNodeIdx: int, nextSib: int, i: int := nodeIdx, 0, plen - 2;
      ghost var k, goal := Last(h.pred), Greedy(doc, noId, h.pred, Last(h.pred), nodeIdx);
      while i >= 1
        invariant 0 <= k <= Last(h.pred) && i == 2 * k - 1
        invariant Run(doc, nextNodeIdx, nextSib)
        invariant goal == Greedy(doc, noId, h.pred, k, nextNodeIdx - nextSib)
      {
        k := k - 1;
        var ok;
        ok, nextNodeIdx, nextSib := MatchPairGPU(a, doc, noId, f, h, (i - 1) / 2, nextNodeIdx, nextSib);
        if !ok { return false; }
        i := i - 2;
      }
    }
    return true;
  }

  /** One combinator, at the index of its pair, and the predicate left of it. */
  method MatchPairGPU(a: Arrays, doc: Doc, noId: nat, f: FlatHit, ghost h: Hit, pair: nat, next: int, sib: int)
    returns (ok: bool, nextNodeIdx: int, nextSib: int)
    requires Aligned(a) && Stored(a, f, h) && doc.Valid() && pair < Last(h.pred) && Run(doc, next, sib)
    ensures !ok ==> !Greedy(doc, noId, h.pred, pair + 1, next - sib)
    ensures ok ==> Run(doc, nextNodeIdx, nextSib)
    ensures ok ==>
      Greedy(doc, noId, h.pred, pair, nextNodeIdx - nextSib) == Greedy(doc, noId, h.pred, pair + 1, next - sib)
  {
    nextNodeIdx, nextSib := next, sib;
    assert PredStored(a, f, h, pair) && OpStored(a, f, h, pair);
    var predTagIdx, predIdIdx := f.tag + pair, f.id + pair;
    assert Pred(a.tags[predIdIdx], a.ids[predIdIdx]) == PredAt(h.pred, pair);
    if a.combinators[f.combinator + pair] == DESCENDANT {
      ClimbFromSibling(doc, noId, PredAt(h.pred, pair), nextNodeIdx, nextSib);
      ok, nextNodeIdx := MatchAncestorGPU(a, doc, noId, nextNodeIdx, predTagIdx, predIdIdx);
      nextSib := 0;
    } else if a.combinators[f.combinator + pair] == CHILD {
      if nextNodeIdx == 0 { return false, nextNodeIdx, nextSib; }
      nextNodeIdx := doc.parent[nextNodeIdx];
      ok := MatchPredicateGPU(a, doc, noId, nextNodeIdx, predTagIdx, predIdIdx);
      nextSib := 0;
    } else {
      if doc.left[nextNodeIdx - nextSib] == 0 { return false, nextNodeIdx, nextSib; }
      nextSib := nextSib + 1;
      ok := MatchPredicateGPU(a, doc, noId, nextNodeIdx - nextSib, predTagIdx, predIdIdx);
    }
  }

  /** The rules' properties are reached through a hit's line. */
  ghost predicate LinesHold(appliers: seq<Props>, hs: seq<Hit>) {
    forall i :: 0 <= i < |hs| ==> hs[i].line < |appliers| && appliers[hs[i].line] == hs[i].properties
  }

  method MatchNodeGPU(painter: Painter, flat: FlatHashes, appliers: seq<Props>, doc: Doc, noId: nat, nodeIdx: nat,
      ghost hashes: Hashes)
    requires Aligned(flat.arrays) && FlatOf(flat, hashes)
    requires forall k :: LinesHold(appliers, Get(hashes.idHash, k)) && LinesHold(appliers, Get(hashes.tagHash, k))
    requires doc.Valid() && |doc.parent| == painter.style.Length && nodeIdx < |doc.parent|
    modifies painter.style
    ensures painter.style[nodeIdx] == Paint(doc, noId, nodeIdx, old(painter.style[nodeIdx]),
      Candidates(doc, hashes, nodeIdx))
    ensures forall i :: 0 <= i < painter.style.Length && i != nodeIdx ==> painter.style[i] == old(painter.style[i])
  {
    var ids := Get(flat.idMap, doc.id[nodeIdx]);
    var tags := Get(flat.tagMap, doc.tag[nodeIdx]);
    ghost var idHits, tagHits := Get(hashes.idHash, doc.id[nodeIdx]), Get(hashes.tagHash, doc.tag[nodeIdx]);
    assert AllStored(flat.arrays, ids, idHits) && AllStored(flat.arrays, tags, tagHits);
    TryBuckets(painter, flat.arrays, appliers, doc, noId, nodeIdx, ids, tags, idHits, tagHits);
  }

  /** The merge loop over an id and a tag bucket. */
  method TryBuckets(painter: Painter, arrays: Arrays, appliers: seq<Props>, doc: Doc, noId: nat, nodeIdx: nat,
                    ids: seq<FlatHit>, tags: seq<FlatHit>, ghost idHits: seq<Hit>, ghost tagHits: seq<Hit>)
    requires Aligned(arrays) && AllStored(arrays, ids, idHits) && AllStored(arrays, tags, tagHits)
    requires LinesHold(appliers, idHits) && LinesHold(appliers, tagHits)
    requires doc.Valid() && |doc.parent| == painter.style.Length && nodeIdx < |doc.parent|
    modifies painter.style
    ensures painter.style[nodeIdx] == Paint(doc, noId, nodeIdx, old(painter.style[nodeIdx]), Merge(idHits, tagHits))
    ensures forall i :: 0 <= i < painter.style.Length && i != nodeIdx ==> painter.style[i] == old(painter.style[i])
  {
    var nextIdIdx, nextTagIdx := 0, 0;
    ghost var final := Paint(doc, noId, nodeIdx, painter.style[nodeIdx], Merge(idHits, tagHits));
    while nextIdIdx < |ids| || nextTagIdx < |tags|
      invariant nextIdIdx <= |ids| && nextTagIdx <= |tags|
      invariant final == Paint(doc, noId, nodeIdx, painter.style[nodeIdx],
        Merge(idHits[nextIdIdx..], tagHits[nextTagIdx..]))
      invariant forall i :: 0 <= i < painter.style.Length && i != nodeIdx ==> painter.style[i] == old(painter.style[i])
      decreases |ids| - nextIdIdx + |tags| - nextTagIdx
    {
      var tryId :=
        if nextIdIdx < |ids| && nextTagIdx < |tags| then ids[nextIdIdx].specificity < tags[nextTagIdx].specificity
        else nextIdIdx < |ids|;
      assert nextIdIdx < |ids| ==> Stored(arrays, ids[nextIdIdx], idHits[nextIdIdx]);
      assert nextTagIdx < |tags| ==> Stored(arrays, tags[nextTagIdx], tagHits[nextTagIdx]);
      MergeStep(idHits, nextIdIdx, tagHits, nextTagIdx, tryId);
      if tryId {
        TryOne(painter, arrays, appliers, doc, noId, nodeIdx, ids[nextIdIdx], idHits[nextIdIdx]);
        nextIdIdx := nextIdIdx + 1;
      } else {
        TryOne(painter, arrays, appliers, doc, noId, nodeIdx, tags[nextTagIdx], tagHits[nextTagIdx]);
        nextTagIdx := nextTagIdx + 1;
      }
    }
  }

  /** Tries one candidate. */
  method TryOne(painter: Painter, arrays: Arrays, appliers: seq<Props>, doc: Doc, noId: nat, nodeIdx: nat,
      sel: FlatHit, ghost hit: Hit)
    requires Aligned(arrays) && Stored(arrays, sel, hit) && LinesHold(appliers, [hit])
    requires doc.Valid() && |doc.parent| == painter.style.Length && nodeIdx < |doc.parent|
    modifies painter.style
    ensures painter.style[nodeIdx] == Try(doc, noId, nodeIdx, old(painter.style[nodeIdx]), hit)
    ensures forall i :: 0 <= i < painter.style.Length && i != nodeIdx ==> painter.style[i] == old(painter.style[i])
  {
    var matched := MatchNodeSelectorGPU(arrays, doc, noId, nodeIdx, sel, hit);
    if matched {
      assert [hit][0] == hit;
      painter.ApplyProperties(nodeIdx, appliers[arrays.props[sel.props]]);
    }
  }

  /** The whole run over all levels: every node ends as after the object matcher's run. */
  method RunGPU(painter: Painter, flat: FlatHashes, appliers: seq<Props>, doc: Doc, noId: nat, levels: seq<Level>,
      ghost hashes: Hashes)
    requires Aligned(flat.arrays) && FlatOf(flat, hashes)
    requires forall k :: LinesHold(appliers, Get(hashes.idHash, k)) && LinesHold(appliers, Get(hashes.tagHash, k))
    requires doc.Valid() && |doc.parent| == painter.style.Length && Cut(levels, painter.style.Length)
    modifies painter.style
    ensures forall i :: 0 <= i < painter.style.Length ==>
      painter.style[i] == Paint(doc, noId, i, old(painter.style[i]), Candidates(doc, hashes, i))
  {
    var done := 0;
    for l := 0 to |levels|
      invariant done == if l == 0 then 0 else LevelEnd(levels, l - 1)
      invariant done <= painter.style.Length
      invariant forall i :: 0 <= i < done ==>
        painter.style[i] == Paint(doc, noId, i, old(painter.style[i]), Candidates(doc, hashes, i))
      invariant forall i :: done <= i < painter.style.Length ==> painter.style[i] == old(painter.style[i])
    {
      assert CutAt(levels, l, painter.style.Length);
      var startIdx := levels[l].start;
      var endIdx := startIdx + levels[l].length;
      for i := startIdx to endIdx
        invariant forall j :: 0 <= j < i ==>
          painter.style[j] == Paint(doc, noId, j, old(painter.style[j]), Candidates(doc, hashes, j))
        invariant forall j :: i <= j < painter.style.Length ==> painter.style[j] == old(painter.style[j])
      {
        MatchNodeGPU(painter, flat, appliers, doc, noId, i, hashes);
      }
      done := endIdx;
    }
  }

  lemma BucketApplies(noId: nat, rules: seq<Rule>, hashes: Hashes, appliers: seq<Props>, key: Key)
    requires Index(noId, Hits(noId, rules, |rules|), hashes)
    requires |appliers| == |rules| && forall i :: 0 <= i < |rules| ==> appliers[i] == rules[i].properties
    ensures LinesHold(appliers, hashes.Bucket(key))
  {
    var b, hits := hashes.Bucket(key), Hits(noId, rules, |rules|);
    forall i | 0 <= i < |b| ensures b[i].line < |appliers| && appliers[b[i].line] == b[i].properties {
      assert b[i] in multiset(b) && multiset(b) == multiset(Filed(noId, hits, key));
      FiledMembers(noId, hits, key, b[i]);
      HitsAreOf(noId, rules, |rules|, b[i]);
    }
  }

  /** Both engines, from rules to painted nodes, each with its own index over the rules: each node ends as its
      candidates say, and for rules in range the two engines end with the same properties at every node. */
  method StyleBoth(noId: nat, rules: seq<Rule>, doc: Doc, levels: seq<Level>)
    returns (objects: Painter, arrays: Painter, ghost objectHashes: Hashes, ghost arrayHashes: Hashes)
    requires doc.Valid() && Cut(levels, |doc.parent|)
    ensures Index(noId, Hits(noId, rules, |rules|), objectHashes) &&
      Index(noId, Hits(noId, rules, |rules|), arrayHashes)
    ensures objects.style.Length == arrays.style.Length == |doc.parent|
    ensures forall i :: 0 <= i < |doc.parent| ==>
      && objects.style[i] == Paint(doc, noId, i, map[], Candidates(doc, objectHashes, i))
      && arrays.style[i] == Paint(doc, noId, i, map[], Candidates(doc, arrayHashes, i))
    ensures RulesInRange(noId, rules) ==> forall i :: 0 <= i < |doc.parent| ==> arrays.style[i] == objects.style[i]
  {
    var own := Hash(noId, rules);
    objects := new Painter(|doc.parent|);
    objects.Run(doc, noId, own, levels);
    var built := Hash(noId, rules);
    objectHashes, arrayHashes := own, built;
    var appliers := MakePropertyAppliers(rules);
    var flat := FlattenSelectors(built);
    arrays := new Painter(|doc.parent|);
    forall k ensures LinesHold(appliers, Get(built.idHash, k)) && LinesHold(appliers, Get(built.tagHash, k)) {
      BucketApplies(noId, rules, built, appliers, ById(k));
      BucketApplies(noId, rules, built, appliers, ByTag(k));
    }
    RunGPU(arrays, flat, appliers, doc, noId, levels, built);
    if RulesInRange(noId, rules) {
      forall i | 0 <= i < |doc.parent| ensures arrays.style[i] == objects.style[i] {
        SameStyles(noId, rules, own, built, doc, i, map[]);
      }
    }
  }
}
