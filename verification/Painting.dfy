/** Trying a node's candidate rules in order and setting its properties. */
module Painting {
  import opened Documents
  import opened Selectors
  import opened Cascade
  import opened Layouts

  // ---- the two-way merge ----

  /** The order in which the matcher tries the candidates from the id and the tag bucket. */
  function Merge(ids: seq<Hit>, tags: seq<Hit>): seq<Hit> {
    if ids == [] then tags
    else if tags == [] then ids
    else if ids[0].specificity < tags[0].specificity then [ids[0]] + Merge(ids[1..], tags)
    else [tags[0]] + Merge(ids, tags[1..])
  }

  lemma {:induction false} MergeHits(ids: seq<Hit>, tags: seq<Hit>)
    ensures multiset(Merge(ids, tags)) == multiset(ids) + multiset(tags)
    decreases |ids| + |tags|
  {
    if ids != [] && tags != [] {
      if ids[0].specificity < tags[0].specificity {
        MergeHits(ids[1..], tags);
        assert ids == [ids[0]] + ids[1..];
      } else {
        MergeHits(ids, tags[1..]);
        assert tags == [tags[0]] + tags[1..];
      }
    }
  }

  lemma {:induction false} MergeSorted(ids: seq<Hit>, tags: seq<Hit>)
    requires Sorted(ids) && Sorted(tags)
    ensures Sorted(Merge(ids, tags))
    decreases |ids| + |tags|
  {
    if ids != [] && tags != [] {
      if ids[0].specificity < tags[0].specificity {
        MergeSorted(ids[1..], tags);
        FirstIsLeast(ids[0], Merge(ids[1..], tags), ids[1..], tags);
      } else {
        MergeSorted(ids, tags[1..]);
        FirstIsLeast(tags[0], Merge(ids, tags[1..]), ids, tags[1..]);
      }
    }
  }

  lemma FirstIsLeast(h: Hit, merged: seq<Hit>, ids: seq<Hit>, tags: seq<Hit>)
    requires Sorted(merged) && merged == Merge(ids, tags)
    requires forall g :: g in ids || g in tags ==> h.specificity <= g.specificity
    ensures Sorted([h] + merged)
  {
    MergeHits(ids, tags);
    forall i | 0 <= i < |merged| ensures h.specificity <= merged[i].specificity {
      assert merged[i] in multiset(merged);
    }
  }

  // ---- painting ----

  /** The properties of a node after trying the hits in order. */
  function Paint(doc: Doc, noId: nat, node: nat, style: Props, hits: seq<Hit>): Props
    requires doc.Valid() && node < |doc.parent|
    decreases hits
  {
    if hits == [] then style else Paint(doc, noId, node, Try(doc, noId, node, style, hits[0]), hits[1..])
  }

  /** The properties of a node after trying one hit. */
  function Try(doc: Doc, noId: nat, node: nat, style: Props, h: Hit): Props
    requires doc.Valid() && node < |doc.parent|
  {
    if Matches(doc, noId, h.pred, node) then style + h.properties else style
  }

  /** `h` matches the node and sets the property. */
  ghost predicate Sets(doc: Doc, noId: nat, node: nat, p: nat, h: Hit)
    requires doc.Valid() && node < |doc.parent|
  {
    p in h.properties && Matches(doc, noId, h.pred, node)
  }

  ghost predicate SameAt(s: Props, t: Props, p: nat) {
    (p in s <==> p in t) && (p in s ==> s[p] == t[p])
  }

  /** In a sorted list the last setter wins, and none has a greater number. */
  lemma {:induction false} PaintWinner(doc: Doc, noId: nat, node: nat, style: Props, hits: seq<Hit>, p: nat)
      returns (w: int)
    requires doc.Valid() && node < |doc.parent| && Sorted(hits)
    ensures w == -1 ==>
      (forall g :: g in hits ==> !Sets(doc, noId, node, p, g)) && SameAt(Paint(doc, noId, node, style, hits), style, p)
    ensures w != -1 ==>
      && 0 <= w < |hits| && Sets(doc, noId, node, p, hits[w])
      && p in Paint(doc, noId, node, style, hits) && Paint(doc, noId, node, style, hits)[p] == hits[w].properties[p]
      && forall g :: g in hits && Sets(doc, noId, node, p, g) ==> g.specificity <= hits[w].specificity
    decreases hits
  {
    if hits == [] {
      w := -1;
    } else {
      w := PaintWinner(doc, noId, node, Try(doc, noId, node, style, hits[0]), hits[1..], p);
      assert hits == [hits[0]] + hits[1..];
      if w != -1 {
        w := w + 1;
      } else if Sets(doc, noId, node, p, hits[0]) {
        w := 0;
      }
    }
  }

  // ---- the cascade ----

  /** The candidates tried at a node. */
  function Candidates(doc: Doc, hashes: Hashes, node: nat): seq<Hit>
    requires doc.Valid() && node < |doc.parent|
  {
    Merge(Get(hashes.idHash, doc.id[node]), Get(hashes.tagHash, doc.tag[node]))
  }

  /** At every node the candidates come in non-decreasing specificity, and every hit that matches is tried
      as often as it occurs in the rules, except that one ending in "*" without an id is never tried. */
  lemma CandidatesComplete(noId: nat, hits: seq<Hit>, hashes: Hashes, doc: Doc, node: nat, h: Hit)
    requires doc.Valid() && node < |doc.parent| && Index(noId, hits, hashes)
    ensures Sorted(Candidates(doc, hashes, node))
    ensures EndsInStar(noId, h.pred) ==> multiset(Candidates(doc, hashes, node))[h] == 0
    ensures !EndsInStar(noId, h.pred) && Matches(doc, noId, h.pred, node) ==>
      multiset(Candidates(doc, hashes, node))[h] == multiset(hits)[h]
  {
    CandidatesSorted(noId, hits, hashes, doc, node);
    MergeHits(Get(hashes.idHash, doc.id[node]), Get(hashes.tagHash, doc.tag[node]));
    IndexFiles(noId, hits, hashes, h, doc.id[node]);
    IndexFiles(noId, hits, hashes, h, doc.tag[node]);
  }

  lemma CandidatesSorted(noId: nat, hits: seq<Hit>, hashes: Hashes, doc: Doc, node: nat)
    requires doc.Valid() && node < |doc.parent| && Index(noId, hits, hashes)
    ensures Sorted(Candidates(doc, hashes, node))
  {
    MergeSorted(Get(hashes.idHash, doc.id[node]), Get(hashes.tagHash, doc.tag[node]));
  }

  /** `h` takes part in the cascade at the node for property p. */
  ghost predicate Applies(noId: nat, hits: seq<Hit>, doc: Doc, node: nat, p: nat, h: Hit)
    requires doc.Valid() && node < |doc.parent|
  {
    h in hits && !EndsInStar(noId, h.pred) && Sets(doc, noId, node, p, h)
  }

  ghost predicate Greatest(noId: nat, hits: seq<Hit>, doc: Doc, node: nat, p: nat, h: Hit)
    requires doc.Valid() && node < |doc.parent|
  {
    && Applies(noId, hits, doc, node, p, h)
    && forall g :: Applies(noId, hits, doc, node, p, g) ==> g.specificity <= h.specificity
  }

  lemma AppliesIsTried(noId: nat, hits: seq<Hit>, hashes: Hashes, doc: Doc, node: nat, p: nat, h: Hit)
    requires doc.Valid() && node < |doc.parent| && Index(noId, hits, hashes)
    ensures Applies(noId, hits, doc, node, p, h) <==> h in Candidates(doc, hashes, node) && Sets(doc, noId, node, p, h)
  {
    CandidatesComplete(noId, hits, hashes, doc, node, h);
    var cs := Candidates(doc, hashes, node);
    assert h in cs <==> multiset(cs)[h] > 0;
    assert h in hits <==> multiset(hits)[h] > 0;
  }

  /** The value a node ends with: unchanged if no rule applies, else that of an applying rule with the
      greatest specificity number. */
  lemma CascadeWinner(noId: nat, hits: seq<Hit>, hashes: Hashes, doc: Doc, node: nat, style: Props, p: nat)
    requires doc.Valid() && node < |doc.parent| && Index(noId, hits, hashes)
    ensures var final := Paint(doc, noId, node, style, Candidates(doc, hashes, node));
      && ((forall h :: !Applies(noId, hits, doc, node, p, h)) ==> SameAt(final, style, p))
      && ((exists h :: Applies(noId, hits, doc, node, p, h)) ==>
          p in final && exists h :: Greatest(noId, hits, doc, node, p, h) && final[p] == h.properties[p])
  {
    var cs := Candidates(doc, hashes, node);
    forall h ensures Applies(noId, hits, doc, node, p, h) <==> h in cs && Sets(doc, noId, node, p, h) {
      AppliesIsTried(noId, hits, hashes, doc, node, p, h);
    }
    CandidatesSorted(noId, hits, hashes, doc, node);
    var w := PaintWinner(doc, noId, node, style, cs, p);
    if w != -1 {
      assert Greatest(noId, hits, doc, node, p, cs[w]);
    }
  }

  lemma {:induction false} HitsAreOf(noId: nat, rules: seq<Rule>, line: nat, h: Hit)
    requires line <= |rules| && h in Hits(noId, rules, line)
    ensures h.line < line && h.properties == rules[h.line].properties
    ensures h.specificity == Weight(Ids(noId, h.pred), Tags(h.pred), h.line)
  {
    if h in Hits(noId, rules, line - 1) {
      HitsAreOf(noId, rules, line - 1, h);
    } else {
      RuleHitsAreOf(noId, rules[line - 1], line - 1, |rules[line - 1].predicates|, h);
    }
  }

  lemma {:induction false} RuleHitsAreOf(noId: nat, rule: Rule, line: nat, ps: nat, h: Hit)
    requires ps <= |rule.predicates| && h in RuleHits(noId, rule, line, ps)
    ensures h.line == line && h.properties == rule.properties
    ensures h.specificity == Weight(Ids(noId, h.pred), Tags(h.pred), line)
  {
    if h in RuleHits(noId, rule, line, ps - 1) {
      RuleHitsAreOf(noId, rule, line, ps - 1, h);
    }
  }

  /** The bucketed cascade is the naive one: each property ends with the value from the applying rule of
      greatest specificity, whichever of the equally specific hits was tried last. */
  lemma CascadeIsNaive(noId: nat, rules: seq<Rule>, hashes: Hashes, doc: Doc, node: nat, style: Props, p: nat, h: Hit)
    requires doc.Valid() && node < |doc.parent|
    requires Index(noId, Hits(noId, rules, |rules|), hashes)
    requires forall g :: g in Hits(noId, rules, |rules|) ==> InRange(Tags(g.pred), g.line)
    requires Greatest(noId, Hits(noId, rules, |rules|), doc, node, p, h)
    ensures var final := Paint(doc, noId, node, style, Candidates(doc, hashes, node));
      p in final && final[p] == h.properties[p]
  {
    var hits := Hits(noId, rules, |rules|);
    CascadeWinner(noId, hits, hashes, doc, node, style, p);
    var final := Paint(doc, noId, node, style, Candidates(doc, hashes, node));
    var g :| Greatest(noId, hits, doc, node, p, g) && final[p] == g.properties[p];
    HitsAreOf(noId, rules, |rules|, g);
    HitsAreOf(noId, rules, |rules|, h);
    WeightIsLexicographic(Ids(noId, g.pred), Tags(g.pred), g.line, Ids(noId, h.pred), Tags(h.pred), h.line);
  }

  // ---- the object matcher ----

  class Painter {
    const style: array<Props>

    constructor (n: nat)
      ensures fresh(style) && style.Length == n && forall i :: 0 <= i < n ==> style[i] == map[]
    {
      style := new Props[n](_ => map[]);
    }

    method ApplyProperties(nodeIdx: nat, props: Props)
      requires nodeIdx < style.Length
      modifies style
      ensures style[nodeIdx] == old(style[nodeIdx]) + props
      ensures forall i :: 0 <= i < style.Length && i != nodeIdx ==> style[i] == old(style[i])
    {
      var keys := props.Keys;
      while keys != {}
        invariant keys <= props.Keys
        invariant style[nodeIdx] == old(style[nodeIdx]) + (map k | k in props && k !in keys :: props[k])
        invariant forall i :: 0 <= i < style.Length && i != nodeIdx ==> style[i] == old(style[i])
      {
        var k :| k in keys;
        style[nodeIdx] := style[nodeIdx][k := props[k]];
        keys := keys - {k};
      }
      assert props == map k | k in props && k !in keys :: props[k];
    }

    /** Tries the candidates by increasing specificity until both buckets are exhausted. */
    method MatchNode(doc: Doc, noId: nat, hashes: Hashes, nodeIdx: nat)
      requires doc.Valid() && |doc.parent| == style.Length && nodeIdx < style.Length
      modifies style
      ensures style[nodeIdx] == Paint(doc, noId, nodeIdx, old(style[nodeIdx]), Candidates(doc, hashes, nodeIdx))
      ensures forall i :: 0 <= i < style.Length && i != nodeIdx ==> style[i] == old(style[i])
    {
      var ids := Get(hashes.idHash, doc.id[nodeIdx]);
      var tags := Get(hashes.tagHash, doc.tag[nodeIdx]);
      TryMerged(doc, noId, nodeIdx, ids, tags);
    }

    method TryMerged(doc: Doc, noId: nat, nodeIdx: nat, ids: seq<Hit>, tags: seq<Hit>)
      requires doc.Valid() && |doc.parent| == style.Length && nodeIdx < style.Length
      modifies style
      ensures style[nodeIdx] == Paint(doc, noId, nodeIdx, old(style[nodeIdx]), Merge(ids, tags))
      ensures forall i :: 0 <= i < style.Length && i != nodeIdx ==> style[i] == old(style[i])
    {
      var nextIdIdx, nextTagIdx := 0, 0;
      ghost var final := Paint(doc, noId, nodeIdx, style[nodeIdx], Merge(ids, tags));
      while nextIdIdx < |ids| || nextTagIdx < |tags|
        invariant nextIdIdx <= |ids| && nextTagIdx <= |tags|
        invariant final == Paint(doc, noId, nodeIdx, style[nodeIdx], Merge(ids[nextIdIdx..], tags[nextTagIdx..]))
        invariant forall i :: 0 <= i < style.Length && i != nodeIdx ==> style[i] == old(style[i])
        decreases |ids| - nextIdIdx + |tags| - nextTagIdx
      {
        var tryId :=
          if nextIdIdx < |ids| && nextTagIdx < |tags| then ids[nextIdIdx].specificity < tags[nextTagIdx].specificity
          else nextIdIdx < |ids|;
        MergeStep(ids, nextIdIdx, tags, nextTagIdx, tryId);
        TryOne(doc, noId, nodeIdx, if tryId then ids[nextIdIdx] else tags[nextTagIdx]);
        if tryId { nextIdIdx := nextIdIdx + 1; } else { nextTagIdx := nextTagIdx + 1; }
      }
    }

    /** Tries one candidate. */
    method TryOne(doc: Doc, noId: nat, nodeIdx: nat, sel: Hit)
      requires doc.Valid() && |doc.parent| == style.Length && nodeIdx < style.Length
      modifies style
      ensures style[nodeIdx] == Try(doc, noId, nodeIdx, old(style[nodeIdx]), sel)
      ensures forall i :: 0 <= i < style.Length && i != nodeIdx ==> style[i] == old(style[i])
    {
      var matched := MatchNodeSelector(doc, noId, nodeIdx, sel.pred);
      if matched {
        ApplyProperties(nodeIdx, sel.properties);
      }
    }

    /** The whole run, level by level. */
    method Run(doc: Doc, noId: nat, hashes: Hashes, levels: seq<Level>)
      requires doc.Valid() && |doc.parent| == style.Length && Cut(levels, style.Length)
      modifies style
      ensures forall i :: 0 <= i < style.Length ==>
        style[i] == Paint(doc, noId, i, old(style[i]), Candidates(doc, hashes, i))
    {
      var done := 0;
      for l := 0 to |levels|
        invariant done == if l == 0 then 0 else LevelEnd(levels, l - 1)
        invariant done <= style.Length
        invariant forall i :: 0 <= i < done ==>
          style[i] == Paint(doc, noId, i, old(style[i]), Candidates(doc, hashes, i))
        invariant forall i :: done <= i < style.Length ==> style[i] == old(style[i])
      {
        assert CutAt(levels, l, style.Length);
        var startIdx := levels[l].start;
        var endIdx := startIdx + levels[l].length;
        for i := startIdx to endIdx
          invariant forall j :: 0 <= j < i ==>
            style[j] == Paint(doc, noId, j, old(style[j]), Candidates(doc, hashes, j))
          invariant forall j :: i <= j < style.Length ==> style[j] == old(style[j])
        {
          MatchNode(doc, noId, hashes, i);
        }
        done := endIdx;
      }
    }
  }

  lemma MergeStep(ids: seq<Hit>, i: nat, tags: seq<Hit>, j: nat, tryId: bool)
    requires i <= |ids| && j <= |tags| && (i < |ids| || j < |tags|)
    requires tryId == if i < |ids| && j < |tags| then ids[i].specificity < tags[j].specificity else i < |ids|
    ensures var m := Merge(ids[i..], tags[j..]);
      && m != []
      && m[0] == (if tryId then ids[i] else tags[j])
      && m[1..] == (if tryId then Merge(ids[i + 1..], tags[j..]) else Merge(ids[i..], tags[j + 1..]))
  {
    if i < |ids| { assert ids[i..][1..] == ids[i + 1..]; }
    if j < |tags| { assert tags[j..][1..] == tags[j + 1..]; }
  }
}
