/** What the cascade gives, whatever the order of ties, and what ignoring the star bucket changes. */
module Cascades {
  import opened Documents
  import opened Selectors
  import opened Cascade
  import opened Painting

  /** Tag counts and lines are small enough for their places in the specificity number. */
  ghost predicate RulesInRange(noId: nat, rules: seq<Rule>) {
    forall g :: g in Hits(noId, rules, |rules|) ==> InRange(Tags(g.pred), g.line)
  }

  /** In range, any two indexes over the same rules leave the same styles: ties do not matter. */
  lemma SameStyles(noId: nat, rules: seq<Rule>, a: Hashes, b: Hashes, doc: Doc, node: nat, style: Props)
    requires doc.Valid() && node < |doc.parent| && RulesInRange(noId, rules)
    requires Index(noId, Hits(noId, rules, |rules|), a) && Index(noId, Hits(noId, rules, |rules|), b)
    ensures Paint(doc, noId, node, style, Candidates(doc, a, node)) ==
      Paint(doc, noId, node, style, Candidates(doc, b, node))
  {
    var s, t := Paint(doc, noId, node, style, Candidates(doc, a, node)),
      Paint(doc, noId, node, style, Candidates(doc, b, node));
    forall p ensures SameAt(s, t, p) {
      var hits := Hits(noId, rules, |rules|);
      CascadeWinner(noId, hits, a, doc, node, style, p);
      CascadeWinner(noId, hits, b, doc, node, style, p);
      if h :| Greatest(noId, hits, doc, node, p, h) && p in s && s[p] == h.properties[p] {
        CascadeIsNaive(noId, rules, b, doc, node, style, p, h);
      }
    }
    SameEverywhere(s, t);
  }

  lemma SameEverywhere(s: Props, t: Props)
    requires forall p :: SameAt(s, t, p)
    ensures s == t
  {
    forall p ensures p in s <==> p in t { assert SameAt(s, t, p); }
    forall p | p in s ensures s[p] == t[p] { assert SameAt(s, t, p); }
    assert s.Keys == t.Keys;
  }

  // ---- star rules ----

  /** `h` is a greatest of all hits that match and set the property, star hits included. */
  ghost predicate GreatestOfAll(hits: seq<Hit>, doc: Doc, noId: nat, node: nat, p: nat, h: Hit)
    requires doc.Valid() && node < |doc.parent|
  {
    && h in hits && Sets(doc, noId, node, p, h)
    && forall g :: g in hits && Sets(doc, noId, node, p, g) ==> g.specificity <= h.specificity
  }

  /** The hits not filed under star give the property another value than `v`: some greatest of them does, or
      there is none and the property was not `v` before. */
  ghost predicate OthersDiffer(noId: nat, hits: seq<Hit>, doc: Doc, node: nat, style: Props, p: nat, v: int)
    requires doc.Valid() && node < |doc.parent|
  {
    || (exists g :: Greatest(noId, hits, doc, node, p, g) && g.properties[p] != v)
    || ((forall g :: !Applies(noId, hits, doc, node, p, g)) && !(p in style && style[p] == v))
  }

  /** A property ends with the value of the greatest of all matching hits, star hits included, if and only if
      that hit is not a star hit to which the others give a different value. */
  lemma StarsMissedIff(noId: nat, rules: seq<Rule>, hashes: Hashes, doc: Doc, node: nat, style: Props, p: nat, h: Hit)
    requires doc.Valid() && node < |doc.parent| && RulesInRange(noId, rules)
    requires Index(noId, Hits(noId, rules, |rules|), hashes)
    requires GreatestOfAll(Hits(noId, rules, |rules|), doc, noId, node, p, h)
    ensures var hits, final := Hits(noId, rules, |rules|), Paint(doc, noId, node, style, Candidates(doc, hashes, node));
      (p in final && final[p] == h.properties[p]) <==>
      !(EndsInStar(noId, h.pred) && OthersDiffer(noId, hits, doc, node, style, p, h.properties[p]))
  {
    var hits := Hits(noId, rules, |rules|);
    var final := Paint(doc, noId, node, style, Candidates(doc, hashes, node));
    CascadeWinner(noId, hits, hashes, doc, node, style, p);
    if !EndsInStar(noId, h.pred) {
      assert Greatest(noId, hits, doc, node, p, h);
    }
    forall g | Greatest(noId, hits, doc, node, p, g) ensures p in final && final[p] == g.properties[p] {
      CascadeIsNaive(noId, rules, hashes, doc, node, style, p, g);
    }
  }

  // ---- from the rules alone ----

  /** Selector `ps` of rule `l` selects the node, its rule sets the property, and it does not end in "*". */
  ghost predicate RuleApplies(noId: nat, rules: seq<Rule>, doc: Doc, node: nat, p: nat, l: nat, ps: nat)
    requires doc.Valid() && node < |doc.parent|
  {
    && l < |rules| && ps < |rules[l].predicates| && p in rules[l].properties
    && var sel := rules[l].predicates[ps];
       Selected(doc, noId, sel, node) && !(sel[|sel| - 1].id == noId && sel[|sel| - 1].tag == STAR)
  }

  /** More ids; as many, and more classes; as many of both, and a later rule. */
  predicate Outranks(noId: nat, a: Selector, aLine: nat, b: Selector, bLine: nat) {
    var aIds, bIds, aTags, bTags := |IdPlaces(noId, a)|, |IdPlaces(noId, b)|, |TagPlaces(a)|, |TagPlaces(b)|;
    aIds > bIds || (aIds == bIds && (aTags > bTags || (aTags == bTags && aLine > bLine)))
  }

  /** Every selector is safe, and few enough classes and rules for the specificity number. */
  ghost predicate SafeInRange(noId: nat, rules: seq<Rule>) {
    forall l: nat, ps: nat :: l < |rules| && ps < |rules[l].predicates| ==>
      Safe(noId, rules[l].predicates[ps]) && InRange(|TagPlaces(rules[l].predicates[ps])|, l)
  }

  lemma HitFromRule(noId: nat, rules: seq<Rule>, h: Hit) returns (l: nat, ps: nat)
    requires h in Hits(noId, rules, |rules|)
    ensures l < |rules| && ps < |rules[l].predicates| && h.pred == rules[l].predicates[ps] && h.line == l
    ensures h.properties == rules[l].properties && h.specificity == Weight(Ids(noId, h.pred), Tags(h.pred), l)
    ensures Ids(noId, h.pred) == |IdPlaces(noId, h.pred)| && Tags(h.pred) == |TagPlaces(h.pred)|
  {
    var i :| 0 <= i < |Hits(noId, rules, |rules|)| && Hits(noId, rules, |rules|)[i] == h;
    l, ps := RuleOfHit(noId, rules, |rules|, i);
    HitAt(noId, rules, |rules|, l, ps);
    SpecificityCounts(noId, h.pred);
  }

  lemma SafeMatches(doc: Doc, noId: nat, sel: Selector, node: nat)
    requires doc.Valid() && node < |doc.parent| && Safe(noId, sel)
    ensures Matches(doc, noId, sel, node) <==> Selected(doc, noId, sel, node)
  {
    if Selected(doc, noId, sel, node) { GreedyComplete(doc, noId, sel, Last(sel), node); }
    if Matches(doc, noId, sel, node) { MatchesSound(doc, noId, sel, node); }
  }

  lemma AppliesIffRule(noId: nat, rules: seq<Rule>, doc: Doc, node: nat, p: nat, l: nat, ps: nat, h: Hit)
    requires doc.Valid() && node < |doc.parent| && SafeInRange(noId, rules) && h in Hits(noId, rules, |rules|)
    requires l < |rules| && ps < |rules[l].predicates|
    requires h.pred == rules[l].predicates[ps] && h.properties == rules[l].properties
    ensures Applies(noId, Hits(noId, rules, |rules|), doc, node, p, h) <==>
      RuleApplies(noId, rules, doc, node, p, l, ps)
  {
    SafeMatches(doc, noId, h.pred, node);
  }

  lemma RulesAreInRange(noId: nat, rules: seq<Rule>)
    requires SafeInRange(noId, rules)
    ensures RulesInRange(noId, rules)
  {
    forall g | g in Hits(noId, rules, |rules|) ensures InRange(Tags(g.pred), g.line) {
      var l, ps := HitFromRule(noId, rules, g);
    }
  }

  /** The cascade from rules to styles: where no rule applies the property stays as it was, and otherwise it
      has the value of the rule that no other outranks. */
  lemma StyleFromRules(noId: nat, rules: seq<Rule>, hashes: Hashes, doc: Doc, node: nat, style: Props, p: nat,
      l: nat, ps: nat)
    requires doc.Valid() && node < |doc.parent| && SafeInRange(noId, rules)
    requires Index(noId, Hits(noId, rules, |rules|), hashes)
    requires RuleApplies(noId, rules, doc, node, p, l, ps)
    requires forall k: nat, ks: nat :: RuleApplies(noId, rules, doc, node, p, k, ks) ==>
      !Outranks(noId, rules[k].predicates[ks], k, rules[l].predicates[ps], l)
    ensures var final := Paint(doc, noId, node, style, Candidates(doc, hashes, node));
      p in final && final[p] == rules[l].properties[p]
  {
    var hits := Hits(noId, rules, |rules|);
    HitAt(noId, rules, |rules|, l, ps);
    var h := hits[Offset(rules, l) + ps];
    AppliesIffRule(noId, rules, doc, node, p, l, ps, h);
    forall g | Applies(noId, hits, doc, node, p, g) ensures g.specificity <= h.specificity {
      NotOutranked(noId, rules, doc, node, p, l, ps, h, g);
    }
    RulesAreInRange(noId, rules);
    CascadeIsNaive(noId, rules, hashes, doc, node, style, p, h);
  }

  lemma NotOutranked(noId: nat, rules: seq<Rule>, doc: Doc, node: nat, p: nat, l: nat, ps: nat, h: Hit, g: Hit)
    requires doc.Valid() && node < |doc.parent| && SafeInRange(noId, rules) && h in Hits(noId, rules, |rules|)
    requires RuleApplies(noId, rules, doc, node, p, l, ps) && h.pred == rules[l].predicates[ps] && h.line == l
    requires Applies(noId, Hits(noId, rules, |rules|), doc, node, p, g)
    requires forall k: nat, ks: nat :: RuleApplies(noId, rules, doc, node, p, k, ks) ==>
      !Outranks(noId, rules[k].predicates[ks], k, rules[l].predicates[ps], l)
    ensures g.specificity <= h.specificity
  {
    var k, ks := HitFromRule(noId, rules, g);
    var l1, ps1 := HitFromRule(noId, rules, h);
    AppliesIffRule(noId, rules, doc, node, p, k, ks, g);
    assert RuleApplies(noId, rules, doc, node, p, k, ks);
    WeightIsLexicographic(Ids(noId, h.pred), Tags(h.pred), h.line, Ids(noId, g.pred), Tags(g.pred), g.line);
  }

  lemma UnstyledByRules(noId: nat, rules: seq<Rule>, hashes: Hashes, doc: Doc, node: nat, style: Props, p: nat)
    requires doc.Valid() && node < |doc.parent| && SafeInRange(noId, rules)
    requires Index(noId, Hits(noId, rules, |rules|), hashes)
    requires forall k: nat, ks: nat :: !RuleApplies(noId, rules, doc, node, p, k, ks)
    ensures SameAt(Paint(doc, noId, node, style, Candidates(doc, hashes, node)), style, p)
  {
    var hits := Hits(noId, rules, |rules|);
    forall h ensures !Applies(noId, hits, doc, node, p, h) {
      if h in hits {
        var k, ks := HitFromRule(noId, rules, h);
        AppliesIffRule(noId, rules, doc, node, p, k, ks, h);
      }
    }
    CascadeWinner(noId, hits, hashes, doc, node, style, p);
  }
}
