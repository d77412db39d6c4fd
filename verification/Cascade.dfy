/** The cascade: specificity numbers, the bucket index over rules, and the order in which a node's
    candidate rules are tried. */
module Cascade {
  import opened Documents
  import opened Selectors

  type Props = map<nat, int>

  type Selector = s: seq<Item> | SelectorOk(s) witness [Pred(0, 0)]

  datatype Rule = Rule(predicates: seq<Selector>, properties: Props)

  /** One selector of a rule; `line` is the rule's number. */
  datatype Hit = Hit(pred: Selector, specificity: nat, line: nat, properties: Props)

  // ---- specificity ----

  const ID_WEIGHT: nat := 0x4000_0000
  const TAG_WEIGHT: nat := 0x1000
  const UINT: nat := 0x1_0000_0000

  function IdCount(noId: nat, sel: seq<Item>, k: nat): nat
    requires SelectorOk(sel) && k <= Last(sel) + 1
  {
    if k == 0 then 0 else IdCount(noId, sel, k - 1) + (if PredAt(sel, k - 1).id != noId then 1 else 0)
  }

  function TagCount(sel: seq<Item>, k: nat): nat
    requires SelectorOk(sel) && k <= Last(sel) + 1
  {
    if k == 0 then 0 else TagCount(sel, k - 1) + (if PredAt(sel, k - 1).tag != STAR then 1 else 0)
  }

  function Ids(noId: nat, sel: seq<Item>): nat
    requires SelectorOk(sel)
  {
    IdCount(noId, sel, Last(sel) + 1)
  }

  function Tags(sel: seq<Item>): nat
    requires SelectorOk(sel)
  {
    TagCount(sel, Last(sel) + 1)
  }

  /** The places of a selector's predicates that name an id. */
  function IdPlaces(noId: nat, sel: seq<Item>): set<nat>
    requires SelectorOk(sel)
  {
    set i: nat | i < |sel| && i % 2 == 0 && sel[i].id != noId
  }

  /** And of those that name a class. */
  function TagPlaces(sel: seq<Item>): set<nat>
    requires SelectorOk(sel)
  {
    set i: nat | i < |sel| && i % 2 == 0 && sel[i].tag != STAR
  }

  lemma {:induction false} CountsUpTo(noId: nat, sel: seq<Item>, k: nat)
    requires SelectorOk(sel) && k <= Last(sel) + 1
    ensures IdCount(noId, sel, k) == |set i: nat | i in IdPlaces(noId, sel) && i < 2 * k|
    ensures TagCount(sel, k) == |set i: nat | i in TagPlaces(sel) && i < 2 * k|
    decreases k
  {
    if k == 0 {
      assert (set i: nat | i in IdPlaces(noId, sel) && i < 2 * k) == {};
      assert (set i: nat | i in TagPlaces(sel) && i < 2 * k) == {};
    } else {
      CountsUpTo(noId, sel, k - 1);
      OneMorePlace(IdPlaces(noId, sel), k - 1);
      OneMorePlace(TagPlaces(sel), k - 1);
    }
  }

  lemma OneMorePlace(places: set<nat>, k: nat)
    requires forall i :: i in places ==> i % 2 == 0
    ensures |set i: nat | i in places && i < 2 * k + 2| ==
      |set i: nat | i in places && i < 2 * k| + if 2 * k in places then 1 else 0
  {
    var before, after := set i: nat | i in places && i < 2 * k, set i: nat | i in places && i < 2 * k + 2;
    assert after == before + if 2 * k in places then {2 * k} else {};
  }

  /** The counts in the specificity number are the numbers of predicates with an id and with a class. */
  lemma SpecificityCounts(noId: nat, sel: seq<Item>)
    requires SelectorOk(sel)
    ensures Ids(noId, sel) == |IdPlaces(noId, sel)| && Tags(sel) == |TagPlaces(sel)|
  {
    CountsUpTo(noId, sel, Last(sel) + 1);
    assert (set i: nat | i in IdPlaces(noId, sel) && i < 2 * (Last(sel) + 1)) == IdPlaces(noId, sel);
    assert (set i: nat | i in TagPlaces(sel) && i < 2 * (Last(sel) + 1)) == TagPlaces(sel);
  }

  function Weight(ids: nat, tags: nat, line: nat): nat {
    ids * ID_WEIGHT + tags * TAG_WEIGHT + line
  }

  method Specificity(noId: nat, pred: seq<Item>, line: nat) returns (s: nat)
    requires SelectorOk(pred)
    ensures s == Weight(Ids(noId, pred), Tags(pred), line)
  {
    var a, c, i := 0, 0, 0;
    ghost var k := 0;
    while i < |pred|
      invariant i == 2 * k && k <= Last(pred) + 1
      invariant a == IdCount(noId, pred, k) && c == TagCount(pred, k)
    {
      assert pred[i] == PredAt(pred, k);
      if pred[i].id != noId { a := a + 1; }
      if pred[i].tag != STAR { c := c + 1; }
      i := i + 2;
      k := k + 1;
    }
    s := a * ID_WEIGHT + c * TAG_WEIGHT + line;
  }

  predicate InRange(tags: nat, line: nat) {
    tags < 0x4_0000 && line < 0x1000
  }

  /** Within range, specificity numbers order selectors by id count, then tag count, then line, and equal
      numbers mean the same rule. */
  lemma WeightIsLexicographic(i1: nat, t1: nat, l1: nat, i2: nat, t2: nat, l2: nat)
    requires InRange(t1, l1) && InRange(t2, l2)
    ensures Weight(i1, t1, l1) < Weight(i2, t2, l2) <==>
      i1 < i2 || (i1 == i2 && (t1 < t2 || (t1 == t2 && l1 < l2)))
    ensures Weight(i1, t1, l1) == Weight(i2, t2, l2) <==> i1 == i2 && t1 == t2 && l1 == l2
  {
    var low1, low2 := t1 * TAG_WEIGHT + l1, t2 * TAG_WEIGHT + l2;
    assert low1 < ID_WEIGHT && low2 < ID_WEIGHT;
    assert t1 < t2 ==> low1 < low2;
    assert t2 < t1 ==> low2 < low1;
    assert i1 < i2 ==> i1 * ID_WEIGHT + ID_WEIGHT <= i2 * ID_WEIGHT;
    assert i2 < i1 ==> i2 * ID_WEIGHT + ID_WEIGHT <= i1 * ID_WEIGHT;
  }

  /** The emitted kernel returns the number as an unsigned int. */
  function Emitted(w: nat): nat {
    w % UINT
  }

  /** Up to three ids the number fits, the largest being all ones; from four on it wraps around. */
  lemma WeightFits(ids: nat, tags: nat, line: nat)
    requires InRange(tags, line)
    ensures Emitted(Weight(ids, tags, line)) == Weight(ids, tags, line) <==> ids <= 3
    ensures ids <= 3 ==> Weight(ids, tags, line) <= Weight(3, 0x3_FFFF, 0xFFF) == UINT - 1
  {
    assert ids >= 4 ==> ids * ID_WEIGHT >= 4 * ID_WEIGHT;
    assert ids <= 3 ==> ids * ID_WEIGHT <= 3 * ID_WEIGHT;
    assert tags * TAG_WEIGHT <= 0x3_FFFF * TAG_WEIGHT;
  }

  // ---- the bucket index ----

  /** Where a hit is filed: under its last predicate's id, else its tag, else among the stars. */
  datatype Key = ById(id: nat) | ByTag(tag: nat) | ByStar

  function KeyOf(noId: nat, pred: Selector): Key {
    var lastP := PredAt(pred, Last(pred));
    if lastP.id != noId then ById(lastP.id) else if lastP.tag != STAR then ByTag(lastP.tag) else ByStar
  }

  /** The last predicate names neither an id nor a class. */
  predicate EndsInStar(noId: nat, pred: Selector) {
    pred[|pred| - 1].id == noId && pred[|pred| - 1].tag == STAR
  }

  function HitOf(noId: nat, rule: Rule, line: nat, ps: nat): Hit
    requires ps < |rule.predicates|
  {
    var pred := rule.predicates[ps];
    Hit(pred, Weight(Ids(noId, pred), Tags(pred), line), line, rule.properties)
  }

  /** The hits of a rule's first `ps` selectors. */
  function RuleHits(noId: nat, rule: Rule, line: nat, ps: nat): seq<Hit>
    requires ps <= |rule.predicates|
  {
    if ps == 0 then [] else RuleHits(noId, rule, line, ps - 1) + [HitOf(noId, rule, line, ps - 1)]
  }

  /** The hits of the first `line` rules. */
  function Hits(noId: nat, rules: seq<Rule>, line: nat): seq<Hit>
    requires line <= |rules|
  {
    if line == 0 then [] else
      Hits(noId, rules, line - 1) + RuleHits(noId, rules[line - 1], line - 1, |rules[line - 1].predicates|)
  }

  /** How many selectors the first `line` rules have. */
  function Offset(rules: seq<Rule>, line: nat): nat
    requires line <= |rules|
  {
    if line == 0 then 0 else Offset(rules, line - 1) + |rules[line - 1].predicates|
  }

  lemma {:induction false} RuleHitsAt(noId: nat, rule: Rule, line: nat, n: nat, ps: nat)
    requires ps < n <= |rule.predicates|
    ensures |RuleHits(noId, rule, line, n)| == n
    ensures RuleHits(noId, rule, line, n)[ps] == HitOf(noId, rule, line, ps)
    decreases n
  {
    RuleHitsLength(noId, rule, line, n);
    RuleHitsLength(noId, rule, line, n - 1);
    if ps < n - 1 {
      RuleHitsAt(noId, rule, line, n - 1, ps);
    }
  }

  lemma {:induction false} RuleHitsLength(noId: nat, rule: Rule, line: nat, n: nat)
    requires n <= |rule.predicates|
    ensures |RuleHits(noId, rule, line, n)| == n
    decreases n
  {
    if n > 0 {
      RuleHitsLength(noId, rule, line, n - 1);
    }
  }

  lemma {:induction false} HitsLength(noId: nat, rules: seq<Rule>, line: nat)
    requires line <= |rules|
    ensures |Hits(noId, rules, line)| == Offset(rules, line)
    decreases line
  {
    if line > 0 {
      HitsLength(noId, rules, line - 1);
      RuleHitsLength(noId, rules[line - 1], line - 1, |rules[line - 1].predicates|);
    }
  }

  /** Every selector of every rule gives a hit, in the order of the rules, with the rule's properties and
      number and the weight of its counts; there are no others. */
  lemma {:induction false} HitAt(noId: nat, rules: seq<Rule>, line: nat, l: nat, ps: nat)
    requires l < line <= |rules| && ps < |rules[l].predicates|
    ensures |Hits(noId, rules, line)| == Offset(rules, line) > Offset(rules, l) + ps
    ensures var sel := rules[l].predicates[ps];
      Hits(noId, rules, line)[Offset(rules, l) + ps] ==
        Hit(sel, |IdPlaces(noId, sel)| * 0x4000_0000 + |TagPlaces(sel)| * 0x1000 + l, l, rules[l].properties)
    decreases line
  {
    var r := rules[line - 1];
    HitsLength(noId, rules, line);
    HitsLength(noId, rules, line - 1);
    RuleHitsLength(noId, r, line - 1, |r.predicates|);
    if l < line - 1 {
      HitAt(noId, rules, line - 1, l, ps);
    } else {
      RuleHitsAt(noId, r, l, |r.predicates|, ps);
      SpecificityCounts(noId, r.predicates[ps]);
    }
  }

  /** The converse: which selector of which rule the i-th hit comes from. */
  lemma {:induction false} RuleOfHit(noId: nat, rules: seq<Rule>, line: nat, i: nat) returns (l: nat, ps: nat)
    requires line <= |rules| && i < |Hits(noId, rules, line)|
    ensures l < line && ps < |rules[l].predicates| && i == Offset(rules, l) + ps
    decreases line
  {
    HitsLength(noId, rules, line);
    if i < Offset(rules, line - 1) {
      HitsLength(noId, rules, line - 1);
      l, ps := RuleOfHit(noId, rules, line - 1, i);
    } else {
      l, ps := line - 1, i - Offset(rules, line - 1);
    }
  }

  function Filed(noId: nat, hs: seq<Hit>, key: Key): seq<Hit> {
    if hs == [] then [] else
      var h := hs[|hs| - 1];
      Filed(noId, hs[..|hs| - 1], key) + (if KeyOf(noId, h.pred) == key then [h] else [])
  }

  lemma FiledPush(noId: nat, hs: seq<Hit>, h: Hit, key: Key)
    ensures Filed(noId, hs + [h], key) == Filed(noId, hs, key) + (if KeyOf(noId, h.pred) == key then [h] else [])
  {
    assert (hs + [h])[..|hs|] == hs;
  }

  lemma {:induction false} FiledMembers(noId: nat, hs: seq<Hit>, key: Key, h: Hit)
    ensures h in Filed(noId, hs, key) <==> h in hs && KeyOf(noId, h.pred) == key
  {
    if hs != [] {
      FiledMembers(noId, hs[..|hs| - 1], key, h);
      assert hs == hs[..|hs| - 1] + [hs[|hs| - 1]];
    }
  }

  function Get<T>(m: map<nat, seq<T>>, k: nat): seq<T> {
    if k in m then m[k] else []
  }

  datatype Hashes = Hashes(idHash: map<nat, seq<Hit>>, tagHash: map<nat, seq<Hit>>, star: seq<Hit>) {
    /** The bucket for `key`. */
    function Bucket(key: Key): seq<Hit> {
      match key
      case ById(id) => Get(idHash, id)
      case ByTag(tag) => Get(tagHash, tag)
      case ByStar => star
    }
  }

  ghost predicate Sorted(hs: seq<Hit>) {
    forall i, j :: 0 <= i < j < |hs| ==> hs[i].specificity <= hs[j].specificity
  }

  /** Each bucket holds the hits filed under its key, each as often as it occurs; all buckets but the
      stars are sorted by specificity. */
  ghost predicate Index(noId: nat, hits: seq<Hit>, hashes: Hashes) {
    && (forall key :: multiset(hashes.Bucket(key)) == multiset(Filed(noId, hits, key)))
    && (forall k :: Sorted(Get(hashes.idHash, k)) && Sorted(Get(hashes.tagHash, k)))
  }

  lemma {:induction false} FiledCount(noId: nat, hits: seq<Hit>, key: Key, h: Hit)
    ensures multiset(Filed(noId, hits, key))[h] == if KeyOf(noId, h.pred) == key then multiset(hits)[h] else 0
  {
    if hits != [] {
      var before, last := hits[..|hits| - 1], hits[|hits| - 1];
      FiledCount(noId, before, key, h);
      assert hits == before + [last];
      assert multiset(hits)[h] == multiset(before)[h] + multiset([last])[h];
      assert KeyOf(noId, last.pred) == key ==> Filed(noId, hits, key) == Filed(noId, before, key) + [last];
    }
  }

  /** Which bucket holds a hit, and how often, by its last predicate: the one of its id if it names one; else
      the one of its class if it names one; else the star bucket. */
  lemma IndexFiles(noId: nat, hits: seq<Hit>, hashes: Hashes, h: Hit, k: nat)
    requires Index(noId, hits, hashes)
    ensures var last, n := h.pred[|h.pred| - 1], multiset(hits)[h];
      && multiset(Get(hashes.idHash, k))[h] == (if last.id != noId && last.id == k then n else 0)
      && multiset(Get(hashes.tagHash, k))[h] == (if last.id == noId && last.tag != STAR && last.tag == k then n else 0)
      && multiset(hashes.star)[h] == (if last.id == noId && last.tag == STAR then n else 0)
  {
    BucketCount(noId, hits, hashes, ById(k), h);
    BucketCount(noId, hits, hashes, ByTag(k), h);
    BucketCount(noId, hits, hashes, ByStar, h);
  }

  lemma BucketCount(noId: nat, hits: seq<Hit>, hashes: Hashes, key: Key, h: Hit)
    requires Index(noId, hits, hashes)
    ensures multiset(hashes.Bucket(key))[h] == if KeyOf(noId, h.pred) == key then multiset(hits)[h] else 0
  {
    FiledCount(noId, hits, key, h);
    assert multiset(hashes.Bucket(key)) == multiset(Filed(noId, hits, key));
  }

  /** Pushes onto the array under `lookup`, which is created on first use. */
  method AddSel(hash: map<nat, seq<Hit>>, lookup: nat, hit: Hit) returns (res: map<nat, seq<Hit>>)
    ensures res.Keys == hash.Keys + {lookup}
    ensures forall k :: Get(res, k) == if k == lookup then Get(hash, k) + [hit] else Get(hash, k)
  {
    res := hash;
    if lookup !in res {
      res := res[lookup := []];
    }
    res := res[lookup := res[lookup] + [hit]];
  }

  /** Each bucket holds the hits filed under its key, in order. */
  ghost predicate AllFiled(noId: nat, hits: seq<Hit>, hashes: Hashes) {
    forall key :: hashes.Bucket(key) == Filed(noId, hits, key)
  }

  method AddHit(noId: nat, hashes: Hashes, ghost hits: seq<Hit>, hit: Hit) returns (res: Hashes)
    requires AllFiled(noId, hits, hashes)
    ensures AllFiled(noId, hits + [hit], res)
  {
    var lastP := hit.pred[|hit.pred| - 1];
    res := hashes;
    if lastP.id != noId {
      var m := AddSel(hashes.idHash, lastP.id, hit);
      res := hashes.(idHash := m);
    } else if lastP.tag != STAR {
      var m := AddSel(hashes.tagHash, lastP.tag, hit);
      res := hashes.(tagHash := m);
    } else {
      res := hashes.(star := hashes.star + [hit]);
    }
    ghost var filed :=
      if lastP.id != noId then ById(lastP.id) else if lastP.tag != STAR then ByTag(lastP.tag) else ByStar;
    HitFiled(noId, hits, hashes, res, hit, filed);
  }

  lemma HitFiled(noId: nat, hits: seq<Hit>, hashes: Hashes, res: Hashes, hit: Hit, filed: Key)
    requires AllFiled(noId, hits, hashes) && filed == KeyOf(noId, hit.pred)
    requires forall key :: res.Bucket(key) == hashes.Bucket(key) + (if filed == key then [hit] else [])
    ensures AllFiled(noId, hits + [hit], res)
  {
    forall key ensures res.Bucket(key) == Filed(noId, hits + [hit], key) {
      FiledPush(noId, hits, hit, key);
    }
  }

  /** The hits of a rule are filed after those of earlier rules. */
  method AddRule(noId: nat, hashes: Hashes, ghost hits: seq<Hit>, rule: Rule, line: nat) returns (res: Hashes)
    requires AllFiled(noId, hits, hashes)
    ensures AllFiled(noId, hits + RuleHits(noId, rule, line, |rule.predicates|), res)
  {
    res := hashes;
    ghost var sofar := hits;
    for ps := 0 to |rule.predicates|
      invariant sofar == hits + RuleHits(noId, rule, line, ps)
      invariant AllFiled(noId, sofar, res)
    {
      var pred := rule.predicates[ps];
      var s := Specificity(noId, pred, line);
      res := AddHit(noId, res, sofar, Hit(pred, s, line, rule.properties));
      sofar := sofar + [HitOf(noId, rule, line, ps)];
    }
  }

  method Hash(noId: nat, rules: seq<Rule>) returns (hashes: Hashes)
    ensures Index(noId, Hits(noId, rules, |rules|), hashes)
  {
    hashes := Hashes(map[], map[], []);
    for i := 0 to |rules|
      invariant AllFiled(noId, Hits(noId, rules, i), hashes)
    {
      hashes := AddRule(noId, hashes, Hits(noId, rules, i), rules[i], i);
    }
    var idHash := SortBuckets(hashes.idHash);
    var tagHash := SortBuckets(hashes.tagHash);
    hashes := SortedHashes(noId, Hits(noId, rules, |rules|), hashes, idHash, tagHash);
  }

  function SortedHashes(noId: nat, ghost hits: seq<Hit>, hashes: Hashes, idHash: map<nat, seq<Hit>>,
      tagHash: map<nat, seq<Hit>>): (res: Hashes)
    requires AllFiled(noId, hits, hashes)
    requires forall k :: Sorted(Get(idHash, k)) && multiset(Get(idHash, k)) == multiset(Get(hashes.idHash, k))
    requires forall k :: Sorted(Get(tagHash, k)) && multiset(Get(tagHash, k)) == multiset(Get(hashes.tagHash, k))
    ensures Index(noId, hits, res)
  {
    var res := Hashes(idHash, tagHash, hashes.star);
    assert forall key :: multiset(res.Bucket(key)) == multiset(hashes.Bucket(key));
    res
  }

  /** Sorts every bucket. The order of equal numbers is left to the sort. */
  method SortBuckets(hash: map<nat, seq<Hit>>) returns (res: map<nat, seq<Hit>>)
    ensures res.Keys == hash.Keys
    ensures forall k :: Sorted(Get(res, k)) && multiset(Get(res, k)) == multiset(Get(hash, k))
  {
    res := hash;
    var keys := hash.Keys;
    while keys != {}
      invariant keys <= hash.Keys == res.Keys
      invariant forall k :: k in keys ==> res[k] == hash[k]
      invariant forall k :: multiset(Get(res, k)) == multiset(Get(hash, k))
      invariant forall k :: k !in keys ==> Sorted(Get(res, k))
    {
      var k :| k in keys;
      var s := Sort(res[k]);
      res := res[k := s];
      keys := keys - {k};
    }
  }

  method Sort(hs: seq<Hit>) returns (res: seq<Hit>)
    ensures Sorted(res) && multiset(res) == multiset(hs)
  {
    res := [];
    for i := 0 to |hs|
      invariant Sorted(res) && multiset(res) == multiset(hs[..i])
    {
      var j := Position(res, hs[i]);
      assert hs[..i + 1] == hs[..i] + [hs[i]];
      res := Insert(res, j, hs[i]);
    }
    assert hs[..|hs|] == hs;
  }

  method Position(hs: seq<Hit>, h: Hit) returns (j: nat)
    requires Sorted(hs)
    ensures j <= |hs|
    ensures forall x :: 0 <= x < j ==> hs[x].specificity <= h.specificity
    ensures forall x :: j <= x < |hs| ==> h.specificity < hs[x].specificity
  {
    j := |hs|;
    while j > 0 && hs[j - 1].specificity > h.specificity
      invariant j <= |hs|
      invariant forall x :: j <= x < |hs| ==> h.specificity < hs[x].specificity
    {
      j := j - 1;
    }
  }

  function Insert(hs: seq<Hit>, j: nat, h: Hit): (r: seq<Hit>)
    requires Sorted(hs) && j <= |hs|
    requires forall x :: 0 <= x < j ==> hs[x].specificity <= h.specificity
    requires forall x :: j <= x < |hs| ==> h.specificity <= hs[x].specificity
    ensures Sorted(r) && multiset(r) == multiset(hs) + multiset{h}
  {
    InsertKeeps(hs[..j], hs[j..], h);
    assert hs == hs[..j] + hs[j..];
    hs[..j] + [h] + hs[j..]
  }

  lemma InsertKeeps(a: seq<Hit>, b: seq<Hit>, h: Hit)
    ensures multiset(a + [h] + b) == multiset(a + b) + multiset{h}
  {
  }
}
