/** The merge loop of the emitted kernel, which also tries the star bucket and compares the numbers as
    unsigned ints. */
module KernelMerge {
  import opened Documents
  import opened Selectors
  import opened Cascade
  import opened Painting

  function Spec(h: Hit): nat {
    Emitted(h.specificity)
  }

  /** Whether the loop tries the next id candidate: only when its number is below both other heads. */
  predicate TryId(ids: seq<Hit>, tags: seq<Hit>, stars: seq<Hit>) {
    && ids != []
    && (tags != [] ==> Spec(ids[0]) < Spec(tags[0]))
    && (stars != [] ==> Spec(ids[0]) < Spec(stars[0]))
  }

  /** Otherwise, whether it tries the next tag candidate: when its number is not below the next star's. */
  predicate TryTag(tags: seq<Hit>, stars: seq<Hit>) {
    tags != [] && (stars != [] ==> Spec(tags[0]) >= Spec(stars[0]))
  }

  /** The order in which the emitted loop tries its candidates. */
  function Merge3(ids: seq<Hit>, tags: seq<Hit>, stars: seq<Hit>): seq<Hit>
    decreases |ids| + |tags| + |stars|
  {
    if TryId(ids, tags, stars) then [ids[0]] + Merge3(ids[1..], tags, stars)
    else if TryTag(tags, stars) then [tags[0]] + Merge3(ids, tags[1..], stars)
    else if stars != [] then [stars[0]] + Merge3(ids, tags, stars[1..])
    else []
  }

  lemma ConsHits(hs: seq<Hit>)
    requires hs != []
    ensures multiset(hs) == multiset{hs[0]} + multiset(hs[1..])
  {
    assert hs == [hs[0]] + hs[1..];
  }

  /** Every candidate is tried exactly once, whatever the numbers. */
  lemma {:induction false} Merge3Hits(ids: seq<Hit>, tags: seq<Hit>, stars: seq<Hit>)
    ensures multiset(Merge3(ids, tags, stars)) == multiset(ids) + multiset(tags) + multiset(stars)
    decreases |ids| + |tags| + |stars|
  {
    var m := Merge3(ids, tags, stars);
    if TryId(ids, tags, stars) {
      Merge3Hits(ids[1..], tags, stars);
      ConsHits(ids);
      assert m[0] == ids[0] && m[1..] == Merge3(ids[1..], tags, stars);
      ConsHits(m);
    } else if TryTag(tags, stars) {
      Merge3Hits(ids, tags[1..], stars);
      ConsHits(tags);
      assert m[0] == tags[0] && m[1..] == Merge3(ids, tags[1..], stars);
      ConsHits(m);
    } else if stars != [] {
      Merge3Hits(ids, tags, stars[1..]);
      ConsHits(stars);
      assert m[0] == stars[0] && m[1..] == Merge3(ids, tags, stars[1..]);
      ConsHits(m);
    }
  }

  lemma {:induction false} Merge3One(hs: seq<Hit>)
    ensures Merge3(hs, [], []) == hs && Merge3([], hs, []) == hs
  {
    if hs != [] {
      Merge3One(hs[1..]);
      assert hs == [hs[0]] + hs[1..];
    }
  }

  lemma {:induction false} Merge3Step(ids: seq<Hit>, tags: seq<Hit>)
    requires ids != [] && tags != [] && ids[0].specificity < UINT && tags[0].specificity < UINT
    ensures Merge3(ids, tags, []) ==
      if ids[0].specificity < tags[0].specificity then [ids[0]] + Merge3(ids[1..], tags, [])
      else [tags[0]] + Merge3(ids, tags[1..], [])
  {
  }

  /** Without stars and without overflow the loop tries the candidates in the interpreter's order. */
  lemma {:induction false} Merge3IsMerge(ids: seq<Hit>, tags: seq<Hit>)
    requires forall h :: h in ids || h in tags ==> h.specificity < UINT
    ensures Merge3(ids, tags, []) == Merge(ids, tags)
    decreases |ids| + |tags|
  {
    if ids == [] {
      Merge3One(tags);
    } else if tags == [] {
      Merge3One(ids);
    } else {
      assert ids[0] in ids && tags[0] in tags;
      Merge3Step(ids, tags);
      if ids[0].specificity < tags[0].specificity {
        Merge3IsMerge(ids[1..], tags);
      } else {
        Merge3IsMerge(ids, tags[1..]);
      }
    }
  }

  ghost predicate InOrder(hs: seq<Hit>) {
    forall i, j :: 0 <= i < j < |hs| ==> Spec(hs[i]) <= Spec(hs[j])
  }

  ghost predicate AllAtLeast(hs: seq<Hit>, v: nat) {
    forall i :: 0 <= i < |hs| ==> v <= Spec(hs[i])
  }

  /** All tag candidates have the number of the first star candidate, or one of the buckets is empty. */
  ghost predicate LevelWithStars(tags: seq<Hit>, stars: seq<Hit>) {
    stars == [] || forall i :: 0 <= i < |tags| ==> Spec(tags[i]) == Spec(stars[0])
  }

  lemma MergedAtLeast(ids: seq<Hit>, tags: seq<Hit>, stars: seq<Hit>, v: nat)
    ensures AllAtLeast(Merge3(ids, tags, stars), v) <==>
      AllAtLeast(ids, v) && AllAtLeast(tags, v) && AllAtLeast(stars, v)
  {
    Merge3Hits(ids, tags, stars);
    var m := Merge3(ids, tags, stars);
    assert forall h :: h in m <==> h in multiset(m);
    assert forall h :: h in multiset(m) <==> h in ids || h in tags || h in stars;
    if AllAtLeast(ids, v) && AllAtLeast(tags, v) && AllAtLeast(stars, v) {
      forall i | 0 <= i < |m| ensures v <= Spec(m[i]) {
        assert m[i] in m;
      }
    }
    if AllAtLeast(m, v) {
      forall h | h in m ensures v <= Spec(h) {
        var i :| 0 <= i < |m| && m[i] == h;
      }
      forall i | 0 <= i < |ids| ensures v <= Spec(ids[i]) { assert ids[i] in m; }
      forall i | 0 <= i < |tags| ensures v <= Spec(tags[i]) { assert tags[i] in m; }
      forall i | 0 <= i < |stars| ensures v <= Spec(stars[i]) { assert stars[i] in m; }
    }
  }

  lemma ConsInOrder(hs: seq<Hit>)
    requires hs != []
    ensures InOrder(hs) <==> AllAtLeast(hs[1..], Spec(hs[0])) && InOrder(hs[1..])
  {
    var t := hs[1..];
    assert forall i :: 0 <= i < |t| ==> t[i] == hs[i + 1];
    assert forall i :: 1 <= i < |hs| ==> hs[i] == t[i - 1];
  }

  /** The head of the merged list and the rest of it, in terms of the buckets the rest is merged from. */
  lemma MergedInOrder(m: seq<Hit>, ids: seq<Hit>, tags: seq<Hit>, stars: seq<Hit>)
    requires m != [] && m[1..] == Merge3(ids, tags, stars)
    ensures InOrder(m) <==>
      && InOrder(Merge3(ids, tags, stars))
      && AllAtLeast(ids, Spec(m[0])) && AllAtLeast(tags, Spec(m[0])) && AllAtLeast(stars, Spec(m[0]))
  {
    ConsInOrder(m);
    MergedAtLeast(ids, tags, stars, Spec(m[0]));
  }

  lemma SortedAtLeast(hs: seq<Hit>, v: nat)
    requires InOrder(hs) && (hs != [] ==> v <= Spec(hs[0]))
    ensures AllAtLeast(hs, v)
  {
  }

  lemma TagFirst(tags: seq<Hit>, stars: seq<Hit>)
    requires InOrder(tags) && TryTag(tags, stars)
    ensures InOrder(stars) && LevelWithStars(tags[1..], stars) && AllAtLeast(stars, Spec(tags[0])) <==>
      InOrder(stars) && LevelWithStars(tags, stars)
  {
    assert tags == [tags[0]] + tags[1..];
    if stars != [] && InOrder(stars) && LevelWithStars(tags[1..], stars) && AllAtLeast(stars, Spec(tags[0])) {
      assert Spec(tags[0]) <= Spec(stars[0]);
    }
  }

  /** The emitted loop goes by non-decreasing specificity exactly when the star bucket is in order and the
      tag candidates all have the first star candidate's number (or there are no tags, or no stars). */
  lemma {:induction false} Merge3InOrder(ids: seq<Hit>, tags: seq<Hit>, stars: seq<Hit>)
    requires InOrder(ids) && InOrder(tags)
    ensures InOrder(Merge3(ids, tags, stars)) <==> InOrder(stars) && LevelWithStars(tags, stars)
    decreases |ids| + |tags| + |stars|
  {
    var m := Merge3(ids, tags, stars);
    if TryId(ids, tags, stars) {
      assert m[0] == ids[0] && m[1..] == Merge3(ids[1..], tags, stars);
      ConsInOrder(ids);
      Merge3InOrder(ids[1..], tags, stars);
      MergedInOrder(m, ids[1..], tags, stars);
      SortedAtLeast(tags, Spec(ids[0]));
      if InOrder(stars) {
        SortedAtLeast(stars, Spec(ids[0]));
      }
    } else if TryTag(tags, stars) {
      assert m[0] == tags[0] && m[1..] == Merge3(ids, tags[1..], stars);
      ConsInOrder(tags);
      Merge3InOrder(ids, tags[1..], stars);
      MergedInOrder(m, ids, tags[1..], stars);
      TagFirst(tags, stars);
      if LevelWithStars(tags, stars) {
        SortedAtLeast(ids, Spec(tags[0]));
      }
    } else if stars != [] {
      assert m[0] == stars[0] && m[1..] == Merge3(ids, tags, stars[1..]);
      ConsInOrder(stars);
      Merge3InOrder(ids, tags, stars[1..]);
      MergedInOrder(m, ids, tags, stars[1..]);
      if tags == [] {
        SortedAtLeast(ids, Spec(stars[0]));
      }
    }
  }

  /** How many properties the applied rules set, repetitions included: the kernel's result per node. */
  function Applied(doc: Doc, noId: nat, node: nat, hits: seq<Hit>): nat
    requires doc.Valid() && node < |doc.parent|
  {
    if hits == [] then 0 else
      (if Matches(doc, noId, hits[0].pred, node) then |hits[0].properties| else 0) + Applied(doc, noId, node, hits[1..])
  }

  lemma {:induction false} AppliedSnoc(doc: Doc, noId: nat, node: nat, hits: seq<Hit>, h: Hit)
    requires doc.Valid() && node < |doc.parent|
    ensures Applied(doc, noId, node, hits + [h]) ==
      Applied(doc, noId, node, hits) + if Matches(doc, noId, h.pred, node) then |h.properties| else 0
    decreases hits
  {
    if hits != [] {
      AppliedSnoc(doc, noId, node, hits[1..], h);
      assert (hits + [h])[1..] == hits[1..] + [h];
    }
  }

  /** What the matching hits set: hit and property. */
  function Settings(doc: Doc, noId: nat, node: nat, hits: seq<Hit>): set<(nat, nat)>
    requires doc.Valid() && node < |doc.parent|
  {
    set k: nat, p: nat | k < |hits| && p in hits[k].properties && Matches(doc, noId, hits[k].pred, node) :: (k, p)
  }

  function Pairs(k: nat, s: set<nat>): set<(nat, nat)> {
    set p | p in s :: (k, p)
  }

  lemma {:induction false} PairCount(k: nat, s: set<nat>)
    ensures |Pairs(k, s)| == |s|
    decreases |s|
  {
    if s == {} {
      assert Pairs(k, s) == {};
    } else {
      var p :| p in s;
      PairCount(k, s - {p});
      assert Pairs(k, s) == Pairs(k, s - {p}) + {(k, p)};
    }
  }

  /** The count is the number of properties that matching hits set, each hit for itself. */
  lemma {:induction false} AppliedCounts(doc: Doc, noId: nat, node: nat, hits: seq<Hit>)
    requires doc.Valid() && node < |doc.parent|
    ensures Applied(doc, noId, node, hits) == |Settings(doc, noId, node, hits)|
    decreases |hits|
  {
    if hits == [] {
      assert Settings(doc, noId, node, hits) == {};
    } else {
      var k := |hits| - 1;
      var before, last := hits[..k], hits[k];
      AppliedCounts(doc, noId, node, before);
      AppliedSnoc(doc, noId, node, before, last);
      assert hits == before + [last];
      SettingsSnoc(doc, noId, node, before, last);
      PairCount(k, last.properties.Keys);
    }
  }

  lemma SettingsSnoc(doc: Doc, noId: nat, node: nat, hits: seq<Hit>, h: Hit)
    requires doc.Valid() && node < |doc.parent|
    ensures var before, more := Settings(doc, noId, node, hits), Pairs(|hits|, h.properties.Keys);
      && Settings(doc, noId, node, hits + [h]) == before + (if Matches(doc, noId, h.pred, node) then more else {})
      && before !! more
  {
    var all := hits + [h];
    forall k: nat, p: nat
      ensures (k, p) in Settings(doc, noId, node, all) <==>
        (k, p) in Settings(doc, noId, node, hits)
        || (Matches(doc, noId, h.pred, node) && (k, p) in Pairs(|hits|, h.properties.Keys))
    {
      if k < |hits| { assert all[k] == hits[k]; }
    }
  }
}
