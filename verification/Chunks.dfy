/** Cutting a deflated array into chunks of equal weight, and inflating chunks separately. */
module Chunks {
  import opened Trees
  import opened Sparse

  // ---- an object's blocks in key order ----

  datatype Block = Block(start: nat, data: seq<int>)

  ghost predicate Listed(bs: seq<Block>, k: nat, v: seq<int>) {
    exists i :: 0 <= i < |bs| && bs[i] == Block(k, v)
  }

  /** `bs` are the object's entries in the order in which a for-in loop enumerates them. */
  ghost predicate IsAsc(d: Dense, bs: seq<Block>) {
    && (forall i :: 0 <= i < |bs| ==> bs[i].start in d && bs[i].data == d[bs[i].start])
    && (forall i, j :: 0 <= i < j < |bs| ==> bs[i].start < bs[j].start)
    && (forall k :: k in d ==> Listed(bs, k, d[k]))
  }

  ghost function LeastFrom(s: set<nat>, i: nat, x: nat): (k: nat)
    requires x in s && i <= x && forall j :: j in s ==> i <= j
    ensures k in s && forall j :: j in s ==> k <= j
    decreases x - i
  {
    if i in s then i else LeastFrom(s, i + 1, x)
  }

  /** Putting an entry before all others. */
  lemma AscCons(d: Dense, k: nat, v: seq<int>, bs: seq<Block>)
    requires IsAsc(d, bs) && forall j :: j in d ==> k < j
    ensures IsAsc(d[k := v], [Block(k, v)] + bs)
  {
    var cs, d' := [Block(k, v)] + bs, d[k := v];
    forall j | j in d' ensures Listed(cs, j, d'[j]) {
      if j == k {
        assert cs[0] == Block(k, v);
      } else {
        assert Listed(bs, j, d[j]);
        var i :| 0 <= i < |bs| && bs[i] == Block(j, d[j]);
        assert cs[i + 1] == Block(j, d[j]);
      }
    }
  }

  /** Putting an entry after all others. */
  lemma AscSnoc(d: Dense, k: nat, v: seq<int>, bs: seq<Block>)
    requires IsAsc(d, bs) && forall j :: j in d ==> j < k
    ensures IsAsc(d[k := v], bs + [Block(k, v)])
  {
    var cs, d' := bs + [Block(k, v)], d[k := v];
    forall j | j in d' ensures Listed(cs, j, d'[j]) {
      if j == k {
        assert cs[|bs|] == Block(k, v);
      } else {
        assert Listed(bs, j, d[j]);
        var i :| 0 <= i < |bs| && bs[i] == Block(j, d[j]);
        assert cs[i] == Block(j, d[j]);
      }
    }
  }

  lemma FirstKey(d: Dense) returns (k: nat)
    requires d != map[]
    ensures k in d && |d - {k}| < |d| && forall j :: j in d - {k} ==> k < j
  {
    var x :| x in d.Keys;
    k := LeastFrom(d.Keys, 0, x);
    assert (d - {k}).Keys == d.Keys - {k};
  }

  lemma {:induction false} AscExists(d: Dense)
    ensures exists bs :: IsAsc(d, bs)
    decreases |d|
  {
    if d == map[] {
      assert IsAsc(d, []);
    } else {
      var k := FirstKey(d);
      AscExists(d - {k});
      var bs :| IsAsc(d - {k}, bs);
      AscCons(d - {k}, k, d[k], bs);
      assert (d - {k})[k := d[k]] == d;
    }
  }

  lemma AscTail(d: Dense, bs: seq<Block>)
    requires IsAsc(d, bs) && bs != []
    ensures IsAsc(d - {bs[0].start}, bs[1..]) && forall j :: j in d ==> bs[0].start <= j
  {
    var rest := d - {bs[0].start};
    forall j | j in d ensures bs[0].start <= j && (j in rest ==> Listed(bs[1..], j, rest[j])) {
      assert Listed(bs, j, d[j]);
      var i :| 0 <= i < |bs| && bs[i] == Block(j, d[j]);
      assert i > 0 ==> bs[1..][i - 1] == Block(j, d[j]);
    }
  }

  lemma AscNonempty(d: Dense, bs: seq<Block>)
    requires IsAsc(d, bs)
    ensures bs == [] <==> d == map[]
  {
    assert |bs| > 0 ==> bs[0].start in d;
    if d != map[] {
      var k :| k in d;
      assert Listed(bs, k, d[k]);
    }
  }

  lemma AscFirst(d: Dense, a: seq<Block>, b: seq<Block>)
    requires IsAsc(d, a) && IsAsc(d, b) && a != [] && b != []
    ensures a[0] == b[0]
  {
    AscTail(d, a);
    AscTail(d, b);
    assert a[0].start in d && b[0].start in d;
  }

  lemma AscRest(d: Dense, bs: seq<Block>)
    requires IsAsc(d, bs) && bs != []
    ensures IsAsc(d - {bs[0].start}, bs[1..])
  {
    AscTail(d, bs);
  }

  lemma {:induction false} AscUnique(d: Dense, a: seq<Block>, b: seq<Block>)
    requires IsAsc(d, a) && IsAsc(d, b)
    ensures a == b
    decreases |a|
  {
    AscNonempty(d, a);
    AscNonempty(d, b);
    if a != [] {
      AscFirst(d, a, b);
      AscRest(d, a);
      AscRest(d, b);
      AscUnique(d - {a[0].start}, a[1..], b[1..]);
      assert a == [a[0]] + a[1..] && b == [b[0]] + b[1..];
    }
  }

  ghost function Concat(bss: seq<seq<Block>>): seq<Block> {
    if bss == [] then [] else bss[0] + Concat(bss[1..])
  }

  lemma {:induction false} ConcatAppend(a: seq<seq<Block>>, b: seq<seq<Block>>)
    ensures Concat(a + b) == Concat(a) + Concat(b)
  {
    if a == [] {
      assert a + b == b;
    } else {
      ConcatAppend(a[1..], b);
      assert (a + b)[0] == a[0] && (a + b)[1..] == a[1..] + b;
      assert a[0] + (Concat(a[1..]) + Concat(b)) == (a[0] + Concat(a[1..])) + Concat(b);
    }
  }

  // ---- weights ----

  ghost function Sum(bs: seq<Block>): nat {
    if bs == [] then 0 else |bs[0].data| + Sum(bs[1..])
  }

  lemma {:induction false} SumSnoc(bs: seq<Block>, b: Block)
    ensures Sum(bs + [b]) == Sum(bs) + |b.data|
  {
    if bs != [] {
      SumSnoc(bs[1..], b);
      assert (bs + [b])[1..] == bs[1..] + [b];
    }
  }

  /** How many elements the blocks hold. */
  ghost function Weight(d: Dense): nat {
    AscExists(d);
    var bs :| IsAsc(d, bs);
    Sum(bs)
  }

  lemma WeightIs(d: Dense, bs: seq<Block>)
    requires IsAsc(d, bs)
    ensures Weight(d) == Sum(bs)
  {
    forall cs | IsAsc(d, cs) ensures cs == bs {
      AscUnique(d, bs, cs);
    }
  }

  /** The places of the elements in an object's blocks: block and offset. */
  function Places(d: Dense): set<(nat, nat)> {
    set k: nat, i: nat | k in d && i < |d[k]| :: (k, i)
  }

  lemma {:induction false} OffsetsCount(k: nat, n: nat)
    ensures |set i: nat | i < n :: (k, i)| == n
  {
    if n == 0 {
      assert (set i: nat | i < n :: (k, i)) == {};
    } else {
      OffsetsCount(k, n - 1);
      assert (set i: nat | i < n :: (k, i)) == (set i: nat | i < n - 1 :: (k, i)) + {(k, n - 1)};
    }
  }

  lemma {:induction false} SumCounts(d: Dense, bs: seq<Block>)
    requires IsAsc(d, bs)
    ensures Sum(bs) == |Places(d)|
    decreases |bs|
  {
    AscNonempty(d, bs);
    if bs == [] {
      assert Places(d) == {};
    } else {
      var k := bs[0].start;
      AscRest(d, bs);
      SumCounts(d - {k}, bs[1..]);
      OffsetsCount(k, |d[k]|);
      assert Places(d) == Places(d - {k}) + set i: nat | i < |d[k]| :: (k, i);
    }
  }

  /** A weight is a number of elements. */
  lemma WeightCounts(d: Dense)
    ensures Weight(d) == |Places(d)|
  {
    AscExists(d);
    var bs :| IsAsc(d, bs);
    WeightIs(d, bs);
    SumCounts(d, bs);
  }

  /** A block put at the end, possibly over an empty one, adds its elements. */
  lemma WeightPut(d: Dense, k: nat, v: seq<int>)
    requires (forall j :: j in d ==> j <= k) && (k in d ==> d[k] == [])
    ensures Weight(d[k := v]) == Weight(d) + |v|
  {
    var base := d - {k};
    AscExists(base);
    var bs :| IsAsc(base, bs);
    AscSnoc(base, k, v, bs);
    assert base[k := v] == d[k := v];
    WeightIs(d[k := v], bs + [Block(k, v)]);
    SumSnoc(bs, Block(k, v));
    if k in d {
      AscSnoc(base, k, [], bs);
      assert base[k := []] == d;
      WeightIs(d, bs + [Block(k, [])]);
      SumSnoc(bs, Block(k, []));
    } else {
      assert base == d;
      WeightIs(d, bs);
    }
  }

  // ---- blocks in line ----

  ghost predicate BlockOk(a: seq<int>, b: Block) {
    b.start + |b.data| <= |a| && b.data == a[b.start..b.start + |b.data|]
  }

  /** From `f` on the blocks hold what `a` holds, in ascending order and without overlap. */
  ghost predicate InLine(bs: seq<Block>, a: seq<int>, f: nat)
    decreases bs
  {
    bs == [] || (f <= bs[0].start && BlockOk(a, bs[0]) && InLine(bs[1..], a, bs[0].start + |bs[0].data|))
  }

  ghost predicate OnLine(bs: seq<Block>, x: int) {
    bs != [] && (bs[0].start <= x < bs[0].start + |bs[0].data| || OnLine(bs[1..], x))
  }

  /** The entries of an object whose blocks are verbatim and disjoint are in line. */
  lemma {:induction false} AscInLine(d: Dense, bs: seq<Block>, a: seq<int>, f: nat)
    requires IsAsc(d, bs) && Disjoint(d) && forall k :: k in d ==> Entry(d, a, f, k)
    ensures InLine(bs, a, f)
    decreases |bs|
  {
    if bs != [] {
      var k := bs[0].start;
      assert Entry(d, a, f, k);
      AscTail(d, bs);
      RestEntries(d, a, f, k);
      AscInLine(d - {k}, bs[1..], a, k + |bs[0].data|);
    }
  }

  ghost predicate Entry(d: Dense, a: seq<int>, f: nat, k: nat) {
    k in d && f <= k && BlockOk(a, Block(k, d[k]))
  }

  lemma RestEntries(d: Dense, a: seq<int>, f: nat, k: nat)
    requires Disjoint(d) && forall j :: j in d ==> Entry(d, a, f, j)
    requires k in d && forall j :: j in d ==> k <= j
    ensures Disjoint(d - {k})
    ensures var rest := d - {k}; forall j :: j in rest ==> Entry(rest, a, k + |d[k]|, j)
  {
    var rest, next := d - {k}, k + |d[k]|;
    forall j | j in rest ensures Entry(rest, a, next, j) {
      assert Entry(d, a, f, j);
    }
  }

  lemma {:induction false} OnLineAt(bs: seq<Block>, i: nat, x: int)
    requires i < |bs| && bs[i].start <= x < bs[i].start + |bs[i].data|
    ensures OnLine(bs, x)
    decreases i
  {
    if i > 0 {
      OnLineAt(bs[1..], i - 1, x);
    }
  }

  lemma AscCovers(d: Dense, bs: seq<Block>, x: int)
    requires IsAsc(d, bs) && Covers(d, x)
    ensures OnLine(bs, x)
  {
    var k :| k in d && InBlock(d, k, x);
    assert Listed(bs, k, d[k]);
    var i :| 0 <= i < |bs| && bs[i] == Block(k, d[k]);
    OnLineAt(bs, i, x);
  }

  // ---- chunks ----

  /** The chunk accounts for [lo, hi): its blocks lie there and hold what `a` holds, and outside its
      blocks `a` is zero there. */
  ghost predicate ChunkOk(a: seq<int>, d: Dense, lo: nat, hi: nat) {
    && lo <= hi <= |a|
    && (forall k: nat :: k in d ==> Verbatim(d, a, k) && lo <= k && k + |d[k]| <= hi)
    && (forall x :: lo <= x < hi && a[x] != 0 ==> Covers(d, x))
  }

  /** The chunks account for consecutive ranges that make up the whole array. */
  ghost predicate Partitioned(a: seq<int>, chunks: seq<SparseArray>, cuts: seq<nat>) {
    && |cuts| == |chunks| + 1 && cuts[0] == 0 && cuts[|chunks|] == |a|
    && forall i :: 0 <= i < |chunks| ==> ChunkOk(a, chunks[i].dense, cuts[i], cuts[i + 1])
  }

  /** What is left of `a` from `f` on is on the line. */
  ghost predicate Rest(a: seq<int>, bs: seq<Block>, f: nat) {
    InLine(bs, a, f) && forall x :: f <= x < |a| && a[x] != 0 ==> OnLine(bs, x)
  }

  /** Moving the first `cut` elements of the next block into the chunk: the chunk accounts for the range
      up to where it was cut. */
  lemma ChunkGrows(a: seq<int>, d: Dense, lo: nat, f: nat, b: Block, cut: nat)
    requires ChunkOk(a, d, lo, f) && f <= b.start && BlockOk(a, b) && cut <= |b.data|
    requires forall x :: f <= x < b.start ==> a[x] == 0
    ensures ChunkOk(a, d[b.start := b.data[..cut]], lo, b.start + cut)
    ensures Weight(d[b.start := b.data[..cut]]) == Weight(d) + cut
  {
    assert forall k :: k in d ==> k <= b.start;
    assert b.start in d ==> d[b.start] == [];
    WeightPut(d, b.start, b.data[..cut]);
    PutVerbatim(a, d, lo, f, b.start, b.data[..cut]);
    PutCovers(a, d, lo, f, b.start, b.data[..cut]);
  }

  lemma PutVerbatim(a: seq<int>, d: Dense, lo: nat, f: nat, s: nat, v: seq<int>)
    requires forall k: nat :: k in d ==> Verbatim(d, a, k) && lo <= k && k + |d[k]| <= f
    requires lo <= f <= s && s + |v| <= |a| && v == a[s..s + |v|]
    ensures var d' := d[s := v]; forall k: nat :: k in d' ==> Verbatim(d', a, k) && lo <= k && k + |d'[k]| <= s + |v|
  {
    var d' := d[s := v];
    forall k: nat | k in d' ensures Verbatim(d', a, k) && lo <= k && k + |d'[k]| <= s + |v| {
      assert k != s ==> Verbatim(d, a, k);
    }
  }

  lemma PutCovers(a: seq<int>, d: Dense, lo: nat, f: nat, s: nat, v: seq<int>)
    requires lo <= f <= s && s + |v| <= |a| && (s in d ==> d[s] == [])
    requires forall x :: lo <= x < f && a[x] != 0 ==> Covers(d, x)
    requires forall x :: f <= x < s + |v| && a[x] != 0 ==> s <= x
    ensures forall x :: lo <= x < s + |v| && a[x] != 0 ==> Covers(d[s := v], x)
  {
    forall x | lo <= x < s + |v| && a[x] != 0 ensures Covers(d[s := v], x) {
      if x < f {
        assert Covers(d, x);
        var k :| k in d && InBlock(d, k, x);
        assert InBlock(d[s := v], k, x);
      } else {
        assert InBlock(d[s := v], s, x);
      }
    }
  }

  /** What is left after taking the next block. */
  lemma LineTaken(a: seq<int>, f: nat, bs: seq<Block>)
    requires Rest(a, bs, f) && bs != []
    ensures Rest(a, bs[1..], bs[0].start + |bs[0].data|)
  {
    forall x | bs[0].start + |bs[0].data| <= x < |a| && a[x] != 0 ensures OnLine(bs[1..], x) {
      assert OnLine(bs, x);
    }
  }

  /** What is left after taking the first `cut` elements of the next block. */
  lemma LineCut(a: seq<int>, f: nat, bs: seq<Block>, cut: nat)
    requires Rest(a, bs, f) && bs != [] && cut <= |bs[0].data|
    ensures Rest(a, [Block(bs[0].start + cut, bs[0].data[cut..])] + bs[1..], bs[0].start + cut)
  {
    var b := bs[0];
    var post := Block(b.start + cut, b.data[cut..]);
    var line := [post] + bs[1..];
    assert line[1..] == bs[1..] && line[0] == post;
    assert post.data == a[b.start..b.start + |b.data|][cut..] == a[b.start + cut..b.start + |b.data|];
    forall x | b.start + cut <= x < |a| && a[x] != 0 ensures OnLine(line, x) {
      assert OnLine(bs, x);
    }
  }

  /** Up to the next block the array is zero. */
  lemma ZeroBefore(a: seq<int>, bs: seq<Block>, f: nat)
    requires Rest(a, bs, f) && bs != []
    ensures f <= bs[0].start && BlockOk(a, bs[0])
    ensures forall x :: f <= x < bs[0].start ==> a[x] == 0
  {
    forall x | f <= x < bs[0].start ensures a[x] == 0 {
      NotBefore(a, bs[1..], bs[0].start + |bs[0].data|, x);
    }
  }

  lemma {:induction false} NotBefore(a: seq<int>, bs: seq<Block>, f: nat, x: nat)
    requires InLine(bs, a, f) && x < f
    ensures !OnLine(bs, x)
    decreases bs
  {
    if bs != [] {
      NotBefore(a, bs[1..], bs[0].start + |bs[0].data|, x);
    }
  }

  // ---- deflateMT ----

  method Least(s: set<nat>) returns (k: nat)
    requires s != {}
    ensures k in s && forall j :: j in s ==> k <= j
  {
    var t := s;
    k :| k in t;
    t := t - {k};
    while t != {}
      invariant k in s && t <= s && forall j :: j in s && j !in t ==> k <= j
    {
      var j :| j in t;
      if j < k { k := j; }
      t := t - {j};
    }
  }

  /** The entries of an object in enumeration order. */
  method Entries(d: Dense) returns (bs: seq<Block>)
    ensures IsAsc(d, bs)
  {
    bs := [];
    var keys := d.Keys;
    while keys != {}
      invariant keys <= d.Keys
      invariant IsAsc(d - keys, bs)
      invariant forall j, k :: j in d - keys && k in keys ==> j < k
    {
      var k := Least(keys);
      AscSnoc(d - keys, k, d[k], bs);
      bs := bs + [Block(k, d[k])];
      assert (d - keys)[k := d[k]] == d - (keys - {k});
      keys := keys - {k};
    }
    assert d - {} == d;
  }

  /** One-entry objects for the other entries of an item, in order. */
  method Singles(bs: seq<Block>) returns (items: seq<seq<Block>>)
    ensures Concat(items) == bs
  {
    items := [];
    for i := 0 to |bs|
      invariant Concat(items) == bs[..i]
    {
      ConcatAppend(items, [[bs[i]]]);
      assert Concat([[bs[i]]]) == [bs[i]] + Concat([[bs[i]]][1..]);
      items := items + [[bs[i]]];
    }
    assert bs[..|bs|] == bs;
  }

  /** Pops the items off the end of `enqueue` onto the front of the queue. */
  method Requeue(enqueue: seq<seq<Block>>, q: seq<seq<Block>>) returns (res: seq<seq<Block>>)
    ensures res == enqueue + q
  {
    res := q;
    var left := enqueue;
    while left != []
      invariant left + res == enqueue + q
    {
      var item := left[|left| - 1];
      left := left[..|left| - 1];
      res := [item] + res;
    }
  }

  /** The state of the loop: finished chunks, each of weight `m`; the chunk being filled; what is queued. */
  ghost predicate Packing(a: seq<int>, done: seq<SparseArray>, cuts: seq<nat>, d: Dense, f: nat, bs: seq<Block>,
      m: nat) {
    && |cuts| == |done| + 1 && cuts[0] == 0
    && (forall i :: 0 <= i < |done| ==> Finished(a, done, cuts, i, m))
    && ChunkOk(a, d, cuts[|done|], f)
    && Rest(a, bs, f)
  }

  lemma ConcatEmpty(q: seq<seq<Block>>)
    requires q != [] && q[0] == []
    ensures Concat(q[1..]) == Concat(q)
  {
  }

  lemma ConcatOne(bs: seq<Block>)
    ensures Concat([bs]) == bs
  {
    assert [bs][1..] == [];
  }

  ghost predicate Finished(a: seq<int>, done: seq<SparseArray>, cuts: seq<nat>, i: nat, m: nat) {
    && i < |done| && i + 1 < |cuts|
    && ChunkOk(a, done[i].dense, cuts[i], cuts[i + 1]) && Weight(done[i].dense) == m
  }

  lemma FinishOne(a: seq<int>, done: seq<SparseArray>, cuts: seq<nat>, chunk: SparseArray, hi: nat, m: nat)
    requires |cuts| == |done| + 1 && forall i :: 0 <= i < |done| ==> Finished(a, done, cuts, i, m)
    requires ChunkOk(a, chunk.dense, cuts[|done|], hi) && Weight(chunk.dense) == m
    ensures forall i :: 0 <= i < |done + [chunk]| ==> Finished(a, done + [chunk], cuts + [hi], i, m)
  {
    forall i | 0 <= i < |done + [chunk]| ensures Finished(a, done + [chunk], cuts + [hi], i, m) {
      assert i < |done| ==> Finished(a, done, cuts, i, m);
    }
  }

  lemma PackWhole(a: seq<int>, done: seq<SparseArray>, cuts: seq<nat>, d: Dense, f: nat, bs: seq<Block>, m: nat)
    requires Packing(a, done, cuts, d, f, bs, m) && bs != []
    ensures var b := bs[0];
      && Packing(a, done, cuts, d[b.start := b.data], b.start + |b.data|, bs[1..], m)
      && Weight(d[b.start := b.data]) == Weight(d) + |b.data|
  {
    var b := bs[0];
    ZeroBefore(a, bs, f);
    assert b.data[..|b.data|] == b.data;
    ChunkGrows(a, d, cuts[|done|], f, b, |b.data|);
    LineTaken(a, f, bs);
  }

  lemma PackCut(a: seq<int>, done: seq<SparseArray>, cuts: seq<nat>, chunk: SparseArray, f: nat, bs: seq<Block>,
      m: nat, cut: nat)
    requires Packing(a, done, cuts, chunk.dense, f, bs, m) && bs != [] && cut <= |bs[0].data| &&
      Weight(chunk.dense) + cut == m
    ensures var b := bs[0];
      Packing(a, done + [chunk.(dense := chunk.dense[b.start := b.data[..cut]])], cuts + [b.start + cut], map[],
        b.start + cut,
              [Block(b.start + cut, b.data[cut..])] + bs[1..], m)
  {
    var b := bs[0];
    ZeroBefore(a, bs, f);
    ChunkGrows(a, chunk.dense, cuts[|done|], f, b, cut);
    LineCut(a, f, bs, cut);
    FinishOne(a, done, cuts, chunk.(dense := chunk.dense[b.start := b.data[..cut]]), b.start + cut, m);
    assert ChunkOk(a, map[], b.start + cut, b.start + cut);
  }

  lemma CutSum(bs: seq<Block>, cut: nat)
    requires bs != [] && cut <= |bs[0].data|
    ensures Sum(bs) == cut + Sum([Block(bs[0].start + cut, bs[0].data[cut..])] + bs[1..])
    ensures Sum(bs) == |bs[0].data| + Sum(bs[1..])
  {
    var line := [Block(bs[0].start + cut, bs[0].data[cut..])] + bs[1..];
    assert line[1..] == bs[1..];
  }

  lemma LastChunk(a: seq<int>, done: seq<SparseArray>, cuts: seq<nat>, chunk: SparseArray, f: nat, m: nat)
    requires Packing(a, done, cuts, chunk.dense, f, [], m)
    ensures Partitioned(a, done + [chunk], cuts + [|a|])
  {
    var done', cuts' := done + [chunk], cuts + [|a|];
    forall i | 0 <= i < |done'| ensures ChunkOk(a, done'[i].dense, cuts'[i], cuts'[i + 1]) {
      if i == |done| {
        assert forall x :: f <= x < |a| && a[x] != 0 ==> OnLine([], x);
      } else {
        assert Finished(a, done, cuts, i, m);
      }
    }
  }

  /** Takes the first block of an item into the chunk; a block that fills the chunk is cut, and a new
      chunk is begun. `enqueue` is what goes back to the front of the queue. */
  method PackItem(item: seq<Block>, chunk: SparseArray, counter: nat, m: nat)
    returns (full: seq<SparseArray>, next: SparseArray, count: nat, enqueue: seq<seq<Block>>)
    requires item != [] && counter < m
    ensures var b := item[0];
      if counter + |b.data| < m then
        && full == [] && next == chunk.(dense := chunk.dense[b.start := b.data]) && count == counter + |b.data|
        && Concat(enqueue) == item[1..]
      else
        var cut := m - counter;
        && full == [chunk.(dense := chunk.dense[b.start := b.data[..cut]])] && next == SparseArray(map[], map[], 0) &&
           count == 0
        && Concat(enqueue) == [Block(b.start + cut, b.data[cut..])] + item[1..]
  {
    var startIdx, denseArray := item[0].start, item[0].data;
    if counter + |denseArray| < m {
      full, next, count := [], chunk.(dense := chunk.dense[startIdx := denseArray]), counter + |denseArray|;
      enqueue := Singles(item[1..]);
    } else {
      var cutoff := m - counter;
      var pre, post := denseArray[..cutoff], denseArray[cutoff..];
      full, next, count := [chunk.(dense := chunk.dense[startIdx := pre])], SparseArray(map[], map[], 0), 0;
      var others := Singles(item[1..]);
      var postQItem := [Block(startIdx + cutoff, post)];
      enqueue := [postQItem] + others;
      assert Concat(enqueue) == enqueue[0] + Concat(enqueue[1..]) && enqueue[1..] == others;
    }
  }

  lemma ConcatFirst(q: seq<seq<Block>>)
    requires q != []
    ensures Concat(q) == q[0] + Concat(q[1..])
    ensures q[0] != [] ==> Concat(q)[0] == q[0][0] && Concat(q)[1..] == q[0][1..] + Concat(q[1..])
  {
  }

  /** One turn of the loop on a non-empty item at the front of the queue, as it changes the line of
      blocks that the queue stands for. */
  method PackFirst(chunk: SparseArray, counter: nat, q: seq<seq<Block>>, m: nat)
    returns (full: seq<SparseArray>, next: SparseArray, count: nat, q': seq<seq<Block>>)
    requires q != [] && q[0] != [] && counter < m
    ensures Concat(q) != []
    ensures var bs, b := Concat(q), Concat(q)[0];
      if counter + |b.data| < m then
        && full == [] && next == chunk.(dense := chunk.dense[b.start := b.data]) && count == counter + |b.data|
        && Concat(q') == bs[1..]
      else
        var cut := m - counter;
        && full == [chunk.(dense := chunk.dense[b.start := b.data[..cut]])] && next == SparseArray(map[], map[], 0) &&
           count == 0
        && Concat(q') == CutFirst(bs, cut)
  {
    ConcatFirst(q);
    var enqueue;
    full, next, count, enqueue := PackItem(q[0], chunk, counter, m);
    q' := Requeue(enqueue, q[1..]);
    ConcatAppend(enqueue, q[1..]);
  }

  ghost function CutFirst(bs: seq<Block>, cut: nat): seq<Block>
    requires bs != [] && cut <= |bs[0].data|
  {
    [Block(bs[0].start + cut, bs[0].data[cut..])] + bs[1..]
  }

  /** The loop invariant: what is packed and what is queued make up all `total` elements. */
  ghost predicate Loop(a: seq<int>, done: seq<SparseArray>, cuts: seq<nat>, chunk: SparseArray, counter: nat, f: nat,
                       bs: seq<Block>, m: nat, total: nat) {
    && Packing(a, done, cuts, chunk.dense, f, bs, m)
    && counter == Weight(chunk.dense) && counter < m
    && |done| * m + counter + Sum(bs) == total
  }

  /** Fewer elements are queued, or as many in fewer blocks. */
  ghost predicate Shrinks(bs': seq<Block>, bs: seq<Block>) {
    Sum(bs') < Sum(bs) || (Sum(bs') == Sum(bs) && |bs'| < |bs|)
  }

  lemma WholeTurn(a: seq<int>, done: seq<SparseArray>, cuts: seq<nat>, chunk: SparseArray, counter: nat, f: nat,
                  bs: seq<Block>, m: nat, total: nat)
    requires Loop(a, done, cuts, chunk, counter, f, bs, m, total)
    requires bs != [] && counter + |bs[0].data| < m
    ensures var b := bs[0];
      Loop(a, done, cuts, chunk.(dense := chunk.dense[b.start := b.data]), counter + |b.data|, b.start + |b.data|,
           bs[1..], m, total)
    ensures Shrinks(bs[1..], bs)
  {
    PackWhole(a, done, cuts, chunk.dense, f, bs, m);
  }

  lemma CutTurn(a: seq<int>, done: seq<SparseArray>, cuts: seq<nat>, chunk: SparseArray, counter: nat, f: nat,
                bs: seq<Block>, m: nat, total: nat)
    requires Loop(a, done, cuts, chunk, counter, f, bs, m, total)
    requires bs != [] && counter + |bs[0].data| >= m
    ensures counter < m
    ensures var b, cut := bs[0], m - counter;
      Loop(a, done + [chunk.(dense := chunk.dense[b.start := b.data[..cut]])], cuts + [b.start + cut],
           SparseArray(map[], map[], 0), 0, b.start + cut, CutFirst(bs, cut), m, total)
    ensures Shrinks(CutFirst(bs, m - counter), bs)
  {
    PackCut(a, done, cuts, chunk, f, bs, m, m - counter);
    CutSum(bs, m - counter);
    WeightIs(map[], []);
    OneMore(|done|, m);
  }

  lemma OneMore(k: nat, m: nat)
    ensures (k + 1) * m == k * m + m
  {
  }

  /** One turn of the loop on a non-empty item. */
  method PackStep(ghost a: seq<int>, done: seq<SparseArray>, ghost cuts: seq<nat>, chunk: SparseArray, counter: nat,
                  q: seq<seq<Block>>, m: nat, ghost f: nat, ghost total: nat)
    returns (done': seq<SparseArray>, ghost cuts': seq<nat>, chunk': SparseArray, counter': nat, q': seq<seq<Block>>,
      ghost f': nat)
    requires q != [] && q[0] != [] && counter < m
    requires Loop(a, done, cuts, chunk, counter, f, Concat(q), m, total)
    ensures counter' < m
    ensures Loop(a, done', cuts', chunk', counter', f', Concat(q'), m, total)
    ensures Shrinks(Concat(q'), Concat(q))
  {
    ghost var bs := Concat(q);
    var full;
    full, chunk', counter', q' := PackFirst(chunk, counter, q, m);
    done' := done + full;
    if counter + |bs[0].data| < m {
      assert done' == done;
      WholeTurn(a, done, cuts, chunk, counter, f, bs, m, total);
      cuts', f' := cuts, bs[0].start + |bs[0].data|;
    } else {
      CutTurn(a, done, cuts, chunk, counter, f, bs, m, total);
      f' := bs[0].start + (m - counter);
      cuts' := cuts + [f'];
    }
  }

  method DeflateMT(arr: seq<int>, minBlockSize: nat, minFileSize: nat)
    returns (res: seq<SparseArray>, ghost cuts: seq<nat>, ghost deflated: SparseArray)
    ensures Describes(deflated, arr)
    ensures DeflatedMT(arr, deflated, res, cuts, if minFileSize == 0 then 1000 else minFileSize)
  {
    var sp := Deflate(arr, minBlockSize);
    deflated := sp;
    var m: nat := if minFileSize == 0 then 1000 else minFileSize;
    ghost var total := Weight(sp.dense);
    var entries := Entries(sp.dense);
    var q := [entries];
    var chunk := sp.(dense := map[]);
    var counter: nat := 0;
    res, cuts := [], [0];
    ghost var f: nat := 0;
    StartPacking(arr, sp, entries, m);
    ConcatOne(entries);
    while |q| > 0
      invariant Loop(arr, res, cuts, chunk, counter, f, Concat(q), m, total)
      invariant counter < m
      decreases Sum(Concat(q)), |Concat(q)|, |q|
    {
      if q[0] == [] {
        ConcatEmpty(q);
        q := q[1..];
        continue;
      }
      res, cuts, chunk, counter, q, f := PackStep(arr, res, cuts, chunk, counter, q, m, f, total);
    }
    LastTurn(arr, res, cuts, chunk, counter, f, m, sp);
    res, cuts := res + [chunk], cuts + [|arr|];
  }

  /** Every chunk but the last holds exactly `m` elements; there are floor(total / m) + 1 of them; they
      account for consecutive ranges that make up the array. */
  ghost predicate DeflatedMT(a: seq<int>, sp: SparseArray, res: seq<SparseArray>, cuts: seq<nat>, m: nat)
    requires m > 0
  {
    && Partitioned(a, res, cuts)
    && |res| == Weight(sp.dense) / m + 1
    && Weight(res[|res| - 1].dense) == Weight(sp.dense) % m
    && forall i :: 0 <= i < |res| - 1 ==> Weight(res[i].dense) == m
  }

  lemma LastTurn(a: seq<int>, done: seq<SparseArray>, cuts: seq<nat>, chunk: SparseArray, counter: nat, f: nat, m: nat,
      sp: SparseArray)
    requires Loop(a, done, cuts, chunk, counter, f, [], m, Weight(sp.dense)) && m > 0
    ensures DeflatedMT(a, sp, done + [chunk], cuts + [|a|], m)
  {
    LastChunk(a, done, cuts, chunk, f, m);
    Quotient(Weight(sp.dense), |done|, counter, m);
    forall i | 0 <= i < |done| ensures Weight((done + [chunk])[i].dense) == m {
      assert Finished(a, done, cuts, i, m);
    }
  }

  lemma Quotient(t: nat, k: nat, r: nat, m: nat)
    requires r < m && t == k * m + r
    ensures t / m == k && t % m == r
  {
    var q := t / m;
    assert t == q * m + t % m;
    if q < k {
      MulMonotone(q + 1, k, m);
    } else if k < q {
      MulMonotone(k + 1, q, m);
    }
  }

  lemma StartPacking(a: seq<int>, sp: SparseArray, bs: seq<Block>, m: nat)
    requires Describes(sp, a) && IsAsc(sp.dense, bs) && m > 0
    ensures Loop(a, [], [0], sp.(dense := map[]), 0, 0, bs, m, Weight(sp.dense))
  {
    StartRest(a, sp, bs);
    WeightIs(sp.dense, bs);
    WeightIs(map[], []);
    assert ChunkOk(a, map[], 0, 0);
  }

  lemma StartRest(a: seq<int>, sp: SparseArray, bs: seq<Block>)
    requires Describes(sp, a) && IsAsc(sp.dense, bs)
    ensures Rest(a, bs, 0)
  {
    forall k | k in sp.dense ensures Entry(sp.dense, a, 0, k) {
      assert Verbatim(sp.dense, a, k);
    }
    AscInLine(sp.dense, bs, a, 0);
    forall x | 0 <= x < |a| && a[x] != 0 ensures OnLine(bs, x) {
      AscCovers(sp.dense, bs, x);
    }
  }

  // ---- the span recorded with a chunk, and the span a worker finds ----

  ghost predicate IsSpan(d: Dense, start: nat, end: nat) {
    && (forall k: nat :: k in d ==> start <= k && k + |d[k]| <= end)
    && start in d
    && (exists k: nat :: EndsAt(d, k, end))
  }

  ghost predicate EndsAt(d: Dense, k: nat, end: nat) {
    k in d && k + |d[k]| == end
  }

  lemma SpanMore(d: Dense, k: nat, v: seq<int>, start: nat, end: nat)
    requires IsSpan(d, start, end) && k !in d
    ensures IsSpan(d[k := v], if k < start then k else start, if end < k + |v| then k + |v| else end)
  {
    var e: nat :| EndsAt(d, e, end);
    assert EndsAt(d[k := v], e, end) && EndsAt(d[k := v], k, k + |v|);
  }

  lemma SpanOfOne(d: Dense, b: Block)
    requires IsAsc(d, [b])
    ensures forall end: nat :: IsSpan(d, b.start, end) <==> end == b.start + |b.data|
  {
    assert [b][0] in [b] && b.start in d && d[b.start] == b.data;
    forall k: nat | k in d ensures k == b.start {
      assert Listed([b], k, d[k]);
    }
    assert EndsAt(d, b.start, b.start + |b.data|);
  }

  /** The span as recorded: the first block sets `max` to its start, not to its end. */
  method RecordedSpan(bs: seq<Block>, ghost d: Dense) returns (min: Option<nat>, max: Option<nat>)
    requires IsAsc(d, bs) && Disjoint(d)
    ensures d == map[] ==> min == None && max == None
    ensures d != map[] ==> min.Some? && max.Some? && min.value in d
    ensures d != map[] ==> (IsSpan(d, min.value, max.value) <==> |bs| != 1 || bs[0].data == [])
    ensures |bs| == 1 ==> min == max == Some(bs[0].start)
  {
    min, max := None, None;
    AscNonempty(d, bs);
    for i := 0 to |bs|
      invariant i == 0 ==> min == None && max == None
      invariant i > 0 ==> min == Some(bs[0].start) && max.Some?
      invariant i == 1 ==> max == Some(bs[0].start)
      invariant i > 1 ==> max == Some(bs[i - 1].start + |bs[i - 1].data|)
    {
      var j := bs[i].start;
      if i > 0 { EndsInOrder(d, bs, i - 1, i); }
      min := Some(if min == None || j < min.value then j else min.value);
      max := Some(if max == None then j else if max.value < j + |bs[i].data| then j + |bs[i].data| else max.value);
    }
    if bs != [] {
      SpanRecorded(d, bs, max.value);
    }
  }

  lemma SpanRecorded(d: Dense, bs: seq<Block>, max: nat)
    requires IsAsc(d, bs) && Disjoint(d) && bs != []
    requires max == if |bs| == 1 then bs[0].start else bs[|bs| - 1].start + |bs[|bs| - 1].data|
    ensures bs[0].start in d
    ensures IsSpan(d, bs[0].start, max) <==> |bs| != 1 || bs[0].data == []
  {
    if |bs| > 1 {
      SpanOfLine(d, bs);
    } else {
      assert bs == [bs[0]];
      SpanOfOne(d, bs[0]);
    }
  }

  lemma EndsInOrder(d: Dense, bs: seq<Block>, i: nat, j: nat)
    requires IsAsc(d, bs) && Disjoint(d) && i < j < |bs|
    ensures bs[i].start + |bs[i].data| <= bs[j].start
  {
    assert bs[i].start in d && bs[j].start in d;
  }

  lemma SpanOfLine(d: Dense, bs: seq<Block>)
    requires IsAsc(d, bs) && Disjoint(d) && bs != []
    ensures IsSpan(d, bs[0].start, bs[|bs| - 1].start + |bs[|bs| - 1].data|)
  {
    var last := bs[|bs| - 1];
    forall k: nat | k in d ensures bs[0].start <= k && k + |d[k]| <= last.start + |last.data| {
      assert Listed(bs, k, d[k]);
      var i :| 0 <= i < |bs| && bs[i] == Block(k, d[k]);
      if i < |bs| - 1 { EndsInOrder(d, bs, i, |bs| - 1); }
    }
    assert bs[0].start in d && last.start in d;
    assert EndsAt(d, last.start, last.start + |last.data|);
  }

  /** `dense` is what `a` holds from `start` to `end`, and outside it `a` is zero in [lo, hi). */
  ghost predicate Carries(a: seq<int>, lo: nat, hi: nat, start: nat, end: nat, dense: seq<int>) {
    && lo <= hi <= |a| && start <= end <= |a| && dense == a[start..end]
    && forall x :: lo <= x < hi && a[x] != 0 ==> start <= x < end
  }

  /** A worker's loop over the blocks of its chunk. */
  method FindSpan(d: Dense) returns (min: nat, max: nat)
    ensures if d == map[] then min == max == 0 else IsSpan(d, min, max)
  {
    var least: Option<nat> := None;
    max := 0;
    var lbls := d.Keys;
    while lbls != {}
      invariant lbls <= d.Keys
      invariant least == None <==> lbls == d.Keys
      invariant least == None ==> max == 0
      invariant least.Some? ==> IsSpan(d - lbls, least.value, max)
    {
      var start: nat :| start in lbls;
      var end := start + |d[start]|;
      if least.Some? {
        SpanMore(d - lbls, start, d[start], least.value, max);
      }
      ghost var before := d - lbls;
      least := Some(if least == None || start < least.value then start else least.value);
      max := if max < end then end else max;
      lbls := lbls - {start};
      ghost var after := d - lbls;
      assert after == before[start := d[start]];
      assert EndsAt(map[start := d[start]], start, end);
    }
    assert d - {} == d;
    min := if least == None then 0 else least.value;
  }

  /** What a worker makes of a chunk: a zeroed typed array for the span of its blocks, and the blocks
      written into it. */
  method Expand(chunk: SparseArray, ghost a: seq<int>, ghost lo: nat, ghost hi: nat)
    returns (start: nat, end: nat, dense: array<int>)
    requires ChunkOk(a, chunk.dense, lo, hi)
    ensures fresh(dense) && Carries(a, lo, hi, start, end, dense[..])
    ensures start < end ==> lo <= start && end <= hi
  {
    start, end := FindSpan(chunk.dense);
    assert AllVerbatim(chunk.dense, a);
    dense := AllocArray(end - start, false);
    InflateChunk(chunk, dense, start, false, a);
    forall x | start <= x < end ensures dense[x - start] == a[x] {
      assert x - start + start == x;
    }
    forall x | lo <= x < hi && a[x] != 0 ensures start <= x < end {
      var k: nat :| k in chunk.dense && InBlock(chunk.dense, k, x);
    }
    assert dense[..] == a[start..end];
  }
}
