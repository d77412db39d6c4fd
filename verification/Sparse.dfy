/** Sparse arrays: runs of zeros by length, other stretches verbatim. A JavaScript object keyed by start
    index is a map here; enumerating its keys goes in ascending order. */
module Sparse {

  type Dense = map<nat, seq<int>>

  datatype SparseArray = SparseArray(zeros: map<nat, nat>, dense: Dense, len: nat)

  /** Index `x` lies in the block that starts at `k`. */
  predicate InBlock(d: Dense, k: nat, x: int) {
    k in d && k <= x < k + |d[k]|
  }

  ghost predicate Covers(d: Dense, x: int) {
    exists k :: k in d && InBlock(d, k, x)
  }

  ghost predicate InZeros(z: map<nat, nat>, x: int) {
    exists k :: k in z && k <= x < k + z[k]
  }

  /** The block at `k` holds what `a` holds there. */
  ghost predicate Verbatim(d: Dense, a: seq<int>, k: nat) {
    k in d && k + |d[k]| <= |a| && d[k] == a[k..k + |d[k]|]
  }

  ghost predicate AllVerbatim(d: Dense, a: seq<int>) {
    forall k :: k in d ==> Verbatim(d, a, k)
  }

  ghost predicate Disjoint(d: Dense) {
    forall j, k :: j in d && k in d && j < k ==> j + |d[j]| <= k
  }

  ghost predicate ZerosOk(z: map<nat, nat>, a: seq<int>) {
    forall k :: k in z ==> k + z[k] <= |a| && forall x :: k <= x < k + z[k] ==> a[x] == 0
  }

  /** `s` describes the array `a`. */
  ghost predicate Describes(s: SparseArray, a: seq<int>) {
    && s.len == |a|
    && AllVerbatim(s.dense, a) && Disjoint(s.dense) && ZerosOk(s.zeros, a)
    && forall x :: 0 <= x < |a| ==> Covers(s.dense, x) || InZeros(s.zeros, x)
  }

  // ---- deflate ----

  method ZeroRun(arr: seq<int>, i: nat) returns (zeroCount: nat)
    requires i <= |arr|
    ensures i + zeroCount <= |arr| && forall x :: i <= x < i + zeroCount ==> arr[x] == 0
    ensures i + zeroCount < |arr| ==> arr[i + zeroCount] != 0
  {
    zeroCount := 0;
    var j := i;
    while j < |arr| && arr[j] == 0
      invariant j == i + zeroCount <= |arr|
      invariant forall x :: i <= x < j ==> arr[x] == 0
    {
      zeroCount := zeroCount + 1;
      j := j + 1;
    }
  }

  method DenseRun(arr: seq<int>, i: nat, minBlockSize: nat) returns (sub: seq<int>)
    requires i < |arr| && minBlockSize > 0
    ensures 0 < |sub| <= minBlockSize && i + |sub| <= |arr| && sub == arr[i..i + |sub|]
    ensures i + |sub| < |arr| ==> |sub| == minBlockSize
  {
    var denseCount := 0;
    var j := i;
    while j < |arr| && j < i + minBlockSize
      invariant j == i + denseCount && j <= |arr| && j <= i + minBlockSize
    {
      if arr[j] == 0 && j - i >= minBlockSize { break; }
      denseCount := denseCount + 1;
      j := j + 1;
    }
    sub := [];
    for k := 0 to denseCount
      invariant sub == arr[i..i + k]
    {
      sub := sub + [arr[i + k]];
    }
  }

  /** The array up to `i` is described, in blocks none of which but the last is shorter than `m`. */
  ghost predicate DescribedTo(s: SparseArray, a: seq<int>, i: nat, m: nat) {
    && i <= |a|
    && AllVerbatim(s.dense, a) && Disjoint(s.dense) && ZerosOk(s.zeros, a)
    && (forall k :: k in s.dense ==> k + |s.dense[k]| <= i && 0 < |s.dense[k]| <= m)
    && (forall k :: k in s.zeros ==> k + s.zeros[k] <= i && m <= s.zeros[k])
    && (forall x :: 0 <= x < i ==> Covers(s.dense, x) || InZeros(s.zeros, x))
  }

  /** So few blocks reach up to `i` of `n` when only the last may be shorter than `m`. */
  ghost predicate FewBlocks(blocks: nat, m: nat, i: nat, n: nat) {
    (i < n ==> blocks * m <= i) && blocks * m < i + m
  }

  lemma FewBlocksIsCeiling(blocks: nat, m: nat, n: nat)
    requires 0 < m && FewBlocks(blocks, m, n, n)
    ensures blocks <= (n + m - 1) / m
  {
    var c := (n + m - 1) / m;
    assert n + m - 1 == c * m + (n + m - 1) % m;
    if blocks > c {
      MulMonotone(c + 1, blocks, m);
    }
  }

  lemma MulMonotone(a: nat, b: nat, m: nat)
    requires a <= b
    ensures a * m <= b * m
  {
  }

  lemma OneMoreBlock(blocks: nat, m: nat, i: nat, j: nat, n: nat)
    requires 0 < m && FewBlocks(blocks, m, i, n) && i < n && i < j <= n && (j < n ==> i + m <= j)
    ensures FewBlocks(blocks + 1, m, j, n)
  {
    assert (blocks + 1) * m == blocks * m + m;
  }

  lemma AddZeros(s: SparseArray, a: seq<int>, i: nat, m: nat, count: nat)
    requires DescribedTo(s, a, i, m) && 0 < m <= count && i + count <= |a|
    requires forall x :: i <= x < i + count ==> a[x] == 0
    ensures DescribedTo(s.(zeros := s.zeros[i := count]), a, i + count, m) && i !in s.zeros
  {
    var z := s.zeros[i := count];
    assert i !in s.zeros;
    forall x | 0 <= x < i + count ensures Covers(s.dense, x) || InZeros(z, x) {
      if x >= i {
        assert i in z && i <= x < i + z[i];
      } else if InZeros(s.zeros, x) {
        var k :| k in s.zeros && k <= x < k + s.zeros[k];
        assert k in z && k <= x < k + z[k];
      }
    }
  }

  lemma AddDense(s: SparseArray, a: seq<int>, i: nat, m: nat, sub: seq<int>)
    requires DescribedTo(s, a, i, m) && 0 < |sub| <= m && i + |sub| <= |a|
    requires sub == a[i..i + |sub|] && (i + |sub| < |a| ==> |sub| == m)
    ensures DescribedTo(s.(dense := s.dense[i := sub]), a, i + |sub|, m) && i !in s.dense
  {
    var d := s.dense[i := sub];
    assert i !in s.dense;
    forall k | k in d ensures Verbatim(d, a, k) {
      if k != i { assert Verbatim(s.dense, a, k); }
    }
    forall x | 0 <= x < i + |sub| ensures Covers(d, x) || InZeros(s.zeros, x) {
      if x >= i {
        assert InBlock(d, i, x);
      } else if Covers(s.dense, x) {
        var k :| k in s.dense && InBlock(s.dense, k, x);
        assert InBlock(d, k, x);
      }
    }
  }

  /** One turn of the loop: a run of at least `m` zeros, or else up to `m` elements verbatim. */
  method DeflateStep(arr: seq<int>, s: SparseArray, i: nat, m: nat) returns (res: SparseArray, j: nat)
    requires 0 < m && i < |arr| && DescribedTo(s, arr, i, m)
    ensures i < j <= |arr| && (j < |arr| ==> i + m <= j)
    ensures res.len == s.len && DescribedTo(res, arr, j, m)
    ensures |res.dense| + |res.zeros| == |s.dense| + |s.zeros| + 1
  {
    var zeroCount := ZeroRun(arr, i);
    if zeroCount >= m {
      AddZeros(s, arr, i, m, zeroCount);
      res := s.(zeros := s.zeros[i := zeroCount]);
      j := i + zeroCount;
    } else {
      var sub := DenseRun(arr, i, m);
      AddDense(s, arr, i, m, sub);
      res := s.(dense := s.dense[i := sub]);
      j := i + |sub|;
    }
  }

  method Deflate(arr: seq<int>, minBlockSize: nat) returns (res: SparseArray)
    ensures Describes(res, arr)
    ensures var m := if minBlockSize == 0 then 64 else minBlockSize;
      && (forall k :: k in res.dense ==> 0 < |res.dense[k]| <= m)
      && (forall k :: k in res.zeros ==> m <= res.zeros[k])
      && FewBlocks(|res.dense| + |res.zeros|, m, |arr|, |arr|)
  {
    res := SparseArray(map[], map[], |arr|);
    var m: nat := if minBlockSize == 0 then 64 else minBlockSize;
    var i := 0;
    ghost var blocks := 0;
    while i < |arr|
      invariant res.len == |arr| && DescribedTo(res, arr, i, m)
      invariant blocks == |res.dense| + |res.zeros| && FewBlocks(blocks, m, i, |arr|)
      decreases |arr| - i
    {
      var j;
      res, j := DeflateStep(arr, res, i, m);
      OneMoreBlock(blocks, m, i, j, |arr|);
      i := j;
      blocks := blocks + 1;
    }
  }

  // ---- inflate ----

  /** Writes the blocks of `sp` into an array that stands for the indices from `offset` on; zeros are
      written only into a plain Array, a typed array holding them already. */
  method InflateChunk(sp: SparseArray, denseSubArr: array<int>, offset: nat, plain: bool, ghost a: seq<int>)
    requires AllVerbatim(sp.dense, a) && (plain ==> ZerosOk(sp.zeros, a))
    requires forall k :: k in sp.dense ==> offset <= k && k + |sp.dense[k]| <= offset + denseSubArr.Length
    requires plain ==> forall k :: k in sp.zeros ==> offset <= k && k + sp.zeros[k] <= offset + denseSubArr.Length
    requires offset + denseSubArr.Length <= |a|
    modifies denseSubArr
    ensures forall x :: 0 <= x < denseSubArr.Length ==>
      denseSubArr[x] == if Covers(sp.dense, x + offset) || (plain && InZeros(sp.zeros, x + offset)) then a[x + offset]
        else old(denseSubArr[x])
  {
    var lbls := sp.dense.Keys;
    while lbls != {}
      invariant lbls <= sp.dense.Keys
      invariant forall x :: 0 <= x < denseSubArr.Length ==>
        denseSubArr[x] == if Covers(sp.dense - lbls, x + offset) then a[x + offset] else old(denseSubArr[x])
    {
      var start :| start in lbls;
      ghost var before := sp.dense - lbls;
      var buff := sp.dense[start];
      assert Verbatim(sp.dense, a, start);
      WriteBlock(denseSubArr, start - offset, buff);
      lbls := lbls - {start};
      CoversMore(sp.dense, before, sp.dense - lbls, start);
    }
    assert sp.dense - {} == sp.dense;
    if plain {
      var zeros := sp.zeros.Keys;
      while zeros != {}
        invariant zeros <= sp.zeros.Keys
        invariant forall x :: 0 <= x < denseSubArr.Length ==>
          denseSubArr[x] == if Covers(sp.dense, x + offset) || InZeros(sp.zeros - zeros, x + offset) then a[x + offset]
            else old(denseSubArr[x])
      {
        var start :| start in zeros;
        ghost var before := sp.zeros - zeros;
        WriteBlock(denseSubArr, start - offset, seq(sp.zeros[start], _ => 0));
        zeros := zeros - {start};
        InZerosMore(sp.zeros, before, sp.zeros - zeros, start);
      }
      assert sp.zeros - {} == sp.zeros;
    }
  }

  method WriteBlock(dst: array<int>, at: nat, src: seq<int>)
    requires at + |src| <= dst.Length
    modifies dst
    ensures forall x :: 0 <= x < dst.Length ==> dst[x] == if at <= x < at + |src| then src[x - at] else old(dst[x])
  {
    for i := 0 to |src|
      invariant forall x :: 0 <= x < dst.Length ==> dst[x] == if at <= x < at + i then src[x - at] else old(dst[x])
    {
      dst[at + i] := src[i];
    }
  }

  lemma CoversMore(d: Dense, before: Dense, after: Dense, k: nat)
    requires k in d && before.Keys <= d.Keys && after.Keys == before.Keys + {k}
    requires (forall j :: j in before ==> before[j] == d[j]) && (forall j :: j in after ==> after[j] == d[j])
    ensures forall x :: Covers(after, x) <==> Covers(before, x) || InBlock(d, k, x)
  {
    forall x ensures Covers(after, x) <==> Covers(before, x) || InBlock(d, k, x) {
      if Covers(before, x) {
        var j :| j in before && InBlock(before, j, x);
        assert InBlock(after, j, x);
      }
      if Covers(after, x) {
        var j :| j in after && InBlock(after, j, x);
        assert j != k ==> InBlock(before, j, x);
      }
      if InBlock(d, k, x) {
        assert InBlock(after, k, x);
      }
    }
  }

  lemma InZerosMore(z: map<nat, nat>, before: map<nat, nat>, after: map<nat, nat>, k: nat)
    requires k in z && before.Keys <= z.Keys && after.Keys == before.Keys + {k}
    requires (forall j :: j in before ==> before[j] == z[j]) && (forall j :: j in after ==> after[j] == z[j])
    ensures forall x :: InZeros(after, x) <==> InZeros(before, x) || k <= x < k + z[k]
  {
    forall x ensures InZeros(after, x) <==> InZeros(before, x) || k <= x < k + z[k] {
      if InZeros(before, x) {
        var j :| j in before && j <= x < j + before[j];
        assert j in after && j <= x < j + after[j];
      }
    }
  }

  /** A typed array starts out zeroed; a plain Array starts out with holes, whose contents are arbitrary. */
  method AllocArray(len: nat, plain: bool) returns (res: array<int>)
    ensures fresh(res) && res.Length == len
    ensures !plain ==> forall x :: 0 <= x < len ==> res[x] == 0
  {
    if plain {
      res := new int[len];
    } else {
      res := new int[len](_ => 0);
    }
  }

  method Inflate(sp: SparseArray, plain: bool, ghost a: seq<int>) returns (res: array<int>)
    requires Describes(sp, a)
    ensures res[..] == a
  {
    res := AllocArray(sp.len, plain);
    forall k | k in sp.dense ensures k + |sp.dense[k]| <= |a| {
      assert Verbatim(sp.dense, a, k);
    }
    InflateChunk(sp, res, 0, plain, a);
    forall x | 0 <= x < |a| ensures res[x] == a[x] {
      assert Covers(sp.dense, x + 0) || InZeros(sp.zeros, x + 0);
    }
  }

  /** Deflating and inflating gives back every array, as a typed array or as a plain one. */
  method DeflateInflate(arr: seq<int>, minBlockSize: nat, plain: bool) returns (res: array<int>)
    ensures res[..] == arr
  {
    var sp := Deflate(arr, minBlockSize);
    res := Inflate(sp, plain, arr);
  }
}
