/** Intervals laid end to end. */
module Intervals {

  ghost function Sum(s: seq<real>, lo: nat, hi: nat): real
    requires lo <= hi <= |s|
  {
    if lo == hi then 0.0 else Sum(s, lo, hi - 1) + s[hi - 1]
  }

  lemma {:induction false} SumMonotone(s: seq<real>, lo: nat, mid: nat, hi: nat)
    requires lo <= mid <= hi <= |s| && forall x :: lo <= x < hi ==> s[x] >= 0.0
    ensures 0.0 <= Sum(s, lo, mid) <= Sum(s, lo, hi)
    decreases hi
  {
    if lo < hi {
      SumMonotone(s, lo, if mid == hi then mid - 1 else mid, hi - 1);
    }
  }

  /** `q` lies in the c-th of the intervals with the given lengths, of which the lo-th begins at `start`. */
  ghost predicate InInterval(s: seq<real>, start: real, lo: nat, c: nat, q: real) {
    lo <= c < |s| && start + Sum(s, lo, c) <= q < start + Sum(s, lo, c) + s[c]
  }

  lemma {:induction false} Holding(s: seq<real>, start: real, lo: nat, hi: nat, q: real) returns (c: nat)
    requires lo <= hi <= |s| && start <= q < start + Sum(s, lo, hi)
    ensures lo <= c < hi && InInterval(s, start, lo, c, q)
    decreases hi
  {
    if q < start + Sum(s, lo, hi - 1) {
      c := Holding(s, start, lo, hi - 1, q);
    } else {
      c := hi - 1;
    }
  }

  lemma HoldsWithin(s: seq<real>, start: real, lo: nat, hi: nat, c: nat, d: nat, q: real)
    requires lo <= c < hi <= |s| && lo <= d < hi && forall x :: lo <= x < hi ==> s[x] >= 0.0
    requires InInterval(s, start, lo, c, q)
    ensures start <= q < start + Sum(s, lo, hi)
    ensures InInterval(s, start, lo, d, q) ==> c == d
  {
    SumMonotone(s, lo, c, hi);
    SumMonotone(s, lo, c + 1, hi);
    if c < d {
      SumMonotone(s, lo, c + 1, d);
    } else if d < c {
      SumMonotone(s, lo, d + 1, c);
    }
  }
}
