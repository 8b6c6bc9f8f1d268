/** Sums of block weights over a set of blocks. */
module Sums {

  function SumOver(w: seq<nat>, s: set<nat>, n: nat): nat
    requires n <= |w|
  {
    if n == 0 then 0 else SumOver(w, s, n - 1) + (if n - 1 in s then w[n - 1] else 0)
  }

  lemma {:induction false} SumAdd(w: seq<nat>, s: set<nat>, b: nat, n: nat)
    requires n <= |w| && b !in s && b < |w|
    ensures SumOver(w, s + {b}, n) == SumOver(w, s, n) + if b < n then w[b] else 0
  {
    if n > 0 {
      SumAdd(w, s, b, n - 1);
    }
  }

  /** Smaller weights over fewer blocks sum to less. */
  lemma {:induction false} SumLess(w: seq<nat>, v: seq<nat>, s: set<nat>, t: set<nat>, n: nat)
    requires n <= |w| == |v| && s <= t && forall i :: 0 <= i < n ==> w[i] <= v[i]
    ensures SumOver(w, s, n) <= SumOver(v, t, n)
  {
    if n > 0 {
      SumLess(w, v, s, t, n - 1);
    }
  }

  lemma {:induction false} SumNone(w: seq<nat>, n: nat)
    requires n <= |w|
    ensures SumOver(w, {}, n) == 0
  {
    if n > 0 {
      SumNone(w, n - 1);
    }
  }

  lemma {:induction false} SumSame(w: seq<nat>, s: set<nat>, t: set<nat>, n: nat)
    requires n <= |w| && forall i :: 0 <= i < n ==> (i in s <==> i in t)
    ensures SumOver(w, s, n) == SumOver(w, t, n)
  {
    if n > 0 {
      SumSame(w, s, t, n - 1);
    }
  }
}
