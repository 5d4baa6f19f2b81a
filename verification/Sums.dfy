/** Weighted sums over the threads of a machine. */
module Sums {
  function Sum<P>(pcs: seq<P>, weight: P -> nat): nat {
    if pcs == [] then 0 else weight(pcs[0]) + Sum(pcs[1..], weight)
  }

  lemma {:induction false} SumAfter<P>(pcs: seq<P>, weight: P -> nat, t: nat, p: P)
    requires t < |pcs|
    ensures Sum(pcs[t := p], weight) == Sum(pcs, weight) - weight(pcs[t]) + weight(p)
    ensures Sum(pcs, weight) >= weight(pcs[t])
  {
    if t == 0 {
      assert pcs[t := p][1..] == pcs[1..];
    } else {
      assert pcs[t := p][1..] == pcs[1..][t - 1 := p];
      SumAfter(pcs[1..], weight, t - 1, p);
    }
  }

  lemma {:induction false} SumOfZeros<P>(pcs: seq<P>, weight: P -> nat)
    requires forall t | 0 <= t < |pcs| :: weight(pcs[t]) == 0
    ensures Sum(pcs, weight) == 0
  {
    if pcs != [] {
      SumOfZeros(pcs[1..], weight);
    }
  }
}
