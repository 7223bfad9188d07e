/** Group-by-mean over (key, value) observations: one pass that keeps a
    running sum and count per key, proved to give the arithmetic mean of the
    values observed under each key. Both the pivot table and the
    "conceded" grouping of the aggregator are this operation. */
module GroupBy {
  import opened Seqs

  datatype Acc = Acc(sum: real, count: nat)

  /** The values observed under key `k`, in input order (the reference). */
  function GroupValues<K(==)>(obs: seq<(K, real)>, k: K): seq<real>
  {
    if obs == [] then []
    else GroupValues(Init(obs), k) + (if Last(obs).0 == k then [Last(obs).1] else [])
  }

  lemma GroupValuesSnoc<K>(obs: seq<(K, real)>, o: (K, real), k: K)
    ensures GroupValues(obs + [o], k) == GroupValues(obs, k) + (if o.0 == k then [o.1] else [])
  {
    SnocParts(obs, o);
  }

  /** The accumulator pass: a (sum, count) per key seen so far. */
  function GroupAcc<K(==)>(obs: seq<(K, real)>): map<K, Acc>
  {
    if obs == [] then map[]
    else
      var m := GroupAcc(Init(obs));
      var k := Last(obs).0;
      var a := if k in m then m[k] else Acc(0.0, 0);
      m[k := Acc(a.sum + Last(obs).1, a.count + 1)]
  }

  lemma SumSnoc(xs: seq<real>, v: real)
    ensures Sum(xs + [v]) == Sum(xs) + v
  {
    SnocParts(xs, v);
  }

  /** Key `k` has an accumulator exactly when some value was observed under
      it, and the accumulator holds the sum and the number of those values. */
  lemma {:induction false} GroupAccAt<K>(obs: seq<(K, real)>, k: K)
    ensures k in GroupAcc(obs) <==> |GroupValues(obs, k)| > 0
    ensures k in GroupAcc(obs) ==>
      GroupAcc(obs)[k] == Acc(Sum(GroupValues(obs, k)), |GroupValues(obs, k)|)
    decreases |obs|
  {
    if obs != [] {
      GroupAccAt(Init(obs), k);
      if Last(obs).0 == k {
        var vs := GroupValues(Init(obs), k);
        assert GroupValues(obs, k) == vs + [Last(obs).1];
        SumSnoc(vs, Last(obs).1);
        var m := GroupAcc(Init(obs));
        var a := if k in m then m[k] else Acc(0.0, 0);
        assert a == Acc(Sum(vs), |vs|);
        assert GroupAcc(obs)[k] == Acc(a.sum + Last(obs).1, a.count + 1);
      } else {
        assert GroupValues(obs, k) == GroupValues(Init(obs), k);
      }
    }
  }

  lemma GroupAccIsSumAndCount<K>(obs: seq<(K, real)>)
    ensures forall k :: k in GroupAcc(obs) <==> |GroupValues(obs, k)| > 0
    ensures forall k :: k in GroupAcc(obs) ==>
      GroupAcc(obs)[k] == Acc(Sum(GroupValues(obs, k)), |GroupValues(obs, k)|)
  {
    forall k {
      GroupAccAt(obs, k);
    }
  }

  /** `groupby(key).mean()`: one entry per key that has at least one value,
      holding the arithmetic mean of that key's values. */
  function GroupMean<K(==,!new)>(obs: seq<(K, real)>): (m: map<K, real>)
    ensures forall k :: k in m <==> |GroupValues(obs, k)| > 0
    ensures forall k :: k in m ==> m[k] == Mean(GroupValues(obs, k))
  {
    var acc := GroupAcc(obs);
    GroupAccIsSumAndCount(obs);
    map k | k in acc :: acc[k].sum / (acc[k].count as real)
  }
}
