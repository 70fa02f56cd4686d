// Dictionaries of counts in insertion order, as the metric code keeps them.
module Counters {

  type Counter<K> = seq<(K, nat)>

  // The count of a key, 0 when it has none.
  function Get<K(==)>(d: Counter<K>, key: K): nat {
    if d == [] then 0
    else if d[0].0 == key then d[0].1
    else Get(d[1..], key)
  }

  // One more of a key.
  function Bump<K(==)>(d: Counter<K>, key: K): Counter<K> {
    if d == [] then [(key, 1)]
    else if d[0].0 == key then [(key, d[0].1 + 1)] + d[1..]
    else [d[0]] + Bump(d[1..], key)
  }

  function Keys<K>(d: Counter<K>): (r: seq<K>)
    ensures |r| == |d| && forall k :: 0 <= k < |d| ==> r[k] == d[k].0
  {
    if d == [] then [] else [d[0].0] + Keys(d[1..])
  }

  // All counts together.
  function Total<K>(d: Counter<K>): nat {
    if d == [] then 0 else d[0].1 + Total(d[1..])
  }

  lemma {:induction false} BumpAdds<K>(d: Counter<K>, key: K)
    ensures Total(Bump(d, key)) == Total(d) + 1
    ensures forall other :: Get(Bump(d, key), other) == Get(d, other) + if other == key then 1 else 0
  {
    if d == [] || d[0].0 == key {
    } else {
      BumpAdds(d[1..], key);
    }
  }

  // A new key goes last, a known one stays where it is.
  lemma {:induction false} BumpKeys<K>(d: Counter<K>, key: K)
    ensures Keys(Bump(d, key)) == if key in Keys(d) then Keys(d) else Keys(d) + [key]
  {
    if d == [] {
    } else if d[0].0 == key {
      assert Bump(d, key)[1..] == d[1..];
    } else {
      BumpKeys(d[1..], key);
      assert Bump(d, key)[1..] == Bump(d[1..], key);
    }
  }
}
