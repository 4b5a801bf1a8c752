/** The partition point of an ascending list, as the standard library searches for it. */
module Search {
  predicate Increasing(keys: seq<nat>) {
    forall i, j :: 0 <= i < j < |keys| ==> keys[i] < keys[j]
  }

  /** The number of leading keys at or below `n`. */
  function Upper(keys: seq<nat>, n: nat): (p: nat)
    ensures p <= |keys| && (forall i :: 0 <= i < p ==> keys[i] <= n) && (p < |keys| ==> keys[p] > n)
  {
    if keys == [] || keys[0] > n then 0 else 1 + Upper(keys[1..], n)
  }

  method PartitionPoint(keys: seq<nat>, n: nat) returns (p: nat)
    requires Increasing(keys)
    ensures p == Upper(keys, n)
  {
    var lo, hi := 0, |keys|;
    while lo < hi
      invariant lo <= hi <= |keys|
      invariant forall i :: 0 <= i < lo ==> keys[i] <= n
      invariant forall i :: hi <= i < |keys| ==> keys[i] > n
    {
      var mid := (lo + hi) / 2;
      if keys[mid] <= n { lo := mid + 1; } else { hi := mid; }
    }
    UpperIs(keys, n, lo);
    return lo;
  }

  lemma {:induction false} UpperIs(keys: seq<nat>, n: nat, p: nat)
    requires p <= |keys| && (forall i :: 0 <= i < p ==> keys[i] <= n) && forall i :: p <= i < |keys| ==> keys[i] > n
    ensures Upper(keys, n) == p
  {
    if p > 0 { UpperIs(keys[1..], n, p - 1); }
  }
}
