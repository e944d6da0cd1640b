/** Small shared vocabulary: an option type, map access, and the binary
    search behind every `std::lower_bound` call of the modelled code. */
module Prelude {
  datatype Option<+T> = None | Some(value: T)

  function Get<K, V>(m: map<K, V>, k: K): Option<V> {
    if k in m then Some(m[k]) else None
  }

  /** `std::lower_bound` on `n` positions: `before(i)` says that position `i`
      compares below the needle, and the range is partitioned by it. */
  method LowerBound(n: nat, before: nat --> bool) returns (k: nat)
    requires forall i: nat :: i < n ==> before.requires(i)
    requires forall i: nat, j: nat :: i < j < n && before(j) ==> before(i)
    ensures k <= n
    ensures forall i: nat :: i < k ==> before(i)
    ensures forall i: nat :: k <= i < n ==> !before(i)
  {
    k := 0;
    var hi := n;
    while k < hi
      invariant k <= hi <= n
      invariant forall i: nat :: i < k ==> before(i)
      invariant forall i: nat :: hi <= i < n ==> !before(i)
    {
      var mid := (k + hi) / 2;
      if before(mid) {
        k := mid + 1;
      } else {
        hi := mid;
      }
    }
  }
}
