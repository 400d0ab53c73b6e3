/** Shared value types: SQL NULL / Python None as `Option`, raised exceptions as `Result`. */
module Common {
  datatype Option<+T> = None | Some(value: T)

  datatype Result<+T, +E> = Ok(value: T) | Err(error: E)

  /** The entry of `m` under `k`, or None. */
  function At<K, V>(m: map<K, V>, k: K): Option<V> {
    if k in m then Some(m[k]) else None
  }

  /** Maps with the same entries are the same map. */
  lemma SameEntries<K, V>(a: map<K, V>, b: map<K, V>)
    requires forall k :: At(a, k) == At(b, k)
    ensures a == b
  {
    forall k ensures k in a <==> k in b {
      assert At(a, k) == At(b, k);
    }
    forall k | k in a ensures a[k] == b[k] {
      assert At(a, k) == At(b, k);
    }
  }

  /** Whether an exception strikes here; never in a calm run. */
  method Fault(calm: bool) returns (strikes: bool)
    ensures calm ==> !strikes
  {
    strikes := *;
    if calm { strikes := false; }
  }

  /** n NULLs. */
  function Nulls<T>(n: nat): (r: seq<Option<T>>)
    ensures |r| == n && forall i :: 0 <= i < n ==> r[i].None?
  {
    if n == 0 then [] else Nulls(n - 1) + [None]
  }
}
