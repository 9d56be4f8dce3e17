/** Generic helpers over sequences and maps: an order-preserving filter, a
    defaulting map lookup and the sum of all values of a map. */
module Collections {

  /** The elements of `s` that satisfy `p`, in their original order. */
  function Filter<T(!new)>(p: T -> bool, s: seq<T>): (r: seq<T>)
    ensures |r| <= |s|
    ensures forall x :: x in r <==> x in s && p(x)
    ensures forall i :: 0 <= i < |r| ==> p(r[i])
    ensures (forall x :: x in s ==> !p(x)) ==> r == []
    decreases |s|
  {
    if |s| == 0 then []
    else
      var rest := Filter(p, s[..|s| - 1]);
      assert forall x :: x in s <==> x in s[..|s| - 1] || x == s[|s| - 1];
      if p(s[|s| - 1]) then rest + [s[|s| - 1]] else rest
  }

  /** `m[k]`, or 0 when `k` has no entry: the `(m[k] || 0)` idiom. */
  function Lookup<K>(m: map<K, int>, k: K): int
  {
    if k in m then m[k] else 0
  }

  /** The sum of all values of `m`, one term per key. */
  ghost function SumValues<K>(m: map<K, int>): int
    decreases m.Keys
  {
    if m == map[] then 0
    else
      var k :| k in m;
      assert (m - {k}).Keys < m.Keys;
      m[k] + SumValues(m - {k})
  }

  /** The sum does not depend on which key is taken out first. */
  lemma {:induction false} SumValuesPick<K>(m: map<K, int>, x: K)
    requires x in m
    ensures SumValues(m) == m[x] + SumValues(m - {x})
    decreases m.Keys
  {
    var k :| k in m && SumValues(m) == m[k] + SumValues(m - {k});
    if k != x {
      assert (m - {k}).Keys < m.Keys;
      assert (m - {x}).Keys < m.Keys;
      SumValuesPick(m - {k}, x);
      SumValuesPick(m - {x}, k);
      assert m - {k} - {x} == m - {x} - {k};
    }
  }

  /** Overwriting one entry changes the sum by exactly the difference. */
  lemma SumValuesUpdate<K>(m: map<K, int>, k: K, v: int)
    ensures SumValues(m[k := v]) == SumValues(m) - Lookup(m, k) + v
  {
    SumValuesPick(m[k := v], k);
    assert m[k := v] - {k} == m - {k};
    if k in m {
      SumValuesPick(m, k);
    } else {
      assert m - {k} == m;
    }
  }

  /** Adding `c` to one entry (a missing entry read as 0) adds `c` to the sum. */
  lemma SumValuesAdd<K>(m0: map<K, int>, m: map<K, int>, k: K, c: int)
    requires m == m0[k := Lookup(m0, k) + c]
    ensures SumValues(m) == SumValues(m0) + c
  {
    SumValuesUpdate(m0, k, Lookup(m0, k) + c);
  }

  /** A map whose values are all 0 sums to 0. */
  lemma {:induction false} SumValuesZero<K>(m: map<K, int>)
    requires forall k :: k in m ==> m[k] == 0
    ensures SumValues(m) == 0
    decreases m.Keys
  {
    if m != map[] {
      var k :| k in m;
      SumValuesPick(m, k);
      assert (m - {k}).Keys < m.Keys;
      SumValuesZero(m - {k});
    }
  }
}
