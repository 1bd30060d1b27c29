/** Counting in sequences and totals of maps of counts. */
module Counting {
  function CountWhere<T>(s: seq<T>, p: T -> bool): (n: nat)
    ensures n <= |s|
  {
    if s == [] then 0 else CountWhere(s[..|s| - 1], p) + if p(s[|s| - 1]) then 1 else 0
  }

  function Get<K>(m: map<K, nat>, k: K): nat {
    if k in m then m[k] else 0
  }

  /** One more under `k`. */
  function Bumped<K>(m: map<K, nat>, k: K): map<K, nat> {
    m[k := Get(m, k) + 1]
  }

  ghost function MapSum<K>(m: map<K, nat>): nat {
    if k :| k in m then m[k] + MapSum(m - {k}) else 0
  }

  lemma {:induction false} MapSumOf<K>(m: map<K, nat>, key: K)
    requires key in m
    ensures MapSum(m) == m[key] + MapSum(m - {key})
  {
    var k :| k in m && MapSum(m) == m[k] + MapSum(m - {k});
    if k != key {
      MapSumOf(m - {k}, key);
      MapSumOf(m - {key}, k);
      assert m - {k} - {key} == m - {key} - {k};
    }
  }

  lemma MapSumUpdate<K>(m: map<K, nat>, key: K, n: nat)
    ensures MapSum(m[key := n]) == MapSum(m) + n - Get(m, key)
  {
    var after := m[key := n];
    MapSumOf(after, key);
    assert after - {key} == m - {key};
    if key in m {
      MapSumOf(m, key);
    } else {
      assert m - {key} == m;
    }
  }

  /** The part of a map whose keys satisfy `p`. */
  function Restrict<K, V>(m: map<K, V>, p: K -> bool): map<K, V> {
    map k | k in m && p(k) :: m[k]
  }

  lemma RestrictBumped<K>(m: map<K, nat>, p: K -> bool, key: K)
    ensures MapSum(Restrict(Bumped(m, key), p)) == MapSum(Restrict(m, p)) + if p(key) then 1 else 0
  {
    if p(key) {
      var part := Restrict(m, p);
      MapSumUpdate(part, key, Get(part, key) + 1);
      assert Get(part, key) == Get(m, key);
      assert Restrict(Bumped(m, key), p) == Bumped(part, key);
    } else {
      assert Restrict(Bumped(m, key), p) == Restrict(m, p);
    }
  }

  lemma RestrictWithout<K>(m: map<K, nat>, p: K -> bool, key: K)
    requires key in m
    ensures MapSum(Restrict(m, p)) == (if p(key) then m[key] else 0) + MapSum(Restrict(m - {key}, p))
  {
    if p(key) {
      MapSumOf(Restrict(m, p), key);
      assert Restrict(m, p) - {key} == Restrict(m - {key}, p);
    } else {
      assert Restrict(m, p) == Restrict(m - {key}, p);
    }
  }
}
