/**
 * A Python `dict` as an association list: entries keep the order in which
 * their keys were first inserted, and assigning to an existing key replaces
 * its value in place.
 */
module OrderedDict {
  import opened Wrappers

  type Dict<K, V> = seq<(K, V)>

  function Keys<K, V>(d: Dict<K, V>): seq<K> {
    seq(|d|, i requires 0 <= i < |d| => d[i].0)
  }

  ghost predicate UniqueKeys<K, V>(d: Dict<K, V>) {
    forall i, j :: 0 <= i < j < |d| ==> d[i].0 != d[j].0
  }

  /** `d.get(k)` */
  function Get<K(==), V>(d: Dict<K, V>, k: K): (r: Option<V>)
    ensures r.None? <==> k !in Keys(d)
    ensures r.Some? ==> (k, r.value) in d
    decreases |d|
  {
    if d == [] then None
    else if d[0].0 == k then
      assert Keys(d)[0] == k;
      Some(d[0].1)
    else
      assert Keys(d) == [d[0].0] + Keys(d[1..]);
      Get(d[1..], k)
  }

  /**
   * `d[k] = v`: the key keeps its place when present and is appended
   * otherwise; only the entry for `k` changes.
   */
  function Set<K(==, !new), V>(d: Dict<K, V>, k: K, v: V): (r: Dict<K, V>)
    ensures forall j :: Get(r, j) == if j == k then Some(v) else Get(d, j)
    ensures Keys(r) == if k in Keys(d) then Keys(d) else Keys(d) + [k]
    ensures UniqueKeys(d) ==> UniqueKeys(r)
    decreases |d|
  {
    if d == [] then [(k, v)]
    else if d[0].0 == k then
      assert Keys(d)[0] == k;
      assert Keys([(k, v)] + d[1..]) == Keys(d);
      [(k, v)] + d[1..]
    else
      var tail := Set(d[1..], k, v);
      SetBehindHead(d, k, v, tail);
      [d[0]] + tail
  }

  /** Setting `k` behind a head entry of another key keeps the head and sets `k` in the tail. */
  lemma SetBehindHead<K(!new), V>(d: Dict<K, V>, k: K, v: V, tail: Dict<K, V>)
    requires d != [] && d[0].0 != k
    requires forall j :: Get(tail, j) == if j == k then Some(v) else Get(d[1..], j)
    requires Keys(tail) == if k in Keys(d[1..]) then Keys(d[1..]) else Keys(d[1..]) + [k]
    requires UniqueKeys(d[1..]) ==> UniqueKeys(tail)
    ensures forall j :: Get([d[0]] + tail, j) == if j == k then Some(v) else Get(d, j)
    ensures Keys([d[0]] + tail) == if k in Keys(d) then Keys(d) else Keys(d) + [k]
    ensures UniqueKeys(d) ==> UniqueKeys([d[0]] + tail)
  {
    var r := [d[0]] + tail;
    assert r[1..] == tail;
    ConsKeys(d);
    ConsKeys(r);
    forall j ensures Get(r, j) == if j == k then Some(v) else Get(d, j) {
      assert Get(r, j) == if r[0].0 == j then Some(r[0].1) else Get(tail, j);
      assert Get(d, j) == if d[0].0 == j then Some(d[0].1) else Get(d[1..], j);
    }
    ConsUnique(d);
    ConsUnique(r);
  }

  lemma ConsKeys<K, V>(d: Dict<K, V>)
    requires d != []
    ensures Keys(d) == [d[0].0] + Keys(d[1..])
  {
  }

  /** A dict is free of duplicate keys exactly when its tail is and its head key is not in the tail. */
  lemma ConsUnique<K, V>(d: Dict<K, V>)
    requires d != []
    ensures UniqueKeys(d) <==> UniqueKeys(d[1..]) && d[0].0 !in Keys(d[1..])
  {
    ConsKeys(d);
    if UniqueKeys(d[1..]) && d[0].0 !in Keys(d[1..]) {
      forall i, j | 0 <= i < j < |d| ensures d[i].0 != d[j].0 {
        if i == 0 {
          assert Keys(d[1..])[j - 1] == d[j].0;
        } else {
          assert d[1..][i - 1] == d[i] && d[1..][j - 1] == d[j];
        }
      }
    }
  }

  /** A key absent from `d` is simply appended. */
  lemma {:induction false} SetAbsent<K(!new), V>(d: Dict<K, V>, k: K, v: V)
    requires k !in Keys(d)
    ensures Set(d, k, v) == d + [(k, v)]
    decreases |d|
  {
    if d != [] {
      ConsKeys(d);
      assert d[0].0 != k;
      SetAbsent(d[1..], k, v);
      assert Set(d, k, v) == [d[0]] + Set(d[1..], k, v);
      assert d == [d[0]] + d[1..];
    }
  }
}
