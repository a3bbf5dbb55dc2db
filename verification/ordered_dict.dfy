/** Python's `dict` as an association list in insertion order: assigning to
    an existing key keeps its position, a new key goes to the end, and
    iteration visits keys in that order. */
module OrderedDict {
  import opened Wrappers

  type Dict<K, V> = seq<(K, V)>

  predicate UniqueKeys<K(==), V>(d: Dict<K, V>) {
    forall i, j | 0 <= i < j < |d| :: d[i].0 != d[j].0
  }

  function Keys<K, V>(d: Dict<K, V>): (ks: seq<K>)
    ensures |ks| == |d|
    ensures forall i | 0 <= i < |d| :: ks[i] == d[i].0
  {
    seq(|d|, i requires 0 <= i < |d| => d[i].0)
  }

  /** `d.get(k)`. */
  function Get<K(==), V>(d: Dict<K, V>, k: K): (r: Option<V>)
    ensures r.Some? <==> k in Keys(d)
    ensures r.Some? ==> (k, r.value) in d
    ensures UniqueKeys(d) ==> forall i | 0 <= i < |d| && d[i].0 == k :: r == Some(d[i].1)
    decreases |d|
  {
    if d == [] then None
    else if d[0].0 == k then Some(d[0].1)
    else
      var r := Get(d[1..], k);
      assert Keys(d) == [d[0].0] + Keys(d[1..]);
      r
  }

  /** `d[k] = v`. */
  function Set<K(==, !new), V>(d: Dict<K, V>, k: K, v: V): (r: Dict<K, V>)
    requires UniqueKeys(d)
    ensures UniqueKeys(r)
    ensures Get(r, k) == Some(v)
    ensures forall k' | k' != k :: Get(r, k') == Get(d, k')
    ensures Keys(r) == if k in Keys(d) then Keys(d) else Keys(d) + [k]
  {
    if k in Keys(d) then
      var r := seq(|d|, i requires 0 <= i < |d| => if d[i].0 == k then (k, v) else d[i]);
      assert Keys(r) == Keys(d);
      forall k' | k' != k
        ensures Get(r, k') == Get(d, k')
      {
        if k' in Keys(d) {
          var i :| 0 <= i < |d| && Keys(d)[i] == k';
          assert r[i] == d[i];
        }
      }
      var i :| 0 <= i < |d| && Keys(d)[i] == k;
      assert r[i] == (k, v);
      r
    else
      var r := d + [(k, v)];
      assert Keys(r) == Keys(d) + [k];
      assert r[|d|] == (k, v);
      forall k' | k' != k
        ensures Get(r, k') == Get(d, k')
      {
        if k' in Keys(d) {
          var i :| 0 <= i < |d| && Keys(d)[i] == k';
          assert r[i] == d[i];
        }
      }
      r
  }

  /** Keeps the pairs whose key is not `k`, in order. */
  function Without<K(==), V>(d: Dict<K, V>, k: K): (r: Dict<K, V>)
    ensures forall p | p in r :: p in d && p.0 != k
    ensures forall p | p in d && p.0 != k :: p in r
    ensures UniqueKeys(d) ==> UniqueKeys(r)
    decreases |d|
  {
    if d == [] then []
    else if d[0].0 == k then Without(d[1..], k)
    else
      var rest := Without(d[1..], k);
      assert forall p | p in rest :: p in d[1..];
      [d[0]] + rest
  }

  /** `d.pop(k, None)` on a dict: removes exactly the key `k`. */
  function Pop<K(==, !new), V>(d: Dict<K, V>, k: K): (r: Dict<K, V>)
    requires UniqueKeys(d)
    ensures UniqueKeys(r)
    ensures Get(r, k) == None
    ensures forall k' | k' != k :: Get(r, k') == Get(d, k')
    ensures k !in Keys(d) ==> r == d
  {
    PopFacts(d, k);
    Without(d, k)
  }

  /** Popping a present key cuts out exactly its entry, leaving the others
      in their order. */
  lemma PopKeepsOrder<K(!new), V>(d: Dict<K, V>, k: K)
    requires UniqueKeys(d) && k in Keys(d)
    ensures exists i | 0 <= i < |d| :: d[i].0 == k && Pop(d, k) == d[..i] + d[i + 1..]
  {
    var i :| 0 <= i < |d| && Keys(d)[i] == k;
    WithoutAt(d, k, i);
  }

  lemma {:induction false} WithoutAt<K, V>(d: Dict<K, V>, k: K, i: nat)
    requires i < |d| && d[i].0 == k
    requires forall j | 0 <= j < |d| && j != i :: d[j].0 != k
    ensures Without(d, k) == d[..i] + d[i + 1..]
    decreases i
  {
    var tail := d[1..];
    forall j | 0 <= j < |tail| && j != i - 1
      ensures tail[j].0 != k
    {
      assert tail[j] == d[j + 1];
    }
    if i == 0 {
      WithoutNone(tail, k);
      assert d[..0] + d[1..] == tail;
    } else {
      WithoutAt(tail, k, i - 1);
      WithoutAtStep(d, k, i);
    }
  }

  lemma WithoutAtStep<K, V>(d: Dict<K, V>, k: K, i: nat)
    requires 1 <= i < |d| && d[0].0 != k
    requires Without(d[1..], k) == d[1..][..i - 1] + d[1..][i..]
    ensures Without(d, k) == d[..i] + d[i + 1..]
  {
    assert d == [d[0]] + d[1..];
    ConsSplice(d[0], d[1..], i);
  }

  lemma ConsSplice<T>(x: T, tail: seq<T>, i: nat)
    requires 1 <= i <= |tail|
    ensures [x] + (tail[..i - 1] + tail[i..]) == ([x] + tail)[..i] + ([x] + tail)[i + 1..]
  {
    assert ([x] + tail)[..i] == [x] + tail[..i - 1];
    assert ([x] + tail)[i + 1..] == tail[i..];
  }

  lemma {:induction false} WithoutNone<K, V>(d: Dict<K, V>, k: K)
    requires forall j | 0 <= j < |d| :: d[j].0 != k
    ensures Without(d, k) == d
    decreases |d|
  {
    if d != [] {
      WithoutNone(d[1..], k);
    }
  }

  lemma PopFacts<K, V>(d: Dict<K, V>, k: K)
    requires UniqueKeys(d)
    ensures Get(Without(d, k), k) == None
    ensures forall k' | k' != k :: Get(Without(d, k), k') == Get(d, k')
    ensures k !in Keys(d) ==> Without(d, k) == d
  {
    var r := Without(d, k);
    forall k' | k' != k
      ensures Get(r, k') == Get(d, k')
    {
      if Get(d, k').Some? {
        assert (k', Get(d, k').value) in r;
        var i :| 0 <= i < |r| && r[i] == (k', Get(d, k').value);
      }
    }
    if k !in Keys(d) {
      WithoutAbsent(d, k);
    }
  }

  lemma WithoutAbsent<K, V>(d: Dict<K, V>, k: K)
    requires k !in Keys(d)
    ensures Without(d, k) == d
  {
    forall j | 0 <= j < |d|
      ensures d[j].0 != k
    {
      assert Keys(d)[j] == d[j].0;
    }
    WithoutNone(d, k);
  }

  /** Assigning a key the value it already holds leaves the dict as it was. */
  lemma SetExisting<K(!new), V>(d: Dict<K, V>, k: K, v: V)
    requires UniqueKeys(d) && Get(d, k) == Some(v)
    ensures Set(d, k, v) == d
  {
    var r := Set(d, k, v);
    assert |r| == |d|;
    forall i | 0 <= i < |d|
      ensures r[i] == d[i]
    {
      if d[i].0 == k {
        assert d[i] == (k, v);
      }
    }
  }

  /** Adding a new key and then popping it gives back the dict. */
  lemma PopSetNew<K(!new), V>(d: Dict<K, V>, k: K, v: V)
    requires UniqueKeys(d) && k !in Keys(d)
    ensures Pop(Set(d, k, v), k) == d
  {
    assert Set(d, k, v) == d + [(k, v)];
    WithoutSnoc(d, k, v);
  }

  lemma {:induction false} WithoutSnoc<K, V>(d: Dict<K, V>, k: K, v: V)
    requires k !in Keys(d)
    ensures Without(d + [(k, v)], k) == d
    decreases |d|
  {
    if d == [] {
      assert [(k, v)][1..] == [];
    } else {
      assert Keys(d) == [d[0].0] + Keys(d[1..]);
      assert (d + [(k, v)])[1..] == d[1..] + [(k, v)];
      WithoutSnoc(d[1..], k, v);
    }
  }

  /** The first entry in iteration order, as a `for ...: break` loop reads it. */
  function First<K, V>(d: Dict<K, V>): Option<(K, V)> {
    if d == [] then None else Some(d[0])
  }
}
