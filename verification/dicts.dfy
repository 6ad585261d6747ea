/** Python's insertion-ordered `dict`, as a list of key/value pairs. */
module OrderedDict {
  import opened Wrappers
  import Seqs

  function Keys<K, V>(d: seq<(K, V)>): (r: seq<K>)
    ensures |r| == |d|
    ensures forall i | 0 <= i < |d| :: r[i] == d[i].0
  {
    seq(|d|, i requires 0 <= i < |d| => d[i].0)
  }

  predicate DistinctKeys<K(==), V>(d: seq<(K, V)>) {
    forall i, j | 0 <= i < j < |d| :: d[i].0 != d[j].0
  }

  /** `d.get(k)`. */
  function Get<K(==), V>(d: seq<(K, V)>, k: K): (r: Option<V>)
    ensures r.Some? <==> k in Keys(d)
    decreases |d|
  {
    if |d| == 0 then None
    else if d[0].0 == k then Some(d[0].1)
    else
      assert Keys(d) == [d[0].0] + Keys(d[1..]);
      Get(d[1..], k)
  }

  /** `d[k] = v`: an existing key keeps its position and takes the new
      value; a new key is appended. */
  function Put<K(==), V>(d: seq<(K, V)>, k: K, v: V): (r: seq<(K, V)>)
    ensures Keys(r) == if k in Keys(d) then Keys(d) else Keys(d) + [k]
    ensures Get(r, k) == Some(v)
    decreases |d|
  {
    if |d| == 0 then [(k, v)]
    else if d[0].0 == k then
      PutHead(d, k, v);
      [(k, v)] + d[1..]
    else
      var rest := Put(d[1..], k, v);
      PutTail(d, k, v, rest);
      [d[0]] + rest
  }

  /** `Put` on a dictionary whose first key is `k` replaces that pair. */
  lemma PutHead<K, V>(d: seq<(K, V)>, k: K, v: V)
    requires |d| > 0 && d[0].0 == k
    ensures Keys([(k, v)] + d[1..]) == Keys(d) && k in Keys(d)
    ensures Get([(k, v)] + d[1..], k) == Some(v)
  {
    assert d == [d[0]] + d[1..];
    KeysCons(d[0], d[1..]);
    KeysCons((k, v), d[1..]);
  }

  /** `Put` past a first pair with another key keeps that pair in front. */
  lemma PutTail<K, V>(d: seq<(K, V)>, k: K, v: V, rest: seq<(K, V)>)
    requires |d| > 0 && d[0].0 != k
    requires Keys(rest) == if k in Keys(d[1..]) then Keys(d[1..]) else Keys(d[1..]) + [k]
    requires Get(rest, k) == Some(v)
    ensures Keys([d[0]] + rest) == if k in Keys(d) then Keys(d) else Keys(d) + [k]
    ensures Get([d[0]] + rest, k) == Some(v)
  {
    var tail := d[1..];
    assert d == [d[0]] + tail;
    KeysCons(d[0], tail);
    KeysCons(d[0], rest);
    if k in Keys(tail) {
      assert k in Keys(d);
    } else {
      assert k !in Keys(d);
      assert [d[0].0] + (Keys(tail) + [k]) == ([d[0].0] + Keys(tail)) + [k];
    }
    GetCons(d[0], rest, k);
  }

  lemma KeysCons<K, V>(x: (K, V), d: seq<(K, V)>)
    ensures Keys([x] + d) == [x.0] + Keys(d)
  {
  }

  lemma KeysSnoc<K, V>(d: seq<(K, V)>, x: (K, V))
    ensures Keys(d + [x]) == Keys(d) + [x.0]
  {
  }

  lemma KeysInit<K, V>(d: seq<(K, V)>)
    requires |d| > 0
    ensures Keys(d) == Keys(d[..|d| - 1]) + [d[|d| - 1].0]
  {
    assert d == d[..|d| - 1] + [d[|d| - 1]];
    KeysSnoc(d[..|d| - 1], d[|d| - 1]);
  }

  /** Looking past a first pair with another key. */
  lemma GetCons<K, V>(x: (K, V), d: seq<(K, V)>, k: K)
    requires x.0 != k
    ensures Get([x] + d, k) == Get(d, k)
  {
    assert ([x] + d)[1..] == d;
  }

  lemma {:induction false} PutOther<K, V>(d: seq<(K, V)>, k: K, v: V, other: K)
    requires other != k
    ensures Get(Put(d, k, v), other) == Get(d, other)
    decreases |d|
  {
    if |d| > 0 && d[0].0 != k {
      PutOther(d[1..], k, v, other);
    }
  }

  /** The dictionary a comprehension `{k: v for ...}` builds from its pairs. */
  function FromPairs<K(==), V>(ps: seq<(K, V)>): seq<(K, V)>
    decreases |ps|
  {
    if |ps| == 0 then []
    else Put(FromPairs(ps[..|ps| - 1]), ps[|ps| - 1].0, ps[|ps| - 1].1)
  }

  /** The value of the last pair with key `k`: the one that survives. */
  function LastValue<K(==), V>(ps: seq<(K, V)>, k: K): Option<V>
    decreases |ps|
  {
    if |ps| == 0 then None
    else if ps[|ps| - 1].0 == k then Some(ps[|ps| - 1].1)
    else LastValue(ps[..|ps| - 1], k)
  }

  /** Later pairs overwrite earlier ones: every key holds its last value. */
  lemma {:induction false} FromPairsLastWins<K, V>(ps: seq<(K, V)>, k: K)
    ensures Get(FromPairs(ps), k) == LastValue(ps, k)
    decreases |ps|
  {
    if |ps| > 0 {
      var last := ps[|ps| - 1];
      FromPairsLastWins(ps[..|ps| - 1], k);
      if last.0 != k {
        PutOther(FromPairs(ps[..|ps| - 1]), last.0, last.1, k);
      }
    }
  }

  /** The keys are the distinct pair keys in first-occurrence order. */
  lemma {:induction false} FromPairsKeys<K, V>(ps: seq<(K, V)>)
    ensures Keys(FromPairs(ps)) == Seqs.Dedup(Keys(ps))
    ensures DistinctKeys(FromPairs(ps))
    decreases |ps|
  {
    var d := FromPairs(ps);
    if |ps| > 0 {
      var init := ps[..|ps| - 1];
      var last := ps[|ps| - 1];
      KeysInit(ps);
      Seqs.DedupSnoc(Keys(init), last.0);
      FromPairsKeys(init);
    }
    assert forall i | 0 <= i < |d| :: d[i].0 == Keys(d)[i];
  }
}
