/**
 * A Python `dict` with string keys as the language keeps it: an
 * insertion-ordered list of key/value pairs with no key twice. Assigning an
 * existing key replaces its value in place; assigning a new key appends it.
 * A dict comprehension is a run of such assignments over its source items.
 */
module OrderedDict {
  import opened Common

  type Entries<V> = seq<(string, V)>

  /** The keys, in insertion order. */
  function Keys<V>(d: Entries<V>): (ks: seq<string>)
    ensures |ks| == |d|
    ensures forall i :: 0 <= i < |d| ==> ks[i] == d[i].0
  {
    if d == [] then [] else [d[0].0] + Keys(d[1..])
  }

  /** No key occurs twice: what every real dict satisfies. */
  predicate DistinctKeys<V>(d: Entries<V>) {
    forall i, j :: 0 <= i < j < |d| ==> d[i].0 != d[j].0
  }

  /** `d.get(k)`: the value stored for `k`, if any. */
  function Get<V>(d: Entries<V>, k: string): (r: Option<V>)
    ensures r.None? <==> k !in Keys(d)
  {
    if d == [] then None
    else if d[0].0 == k then Some(d[0].1)
    else Get(d[1..], k)
  }

  /** In a dict without duplicate keys, `Get` finds the one pair that carries the key. */
  lemma {:induction false} GetAt<V>(d: Entries<V>, i: nat)
    requires DistinctKeys(d)
    requires i < |d|
    ensures Get(d, d[i].0) == Some(d[i].1)
  {
    if i > 0 {
      GetAt(d[1..], i - 1);
    }
  }

  /** `d[k] = v`. */
  function Put<V>(d: Entries<V>, k: string, v: V): (r: Entries<V>)
    ensures Keys(r) == if k in Keys(d) then Keys(d) else Keys(d) + [k]
    ensures Get(r, k) == Some(v)
    ensures forall k' :: k' != k ==> Get(r, k') == Get(d, k')
  {
    if d == [] then [(k, v)]
    else if d[0].0 == k then [(k, v)] + d[1..]
    else [d[0]] + Put(d[1..], k, v)
  }

  /** Assignment never duplicates a key. */
  lemma {:induction false} PutDistinct<V>(d: Entries<V>, k: string, v: V)
    requires DistinctKeys(d)
    ensures DistinctKeys(Put(d, k, v))
  {
    var r := Put(d, k, v);
    forall i, j | 0 <= i < j < |r| ensures r[i].0 != r[j].0 {
      assert Keys(r)[i] == r[i].0 && Keys(r)[j] == r[j].0;
      if k !in Keys(d) && j == |d| {
        assert r[i].0 == Keys(d)[i];
      } else {
        assert r[i].0 == Keys(d)[i] && r[j].0 == Keys(d)[j];
        assert d[i].0 == Keys(d)[i] && d[j].0 == Keys(d)[j];
      }
    }
  }

  /**
   * `{key: value for (key, value) in pairs}`: each pair is assigned in turn,
   * so a later value for a repeated key wins while the key keeps the place of
   * its first occurrence.
   */
  function FromPairs<V>(pairs: seq<(string, V)>): (d: Entries<V>)
    ensures DistinctKeys(d)
    ensures forall k :: k in Keys(d) <==> k in Keys(pairs)
  {
    if pairs == [] then []
    else
      var last := pairs[|pairs| - 1];
      var init := FromPairs(pairs[..|pairs| - 1]);
      KeysSnoc(pairs);
      PutDistinct(init, last.0, last.1);
      Put(init, last.0, last.1)
  }

  /** Every pair an assignment leaves is the assigned one or was there before. */
  lemma {:induction false} PutFrom<V>(d: Entries<V>, k: string, v: V)
    ensures forall i :: 0 <= i < |Put(d, k, v)| ==> Put(d, k, v)[i] == (k, v) || Put(d, k, v)[i] in d
  {
    if d != [] && d[0].0 != k {
      PutFrom(d[1..], k, v);
    }
  }

  /** Every pair of a comprehension's result is one of the pairs it was given. */
  lemma {:induction false} FromPairsFrom<V>(pairs: seq<(string, V)>)
    ensures forall i :: 0 <= i < |FromPairs(pairs)| ==> FromPairs(pairs)[i] in pairs
  {
    if pairs != [] {
      var init := pairs[..|pairs| - 1];
      var last := pairs[|pairs| - 1];
      FromPairsFrom(init);
      PutFrom(FromPairs(init), last.0, last.1);
      assert forall p :: p in init ==> p in pairs;
    }
  }

  /** Building a dict from pairs whose keys are already distinct keeps them all, in order. */
  lemma {:induction false} FromDistinctPairs<V>(pairs: seq<(string, V)>)
    requires DistinctKeys(pairs)
    ensures FromPairs(pairs) == pairs
  {
    if pairs != [] {
      var init := pairs[..|pairs| - 1];
      var last := pairs[|pairs| - 1];
      assert DistinctKeys(init);
      FromDistinctPairs(init);
      assert forall i :: 0 <= i < |init| ==> Keys(init)[i] != last.0;
      PutNew(init, last.0, last.1);
      ButLast(pairs);
    }
  }

  lemma ButLast<T>(s: seq<T>)
    requires s != []
    ensures s[..|s| - 1] + [s[|s| - 1]] == s
  {
  }

  /** The keys of a sequence of pairs end with the key of its last pair. */
  lemma KeysSnoc<V>(pairs: seq<(string, V)>)
    requires pairs != []
    ensures Keys(pairs) == Keys(pairs[..|pairs| - 1]) + [pairs[|pairs| - 1].0]
  {
  }

  /** Assigning a key the dict does not hold appends the pair. */
  lemma {:induction false} PutNew<V>(d: Entries<V>, k: string, v: V)
    requires k !in Keys(d)
    ensures Put(d, k, v) == d + [(k, v)]
  {
    if d != [] {
      var tail := d[1..];
      assert d[0].0 != k by { assert Keys(d)[0] == d[0].0; }
      assert k !in Keys(tail) by {
        assert forall i :: 0 <= i < |tail| ==> Keys(tail)[i] == Keys(d)[i + 1];
      }
      PutNew(tail, k, v);
      assert Put(d, k, v) == [d[0]] + (tail + [(k, v)]);
      assert [d[0]] + (tail + [(k, v)]) == d + [(k, v)];
    }
  }

  /** The value a comprehension keeps for a key is the last one the pairs give it. */
  lemma {:induction false} FromPairsLast<V>(pairs: seq<(string, V)>, i: nat)
    requires i < |pairs|
    requires forall j :: i < j < |pairs| ==> pairs[j].0 != pairs[i].0
    ensures Get(FromPairs(pairs), pairs[i].0) == Some(pairs[i].1)
  {
    var n := |pairs| - 1;
    if i < n {
      var init := pairs[..n];
      assert init[i] == pairs[i];
      FromPairsLast(init, i);
      assert pairs[n].0 != pairs[i].0;
    }
  }
}
