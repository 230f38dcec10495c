/**
 * Python's built-in `dict` as the builder script uses it: an insertion-ordered
 * collection of (key, value) pairs. `d[k] = v` on a key already present replaces
 * its value in place and keeps the key's position; on a new key it appends.
 * Iteration (`d.items()`) is the sequence itself.
 */
module PyDict {
  import opened Options

  type Dict<K, V> = seq<(K, V)>

  predicate Distinct<T(==)>(s: seq<T>)
  {
    forall i, j :: 0 <= i < j < |s| ==> s[i] != s[j]
  }

  /** The keys, in iteration order. */
  function Keys<K, V>(d: Dict<K, V>): (ks: seq<K>)
    ensures |ks| == |d|
    ensures forall i :: 0 <= i < |d| ==> ks[i] == d[i].0
  {
    seq(|d|, i requires 0 <= i < |d| => d[i].0)
  }

  /** What every Python dict satisfies: no key occurs twice. */
  predicate ValidDict<K(==), V>(d: Dict<K, V>)
  {
    Distinct(Keys(d))
  }

  /** The position of the first pair with key k at or after i, or |d|. */
  function KeyIndex<K(==), V>(d: Dict<K, V>, k: K, i: nat): (j: nat)
    requires i <= |d|
    ensures i <= j <= |d|
    ensures forall p :: i <= p < j ==> d[p].0 != k
    ensures j < |d| ==> d[j].0 == k
    decreases |d| - i
  {
    if i == |d| || d[i].0 == k then i else KeyIndex(d, k, i + 1)
  }

  /** `d.get(k)`: the value stored under k, if any. */
  function Get<K(==), V>(d: Dict<K, V>, k: K): (r: Option<V>)
    ensures r.None? <==> k !in Keys(d)
    ensures r.Some? ==> (k, r.value) in d
  {
    var j := KeyIndex(d, k, 0);
    assert j < |d| ==> Keys(d)[j] == k;
    if j < |d| then Some(d[j].1) else None
  }

  /** In a dict, the pair at position i is what its key gives. */
  lemma GetAt<K, V>(d: Dict<K, V>, i: nat)
    requires ValidDict(d) && i < |d|
    ensures Get(d, d[i].0) == Some(d[i].1)
  {
    var j := KeyIndex(d, d[i].0, 0);
    assert Keys(d)[j] == Keys(d)[i];
  }

  /** `d[k] = v`. */
  function Put<K(==), V>(d: Dict<K, V>, k: K, v: V): (r: Dict<K, V>)
    ensures Keys(r) == if k in Keys(d) then Keys(d) else Keys(d) + [k]
    ensures ValidDict(d) ==> ValidDict(r)
  {
    var j := KeyIndex(d, k, 0);
    assert j < |d| ==> Keys(d)[j] == k;
    if j < |d| then
      var r := d[j := (k, v)];
      assert Keys(r) == Keys(d);
      r
    else
      var r := d + [(k, v)];
      assert Keys(r) == Keys(d) + [k];
      r
  }

  /** Every entry after `d[k] = v` is the new pair or was already in d. */
  lemma PutFrom<K, V>(d: Dict<K, V>, k: K, v: V, i: nat)
    requires i < |Put(d, k, v)|
    ensures Put(d, k, v)[i] == (k, v) || Put(d, k, v)[i] in d
  {
  }

  /** Reading back after `d[k] = v`: k now gives v, every other key what it gave before. */
  lemma GetPut<K, V>(d: Dict<K, V>, k: K, v: V, k': K)
    ensures Get(Put(d, k, v), k') == if k' == k then Some(v) else Get(d, k')
  {
    var r := Put(d, k, v);
    var j := KeyIndex(d, k, 0);
    var j' := KeyIndex(d, k', 0);
    var jr := KeyIndex(r, k', 0);
    if k' == k {
      if j < |d| {
        assert r[j].0 == k;
      } else {
        assert r[|d|].0 == k;
      }
      assert jr == j;
    } else if j' < |d| {
      assert r[j'] == d[j'];
      assert forall p :: 0 <= p < j' ==> r[p].0 != k';
      assert jr == j';
    }
  }

  /** Building a dict by assigning each pair in turn: `for k, v in pairs: d[k] = v`. */
  function FromPairs<K(==,!new), V>(pairs: seq<(K, V)>): (d: Dict<K, V>)
    ensures ValidDict(d)
  {
    if pairs == [] then []
    else
      var n := |pairs| - 1;
      Put(FromPairs(pairs[..n]), pairs[n].0, pairs[n].1)
  }

  /** Every entry of the built dict is one of the pairs assigned. */
  lemma {:induction false} FromPairsFrom<K(!new), V>(pairs: seq<(K, V)>, i: nat)
    requires i < |FromPairs(pairs)|
    ensures FromPairs(pairs)[i] in pairs
  {
    var n := |pairs| - 1;
    var init := FromPairs(pairs[..n]);
    var d := FromPairs(pairs);
    assert d == Put(init, pairs[n].0, pairs[n].1);
    PutFrom(init, pairs[n].0, pairs[n].1, i);
    if d[i] != pairs[n] {
      var j :| 0 <= j < |init| && init[j] == d[i];
      FromPairsFrom(pairs[..n], j);
      assert init[j] in pairs[..n];
    }
  }

  /** The distinct elements of s, each kept at its first occurrence. */
  function Dedup<T(==,!new)>(s: seq<T>): (r: seq<T>)
    ensures Distinct(r)
  {
    if s == [] then []
    else
      var n := |s| - 1;
      var r := Dedup(s[..n]);
      assert s == s[..n] + [s[n]];
      if s[n] in r then r else r + [s[n]]
  }

  /** Dedup drops repeats only: it keeps every element of s and adds none. */
  lemma {:induction false} DedupMembers<T(!new)>(s: seq<T>, x: T)
    ensures x in Dedup(s) <==> x in s
  {
    if s != [] {
      var n := |s| - 1;
      DedupMembers(s[..n], x);
      assert s == s[..n] + [s[n]];
    }
  }

  /** One more assignment of the loop `for k, v in pairs: d[k] = v`. */
  lemma FromPairsStep<K(!new), V>(pairs: seq<(K, V)>, i: nat)
    requires i < |pairs|
    ensures FromPairs(pairs[..i + 1]) == Put(FromPairs(pairs[..i]), pairs[i].0, pairs[i].1)
  {
    assert pairs[..i + 1][..i] == pairs[..i];
  }

  /** Dedup of a sequence grown by one element. */
  lemma DedupSnoc<T(!new)>(s: seq<T>, x: T)
    ensures Dedup(s + [x]) == if x in Dedup(s) then Dedup(s) else Dedup(s) + [x]
  {
    assert (s + [x])[..|s|] == s;
  }

  /** The empty prefix of s adds nothing after seen. */
  lemma PrefixEmpty<T>(seen: seq<T>, s: seq<T>)
    ensures seen + s[..0] == seen
  {
    assert s[..0] == [];
  }

  /** The prefix of s as long as s is s. */
  lemma PrefixAll<T>(s: seq<T>)
    ensures s[..|s|] == s
  {
  }

  /** A longer prefix of s, after seen: one more element at the end. */
  lemma PrefixSnoc<T>(seen: seq<T>, s: seq<T>, m: nat)
    requires 0 < m <= |s|
    ensures seen + s[..m] == (seen + s[..m - 1]) + [s[m - 1]]
  {
    assert s[..m] == s[..m - 1] + [s[m - 1]];
  }

  /** Assigning a key extends the first-assignment order of the keys by it. */
  lemma PutKeysDedup<K(!new), V>(d: Dict<K, V>, k: K, v: V, seen: seq<K>)
    requires Keys(d) == Dedup(seen)
    ensures Keys(Put(d, k, v)) == Dedup(seen + [k])
  {
    DedupSnoc(seen, k);
  }

  lemma PutNew<K, V>(d: Dict<K, V>, k: K, v: V)
    requires k !in Keys(d)
    ensures Put(d, k, v) == d + [(k, v)]
  {
    assert KeyIndex(d, k, 0) == |d|;
  }

  /** Keys end up in the order of their first assignment. */
  lemma {:induction false} FromPairsKeys<K(!new), V>(pairs: seq<(K, V)>)
    ensures Keys(FromPairs(pairs)) == Dedup(Keys(pairs))
  {
    if pairs != [] {
      var n := |pairs| - 1;
      FromPairsKeys(pairs[..n]);
      assert Keys(pairs)[..n] == Keys(pairs[..n]);
    }
  }

  /** Assigning pairs whose keys are already distinct rebuilds exactly those pairs. */
  lemma {:induction false} FromDistinctPairs<K(!new), V>(pairs: seq<(K, V)>)
    requires ValidDict(pairs)
    ensures FromPairs(pairs) == pairs
  {
    if pairs != [] {
      var n := |pairs| - 1;
      var init := pairs[..n];
      assert Keys(init) == Keys(pairs)[..n];
      FromDistinctPairs(init);
      assert pairs[n].0 !in Keys(init) by {
        forall j | 0 <= j < n ensures Keys(init)[j] != pairs[n].0 {
          assert Keys(pairs)[j] != Keys(pairs)[n];
        }
      }
      assert FromPairs(pairs) == Put(FromPairs(init), pairs[n].0, pairs[n].1);
      PutNew(init, pairs[n].0, pairs[n].1);
      assert init + [pairs[n]] == pairs;
    }
  }

  /** Assigning pairs[m] keeps the value of any other key. */
  lemma FromPairsOther<K(!new), V>(pairs: seq<(K, V)>, m: nat, k: K)
    requires m < |pairs| && pairs[m].0 != k
    ensures Get(FromPairs(pairs[..m + 1]), k) == Get(FromPairs(pairs[..m]), k)
  {
    FromPairsStep(pairs, m);
    GetPut(FromPairs(pairs[..m]), pairs[m].0, pairs[m].1, k);
  }

  /** Right after assigning pairs[i], its key gives its value. */
  lemma FromPairsJustSet<K(!new), V>(pairs: seq<(K, V)>, i: nat)
    requires i < |pairs|
    ensures Get(FromPairs(pairs[..i + 1]), pairs[i].0) == Some(pairs[i].1)
  {
    FromPairsStep(pairs, i);
    GetPut(FromPairs(pairs[..i]), pairs[i].0, pairs[i].1, pairs[i].0);
  }

  /** Last write wins: a key ends up with the value of its last assignment. */
  lemma {:induction false} FromPairsLastWins<K(!new), V>(pairs: seq<(K, V)>, i: nat)
    requires i < |pairs|
    requires forall j :: i < j < |pairs| ==> pairs[j].0 != pairs[i].0
    ensures Get(FromPairs(pairs), pairs[i].0) == Some(pairs[i].1)
  {
    var n := |pairs| - 1;
    PrefixAll(pairs);
    if i == n {
      FromPairsJustSet(pairs, i);
    } else {
      var init := pairs[..n];
      assert init[i] == pairs[i];
      forall j | i < j < |init| ensures init[j].0 != init[i].0 {
        assert init[j] == pairs[j];
      }
      FromPairsLastWins(init, i);
      FromPairsOther(pairs, n, pairs[i].0);
    }
  }

  /** A sequence without repeats holds each value at most once. */
  lemma {:induction false} DistinctCount<T>(s: seq<T>, x: T)
    requires Distinct(s)
    ensures multiset(s)[x] <= 1
  {
    if s != [] {
      var n := |s| - 1;
      assert s == s[..n] + [s[n]];
      assert Distinct(s[..n]);
      DistinctCount(s[..n], x);
      if x == s[n] {
        assert x !in s[..n];
      }
    }
  }

  /** A value at two positions is held at least twice. */
  lemma RepeatCount<T>(s: seq<T>, i: nat, j: nat)
    requires i < j < |s| && s[i] == s[j]
    ensures multiset(s)[s[i]] >= 2
  {
    assert s == s[..j] + s[j..];
    assert s[i] in multiset(s[..j]);
    assert s[j] in multiset(s[j..]);
  }

  /** A dict's pairs are distinct, since its keys are. */
  lemma DictPairsDistinct<K, V>(d: Dict<K, V>)
    requires ValidDict(d)
    ensures Distinct(d)
  {
    forall i, j | 0 <= i < j < |d| ensures d[i] != d[j] {
      assert Keys(d)[i] != Keys(d)[j];
    }
  }

  /** Two pairs of a dict with the same key are the same pair. */
  lemma SameKeySamePair<K, V>(d: Dict<K, V>, x: (K, V), y: (K, V))
    requires ValidDict(d) && x in d && y in d
    ensures x.0 == y.0 ==> x == y
  {
    var p :| 0 <= p < |d| && d[p] == x;
    var q :| 0 <= q < |d| && d[q] == y;
    assert Keys(d)[p] == x.0 && Keys(d)[q] == y.0;
  }

  /** Reordering a dict's pairs gives a dict. */
  lemma PermutedDict<K, V>(a: Dict<K, V>, b: Dict<K, V>)
    requires ValidDict(a) && multiset(a) == multiset(b)
    ensures ValidDict(b)
  {
    DictPairsDistinct(a);
    forall i, j | 0 <= i < j < |b| ensures Keys(b)[i] != Keys(b)[j] {
      DistinctCount(a, b[i]);
      if b[i] == b[j] {
        RepeatCount(b, i, j);
        assert false;
      }
      assert b[i] in multiset(a) && b[j] in multiset(a);
      SameKeySamePair(a, b[i], b[j]);
    }
  }

  /** Two orderings of the same dict give the same value for every key. */
  lemma GetPermuted<K, V>(a: Dict<K, V>, b: Dict<K, V>, k: K)
    requires ValidDict(a) && multiset(a) == multiset(b)
    ensures Get(a, k) == Get(b, k)
  {
    PermutedDict(a, b);
    if k in Keys(a) {
      var v := Get(a, k).value;
      assert (k, v) in multiset(b);
      var i :| 0 <= i < |b| && b[i] == (k, v);
      GetAt(b, i);
    } else {
      forall i | 0 <= i < |b| ensures Keys(b)[i] != k {
        assert b[i] in multiset(a);
        var p :| 0 <= p < |a| && a[p] == b[i];
        assert Keys(a)[p] == b[i].0;
      }
    }
  }
}
