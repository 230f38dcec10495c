/**
 * Python's `sorted(s, key=key, reverse=True)`: a stable sort on a numeric key,
 * largest key first. `reverse=True` keeps stability: elements with equal keys
 * stay in their original order.
 */
module StableSort {

  /** Keys never increase along s. */
  ghost predicate SortedDesc<T>(s: seq<T>, key: T -> int)
  {
    forall i, j :: 0 <= i < j < |s| ==> key(s[i]) >= key(s[j])
  }

  /** The elements of s whose key is k, in their order in s. */
  function WithKey<T>(s: seq<T>, key: T -> int, k: int): (r: seq<T>)
    ensures |r| <= |s|
  {
    if s == [] then []
    else (if key(s[0]) == k then [s[0]] else []) + WithKey(s[1..], key, k)
  }

  /** WithKey picks elements of s with key k only. */
  lemma {:induction false} WithKeyElems<T>(s: seq<T>, key: T -> int, k: int, x: T)
    requires x in WithKey(s, key, k)
    ensures key(x) == k && x in s
  {
    if s != [] {
      var rest := WithKey(s[1..], key, k);
      if x in rest {
        WithKeyElems(s[1..], key, k, x);
      }
    }
  }

  /** Puts x in front of the first element whose key is not larger than x's. */
  function Insert<T>(x: T, r: seq<T>, key: T -> int): (r': seq<T>)
    ensures multiset(r') == multiset(r) + multiset{x}
  {
    if r == [] || key(x) >= key(r[0]) then [x] + r
    else
      assert r == [r[0]] + r[1..];
      [r[0]] + Insert(x, r[1..], key)
  }

  /** The elements after an insertion: x and those of r. */
  lemma InsertElem<T>(x: T, r: seq<T>, key: T -> int, y: T)
    requires y in Insert(x, r, key)
    ensures y == x || y in r
  {
    assert y in multiset(Insert(x, r, key));
  }

  /** A sorted sequence stays sorted with an element in front whose key is no smaller than any of its. */
  lemma SortedCons<T>(h: T, t: seq<T>, key: T -> int)
    requires SortedDesc(t, key)
    requires forall y :: y in t ==> key(h) >= key(y)
    ensures SortedDesc([h] + t, key)
  {
    var s := [h] + t;
    forall i, j | 0 <= i < j < |s| ensures key(s[i]) >= key(s[j]) {
      assert s[j] == t[j - 1];
      if i > 0 {
        assert s[i] == t[i - 1];
      }
    }
  }

  lemma {:induction false} InsertSorted<T>(x: T, r: seq<T>, key: T -> int)
    requires SortedDesc(r, key)
    ensures SortedDesc(Insert(x, r, key), key)
  {
    if r != [] && key(x) < key(r[0]) {
      var t := r[1..];
      var rest := Insert(x, t, key);
      assert SortedDesc(t, key);
      InsertSorted(x, t, key);
      forall y | y in rest ensures key(r[0]) >= key(y) {
        InsertElem(x, t, key, y);
        if y != x {
          var m :| 0 <= m < |t| && t[m] == y;
          assert t[m] == r[m + 1];
        }
      }
      SortedCons(r[0], rest, key);
      assert Insert(x, r, key) == [r[0]] + rest;
    }
  }

  /** WithKey of a sequence with one more element in front. */
  lemma WithKeyCons<T>(y: T, t: seq<T>, key: T -> int, k: int)
    ensures WithKey([y] + t, key, k) == (if key(y) == k then [y] else []) + WithKey(t, key, k)
  {
    assert ([y] + t)[1..] == t;
  }

  lemma {:induction false} InsertWithKey<T>(x: T, r: seq<T>, key: T -> int, k: int)
    ensures WithKey(Insert(x, r, key), key, k) == WithKey([x] + r, key, k)
  {
    if r != [] && key(x) < key(r[0]) {
      var t := r[1..];
      var inserted := Insert(x, t, key);
      assert r == [r[0]] + t;
      assert Insert(x, r, key) == [r[0]] + inserted;
      InsertWithKey(x, t, key, k);
      WithKeyCons(r[0], inserted, key, k);
      WithKeyCons(x, t, key, k);
      WithKeyCons(x, r, key, k);
      WithKeyCons(r[0], t, key, k);
    }
  }

  /** Inserting x into a stable sort of t gives a stable sort of [x] + t. */
  lemma InsertStep<T>(x: T, t: seq<T>, sorted: seq<T>, key: T -> int)
    requires multiset(sorted) == multiset(t) && SortedDesc(sorted, key)
    requires forall k :: WithKey(sorted, key, k) == WithKey(t, key, k)
    ensures multiset(Insert(x, sorted, key)) == multiset([x] + t)
    ensures SortedDesc(Insert(x, sorted, key), key)
    ensures forall k :: WithKey(Insert(x, sorted, key), key, k) == WithKey([x] + t, key, k)
  {
    InsertSorted(x, sorted, key);
    forall k ensures WithKey(Insert(x, sorted, key), key, k) == WithKey([x] + t, key, k) {
      InsertWithKey(x, sorted, key, k);
      WithKeyCons(x, sorted, key, k);
      WithKeyCons(x, t, key, k);
    }
  }

  /** `sorted(s, key=key, reverse=True)`, as an insertion sort. */
  function SortDescBy<T>(s: seq<T>, key: T -> int): (r: seq<T>)
    ensures multiset(r) == multiset(s)
    ensures SortedDesc(r, key)
    ensures forall k :: WithKey(r, key, k) == WithKey(s, key, k)
  {
    if s == [] then []
    else
      var rest := SortDescBy(s[1..], key);
      InsertStep(s[0], s[1..], rest, key);
      assert s == [s[0]] + s[1..];
      Insert(s[0], rest, key)
  }

  lemma {:induction false} WithKeyMember<T>(s: seq<T>, key: T -> int, i: nat)
    requires i < |s|
    ensures s[i] in WithKey(s, key, key(s[i]))
  {
    if i > 0 {
      WithKeyMember(s[1..], key, i - 1);
    }
  }

  /** The first key of a sorted sequence is its largest. */
  lemma HeadKeyIsMax<T>(a: seq<T>, key: T -> int, x: T, k: int)
    requires SortedDesc(a, key) && a != []
    requires x in WithKey(a, key, k)
    ensures key(a[0]) >= k
  {
    WithKeyElems(a, key, k, x);
    var j :| 0 <= j < |a| && a[j] == x;
  }

  lemma HeadsAgree<T>(a: seq<T>, b: seq<T>, key: T -> int)
    requires SortedDesc(a, key) && SortedDesc(b, key) && a != [] && b != []
    requires forall k :: WithKey(a, key, k) == WithKey(b, key, k)
    ensures a[0] == b[0]
    ensures forall k :: WithKey(a[1..], key, k) == WithKey(b[1..], key, k)
  {
    var ka, kb := key(a[0]), key(b[0]);
    WithKeyMember(a, key, 0);
    WithKeyMember(b, key, 0);
    HeadKeyIsMax(a, key, b[0], kb);
    HeadKeyIsMax(b, key, a[0], ka);
    var wa, wb := WithKey(a, key, ka), WithKey(b, key, ka);
    assert wa == [a[0]] + WithKey(a[1..], key, ka);
    assert wb == [b[0]] + WithKey(b[1..], key, ka);
    assert wa[0] == wb[0];
    assert wa[1..] == wb[1..];
    forall k ensures WithKey(a[1..], key, k) == WithKey(b[1..], key, k) {
      if k != ka {
        assert WithKey(a, key, k) == WithKey(a[1..], key, k);
        assert WithKey(b, key, k) == WithKey(b[1..], key, k);
      }
    }
  }

  /**
   * Sortedness and stability determine the result: any two orderings of the
   * same elements that are both sorted and keep equal keys in the same order
   * are the same sequence. So SortDescBy is the only stable descending sort.
   */
  lemma {:induction false} StableSortUnique<T>(a: seq<T>, b: seq<T>, key: T -> int)
    requires SortedDesc(a, key) && SortedDesc(b, key)
    requires forall k :: WithKey(a, key, k) == WithKey(b, key, k)
    ensures a == b
  {
    if a == [] || b == [] {
      if a != [] {
        WithKeyMember(a, key, 0);
      }
      if b != [] {
        WithKeyMember(b, key, 0);
      }
    } else {
      HeadsAgree(a, b, key);
      StableSortUnique(a[1..], b[1..], key);
      assert a == [a[0]] + a[1..] && b == [b[0]] + b[1..];
    }
  }
}
