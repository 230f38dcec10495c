/**
 * Python's `itertools.groupby(s, key)`: the maximal runs of consecutive
 * elements with equal keys, each with its key, in order. It does not sort:
 * a key that comes back after another key starts a new run.
 */
module GroupBy {
  import opened StableSort

  /** A run: its key and its elements. */
  type Run<T> = (int, seq<T>)

  /** The runs of s, built element by element as the iterator meets them. */
  function Runs<T>(s: seq<T>, key: T -> int): (runs: seq<Run<T>>)
    ensures s == [] <==> runs == []
    ensures s != [] ==> runs[|runs| - 1].0 == key(s[|s| - 1])
  {
    if s == [] then []
    else
      var n := |s| - 1;
      var init := Runs(s[..n], key);
      if init != [] && init[|init| - 1].0 == key(s[n]) then
        init[..|init| - 1] + [(key(s[n]), init[|init| - 1].1 + [s[n]])]
      else
        init + [(key(s[n]), [s[n]])]
  }

  /** The elements of all runs, run after run. */
  function Flatten<T>(runs: seq<Run<T>>): seq<T>
  {
    if runs == [] then [] else Flatten(runs[..|runs| - 1]) + runs[|runs| - 1].1
  }

  /** Every run has at least one element and all its elements have its key. */
  predicate Uniform<T>(runs: seq<Run<T>>, key: T -> int)
  {
    forall i, j :: 0 <= i < |runs| && 0 <= j < |runs[i].1| ==> key(runs[i].1[j]) == runs[i].0
  }

  predicate NonEmptyRuns<T>(runs: seq<Run<T>>)
  {
    forall i :: 0 <= i < |runs| ==> runs[i].1 != []
  }

  /** Neighbouring runs have different keys: every run is maximal. */
  predicate Separated<T>(runs: seq<Run<T>>)
  {
    forall i :: 0 < i < |runs| ==> runs[i - 1].0 != runs[i].0
  }

  lemma FlattenSnoc<T>(runs: seq<Run<T>>, r: Run<T>)
    ensures Flatten(runs + [r]) == Flatten(runs) + r.1
  {
    assert (runs + [r])[..|runs|] == runs;
  }

  /** One more element: if the runs of s without its last element flatten back, so do those of s. */
  lemma {:induction false} RunsFlattenStep<T>(s: seq<T>, key: T -> int)
    requires s != [] && Flatten(Runs(s[..|s| - 1], key)) == s[..|s| - 1]
    ensures Flatten(Runs(s, key)) == s
  {
    var n := |s| - 1;
    var init := Runs(s[..n], key);
    if init != [] && init[|init| - 1].0 == key(s[n]) {
      var k := |init| - 1;
      assert init == init[..k] + [init[k]];
      FlattenSnoc(init[..k], init[k]);
      FlattenSnoc(init[..k], (key(s[n]), init[k].1 + [s[n]]));
    } else {
      FlattenSnoc(init, (key(s[n]), [s[n]]));
    }
    assert s == s[..n] + [s[n]];
  }

  /** Concatenating the runs gives back s. */
  lemma {:induction false} RunsFlatten<T>(s: seq<T>, key: T -> int)
    ensures Flatten(Runs(s, key)) == s
  {
    var i := 0;
    while i < |s|
      invariant i <= |s|
      invariant Flatten(Runs(s[..i], key)) == s[..i]
    {
      i := i + 1;
      assert s[..i][..i - 1] == s[..i - 1];
      RunsFlattenStep(s[..i], key);
    }
    assert s[..|s|] == s;
  }

  /** One more element keeps the runs non-empty and uniform. */
  lemma {:induction false} RunsUniformStep<T>(s: seq<T>, key: T -> int)
    requires s != []
    requires NonEmptyRuns(Runs(s[..|s| - 1], key)) && Uniform(Runs(s[..|s| - 1], key), key)
    ensures NonEmptyRuns(Runs(s, key)) && Uniform(Runs(s, key), key)
  {
    var n := |s| - 1;
    var init := Runs(s[..n], key);
    var runs := Runs(s, key);
    if init != [] && init[|init| - 1].0 == key(s[n]) {
      var k := |init| - 1;
      assert runs[..k] == init[..k];
      assert runs[k] == (key(s[n]), init[k].1 + [s[n]]);
    } else {
      assert runs[..|init|] == init;
    }
  }

  /** Runs are non-empty and hold only elements of their key. */
  lemma {:induction false} RunsUniform<T>(s: seq<T>, key: T -> int)
    ensures NonEmptyRuns(Runs(s, key))
    ensures Uniform(Runs(s, key), key)
  {
    var i := 0;
    while i < |s|
      invariant i <= |s|
      invariant NonEmptyRuns(Runs(s[..i], key)) && Uniform(Runs(s[..i], key), key)
    {
      i := i + 1;
      assert s[..i][..i - 1] == s[..i - 1];
      RunsUniformStep(s[..i], key);
    }
    assert s[..|s|] == s;
  }

  /** Runs are maximal: two neighbouring runs never share a key. */
  lemma {:induction false} RunsSeparated<T>(s: seq<T>, key: T -> int)
    ensures Separated(Runs(s, key))
  {
    if s != [] {
      var n := |s| - 1;
      RunsSeparated(s[..n], key);
      var init := Runs(s[..n], key);
      var runs := Runs(s, key);
      if init != [] && init[|init| - 1].0 == key(s[n]) {
        var k := |init| - 1;
        assert runs[..k] == init[..k];
      } else {
        assert runs[..|init|] == init;
      }
    }
  }

  /** On a sequence sorted by key, largest first, the run keys strictly decrease. */
  lemma {:induction false} SortedRunsDecrease<T>(s: seq<T>, key: T -> int)
    requires SortedDesc(s, key)
    ensures forall i, j :: 0 <= i < j < |Runs(s, key)| ==> Runs(s, key)[i].0 > Runs(s, key)[j].0
  {
    if s != [] {
      var n := |s| - 1;
      assert SortedDesc(s[..n], key);
      SortedRunsDecrease(s[..n], key);
      var init := Runs(s[..n], key);
      var runs := Runs(s, key);
      if init != [] && init[|init| - 1].0 == key(s[n]) {
        var k := |init| - 1;
        assert runs[..k] == init[..k];
      } else {
        assert runs[..|init|] == init;
        if init != [] {
          assert key(s[n - 1]) >= key(s[n]);
        }
      }
    }
  }

  /** Runs hold elements of s only. */
  lemma {:induction false} RunsMembers<T>(s: seq<T>, key: T -> int)
    ensures forall i, j :: 0 <= i < |Runs(s, key)| && 0 <= j < |Runs(s, key)[i].1| ==> Runs(s, key)[i].1[j] in s
  {
    if s != [] {
      var n := |s| - 1;
      RunsMembers(s[..n], key);
      var init := Runs(s[..n], key);
      var runs := Runs(s, key);
      forall i, j | 0 <= i < |runs| && 0 <= j < |runs[i].1| ensures runs[i].1[j] in s {
        if i < |init| && runs[i] == init[i] {
          assert init[i].1[j] in s[..n];
        } else if j < |runs[i].1| - 1 {
          assert i == |init| - 1 && runs[i].1[j] == init[i].1[j];
          assert init[i].1[j] in s[..n];
        }
      }
    }
  }

  /** Appending an element no larger than any before it keeps a sequence sorted. */
  lemma SortedSnoc<T>(r: seq<T>, x: T, key: T -> int)
    requires SortedDesc(r, key)
    requires forall p :: 0 <= p < |r| ==> key(r[p]) >= key(x)
    ensures SortedDesc(r + [x], key)
  {
    var t := r + [x];
    forall p, q | 0 <= p < q < |t| ensures key(t[p]) >= key(t[q]) {
      if q < |r| {
        assert t[p] == r[p] && t[q] == r[q];
      } else {
        assert t[p] == r[p] && t[q] == x;
      }
    }
  }

  /** Every run of a sequence sorted by some key2, largest first, is sorted by key2 too. */
  lemma {:induction false} RunsSorted<T>(s: seq<T>, key: T -> int, key2: T -> int, i: nat)
    requires SortedDesc(s, key2) && i < |Runs(s, key)|
    ensures SortedDesc(Runs(s, key)[i].1, key2)
  {
    var n := |s| - 1;
    assert SortedDesc(s[..n], key2);
    var init := Runs(s[..n], key);
    var runs := Runs(s, key);
    if init != [] && init[|init| - 1].0 == key(s[n]) {
      var k := |init| - 1;
      if i < k {
        assert runs[i] == init[i];
        RunsSorted(s[..n], key, key2, i);
      } else {
        var r := init[k].1;
        assert runs[i].1 == r + [s[n]];
        RunsSorted(s[..n], key, key2, k);
        RunsMembers(s[..n], key);
        forall p | 0 <= p < |r| ensures key2(r[p]) >= key2(s[n]) {
          assert r[p] in s[..n];
        }
        SortedSnoc(r, s[n], key2);
      }
    } else if i < |init| {
      assert runs[i] == init[i];
      RunsSorted(s[..n], key, key2, i);
    } else {
      assert runs[i].1 == [s[n]];
    }
  }

  /** An element of run i has the run's key and is an element of s; the run is not empty. */
  lemma InRun<T>(s: seq<T>, key: T -> int, i: nat, x: T)
    requires i < |Runs(s, key)| && x in Runs(s, key)[i].1
    ensures key(x) == Runs(s, key)[i].0 && x in s
  {
    var runs := Runs(s, key);
    RunsUniform(s, key);
    RunsMembers(s, key);
    var q :| 0 <= q < |runs[i].1| && runs[i].1[q] == x;
  }
}
