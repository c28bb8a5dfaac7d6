/** The reduce stage: `reduce_function` (mr.py:25-29) and `apply_reduce` (mr.py:32-38). */
module Reducer {
  import opened Dicts

  /** The sum of a list of counts, with Python's unbounded integers. */
  function Sum(xs: seq<int>): int {
    if xs == [] then 0 else Sum(xs[..|xs| - 1]) + xs[|xs| - 1]
  }

  /** `reduce_function`: the key unchanged, and the values added up in an accumulator. */
  method ReduceFunction(key: string, values: seq<int>) returns (k: string, total: int)
    ensures k == key
    ensures total == Sum(values)
  {
    total := 0;
    for i := 0 to |values|
      invariant total == Sum(values[..i])
    {
      assert values[..i + 1][..i] == values[..i];
      total := total + values[i];
    }
    assert values[..|values|] == values;
    k := key;
  }

  lemma {:induction false} SumAppend(a: seq<int>, b: seq<int>)
    ensures Sum(a + b) == Sum(a) + Sum(b)
    decreases |b|
  {
    if b == [] {
      assert a + b == a;
    } else {
      assert (a + b)[..|a + b| - 1] == a + b[..|b| - 1];
      SumAppend(a, b[..|b| - 1]);
    }
  }

  /** The sum of an empty list is 0. */
  lemma SumEmpty()
    ensures Sum([]) == 0
  {
  }

  /** Summation order does not matter: reordering a word's counts leaves the total unchanged. */
  lemma {:induction false} SumPermutation(a: seq<int>, b: seq<int>)
    requires multiset(a) == multiset(b)
    ensures Sum(a) == Sum(b)
    decreases |a|
  {
    if a == [] {
      assert |b| == |multiset(b)| == 0;
    } else {
      var x := a[|a| - 1];
      var init := a[..|a| - 1];
      assert a == init + [x];
      assert x in multiset(b);
      var j :| 0 <= j < |b| && b[j] == x;
      var rest := b[..j] + b[j + 1..];
      assert b == b[..j] + [x] + b[j + 1..];
      assert multiset(b) == multiset(b[..j]) + multiset{x} + multiset(b[j + 1..]);
      assert multiset(a) == multiset(init) + multiset{x};
      assert multiset(rest) == multiset(b[..j]) + multiset(b[j + 1..]);
      assert multiset(init) == multiset(a) - multiset{x};
      assert multiset(rest) == multiset(b) - multiset{x};
      SumPermutation(init, rest);
      SumAppend(b[..j], [x]);
      SumAppend(b[..j] + [x], b[j + 1..]);
      SumAppend(b[..j], b[j + 1..]);
    }
  }

  /** A list of ones adds up to its length. */
  lemma {:induction false} SumOfOnes(xs: seq<int>)
    requires forall i :: 0 <= i < |xs| ==> xs[i] == 1
    ensures Sum(xs) == |xs|
    decreases |xs|
  {
    if xs != [] {
      SumOfOnes(xs[..|xs| - 1]);
    }
  }

  /** What `apply_reduce(g)` returns, stated without its loop: the same keys in the
      same order, each with the sum of its list. */
  function ReduceSpec(g: Dict<seq<int>>): Dict<int> {
    PyDict(g.keys, map k | k in g.entries :: Sum(g.entries[k]))
  }

  /** The sums of the lists of those keys of `ks` that `g` holds. */
  function SumsOf(g: Dict<seq<int>>, ks: seq<string>): map<string, int> {
    map k | k in ks && k in g.entries :: Sum(g.entries[k])
  }

  lemma SumsOfSnoc(g: Dict<seq<int>>, ks: seq<string>, k: string)
    requires k in g.entries
    ensures SumsOf(g, ks + [k]) == SumsOf(g, ks)[k := Sum(g.entries[k])]
  {
    var l, r := SumsOf(g, ks + [k]), SumsOf(g, ks)[k := Sum(g.entries[k])];
    assert forall x :: x in ks + [k] <==> x in ks || x == k;
    assert l.Keys == r.Keys;
  }

  /** `apply_reduce`: one `reduce_function` call per item, in the dictionary's order. */
  method ApplyReduce(groupResults: Dict<seq<int>>) returns (reduceResults: Dict<int>)
    ensures reduceResults == ReduceSpec(groupResults)
  {
    var keys := groupResults.keys;
    reduceResults := Empty();
    for i := 0 to |keys|
      invariant reduceResults == PyDict(keys[..i], SumsOf(groupResults, keys[..i]))
    {
      var key := keys[i];
      var values := groupResults.entries[key];
      var _, count := ReduceFunction(key, values);
      ReduceStep(groupResults, i, reduceResults, count);
      reduceResults := Put(reduceResults, key, count);
    }
    assert keys[..|keys|] == keys;
    SumsOfAllKeys(groupResults);
  }

  /** One iteration of `apply_reduce`: storing the sum of the next key's list extends
      the result by that key. */
  lemma ReduceStep(g: Dict<seq<int>>, i: nat, d: Dict<int>, count: int)
    requires i < |g.keys|
    requires d == PyDict(g.keys[..i], SumsOf(g, g.keys[..i]))
    requires count == Sum(g.entries[g.keys[i]])
    ensures Put(d, g.keys[i], count) == PyDict(g.keys[..i + 1], SumsOf(g, g.keys[..i + 1]))
  {
    var key := g.keys[i];
    assert key !in g.keys[..i];
    assert key !in d.entries;
    assert g.keys[..i + 1] == g.keys[..i] + [key];
    SumsOfSnoc(g, g.keys[..i], key);
  }

  lemma SumsOfAllKeys(g: Dict<seq<int>>)
    ensures SumsOf(g, g.keys) == ReduceSpec(g).entries
  {
  }
}
