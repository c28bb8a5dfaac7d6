/** The filter stage: `filter_function` (mr.py:41-42). */
module Filter {
  import opened Dicts

  /** The default of `min_occurrences`. */
  const DefaultMinOccurrences: int := 4

  /** The keys of `ks`, in order, whose value in `m` is at least `t`. */
  function KeepKeys(ks: seq<string>, m: map<string, int>, t: int): (r: seq<string>)
    ensures forall k :: k in r <==> k in ks && k in m && m[k] >= t
    ensures Distinct(ks) ==> Distinct(r)
    ensures |r| <= |ks|
  {
    if ks == [] then []
    else
      var rest := KeepKeys(ks[1..], m, t);
      assert forall k :: k in ks <==> k == ks[0] || k in ks[1..];
      if ks[0] in m && m[ks[0]] >= t then [ks[0]] + rest else rest
  }

  /** `ks` occurs in `big` in the same relative order. */
  predicate IsSubsequence(ks: seq<string>, big: seq<string>)
    decreases |big|
  {
    if ks == [] then true
    else if big == [] then false
    else if ks[0] == big[0] then IsSubsequence(ks[1..], big[1..])
    else IsSubsequence(ks, big[1..])
  }

  lemma {:induction false} KeepKeysIsSubsequence(ks: seq<string>, m: map<string, int>, t: int)
    ensures IsSubsequence(KeepKeys(ks, m, t), ks)
    decreases |ks|
  {
    if ks != [] {
      KeepKeysIsSubsequence(ks[1..], m, t);
    }
  }

  /** `filter_function`: the dictionary comprehension over `results.items()`. The result
      is a restriction of its input: exactly the entries whose value reaches the
      threshold, with their values unchanged, in the input's key order. */
  function FilterFunction(results: Dict<int>, minOccurrences: int): (r: Dict<int>)
    ensures forall k :: k in r.entries <==> k in results.entries && results.entries[k] >= minOccurrences
    ensures forall k :: k in r.entries ==> r.entries[k] == results.entries[k]
    ensures IsSubsequence(r.keys, results.keys)
  {
    KeepKeysIsSubsequence(results.keys, results.entries, minOccurrences);
    PyDict(
      KeepKeys(results.keys, results.entries, minOccurrences),
      map k | k in results.entries && results.entries[k] >= minOccurrences :: results.entries[k])
  }

  /** `filter_function(results)`: the default threshold keeps the entries of at least 4. */
  function FilterDefault(results: Dict<int>): (r: Dict<int>)
    ensures forall k :: k in r.entries <==> k in results.entries && results.entries[k] >= 4
    ensures forall k :: k in r.entries ==> r.entries[k] == results.entries[k]
  {
    FilterFunction(results, DefaultMinOccurrences)
  }

  /** A larger threshold keeps a subset of the entries. */
  lemma FilterAntitone(results: Dict<int>, t1: int, t2: int)
    requires t1 <= t2
    ensures FilterFunction(results, t2).entries.Keys <= FilterFunction(results, t1).entries.Keys
  {
  }

  /** Filtering twice with the same threshold changes nothing the second time. */
  lemma {:induction false} KeepKeysIdempotent(ks: seq<string>, m: map<string, int>, t: int)
    ensures KeepKeys(KeepKeys(ks, m, t), m, t) == KeepKeys(ks, m, t)
    decreases |ks|
  {
    if ks != [] {
      KeepKeysIdempotent(ks[1..], m, t);
      var rest := KeepKeys(ks[1..], m, t);
      if ks[0] in m && m[ks[0]] >= t {
        assert ([ks[0]] + rest)[1..] == rest;
      }
    }
  }

  lemma FilterIdempotent(results: Dict<int>, t: int)
    ensures FilterFunction(FilterFunction(results, t), t) == FilterFunction(results, t)
  {
    KeepKeysIdempotent(results.keys, results.entries, t);
    var once := FilterFunction(results, t);
    KeepKeysRestrict(results.keys, results.entries, once.entries, t);
  }

  /** Filtering a key list against the filtered map gives the same keys. */
  lemma {:induction false} KeepKeysRestrict(ks: seq<string>, m: map<string, int>, m': map<string, int>, t: int)
    requires forall k :: k in m' <==> k in m && m[k] >= t
    requires forall k :: k in m' ==> m'[k] == m[k]
    ensures KeepKeys(KeepKeys(ks, m, t), m', t) == KeepKeys(KeepKeys(ks, m, t), m, t)
    decreases |ks|
  {
    if ks != [] {
      KeepKeysRestrict(ks[1..], m, m', t);
      var rest := KeepKeys(ks[1..], m, t);
      if ks[0] in m && m[ks[0]] >= t {
        assert ([ks[0]] + rest)[1..] == rest;
      }
    }
  }
}
