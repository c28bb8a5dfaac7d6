/** The group stage: `group_function` (mr.py:15-22). */
module Grouper {
  import opened Dicts
  import opened Mapper

  /** The words that occur in `ps`. */
  function KeysOf(ps: seq<Pair>): set<string> {
    set i | 0 <= i < |ps| :: ps[i].0
  }

  lemma KeysOfSnoc(ps: seq<Pair>, p: Pair)
    ensures KeysOf(ps + [p]) == KeysOf(ps) + {p.0}
  {
    var q := ps + [p];
    forall x | x in KeysOf(q)
      ensures x in KeysOf(ps) + {p.0}
    {
      var i :| 0 <= i < |q| && q[i].0 == x;
      if i < |ps| {
        assert ps[i] == q[i];
      }
    }
    forall x | x in KeysOf(ps) + {p.0}
      ensures x in KeysOf(q)
    {
      if x in KeysOf(ps) {
        var i :| 0 <= i < |ps| && ps[i].0 == x;
        assert q[i] == ps[i];
      } else {
        assert q[|ps|].0 == x;
      }
    }
  }

  /** The values of the pairs in `ps` whose word is `k`, in order. */
  function ValuesOf(ps: seq<Pair>, k: string): seq<int> {
    if ps == [] then []
    else ValuesOf(ps[..|ps| - 1], k) + (if ps[|ps| - 1].0 == k then [ps[|ps| - 1].1] else [])
  }

  /** The list of a word is built in the order of the pairs: the values of a
      concatenation are the values of the first part followed by those of the second. */
  lemma {:induction false} ValuesOfAppend(a: seq<Pair>, b: seq<Pair>, k: string)
    ensures ValuesOf(a + b, k) == ValuesOf(a, k) + ValuesOf(b, k)
    decreases |b|
  {
    if b == [] {
      assert a + b == a;
    } else {
      var init := b[..|b| - 1];
      assert (a + b)[..|a + b| - 1] == a + init;
      ValuesOfAppend(a, init, k);
    }
  }

  /** The distinct words of `ps`, each at the place of its first occurrence. */
  function FirstOccurrences(ps: seq<Pair>): (ks: seq<string>)
    ensures Distinct(ks)
    ensures forall k :: k in ks <==> k in KeysOf(ps)
  {
    if ps == [] then []
    else
      var init := FirstOccurrences(ps[..|ps| - 1]);
      assert ps == ps[..|ps| - 1] + [ps[|ps| - 1]];
      KeysOfSnoc(ps[..|ps| - 1], ps[|ps| - 1]);
      if ps[|ps| - 1].0 in init then init else init + [ps[|ps| - 1].0]
  }

  /** Each word of `ps` with its values. */
  function Groups(ps: seq<Pair>): map<string, seq<int>> {
    map k | k in KeysOf(ps) :: ValuesOf(ps, k)
  }

  /** The dictionary `group_function(ps)` builds, stated without its loop: the keys are
      the words of `ps` in first-occurrence order, and each word maps to its values. */
  function GroupSpec(ps: seq<Pair>): Dict<seq<int>> {
    PyDict(FirstOccurrences(ps), Groups(ps))
  }

  lemma ValuesOfSnoc(ps: seq<Pair>, k: string, v: int, x: string)
    ensures ValuesOf(ps + [(k, v)], x) == ValuesOf(ps, x) + (if x == k then [v] else [])
  {
    assert (ps + [(k, v)])[..|ps|] == ps;
  }

  /** One more pair appends its value to its own word's list and changes no other. */
  lemma GroupsStep(ps: seq<Pair>, k: string, v: int)
    ensures Groups(ps + [(k, v)]) == Groups(ps)[k := ValuesOf(ps, k) + [v]]
  {
    var lhs, rhs := Groups(ps + [(k, v)]), Groups(ps)[k := ValuesOf(ps, k) + [v]];
    KeysOfSnoc(ps, (k, v));
    assert lhs.Keys == rhs.Keys;
    forall x | x in lhs
      ensures lhs[x] == rhs[x]
    {
      ValuesOfSnoc(ps, k, v, x);
    }
  }

  /** One more pair is `d[k] = d[k] + [v]` on the grouped dictionary: only the list of
      its own word changes, and a new word goes at the end of the key order. */
  lemma GroupStep(ps: seq<Pair>, k: string, v: int)
    ensures GroupSpec(ps + [(k, v)]) == Put(GroupSpec(ps), k, ValuesOf(ps, k) + [v])
  {
    var ps' := ps + [(k, v)];
    assert ps'[..|ps'| - 1] == ps;
    GroupsStep(ps, k, v);
  }

  /** A word that does not occur has no values. */
  lemma {:induction false} ValuesOfAbsent(ps: seq<Pair>, k: string)
    ensures k !in KeysOf(ps) <==> ValuesOf(ps, k) == []
    decreases |ps|
  {
    if ps != [] {
      var init := ps[..|ps| - 1];
      assert ps == init + [ps[|ps| - 1]];
      KeysOfSnoc(init, ps[|ps| - 1]);
      ValuesOfAbsent(init, k);
    }
  }

  /** `group_function`: creates a key's list on first sight, then appends to it. */
  method GroupFunction(mapResults: seq<Pair>) returns (groupResults: Dict<seq<int>>)
    ensures groupResults == GroupSpec(mapResults)
  {
    groupResults := Empty();
    for i := 0 to |mapResults|
      invariant groupResults == GroupSpec(mapResults[..i])
    {
      var (key, value) := mapResults[i];
      ghost var prefix := mapResults[..i];
      ghost var before := groupResults;
      ValuesOfAbsent(prefix, key);
      if key !in groupResults.entries {
        groupResults := Put(groupResults, key, []);
      } else {
        PutSame(groupResults, key);
      }
      assert groupResults == Put(before, key, ValuesOf(prefix, key));
      PutTwice(before, key, ValuesOf(prefix, key), ValuesOf(prefix, key) + [value]);
      groupResults := Put(groupResults, key, groupResults.entries[key] + [value]);
      assert groupResults == Put(before, key, ValuesOf(prefix, key) + [value]);
      assert mapResults[..i + 1] == prefix + [(key, value)];
      GroupStep(prefix, key, value);
      assert groupResults == GroupSpec(prefix + [(key, value)]);
    }
    assert mapResults[..|mapResults|] == mapResults;
  }

  /** The index of the first pair whose word is `k`. */
  function FirstIndex(ps: seq<Pair>, k: string): (n: nat)
    requires k in KeysOf(ps)
    ensures n < |ps| && ps[n].0 == k
    ensures forall q :: 0 <= q < n ==> ps[q].0 != k
  {
    if ps[0].0 == k then 0
    else
      assert k in KeysOf(ps[1..]) by {
        var i :| 0 <= i < |ps| && ps[i].0 == k;
        assert ps[1..][i - 1] == ps[i];
      }
      1 + FirstIndex(ps[1..], k)
  }

  lemma FirstIndexExtend(ps: seq<Pair>, p: Pair, k: string)
    requires k in KeysOf(ps)
    ensures k in KeysOf(ps + [p]) && FirstIndex(ps + [p], k) == FirstIndex(ps, k)
  {
    KeysOfSnoc(ps, p);
    var n, n' := FirstIndex(ps, k), FirstIndex(ps + [p], k);
    assert (ps + [p])[n] == ps[n];
    assert !(n' < n) && !(n < n');
  }

  /** The first occurrence of an earlier key comes before that of a later one. */
  lemma {:induction false} FirstOccurrencesOrdered(ps: seq<Pair>)
    ensures forall i, j :: 0 <= i < j < |FirstOccurrences(ps)| ==>
      FirstIndex(ps, FirstOccurrences(ps)[i]) < FirstIndex(ps, FirstOccurrences(ps)[j])
    decreases |ps|
  {
    if ps != [] {
      var init, last := ps[..|ps| - 1], ps[|ps| - 1];
      assert ps == init + [last];
      FirstOccurrencesOrdered(init);
      var ks, ks' := FirstOccurrences(init), FirstOccurrences(ps);
      forall x | x in ks
        ensures FirstIndex(ps, x) == FirstIndex(init, x)
      {
        FirstIndexExtend(init, last, x);
      }
      if last.0 in ks {
        assert ks' == ks;
      } else {
        assert ks' == ks + [last.0];
        KeysOfSnoc(init, last);
        assert FirstIndex(ps, last.0) == |init|;
        forall i, j | 0 <= i < j < |ks'|
          ensures FirstIndex(ps, ks'[i]) < FirstIndex(ps, ks'[j])
        {
          assert ks'[i] == ks[i] && ks[i] in ks;
          if j < |ks| {
            assert ks'[j] == ks[j] && ks[j] in ks;
          }
        }
      }
    }
  }

  /** The keys of the grouped dictionary are in first-occurrence order. */
  lemma GroupKeysInFirstOccurrenceOrder(ps: seq<Pair>)
    ensures forall i, j :: 0 <= i < j < |GroupSpec(ps).keys| ==>
      FirstIndex(ps, GroupSpec(ps).keys[i]) < FirstIndex(ps, GroupSpec(ps).keys[j])
  {
    FirstOccurrencesOrdered(ps);
  }

  /** The lengths of the value lists of the keys `ks`, added up. */
  function TotalLength(ks: seq<string>, m: map<string, seq<int>>): int
    requires forall i :: 0 <= i < |ks| ==> ks[i] in m
  {
    if ks == [] then 0 else TotalLength(ks[..|ks| - 1], m) + |m[ks[|ks| - 1]]|
  }

  /** Adding a pair for `k` lengthens exactly one list among distinct keys `ks`,
      and only if `k` is one of them. */
  lemma {:induction false} TotalLengthBump(ks: seq<string>, ps: seq<Pair>, k: string, v: int)
    requires Distinct(ks)
    requires forall i :: 0 <= i < |ks| ==> ks[i] in KeysOf(ps)
    ensures forall i :: 0 <= i < |ks| ==> ks[i] in KeysOf(ps + [(k, v)])
    ensures TotalLength(ks, GroupSpec(ps + [(k, v)]).entries) ==
      TotalLength(ks, GroupSpec(ps).entries) + (if k in ks then 1 else 0)
    decreases |ks|
  {
    GroupStep(ps, k, v);
    if ks != [] {
      var init := ks[..|ks| - 1];
      TotalLengthBump(init, ps, k, v);
      assert k in ks <==> k in init || k == ks[|ks| - 1];
      assert ks[|ks| - 1] !in init;
    }
  }

  /** `group_function` loses no pair and invents none: the list lengths add up
      to the number of pairs. */
  lemma {:induction false} GroupPreservesPairCount(ps: seq<Pair>)
    ensures TotalLength(GroupSpec(ps).keys, GroupSpec(ps).entries) == |ps|
    decreases |ps|
  {
    if ps != [] {
      var init, last := ps[..|ps| - 1], ps[|ps| - 1];
      assert ps == init + [last];
      GroupPreservesPairCount(init);
      var ks := FirstOccurrences(init);
      TotalLengthBump(ks, init, last.0, last.1);
      GroupStep(init, last.0, last.1);
      if last.0 !in KeysOf(init) {
        var ks' := ks + [last.0];
        assert ks'[..|ks'| - 1] == ks;
        ValuesOfAbsent(init, last.0);
      }
    }
  }

  /** The grouped dictionary has a key for exactly the words that occur in `ps`, and the
      list of a word holds the values of its pairs, in the order of `ps`. */
  lemma GroupKeysAreWords(ps: seq<Pair>)
    ensures forall k :: k in GroupSpec(ps).entries <==> exists i :: 0 <= i < |ps| && ps[i].0 == k
    ensures forall k :: k in GroupSpec(ps).entries ==> GroupSpec(ps).entries[k] == ValuesOf(ps, k)
  {
  }

  /** Every grouped list is non-empty. */
  lemma GroupListsNonEmpty(ps: seq<Pair>)
    ensures forall k :: k in GroupSpec(ps).entries ==> |GroupSpec(ps).entries[k]| > 0
  {
    forall k | k in GroupSpec(ps).entries
      ensures |GroupSpec(ps).entries[k]| > 0
    {
      ValuesOfAbsent(ps, k);
    }
  }
}
