/** The orchestrator `count_words` (mr.py:56-76) and the end-to-end properties of
    map, group and reduce composed. */
module Pipeline {
  import opened Text
  import opened Dicts
  import opened Mapper
  import opened Grouper
  import opened Reducer
  import opened Filter

  datatype Option<T> = None | Some(value: T)

  /** The word totals `apply_reduce(group_function(apply_map(corpus)))`, stated without loops. */
  function Totals(corpus: seq<string>): Dict<int> {
    ReduceSpec(GroupSpec(MapCorpus(corpus)))
  }

  /** How often `w` occurs as a token of the lower-cased corpus. */
  function Occurrences(corpus: seq<string>, w: string): nat {
    CountOf(Tokens(corpus), w)
  }

  /** `count_words`: map, group, reduce, and filter when a threshold is given. */
  method CountWords(corpus: seq<string>, filter: Option<int>) returns (r: Dict<int>)
    ensures filter.None? ==> r == Totals(corpus)
    ensures filter.Some? ==> r == FilterFunction(Totals(corpus), filter.value)
  {
    var mapResults := ApplyMap(corpus);
    var groupResults := GroupFunction(mapResults);
    var reduceResults := ApplyReduce(groupResults);
    if filter.None? {
      r := reduceResults;
    } else {
      r := FilterFunction(reduceResults, filter.value);
    }
  }

  /** Grouping the pairs `(t, 1)` of tokens `ts` collects, for each word, one 1 per occurrence. */
  lemma {:induction false} ValuesOfEmit(ts: seq<string>, w: string)
    ensures w in KeysOf(Emit(ts)) <==> w in ts
    ensures |ValuesOf(Emit(ts), w)| == CountOf(ts, w)
    ensures forall i :: 0 <= i < |ValuesOf(Emit(ts), w)| ==> ValuesOf(Emit(ts), w)[i] == 1
    decreases |ts|
  {
    if ts != [] {
      var init, x := ts[..|ts| - 1], ts[|ts| - 1];
      assert ts == init + [x];
      ValuesOfEmit(init, w);
      EmitAppend(init, [x]);
      assert Emit([x]) == [(x, 1)];
      var ps := Emit(ts);
      assert ps == Emit(init) + [(x, 1)];
      assert ps[..|ps| - 1] == Emit(init);
      KeysOfSnoc(Emit(init), (x, 1));
      assert w in ts <==> w in init || w == x;
    }
  }

  /** Each word's total is its number of occurrences in the lower-cased corpus, and
      exactly the words that occur have a total. */
  lemma TotalsAreOccurrences(corpus: seq<string>, w: string)
    ensures w in Totals(corpus).entries <==> Occurrences(corpus, w) > 0
    ensures w in Totals(corpus).entries ==> Totals(corpus).entries[w] == Occurrences(corpus, w)
  {
    var ts := Tokens(corpus);
    MapCorpusIsEmitTokens(corpus);
    ValuesOfEmit(ts, w);
    CountOfIsMultiplicity(ts, w);
    if w in Totals(corpus).entries {
      SumOfOnes(ValuesOf(Emit(ts), w));
    }
  }

  /** The totals of the keys `ks`, added up. */
  function SumOfTotals(ks: seq<string>, m: map<string, int>): int
    requires forall i :: 0 <= i < |ks| ==> ks[i] in m
  {
    if ks == [] then 0 else SumOfTotals(ks[..|ks| - 1], m) + m[ks[|ks| - 1]]
  }

  /** When every list holds only ones, summing each list and adding up the sums
      gives the added-up lengths. */
  lemma {:induction false} SumOfTotalsIsTotalLength(ks: seq<string>, g: Dict<seq<int>>)
    requires forall i :: 0 <= i < |ks| ==> ks[i] in g.entries
    requires forall k, i :: k in g.entries && 0 <= i < |g.entries[k]| ==> g.entries[k][i] == 1
    ensures forall i :: 0 <= i < |ks| ==> ks[i] in ReduceSpec(g).entries
    ensures SumOfTotals(ks, ReduceSpec(g).entries) == TotalLength(ks, g.entries)
    decreases |ks|
  {
    if ks != [] {
      SumOfTotalsIsTotalLength(ks[..|ks| - 1], g);
      SumOfOnes(g.entries[ks[|ks| - 1]]);
    }
  }

  /** The totals over all words add up to the number of tokens in the corpus. */
  lemma TotalsSumToTokenCount(corpus: seq<string>)
    ensures SumOfTotals(Totals(corpus).keys, Totals(corpus).entries) == TokenCount(corpus)
  {
    var ts := Tokens(corpus);
    var g := GroupSpec(MapCorpus(corpus));
    MapCorpusIsEmitTokens(corpus);
    MapCorpusLength(corpus);
    forall k, i | k in g.entries && 0 <= i < |g.entries[k]|
      ensures g.entries[k][i] == 1
    {
      ValuesOfEmit(ts, k);
    }
    SumOfTotalsIsTotalLength(g.keys, g);
    GroupPreservesPairCount(MapCorpus(corpus));
  }

  /** With a threshold, `count_words` keeps exactly the occurring words whose number of
      occurrences reaches it, each with that number as its value. */
  lemma FilteredCountsAreOccurrences(corpus: seq<string>, t: int, w: string)
    ensures w in FilterFunction(Totals(corpus), t).entries <==>
      Occurrences(corpus, w) > 0 && Occurrences(corpus, w) >= t
    ensures w in FilterFunction(Totals(corpus), t).entries ==>
      FilterFunction(Totals(corpus), t).entries[w] == Occurrences(corpus, w)
  {
    TotalsAreOccurrences(corpus, w);
  }
}
