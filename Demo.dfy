/** The toy corpus of the `__main__` block (mr.py:105-110) and the totals mr.py:118-128
    expects for it. */
module Demo {
  import opened Text
  import opened Dicts
  import opened Mapper
  import opened Filter
  import opened Pipeline

  /** Words joined by single spaces. */
  function Sentence(ws: seq<string>): string {
    if |ws| <= 1 then (if ws == [] then [] else ws[0])
    else Sentence(ws[..|ws| - 1]) + " " + ws[|ws| - 1]
  }

  function LowerAll(ws: seq<string>): seq<string> {
    seq(|ws|, i requires 0 <= i < |ws| => Lower(ws[i]))
  }

  /** Splitting words joined by single spaces gives back the words. */
  lemma {:induction false} WordsOfSentence(ws: seq<string>)
    requires forall i :: 0 <= i < |ws| ==> IsWord(ws[i])
    ensures Words(Sentence(ws)) == ws
    decreases |ws|
  {
    if |ws| == 1 {
      WordsOfWord(ws[0]);
    } else if |ws| > 1 {
      var init, last := ws[..|ws| - 1], ws[|ws| - 1];
      WordsOfSentence(init);
      WordsOfWord(last);
      WordsSplitAtSpace(Sentence(init), ' ', last);
      assert ws == init + [last];
    }
  }

  lemma {:induction false} LowerSentence(ws: seq<string>)
    ensures Lower(Sentence(ws)) == Sentence(LowerAll(ws))
    decreases |ws|
  {
    if |ws| > 1 {
      var init, last := ws[..|ws| - 1], ws[|ws| - 1];
      LowerSentence(init);
      LowerAppend(Sentence(init) + " ", last);
      LowerAppend(Sentence(init), " ");
      assert LowerAll(ws)[..|ws| - 1] == LowerAll(init);
    }
  }

  lemma {:induction false} SentenceAppend(a: seq<string>, b: seq<string>)
    requires a != [] && b != []
    ensures Sentence(a + b) == Sentence(a) + " " + Sentence(b)
    decreases |b|
  {
    if |b| == 1 {
      assert (a + b)[..|a + b| - 1] == a;
    } else {
      var init := b[..|b| - 1];
      assert (a + b)[..|a + b| - 1] == a + init;
      SentenceAppend(a, init);
    }
  }

  const Words1: seq<string> := ["Lorem", "ipsum", "dolor", "sit", "amet,", "consetetur", "et", "sadipscing", "elitr."]
  const Words2: seq<string> := ["At", "vero", "lorem", "et", "accusam", "et", "justo", "duo", "ipsum", "et", "ea", "rebum."]

  /** `text_1` and `text_1b`: "Lorem ipsum dolor sit amet, consetetur et sadipscing elitr." */
  const Text1: string := Sentence(Words1)
  /** `text_2`: "At vero lorem et accusam et justo duo ipsum et ea rebum." */
  const Text2: string := Sentence(Words2)
  /** `text_2b`: `text_2` twice, separated by one space. */
  const Text2b: string := Sentence(Words2 + Words2)

  /** `text_2b` is `text_2`, a space, and `text_2` again. */
  lemma Text2bIsText2Twice()
    ensures Text2b == Text2 + " " + Text2
  {
    SentenceAppend(Words2, Words2);
  }

  /** Three words joined by single spaces. */
  lemma SentenceOfThree(a: string, b: string, c: string)
    ensures Sentence([a, b, c]) == a + " " + b + " " + c
  {
    assert [a, b][..1] == [a];
    assert Sentence([a, b]) == a + " " + b;
    assert [a, b, c][..2] == [a, b];
    assert Sentence([a, b, c]) == Sentence([a, b]) + " " + c;
  }

  lemma Text1Chunk1()
    ensures Sentence(["Lorem", "ipsum", "dolor"]) == "Lorem ipsum dolor"
  {
    SentenceOfThree("Lorem", "ipsum", "dolor");
  }

  lemma Text1Chunk2()
    ensures Sentence(["sit", "amet,", "consetetur"]) == "sit amet, consetetur"
  {
    SentenceOfThree("sit", "amet,", "consetetur");
  }

  lemma Text1Chunk3()
    ensures Sentence(["et", "sadipscing", "elitr."]) == "et sadipscing elitr."
  {
    SentenceOfThree("et", "sadipscing", "elitr.");
  }

  lemma Text1Join1()
    ensures "Lorem ipsum dolor" + " " + "sit amet, consetetur" == "Lorem ipsum dolor sit amet, consetetur"
  {
  }

  lemma Text1Join2()
    ensures "Lorem ipsum dolor sit amet, consetetur" + " " + "et sadipscing elitr." == "Lorem ipsum dolor sit amet, consetetur et sadipscing elitr."
  {
  }

  lemma Text2Chunk1()
    ensures Sentence(["At", "vero", "lorem"]) == "At vero lorem"
  {
    SentenceOfThree("At", "vero", "lorem");
  }

  lemma Text2Chunk2()
    ensures Sentence(["et", "accusam", "et"]) == "et accusam et"
  {
    SentenceOfThree("et", "accusam", "et");
  }

  lemma Text2Chunk3()
    ensures Sentence(["justo", "duo", "ipsum"]) == "justo duo ipsum"
  {
    SentenceOfThree("justo", "duo", "ipsum");
  }

  lemma Text2Chunk4()
    ensures Sentence(["et", "ea", "rebum."]) == "et ea rebum."
  {
    SentenceOfThree("et", "ea", "rebum.");
  }

  lemma Text2Join1()
    ensures "At vero lorem" + " " + "et accusam et" == "At vero lorem et accusam et"
  {
  }

  lemma Text2Join2()
    ensures "At vero lorem et accusam et" + " " + "justo duo ipsum" == "At vero lorem et accusam et justo duo ipsum"
  {
  }

  lemma Text2Join3()
    ensures "At vero lorem et accusam et justo duo ipsum" + " " + "et ea rebum." == "At vero lorem et accusam et justo duo ipsum et ea rebum."
  {
  }

  /** `text_1` and `text_1b` are the literal of mr.py:105-106. */
  lemma Text1Literal()
    ensures Text1 == "Lorem ipsum dolor sit amet, consetetur et sadipscing elitr."
  {
    assert Words1 == ["Lorem", "ipsum", "dolor"] + ["sit", "amet,", "consetetur"] + ["et", "sadipscing", "elitr."];
    SentenceAppend(["Lorem", "ipsum", "dolor"] + ["sit", "amet,", "consetetur"], ["et", "sadipscing", "elitr."]);
    SentenceAppend(["Lorem", "ipsum", "dolor"], ["sit", "amet,", "consetetur"]);
    Text1Chunk1();
    Text1Chunk2();
    Text1Chunk3();
    Text1Join1();
    Text1Join2();
  }

  /** `text_2` is the literal of mr.py:107. */
  lemma Text2Literal()
    ensures Text2 == "At vero lorem et accusam et justo duo ipsum et ea rebum."
  {
    assert Words2 == ["At", "vero", "lorem"] + ["et", "accusam", "et"] + ["justo", "duo", "ipsum"] + ["et", "ea", "rebum."];
    SentenceAppend(["At", "vero", "lorem"] + ["et", "accusam", "et"] + ["justo", "duo", "ipsum"], ["et", "ea", "rebum."]);
    SentenceAppend(["At", "vero", "lorem"] + ["et", "accusam", "et"], ["justo", "duo", "ipsum"]);
    SentenceAppend(["At", "vero", "lorem"], ["et", "accusam", "et"]);
    Text2Chunk1();
    Text2Chunk2();
    Text2Chunk3();
    Text2Chunk4();
    Text2Join1();
    Text2Join2();
    Text2Join3();
  }

  /** `text_2b` is the literal of mr.py:108: the sentence of `text_2`, a space, and
      that sentence again. */
  lemma Text2bLiteral()
    ensures Text2b == "At vero lorem et accusam et justo duo ipsum et ea rebum." + " " + "At vero lorem et accusam et justo duo ipsum et ea rebum."
  {
    Text2bIsText2Twice();
    Text2Literal();
  }

  /** `data_set`. */
  const DataSet: seq<string> := [Text1, Text1, Text2, Text2b]

  const Tokens1: seq<string> := ["lorem", "ipsum", "dolor", "sit", "amet,", "consetetur", "et", "sadipscing", "elitr."]
  const Tokens2: seq<string> := ["at", "vero", "lorem", "et", "accusam", "et", "justo", "duo", "ipsum", "et", "ea", "rebum."]

  /** Lower-casing the words of `text_1`. */
  lemma LowerWords1()
    ensures LowerAll(Words1) == Tokens1
  {
    assert Lower("Lorem") == "lorem";
    assert Lower("ipsum") == "ipsum";
    assert Lower("dolor") == "dolor";
    assert Lower("sit") == "sit";
    assert Lower("amet,") == "amet,";
    assert Lower("consetetur") == "consetetur";
    assert Lower("et") == "et";
    assert Lower("sadipscing") == "sadipscing";
    assert Lower("elitr.") == "elitr.";
  }

  /** Lower-casing the words of `text_2`. */
  lemma LowerWords2()
    ensures LowerAll(Words2) == Tokens2
  {
    assert Lower("At") == "at";
    assert Lower("vero") == "vero";
    assert Lower("lorem") == "lorem";
    assert Lower("et") == "et";
    assert Lower("accusam") == "accusam";
    assert Lower("justo") == "justo";
    assert Lower("duo") == "duo";
    assert Lower("ipsum") == "ipsum";
    assert Lower("ea") == "ea";
    assert Lower("rebum.") == "rebum.";
  }

  lemma LowerAllAppend(a: seq<string>, b: seq<string>)
    ensures LowerAll(a + b) == LowerAll(a) + LowerAll(b)
  {
    var l, r := LowerAll(a + b), LowerAll(a) + LowerAll(b);
    forall i | 0 <= i < |l|
      ensures l[i] == r[i]
    {
      if i < |a| {
        assert (a + b)[i] == a[i];
      } else {
        assert (a + b)[i] == b[i - |a|];
      }
    }
  }

  predicate AllWords(ts: seq<string>) {
    forall i :: 0 <= i < |ts| ==> IsWord(ts[i])
  }

  lemma AllWordsAppend(a: seq<string>, b: seq<string>)
    requires AllWords(a) && AllWords(b)
    ensures AllWords(a + b)
  {
    forall i | 0 <= i < |a + b|
      ensures IsWord((a + b)[i])
    {
      if i < |a| {
        assert (a + b)[i] == a[i];
      } else {
        assert (a + b)[i] == b[i - |a|];
      }
    }
  }

  /** The tokens of a text written as the words `ws` joined by single spaces. */
  lemma TokensOfSentence(ws: seq<string>, ts: seq<string>)
    requires LowerAll(ws) == ts
    requires AllWords(ts)
    ensures Words(Lower(Sentence(ws))) == ts
  {
    LowerSentence(ws);
    WordsOfSentence(ts);
  }

  lemma Tokens1AreWords()
    ensures AllWords(Tokens1)
  {
  }

  lemma Tokens2AreWords()
    ensures AllWords(Tokens2)
  {
  }

  lemma TokensOfText1()
    ensures Words(Lower(Text1)) == Tokens1
  {
    LowerWords1();
    Tokens1AreWords();
    TokensOfSentence(Words1, Tokens1);
  }

  lemma TokensOfText2()
    ensures Words(Lower(Text2)) == Tokens2
  {
    LowerWords2();
    Tokens2AreWords();
    TokensOfSentence(Words2, Tokens2);
  }

  lemma TokensOfText2b()
    ensures Words(Lower(Text2b)) == Tokens2 + Tokens2
  {
    LowerWords2();
    Tokens2AreWords();
    TokensOfRepeated(Words2, Tokens2);
  }

  /** A text written as `ws` twice has the tokens of `ws` twice. */
  lemma TokensOfRepeated(ws: seq<string>, ts: seq<string>)
    requires LowerAll(ws) == ts
    requires AllWords(ts)
    ensures Words(Lower(Sentence(ws + ws))) == ts + ts
  {
    LowerAllAppend(ws, ws);
    AllWordsAppend(ts, ts);
    TokensOfSentence(ws + ws, ts + ts);
  }

  /** The tokens of `data_set`, document by document. */
  const DemoTokens: seq<string> := Tokens1 + Tokens1 + Tokens2 + (Tokens2 + Tokens2)

  lemma DataSetTokens()
    ensures Tokens(DataSet) == DemoTokens
  {
    TokensOfText1();
    TokensOfText2();
    TokensOfText2b();
    assert DataSet[..1][..0] == [];
    assert DataSet[..2][..1] == DataSet[..1];
    assert DataSet[..3][..2] == DataSet[..2];
    assert DataSet[..4] == DataSet;
    assert Tokens(DataSet[..1]) == Tokens1;
    assert Tokens(DataSet[..2]) == Tokens1 + Tokens1;
    assert Tokens(DataSet[..3]) == Tokens1 + Tokens1 + Tokens2;
  }

  /** Each word of a list without repetitions occurs in it at most once. */
  lemma {:induction false} DistinctCount(s: seq<string>, w: string)
    requires Distinct(s)
    ensures CountOf(s, w) == if w in s then 1 else 0
    decreases |s|
  {
    if s != [] {
      var init, x := s[..|s| - 1], s[|s| - 1];
      assert s == init + [x];
      assert Distinct(init);
      DistinctCount(init, w);
      assert x !in init;
    }
  }

  const Tokens2Head: seq<string> := ["at", "vero", "lorem"]
  const Tokens2Mid: seq<string> := ["accusam"]
  const Tokens2Tail: seq<string> := ["justo", "duo", "ipsum"]
  const Tokens2End: seq<string> := ["ea", "rebum."]

  /** `Tokens2` without its three "et", in order. */
  const Rest2: seq<string> := Tokens2Head + Tokens2Mid + Tokens2Tail + Tokens2End

  lemma DistinctTokens()
    ensures Distinct(Tokens1) && Distinct(Rest2)
  {
    assert Rest2 == ["at", "vero", "lorem", "accusam", "justo", "duo", "ipsum", "ea", "rebum."];
  }

  lemma CountOfSingle(x: string, w: string)
    ensures CountOf([x], w) == if w == x then 1 else 0
  {
    assert [x][..0] == [];
  }

  lemma Tokens2Count(w: string)
    ensures CountOf(Tokens2, w) == CountOf(Rest2, w) + if w == "et" then 3 else 0
  {
    var p, q, r, z := Tokens2Head, Tokens2Mid, Tokens2Tail, Tokens2End;
    var x := "et";
    assert Tokens2 == p + [x] + q + [x] + r + [x] + z;
    CountOfAppend(p + [x] + q + [x] + r + [x], z, w);
    CountOfAppend(p + [x] + q + [x] + r, [x], w);
    CountOfAppend(p + [x] + q + [x], r, w);
    CountOfAppend(p + [x] + q, [x], w);
    CountOfAppend(p + [x], q, w);
    CountOfAppend(p, [x], w);
    CountOfAppend(p + q + r, z, w);
    CountOfAppend(p + q, r, w);
    CountOfAppend(p, q, w);
    CountOfSingle(x, w);
  }

  lemma DemoOccurrences(corpus: seq<string>, w: string)
    requires Tokens(corpus) == DemoTokens
    ensures Occurrences(corpus, w) ==
      2 * (if w in Tokens1 then 1 else 0) + 3 * (if w in Rest2 then 1 else 0) + (if w == "et" then 9 else 0)
  {
    CountOfAppend(Tokens1 + Tokens1 + Tokens2, Tokens2 + Tokens2, w);
    CountOfAppend(Tokens2, Tokens2, w);
    CountOfAppend(Tokens1 + Tokens1, Tokens2, w);
    CountOfAppend(Tokens1, Tokens1, w);
    Tokens2Count(w);
    DistinctTokens();
    DistinctCount(Tokens1, w);
    DistinctCount(Rest2, w);
  }

  /** How often lorem, ipsum, dolor and et occur in `data_set`. */
  lemma DemoOccurrenceCounts(corpus: seq<string>)
    requires Tokens(corpus) == DemoTokens
    ensures Occurrences(corpus, "lorem") == 5 && Occurrences(corpus, "ipsum") == 5
    ensures Occurrences(corpus, "dolor") == 2 && Occurrences(corpus, "et") == 11
  {
    DemoOccurrences(corpus, "lorem");
    DemoOccurrences(corpus, "ipsum");
    DemoOccurrences(corpus, "dolor");
    DemoOccurrences(corpus, "et");
  }

  /** The totals mr.py:118-122 shows for `data_set`. */
  lemma DemoTotalsOf(corpus: seq<string>)
    requires Tokens(corpus) == DemoTokens
    ensures "lorem" in Totals(corpus).entries && Totals(corpus).entries["lorem"] == 5
    ensures "ipsum" in Totals(corpus).entries && Totals(corpus).entries["ipsum"] == 5
    ensures "dolor" in Totals(corpus).entries && Totals(corpus).entries["dolor"] == 2
    ensures "et" in Totals(corpus).entries && Totals(corpus).entries["et"] == 11
  {
    DemoOccurrenceCounts(corpus);
    TotalsAreOccurrences(corpus, "lorem");
    TotalsAreOccurrences(corpus, "ipsum");
    TotalsAreOccurrences(corpus, "dolor");
    TotalsAreOccurrences(corpus, "et");
  }

  /** The words the two texts share. */
  lemma CommonWords(w: string)
    ensures w in Tokens1 && w in Rest2 <==> w == "lorem" || w == "ipsum"
  {
  }

  lemma DemoFilteredAt(corpus: seq<string>, w: string)
    requires Tokens(corpus) == DemoTokens
    ensures w in FilterDefault(Totals(corpus)).entries <==> w == "lorem" || w == "ipsum" || w == "et"
    ensures w == "lorem" || w == "ipsum" ==> FilterDefault(Totals(corpus)).entries[w] == 5
    ensures w == "et" ==> FilterDefault(Totals(corpus)).entries[w] == 11
  {
    FilteredCountsAreOccurrences(corpus, DefaultMinOccurrences, w);
    DemoOccurrences(corpus, w);
    CommonWords(w);
  }

  /** A map with exactly the keys lorem, ipsum and et and these values is the display. */
  lemma FilteredDisplay(f: map<string, int>)
    requires forall w :: w in f <==> w == "lorem" || w == "ipsum" || w == "et"
    requires "lorem" in f && f["lorem"] == 5 && "ipsum" in f && f["ipsum"] == 5
    requires "et" in f && f["et"] == 11
    ensures f == map["lorem" := 5, "ipsum" := 5, "et" := 11]
  {
    var expected := map["lorem" := 5, "ipsum" := 5, "et" := 11];
    assert f.Keys == expected.Keys;
  }

  /** `filter_function(reduce_results)` with the default threshold 4 keeps exactly
      lorem, ipsum and et (mr.py:124-126). */
  lemma DemoFilteredOf(corpus: seq<string>)
    requires Tokens(corpus) == DemoTokens
    ensures FilterDefault(Totals(corpus)).entries == map["lorem" := 5, "ipsum" := 5, "et" := 11]
  {
    var f := FilterDefault(Totals(corpus)).entries;
    forall w
      ensures w in f <==> w == "lorem" || w == "ipsum" || w == "et"
    {
      DemoFilteredAt(corpus, w);
    }
    DemoFilteredAt(corpus, "lorem");
    DemoFilteredAt(corpus, "ipsum");
    DemoFilteredAt(corpus, "et");
    FilteredDisplay(f);
  }

  /** The totals mr.py:118-122 shows for `data_set`. */
  lemma DemoTotals()
    ensures "lorem" in Totals(DataSet).entries && Totals(DataSet).entries["lorem"] == 5
    ensures "ipsum" in Totals(DataSet).entries && Totals(DataSet).entries["ipsum"] == 5
    ensures "dolor" in Totals(DataSet).entries && Totals(DataSet).entries["dolor"] == 2
    ensures "et" in Totals(DataSet).entries && Totals(DataSet).entries["et"] == 11
  {
    DataSetTokens();
    DemoTotalsOf(DataSet);
  }

  /** `filter_function(reduce_results)` with the default threshold 4 keeps exactly
      lorem, ipsum and et (mr.py:124-126). */
  lemma DemoFiltered()
    ensures FilterDefault(Totals(DataSet)).entries == map["lorem" := 5, "ipsum" := 5, "et" := 11]
  {
    DataSetTokens();
    DemoFilteredOf(DataSet);
  }
}
