/** The map stage: `map_function` (mr.py:2-4) and `apply_map` (mr.py:7-12). */
module Mapper {
  import opened Text

  /** A word together with its count. */
  type Pair = (string, int)

  /** The pairs `(w, 1)` for the words `ws`, in order. */
  function Emit(ws: seq<string>): seq<Pair> {
    seq(|ws|, i requires 0 <= i < |ws| => (ws[i], 1))
  }

  /** What `map_function(text)` yields: one `(word, 1)` per token of the lower-cased text. */
  function MapText(text: string): seq<Pair> {
    Emit(Words(Lower(text)))
  }

  /** The tokens of a whole corpus: each document lower-cased and split, in document order. */
  function Tokens(corpus: seq<string>): seq<string> {
    if corpus == [] then []
    else Tokens(corpus[..|corpus| - 1]) + Words(Lower(corpus[|corpus| - 1]))
  }

  /** The number of tokens of each document, added up. */
  function TokenCount(corpus: seq<string>): nat {
    if corpus == [] then 0
    else TokenCount(corpus[..|corpus| - 1]) + |Words(Lower(corpus[|corpus| - 1]))|
  }

  /** What `apply_map(data)` returns: the outputs of `map_function` over the documents, concatenated. */
  function MapCorpus(data: seq<string>): seq<Pair> {
    if data == [] then []
    else MapCorpus(data[..|data| - 1]) + MapText(data[|data| - 1])
  }

  /** `map_function`: the generator loop over `text.lower().split()`, materialised. */
  method MapFunction(text: string) returns (pairs: seq<Pair>)
    ensures pairs == MapText(text)
  {
    var words := Words(Lower(text));
    pairs := [];
    for i := 0 to |words|
      invariant |pairs| == i
      invariant forall j :: 0 <= j < i ==> pairs[j] == (words[j], 1)
    {
      pairs := pairs + [(words[i], 1)];
    }
  }

  /** `apply_map`: appends every pair of every document to one list. */
  method ApplyMap(data: seq<string>) returns (mapResults: seq<Pair>)
    ensures mapResults == MapCorpus(data)
  {
    mapResults := [];
    for i := 0 to |data|
      invariant mapResults == MapCorpus(data[..i])
    {
      var pairs := MapFunction(data[i]);
      ghost var before := mapResults;
      for j := 0 to |pairs|
        invariant mapResults == before + pairs[..j]
      {
        mapResults := mapResults + [pairs[j]];
      }
      assert pairs[..|pairs|] == pairs;
      assert data[..i + 1][..i] == data[..i];
    }
    assert data[..|data|] == data;
  }

  /** Every pair `map_function` yields is a whitespace-free non-empty word with count 1,
      one per token, in text order. */
  lemma MapTextShape(text: string)
    ensures |MapText(text)| == |Words(Lower(text))|
    ensures forall i :: 0 <= i < |MapText(text)| ==>
      MapText(text)[i].0 == Words(Lower(text))[i] && IsWord(MapText(text)[i].0) && MapText(text)[i].1 == 1
  {
  }

  lemma EmitAppend(a: seq<string>, b: seq<string>)
    ensures Emit(a + b) == Emit(a) + Emit(b)
  {
  }

  /** `apply_map` emits `(t, 1)` for every token `t` of the corpus, in order. */
  lemma {:induction false} MapCorpusIsEmitTokens(data: seq<string>)
    ensures MapCorpus(data) == Emit(Tokens(data))
    decreases |data|
  {
    if data != [] {
      var init := data[..|data| - 1];
      MapCorpusIsEmitTokens(init);
      EmitAppend(Tokens(init), Words(Lower(data[|data| - 1])));
    }
  }

  /** The number of pairs `apply_map` returns is the sum of the documents' token counts. */
  lemma {:induction false} MapCorpusLength(data: seq<string>)
    ensures |MapCorpus(data)| == |Tokens(data)| == TokenCount(data)
    decreases |data|
  {
    if data != [] {
      MapCorpusLength(data[..|data| - 1]);
    }
  }

  /** The number of positions of `ts` that hold `w`. */
  function CountOf(ts: seq<string>, w: string): nat {
    if ts == [] then 0 else CountOf(ts[..|ts| - 1], w) + (if ts[|ts| - 1] == w then 1 else 0)
  }

  lemma {:induction false} CountOfAppend(a: seq<string>, b: seq<string>, w: string)
    ensures CountOf(a + b, w) == CountOf(a, w) + CountOf(b, w)
    decreases |b|
  {
    if b == [] {
      assert a + b == a;
    } else {
      assert (a + b)[..|a + b| - 1] == a + b[..|b| - 1];
      CountOfAppend(a, b[..|b| - 1], w);
    }
  }

  /** The count is the multiplicity of `w` in the multiset of `ts`; in particular it is
      positive exactly when `w` occurs. */
  lemma {:induction false} CountOfIsMultiplicity(ts: seq<string>, w: string)
    ensures CountOf(ts, w) == multiset(ts)[w]
    ensures CountOf(ts, w) > 0 <==> w in ts
    decreases |ts|
  {
    if ts != [] {
      var init := ts[..|ts| - 1];
      assert ts == init + [ts[|ts| - 1]];
      assert multiset(ts) == multiset(init) + multiset{ts[|ts| - 1]};
      CountOfIsMultiplicity(init, w);
    }
  }
}
