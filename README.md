# Word count by map, group and reduce

This project models `mr.py`, a small word counter built from three stages:

- **map.** Each document is lower-cased and split on whitespace, and `(word, 1)` is emitted per token. This is `map_function` and `apply_map`.
- **group.** The pairs are collected into a dictionary that maps each word to the list of its values. This is `group_function`.
- **reduce.** Each list is summed. This is `reduce_function` and `apply_reduce`.
- **filter and orchestration.** `filter_function` optionally keeps only the words whose count reaches a threshold. `count_words` runs the whole pipeline.

The model follows the shape of the code:

- The loops become methods with loop invariants: the generator in `map_function`, the nested loop in `apply_map`, the grouping loop, the accumulator in `reduce_function` and the loop over items in `apply_reduce`.
- Each method is proved equal to a loop-free specification function.
- `filter_function` (a dictionary comprehension) stays a function.
- `count_words` is a method that calls the stage methods in sequence.

Python dictionaries are modelled as `Dicts.PyDict`:

- a map from keys to values;
- plus the list of keys in insertion order, so that "first occurrence" order and iteration order can be stated;
- `Dicts.Put` is `d[k] = v`: a new key goes to the end, and an existing key keeps its place.

Python's unbounded `int` is Dafny's `int`.

Modules, in pipeline order:

- `Text`: `str.lower()` and `str.split()`;
- `Dicts`: the ordered dictionary;
- `Mapper`, `Grouper`, `Reducer`, `Filter`: the stages;
- `Pipeline`: `count_words` and the end-to-end properties;
- `Demo`: the toy corpus of the `__main__` block and the results it prints.

## Model

| member | source | states |
|---|---|---|
| `Text.ToLower` | mr.py:3 | Lower-casing one character leaves no ASCII capital, keeps lower-case letters, and never turns a separator into a non-separator or the reverse. |
| `Text.TokenLen` | mr.py:3 | The leading token of a text is its longest whitespace-free prefix: no whitespace inside it, and whitespace or the end of the text right after it. |
| `Text.Words` | mr.py:3 | Every token `split()` returns is non-empty and free of whitespace. |
| `Text.WordsKeepAllCharacters` | mr.py:3 | Splitting loses and invents nothing but whitespace: the tokens, concatenated, are exactly the non-whitespace characters of the text, in order. |
| `Text.WordsSplitAtSpace` | mr.py:3 | A whitespace character separates tokens: the tokens of `a + [c] + b` are those of `a` followed by those of `b`. |
| `Text.WordsOfWord` | mr.py:3 | A non-empty whitespace-free string splits into exactly itself. |
| `Text.Lower` | mr.py:3 | `str.lower()` keeps the length, maps each ASCII capital to its lower-case letter, leaves every other character alone, and leaves no capital behind; whitespace stays whitespace. |
| `Text.LowerAppend` | mr.py:3 | Lower-casing distributes over concatenation. |
| `Mapper.MapFunction` | mr.py:2-4 | The generator yields `(w, 1)` for the tokens `w` of the lower-cased text, in order. |
| `Mapper.MapTextShape` | mr.py:2-4 | One pair per token; each pair holds the token, which is a non-empty whitespace-free word, and the count 1. |
| `Mapper.ApplyMap` | mr.py:7-12 | The result is the pairs of each document, concatenated in document order. |
| `Mapper.MapCorpusIsEmitTokens` | mr.py:7-12 | `apply_map` emits `(t, 1)` for every token `t` of the whole corpus, in order. |
| `Mapper.MapCorpusLength` | mr.py:7-12 | The number of pairs is the sum over the documents of their token counts. |
| `Mapper.CountOfIsMultiplicity` | mr.py:3 | The occurrence count of a word in a token list is its multiplicity, and it is positive exactly when the word occurs. |
| `Dicts.Put` | mr.py:19-21 | `d[k] = v`: `k` maps to `v`, every other key keeps its value, an existing key keeps its place and a new key goes to the end of the key order. |
| `Grouper.GroupFunction` | mr.py:15-22 | The loop builds the dictionary whose keys are the words of the pairs in first-occurrence order, each mapped to the values of its pairs in the order of the input. |
| `Grouper.FirstOccurrences` | mr.py:18-20 | The key order has no repeats and holds exactly the words that occur. |
| `Grouper.GroupStep` | mr.py:18-21 | Processing one more pair `(k, v)` is `d[k] = d[k] + [v]`: only `k`'s list changes, and a new `k` goes to the end of the key order. |
| `Grouper.GroupKeysAreWords` | mr.py:15-22 | There is a key for exactly the words that occur in the pairs, and each key's list is that word's values. |
| `Grouper.ValuesOfAppend` | mr.py:18-21 | A word's list follows the input order: the values of a concatenation are those of the first part followed by those of the second. |
| `Grouper.ValuesOfAbsent` | mr.py:19-21 | A word has an empty list exactly when it occurs in no pair. |
| `Grouper.GroupKeysInFirstOccurrenceOrder` | mr.py:18-20 | An earlier key's first pair comes before a later key's first pair. |
| `Grouper.GroupPreservesPairCount` | mr.py:15-22 | The lengths of all lists add up to the number of pairs: no pair is lost or duplicated. |
| `Grouper.GroupListsNonEmpty` | mr.py:19-21 | Every list in the grouped dictionary is non-empty. |
| `Reducer.ReduceFunction` | mr.py:25-29 | Returns the key unchanged together with the sum of the values. |
| `Reducer.SumAppend` | mr.py:26-28 | The sum of a concatenation is the sum of the sums. |
| `Reducer.SumEmpty` | mr.py:26 | An empty list sums to 0. |
| `Reducer.SumPermutation` | mr.py:25-29 | The sum does not depend on the order of the values: lists with the same multiset of values have the same sum. |
| `Reducer.SumOfOnes` | mr.py:25-29 | A list of ones sums to its length. |
| `Reducer.ApplyReduce` | mr.py:32-38 | The result has the same keys in the same order, each mapped to the sum of its list. |
| `Filter.KeepKeys` | mr.py:42 | The filtered key order keeps exactly the keys whose value reaches the threshold, has no repeats if the input had none, and is no longer than the input. |
| `Filter.FilterFunction` | mr.py:41-42 | The comprehension keeps exactly the keys of `results` whose value is at least the threshold, with their values unchanged, and in the input's key order (a subsequence of it). |
| `Filter.FilterDefault` | mr.py:41 | With the default `min_occurrences=4` (`Filter.DefaultMinOccurrences`), exactly the entries whose value is at least 4 are kept, with their values unchanged. |
| `Filter.FilterAntitone` | mr.py:41-42 | A larger threshold keeps a subset of the keys. |
| `Filter.FilterIdempotent` | mr.py:41-42 | Filtering a second time with the same threshold changes nothing. |
| `Pipeline.CountWords` | mr.py:56-76 | Without a threshold the result is the reduce totals of the corpus; with one it is those totals filtered at that threshold. |
| `Pipeline.ValuesOfEmit` | mr.py:69-70 | After mapping and grouping, a word has a key exactly when it is a token, and its list holds one 1 per occurrence. |
| `Pipeline.TotalsAreOccurrences` | mr.py:69-73 | Each word's total is its number of occurrences among the lower-cased tokens of the corpus, and exactly the words that occur have a total. |
| `Pipeline.TotalsSumToTokenCount` | mr.py:69-73 | The totals add up to the number of tokens in the corpus. |
| `Pipeline.FilteredCountsAreOccurrences` | mr.py:74-76 | With a threshold, exactly the words that occur at least that often are kept, each with its number of occurrences. |
| `Demo.Text1Literal` | mr.py:105-106 | The sentence built from the words of `text_1` (and `text_1b`) is exactly their literal. |
| `Demo.Text2Literal` | mr.py:107 | The sentence built from the words of `text_2` is exactly its literal. |
| `Demo.Text2bLiteral` | mr.py:108 | `text_2b` is the literal of `text_2`, a space, and that literal again, which is the literal at mr.py:108. |
| `Demo.Text2bIsText2Twice` | mr.py:107-108 | `text_2b` is `text_2`, a space, and `text_2` again. |
| `Demo.DataSetTokens` | mr.py:110-114 | The lower-cased tokens of `data_set`, document by document. |
| `Demo.DemoTotals` | mr.py:120-122 | For `data_set`, `lorem` and `ipsum` total 5, `dolor` totals 2 and `et` totals 11. |
| `Demo.DemoFiltered` | mr.py:124-126 | `filter_function` with its default threshold 4 keeps exactly `{lorem: 5, ipsum: 5, et: 11}` for `data_set`. |

## Left out

- `count_words_naive` (mr.py:45-49) is not modelled. It repeats `count_words` without a filter. As written, it also ignores its argument and reads the global `data_set`.
- `count_words_from_files` (mr.py:79-100) is not modelled: it is file I/O that ends in a call to `count_words`.
- The `__main__` block's `print` calls and the file-based part (mr.py:130 onward) are not modelled. Its comparison `reduce_results == count_words(data_set)` (mr.py:128) holds by the postcondition of `Pipeline.CountWords`, which returns exactly the stage results.
- The runtime type assertions in `count_words` (mr.py:67 and mr.py:75) are not modelled. They become static types: the corpus is a `seq<string>` and the threshold an `Option<int>`.
- `Text.ToLower` models only ASCII case mapping. Python's `str.lower()` also maps non-ASCII letters, including a few one-to-many mappings; those are not modelled.
- `Text.IsSpace` is the ASCII part of Python's whitespace set: characters 9-13 and 28-32. The non-ASCII separators that `str.split()` also honours (for example U+0085, U+00A0 and U+2000-U+200A) are not modelled.
- `Mapper.MapFunction` returns the yielded pairs all at once. The laziness of the generator is not modelled; it cannot be observed, because `apply_map` consumes every pair in order.
- `Pipeline.CountWords` accepts any integer threshold, negative ones included: `count_words` (mr.py:74-76) checks only that the threshold is an `int`. A threshold of 1 or less keeps every word, since every total is at least 1.
- The demo texts are built with `Demo.Sentence` (words joined by single spaces), which gives exactly the literals at mr.py:105-108 (`Demo.Text1Literal`, `Demo.Text2Literal`, `Demo.Text2bLiteral`).
- `Demo.Text2bLiteral` states the literal of mr.py:108 as the literal of `text_2`, a space, and that literal again, rather than as one 117-character literal.
