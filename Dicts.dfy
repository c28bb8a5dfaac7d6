/** Python dictionaries with string keys, as mr.py uses them: a key-to-value map
    together with the order in which the keys were first inserted. */
module Dicts {

  predicate Distinct(ks: seq<string>) {
    forall i, j :: 0 <= i < j < |ks| ==> ks[i] != ks[j]
  }

  /** The raw shape of a dictionary: `keys` in insertion order, `entries` the mapping. */
  datatype PyDict<V> = PyDict(keys: seq<string>, entries: map<string, V>)

  /** Every key occurs once in the insertion order, and exactly the mapped keys occur there. */
  predicate WellFormed<V>(d: PyDict<V>) {
    && Distinct(d.keys)
    && (forall k | k in d.entries :: k in d.keys)
    && (forall k | k in d.keys :: k in d.entries)
  }

  type Dict<V> = d: PyDict<V> | WellFormed(d) witness PyDict([], map[])

  /** `dict()`. */
  function Empty<V>(): Dict<V> {
    PyDict([], map[])
  }

  /** `d[k] = v`: a new key goes to the end of the insertion order, an existing
      key keeps its place and gets the new value. */
  function Put<V>(d: Dict<V>, k: string, v: V): (r: Dict<V>)
    ensures k in r.entries && r.entries[k] == v
    ensures forall x :: x != k ==> (x in r.entries <==> x in d.entries)
    ensures forall x :: x != k && x in d.entries ==> r.entries[x] == d.entries[x]
    ensures k in d.entries ==> r.keys == d.keys
    ensures k !in d.entries ==> r.keys == d.keys + [k]
  {
    PyDict(if k in d.entries then d.keys else d.keys + [k], d.entries[k := v])
  }

  /** Assigning a key twice keeps only the second value. */
  lemma PutTwice<V>(d: Dict<V>, k: string, a: V, b: V)
    ensures Put(Put(d, k, a), k, b) == Put(d, k, b)
  {
    assert Put(Put(d, k, a), k, b).entries == d.entries[k := b];
  }

  /** Assigning a key its current value changes nothing. */
  lemma PutSame<V>(d: Dict<V>, k: string)
    requires k in d.entries
    ensures Put(d, k, d.entries[k]) == d
  {
    assert Put(d, k, d.entries[k]).entries == d.entries;
  }
}
