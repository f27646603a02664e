/**
 * Python dictionaries keyed by strings: a map that also remembers the order
 * in which its keys were first inserted, plus the sequence facts the rest of
 * the model shares (distinctness and first-occurrence deduplication).
 */
module Dicts {

  /** No element occurs twice in `s`. */
  predicate Distinct<T(==)>(s: seq<T>) {
    forall i, j :: 0 <= i < j < |s| ==> s[i] != s[j]
  }

  /** The position of the first occurrence of `x` in `s`. */
  function FirstIndex<T(==)>(s: seq<T>, x: T): (i: nat)
    requires x in s
    ensures i < |s| && s[i] == x
    ensures forall j :: 0 <= j < i ==> s[j] != x
  {
    if s[0] == x then 0 else 1 + FirstIndex(s[1..], x)
  }

  /**
   * `s` with every element after its first occurrence dropped, the survivors
   * kept in the order they were first seen.
   */
  function Dedup<T(==,!new)>(s: seq<T>): (r: seq<T>)
    ensures Distinct(r)
    ensures forall x :: x in r <==> x in s
    ensures |r| <= |s|
  {
    if s == [] then []
    else
      var d := Dedup(s[..|s| - 1]);
      if s[|s| - 1] in d then d else d + [s[|s| - 1]]
  }

  /** A sequence that is already free of repeats is left as it is. */
  lemma {:induction false} DedupOfDistinct<T(!new)>(s: seq<T>)
    requires Distinct(s)
    ensures Dedup(s) == s
  {
    if s != [] {
      var init := s[..|s| - 1];
      assert Distinct(init);
      DedupOfDistinct(init);
      assert s[|s| - 1] !in init;
      assert init + [s[|s| - 1]] == s;
    }
  }

  /**
   * Dedup lists the distinct elements ordered by where each first occurs:
   * together with `Distinct` and equal membership this pins the result down.
   */
  lemma {:induction false} DedupFirstOccurrenceOrder<T(!new)>(s: seq<T>)
    ensures forall i, j :: 0 <= i < j < |Dedup(s)| ==>
      FirstIndex(s, Dedup(s)[i]) < FirstIndex(s, Dedup(s)[j])
  {
    if s != [] {
      var init := s[..|s| - 1];
      var last := s[|s| - 1];
      var d := Dedup(init);
      DedupFirstOccurrenceOrder(init);
      forall x | x in init ensures FirstIndex(s, x) == FirstIndex(init, x) {
        FirstIndexOfPrefix(init, s, x);
      }
      if last !in d {
        forall i | 0 <= i < |d| ensures d[i] in s && FirstIndex(s, d[i]) < FirstIndex(s, last) {
          assert d[i] in init;
          assert FirstIndex(s, d[i]) < |init|;
          assert forall j :: 0 <= j < |init| ==> s[j] == init[j];
          assert last !in init;
        }
      }
    }
  }

  /** The first occurrence of an element of a prefix is found in that prefix. */
  lemma {:induction false} FirstIndexOfPrefix<T>(p: seq<T>, s: seq<T>, x: T)
    requires |p| <= |s| && p == s[..|p|] && x in p
    ensures x in s && FirstIndex(s, x) == FirstIndex(p, x)
  {
    if p[0] != x {
      assert p[1..] == s[1..][..|p| - 1];
      FirstIndexOfPrefix(p[1..], s[1..], x);
    }
  }

  /** One step of first-occurrence deduplication over a growing sequence. */
  lemma DedupSnoc<T(!new)>(s: seq<T>, x: T)
    ensures Dedup(s + [x]) == if x in Dedup(s) then Dedup(s) else Dedup(s) + [x]
  {
    assert (s + [x])[..|s|] == s;
  }

  /**
   * A Python dict with string keys: `keys` is the insertion order, `items`
   * the key-value binding.
   */
  datatype Dict<V> = Dict(keys: seq<string>, items: map<string, V>) {

    /** Every key is listed exactly once, and only keys are listed. */
    ghost predicate Valid() {
      Distinct(keys) && (forall k :: k in items <==> k in keys)
    }

    /** `d[k] = v`: a new key goes to the end of the order, an old one keeps its place. */
    function Put(k: string, v: V): (d: Dict<V>)
      requires Valid()
      ensures d.Valid()
      ensures d.items == items[k := v]
      ensures d.keys == if k in items then keys else keys + [k]
    {
      Dict(if k in items then keys else keys + [k], items[k := v])
    }
  }

  /** `{}`. */
  function Empty<V>(): (d: Dict<V>)
    ensures d.Valid() && d.keys == [] && d.items == map[]
  {
    Dict([], map[])
  }
}
