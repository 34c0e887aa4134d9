/** Order-preserving de-duplication: `uniqued()` and `uniqued(by:)` of
    Sources/Extensions/Sequence.swift. Both are single passes that insert into
    a set of seen values inside `filter`; here they are loops over the input
    with that set as a local, proved against the reference functions `Unique`
    and `UniqueBy`, whose properties are the lemmas below. */
module Sequences {

  /** No value occurs twice. */
  predicate NoDuplicates<T(==)>(s: seq<T>) {
    forall i, j :: 0 <= i < j < |s| ==> s[i] != s[j]
  }

  /** What `uniqued()` computes, read left to right: an element is kept when
      its value does not occur earlier in the input. */
  function Unique<T(==)>(s: seq<T>): seq<T> {
    if s == [] then []
    else
      var init, last := s[..|s| - 1], s[|s| - 1];
      Unique(init) + (if last in init then [] else [last])
  }

  /** The positions of `s` that hold the first occurrence of their value, in
      increasing order. */
  function FirstPositions<T(==)>(s: seq<T>): seq<nat> {
    if s == [] then []
    else
      var init, last := s[..|s| - 1], s[|s| - 1];
      FirstPositions(init) + (if last in init then [] else [|s| - 1])
  }

  /** `uniqued()`. */
  method Uniqued<T(==)>(s: seq<T>) returns (r: seq<T>)
    ensures r == Unique(s)
    ensures NoDuplicates(r)
    ensures forall x :: x in r <==> x in s
  {
    var seen: set<T> := {};
    r := [];
    for i := 0 to |s|
      invariant r == Unique(s[..i])
      invariant seen == set x | x in s[..i]
    {
      assert s[..i + 1][..i] == s[..i];
      if s[i] !in seen {
        seen := seen + {s[i]};
        r := r + [s[i]];
      }
    }
    assert s[..|s|] == s;
    UniqueNoDuplicates(s);
  }

  /** The output holds exactly the values of the input. */
  lemma {:induction false} UniqueElements<T>(s: seq<T>)
    ensures forall x :: x in Unique(s) <==> x in s
  {
    if s != [] {
      UniqueElements(s[..|s| - 1]);
      assert s == s[..|s| - 1] + [s[|s| - 1]];
    }
  }

  /** The output has no duplicate values. */
  lemma {:induction false} UniqueNoDuplicates<T>(s: seq<T>)
    ensures NoDuplicates(Unique(s))
    ensures forall x :: x in Unique(s) <==> x in s
  {
    UniqueElements(s);
    if s != [] {
      UniqueNoDuplicates(s[..|s| - 1]);
    }
  }

  /** The output reads the input at the first-occurrence positions. */
  lemma {:induction false} FirstPositionsSelect<T>(s: seq<T>)
    ensures |FirstPositions(s)| == |Unique(s)|
    ensures forall k :: 0 <= k < |Unique(s)| ==>
      FirstPositions(s)[k] < |s| && Unique(s)[k] == s[FirstPositions(s)[k]]
  {
    if s != [] {
      var init := s[..|s| - 1];
      FirstPositionsSelect(init);
      forall i | 0 <= i < |init| ensures init[i] == s[i] {
      }
    }
  }

  /** Each of those positions holds a value not seen before it. */
  lemma {:induction false} FirstPositionsAreFirst<T>(s: seq<T>)
    ensures forall k :: 0 <= k < |FirstPositions(s)| ==>
      FirstPositions(s)[k] < |s| && s[FirstPositions(s)[k]] !in s[..FirstPositions(s)[k]]
  {
    if s != [] {
      var init := s[..|s| - 1];
      FirstPositionsAreFirst(init);
      forall i | 0 <= i < |init| ensures init[..i] == s[..i] && init[i] == s[i] {
      }
    }
  }

  /** Those positions increase. */
  lemma {:induction false} FirstPositionsIncrease<T>(s: seq<T>)
    ensures forall k :: 0 <= k < |FirstPositions(s)| ==> FirstPositions(s)[k] < |s|
    ensures forall k, l :: 0 <= k < l < |FirstPositions(s)| ==> FirstPositions(s)[k] < FirstPositions(s)[l]
  {
    if s != [] {
      FirstPositionsIncrease(s[..|s| - 1]);
    }
  }

  /** Every position holding a value not seen before it is among them. */
  lemma {:induction false} FirstPositionsComplete<T>(s: seq<T>)
    ensures forall i :: 0 <= i < |s| && s[i] !in s[..i] ==> i in FirstPositions(s)
  {
    if s != [] {
      var init := s[..|s| - 1];
      FirstPositionsComplete(init);
      forall i | 0 <= i < |init| ensures init[..i] == s[..i] && init[i] == s[i] {
      }
      assert s[..|s| - 1] == init;
    }
  }

  /** The output is the subsequence of the input at the first-occurrence
      positions: those positions increase, each holds a value not seen before
      it, every such position is among them, and the output reads the input
      at them. */
  lemma UniqueKeepsFirstOccurrences<T>(s: seq<T>)
    ensures |FirstPositions(s)| == |Unique(s)|
    ensures forall k :: 0 <= k < |Unique(s)| ==>
      FirstPositions(s)[k] < |s| && Unique(s)[k] == s[FirstPositions(s)[k]]
    ensures forall k :: 0 <= k < |FirstPositions(s)| ==>
      FirstPositions(s)[k] < |s| && s[FirstPositions(s)[k]] !in s[..FirstPositions(s)[k]]
    ensures forall k, l :: 0 <= k < l < |FirstPositions(s)| ==> FirstPositions(s)[k] < FirstPositions(s)[l]
    ensures forall i :: 0 <= i < |s| && s[i] !in s[..i] ==> i in FirstPositions(s)
  {
    FirstPositionsSelect(s);
    FirstPositionsAreFirst(s);
    FirstPositionsIncrease(s);
    FirstPositionsComplete(s);
  }

  /** An input without duplicates is returned unchanged. */
  lemma {:induction false} UniqueOfDistinct<T>(s: seq<T>)
    requires NoDuplicates(s)
    ensures Unique(s) == s
  {
    if s != [] {
      var init := s[..|s| - 1];
      UniqueOfDistinct(init);
      assert s[|s| - 1] !in init;
      assert s == init + [s[|s| - 1]];
    }
  }

  /** De-duplicating twice is de-duplicating once. */
  lemma UniqueIdempotent<T>(s: seq<T>)
    ensures Unique(Unique(s)) == Unique(s)
  {
    UniqueNoDuplicates(s);
    UniqueOfDistinct(Unique(s));
  }

  // ---------------------------------------------------------------------------
  // uniqued(by:)

  /** The key of every element, in order. */
  function KeysOf<T, K>(s: seq<T>, key: T -> K): (keys: seq<K>)
    ensures |keys| == |s|
    ensures forall i :: 0 <= i < |s| ==> keys[i] == key(s[i])
  {
    seq(|s|, i requires 0 <= i < |s| => key(s[i]))
  }

  /** What `uniqued(by:)` computes: an element is kept when its key does not
      occur among the keys of the elements before it. */
  function UniqueBy<T, K(==)>(s: seq<T>, key: T -> K): seq<T> {
    if s == [] then []
    else
      var init, last := s[..|s| - 1], s[|s| - 1];
      UniqueBy(init, key) + (if key(last) in KeysOf(init, key) then [] else [last])
  }

  /** `uniqued(by:)`. */
  method UniquedBy<T, K(==)>(s: seq<T>, key: T -> K) returns (r: seq<T>)
    ensures r == UniqueBy(s, key)
    ensures NoDuplicates(KeysOf(r, key))
  {
    var seen: set<K> := {};
    r := [];
    for i := 0 to |s|
      invariant r == UniqueBy(s[..i], key)
      invariant seen == set k | k in KeysOf(s[..i], key)
    {
      assert s[..i + 1][..i] == s[..i];
      assert KeysOf(s[..i + 1], key) == KeysOf(s[..i], key) + [key(s[i])];
      if key(s[i]) !in seen {
        seen := seen + {key(s[i])};
        r := r + [s[i]];
      }
    }
    assert s[..|s|] == s;
    UniqueByKeys(s, key);
    UniqueNoDuplicates(KeysOf(s, key));
  }

  /** The keys of the output are the de-duplicated keys of the input. */
  lemma {:induction false} UniqueByKeys<T, K>(s: seq<T>, key: T -> K)
    ensures KeysOf(UniqueBy(s, key), key) == Unique(KeysOf(s, key))
  {
    if s != [] {
      var init := s[..|s| - 1];
      UniqueByKeys(init, key);
      assert KeysOf(s, key)[..|s| - 1] == KeysOf(init, key);
      var tail: seq<T> := if key(s[|s| - 1]) in KeysOf(init, key) then [] else [s[|s| - 1]];
      assert KeysOf(UniqueBy(init, key) + tail, key) == KeysOf(UniqueBy(init, key), key) + KeysOf(tail, key);
    }
  }

  /** The output is the input read at the first-occurrence positions of the
      keys: for each distinct key exactly the first element having it, in
      input order (see UniqueKeepsFirstOccurrences for those positions). */
  lemma {:induction false} UniqueBySelectsFirstPerKey<T, K>(s: seq<T>, key: T -> K)
    ensures |UniqueBy(s, key)| == |FirstPositions(KeysOf(s, key))|
    ensures forall j :: 0 <= j < |UniqueBy(s, key)| ==>
      FirstPositions(KeysOf(s, key))[j] < |s| &&
      UniqueBy(s, key)[j] == s[FirstPositions(KeysOf(s, key))[j]]
  {
    UniqueKeepsFirstOccurrences(KeysOf(s, key));
    if s != [] {
      var init := s[..|s| - 1];
      UniqueBySelectsFirstPerKey(init, key);
      assert KeysOf(s, key)[..|s| - 1] == KeysOf(init, key);
    }
  }

  /** `uniqued()` is `uniqued(by:)` with the element itself as its key. */
  lemma {:induction false} UniqueIsUniqueByIdentity<T>(s: seq<T>)
    ensures UniqueBy(s, x => x) == Unique(s)
  {
    if s != [] {
      var init := s[..|s| - 1];
      UniqueIsUniqueByIdentity(init);
      assert KeysOf(init, x => x) == init;
    }
  }
}
