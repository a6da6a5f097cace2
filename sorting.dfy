/** A stable sort of a sequence by a key computed from each element, the
    model of the library sorts the sources call (OrderBy, sorted,
    Array.prototype.sort). */
module Sorting {

  /** lt is a strict partial order: irreflexive and transitive. */
  ghost predicate StrictOrder<K(!new)>(lt: (K, K) -> bool)
  {
    && (forall a :: !lt(a, a))
    && (forall a, b, c :: lt(a, b) && lt(b, c) ==> lt(a, c))
  }

  /** lt is a strict weak order: keys that are not ordered either way are
      equivalent, and equivalence is transitive. */
  ghost predicate WeakOrder<K(!new)>(lt: (K, K) -> bool)
  {
    && StrictOrder(lt)
    && (forall a, b, c :: lt(a, c) ==> lt(a, b) || lt(b, c))
  }

  /** No element comes after an element with a larger key. */
  ghost predicate SortedByKey<K, T>(s: seq<T>, key: T -> K, lt: (K, K) -> bool)
  {
    forall i, j :: 0 <= i < j < |s| ==> !lt(key(s[j]), key(s[i]))
  }

  /** x inserted into s in front of the first element whose key is
      larger than x's, so after every element whose key is not. */
  function InsertByKey<K(!new), T>(x: T, s: seq<T>, key: T -> K, lt: (K, K) -> bool): (r: seq<T>)
    requires StrictOrder(lt) && SortedByKey(s, key, lt)
    ensures |r| == |s| + 1
    ensures multiset(r) == multiset(s) + multiset{x}
    ensures SortedByKey(r, key, lt)
  {
    if s == [] then [x]
    else if lt(key(x), key(s[0])) then
      InFrontOfSorted(x, s, key, lt);
      ConsSorted(x, s, key, lt);
      [x] + s
    else
      var rest := InsertByKey(x, s[1..], key, lt);
      assert s == [s[0]] + s[1..];
      BehindFirst(x, s, rest, key, lt);
      ConsSorted(s[0], rest, key, lt);
      [s[0]] + rest
  }

  /** A sorted sequence stays sorted with an element in front whose key no
      element's key is below. */
  lemma ConsSorted<K, T>(y: T, s: seq<T>, key: T -> K, lt: (K, K) -> bool)
    requires SortedByKey(s, key, lt)
    requires forall j :: 0 <= j < |s| ==> !lt(key(s[j]), key(y))
    ensures SortedByKey([y] + s, key, lt)
  {
    var r := [y] + s;
    forall i, j | 0 <= i < j < |r| ensures !lt(key(r[j]), key(r[i])) {
      assert r[j] == s[j - 1];
      if i > 0 {
        assert r[i] == s[i - 1];
      }
    }
  }

  /** No key of a sorted sequence is below an element's key that is below
      its first key. */
  lemma InFrontOfSorted<K(!new), T>(x: T, s: seq<T>, key: T -> K, lt: (K, K) -> bool)
    requires StrictOrder(lt) && SortedByKey(s, key, lt)
    requires s != [] && lt(key(x), key(s[0]))
    ensures forall j :: 0 <= j < |s| ==> !lt(key(s[j]), key(x))
  {
    forall j | 0 <= j < |s| ensures !lt(key(s[j]), key(x)) {
      var first, here := key(s[0]), key(s[j]);
      assert !lt(here, first) by {
        if j == 0 { assert !lt(first, first); }
      }
      assert lt(here, key(x)) && lt(key(x), first) ==> lt(here, first);
    }
  }

  /** When x's key is not below the first key of a sorted s, no key of the
      rest of s with x inserted is below that first key. */
  lemma BehindFirst<K, T>(x: T, s: seq<T>, rest: seq<T>, key: T -> K, lt: (K, K) -> bool)
    requires SortedByKey(s, key, lt)
    requires s != [] && !lt(key(x), key(s[0]))
    requires multiset(rest) == multiset(s[1..]) + multiset{x}
    ensures forall j :: 0 <= j < |rest| ==> !lt(key(rest[j]), key(s[0]))
  {
    forall j | 0 <= j < |rest| ensures !lt(key(rest[j]), key(s[0])) {
      assert rest[j] in multiset(rest);
      if rest[j] != x {
        assert rest[j] in multiset(s[1..]);
        assert rest[j] in s[1..];
        var k :| 0 <= k < |s[1..]| && s[1..][k] == rest[j];
        assert s[k + 1] == rest[j];
      }
    }
  }

  /** The elements of s in key order, elements with equivalent keys in
      their original order (insertion sort from left to right). */
  function SortByKey<K(!new), T>(s: seq<T>, key: T -> K, lt: (K, K) -> bool): (r: seq<T>)
    requires StrictOrder(lt)
    ensures |r| == |s|
    ensures multiset(r) == multiset(s)
    ensures SortedByKey(r, key, lt)
  {
    if s == [] then []
    else
      var init := s[..|s| - 1];
      assert s == init + [s[|s| - 1]];
      InsertByKey(s[|s| - 1], SortByKey(init, key, lt), key, lt)
  }

  /** The elements of s whose key is equivalent to k, in order. */
  function Equivalents<K, T>(s: seq<T>, k: K, key: T -> K, lt: (K, K) -> bool): seq<T>
  {
    if s == [] then []
    else
      var init := Equivalents(s[..|s| - 1], k, key, lt);
      var x := s[|s| - 1];
      if !lt(key(x), k) && !lt(k, key(x)) then init + [x] else init
  }

  lemma {:induction false} EquivalentsCons<K, T>(x: T, s: seq<T>, k: K, key: T -> K, lt: (K, K) -> bool)
    ensures Equivalents([x] + s, k, key, lt)
         == (if !lt(key(x), k) && !lt(k, key(x)) then [x] else []) + Equivalents(s, k, key, lt)
    decreases |s|
  {
    if s != [] {
      var xs := [x] + s;
      assert xs[..|xs| - 1] == [x] + s[..|s| - 1];
      EquivalentsCons(x, s[..|s| - 1], k, key, lt);
    } else {
      assert ([x] + s)[..0] == [];
    }
  }

  lemma {:induction false} InsertEquivalents<K(!new), T>(x: T, s: seq<T>, k: K, key: T -> K, lt: (K, K) -> bool)
    requires WeakOrder(lt) && SortedByKey(s, key, lt)
    ensures Equivalents(InsertByKey(x, s, key, lt), k, key, lt)
         == Equivalents(s, k, key, lt) + (if !lt(key(x), k) && !lt(k, key(x)) then [x] else [])
  {
    if s == [] {
      assert [x][..0] == [];
    } else if lt(key(x), key(s[0])) {
      InsertFrontEquivalents(x, s, k, key, lt);
    } else {
      InsertEquivalents(x, s[1..], k, key, lt);
      var rest := InsertByKey(x, s[1..], key, lt);
      assert InsertByKey(x, s, key, lt) == [s[0]] + rest;
      ConsEquivalents(s[0], rest, s[1..], if !lt(key(x), k) && !lt(k, key(x)) then [x] else [], k, key, lt);
      assert [s[0]] + s[1..] == s;
    }
  }

  lemma {:induction false} InsertFrontEquivalents<K(!new), T>(x: T, s: seq<T>, k: K, key: T -> K, lt: (K, K) -> bool)
    requires WeakOrder(lt) && SortedByKey(s, key, lt)
    requires s != [] && lt(key(x), key(s[0]))
    ensures Equivalents([x] + s, k, key, lt)
         == Equivalents(s, k, key, lt) + (if !lt(key(x), k) && !lt(k, key(x)) then [x] else [])
  {
    EquivalentsCons(x, s, k, key, lt);
    if !lt(key(x), k) && !lt(k, key(x)) {
      NoEquivalentsAbove(s, key(x), k, key, lt);
    }
  }

  lemma {:induction false} ConsEquivalents<K, T>(y: T, rest: seq<T>, tail: seq<T>, extra: seq<T>, k: K, key: T -> K, lt: (K, K) -> bool)
    requires Equivalents(rest, k, key, lt) == Equivalents(tail, k, key, lt) + extra
    ensures Equivalents([y] + rest, k, key, lt) == Equivalents([y] + tail, k, key, lt) + extra
  {
    EquivalentsCons(y, rest, k, key, lt);
    EquivalentsCons(y, tail, k, key, lt);
  }

  /** In a sorted s whose first key exceeds a, nothing is equivalent to a
      key k equivalent to a. */
  lemma {:induction false} NoEquivalentsAbove<K(!new), T>(s: seq<T>, a: K, k: K, key: T -> K, lt: (K, K) -> bool)
    requires WeakOrder(lt) && SortedByKey(s, key, lt)
    requires s != [] && lt(a, key(s[0]))
    requires !lt(a, k) && !lt(k, a)
    ensures Equivalents(s, k, key, lt) == []
  {
    forall j | 0 <= j < |s| ensures lt(k, key(s[j])) {
      var first, here := key(s[0]), key(s[j]);
      assert lt(a, here) || lt(here, first);
      assert !lt(here, first) by {
        if j == 0 { assert !lt(first, first); }
      }
      assert lt(a, k) || lt(k, here);
    }
    NoEquivalents(s, k, key, lt);
  }

  lemma {:induction false} NoEquivalents<K(!new), T>(s: seq<T>, k: K, key: T -> K, lt: (K, K) -> bool)
    requires forall j :: 0 <= j < |s| ==> lt(k, key(s[j]))
    ensures Equivalents(s, k, key, lt) == []
  {
    if s != [] {
      NoEquivalents(s[..|s| - 1], k, key, lt);
    }
  }

  /** The sort is stable: for every key, the elements with an equivalent key
      appear in the result in the order they had in the input. */
  lemma {:induction false} SortByKeyStable<K(!new), T>(s: seq<T>, k: K, key: T -> K, lt: (K, K) -> bool)
    requires WeakOrder(lt)
    ensures Equivalents(SortByKey(s, key, lt), k, key, lt) == Equivalents(s, k, key, lt)
  {
    if s != [] {
      var init := s[..|s| - 1];
      SortByKeyStable(init, k, key, lt);
      InsertEquivalents(s[|s| - 1], SortByKey(init, key, lt), k, key, lt);
    }
  }
}
