/**
 * Stable sorting by an integer key, the behaviour of List.sort and Stream.sorted with
 * Comparator.comparing: elements with equal keys keep their encounter order.
 */
module Sorting {

  ghost predicate SortedBy<T>(s: seq<T>, key: T -> int) {
    forall i, j :: 0 <= i < j < |s| ==> key(s[i]) <= key(s[j])
  }

  /** Places x after every element of the sorted s whose key is not greater than x's. */
  function Insert<T(==)>(s: seq<T>, x: T, key: T -> int): (r: seq<T>)
    ensures multiset(r) == multiset(s) + multiset{x}
    ensures |r| == |s| + 1
    ensures SortedBy(s, key) ==> SortedBy(r, key)
  {
    if s == [] then [x]
    else if key(x) < key(s[|s| - 1]) then
      var front := Insert(s[..|s| - 1], x, key);
      InsertBeforeLast(s, front, x, key);
      front + [s[|s| - 1]]
    else
      s + [x]
  }

  /** x goes in front of the last element: the rest of s with x, then that element, stays sorted. */
  lemma InsertBeforeLast<T>(s: seq<T>, front: seq<T>, x: T, key: T -> int)
    requires s != [] && key(x) < key(s[|s| - 1])
    requires multiset(front) == multiset(s[..|s| - 1]) + multiset{x}
    requires SortedBy(s, key) ==> SortedBy(front, key)
    ensures multiset(front + [s[|s| - 1]]) == multiset(s) + multiset{x}
    ensures SortedBy(s, key) ==> SortedBy(front + [s[|s| - 1]], key)
  {
    var last := s[|s| - 1];
    assert s == s[..|s| - 1] + [last];
    if SortedBy(s, key) {
      forall i | 0 <= i < |front| ensures key(front[i]) <= key(last) {
        assert front[i] in multiset(front);
        assert front[i] in multiset(s[..|s| - 1]) || front[i] == x;
      }
    }
  }

  /** Insertion sort that inserts later elements after earlier ones of equal key. */
  function SortByKey<T(==)>(s: seq<T>, key: T -> int): (r: seq<T>)
    ensures SortedBy(r, key)
    ensures multiset(r) == multiset(s)
    ensures |r| == |s|
  {
    if s == [] then []
    else
      assert s == s[..|s| - 1] + [s[|s| - 1]];
      Insert(SortByKey(s[..|s| - 1], key), s[|s| - 1], key)
  }

  /** The elements of s whose key is k, in encounter order. */
  function WithKey<T>(s: seq<T>, key: T -> int, k: int): (r: seq<T>)
    ensures forall i :: 0 <= i < |r| ==> key(r[i]) == k
  {
    if s == [] then []
    else WithKey(s[..|s| - 1], key, k) + (if key(s[|s| - 1]) == k then [s[|s| - 1]] else [])
  }

  lemma {:induction false} WithKeyAppend<T>(a: seq<T>, b: seq<T>, key: T -> int, k: int)
    ensures WithKey(a + b, key, k) == WithKey(a, key, k) + WithKey(b, key, k)
  {
    if b != [] {
      WithKeyAppend(a, b[..|b| - 1], key, k);
      assert (a + b)[..|a + b| - 1] == a + b[..|b| - 1];
    } else {
      assert a + b == a;
    }
  }

  /** Inserting x keeps the elements of every key in their order, x last among those of its key. */
  lemma {:induction false} InsertStable<T>(s: seq<T>, x: T, key: T -> int, k: int)
    ensures WithKey(Insert(s, x, key), key, k) == WithKey(s, key, k) + (if key(x) == k then [x] else [])
  {
    WithKeySingle(x, key, k);
    if s == [] {
      assert Insert(s, x, key) == [x];
    } else if key(x) < key(s[|s| - 1]) {
      InsertStable(s[..|s| - 1], x, key, k);
      InsertStableBeforeLast(s, x, key, k);
    } else {
      assert Insert(s, x, key) == s + [x];
      WithKeyAppend(s, [x], key, k);
    }
  }

  /** The step of InsertStable where x goes in front of the last element of s. */
  lemma InsertStableBeforeLast<T>(s: seq<T>, x: T, key: T -> int, k: int)
    requires s != [] && key(x) < key(s[|s| - 1])
    requires WithKey(Insert(s[..|s| - 1], x, key), key, k)
          == WithKey(s[..|s| - 1], key, k) + (if key(x) == k then [x] else [])
    ensures WithKey(Insert(s, x, key), key, k) == WithKey(s, key, k) + (if key(x) == k then [x] else [])
  {
    InsertBeforeLastUnfolds(s, x, key);
    assert s == s[..|s| - 1] + [s[|s| - 1]];
    WithKeyBeforeLast(Insert(s[..|s| - 1], x, key), s[..|s| - 1], x, s[|s| - 1], key, k);
  }

  /**
   * When x sorts before the last element of s, Insert places it among the rest of s. Kept as a
   * separate step so that InsertStable's proof does not unfold Insert's contract with it.
   */
  lemma InsertBeforeLastUnfolds<T>(s: seq<T>, x: T, key: T -> int)
    requires s != [] && key(x) < key(s[|s| - 1])
    ensures Insert(s, x, key) == Insert(s[..|s| - 1], x, key) + [s[|s| - 1]]
  {
  }

  /** Putting last after front, where front's key-k elements are init's plus x, puts x after last's. */
  lemma WithKeyBeforeLast<T>(front: seq<T>, init: seq<T>, x: T, last: T, key: T -> int, k: int)
    requires key(x) < key(last)
    requires WithKey(front, key, k) == WithKey(init, key, k) + (if key(x) == k then [x] else [])
    ensures WithKey(front + [last], key, k) == WithKey(init + [last], key, k) + (if key(x) == k then [x] else [])
  {
    var tail := if key(x) == k then [x] else [];
    var lastTail := if key(last) == k then [last] else [];
    var before := WithKey(init, key, k);
    assert (front + [last])[..|front + [last]| - 1] == front;
    assert WithKey(front + [last], key, k) == WithKey(front, key, k) + lastTail;
    assert (init + [last])[..|init + [last]| - 1] == init;
    assert WithKey(init + [last], key, k) == before + lastTail;
    // x sorts before last, so at most one of the two has key k
    SwapAroundEmpty(before, tail, lastTail);
  }

  /** A concatenation fact on its own, so that WithKeyBeforeLast's proof stays small. */
  lemma SwapAroundEmpty<T>(a: seq<T>, b: seq<T>, c: seq<T>)
    requires b == [] || c == []
    ensures a + b + c == a + c + b
  {
    if b == [] {
      assert a + b == a;
    } else {
      assert a + b + c == a + b;
    }
  }

  /** A one-element list keeps its element exactly when the element has the key. */
  lemma WithKeySingle<T>(x: T, key: T -> int, k: int)
    ensures WithKey([x], key, k) == if key(x) == k then [x] else []
  {
    assert [x][..0] == [];
  }

  /** The sort is stable: the elements of every key keep their encounter order. */
  lemma {:induction false} SortByKeyStable<T>(s: seq<T>, key: T -> int, k: int)
    ensures WithKey(SortByKey(s, key), key, k) == WithKey(s, key, k)
  {
    if s != [] {
      var init, last := s[..|s| - 1], s[|s| - 1];
      SortByKeyStable(init, key, k);
      InsertStable(SortByKey(init, key), last, key, k);
    }
  }
}
