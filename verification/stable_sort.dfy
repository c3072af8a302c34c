/** A stable sort ascending by an integer key: what `Array.prototype.sort`
    does (it is stable since ECMAScript 2019) with a comparator of the form
    `(a, b) => Key(a) - Key(b)`. Stated as insertion sort, scanning from the
    right, which is also the order in which the in-place method shifts. */
module StableSort {

  /** Non-decreasing key order. */
  ghost predicate SortedBy<T>(s: seq<T>, key: T -> int) {
    forall i, j :: 0 <= i < j < |s| ==> key(s[i]) <= key(s[j])
  }

  /** `s` with `x` placed after the last element whose key is not larger. */
  function Insert<T>(x: T, s: seq<T>, key: T -> int): seq<T>
    decreases |s|
  {
    if s == [] || key(s[|s| - 1]) <= key(x) then s + [x]
    else Insert(x, s[..|s| - 1], key) + [s[|s| - 1]]
  }

  function Sort<T>(s: seq<T>, key: T -> int): seq<T>
    decreases |s|
  {
    if s == [] then [] else Insert(s[|s| - 1], Sort(s[..|s| - 1], key), key)
  }

  /** The elements of `s` whose key is `k`, in their order in `s`. */
  function Class<T>(s: seq<T>, key: T -> int, k: int): seq<T>
    decreases |s|
  {
    if s == [] then []
    else Class(s[..|s| - 1], key, k) + (if key(s[|s| - 1]) == k then [s[|s| - 1]] else [])
  }

  lemma {:induction false} ClassAppend<T>(a: seq<T>, b: seq<T>, key: T -> int, k: int)
    ensures Class(a + b, key, k) == Class(a, key, k) + Class(b, key, k)
    decreases |b|
  {
    if b == [] {
      assert a + b == a;
    } else {
      ClassAppend(a, b[..|b| - 1], key, k);
      assert (a + b)[..|a + b| - 1] == a + b[..|b| - 1];
    }
  }

  lemma {:induction false} InsertPermutes<T>(x: T, s: seq<T>, key: T -> int)
    ensures multiset(Insert(x, s, key)) == multiset(s) + multiset{x}
    decreases |s|
  {
    if s != [] && key(s[|s| - 1]) > key(x) {
      InsertPermutes(x, s[..|s| - 1], key);
      assert s == s[..|s| - 1] + [s[|s| - 1]];
    }
  }

  lemma {:induction false} InsertKeepsSorted<T>(x: T, s: seq<T>, key: T -> int)
    requires SortedBy(s, key)
    ensures SortedBy(Insert(x, s, key), key)
    decreases |s|
  {
    if s != [] && key(s[|s| - 1]) > key(x) {
      var init, last := s[..|s| - 1], s[|s| - 1];
      InsertKeepsSorted(x, init, key);
      InsertPermutes(x, init, key);
      var r := Insert(x, init, key);
      forall i | 0 <= i < |r| ensures key(r[i]) <= key(last) {
        assert r[i] in multiset(init) + multiset{x};
        if r[i] != x {
          assert r[i] in init;
          var j :| 0 <= j < |init| && init[j] == r[i];
          assert s[j] == r[i];
        }
      }
    }
  }

  /** Insertion moves `x` only past elements of a strictly larger key, so no
      element of `x`'s key is overtaken. */
  lemma {:induction false} InsertClass<T>(x: T, s: seq<T>, key: T -> int, k: int)
    ensures Class(Insert(x, s, key), key, k) == Class(s + [x], key, k)
    decreases |s|
  {
    if s == [] || key(s[|s| - 1]) <= key(x) {
    } else {
      var init, last := s[..|s| - 1], s[|s| - 1];
      InsertClass(x, init, key, k);
      ClassAppend(Insert(x, init, key), [last], key, k);
      ClassAppend(init, [x], key, k);
      ClassAppend(init + [last], [x], key, k);
      assert s == init + [last];
      ClassAppend(init, [last], key, k);
    }
  }

  /** The sort returns a permutation of its input, ordered by key, in which
      the elements of each key keep their input order (stability). */
  lemma {:induction false} SortCorrect<T>(s: seq<T>, key: T -> int)
    ensures multiset(Sort(s, key)) == multiset(s)
    ensures SortedBy(Sort(s, key), key)
    ensures forall k :: Class(Sort(s, key), key, k) == Class(s, key, k)
    decreases |s|
  {
    if s != [] {
      var init, last := s[..|s| - 1], s[|s| - 1];
      SortCorrect(init, key);
      assert s == init + [last];
      InsertPermutes(last, Sort(init, key), key);
      InsertKeepsSorted(last, Sort(init, key), key);
      forall k ensures Class(Sort(s, key), key, k) == Class(s, key, k) {
        InsertClass(last, Sort(init, key), key, k);
        ClassAppend(Sort(init, key), [last], key, k);
        ClassAppend(init, [last], key, k);
      }
    }
  }
}
