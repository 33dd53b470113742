/** Rust's `slice::sort` and `slice::sort_by` are stable: elements that compare
    equal keep their relative order. A stable sort's output is determined by its
    input and its ordering, so it is modelled here by a stable insertion sort.
    Every ordering the solvers use compares a pair of integers lexicographically
    (a primary key and a tie-break), which is what `Key` captures. */
module Sorting {

  type Key = (int, int)

  /** Lexicographic order on keys: primary component first, then the tie-break. */
  predicate KeyLe(a: Key, b: Key) {
    a.0 < b.0 || (a.0 == b.0 && a.1 <= b.1)
  }

  predicate Sorted<T>(s: seq<T>, key: T -> Key) {
    forall i, j :: 0 <= i < j < |s| ==> KeyLe(key(s[i]), key(s[j]))
  }

  /** One step of a stable insertion sort: `x` goes after the longest suffix of
      elements whose key is strictly larger. */
  function Insert<T>(sorted: seq<T>, x: T, key: T -> Key): (r: seq<T>)
    ensures |r| == |sorted| + 1
  {
    if sorted == [] || KeyLe(key(sorted[|sorted| - 1]), key(x)) then sorted + [x]
    else Insert(sorted[..|sorted| - 1], x, key) + [sorted[|sorted| - 1]]
  }

  lemma {:induction false} InsertPermutes<T>(sorted: seq<T>, x: T, key: T -> Key)
    ensures multiset(Insert(sorted, x, key)) == multiset(sorted) + multiset{x}
  {
    if sorted != [] && !KeyLe(key(sorted[|sorted| - 1]), key(x)) {
      var init := sorted[..|sorted| - 1];
      InsertPermutes(init, x, key);
      assert sorted == init + [sorted[|sorted| - 1]];
    }
  }

  /** The specification of the in-place sort: elements are inserted left to right. */
  function InsertionSort<T>(s: seq<T>, key: T -> Key): (r: seq<T>)
    ensures |r| == |s|
  {
    if s == [] then [] else Insert(InsertionSort(s[..|s| - 1], key), s[|s| - 1], key)
  }

  /** The sorted sequence is a permutation of the input. */
  lemma {:induction false} InsertionSortPermutes<T>(s: seq<T>, key: T -> Key)
    ensures multiset(InsertionSort(s, key)) == multiset(s)
  {
    if s != [] {
      InsertionSortPermutes(s[..|s| - 1], key);
      InsertPermutes(InsertionSort(s[..|s| - 1], key), s[|s| - 1], key);
      assert s == s[..|s| - 1] + [s[|s| - 1]];
    }
  }

  /** The elements of `s` whose key is exactly `k`, in their order in `s`. */
  function WithKey<T>(s: seq<T>, key: T -> Key, k: Key): seq<T> {
    if s == [] then []
    else WithKey(s[..|s| - 1], key, k) + (if key(s[|s| - 1]) == k then [s[|s| - 1]] else [])
  }

  lemma {:induction false} WithKeyAppend<T>(s: seq<T>, t: seq<T>, key: T -> Key, k: Key)
    ensures WithKey(s + t, key, k) == WithKey(s, key, k) + WithKey(t, key, k)
    decreases |t|
  {
    if t != [] {
      assert (s + t)[..|s + t| - 1] == s + t[..|t| - 1];
      WithKeyAppend(s, t[..|t| - 1], key, k);
    } else {
      assert s + t == s;
    }
  }

  lemma {:induction false} InsertSorted<T>(sorted: seq<T>, x: T, key: T -> Key)
    requires Sorted(sorted, key)
    ensures Sorted(Insert(sorted, x, key), key)
  {
    if sorted != [] && !KeyLe(key(sorted[|sorted| - 1]), key(x)) {
      var init := sorted[..|sorted| - 1];
      var last := sorted[|sorted| - 1];
      InsertSorted(init, x, key);
      var r := Insert(init, x, key);
      InsertPermutes(init, x, key);
      forall i | 0 <= i < |r| ensures KeyLe(key(r[i]), key(last)) {
        assert r[i] in multiset(r);
        if r[i] != x {
          assert r[i] in multiset(init);
          var m :| 0 <= m < |init| && init[m] == r[i];
          assert sorted[m] == r[i];
        }
      }
    }
  }

  lemma {:induction false} InsertionSortSorted<T>(s: seq<T>, key: T -> Key)
    ensures Sorted(InsertionSort(s, key), key)
  {
    if s != [] {
      InsertionSortSorted(s[..|s| - 1], key);
      InsertSorted(InsertionSort(s[..|s| - 1], key), s[|s| - 1], key);
    }
  }

  /** Inserting `x` only adds `x` to the run of its own key, at the end. */
  lemma {:induction false} InsertWithKey<T>(sorted: seq<T>, x: T, key: T -> Key, k: Key)
    ensures WithKey(Insert(sorted, x, key), key, k)
         == WithKey(sorted, key, k) + (if key(x) == k then [x] else [])
  {
    if sorted == [] || KeyLe(key(sorted[|sorted| - 1]), key(x)) {
      WithKeyAppend(sorted, [x], key, k);
    } else {
      var init := sorted[..|sorted| - 1];
      var last := sorted[|sorted| - 1];
      var xs: seq<T> := if key(x) == k then [x] else [];
      var ls: seq<T> := if key(last) == k then [last] else [];
      var r := Insert(init, x, key);
      assert Insert(sorted, x, key) == r + [last];
      assert WithKey(r, key, k) == WithKey(init, key, k) + xs by {
        InsertWithKey(init, x, key, k);
      }
      assert WithKey(r + [last], key, k) == WithKey(r, key, k) + ls by {
        assert (r + [last])[..|r + [last]| - 1] == r;
      }
      assert WithKey(sorted, key, k) == WithKey(init, key, k) + ls;
      assert xs == [] || ls == [] by {
        assert key(last) != key(x);
      }
    }
  }

  /** Stability: for every key, the elements with that key appear in the sorted
      sequence in the same order as in the input. */
  lemma {:induction false} InsertionSortStable<T>(s: seq<T>, key: T -> Key, k: Key)
    ensures WithKey(InsertionSort(s, key), key, k) == WithKey(s, key, k)
  {
    if s != [] {
      InsertionSortStable(s[..|s| - 1], key, k);
      InsertWithKey(InsertionSort(s[..|s| - 1], key), s[|s| - 1], key, k);
    }
  }

  /** `s[j]` has the smallest key of `s`, and no earlier element has a key as small. */
  predicate EarliestMinimum<T>(s: seq<T>, key: T -> Key, j: nat) {
    j < |s|
    && (forall i :: 0 <= i < |s| ==> KeyLe(key(s[j]), key(s[i])))
    && (forall i :: 0 <= i < j ==> !KeyLe(key(s[i]), key(s[j])))
  }

  /** Appending an element no smaller than the earliest minimum keeps it. */
  lemma EarliestMinimumKept<T>(init: seq<T>, x: T, key: T -> Key, j: nat)
    requires EarliestMinimum(init, key, j) && KeyLe(key(init[j]), key(x))
    ensures EarliestMinimum(init + [x], key, j)
  {
    var s := init + [x];
    forall i | 0 <= i < |s| ensures KeyLe(key(s[j]), key(s[i])) {
      if i < |init| { assert s[i] == init[i]; }
    }
    forall i | 0 <= i < j ensures !KeyLe(key(s[i]), key(s[j])) {
      assert s[i] == init[i];
    }
  }

  /** Appending an element strictly below the minimum makes it the earliest minimum. */
  lemma EarliestMinimumReplaced<T>(init: seq<T>, x: T, key: T -> Key, j: nat)
    requires EarliestMinimum(init, key, j) && !KeyLe(key(init[j]), key(x))
    ensures EarliestMinimum(init + [x], key, |init|)
  {
    var s := init + [x];
    forall i | 0 <= i < |init| ensures KeyLe(key(x), key(s[i])) && !KeyLe(key(s[i]), key(x)) {
      assert s[i] == init[i];
      assert KeyLe(key(init[j]), key(init[i]));
    }
  }

  /** The first element after sorting is the EARLIEST element of the input among
      those with the smallest key: what `sort_by(..)` followed by `first()` picks. */
  lemma {:induction false} HeadIsEarliestMinimum<T>(s: seq<T>, key: T -> Key) returns (j: nat)
    requires s != []
    ensures j < |s| && InsertionSort(s, key)[0] == s[j]
    ensures forall i :: 0 <= i < |s| ==> KeyLe(key(s[j]), key(s[i]))
    ensures forall i :: 0 <= i < j ==> !KeyLe(key(s[i]), key(s[j]))
  {
    var init := s[..|s| - 1];
    var x := s[|s| - 1];
    assert s == init + [x];
    if init == [] {
      j := 0;
    } else {
      var j' := HeadIsEarliestMinimum(init, key);
      var r' := InsertionSort(init, key);
      InsertionSortSorted(init, key);
      InsertHead(r', x, key);
      if KeyLe(key(init[j']), key(x)) {
        j := j';
        EarliestMinimumKept(init, x, key, j');
      } else {
        j := |s| - 1;
        EarliestMinimumReplaced(init, x, key, j');
      }
    }
  }

  lemma {:induction false} InsertHead<T>(sorted: seq<T>, x: T, key: T -> Key)
    requires sorted != [] && Sorted(sorted, key)
    ensures Insert(sorted, x, key)[0] == if KeyLe(key(sorted[0]), key(x)) then sorted[0] else x
  {
    var init := sorted[..|sorted| - 1];
    if !KeyLe(key(sorted[|sorted| - 1]), key(x)) && init != [] {
      InsertHead(init, x, key);
    }
  }

  /** Shifting one larger element of the prefix past `x` keeps the insertion result. */
  lemma InsertShift<T>(prefix: seq<T>, j: nat, x: T, key: T -> Key)
    requires 0 < j <= |prefix| && !KeyLe(key(prefix[j - 1]), key(x))
    ensures Insert(prefix[..j], x, key) + prefix[j..] == Insert(prefix[..j - 1], x, key) + prefix[j - 1..]
  {
    assert prefix[..j][..j - 1] == prefix[..j - 1];
    assert prefix[j - 1..] == [prefix[j - 1]] + prefix[j..];
  }

  /** Where the shifting stops, `x` goes right after the prefix. */
  lemma InsertStop<T>(prefix: seq<T>, j: nat, x: T, key: T -> Key)
    requires j <= |prefix| && (j == 0 || KeyLe(key(prefix[j - 1]), key(x)))
    ensures Insert(prefix[..j], x, key) == prefix[..j] + [x]
  {
  }

  /** The array during the insertion: the prefix with a hole at `j`. */
  function Holed<T>(prefix: seq<T>, j: nat, hole: T, rest: seq<T>): (s: seq<T>)
    requires j <= |prefix|
    ensures |s| == |prefix| + 1 + |rest|
  {
    prefix[..j] + [hole] + prefix[j..] + rest
  }

  /** Copying the element left of the hole into it moves the hole one place left. */
  lemma HoleShift<T>(prefix: seq<T>, j: nat, hole: T, rest: seq<T>)
    requires 0 < j <= |prefix|
    ensures Holed(prefix, j, hole, rest)[j - 1] == prefix[j - 1]
    ensures Holed(prefix, j, hole, rest)[j := prefix[j - 1]] == Holed(prefix, j - 1, prefix[j - 1], rest)
  {
    var s, t := Holed(prefix, j, hole, rest), Holed(prefix, j - 1, prefix[j - 1], rest);
    forall k | 0 <= k < |s| ensures s[j := prefix[j - 1]][k] == t[k] {
      if k < j - 1 {
        assert s[k] == prefix[k] && t[k] == prefix[k];
      } else if j + 1 <= k <= |prefix| {
        assert s[k] == prefix[k - 1] && t[k] == prefix[k - 1];
      } else if k > |prefix| {
        assert s[k] == rest[k - |prefix| - 1] && t[k] == rest[k - |prefix| - 1];
      }
    }
  }

  /** Before any shifting, the hole is at `a[i]` itself. */
  lemma HoleStart<T>(s: seq<T>, i: nat)
    requires i < |s|
    ensures s == Holed(s[..i], i, s[i], s[i + 1..])
    ensures s[..i][..i] == s[..i] && s[..i][i..] == []
  {
    assert s == s[..i] + [s[i]] + s[i + 1..];
  }

  /** Writing `x` into the hole. */
  lemma HoleSet<T>(prefix: seq<T>, j: nat, hole: T, x: T, rest: seq<T>)
    requires j <= |prefix|
    ensures Holed(prefix, j, hole, rest)[j := x] == Holed(prefix, j, x, rest)
  {
    var s, t := Holed(prefix, j, hole, rest)[j := x], Holed(prefix, j, x, rest);
    forall k | 0 <= k < |s| ensures s[k] == t[k] {
      if k < j {
        assert s[k] == prefix[k] == t[k];
      } else if j < k <= |prefix| {
        assert s[k] == prefix[k - 1] == t[k];
      } else if k > |prefix| {
        assert s[k] == rest[k - |prefix| - 1] == t[k];
      }
    }
  }

  /** Filling the hole with `x` leaves the inserted prefix, then the rest. */
  lemma HoleFilled<T>(prefix: seq<T>, j: nat, x: T, rest: seq<T>)
    requires j <= |prefix|
    ensures Holed(prefix, j, x, rest)[..|prefix| + 1] == prefix[..j] + [x] + prefix[j..]
    ensures Holed(prefix, j, x, rest)[|prefix| + 1..] == rest
  {
  }

  /** Moves `a[i]` left past the larger elements of the sorted prefix `a[..i]`. */
  method InsertInPlace<T>(a: array<T>, i: nat, key: T -> Key)
    requires i < a.Length
    modifies a
    ensures a[..i + 1] == Insert(old(a[..i]), old(a[i]), key)
    ensures a[i + 1..] == old(a[i + 1..])
  {
    var x := a[i];
    ghost var prefix, rest := a[..i], a[i + 1..];
    ghost var hole := x;
    var j := i;
    HoleStart(a[..], i);
    while j > 0 && !KeyLe(key(a[j - 1]), key(x))
      invariant 0 <= j <= i
      invariant a[..] == Holed(prefix, j, hole, rest)
      invariant Insert(prefix, x, key) == Insert(prefix[..j], x, key) + prefix[j..]
    {
      HoleShift(prefix, j, hole, rest);
      InsertShift(prefix, j, x, key);
      ghost var before := a[..];
      a[j] := a[j - 1];
      assert a[..] == before[j := prefix[j - 1]];
      hole := prefix[j - 1];
      j := j - 1;
    }
    ghost var before := a[..];
    a[j] := x;
    assert a[..] == before[j := x];
    HoleSet(prefix, j, hole, x, rest);
    InsertStop(prefix, j, x, key);
    assert a[..] == Holed(prefix, j, x, rest);
    HoleFilled(prefix, j, x, rest);
  }

  /** The in-place sort of `slice::sort_by`, proved to compute `InsertionSort`. */
  method SortBy<T>(a: array<T>, key: T -> Key)
    modifies a
    ensures a[..] == InsertionSort(old(a[..]), key)
  {
    ghost var input := a[..];
    var i := 0;
    while i < a.Length
      invariant 0 <= i <= a.Length
      invariant a[..i] == InsertionSort(input[..i], key)
      invariant a[i..] == input[i..]
    {
      InsertInPlace(a, i, key);
      assert input[..i + 1][..i] == input[..i];
      i := i + 1;
    }
    assert input[..a.Length] == input;
  }

  /** The keys of the elements, in order. */
  function KeysOf<T>(s: seq<T>, key: T -> Key): (ks: seq<Key>)
    ensures |ks| == |s| && forall i :: 0 <= i < |s| ==> ks[i] == key(s[i])
  {
    seq(|s|, i requires 0 <= i < |s| => key(s[i]))
  }

  lemma KeysOfAppend<T>(s: seq<T>, t: seq<T>, key: T -> Key)
    ensures KeysOf(s + t, key) == KeysOf(s, key) + KeysOf(t, key)
  {
  }

  /** Taking out the element at `j`. */
  lemma RemoveAt<T>(t: seq<T>, j: nat)
    requires j < |t|
    ensures multiset(t[..j] + t[j + 1..]) == multiset(t) - multiset{t[j]}
  {
    assert t == t[..j] + [t[j]] + t[j + 1..];
  }

  /** Taking out the element at `j` takes out its key. */
  lemma KeysOfRemove<T>(t: seq<T>, j: nat, key: T -> Key)
    requires j < |t|
    ensures multiset(KeysOf(t, key)) == multiset(KeysOf(t[..j] + t[j + 1..], key)) + multiset{key(t[j])}
  {
    assert t == t[..j] + [t[j]] + t[j + 1..];
    KeysOfAppend(t[..j] + [t[j]], t[j + 1..], key);
    KeysOfAppend(t[..j], [t[j]], key);
    KeysOfAppend(t[..j], t[j + 1..], key);
  }

  /** Permuting the elements permutes their keys. */
  lemma {:induction false} KeysOfPermutation<T>(s: seq<T>, t: seq<T>, key: T -> Key)
    requires multiset(s) == multiset(t)
    ensures multiset(KeysOf(s, key)) == multiset(KeysOf(t, key))
    decreases |s|
  {
    if s != [] {
      var n := |s| - 1;
      assert s[n] in multiset(t);
      var j :| 0 <= j < |t| && t[j] == s[n];
      RemoveAt(s, n);
      RemoveAt(t, j);
      var s', t' := s[..n] + s[n + 1..], t[..j] + t[j + 1..];
      KeysOfPermutation(s', t', key);
      KeysOfRemove(s, n, key);
      KeysOfRemove(t, j, key);
    }
  }

  predicate KeysAscending(ks: seq<Key>) {
    forall i, j :: 0 <= i < j < |ks| ==> KeyLe(ks[i], ks[j])
  }

  /** In an ascending sequence every key is at most the last. */
  lemma LastIsLargest(ks: seq<Key>, k: Key)
    requires KeysAscending(ks) && k in multiset(ks)
    ensures KeyLe(k, ks[|ks| - 1])
  {
    var i :| 0 <= i < |ks| && ks[i] == k;
    assert i == |ks| - 1 || KeyLe(ks[i], ks[|ks| - 1]);
  }

  /** Two ascending sequences of the same keys end alike, and agree without their
      ends. */
  lemma SameLast(ks: seq<Key>, ls: seq<Key>)
    requires KeysAscending(ks) && KeysAscending(ls) && multiset(ks) == multiset(ls) && ks != []
    ensures ls != [] && ks[|ks| - 1] == ls[|ls| - 1]
    ensures multiset(ks[..|ks| - 1]) == multiset(ls[..|ls| - 1])
    ensures KeysAscending(ks[..|ks| - 1]) && KeysAscending(ls[..|ls| - 1])
  {
    assert ks[|ks| - 1] in multiset(ks);
    assert ls != [];
    assert ls[|ls| - 1] in multiset(ls);
    LastIsLargest(ls, ks[|ks| - 1]);
    LastIsLargest(ks, ls[|ls| - 1]);
    RemoveAt(ks, |ks| - 1);
    RemoveAt(ls, |ls| - 1);
    assert ks[..|ks| - 1] + ks[|ks|..] == ks[..|ks| - 1];
    assert ls[..|ls| - 1] + ls[|ls|..] == ls[..|ls| - 1];
  }

  /** Two ascending sequences of the same keys are the same sequence. */
  lemma {:induction false} AscendingUnique(ks: seq<Key>, ls: seq<Key>)
    requires KeysAscending(ks) && KeysAscending(ls) && multiset(ks) == multiset(ls)
    ensures ks == ls
    decreases |ks|
  {
    if ks == [] {
      assert |ls| == |multiset(ls)|;
    } else {
      SameLast(ks, ls);
      AscendingUnique(ks[..|ks| - 1], ls[..|ls| - 1]);
      assert ks == ks[..|ks| - 1] + [ks[|ks| - 1]] && ls == ls[..|ls| - 1] + [ls[|ls| - 1]];
    }
  }

  /** Sorting determines the order of the keys: any two sorted arrangements of the
      same elements have the same key at every position. */
  lemma SortedKeysUnique<T>(s: seq<T>, t: seq<T>, key: T -> Key)
    requires Sorted(s, key) && Sorted(t, key) && multiset(s) == multiset(t)
    ensures KeysOf(s, key) == KeysOf(t, key)
  {
    KeysOfPermutation(s, t, key);
    AscendingUnique(KeysOf(s, key), KeysOf(t, key));
  }

  /** The first element after sorting has the smallest key among the elements of
      any arrangement of the input. */
  lemma HeadIsMinimum<T>(s: seq<T>, key: T -> Key, universe: seq<T>)
    requires s != [] && multiset(s) == multiset(universe)
    ensures InsertionSort(s, key)[0] in universe
    ensures forall t :: t in universe ==> KeyLe(key(InsertionSort(s, key)[0]), key(t))
  {
    var j := HeadIsEarliestMinimum(s, key);
    assert s[j] in multiset(universe);
    forall t | t in universe ensures KeyLe(key(s[j]), key(t)) {
      assert t in multiset(s);
      var i :| 0 <= i < |s| && s[i] == t;
    }
  }

  /** When the first element already has a smallest key, a stable sort keeps it
      first. */
  lemma HeadStays<T>(s: seq<T>, key: T -> Key, universe: seq<T>)
    requires s != [] && multiset(s) == multiset(universe)
    requires forall t :: t in universe ==> KeyLe(key(s[0]), key(t))
    ensures InsertionSort(s, key)[0] == s[0]
  {
    var j := HeadIsEarliestMinimum(s, key);
    assert s[j] in multiset(universe);
    assert s[j] in universe;
    assert j == 0;
  }
}
