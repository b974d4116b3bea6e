/** A stable sort by a numeric key, as a comparator `(a, b) => key(a) - key(b)`
    orders: the reference insertion sort on sequences, its properties
    (ordered, a permutation, ties kept in input order), and the in-place
    insertion sort on an array proved equal to it. */
module Sorting {
  import opened Sequences

  ghost predicate SortedBy<T>(s: seq<T>, key: T -> real) {
    forall i, j :: 0 <= i < j < |s| ==> key(s[i]) <= key(s[j])
  }

  /** The elements of `s` whose key is `k`, in their order in `s`. */
  function WithKey<T>(s: seq<T>, key: T -> real, k: real): seq<T> {
    Select(s, x => key(x) == k)
  }

  /** Inserts `x` behind every element whose key is at most its own, scanning
      from the right. */
  function Insert<T>(s: seq<T>, x: T, key: T -> real): seq<T>
    decreases |s|
  {
    if s == [] || key(s[|s| - 1]) <= key(x) then s + [x]
    else Insert(s[..|s| - 1], x, key) + [s[|s| - 1]]
  }

  /** Insertion sort, the reference for the in-place sort. */
  function SortBy<T>(s: seq<T>, key: T -> real): seq<T>
    decreases |s|
  {
    if s == [] then [] else Insert(SortBy(s[..|s| - 1], key), s[|s| - 1], key)
  }

  lemma {:induction false} InsertMultiset<T>(s: seq<T>, x: T, key: T -> real)
    ensures multiset(Insert(s, x, key)) == multiset(s) + multiset{x}
    decreases |s|
  {
    if !(s == [] || key(s[|s| - 1]) <= key(x)) {
      InsertMultiset(s[..|s| - 1], x, key);
      assert s == s[..|s| - 1] + [s[|s| - 1]];
    }
  }

  lemma {:induction false} InsertSorted<T>(s: seq<T>, x: T, key: T -> real)
    requires SortedBy(s, key)
    ensures SortedBy(Insert(s, x, key), key)
    decreases |s|
  {
    if !(s == [] || key(s[|s| - 1]) <= key(x)) {
      var front := s[..|s| - 1];
      var last := s[|s| - 1];
      InsertSorted(front, x, key);
      InsertMultiset(front, x, key);
      var ins := Insert(front, x, key);
      forall i | 0 <= i < |ins| ensures key(ins[i]) <= key(last) {
        assert ins[i] in multiset(ins);
        if ins[i] != x {
          assert ins[i] in multiset(front);
          var j :| 0 <= j < |front| && front[j] == ins[i];
          assert s[j] == front[j];
        }
      }
    }
  }

  /** Inserting `x` appends it to the elements of its own key and leaves the
      elements of every other key alone. */
  lemma {:induction false} InsertWithKey<T>(s: seq<T>, x: T, key: T -> real, k: real)
    ensures WithKey(Insert(s, x, key), key, k) == WithKey(s, key, k) + (if key(x) == k then [x] else [])
    decreases |s|
  {
    var keep := y => key(y) == k;
    if s == [] || key(s[|s| - 1]) <= key(x) {
      SelectAppend(s, [x], keep);
    } else {
      var front := s[..|s| - 1];
      var last := s[|s| - 1];
      InsertWithKey(front, x, key, k);
      SelectAppend(Insert(front, x, key), [last], keep);
      assert s == front + [last];
      SelectAppend(front, [last], keep);
    }
  }

  /** The sort result is ordered by key. */
  lemma {:induction false} SortBySorted<T>(s: seq<T>, key: T -> real)
    ensures SortedBy(SortBy(s, key), key)
    decreases |s|
  {
    if s != [] {
      SortBySorted(s[..|s| - 1], key);
      InsertSorted(SortBy(s[..|s| - 1], key), s[|s| - 1], key);
    }
  }

  /** The sort result is a permutation of its input. */
  lemma {:induction false} SortByPermutes<T>(s: seq<T>, key: T -> real)
    ensures multiset(SortBy(s, key)) == multiset(s)
    decreases |s|
  {
    if s != [] {
      SortByPermutes(s[..|s| - 1], key);
      InsertMultiset(SortBy(s[..|s| - 1], key), s[|s| - 1], key);
      assert s == s[..|s| - 1] + [s[|s| - 1]];
    }
  }

  /** The sort is stable: the elements of each key keep their input order. */
  lemma {:induction false} SortByStable<T>(s: seq<T>, key: T -> real, k: real)
    ensures WithKey(SortBy(s, key), key, k) == WithKey(s, key, k)
    decreases |s|
  {
    if s != [] {
      var front := s[..|s| - 1];
      var last := s[|s| - 1];
      SortByStable(front, key, k);
      InsertWithKey(SortBy(front, key), last, key, k);
      assert s == front + [last];
      SelectAppend(front, [last], x => key(x) == k);
    }
  }

  /** Inserting behind a run of larger keys puts `x` in front of that run. */
  lemma {:induction false} InsertSplit<T>(p: seq<T>, x: T, key: T -> real, j: int)
    requires 0 <= j <= |p|
    requires forall k :: j <= k < |p| ==> key(p[k]) > key(x)
    ensures Insert(p, x, key) == Insert(p[..j], x, key) + p[j..]
    decreases |p|
  {
    if j == |p| {
      assert p[..j] == p;
    } else {
      var front := p[..|p| - 1];
      InsertSplit(front, x, key, j);
      assert front[..j] == p[..j];
      assert p[j..] == front[j..] + [p[|p| - 1]];
    }
  }

  /** Swapping `x` with its left neighbour moves it one place left. */
  lemma SwapStep<T>(p: seq<T>, x: T, rest: seq<T>, j: int, i: int)
    requires 0 < j <= i == |p|
    ensures var s := p[..j] + [x] + p[j..i] + rest;
      s[j - 1 := x][j := p[j - 1]] == p[..j - 1] + [x] + p[j - 1..i] + rest
  {
    var s := p[..j] + [x] + p[j..i] + rest;
    var t := p[..j - 1] + [x] + p[j - 1..i] + rest;
    assert |s[j - 1 := x][j := p[j - 1]]| == |t|;
    forall k | 0 <= k < |t| ensures s[j - 1 := x][j := p[j - 1]][k] == t[k] {
      if j < k <= i {
        assert t[k] == p[k - 1];
        assert s[k] == p[k - 1];
      }
    }
  }

  /** One pass of the insertion sort: `a[i]` is swapped leftwards past the
      larger keys of the sorted prefix `a[..i]`. */
  method InsertPass<T>(a: array<T>, i: int, key: T -> real)
    requires 0 <= i < a.Length
    modifies a
    ensures a[..i + 1] == Insert(old(a[..i]), old(a[i]), key)
    ensures a[i + 1..] == old(a[i + 1..])
  {
    ghost var p := a[..i];
    ghost var rest := a[i + 1..];
    var x := a[i];
    var j := i;
    assert p[..j] == p && p[j..i] == [];
    assert a[..] == p + [x] + rest;
    while j > 0 && key(a[j - 1]) > key(x)
      invariant 0 <= j <= i
      invariant a[..] == p[..j] + [x] + p[j..i] + rest
      invariant forall k :: j <= k < i ==> key(p[k]) > key(x)
    {
      var y := a[j - 1];
      ghost var before := a[..];
      assert y == before[j - 1] == p[j - 1];
      SwapStep(p, x, rest, j, i);
      a[j - 1], a[j] := x, y;
      assert a[..] == before[j - 1 := x][j := y];
      j := j - 1;
    }
    assert j > 0 ==> a[j - 1] == p[j - 1];
    PassResult(p, x, rest, key, j);
    assert a[..i + 1] == a[..][..i + 1] && a[i + 1..] == a[..][i + 1..];
  }

  /** Where the pass stops, the array holds the insertion followed by the
      untouched rest. */
  lemma PassResult<T>(p: seq<T>, x: T, rest: seq<T>, key: T -> real, j: int)
    requires 0 <= j <= |p|
    requires forall k :: j <= k < |p| ==> key(p[k]) > key(x)
    requires j == 0 || key(p[j - 1]) <= key(x)
    ensures var s := p[..j] + [x] + p[j..] + rest;
      s[..|p| + 1] == Insert(p, x, key) && s[|p| + 1..] == rest
  {
    assert Insert(p[..j], x, key) == p[..j] + [x] by {
      if j > 0 {
        assert p[..j][j - 1] == p[j - 1];
      }
    }
    InsertSplit(p, x, key, j);
    var ins := p[..j] + [x] + p[j..];
    assert Insert(p, x, key) == ins;
    assert |ins| == |p| + 1;
  }

  /** Sorts `a` in place by `key`, stably. */
  method SortInPlace<T>(a: array<T>, key: T -> real)
    modifies a
    ensures a[..] == SortBy(old(a[..]), key)
  {
    ghost var input := a[..];
    var i := 0;
    while i < a.Length
      invariant 0 <= i <= a.Length
      invariant a[..i] == SortBy(input[..i], key)
      invariant a[i..] == input[i..]
    {
      assert a[i] == input[i];
      InsertPass(a, i, key);
      assert input[..i + 1][..i] == input[..i];
      i := i + 1;
    }
    assert input[..a.Length] == input;
  }

  /** Sorts a copy of `s` in a fresh array, as `Array.prototype.sort` does on
      the array `filter` returned. */
  method SortedCopy<T>(s: seq<T>, key: T -> real) returns (r: seq<T>)
    ensures r == SortBy(s, key)
  {
    var a := new T[|s|](k requires 0 <= k < |s| => s[k]);
    assert a[..] == s;
    SortInPlace(a, key);
    r := a[..];
  }
}
