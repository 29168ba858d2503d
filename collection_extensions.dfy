/** Shared/CollectionExtensions.cs: `OrderByWithGap`, a stable sort by an
    integer key followed by a rotation that starts the result at the last
    strict increase of the key, which puts the elements with the largest
    key first. The step is headed "Find Gap": a run of sequence ids that
    wrapped around (9, 10, 0, 1) was evidently to be put back in sending
    order by rotating at the gap between its two parts. As written it comes
    out as 10, 0, 1, 9; the last section of this module has that input and
    the rotation at the gap. */
module CollectionExtensions {
  import opened Wrappers

  /** `firstSort[0]` on an empty list throws ArgumentOutOfRangeException. */
  datatype GapError = EmptyList

  /** No key is larger than a later one. */
  predicate SortedByKey<T>(s: seq<T>, key: T -> int)
  {
    forall i, j :: 0 <= i < j < |s| ==> key(s[i]) <= key(s[j])
  }

  /** The elements of `s` whose key is `k`, in their order in `s`. */
  function KeyClass<T>(s: seq<T>, key: T -> int, k: int): (r: seq<T>)
    ensures |r| <= |s|
  {
    if |s| == 0 then []
    else (if key(s[0]) == k then [s[0]] else []) + KeyClass(s[1..], key, k)
  }

  /** Places `x` in front of the first element whose key is not smaller. */
  function InsertByKey<T>(x: T, s: seq<T>, key: T -> int): (r: seq<T>)
    requires SortedByKey(s, key)
    ensures SortedByKey(r, key)
    ensures multiset(r) == multiset(s) + multiset{x}
    ensures r[0] == x || (|s| > 0 && r[0] == s[0])
  {
    if |s| == 0 || key(x) <= key(s[0]) then
      ConsSorted(x, s, key);
      [x] + s
    else
      var rest := InsertByKey(x, s[1..], key);
      assert s == [s[0]] + s[1..];
      ConsSorted(s[0], rest, key);
      [s[0]] + rest
  }

  /** An element whose key is not larger than the first key of a sorted
      list can go in front of it. */
  lemma ConsSorted<T>(y: T, s: seq<T>, key: T -> int)
    requires SortedByKey(s, key) && (|s| == 0 || key(y) <= key(s[0]))
    ensures SortedByKey([y] + s, key)
  {
    var r := [y] + s;
    forall i, j | 0 <= i < j < |r|
      ensures key(r[i]) <= key(r[j])
    {
      if i > 0 {
        assert r[i] == s[i - 1] && r[j] == s[j - 1];
      } else {
        assert r[j] == s[j - 1];
        assert key(s[0]) <= key(s[j - 1]);
      }
    }
  }

  /** Inserting `x` puts it first among the elements with its key and
      moves no other element past one with the same key. */
  lemma {:induction false} InsertByKeyIsStable<T>(x: T, s: seq<T>, key: T -> int, k: int)
    requires SortedByKey(s, key)
    ensures KeyClass(InsertByKey(x, s, key), key, k) == (if key(x) == k then [x] else []) + KeyClass(s, key, k)
  {
    if |s| == 0 || key(x) <= key(s[0]) {
      assert ([x] + s)[1..] == s;
    } else {
      var rest := InsertByKey(x, s[1..], key);
      InsertByKeyIsStable(x, s[1..], key, k);
      assert ([s[0]] + rest)[1..] == rest;
      var tail := KeyClass(s[1..], key, k);
      assert KeyClass(rest, key, k) == (if key(x) == k then [x] else []) + tail;
      if key(s[0]) == k {
        assert KeyClass([s[0]] + rest, key, k) == [s[0]] + tail;
        assert KeyClass(s, key, k) == [s[0]] + tail;
      } else if key(x) == k {
        assert KeyClass([s[0]] + rest, key, k) == [x] + tail;
        assert KeyClass(s, key, k) == tail;
      } else {
        assert KeyClass([s[0]] + rest, key, k) == tail;
        assert KeyClass(s, key, k) == tail;
      }
    }
  }

  /** LINQ `OrderBy`: a stable sort by key. */
  function OrderBy<T>(s: seq<T>, key: T -> int): (r: seq<T>)
    ensures SortedByKey(r, key)
    ensures multiset(r) == multiset(s) && |r| == |s|
  {
    if |s| == 0 then []
    else
      assert s == [s[0]] + s[1..];
      InsertByKey(s[0], OrderBy(s[1..], key), key)
  }

  /** The sort is stable: for every key, the elements carrying it keep
      their input order. */
  lemma {:induction false} OrderByIsStable<T>(s: seq<T>, key: T -> int, k: int)
    ensures KeyClass(OrderBy(s, key), key, k) == KeyClass(s, key, k)
  {
    if |s| > 0 {
      OrderByIsStable(s[1..], key, k);
      InsertByKeyIsStable(s[0], OrderBy(s[1..], key), key, k);
    }
  }

  /** The value of `newRangeAt` after the loop has looked at indices
      `1 .. n-1`: the last of them where the key strictly increases. */
  function LastRise<T>(s: seq<T>, key: T -> int, n: int): (at: int)
    requires 0 <= n <= |s|
    ensures 0 <= at && (at == 0 || at < n)
  {
    if n <= 1 then 0
    else if key(s[n - 1]) > key(s[n - 2]) then n - 1
    else LastRise(s, key, n - 1)
  }

  /** `s` rotated so that it starts at its last strict key increase. */
  function RotateAtLastRise<T>(s: seq<T>, key: T -> int): (r: seq<T>)
    ensures |r| == |s|
  {
    var at := LastRise(s, key, |s|);
    s[at..] + s[..at]
  }

  /** The result `OrderByWithGap` returns for a nonempty list. */
  function GapOrdered<T>(list: seq<T>, key: T -> int): (r: seq<T>)
    ensures |r| == |list|
  {
    RotateAtLastRise(OrderBy(list, key), key)
  }

  /** `list.OrderByWithGap(orderBy)`. The input is a value and is left as
      it is. */
  method OrderByWithGap<T>(list: seq<T>, key: T -> int) returns (r: Result<seq<T>, GapError>)
    ensures list == [] ==> r == Err(EmptyList)
    ensures list != [] ==> r == Ok(GapOrdered(list, key))
  {
    var firstSort := OrderBy(list, key);
    if |firstSort| == 0 {
      return Err(EmptyList);
    }
    var prefValue := key(firstSort[0]);
    var newRangeAt := 0;
    for i := 1 to |firstSort|
      invariant prefValue == key(firstSort[i - 1])
      invariant newRangeAt == LastRise(firstSort, key, i)
    {
      var curValue := key(firstSort[i]);
      if curValue > prefValue {
        newRangeAt := i;
      }
      prefValue := curValue;
    }
    if newRangeAt > 0 {
      r := Ok(firstSort[newRangeAt..] + firstSort[..newRangeAt]);
    } else {
      assert firstSort[0..] + firstSort[..0] == firstSort;
      r := Ok(firstSort);
    }
  }

  /** `newRangeAt` is the last index below `n` where the key strictly
      increases, or 0 when there is none. */
  lemma {:induction false} LastRiseIsLastIncrease<T>(s: seq<T>, key: T -> int, n: int)
    requires 0 <= n <= |s|
    ensures var at := LastRise(s, key, n);
      && (at > 0 ==> key(s[at]) > key(s[at - 1]))
      && (forall j :: at < j < n && j >= 1 ==> key(s[j]) <= key(s[j - 1]))
  {
    if n > 1 && key(s[n - 1]) <= key(s[n - 2]) {
      LastRiseIsLastIncrease(s, key, n - 1);
    }
  }

  /** The result is a permutation of the input. */
  lemma GapOrderedIsPermutation<T>(list: seq<T>, key: T -> int)
    ensures multiset(GapOrdered(list, key)) == multiset(list)
  {
    var sorted := OrderBy(list, key);
    var at := LastRise(sorted, key, |sorted|);
    assert sorted == sorted[..at] + sorted[at..];
  }

  /** Every element of the sorted list comes from the input. */
  lemma SortedFromInput<T>(list: seq<T>, key: T -> int, p: int)
    requires 0 <= p < |list|
    ensures OrderBy(list, key)[p] in list
  {
    var sorted := OrderBy(list, key);
    assert sorted[p] in multiset(sorted);
  }

  /** A sequence whose keys are all equal has no rise and is not rotated. */
  lemma NoRotationWhenKeysEqual<T>(s: seq<T>, key: T -> int)
    requires forall p :: 0 <= p < |s| ==> key(s[p]) == key(s[0])
    ensures RotateAtLastRise(s, key) == s
  {
    LastRiseIsLastIncrease(s, key, |s|);
    assert s[0..] + s[..0] == s;
  }

  /** When every key is the same, no rotation happens: the result is the
      stable sort itself. */
  lemma EqualKeysKeepSortOrder<T>(list: seq<T>, key: T -> int)
    requires forall x :: x in list ==> key(x) == key(list[0])
    ensures GapOrdered(list, key) == OrderBy(list, key)
  {
    var sorted := OrderBy(list, key);
    forall p | 0 <= p < |sorted|
      ensures key(sorted[p]) == key(sorted[0])
    {
      SortedFromInput(list, key, p);
      SortedFromInput(list, key, 0);
    }
    NoRotationWhenKeysEqual(sorted, key);
  }

  /** In a sorted sequence whose keys do not increase after index `at`,
      every key from `at` on equals the key at `at`. */
  lemma {:induction false} FlatTail<T>(s: seq<T>, key: T -> int, at: int, j: int)
    requires SortedByKey(s, key) && 0 <= at <= j < |s|
    requires forall i :: at < i < |s| && i >= 1 ==> key(s[i]) <= key(s[i - 1])
    ensures key(s[j]) == key(s[at])
  {
    if j > at {
      FlatTail(s, key, at, j - 1);
    }
  }

  lemma {:induction false} KeyClassAppend<T>(a: seq<T>, b: seq<T>, key: T -> int, k: int)
    ensures KeyClass(a + b, key, k) == KeyClass(a, key, k) + KeyClass(b, key, k)
  {
    if |a| > 0 {
      assert (a + b)[1..] == a[1..] + b;
      KeyClassAppend(a[1..], b, key, k);
    } else {
      assert a + b == b;
    }
  }

  lemma {:induction false} KeyClassAllOrNone<T>(s: seq<T>, key: T -> int, k: int)
    ensures (forall i :: 0 <= i < |s| ==> key(s[i]) == k) ==> KeyClass(s, key, k) == s
    ensures (forall i :: 0 <= i < |s| ==> key(s[i]) != k) ==> KeyClass(s, key, k) == []
  {
    if |s| > 0 {
      KeyClassAllOrNone(s[1..], key, k);
      assert forall i :: 1 <= i < |s| ==> s[1..][i - 1] == s[i];
      assert s == [s[0]] + s[1..];
    }
  }

  /** A sorted sequence splits at its last rise into a prefix of smaller
      keys and a block whose keys all equal the largest key. */
  lemma SplitAtLastRise<T>(s: seq<T>, key: T -> int)
    requires |s| > 0 && SortedByKey(s, key)
    ensures var at := LastRise(s, key, |s|);
      && (forall p :: at <= p < |s| ==> key(s[p]) == key(s[at]))
      && (forall p :: 0 <= p < at ==> key(s[p]) < key(s[at]))
  {
    var n := |s|;
    LastRiseIsLastIncrease(s, key, n);
    var at := LastRise(s, key, n);
    forall p | at <= p < n
      ensures key(s[p]) == key(s[at])
    {
      FlatTail(s, key, at, p);
    }
    assert forall p :: 0 <= p < at ==> key(s[p]) < key(s[at]);
  }

  /** Every element of the input appears in the sorted list. */
  lemma InputInSorted<T>(list: seq<T>, key: T -> int, x: T) returns (q: int)
    requires x in list
    ensures 0 <= q < |list| && OrderBy(list, key)[q] == x
  {
    var sorted := OrderBy(list, key);
    assert x in multiset(list);
    assert x in multiset(sorted);
    q :| 0 <= q < |sorted| && sorted[q] == x;
  }

  /** In a sorted sequence, the block from the last rise on is exactly the
      elements with the largest key. */
  lemma TopBlockIsKeyClass<T>(s: seq<T>, key: T -> int, at: int)
    requires |s| > 0 && SortedByKey(s, key) && at == LastRise(s, key, |s|)
    ensures 0 <= at < |s|
    ensures KeyClass(s, key, key(s[at])) == s[at..]
  {
    var low, top := s[..at], s[at..];
    assert s == low + top;
    SplitAtLastRise(s, key);
    var m := key(s[at]);
    forall p | 0 <= p < |top|
      ensures key(top[p]) == m
    {
      assert top[p] == s[at + p];
    }
    forall p | 0 <= p < |low|
      ensures key(low[p]) != m
    {
      assert low[p] == s[p];
    }
    KeyClassOfSplit(low, top, key, m);
    assert KeyClass(s, key, m) == KeyClass(low + top, key, m);
  }

  /** A list of keys other than `m` followed by a block of key `m` has
      that block as its key class for `m`. */
  lemma KeyClassOfSplit<T>(low: seq<T>, top: seq<T>, key: T -> int, m: int)
    requires forall p :: 0 <= p < |top| ==> key(top[p]) == m
    requires forall p :: 0 <= p < |low| ==> key(low[p]) != m
    ensures KeyClass(low + top, key, m) == top
  {
    KeyClassAllOrNone(top, key, m);
    KeyClassAllOrNone(low, key, m);
    KeyClassAppend(low, top, key, m);
    assert [] + top == top;
  }

  /** Rotating a sorted sequence at its last rise puts the largest-key
      block first and leaves only smaller keys after it. */
  lemma RotationLeadsWithTopBlock<T>(s: seq<T>, key: T -> int, at: int)
    requires |s| > 0 && SortedByKey(s, key) && at == LastRise(s, key, |s|)
    ensures 0 <= at < |s|
    ensures RotateAtLastRise(s, key)[0] == s[at]
    ensures RotateAtLastRise(s, key)[..|s| - at] == s[at..]
    ensures forall p :: |s| - at <= p < |s| ==> key(RotateAtLastRise(s, key)[p]) < key(s[at])
  {
    SplitAtLastRise(s, key);
    var low, top := s[..at], s[at..];
    var r := top + low;
    assert r == RotateAtLastRise(s, key);
    assert r[..|top|] == top;
    forall p | |top| <= p < |r|
      ensures key(r[p]) < key(s[at])
    {
      assert r[p] == low[p - |top|] == s[p - |top|];
    }
  }

  /** With at least two distinct keys, the result opens with exactly the
      elements that carry the largest key, in input order, and every later
      element has a smaller key. */
  lemma MaxKeyElementsLead<T>(list: seq<T>, key: T -> int, i: int, j: int)
    requires 0 <= i < |list| && 0 <= j < |list| && key(list[i]) != key(list[j])
    ensures var r := GapOrdered(list, key);
      var top := KeyClass(list, key, key(r[0]));
      && (forall x :: x in list ==> key(x) <= key(r[0]))
      && 0 < |top| < |r|
      && r[..|top|] == top
      && (forall p :: |top| <= p < |r| ==> key(r[p]) < key(r[0]))
  {
    var s := OrderBy(list, key);
    var at := LastRise(s, key, |s|);
    var m := key(s[at]);
    RotationLeadsWithTopBlock(s, key, at);
    TopBlockIsKeyClass(s, key, at);
    OrderByIsStable(list, key, m);
    SortedTopKeyIsMax(list, key);
    DistinctKeysRise(list, key, i, j);
  }

  /** The key at the last rise of the sorted list is the largest key of
      the input. */
  lemma SortedTopKeyIsMax<T>(list: seq<T>, key: T -> int)
    requires |list| > 0
    ensures var s := OrderBy(list, key);
      forall x :: x in list ==> key(x) <= key(s[LastRise(s, key, |s|)])
  {
    var s := OrderBy(list, key);
    SplitAtLastRise(s, key);
    forall x | x in list
      ensures key(x) <= key(s[LastRise(s, key, |s|)])
    {
      var q := InputInSorted(list, key, x);
    }
  }

  /** Two distinct keys in the input give the sorted list a rise. */
  lemma DistinctKeysRise<T>(list: seq<T>, key: T -> int, i: int, j: int)
    requires 0 <= i < |list| && 0 <= j < |list| && key(list[i]) != key(list[j])
    ensures var s := OrderBy(list, key); LastRise(s, key, |s|) > 0
  {
    var s := OrderBy(list, key);
    SplitAtLastRise(s, key);
    var qi := InputInSorted(list, key, list[i]);
    var qj := InputInSorted(list, key, list[j]);
  }

  // ---------------------------------------------------------------------
  // The gap: the rotation as written, and at the gap

  /** Sequence ids ordered by themselves. */
  function SequenceIdKey(id: int): int
  {
    id
  }

  /** A sorted list whose neighbouring keys differ by exactly one, except
      for one jump of more than one into index `g`: the ids of a run that
      wrapped around the ring, after sorting. */
  predicate WrappedRun<T>(s: seq<T>, key: T -> int, g: int)
  {
    && 0 < g < |s|
    && key(s[g]) > key(s[g - 1]) + 1
    && (forall i, j :: 0 <= i < |s| && j == i + 1 && j < |s| && j != g ==> key(s[j]) == key(s[i]) + 1)
  }

  /** As written, the ids 9, 10, 0, 1, which sort to 0, 1, 9, 10, come
      out as 10, 0, 1, 9: the rotation at the last rise splits the upper
      part of the run. */
  lemma WrappedRunRotatedPastItsStart(sorted: seq<int>)
    requires sorted == [0, 1, 9, 10]
    ensures WrappedRun(sorted, SequenceIdKey, 2)
    ensures RotateAtLastRise(sorted, SequenceIdKey) == [10, 0, 1, 9]
  {
    assert LastRise(sorted, SequenceIdKey, 4) == 3;
    assert sorted[3..] + sorted[..3] == [10] + [0, 1, 9];
  }

  /** As written, on any wrapped run whose gap is not just before its last
      element, the result is out of sending order right after its first
      element, which is not where the run wraps. */
  lemma AsWrittenBreaksWrappedRun<T>(list: seq<T>, key: T -> int, g: int)
    requires WrappedRun(OrderBy(list, key), key, g) && g < |list| - 1
    ensures var r := GapOrdered(list, key);
      key(r[1]) != key(r[0]) + 1 && 1 != |r| - g
  {
    var s := OrderBy(list, key);
    var n := |s|;
    assert key(s[n - 1]) == key(s[n - 2]) + 1;
    assert LastRise(s, key, n) == n - 1;
    var r := GapOrdered(list, key);
    assert r == s[n - 1..] + s[..n - 1];
    assert r[0] == s[n - 1] && r[1] == s[0];
    assert key(s[0]) <= key(s[g - 1]) by {
      assert SortedByKey(s, key);
    }
    assert key(s[g]) <= key(s[n - 1]) by {
      assert SortedByKey(s, key);
      if g < n - 1 {
        assert key(s[g]) <= key(s[n - 1]);
      }
    }
  }

  /** The index just after the last jump of more than one between
      neighbouring keys among the first `n` elements, or 0 when there is
      none: the gap the "Find Gap" step looks for. */
  function LastGap<T>(s: seq<T>, key: T -> int, n: int): (at: int)
    requires 0 <= n <= |s|
    ensures 0 <= at && (at == 0 || at < n)
    ensures at > 0 ==> key(s[at]) > key(s[at - 1]) + 1
  {
    if n <= 1 then 0
    else if key(s[n - 1]) > key(s[n - 2]) + 1 then n - 1
    else LastGap(s, key, n - 1)
  }

  /** `s` rotated so that it starts just after its last gap. */
  function RotateAtLastGap<T>(s: seq<T>, key: T -> int): (r: seq<T>)
    ensures |r| == |s|
  {
    var at := LastGap(s, key, |s|);
    s[at..] + s[..at]
  }

  /** The evidently intended result: the stable sort rotated at its last
      gap. */
  function GapRotated<T>(list: seq<T>, key: T -> int): (r: seq<T>)
    ensures |r| == |list|
  {
    RotateAtLastGap(OrderBy(list, key), key)
  }

  /** In a wrapped run the only gap is the one at `g`. */
  lemma {:induction false} LastGapOfWrappedRun<T>(s: seq<T>, key: T -> int, g: int, n: int)
    requires WrappedRun(s, key, g) && g < n <= |s|
    ensures LastGap(s, key, n) == g
    decreases n
  {
    if n - 1 > g {
      assert key(s[n - 1]) == key(s[n - 2]) + 1;
      LastGapOfWrappedRun(s, key, g, n - 1);
    }
  }

  /** Rotated at the gap, a wrapped run is in sending order: it starts with
      the element just after the gap, every key is one more than the key
      before it, except at the single place where the run wraps, and it
      ends with the element just before the gap. */
  lemma WrappedRunInSendingOrder<T>(list: seq<T>, key: T -> int, g: int)
    requires WrappedRun(OrderBy(list, key), key, g)
    ensures var r := GapRotated(list, key);
      && r[0] == OrderBy(list, key)[g]
      && r[|r| - 1] == OrderBy(list, key)[g - 1]
      && (forall i :: 0 < i < |r| && i != |r| - g ==> key(r[i]) == key(r[i - 1]) + 1)
  {
    var s := OrderBy(list, key);
    var n := |s|;
    LastGapOfWrappedRun(s, key, g, n);
    var r := GapRotated(list, key);
    assert r == s[g..] + s[..g];
    forall i | 0 < i < n && i != n - g
      ensures key(r[i]) == key(r[i - 1]) + 1
    {
      if i < n - g {
        assert r[i] == s[g + i] && r[i - 1] == s[g + i - 1];
      } else {
        assert r[i] == s[i - (n - g)] && r[i - 1] == s[i - 1 - (n - g)];
      }
    }
  }

  /** At the gap, the same ids stay in sending order, 9, 10, 0, 1. */
  lemma WrappedRunKeptInOrder(sorted: seq<int>)
    requires sorted == [0, 1, 9, 10]
    ensures RotateAtLastGap(sorted, SequenceIdKey) == [9, 10, 0, 1]
  {
    assert LastGap(sorted, SequenceIdKey, 4) == 2;
    assert sorted[2..] + sorted[..2] == [9, 10] + [0, 1];
  }
}
