/**
  Bottom-up merging of a sequence, as values: what one merge, one pass and the whole sort produce.
 */
module StableMerge {

  /** The sort key of every item. */
  type Keys<!T> = map<T, int>

  function Key<T>(keys: Keys<T>, x: T): int { if x in keys then keys[x] else 0 }

  function Min(a: nat, b: nat): nat { if a <= b then a else b }

  function Merge<T>(a: seq<T>, b: seq<T>, keys: Keys<T>): (r: seq<T>)
    ensures |r| == |a| + |b|
    decreases |a| + |b|
  {
    if a == [] then b
    else if b == [] then a
    else if Key(keys, a[0]) <= Key(keys, b[0]) then [a[0]] + Merge(a[1..], b, keys)
    else [b[0]] + Merge(a, b[1..], keys)
  }

  /** Merge neighbouring runs of length n, two by two. */
  function Pass<T>(s: seq<T>, n: nat, keys: Keys<T>): (r: seq<T>)
    requires n > 0
    ensures |r| == |s|
    decreases |s|
  {
    if s == [] then []
    else
      var mid, end := Min(n, |s|), Min(2 * n, |s|);
      Merge(s[..mid], s[mid..end], keys) + Pass(s[end..], n, keys)
  }

  /** Passes of doubling run length, the last being the one that makes a single merge. */
  function Sort<T>(s: seq<T>, n: nat, keys: Keys<T>): (r: seq<T>)
    requires n > 0
    ensures |r| == |s|
    decreases |s| - n
  {
    if |s| <= 2 * n then Pass(s, n, keys) else Sort(Pass(s, n, keys), 2 * n, keys)
  }

  ghost predicate Sorted<T>(s: seq<T>, keys: Keys<T>) {
    forall i, j | 0 <= i < j < |s| :: Key(keys, s[i]) <= Key(keys, s[j])
  }

  /** Every aligned run of n items is sorted. */
  ghost predicate Runs<T>(s: seq<T>, n: nat, keys: Keys<T>)
    requires n > 0
    decreases |s|
  {
    s == [] || (Sorted(s[..Min(n, |s|)], keys) && Runs(s[Min(n, |s|)..], n, keys))
  }

  /** The items of key k, in order: equal for two sequences exactly when nothing moved among them. */
  function Only<T>(s: seq<T>, k: int, keys: Keys<T>): seq<T> {
    if s == [] then []
    else (if Key(keys, s[0]) == k then [s[0]] else []) + Only(s[1..], k, keys)
  }

  lemma {:induction false} OnlyJoin<T>(a: seq<T>, b: seq<T>, k: int, keys: Keys<T>)
    ensures Only(a + b, k, keys) == Only(a, k, keys) + Only(b, k, keys)
  {
    if a == [] {
      assert a + b == b;
    } else {
      assert (a + b)[0] == a[0] && (a + b)[1..] == a[1..] + b;
      OnlyJoin(a[1..], b, k, keys);
    }
  }

  /** Nothing of key k follows an item of a larger key in a sorted sequence. */
  lemma {:induction false} OnlyEmpty<T>(s: seq<T>, k: int, keys: Keys<T>)
    requires forall i | 0 <= i < |s| :: Key(keys, s[i]) > k
    ensures Only(s, k, keys) == []
  {
    if s != [] {
      OnlyEmpty(s[1..], k, keys);
    }
  }

  lemma OnlySplit<T>(s: seq<T>, k: int, keys: Keys<T>)
    ensures s == [] ==> Only(s, k, keys) == []
    ensures s != [] ==>
      Only(s, k, keys) == (if Key(keys, s[0]) == k then [s[0]] else []) + Only(s[1..], k, keys)
  {
    hide Key;
  }

  lemma MergeSplit<T>(a: seq<T>, b: seq<T>, keys: Keys<T>)
    requires a != [] && b != []
    ensures
      var m := Merge(a, b, keys);
      if Key(keys, a[0]) <= Key(keys, b[0]) then m[0] == a[0] && m[1..] == Merge(a[1..], b, keys)
      else m[0] == b[0] && m[1..] == Merge(a, b[1..], keys)
  {
    hide Key;
  }

  lemma SortedTail<T>(a: seq<T>, keys: Keys<T>)
    requires a != [] && Sorted(a, keys)
    ensures Sorted(a[1..], keys) && forall i | 0 <= i < |a| :: Key(keys, a[0]) <= Key(keys, a[i])
  {
    hide Key;
  }

  lemma {:induction false} MergeStable<T>(a: seq<T>, b: seq<T>, k: int, keys: Keys<T>)
    requires Sorted(a, keys)
    ensures Only(Merge(a, b, keys), k, keys) == Only(a, k, keys) + Only(b, k, keys)
    decreases |a| + |b|
  {
    hide Key, Only, Sorted;
    OnlySplit(a, k, keys);
    OnlySplit(b, k, keys);
    if a != [] && b != [] {
      SortedTail(a, keys);
      MergeSplit(a, b, keys);
      OnlySplit(Merge(a, b, keys), k, keys);
      if Key(keys, a[0]) <= Key(keys, b[0]) {
        MergeStable(a[1..], b, k, keys);
      } else {
        MergeStable(a, b[1..], k, keys);
        if Key(keys, b[0]) == k {
          OnlyEmpty(a, k, keys);
        }
      }
    }
  }

  /** An item of the merge comes from one of the two. */
  lemma {:induction false} MergeFrom<T>(a: seq<T>, b: seq<T>, keys: Keys<T>, i: nat)
    requires i < |a| + |b|
    ensures Merge(a, b, keys)[i] in a || Merge(a, b, keys)[i] in b
    decreases |a| + |b|
  {
    if a != [] && b != [] && i > 0 {
      if Key(keys, a[0]) <= Key(keys, b[0]) {
        MergeFrom(a[1..], b, keys, i - 1);
      } else {
        MergeFrom(a, b[1..], keys, i - 1);
      }
    }
  }

  lemma {:induction false} MergeSorted<T>(a: seq<T>, b: seq<T>, keys: Keys<T>)
    requires Sorted(a, keys) && Sorted(b, keys)
    ensures Sorted(Merge(a, b, keys), keys)
    decreases |a| + |b|
  {
    if a != [] && b != [] {
      var m := Merge(a, b, keys);
      if Key(keys, a[0]) <= Key(keys, b[0]) {
        MergeSorted(a[1..], b, keys);
        SmallestFirst(a[0], a[1..], b, keys);
        assert m == [a[0]] + Merge(a[1..], b, keys);
      } else {
        MergeSorted(a, b[1..], keys);
        SmallestFirst(b[0], a, b[1..], keys);
        assert m == [b[0]] + Merge(a, b[1..], keys);
      }
    }
  }

  lemma SmallestFirst<T>(x: T, a: seq<T>, b: seq<T>, keys: Keys<T>)
    requires forall i | 0 <= i < |a| :: Key(keys, x) <= Key(keys, a[i])
    requires forall i | 0 <= i < |b| :: Key(keys, x) <= Key(keys, b[i])
    ensures forall i | 0 <= i < |a| + |b| :: Key(keys, x) <= Key(keys, Merge(a, b, keys)[i])
  {
    forall i | 0 <= i < |a| + |b|
      ensures Key(keys, x) <= Key(keys, Merge(a, b, keys)[i])
    {
      MergeFrom(a, b, keys, i);
    }
  }

  /** One pass doubles the length of the sorted runs and moves nothing among equal keys. */
  lemma {:induction false} PassDoublesRuns<T>(s: seq<T>, n: nat, keys: Keys<T>)
    requires n > 0 && Runs(s, n, keys)
    ensures Runs(Pass(s, n, keys), 2 * n, keys)
    decreases |s|
  {
    hide Sorted, Key, Merge;
    if s != [] {
      var mid, end := Min(n, |s|), Min(2 * n, |s|);
      NextRuns(s, n, keys);
      MergeSorted(s[..mid], s[mid..end], keys);
      PassDoublesRuns(s[end..], n, keys);
      var m, rest := Merge(s[..mid], s[mid..end], keys), Pass(s[end..], n, keys);
      var r := Pass(s, n, keys);
      assert r == m + rest && |m| == end;
      assert r[..Min(2 * n, |r|)] == m && r[Min(2 * n, |r|)..] == rest;
    }
  }

  /** The first two runs, and what follows them. */
  lemma NextRuns<T>(s: seq<T>, n: nat, keys: Keys<T>)
    requires n > 0 && Runs(s, n, keys)
    ensures
      var mid, end := Min(n, |s|), Min(2 * n, |s|);
      Sorted(s[..mid], keys) && Sorted(s[mid..end], keys) && Runs(s[end..], n, keys)
  {
    hide Key;
    var mid, end := Min(n, |s|), Min(2 * n, |s|);
    if |s| > n {
      var t := s[mid..];
      assert t[..Min(n, |t|)] == s[mid..end] && t[Min(n, |t|)..] == s[end..];
    }
  }

  lemma PassSplit<T>(s: seq<T>, n: nat, keys: Keys<T>)
    requires n > 0 && s != []
    ensures
      var mid, end := Min(n, |s|), Min(2 * n, |s|);
      && Pass(s, n, keys) == Merge(s[..mid], s[mid..end], keys) + Pass(s[end..], n, keys)
      && s == s[..mid] + s[mid..end] + s[end..]
  {
    hide Merge;
  }

  lemma {:induction false} PassStable<T>(s: seq<T>, n: nat, k: int, keys: Keys<T>)
    requires n > 0 && Runs(s, n, keys)
    ensures Only(Pass(s, n, keys), k, keys) == Only(s, k, keys)
    decreases |s|
  {
    hide Sorted, Key, Merge, Only, Runs, Pass;
    if s == [] {
      assert Pass(s, n, keys) == [];
    } else {
      var mid, end := Min(n, |s|), Min(2 * n, |s|);
      NextRuns(s, n, keys);
      PassSplit(s, n, keys);
      MergeStable(s[..mid], s[mid..end], k, keys);
      PassStable(s[end..], n, k, keys);
      OnlyJoin(Merge(s[..mid], s[mid..end], keys), Pass(s[end..], n, keys), k, keys);
      OnlyJoin(s[..mid], s[mid..end], k, keys);
      OnlyJoin(s[..mid] + s[mid..end], s[end..], k, keys);
    }
  }

  lemma {:induction false} SingletonRuns<T>(s: seq<T>, keys: Keys<T>)
    ensures Runs(s, 1, keys)
  {
    if s != [] {
      SingletonRuns(s[1..], keys);
    }
  }

  /** From sorted runs of length n the sort ends sorted, with equal keys in their old order. */
  lemma {:induction false} SortCorrect<T>(s: seq<T>, n: nat, keys: Keys<T>)
    requires n > 0 && Runs(s, n, keys)
    ensures Sorted(Sort(s, n, keys), keys)
    ensures forall k :: Only(Sort(s, n, keys), k, keys) == Only(s, k, keys)
    decreases |s| - n
  {
    hide Sorted, Key, Merge, Only, Pass;
    var r := Pass(s, n, keys);
    PassDoublesRuns(s, n, keys);
    forall k
      ensures Only(r, k, keys) == Only(s, k, keys)
    {
      PassStable(s, n, k, keys);
    }
    if |s| <= 2 * n {
      OneRun(r, 2 * n, keys);
    } else {
      SortCorrect(r, 2 * n, keys);
    }
  }

  lemma OneRun<T>(s: seq<T>, n: nat, keys: Keys<T>)
    requires n > 0 && |s| <= n && Runs(s, n, keys)
    ensures Sorted(s, keys)
  {
    if s != [] {
      assert s[..Min(n, |s|)] == s;
    }
  }

  /** One step of a merge: the left run's first item goes out on a tie, or when the right run is used up. */
  lemma MergeTakesLeft<T>(s: seq<T>, ip: nat, mid: nat, iq: nat, end: nat, keys: Keys<T>)
    requires ip < mid <= iq <= end <= |s|
    requires iq == end || Key(keys, s[ip]) <= Key(keys, s[iq])
    ensures Merge(s[ip..mid], s[iq..end], keys) == [s[ip]] + Merge(s[ip + 1..mid], s[iq..end], keys)
  {
    assert s[ip..mid][1..] == s[ip + 1..mid];
    if iq == end {
      assert s[iq..end] == [];
      assert s[ip..mid] == [s[ip]] + s[ip + 1..mid];
    }
  }

  lemma MergeTakesRight<T>(s: seq<T>, ip: nat, mid: nat, iq: nat, end: nat, keys: Keys<T>)
    requires ip <= mid <= iq < end <= |s|
    requires ip == mid || Key(keys, s[ip]) > Key(keys, s[iq])
    ensures Merge(s[ip..mid], s[iq..end], keys) == [s[iq]] + Merge(s[ip..mid], s[iq + 1..end], keys)
  {
    assert s[iq..end][1..] == s[iq + 1..end];
    if ip == mid {
      assert s[ip..mid] == [];
      assert s[iq..end] == [s[iq]] + s[iq + 1..end];
    }
  }

  /** Equal selections for every key make equal multisets. */
  lemma CountSplit<T>(s: seq<T>, x: T)
    requires s != []
    ensures multiset(s)[x] == (if s[0] == x then 1 else 0) + multiset(s[1..])[x]
  {
    assert s == [s[0]] + s[1..];
  }

  lemma {:induction false} OnlyCounts<T>(s: seq<T>, x: T, keys: Keys<T>)
    ensures multiset(s)[x] == multiset(Only(s, Key(keys, x), keys))[x]
  {
    hide Key, Only;
    OnlySplit(s, Key(keys, x), keys);
    if s != [] {
      OnlyCounts(s[1..], x, keys);
      CountSplit(s, x);
      if Key(keys, s[0]) == Key(keys, x) {
        var r := Only(s, Key(keys, x), keys);
        assert r[1..] == Only(s[1..], Key(keys, x), keys);
        CountSplit(r, x);
      }
    }
  }

  lemma SamePermutation<T>(s: seq<T>, t: seq<T>, keys: Keys<T>)
    requires forall k :: Only(s, k, keys) == Only(t, k, keys)
    ensures multiset(s) == multiset(t)
  {
    hide Only;
    forall x
      ensures multiset(s)[x] == multiset(t)[x]
    {
      OnlyCounts(s, x, keys);
      OnlyCounts(t, x, keys);
    }
  }

  /** A stable sort has only one possible result. */
  lemma {:induction false} StableSortUnique<T>(s: seq<T>, t: seq<T>, keys: Keys<T>)
    requires Sorted(s, keys) && Sorted(t, keys)
    requires forall k :: Only(s, k, keys) == Only(t, k, keys)
    ensures s == t
    decreases |s|
  {
    SamePermutation(s, t, keys);
    assert |s| == |multiset(s)| == |t|;
    if s != [] {
      HeadFirst(s, t, keys);
      assert s == [s[0]] + s[1..] && t == [t[0]] + t[1..];
      forall k
        ensures Only(s[1..], k, keys) == Only(t[1..], k, keys)
      {
        assert Only(s, k, keys) == Only(t, k, keys);
        var h := if Key(keys, s[0]) == k then [s[0]] else [];
        assert Only(s, k, keys) == h + Only(s[1..], k, keys);
        assert Only(t, k, keys) == h + Only(t[1..], k, keys);
        assert Only(s[1..], k, keys) == Only(s, k, keys)[|h|..];
        assert Only(t[1..], k, keys) == Only(t, k, keys)[|h|..];
      }
      StableSortUnique(s[1..], t[1..], keys);
    }
  }

  lemma HeadFirst<T>(s: seq<T>, t: seq<T>, keys: Keys<T>)
    requires |s| == |t| > 0 && multiset(s) == multiset(t) && Sorted(s, keys) && Sorted(t, keys)
    requires forall k :: Only(s, k, keys) == Only(t, k, keys)
    ensures s[0] == t[0]
  {
    assert s[0] in multiset(s) && t[0] in multiset(t);
    assert s[0] in t && t[0] in s;
    assert Key(keys, s[0]) == Key(keys, t[0]);
    var k := Key(keys, s[0]);
    assert Only(s, k, keys)[0] == s[0] && Only(t, k, keys)[0] == t[0];
  }

  /** Items with different keys are sorted back into one and the same order, wherever they start from. */
  lemma SortForgetsOrder<T>(s: seq<T>, t: seq<T>, keys: Keys<T>)
    requires multiset(s) == multiset(t)
    requires forall x, y | x in s && y in s && Key(keys, x) == Key(keys, y) :: x == y
    ensures Sort(s, 1, keys) == Sort(t, 1, keys)
  {
    hide Only, Sort, Sorted, Key, Runs;
    SingletonRuns(s, keys);
    SingletonRuns(t, keys);
    SortCorrect(s, 1, keys);
    SortCorrect(t, 1, keys);
    forall k
      ensures Only(s, k, keys) == Only(t, k, keys)
    {
      AtMostOne(s, t, k, keys);
    }
    StableSortUnique(Sort(s, 1, keys), Sort(t, 1, keys), keys);
  }

  lemma {:induction false} OnlyMembers<T>(s: seq<T>, k: int, keys: Keys<T>)
    ensures forall x | x in Only(s, k, keys) :: x in s && Key(keys, x) == k
  {
    if s != [] {
      OnlyMembers(s[1..], k, keys);
    }
  }

  /** Selections whose items are all equal and equally many are equal. */
  lemma AtMostOne<T>(s: seq<T>, t: seq<T>, k: int, keys: Keys<T>)
    requires multiset(s) == multiset(t)
    requires forall x, y | x in s && y in s && Key(keys, x) == Key(keys, y) :: x == y
    ensures Only(s, k, keys) == Only(t, k, keys)
  {
    hide Only, Key;
    var a, b := Only(s, k, keys), Only(t, k, keys);
    OnlyMembers(s, k, keys);
    OnlyMembers(t, k, keys);
    assert forall x | x in t :: x in multiset(t);
    assert forall x | x in t :: x in s;
    if a == [] && b == [] {
    } else {
      var x := if a != [] then a[0] else b[0];
      assert x in s && Key(keys, x) == k;
      AllOne(a, x);
      AllOne(b, x);
      OnlyCounts(s, x, keys);
      OnlyCounts(t, x, keys);
    }
  }

  lemma {:induction false} AllOne<T>(a: seq<T>, x: T)
    requires forall y | y in a :: y == x
    ensures multiset(a)[x] == |a| && forall i | 0 <= i < |a| :: a[i] == x
  {
    if a != [] {
      assert a == [a[0]] + a[1..] && a[0] in a;
      assert forall y | y in a[1..] :: y in a;
      AllOne(a[1..], x);
    }
  }
}
