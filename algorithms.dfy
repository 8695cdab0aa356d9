/** Generic range algorithms the container is built from: the halving search
    behind std::lower_bound and std::upper_bound, the linear std::find, and an
    in-place sort whose result is ordered by a lexicographic key. */
module Algorithms {

  /** A five-level sort key compared lexicographically; a comparator that
      agrees with it on the elements it sees is a strict weak order there. */
  datatype Key = Key(k0: int, k1: int, k2: int, k3: int, k4: int)

  predicate KeyLess(a: Key, b: Key)
  {
    if a.k0 != b.k0 then a.k0 < b.k0
    else if a.k1 != b.k1 then a.k1 < b.k1
    else if a.k2 != b.k2 then a.k2 < b.k2
    else if a.k3 != b.k3 then a.k3 < b.k3
    else a.k4 < b.k4
  }

  predicate KeyLe(a: Key, b: Key)
  {
    !KeyLess(b, a)
  }

  /** `pred` holds on a prefix of s[lo..hi) and fails on the rest: the
      precondition std::lower_bound and std::upper_bound place on their range. */
  ghost predicate Partitioned<T>(s: seq<T>, lo: nat, hi: nat, pred: T -> bool)
    requires lo <= hi <= |s|
  {
    forall i, j :: lo <= i < j < hi && pred(s[j]) ==> pred(s[i])
  }

  /** The search of std::lower_bound / std::upper_bound over s[first..first+count):
      probe the middle element, keep the half that can still hold the partition
      point. lower_bound(v) is pred(x) = x < v, upper_bound(v) is pred(x) = !(v < x). */
  function PartitionPoint<T>(s: seq<T>, first: nat, count: nat, pred: T -> bool): (r: nat)
    requires first + count <= |s|
    ensures first <= r <= first + count
    decreases count
  {
    if count == 0 then first
    else
      var step := count / 2;
      if pred(s[first + step]) then PartitionPoint(s, first + step + 1, count - step - 1, pred)
      else PartitionPoint(s, first, step, pred)
  }

  /** On a partitioned range the search finds the partition point: `pred`
      holds before it and fails from it on. */
  lemma PartitionPointSplits<T>(s: seq<T>, first: nat, count: nat, pred: T -> bool)
    requires first + count <= |s|
    requires Partitioned(s, first, first + count, pred)
    ensures var r := PartitionPoint(s, first, count, pred);
            && (forall i :: first <= i < r ==> pred(s[i]))
            && (forall i :: r <= i < first + count ==> !pred(s[i]))
  {
    PredHoldsBeforePartitionPoint(s, first, count, pred);
    PredFailsFromPartitionPoint(s, first, count, pred);
  }

  lemma {:induction false} PredHoldsBeforePartitionPoint<T>(s: seq<T>, first: nat, count: nat, pred: T -> bool)
    requires first + count <= |s|
    requires Partitioned(s, first, first + count, pred)
    ensures forall i :: first <= i < PartitionPoint(s, first, count, pred) ==> pred(s[i])
    decreases count
  {
    if count > 0 {
      var step := count / 2;
      var mid := first + step;
      if pred(s[mid]) {
        assert forall i :: first <= i <= mid ==> pred(s[i]);
        PartitionedSub(s, first, first + count, mid + 1, first + count, pred);
        PredHoldsBeforePartitionPoint(s, mid + 1, count - step - 1, pred);
      } else {
        PartitionedSub(s, first, first + count, first, mid, pred);
        PredHoldsBeforePartitionPoint(s, first, step, pred);
      }
    }
  }

  lemma {:induction false} PredFailsFromPartitionPoint<T>(s: seq<T>, first: nat, count: nat, pred: T -> bool)
    requires first + count <= |s|
    requires Partitioned(s, first, first + count, pred)
    ensures forall i :: PartitionPoint(s, first, count, pred) <= i < first + count ==> !pred(s[i])
    decreases count
  {
    if count > 0 {
      var step := count / 2;
      var mid := first + step;
      if pred(s[mid]) {
        PartitionedSub(s, first, first + count, mid + 1, first + count, pred);
        PredFailsFromPartitionPoint(s, mid + 1, count - step - 1, pred);
      } else {
        assert forall i :: mid <= i < first + count ==> !pred(s[i]);
        PartitionedSub(s, first, first + count, first, mid, pred);
        PredFailsFromPartitionPoint(s, first, step, pred);
      }
    }
  }

  lemma PartitionedSub<T>(s: seq<T>, lo: nat, hi: nat, lo': nat, hi': nat, pred: T -> bool)
    requires lo <= lo' <= hi' <= hi <= |s|
    requires Partitioned(s, lo, hi, pred)
    ensures Partitioned(s, lo', hi', pred)
  {
  }

  /** Two searches with the same probes: where `pred` implies `wider`, the
      partition point of `pred` is at or before that of `wider`. This is why
      equal_range's lower bound never passes its upper bound. */
  lemma {:induction false} PartitionPointMonotone<T>(s: seq<T>, first: nat, count: nat, pred: T -> bool, wider: T -> bool)
    requires first + count <= |s|
    requires forall i :: first <= i < first + count && pred(s[i]) ==> wider(s[i])
    ensures PartitionPoint(s, first, count, pred) <= PartitionPoint(s, first, count, wider)
    decreases count
  {
    if count > 0 {
      var step := count / 2;
      var mid := first + step;
      var r := PartitionPoint(s, first, count, pred);
      var q := PartitionPoint(s, first, count, wider);
      if pred(s[mid]) {
        assert wider(s[mid]);
        assert r == PartitionPoint(s, mid + 1, count - step - 1, pred);
        assert q == PartitionPoint(s, mid + 1, count - step - 1, wider);
        PartitionPointMonotone(s, mid + 1, count - step - 1, pred, wider);
      } else if wider(s[mid]) {
        assert r == PartitionPoint(s, first, step, pred);
        assert q == PartitionPoint(s, mid + 1, count - step - 1, wider);
      } else {
        assert r == PartitionPoint(s, first, step, pred);
        assert q == PartitionPoint(s, first, step, wider);
        PartitionPointMonotone(s, first, step, pred, wider);
      }
    }
  }

  /** std::find over s[lo..hi): the first position whose element matches, or hi. */
  function Find<T>(s: seq<T>, lo: nat, hi: nat, matches: T -> bool): (r: nat)
    requires lo <= hi <= |s|
    ensures lo <= r <= hi
    ensures forall i :: lo <= i < r ==> !matches(s[i])
    ensures r < hi ==> matches(s[r])
    decreases hi - lo
  {
    if lo == hi then hi
    else if matches(s[lo]) then lo
    else Find(s, lo + 1, hi, matches)
  }

  /** The sequence lo, lo + 1, ..., hi - 1 of positions. */
  function Interval(lo: nat, hi: nat): (r: seq<nat>)
    requires lo <= hi
    ensures |r| == hi - lo
    ensures forall k :: 0 <= k < |r| ==> r[k] == lo + k
  {
    seq(hi - lo, k requires 0 <= k < hi - lo => lo + k)
  }

  lemma InIntervalIff(lo: nat, hi: nat, x: nat)
    requires lo <= hi
    ensures x in multiset(Interval(lo, hi)) <==> lo <= x < hi
  {
    var r := Interval(lo, hi);
    if lo <= x < hi {
      assert r[x - lo] == x;
    }
  }

  lemma KeyLeTrans(a: Key, b: Key, c: Key)
    requires KeyLe(a, b) && KeyLe(b, c)
    ensures KeyLe(a, c)
  {
  }

  /** Mid-insertion state: s[m] is the element being inserted; the rest of
      s[..n + 1] is ordered, and s[m] sorts before everything right of it. */
  ghost predicate Inserting<T>(s: seq<T>, m: nat, n: nat, key: T -> Key)
  {
    && m <= n < |s|
    && (forall i, j :: 0 <= i < j <= n && i != m && j != m ==> KeyLe(key(s[i]), key(s[j])))
    && (forall j :: m < j <= n ==> KeyLess(key(s[m]), key(s[j])))
  }

  lemma SwapKeepsInserting<T>(s: seq<T>, m: nat, n: nat, key: T -> Key)
    requires Inserting(s, m, n, key) && 0 < m
    requires KeyLess(key(s[m]), key(s[m - 1]))
    ensures Inserting(s[m - 1 := s[m]][m := s[m - 1]], m - 1, n, key)
  {
  }

  /** Exchanging two neighbours permutes a sequence. */
  lemma SwapPermutes<T>(s: seq<T>, m: nat)
    requires 0 < m < |s|
    ensures multiset(s[m - 1 := s[m]][m := s[m - 1]]) == multiset(s)
  {
    var t := s[m - 1 := s[m]][m := s[m - 1]];
    assert s == s[..m - 1] + [s[m - 1], s[m]] + s[m + 1..];
    assert t == s[..m - 1] + [s[m], s[m - 1]] + s[m + 1..];
  }

  lemma InsertingDone<T>(s: seq<T>, m: nat, n: nat, key: T -> Key)
    requires Inserting(s, m, n, key)
    requires 0 < m ==> KeyLe(key(s[m - 1]), key(s[m]))
    ensures forall i, j :: 0 <= i < j <= n ==> KeyLe(key(s[i]), key(s[j]))
  {
    forall i, j | 0 <= i < j <= n
      ensures KeyLe(key(s[i]), key(s[j]))
    {
      if j == m && i < m - 1 {
        KeyLeTrans(key(s[i]), key(s[m - 1]), key(s[m]));
      }
    }
  }

  /** `less` is the strict order of `key` on the elements of `elems`. */
  ghost predicate LessIsKeyOrder<T>(less: (T, T) -> bool, key: T -> Key, elems: multiset<T>)
  {
    forall x, y :: x in elems && y in elems ==> (less(x, y) <==> KeyLess(key(x), key(y)))
  }

  /** One step of insertion sort: a[..n] is ordered by `key`; moves a[n] left
      past every element it sorts before, so that a[..n + 1] is ordered. */
  method InsertLast<T(==)>(a: array<T>, n: nat, less: (T, T) -> bool, ghost key: T -> Key, ghost elems: multiset<T>)
    requires n < a.Length
    requires multiset(a[..]) == elems && LessIsKeyOrder(less, key, elems)
    requires forall i, j :: 0 <= i < j < n ==> KeyLe(key(a[i]), key(a[j]))
    modifies a
    ensures multiset(a[..]) == elems
    ensures forall i, j :: 0 <= i < j <= n ==> KeyLe(key(a[i]), key(a[j]))
    ensures a[n + 1..] == old(a[n + 1..])
  {
    var m := n;
    while 0 < m && less(a[m], a[m - 1])
      invariant multiset(a[..]) == elems
      invariant a[n + 1..] == old(a[n + 1..])
      invariant 0 <= m <= n
      invariant Inserting(a[..], m, n, key)
    {
      ghost var s := a[..];
      assert s[m] in elems && s[m - 1] in elems;
      SwapKeepsInserting(s, m, n, key);
      SwapPermutes(s, m);
      a[m - 1], a[m] := a[m], a[m - 1];
      assert a[..] == s[m - 1 := s[m]][m := s[m - 1]];
      m := m - 1;
    }
    ghost var s := a[..];
    assert 0 < m ==> s[m] in elems && s[m - 1] in elems;
    InsertingDone(s, m, n, key);
  }

  /** Sorts `a` in place with the comparator `less`, as std::ranges::sort does.
      On the array's elements `less` must agree with the key order of `key`,
      which makes it a strict weak order there, as std::sort demands. */
  method SortInPlace<T(==)>(a: array<T>, less: (T, T) -> bool, ghost key: T -> Key)
    requires LessIsKeyOrder(less, key, multiset(a[..]))
    modifies a
    ensures multiset(a[..]) == multiset(old(a[..]))
    ensures forall i, j :: 0 <= i < j < a.Length ==> KeyLe(key(a[i]), key(a[j]))
  {
    ghost var elems := multiset(a[..]);
    var n := 0;
    while n < a.Length
      invariant 0 <= n <= a.Length
      invariant multiset(a[..]) == elems
      invariant forall i, j :: 0 <= i < j < n ==> KeyLe(key(a[i]), key(a[j]))
    {
      InsertLast(a, n, less, key, elems);
      n := n + 1;
    }
  }
}
