/** The median filter over the line offsets: windows of neighbours, sorted, middle element. */
module MedianFilter {
  import opened Common

  predicate Sorted(s: seq<int>) {
    forall i, j :: 0 <= i < j < |s| ==> s[i] <= s[j]
  }

  // ---------------------------------------------------------------- sorting

  function Insert(x: int, s: seq<int>): seq<int> {
    if s == [] || x <= s[0] then [x] + s else [s[0]] + Insert(x, s[1..])
  }

  /** The library sort is taken as "the sorted permutation"; this is one. */
  function Sort(s: seq<int>): seq<int> {
    if s == [] then [] else Insert(s[0], Sort(s[1..]))
  }

  lemma {:induction false} InsertPermutes(x: int, s: seq<int>)
    ensures multiset(Insert(x, s)) == multiset(s) + multiset{x}
  {
    if s != [] && x > s[0] {
      InsertPermutes(x, s[1..]);
      assert s == [s[0]] + s[1..];
    }
  }

  lemma {:induction false} InsertAbove(x: int, s: seq<int>, low: int)
    requires low <= x && forall i :: 0 <= i < |s| ==> low <= s[i]
    ensures forall i :: 0 <= i < |Insert(x, s)| ==> low <= Insert(x, s)[i]
  {
    if s != [] && x > s[0] {
      InsertAbove(x, s[1..], low);
    }
  }

  lemma {:induction false} InsertSorted(x: int, s: seq<int>)
    requires Sorted(s)
    ensures Sorted(Insert(x, s))
  {
    if s != [] && x > s[0] {
      InsertSorted(x, s[1..]);
      InsertAbove(x, s[1..], s[0]);
    }
  }

  lemma {:induction false} SortSorts(s: seq<int>)
    ensures Sorted(Sort(s)) && multiset(Sort(s)) == multiset(s) && |Sort(s)| == |s|
  {
    if s != [] {
      SortSorts(s[1..]);
      InsertSorted(s[0], Sort(s[1..]));
      InsertPermutes(s[0], Sort(s[1..]));
      assert s == [s[0]] + s[1..];
      assert |multiset(Sort(s))| == |multiset(s)|;
    }
  }

  // ---------------------------------------------------------------- ranks

  /** How many elements are at most `v`. */
  function AtMost(s: seq<int>, v: int): nat {
    if s == [] then 0 else AtMost(s[1..], v) + if s[0] <= v then 1 else 0
  }

  lemma {:induction false} AtMostOfInsert(x: int, s: seq<int>, v: int)
    ensures AtMost(Insert(x, s), v) == AtMost(s, v) + if x <= v then 1 else 0
  {
    if s != [] && x > s[0] {
      AtMostOfInsert(x, s[1..], v);
      assert Insert(x, s)[1..] == Insert(x, s[1..]);
    } else {
      assert Insert(x, s)[1..] == s;
    }
  }

  lemma {:induction false} AtMostOfSort(s: seq<int>, v: int)
    ensures AtMost(Sort(s), v) == AtMost(s, v)
  {
    if s != [] {
      AtMostOfSort(s[1..], v);
      AtMostOfInsert(s[0], Sort(s[1..]), v);
    }
  }

  lemma {:induction false} AtMostOfSorted(s: seq<int>, k: nat)
    requires Sorted(s) && k < |s|
    ensures AtMost(s, s[k]) > k && AtMost(s, s[k] - 1) <= k
  {
    if k == 0 {
      NoneBelow(s, s[0] - 1);
    } else {
      AtMostOfSorted(s[1..], k - 1);
    }
  }

  lemma {:induction false} NoneBelow(s: seq<int>, v: int)
    requires forall i :: 0 <= i < |s| ==> s[i] > v
    ensures AtMost(s, v) == 0
  {
    if s != [] {
      NoneBelow(s[1..], v);
    }
  }

  /** `m` is an element of `s` with rank `k`: at most k elements are smaller, more than k are no larger. */
  ghost predicate HasRank(s: seq<int>, m: int, k: nat) {
    m in s && AtMost(s, m - 1) <= k < AtMost(s, m)
  }

  lemma SortedElementHasRank(s: seq<int>, k: nat)
    requires k < |s|
    ensures |Sort(s)| == |s| && HasRank(s, Sort(s)[k], k)
  {
    SortSorts(s);
    var m := Sort(s)[k];
    AtMostOfSorted(Sort(s), k);
    AtMostOfSort(s, m);
    AtMostOfSort(s, m - 1);
    SortKeepsMembers(s, m);
  }

  lemma SortKeepsMembers(s: seq<int>, m: int)
    ensures m in Sort(s) <==> m in s
  {
    SortSorts(s);
    assert m in Sort(s) <==> m in multiset(Sort(s));
  }

  /** The rank pins the element down. */
  lemma {:induction false} RankUnique(s: seq<int>, m: int, m': int, k: nat)
    requires HasRank(s, m, k) && HasRank(s, m', k)
    ensures m == m'
  {
    if m < m' {
      AtMostMonotone(s, m, m' - 1);
    } else if m' < m {
      AtMostMonotone(s, m', m - 1);
    }
  }

  lemma {:induction false} AtMostMonotone(s: seq<int>, v: int, w: int)
    requires v <= w
    ensures AtMost(s, v) <= AtMost(s, w)
  {
    if s != [] {
      AtMostMonotone(s[1..], v, w);
    }
  }

  // ---------------------------------------------------------------- the filter

  /** First and last index of the window around `i`. */
  function First(i: nat, filterSize: nat): int
    requires filterSize > 0
  {
    Max(i - (filterSize - 1) / 2, 0)
  }

  function Last(i: nat, size: nat, filterSize: nat): int
    requires filterSize > 0
  {
    Min(i + (filterSize - 1) / 2, size - 1)
  }

  function Window(data: seq<int>, i: nat, size: nat, filterSize: nat): (w: seq<int>)
    requires filterSize > 0 && i < size <= |data|
    ensures 0 < |w| <= filterSize
  {
    data[First(i, filterSize)..Last(i, size, filterSize) + 1]
  }

  /** `result` is the median of the window around `i`. */
  ghost predicate IsMedian(data: seq<int>, i: nat, size: nat, filterSize: nat, m: int)
    requires filterSize > 0 && i < size <= |data|
  {
    var w := Window(data, i, size, filterSize);
    HasRank(w, m, |w| / 2)
  }

  /** The window holds, in order, the entries at most half a filter size away, and no others. */
  lemma WindowIsNeighbourhood(data: seq<int>, i: nat, size: nat, filterSize: nat, j: nat)
    requires filterSize > 0 && i < size <= |data| && j < size
    ensures var w := Window(data, i, size, filterSize); var half := (filterSize - 1) / 2;
            var lo := if i < half then 0 else i - half;
            if i - half <= j <= i + half then lo <= j < lo + |w| && w[j - lo] == data[j]
            else j < lo || j >= lo + |w|
  {
  }

  /** Replace the first `size` entries by the medians of their windows. */
  method Filter(data: array<int>, size: nat, filterSize: nat)
    requires size <= data.Length && filterSize > 0
    modifies data
    ensures forall i :: 0 <= i < size ==> IsMedian(old(data[..]), i, size, filterSize, data[i])
    ensures data[size..] == old(data[size..])
  {
    var result := new int[size];
    for i := 0 to size
      invariant data[..] == old(data[..])
      invariant forall k :: 0 <= k < i ==> IsMedian(data[..], k, size, filterSize, result[k])
    {
      var i1 := i - (filterSize - 1) / 2;
      var i2 := i + (filterSize - 1) / 2;
      if i1 < 0 {
        i1 := 0;
      }
      if i2 >= size {
        i2 := size - 1;
      }
      var window := data[i1..i2 + 1];
      assert window == Window(data[..], i, size, filterSize);
      SortedElementHasRank(window, |window| / 2);
      result[i] := Sort(window)[(i2 - i1 + 1) / 2];
    }
    forall i | 0 <= i < size {
      data[i] := result[i];
    }
  }

  /** A median lies between bounds that hold for all filtered entries. */
  lemma MedianInBounds(data: seq<int>, i: nat, size: nat, filterSize: nat, m: int, lo: int, hi: int)
    requires filterSize > 0 && i < size <= |data|
    requires IsMedian(data, i, size, filterSize, m)
    requires forall k :: 0 <= k < size ==> lo <= data[k] <= hi
    ensures lo <= m <= hi
  {
    var w := Window(data, i, size, filterSize);
    var k :| 0 <= k < |w| && w[k] == m;
    assert w[k] == data[First(i, filterSize) + k];
  }
}
