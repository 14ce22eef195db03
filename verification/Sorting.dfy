/** Ascending order, for the places where the host sorts a small buffer and reads one position. */
module Sorting {
  import opened Numbers

  ghost predicate Ascending(xs: seq<U64>) {
    forall i, j :: 0 <= i < j < |xs| ==> xs[i] <= xs[j]
  }

  function Insert(x: U64, xs: seq<U64>): (r: seq<U64>)
    ensures |r| == |xs| + 1
    ensures multiset(r) == multiset{x} + multiset(xs)
  {
    if xs == [] || x <= xs[0] then
      assert [x] + xs == [x] + xs[..];
      [x] + xs
    else
      assert xs == [xs[0]] + xs[1..];
      [xs[0]] + Insert(x, xs[1..])
  }

  function Sort(xs: seq<U64>): (r: seq<U64>)
    ensures |r| == |xs|
    ensures multiset(r) == multiset(xs)
  {
    if xs == [] then []
    else
      assert xs == [xs[0]] + xs[1..];
      Insert(xs[0], Sort(xs[1..]))
  }

  lemma {:induction false} InsertAbove(low: U64, x: U64, xs: seq<U64>)
    requires low <= x && forall i :: 0 <= i < |xs| ==> low <= xs[i]
    ensures forall i :: 0 <= i < |Insert(x, xs)| ==> low <= Insert(x, xs)[i]
  {
    if xs != [] && x > xs[0] {
      InsertAbove(low, x, xs[1..]);
    }
  }

  lemma {:induction false} InsertKeepsOrder(x: U64, xs: seq<U64>)
    requires Ascending(xs)
    ensures Ascending(Insert(x, xs))
  {
    if xs != [] && x > xs[0] {
      InsertKeepsOrder(x, xs[1..]);
      InsertAbove(xs[0], x, xs[1..]);
    }
  }

  lemma {:induction false} SortAscends(xs: seq<U64>)
    ensures Ascending(Sort(xs))
  {
    if xs != [] {
      SortAscends(xs[1..]);
      InsertKeepsOrder(xs[0], Sort(xs[1..]));
    }
  }

  /** How many entries are at most `bound`. */
  ghost function CountAtMost(xs: seq<U64>, bound: int): nat {
    if xs == [] then 0 else (if xs[0] <= bound then 1 else 0) + CountAtMost(xs[1..], bound)
  }

  lemma {:induction false} CountInsert(x: U64, xs: seq<U64>, bound: int)
    ensures CountAtMost(Insert(x, xs), bound) == (if x <= bound then 1 else 0) + CountAtMost(xs, bound)
  {
    if xs == [] || x <= xs[0] {
      assert ([x] + xs)[1..] == xs;
    } else {
      var rest := Insert(x, xs[1..]);
      CountInsert(x, xs[1..], bound);
      assert ([xs[0]] + rest)[1..] == rest;
    }
  }

  lemma {:induction false} CountSort(xs: seq<U64>, bound: int)
    ensures CountAtMost(Sort(xs), bound) == CountAtMost(xs, bound)
  {
    if xs != [] {
      CountSort(xs[1..], bound);
      CountInsert(xs[0], Sort(xs[1..]), bound);
    }
  }

  lemma {:induction false} CountAscending(xs: seq<U64>, k: nat, bound: int)
    requires Ascending(xs) && k < |xs|
    ensures xs[k] <= bound ==> CountAtMost(xs, bound) > k
    ensures bound < xs[k] ==> CountAtMost(xs, bound) <= k
  {
    if k == 0 {
      if bound < xs[0] {
        CountNone(xs, bound);
      }
    } else {
      CountAscending(xs[1..], k - 1, bound);
    }
  }

  lemma {:induction false} CountNone(xs: seq<U64>, bound: int)
    requires forall i :: 0 <= i < |xs| ==> bound < xs[i]
    ensures CountAtMost(xs, bound) == 0
  {
    if xs != [] {
      CountNone(xs[1..], bound);
    }
  }

  lemma RankOfAscending(ys: seq<U64>, k: nat, v: int)
    requires Ascending(ys) && k < |ys| && v == ys[k]
    ensures CountAtMost(ys, v - 1) <= k < CountAtMost(ys, v)
  {
    CountAscending(ys, k, v - 1);
    CountAscending(ys, k, v);
  }

  /** Position k of the sorted buffer is its rank statistic: at most k entries are smaller, more
      than k are not larger. */
  lemma RankOfSorted(xs: seq<U64>, k: nat, v: int)
    requires k < |xs| && v == Sort(xs)[k]
    ensures CountAtMost(xs, v - 1) <= k < CountAtMost(xs, v)
  {
    SortAscends(xs);
    RankOfAscending(Sort(xs), k, v);
    CountSort(xs, v - 1);
    CountSort(xs, v);
  }

  lemma {:induction false} CountGrows(xs: seq<U64>, low: int, high: int)
    requires low <= high
    ensures CountAtMost(xs, low) <= CountAtMost(xs, high)
  {
    if xs != [] {
      CountGrows(xs[1..], low, high);
    }
  }
}
