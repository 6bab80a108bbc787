/**
 * The newest-first ordering used by the history queries: `Array.prototype.sort` with the
 * comparator `b.key - a.key`, as a stable insertion sort on an integer key.
 */
module Sorting {
  predicate SortedDesc<T>(s: seq<T>, key: T -> int) {
    forall i, j :: 0 <= i < j < |s| ==> key(s[i]) >= key(s[j])
  }

  /** Puts `x` in front of the first element whose key is not larger than its own. */
  function InsertDesc<T(==)>(x: T, s: seq<T>, key: T -> int): (r: seq<T>)
    requires SortedDesc(s, key)
    ensures SortedDesc(r, key)
    ensures multiset(r) == multiset(s) + multiset{x}
    ensures |r| == |s| + 1
    ensures r[0] == x || (s != [] && r[0] == s[0])
  {
    if s == [] || key(s[0]) <= key(x) then [x] + s
    else
      var rest := InsertDesc(x, s[1..], key);
      assert s == [s[0]] + s[1..];
      assert key(s[0]) >= key(rest[0]);
      [s[0]] + rest
  }

  function SortDesc<T(==)>(s: seq<T>, key: T -> int): (r: seq<T>)
    ensures SortedDesc(r, key)
    ensures multiset(r) == multiset(s)
    ensures |r| == |s|
  {
    if s == [] then []
    else
      assert s == [s[0]] + s[1..];
      InsertDesc(s[0], SortDesc(s[1..], key), key)
  }

  /** The elements whose key is `k`, in their order. */
  function KeyFilter<T>(s: seq<T>, key: T -> int, k: int): (r: seq<T>)
    ensures |r| <= |s|
    ensures forall i :: 0 <= i < |r| ==> key(r[i]) == k
  {
    if s == [] then []
    else if key(s[0]) == k then [s[0]] + KeyFilter(s[1..], key, k)
    else KeyFilter(s[1..], key, k)
  }

  /** Filtering a sequence with one element in front. */
  lemma KeyFilterCons<T>(y: T, t: seq<T>, key: T -> int, k: int)
    ensures key(y) == k ==> KeyFilter([y] + t, key, k) == [y] + KeyFilter(t, key, k)
    ensures key(y) != k ==> KeyFilter([y] + t, key, k) == KeyFilter(t, key, k)
  {
    assert ([y] + t)[1..] == t;
  }

  /** Inserting `x` puts it ahead of every element with its key, and moves no other element past one with the same key. */
  lemma {:induction false} InsertDescKeyFilter<T>(x: T, s: seq<T>, key: T -> int, k: int)
    requires SortedDesc(s, key)
    ensures key(x) == k ==> KeyFilter(InsertDesc(x, s, key), key, k) == [x] + KeyFilter(s, key, k)
    ensures key(x) != k ==> KeyFilter(InsertDesc(x, s, key), key, k) == KeyFilter(s, key, k)
  {
    if s == [] || key(s[0]) <= key(x) {
      assert InsertDesc(x, s, key) == [x] + s;
      KeyFilterCons(x, s, key, k);
    } else {
      var rest := InsertDesc(x, s[1..], key);
      assert InsertDesc(x, s, key) == [s[0]] + rest;
      KeyFilterCons(s[0], rest, key, k);
      InsertDescKeyFilter(x, s[1..], key, k);
      if key(x) == k {
        assert key(s[0]) != k;
      }
    }
  }

  /** Filtering by key distributes over concatenation. */
  lemma {:induction false} KeyFilterAppend<T>(a: seq<T>, b: seq<T>, key: T -> int, k: int)
    ensures KeyFilter(a + b, key, k) == KeyFilter(a, key, k) + KeyFilter(b, key, k)
  {
    if a == [] {
      assert a + b == b;
    } else {
      var y, t := a[0], a[1..];
      assert a == [y] + t;
      assert a + b == [y] + (t + b);
      if key(y) == k {
        calc {
          KeyFilter(a + b, key, k);
          { KeyFilterCons(y, t + b, key, k); }
          [y] + KeyFilter(t + b, key, k);
          { KeyFilterAppend(t, b, key, k); }
          [y] + (KeyFilter(t, key, k) + KeyFilter(b, key, k));
          ([y] + KeyFilter(t, key, k)) + KeyFilter(b, key, k);
          { KeyFilterCons(y, t, key, k); }
          KeyFilter(a, key, k) + KeyFilter(b, key, k);
        }
      } else {
        calc {
          KeyFilter(a + b, key, k);
          { KeyFilterCons(y, t + b, key, k); }
          KeyFilter(t + b, key, k);
          { KeyFilterAppend(t, b, key, k); }
          KeyFilter(t, key, k) + KeyFilter(b, key, k);
          { KeyFilterCons(y, t, key, k); }
          KeyFilter(a, key, k) + KeyFilter(b, key, k);
        }
      }
    }
  }

  /** Taking a prefix keeps, for every key, a prefix of that key's elements. */
  lemma TakeKeyFilter<T>(s: seq<T>, key: T -> int, n: nat, k: int)
    requires n <= |s|
    ensures KeyFilter(s[..n], key, k) <= KeyFilter(s, key, k)
  {
    assert s == s[..n] + s[n..];
    KeyFilterAppend(s[..n], s[n..], key, k);
  }

  /**
   * The sort is stable: the elements of any one key come out in the order they went in,
   * as `Array.prototype.sort` guarantees.
   */
  lemma {:induction false} SortDescStable<T>(s: seq<T>, key: T -> int)
    ensures forall k :: KeyFilter(SortDesc(s, key), key, k) == KeyFilter(s, key, k)
  {
    if s != [] {
      SortDescStable(s[1..], key);
      forall k
        ensures KeyFilter(SortDesc(s, key), key, k) == KeyFilter(s, key, k)
      {
        InsertDescKeyFilter(s[0], SortDesc(s[1..], key), key, k);
      }
    }
  }

  /** The sum of the lengths of the lists. */
  function TotalLength<T>(hs: seq<seq<T>>): (n: nat)
    ensures forall i :: 0 <= i < |hs| ==> |hs[i]| <= n
    ensures hs == [] ==> n == 0
  {
    if hs == [] then 0
    else
      var k := |hs| - 1;
      var prev := TotalLength(hs[..k]);
      assert forall i :: 0 <= i < k ==> hs[..k][i] == hs[i];
      prev + |hs[k]|
  }

  /** The lists concatenated in order. */
  function Flatten<T>(hs: seq<seq<T>>): (r: seq<T>)
    ensures |r| == TotalLength(hs)
    ensures forall i, x :: 0 <= i < |hs| && x in hs[i] ==> x in r
    ensures forall x :: x in r ==> exists i :: 0 <= i < |hs| && x in hs[i]
  {
    if hs == [] then []
    else
      var k := |hs| - 1;
      var prev := Flatten(hs[..k]);
      assert forall i :: 0 <= i < k ==> hs[..k][i] == hs[i];
      prev + hs[k]
  }

  /** The first n elements of a sorted sequence are sorted and come from it. */
  lemma TakeSorted<T>(s: seq<T>, key: T -> int, n: nat)
    requires SortedDesc(s, key) && n <= |s|
    ensures SortedDesc(s[..n], key)
    ensures multiset(s[..n]) <= multiset(s)
  {
    assert s == s[..n] + s[n..];
    assert multiset(s) == multiset(s[..n]) + multiset(s[n..]);
  }

  /** Splitting a sorted sequence after n: every element of the front is at least every element of the back. */
  lemma TakeSortedNewest<T>(s: seq<T>, key: T -> int, n: nat)
    requires SortedDesc(s, key) && n <= |s|
    ensures multiset(s) - multiset(s[..n]) == multiset(s[n..])
    ensures forall a, b :: a in multiset(s) - multiset(s[..n]) && b in s[..n] ==> key(a) <= key(b)
  {
    assert s == s[..n] + s[n..];
    assert multiset(s) == multiset(s[..n]) + multiset(s[n..]);
    forall a, b | a in multiset(s[n..]) && b in s[..n]
      ensures key(a) <= key(b)
    {
      var p :| 0 <= p < n && s[p] == b;
      var q :| 0 <= q < |s| - n && s[n..][q] == a;
      assert s[n + q] == a;
    }
  }
}
