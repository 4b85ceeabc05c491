/** The sequence primitives the queries use: an index range or `Array.prototype.filter`,
    JavaScript's stable `Array.prototype.sort` with a numeric key, Convex's `.order("desc")`
    and `.take(n)`. */
module Ordering {

  /** The elements satisfying `p`, in their order: an index range, or `.filter(p)`. */
  function Filter<T>(s: seq<T>, p: T -> bool): (r: seq<T>)
    ensures |r| <= |s|
  {
    if s == [] then []
    else
      var last := s[|s| - 1];
      Filter(s[..|s| - 1], p) + (if p(last) then [last] else [])
  }

  lemma {:induction false} FilterMeaning<T>(s: seq<T>, p: T -> bool)
    ensures forall x :: x in Filter(s, p) <==> x in s && p(x)
  {
    if s != [] {
      var init := s[..|s| - 1];
      FilterMeaning(init, p);
      assert s == init + [s[|s| - 1]];
    }
  }

  lemma FilterAppend<T>(s: seq<T>, x: T, p: T -> bool)
    ensures Filter(s + [x], p) == Filter(s, p) + (if p(x) then [x] else [])
  {
    assert (s + [x])[..|s|] == s;
  }

  /** Filtering a concatenation filters each part. */
  lemma {:induction false} FilterConcat<T>(a: seq<T>, b: seq<T>, p: T -> bool)
    ensures Filter(a + b, p) == Filter(a, p) + Filter(b, p)
  {
    if b == [] {
      assert a + b == a;
    } else {
      var init := b[..|b| - 1];
      var last := b[|b| - 1];
      var tail := if p(last) then [last] else [];
      assert b == init + [last];
      assert a + b == (a + init) + [last];
      FilterConcat(a, init, p);
      FilterAppend(a + init, last, p);
      FilterAppend(init, last, p);
      ConcatAssoc(Filter(a, p), Filter(init, p), tail);
    }
  }

  /** Nothing satisfies `p`: the filter is empty. */
  lemma {:induction false} FilterNone<T>(s: seq<T>, p: T -> bool)
    requires forall k :: 0 <= k < |s| ==> !p(s[k])
    ensures Filter(s, p) == []
  {
    if s != [] {
      FilterNone(s[..|s| - 1], p);
    }
  }

  /** Filtering by `p` and then by `q` is filtering once by `both`, their conjunction. */
  lemma {:induction false} FilterTwice<T>(s: seq<T>, p: T -> bool, q: T -> bool, both: T -> bool)
    requires forall x :: both(x) == (p(x) && q(x))
    ensures Filter(Filter(s, p), q) == Filter(s, both)
  {
    if s != [] {
      var init := s[..|s| - 1];
      var last := s[|s| - 1];
      FilterTwice(init, p, q, both);
      assert Filter(s, both) == Filter(init, both) + (if both(last) then [last] else []);
      if p(last) {
        assert Filter(s, p) == Filter(init, p) + [last];
        FilterAppend(Filter(init, p), last, q);
      } else {
        assert Filter(s, p) == Filter(init, p) + [];
        assert Filter(init, p) + [] == Filter(init, p);
      }
    }
  }

  /** The elements whose key is `v`. */
  function HasKey<T>(key: T -> int, v: int): T -> bool
  {
    (x: T) => key(x) == v
  }

  ghost predicate SortedDesc<T>(s: seq<T>, key: T -> int)
  {
    forall i, j :: 0 <= i < j < |s| ==> key(s[i]) >= key(s[j])
  }

  /** Inserts `x` before the first element whose key is not larger, so equal keys keep
      their relative order. */
  function InsertDesc<T>(x: T, s: seq<T>, key: T -> int): (r: seq<T>)
    requires SortedDesc(s, key)
    ensures SortedDesc(r, key)
    ensures multiset(r) == multiset(s) + multiset{x}
    ensures |r| == |s| + 1
    ensures r[0] == x || (s != [] && r[0] == s[0])
  {
    if s == [] || key(s[0]) <= key(x) then [x] + s
    else
      var rest := InsertDesc(x, s[1..], key);
      assert key(s[0]) >= key(rest[0]);
      assert s == [s[0]] + s[1..];
      [s[0]] + rest
  }

  /** Stable insertion sort by descending key. */
  function SortDesc<T>(s: seq<T>, key: T -> int): (r: seq<T>)
    ensures SortedDesc(r, key)
    ensures multiset(r) == multiset(s)
    ensures |r| == |s|
  {
    if s == [] then []
    else
      assert s == [s[0]] + s[1..];
      InsertDesc(s[0], SortDesc(s[1..], key), key)
  }

  /** Sorting a list that is already in order changes nothing. */
  lemma {:induction false} SortDescSorted<T>(s: seq<T>, key: T -> int)
    requires SortedDesc(s, key)
    ensures SortDesc(s, key) == s
  {
    if s != [] {
      var t := s[1..];
      assert SortedDesc(t, key) by {
        forall i, j | 0 <= i < j < |t| ensures key(t[i]) >= key(t[j]) {
          assert t[i] == s[i + 1] && t[j] == s[j + 1];
        }
      }
      SortDescSorted(t, key);
      assert s == [s[0]] + t;
      assert SortDesc(s, key) == InsertDesc(s[0], t, key);
      assert t == [] || key(t[0]) <= key(s[0]) by {
        if t != [] { assert t[0] == s[1]; }
      }
    }
  }

  /** Inserting `x` puts it in front of every element with its key, and keeps their order. */
  lemma {:induction false} InsertDescStable<T>(x: T, s: seq<T>, key: T -> int, v: int)
    requires SortedDesc(s, key)
    ensures Filter(InsertDesc(x, s, key), HasKey(key, v)) == Filter([x], HasKey(key, v)) + Filter(s, HasKey(key, v))
  {
    var p := HasKey(key, v);
    if s == [] || key(s[0]) <= key(x) {
      FilterConcat([x], s, p);
    } else {
      var t := s[1..];
      assert SortedDesc(t, key) by {
        forall i, j | 0 <= i < j < |t| ensures key(t[i]) >= key(t[j]) {
          assert t[i] == s[i + 1] && t[j] == s[j + 1];
        }
      }
      InsertDescStable(x, t, key, v);
      var rest := InsertDesc(x, t, key);
      assert InsertDesc(x, s, key) == [s[0]] + rest;
      FilterConcat([s[0]], rest, p);
      assert s == [s[0]] + t;
      FilterConcat([s[0]], t, p);
      FilterAppend([], x, p);
      FilterAppend([], s[0], p);
      assert [] + [x] == [x] && [] + [s[0]] == [s[0]];
      assert Filter([s[0]], p) == [] || Filter([x], p) == [];
      ConcatAssoc(Filter([s[0]], p), Filter([x], p), Filter(t, p));
      ConcatAssoc(Filter([x], p), Filter([s[0]], p), Filter(t, p));
    }
  }

  /** The sort is stable: the elements with any one key come out in their input order. */
  lemma {:induction false} SortDescStable<T>(s: seq<T>, key: T -> int, v: int)
    ensures Filter(SortDesc(s, key), HasKey(key, v)) == Filter(s, HasKey(key, v))
  {
    if s != [] {
      var t := s[1..];
      SortDescStable(t, key, v);
      InsertDescStable(s[0], SortDesc(t, key), key, v);
      assert s == [s[0]] + t;
      FilterConcat([s[0]], t, HasKey(key, v));
    }
  }

  /** `.take(n)`: the first `n` elements, or all of them. */
  function Take<T>(s: seq<T>, n: nat): (r: seq<T>)
    ensures |r| == if n < |s| then n else |s|
    ensures r <= s
  {
    if n < |s| then s[..n] else s
  }

  function Reverse<T>(s: seq<T>): (r: seq<T>)
    ensures |r| == |s|
    ensures forall k :: 0 <= k < |s| ==> r[k] == s[|s| - 1 - k]
  {
    if s == [] then [] else Reverse(s[1..]) + [s[0]]
  }

  lemma {:induction false} ReversePermutes<T>(s: seq<T>)
    ensures multiset(Reverse(s)) == multiset(s)
  {
    if s != [] {
      ReversePermutes(s[1..]);
      assert s == [s[0]] + s[1..];
    }
  }

  lemma ConcatAssoc<T>(a: seq<T>, b: seq<T>, c: seq<T>)
    ensures a + (b + c) == (a + b) + c
  {
  }

  /** Appending an element no larger than any other keeps a list sorted. */
  lemma SortedAppendLeast<T>(t: seq<T>, x: T, key: T -> int)
    requires SortedDesc(t, key)
    requires forall k :: 0 <= k < |t| ==> key(x) <= key(t[k])
    ensures SortedDesc(t + [x], key)
  {
    var tx := t + [x];
    forall i, j | 0 <= i < j < |tx| ensures key(tx[i]) >= key(tx[j]) {
      assert tx[i] == t[i];
      if j < |t| { assert tx[j] == t[j]; } else { assert tx[j] == x; }
    }
  }

  /** Inserting into a list that ends in an element no larger than anything else leaves that
      element last. */
  lemma {:induction false} InsertDescAppendLeast<T>(y: T, t: seq<T>, x: T, key: T -> int)
    requires SortedDesc(t, key) && SortedDesc(t + [x], key)
    requires key(x) <= key(y)
    requires forall k :: 0 <= k < |t| ==> key(x) <= key(t[k])
    ensures InsertDesc(y, t + [x], key) == InsertDesc(y, t, key) + [x]
  {
    var tx := t + [x];
    if t != [] && key(t[0]) > key(y) {
      assert tx[0] == t[0] && tx[1..] == t[1..] + [x];
      var rest := t[1..];
      assert forall k :: 0 <= k < |rest| ==> rest[k] == t[k + 1];
      assert SortedDesc(rest, key);
      assert SortedDesc(rest + [x], key) by {
        assert forall k :: 0 <= k < |rest + [x]| ==> (rest + [x])[k] == tx[k + 1];
      }
      InsertDescAppendLeast(y, rest, x, key);
      var a := InsertDesc(y, rest, key);
      assert InsertDesc(y, tx, key) == [t[0]] + (a + [x]);
      assert InsertDesc(y, t, key) == [t[0]] + a;
      ConcatAssoc([t[0]], a, [x]);
    } else if t == [] {
      assert InsertDesc(y, tx, key) == [y] + [x];
    } else {
      assert InsertDesc(y, tx, key) == [y] + tx;
      assert InsertDesc(y, t, key) == [y] + t;
      ConcatAssoc([y], t, [x]);
    }
  }

  /** Sorting a list whose last element has the smallest key puts that element last:
      stability keeps it behind every earlier element with the same key. */
  lemma {:induction false} SortDescAppendLeast<T>(s: seq<T>, x: T, key: T -> int)
    requires forall k :: 0 <= k < |s| ==> key(x) <= key(s[k])
    ensures SortDesc(s + [x], key) == SortDesc(s, key) + [x]
  {
    if s == [] {
      assert s + [x] == [x];
    } else {
      var sx := s + [x];
      assert sx[0] == s[0] && sx[1..] == s[1..] + [x];
      SortDescAppendLeast(s[1..], x, key);
      var sorted := SortDesc(s[1..], key);
      assert forall k :: 0 <= k < |sorted| ==> key(x) <= key(sorted[k]) by {
        forall k | 0 <= k < |sorted| ensures key(x) <= key(sorted[k]) {
          assert sorted[k] in multiset(s[1..]);
        }
      }
      SortedAppendLeast(sorted, x, key);
      InsertDescAppendLeast(s[0], sorted, x, key);
    }
  }
}
