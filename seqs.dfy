/**
 * The array operations the services call: `filter`, `slice(0, n)` and the
 * stable `sort` with a comparator, the last modelled as an insertion sort
 * over a total preorder (JavaScript's `Array.prototype.sort` is stable).
 */
module Seqs {

  /** `s.filter(p)`. */
  function Filter<T>(s: seq<T>, p: T -> bool): (r: seq<T>)
    ensures |r| <= |s|
  {
    if s == [] then [] else (if p(s[0]) then [s[0]] else []) + Filter(s[1..], p)
  }

  /** What a filter keeps is exactly the elements that pass the test. */
  lemma {:induction false} FilterMembers<T>(s: seq<T>, p: T -> bool)
    ensures forall i :: 0 <= i < |Filter(s, p)| ==> Filter(s, p)[i] in s && p(Filter(s, p)[i])
    ensures forall i :: 0 <= i < |s| && p(s[i]) ==> s[i] in Filter(s, p)
  {
    if s != [] {
      FilterMembers(s[1..], p);
      var f, fr := Filter(s, p), Filter(s[1..], p);
      assert f == (if p(s[0]) then [s[0]] else []) + fr;
      forall i | 0 <= i < |s| && p(s[i]) ensures s[i] in f {
        if i > 0 {
          assert s[i] == s[1..][i - 1];
        }
      }
    }
  }

  /** The first element a filter keeps is the first element of `s` that passes the test. */
  lemma {:induction false} FilterHead<T>(s: seq<T>, p: T -> bool) returns (i: nat)
    requires Filter(s, p) != []
    ensures i < |s| && Filter(s, p)[0] == s[i] && p(s[i])
    ensures forall j :: 0 <= j < i ==> !p(s[j])
  {
    if p(s[0]) {
      i := 0;
    } else {
      var k := FilterHead(s[1..], p);
      i := k + 1;
      forall j | 0 <= j < i ensures !p(s[j]) {
        if j > 0 {
          assert s[j] == s[1..][j - 1];
        }
      }
    }
  }

  /** The second element a filter keeps is the second element of `s` that passes the test. */
  lemma {:induction false} FilterSecond<T>(s: seq<T>, p: T -> bool) returns (i: nat, j: nat)
    requires |Filter(s, p)| >= 2
    ensures i < j < |s| && Filter(s, p)[0] == s[i] && Filter(s, p)[1] == s[j] && p(s[i]) && p(s[j])
    ensures forall k :: 0 <= k < j && k != i ==> !p(s[k])
  {
    var rest := Filter(s[1..], p);
    assert Filter(s, p) == (if p(s[0]) then [s[0]] else []) + rest;
    if p(s[0]) {
      var k := FilterHead(s[1..], p);
      i, j := 0, k + 1;
      forall m | 0 <= m < j && m != i ensures !p(s[m]) {
        assert s[m] == s[1..][m - 1];
      }
    } else {
      var a, b := FilterSecond(s[1..], p);
      i, j := a + 1, b + 1;
      forall m | 0 <= m < j && m != i ensures !p(s[m]) {
        if m > 0 {
          assert s[m] == s[1..][m - 1];
        }
      }
    }
  }

  /** A filter keeps something exactly when some element passes, and then its first element is the first to pass. */
  lemma FirstPassing<T>(s: seq<T>, p: T -> bool)
    ensures Filter(s, p) != [] <==> exists x :: x in s && p(x)
    ensures Filter(s, p) != [] ==>
      exists i :: 0 <= i < |s| && s[i] == Filter(s, p)[0] && p(s[i]) && forall j :: 0 <= j < i ==> !p(s[j])
  {
    FilterMembers(s, p);
    if Filter(s, p) != [] {
      var i := FilterHead(s, p);
    }
  }

  /** A filter whose test every element passes keeps everything. */
  lemma {:induction false} FilterKeepsAll<T>(s: seq<T>, p: T -> bool)
    requires forall i :: 0 <= i < |s| ==> p(s[i])
    ensures Filter(s, p) == s
  {
    if s != [] {
      FilterKeepsAll(s[1..], p);
      assert [s[0]] + s[1..] == s;
    }
  }

  /** A filter whose test no element passes keeps nothing. */
  lemma {:induction false} FilterNone<T>(s: seq<T>, p: T -> bool)
    requires forall i :: 0 <= i < |s| ==> !p(s[i])
    ensures Filter(s, p) == []
  {
    if s != [] {
      FilterNone(s[1..], p);
    }
  }

  /** Filtering one more element at the end. */
  lemma {:induction false} FilterAppend<T>(s: seq<T>, x: T, p: T -> bool)
    ensures Filter(s + [x], p) == Filter(s, p) + (if p(x) then [x] else [])
  {
    if s == [] {
      assert [x][1..] == [];
    } else {
      var t, head, last := s + [x], if p(s[0]) then [s[0]] else [], if p(x) then [x] else [];
      assert Filter(t, p) == head + Filter(s[1..] + [x], p) by {
        assert t[0] == s[0] && t[1..] == s[1..] + [x];
      }
      FilterAppend(s[1..], x, p);
      assert Filter(s, p) == head + Filter(s[1..], p);
    }
  }

  /** `s.slice(0, n)` for a non-negative `n`. */
  function Take<T>(s: seq<T>, n: nat): (r: seq<T>)
    ensures |r| == if n < |s| then n else |s|
    ensures r == s[..|r|]
  {
    if n < |s| then s[..n] else s
  }

  /** `idx` lists, in increasing order, the positions of `s` that `r` consists of. */
  ghost predicate IndexedBy<T>(r: seq<T>, s: seq<T>, idx: seq<nat>)
  {
    |idx| == |r| &&
    (forall k :: 0 <= k < |idx| ==> idx[k] < |s| && r[k] == s[idx[k]]) &&
    (forall k, l :: 0 <= k < l < |idx| ==> idx[k] < idx[l])
  }

  /** `r` is `s` with some elements left out, the rest kept in order. */
  ghost predicate IsSubsequence<T>(r: seq<T>, s: seq<T>)
  {
    exists idx: seq<nat> :: IndexedBy(r, s, idx)
  }

  /** Every position moved one place right. */
  function Shift(s: seq<nat>): (r: seq<nat>)
    ensures |r| == |s|
    ensures forall k :: 0 <= k < |s| ==> r[k] == s[k] + 1
  {
    if s == [] then [] else [s[0] + 1] + Shift(s[1..])
  }

  /** Positions into the tail of `s` are positions into `s`, one further right. */
  lemma ShiftIndexed<T>(r: seq<T>, s: seq<T>, idx: seq<nat>)
    requires s != [] && IndexedBy(r, s[1..], idx)
    ensures IndexedBy(r, s, Shift(idx))
  {
    var shifted := Shift(idx);
    forall k | 0 <= k < |shifted| ensures shifted[k] < |s| && r[k] == s[shifted[k]] {
      assert r[k] == s[1..][idx[k]];
    }
  }

  /** Keeping the head of `s` as well puts position 0 in front. */
  lemma ConsIndexed<T>(r: seq<T>, s: seq<T>, idx: seq<nat>)
    requires s != [] && IndexedBy(r, s, idx)
    requires forall k :: 0 <= k < |idx| ==> idx[k] > 0
    ensures IndexedBy([s[0]] + r, s, [0] + idx)
  {
    var out, oidx := [s[0]] + r, [0] + idx;
    forall k | 0 <= k < |oidx| ensures oidx[k] < |s| && out[k] == s[oidx[k]] {
      if k > 0 { assert oidx[k] == idx[k - 1] && out[k] == r[k - 1]; }
    }
    forall k, l | 0 <= k < l < |oidx| ensures oidx[k] < oidx[l] {
      assert oidx[l] == idx[l - 1];
      if k > 0 { assert oidx[k] == idx[k - 1]; }
    }
  }

  /** The positions a filter keeps. */
  lemma {:induction false} FilterIndices<T>(s: seq<T>, p: T -> bool) returns (idx: seq<nat>)
    ensures IndexedBy(Filter(s, p), s, idx)
  {
    if s == [] {
      idx := [];
    } else {
      var rest := FilterIndices(s[1..], p);
      var fr := Filter(s[1..], p);
      ShiftIndexed(fr, s, rest);
      if p(s[0]) {
        ConsIndexed(fr, s, Shift(rest));
        idx := [0] + Shift(rest);
        assert Filter(s, p) == [s[0]] + fr;
      } else {
        idx := Shift(rest);
        assert Filter(s, p) == fr;
      }
    }
  }

  /** A filter keeps the relative order of what it keeps. */
  lemma FilterIsSubsequence<T>(s: seq<T>, p: T -> bool)
    ensures IsSubsequence(Filter(s, p), s)
  {
    var idx := FilterIndices(s, p);
  }

  /** Taking a prefix keeps order too. */
  lemma TakeOfSubsequence<T>(r: seq<T>, s: seq<T>, n: nat)
    requires IsSubsequence(r, s)
    ensures IsSubsequence(Take(r, n), s)
  {
    var idx: seq<nat> :| IndexedBy(r, s, idx);
    var t := Take(r, n);
    assert IndexedBy(t, s, idx[..|t|]);
  }

  /** `s` filtered by a test and by its negation: every element goes exactly one way. */
  lemma {:induction false} FilterSplit<T>(s: seq<T>, p: T -> bool, q: T -> bool)
    requires forall x :: q(x) == !p(x)
    ensures |Filter(s, p)| + |Filter(s, q)| == |s|
  {
    if s != [] {
      FilterSplit(s[1..], p, q);
    }
  }

  /** No two elements of `s` share a key. */
  ghost predicate DistinctBy<T, K>(s: seq<T>, key: T -> K)
  {
    forall i, j :: 0 <= i < j < |s| ==> key(s[i]) != key(s[j])
  }

  /** Leaving elements out keeps the keys distinct. */
  lemma SubsequenceDistinct<T, K>(r: seq<T>, s: seq<T>, key: T -> K)
    requires IsSubsequence(r, s) && DistinctBy(s, key)
    ensures DistinctBy(r, key)
  {
    var idx: seq<nat> :| IndexedBy(r, s, idx);
    forall i, j | 0 <= i < j < |r| ensures key(r[i]) != key(r[j]) {
      assert r[i] == s[idx[i]] && r[j] == s[idx[j]] && idx[i] < idx[j];
    }
  }

  /**
   * Pigeonhole: a sequence with distinct keys, each of which occurs in
   * `ks`, is no longer than `ks`.
   */
  lemma {:induction false} DistinctBound<T, K>(r: seq<T>, ks: seq<K>, key: T -> K)
    requires DistinctBy(r, key)
    requires forall i :: 0 <= i < |r| ==> key(r[i]) in ks
    ensures |r| <= |ks|
    decreases |r|
  {
    if r != [] {
      var n := |r| - 1;
      var j :| 0 <= j < |ks| && ks[j] == key(r[n]);
      var rest := ks[..j] + ks[j + 1..];
      forall i | 0 <= i < n ensures key(r[..n][i]) in rest {
        var m :| 0 <= m < |ks| && ks[m] == key(r[i]);
        assert m != j;
        if m < j {
          assert rest[m] == ks[m];
        } else {
          assert rest[m - 1] == ks[m];
        }
      }
      DistinctBound(r[..n], rest, key);
    }
  }

  // ---------------------------------------------------------------- sorting

  /** `le(a, b)`: `a` may stand before `b`; the comparator of a sort. */
  ghost predicate TotalPreorder<T(!new)>(le: (T, T) -> bool)
  {
    (forall a, b :: le(a, b) || le(b, a)) &&
    (forall a, b, c :: le(a, b) && le(b, c) ==> le(a, c))
  }

  ghost predicate Sorted<T>(s: seq<T>, le: (T, T) -> bool)
  {
    forall i, j :: 0 <= i < j < |s| ==> le(s[i], s[j])
  }

  /** A filter keeps a sorted sequence sorted. */
  lemma {:induction false} FilterSorted<T>(s: seq<T>, p: T -> bool, le: (T, T) -> bool)
    requires Sorted(s, le)
    ensures Sorted(Filter(s, p), le)
  {
    var idx := FilterIndices(s, p);
  }

  /** Places `x` after every element of `s` that may stand before it. */
  function Insert<T>(x: T, s: seq<T>, le: (T, T) -> bool): (r: seq<T>)
    ensures |r| == |s| + 1
    ensures multiset(r) == multiset(s) + multiset{x}
  {
    if s == [] then [x]
    else if le(s[0], x) then
      assert s == [s[0]] + s[1..];
      [s[0]] + Insert(x, s[1..], le)
    else [x] + s
  }

  /** A stable sort: elements the comparator ties keep their input order. */
  function Sort<T>(s: seq<T>, le: (T, T) -> bool): (r: seq<T>)
    ensures |r| == |s|
    ensures multiset(r) == multiset(s)
  {
    if s == [] then []
    else
      assert s == s[..|s| - 1] + [s[|s| - 1]];
      Insert(s[|s| - 1], Sort(s[..|s| - 1], le), le)
  }

  /** Prepending an element that may stand before every element keeps a sequence sorted. */
  lemma ConsSorted<T>(h: T, r: seq<T>, le: (T, T) -> bool)
    requires Sorted(r, le)
    requires forall y :: y in r ==> le(h, y)
    ensures Sorted([h] + r, le)
  {
    var out := [h] + r;
    forall i, j | 0 <= i < j < |out| ensures le(out[i], out[j]) {
      assert out[j] == r[j - 1];
      if i > 0 {
        assert out[i] == r[i - 1];
      }
    }
  }

  /** Every element of the insertion's result is the inserted one or comes from `s`. */
  lemma InsertMembers<T>(x: T, s: seq<T>, le: (T, T) -> bool)
    ensures forall y :: y in Insert(x, s, le) ==> y == x || y in s
  {
    var r := Insert(x, s, le);
    forall y | y in r ensures y == x || y in s {
      assert y in multiset(r);
    }
  }

  /** Inserting into a sorted sequence keeps it sorted. */
  lemma {:induction false} InsertSorted<T(!new)>(x: T, s: seq<T>, le: (T, T) -> bool)
    requires TotalPreorder(le)
    requires Sorted(s, le)
    ensures Sorted(Insert(x, s, le), le)
  {
    if s == [] {
    } else if le(s[0], x) {
      var tail := s[1..];
      assert Sorted(tail, le) by {
        forall i, j | 0 <= i < j < |tail| ensures le(tail[i], tail[j]) {
          assert tail[i] == s[i + 1] && tail[j] == s[j + 1];
        }
      }
      InsertSorted(x, tail, le);
      InsertMembers(x, tail, le);
      forall y | y in Insert(x, tail, le) ensures le(s[0], y) {
        if y != x {
          var k :| 0 <= k < |tail| && tail[k] == y;
          assert s[k + 1] == y;
        }
      }
      ConsSorted(s[0], Insert(x, tail, le), le);
    } else {
      forall y | y in s ensures le(x, y) {
        var k :| 0 <= k < |s| && s[k] == y;
        if k > 0 {
          assert le(s[0], s[k]);
        }
      }
      ConsSorted(x, s, le);
    }
  }

  /** The sort's output is ordered by its comparator. */
  lemma {:induction false} SortSorted<T(!new)>(s: seq<T>, le: (T, T) -> bool)
    requires TotalPreorder(le)
    ensures Sorted(Sort(s, le), le)
  {
    if s != [] {
      SortSorted(s[..|s| - 1], le);
      InsertSorted(s[|s| - 1], Sort(s[..|s| - 1], le), le);
    }
  }

  /** Every element of the sorted sequence comes from the input, and conversely. */
  lemma SortMembers<T>(s: seq<T>, le: (T, T) -> bool)
    ensures forall x :: x in Sort(s, le) <==> x in s
  {
    var r := Sort(s, le);
    assert forall x :: x in r <==> x in multiset(r);
    assert forall x :: x in s <==> x in multiset(s);
  }

  /** Inserting an element whose key is new keeps the keys distinct. */
  lemma {:induction false} InsertDistinct<T, K>(x: T, s: seq<T>, le: (T, T) -> bool, key: T -> K)
    requires DistinctBy(s, key)
    requires forall i :: 0 <= i < |s| ==> key(s[i]) != key(x)
    ensures DistinctBy(Insert(x, s, le), key)
  {
    if s != [] && le(s[0], x) {
      var tail := s[1..];
      assert forall i :: 0 <= i < |tail| ==> tail[i] == s[i + 1];
      InsertDistinct(x, tail, le, key);
      var r := Insert(x, tail, le);
      InsertMembers(x, tail, le);
      forall y | y in r ensures key(y) != key(s[0]) {
        if y != x {
          var k :| 0 <= k < |tail| && tail[k] == y;
        }
      }
      var out := [s[0]] + r;
      forall i, j | 0 <= i < j < |out| ensures key(out[i]) != key(out[j]) {
        if i == 0 {
          assert out[j] == r[j - 1] && r[j - 1] in r;
        } else {
          assert out[i] == r[i - 1] && out[j] == r[j - 1];
        }
      }
    } else if s != [] {
      var out := [x] + s;
      forall i, j | 0 <= i < j < |out| ensures key(out[i]) != key(out[j]) {
        assert out[j] == s[j - 1];
        if i > 0 {
          assert out[i] == s[i - 1];
        }
      }
    }
  }

  /** Sorting keeps the keys distinct. */
  lemma {:induction false} SortDistinct<T, K>(s: seq<T>, le: (T, T) -> bool, key: T -> K)
    requires DistinctBy(s, key)
    ensures DistinctBy(Sort(s, le), key)
  {
    if s != [] {
      var n := |s| - 1;
      var prefix := s[..n];
      var init := Sort(prefix, le);
      SortDistinct(prefix, le, key);
      assert multiset(init) == multiset(prefix);
      forall i | 0 <= i < |init| ensures key(init[i]) != key(s[n]) {
        assert init[i] in multiset(prefix);
        var k :| 0 <= k < |prefix| && prefix[k] == init[i];
        assert s[k] == init[i];
      }
      InsertDistinct(s[n], init, le, key);
    }
  }

  // ---------------------------------------------------------------- strings

  /** Lexicographic order of strings by character code. */
  predicate StrLe(a: string, b: string)
  {
    a == [] || (b != [] && (a[0] < b[0] || (a[0] == b[0] && StrLe(a[1..], b[1..]))))
  }

  lemma {:induction false} StrLeTotal(a: string, b: string)
    ensures StrLe(a, b) || StrLe(b, a)
  {
    if a != [] && b != [] && a[0] == b[0] {
      StrLeTotal(a[1..], b[1..]);
    }
  }

  lemma {:induction false} StrLeTransitive(a: string, b: string, c: string)
    requires StrLe(a, b) && StrLe(b, c)
    ensures StrLe(a, c)
  {
    if a != [] && b != [] && c != [] && a[0] == b[0] && b[0] == c[0] {
      StrLeTransitive(a[1..], b[1..], c[1..]);
    }
  }
}
