/**
 * JavaScript's `Array.prototype.filter` and its stable `sort` with a
 * comparator, on sequences. A comparator `(a, b) => key(a) - key(b)` (or a
 * `localeCompare` of two keys) is represented by `leq`, which holds when `a`
 * may stay in front of `b`.
 *
 * The sort is insertion sort that takes the elements in their original order
 * and inserts each one behind every element it does not precede: equal
 * elements keep their original order, as the language requires of `sort`.
 */
module Sorting {

  /** `leq` is total and transitive: what a consistent comparator gives. */
  ghost predicate TotalPreorder<T(!new)>(leq: (T, T) -> bool)
  {
    && (forall a, b :: leq(a, b) || leq(b, a))
    && (forall a, b, c :: leq(a, b) && leq(b, c) ==> leq(a, c))
  }

  predicate Sorted<T>(s: seq<T>, leq: (T, T) -> bool)
  {
    forall i, j :: 0 <= i < j < |s| ==> leq(s[i], s[j])
  }

  /** `x` placed behind the leading elements of `s` that may precede it. */
  function Insert<T>(x: T, s: seq<T>, leq: (T, T) -> bool): seq<T>
  {
    if s == [] then [x]
    else if !leq(s[0], x) then [x] + s
    else [s[0]] + Insert(x, s[1..], leq)
  }

  /** The comparator sort: the last element is inserted into the sorted rest.
      It returns a permutation of its input. */
  function SortBy<T>(s: seq<T>, leq: (T, T) -> bool): (r: seq<T>)
    ensures |r| == |s|
    ensures multiset(r) == multiset(s)
  {
    if s == [] then []
    else
      var init := s[..|s| - 1];
      InsertPermutes(s[|s| - 1], SortBy(init, leq), leq);
      assert s == init + [s[|s| - 1]];
      Insert(s[|s| - 1], SortBy(init, leq), leq)
  }

  /** `filter`: the elements that satisfy `keep`, in their original order. */
  function Filter<T>(s: seq<T>, keep: T -> bool): (r: seq<T>)
    ensures |r| <= |s|
    ensures forall i :: 0 <= i < |r| ==> r[i] in s && keep(r[i])
    ensures forall i :: 0 <= i < |s| && keep(s[i]) ==> s[i] in r
  {
    if s == [] then []
    else (if keep(s[0]) then [s[0]] else []) + Filter(s[1..], keep)
  }

  lemma {:induction false} InsertPermutes<T>(x: T, s: seq<T>, leq: (T, T) -> bool)
    ensures |Insert(x, s, leq)| == |s| + 1
    ensures multiset(Insert(x, s, leq)) == multiset(s) + multiset{x}
  {
    if s != [] && leq(s[0], x) {
      InsertPermutes(x, s[1..], leq);
      assert s == [s[0]] + s[1..];
    }
  }

  lemma {:induction false} InsertKeepsSorted<T(!new)>(x: T, s: seq<T>, leq: (T, T) -> bool)
    requires TotalPreorder(leq) && Sorted(s, leq)
    ensures Sorted(Insert(x, s, leq), leq)
  {
    if s == [] {
    } else if !leq(s[0], x) {
      assert leq(x, s[0]);
      forall j | 0 <= j < |s| ensures leq(x, s[j]) {
        if j > 0 { assert leq(s[0], s[j]); }
      }
      var r := [x] + s;
      forall i, j | 0 <= i < j < |r| ensures leq(r[i], r[j]) {
        if i > 0 { assert r[i] == s[i - 1] && r[j] == s[j - 1]; }
      }
    } else {
      var t := s[1..];
      InsertKeepsSorted(x, t, leq);
      var ins := Insert(x, t, leq);
      InsertPermutes(x, t, leq);
      forall j | 0 <= j < |ins| ensures leq(s[0], ins[j]) {
        assert ins[j] in multiset(ins);
        if ins[j] != x {
          assert ins[j] in multiset(t);
          var k :| 0 <= k < |t| && t[k] == ins[j];
          assert t[k] == s[k + 1];
        }
      }
      var r := [s[0]] + ins;
      forall i, j | 0 <= i < j < |r| ensures leq(r[i], r[j]) {
        if i > 0 { assert r[i] == ins[i - 1] && r[j] == ins[j - 1]; }
      }
    }
  }

  /** With a consistent comparator the sort returns a sorted sequence. */
  lemma {:induction false} SortSorts<T(!new)>(s: seq<T>, leq: (T, T) -> bool)
    requires TotalPreorder(leq)
    ensures Sorted(SortBy(s, leq), leq)
  {
    if s != [] {
      SortSorts(s[..|s| - 1], leq);
      InsertKeepsSorted(s[|s| - 1], SortBy(s[..|s| - 1], leq), leq);
    }
  }

  lemma {:induction false} InsertBehindAll<T>(x: T, s: seq<T>, leq: (T, T) -> bool)
    requires forall i :: 0 <= i < |s| ==> leq(s[i], x)
    ensures Insert(x, s, leq) == s + [x]
  {
    if s != [] {
      InsertBehindAll(x, s[1..], leq);
      assert s == [s[0]] + s[1..];
    }
  }

  /** Sorting a sequence that is already in order changes nothing. */
  lemma {:induction false} SortOfSortedIsIdentity<T>(s: seq<T>, leq: (T, T) -> bool)
    requires Sorted(s, leq)
    ensures SortBy(s, leq) == s
  {
    if s != [] {
      var init := s[..|s| - 1];
      assert Sorted(init, leq);
      SortOfSortedIsIdentity(init, leq);
      InsertBehindAll(s[|s| - 1], init, leq);
      assert s == init + [s[|s| - 1]];
    }
  }

  /** Inserting an element that the filter drops does not change what the filter keeps. */
  lemma {:induction false} FilterInsertDropped<T>(x: T, s: seq<T>, leq: (T, T) -> bool, keep: T -> bool)
    requires !keep(x)
    ensures Filter(Insert(x, s, leq), keep) == Filter(s, keep)
  {
    if s == [] {
    } else if !leq(s[0], x) {
      assert ([x] + s)[1..] == s;
    } else {
      FilterInsertDropped(x, s[1..], leq, keep);
      assert ([s[0]] + Insert(x, s[1..], leq))[1..] == Insert(x, s[1..], leq);
    }
  }

  /** Filtering a concatenation filters each part: the kept elements stay in their original order. */
  lemma {:induction false} FilterAppend<T>(a: seq<T>, b: seq<T>, keep: T -> bool)
    ensures Filter(a + b, keep) == Filter(a, keep) + Filter(b, keep)
  {
    if a != [] {
      FilterAppend(a[1..], b, keep);
      assert (a + b)[1..] == a[1..] + b;
    } else {
      assert a + b == b;
    }
  }

  /** A filter that every element passes is the identity. */
  lemma {:induction false} FilterKeepsAll<T>(s: seq<T>, keep: T -> bool)
    requires forall i :: 0 <= i < |s| ==> keep(s[i])
    ensures Filter(s, keep) == s
  {
    if s != [] {
      FilterKeepsAll(s[1..], keep);
      assert s == [s[0]] + s[1..];
    }
  }

  /** A filter that no element passes is empty. */
  lemma {:induction false} FilterKeepsNone<T>(s: seq<T>, keep: T -> bool)
    requires forall i :: 0 <= i < |s| ==> !keep(s[i])
    ensures Filter(s, keep) == []
  {
    if s != [] {
      FilterKeepsNone(s[1..], keep);
    }
  }

  /** Inserting the only element the filter keeps leaves just that element. */
  lemma {:induction false} FilterInsertOnlyKept<T>(x: T, s: seq<T>, leq: (T, T) -> bool, keep: T -> bool)
    requires keep(x)
    requires forall i :: 0 <= i < |s| ==> !keep(s[i])
    ensures Filter(Insert(x, s, leq), keep) == [x]
  {
    if s == [] {
    } else if !leq(s[0], x) {
      assert ([x] + s)[1..] == s;
      FilterKeepsNone(s, keep);
    } else {
      FilterInsertOnlyKept(x, s[1..], leq, keep);
      assert ([s[0]] + Insert(x, s[1..], leq))[1..] == Insert(x, s[1..], leq);
    }
  }

  /** Filtering a sorted sequence leaves it sorted. */
  lemma {:induction false} FilterKeepsSorted<T>(s: seq<T>, leq: (T, T) -> bool, keep: T -> bool)
    requires Sorted(s, leq)
    ensures Sorted(Filter(s, keep), leq)
  {
    if s != [] {
      var t := s[1..];
      assert Sorted(t, leq);
      FilterKeepsSorted(t, leq, keep);
      var ft := Filter(t, keep);
      if keep(s[0]) {
        forall j | 0 <= j < |ft| ensures leq(s[0], ft[j]) {
          var k :| 0 <= k < |t| && t[k] == ft[j];
          assert t[k] == s[k + 1];
        }
        var r := [s[0]] + ft;
        forall i, j | 0 <= i < j < |r| ensures leq(r[i], r[j]) {
          if i > 0 { assert r[i] == ft[i - 1] && r[j] == ft[j - 1]; }
        }
      }
    }
  }
}
