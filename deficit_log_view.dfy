/**
 * The pure helpers of the log view: the DD/MM/YYYY rendering of a date, the
 * down-sampling of long series before charting, the newest-first table
 * order and the rule that decides whether the form is submitted.
 */
module DeficitLogView {
  import opened Wrappers
  import Sorting
  import opened DeficitLog

  // ---------------------------------------------------------------------
  // Dates for the clipboard table
  // ---------------------------------------------------------------------

  /** `s.split(sep)`: the pieces between separators, empty pieces included. */
  function Split(s: string, sep: char): (r: seq<string>)
    ensures |r| >= 1
  {
    if s == [] then [""]
    else
      var rest := Split(s[1..], sep);
      if s[0] == sep then [""] + rest else [[s[0]] + rest[0]] + rest[1..]
  }

  /** `parts.join(sep)`. */
  function Join(parts: seq<string>, sep: char): string
    requires |parts| >= 1
  {
    if |parts| == 1 then parts[0] else parts[0] + [sep] + Join(parts[1..], sep)
  }

  /** Splitting and joining again gives back the string. */
  lemma {:induction false} JoinSplit(s: string, sep: char)
    ensures Join(Split(s, sep), sep) == s
  {
    if s != [] {
      var rest := Split(s[1..], sep);
      JoinSplit(s[1..], sep);
      if s[0] == sep {
        assert ([""] + rest)[1..] == rest;
      } else {
        var r := [[s[0]] + rest[0]] + rest[1..];
        if |rest| > 1 {
          assert r[1..] == rest[1..];
          assert Join(rest, sep) == rest[0] + [sep] + Join(rest[1..], sep);
        }
      }
    }
    assert s == if s == [] then s else [s[0]] + s[1..];
  }

  predicate NoSep(s: string, sep: char)
  {
    forall i :: 0 <= i < |s| ==> s[i] != sep
  }

  /** A piece without separators, followed by a separator, splits off whole. */
  lemma {:induction false} SplitPiece(a: string, sep: char, tail: string)
    requires NoSep(a, sep)
    ensures Split(a + [sep] + tail, sep) == [a] + Split(tail, sep)
  {
    if a == [] {
      assert a + [sep] + tail == [sep] + tail;
      assert ([sep] + tail)[1..] == tail;
    } else {
      SplitPiece(a[1..], sep, tail);
      assert (a + [sep] + tail)[1..] == a[1..] + [sep] + tail;
      assert a == [a[0]] + a[1..];
    }
  }

  /** A string without separators is one piece. */
  lemma {:induction false} SplitWhole(a: string, sep: char)
    requires NoSep(a, sep)
    ensures Split(a, sep) == [a]
  {
    if a != [] {
      SplitWhole(a[1..], sep);
      assert a == [a[0]] + a[1..];
    }
  }

  /** A destructured piece that is missing renders as "undefined". */
  function Part(parts: seq<string>, i: nat): string
  {
    if i < |parts| then parts[i] else "undefined"
  }

  /** formatDateTable: '' for an empty date, otherwise the day, month and year
      pieces of the dash-separated string joined by '/'. */
  function FormatDateTable(dateStr: string): (r: string)
    ensures r == "" <==> dateStr == ""
  {
    if dateStr == "" then ""
    else
      var parts := Split(dateStr, '-');
      Part(parts, 2) + "/" + Part(parts, 1) + "/" + Part(parts, 0)
  }

  /** YYYY-MM-DD becomes DD/MM/YYYY. */
  lemma FormatDateTableSwaps(y: string, m: string, d: string)
    requires NoSep(y, '-') && NoSep(m, '-') && NoSep(d, '-')
    ensures FormatDateTable(y + "-" + m + "-" + d) == d + "/" + m + "/" + y
  {
    var s := y + "-" + m + "-" + d;
    assert s == y + ['-'] + (m + ['-'] + d);
    SplitPiece(y, '-', m + ['-'] + d);
    SplitPiece(m, '-', d);
    SplitWhole(d, '-');
    assert Split(s, '-') == [y, m, d];
  }

  /** A date with no dash keeps only its first piece; the others are missing. */
  lemma FormatDateTableWithoutDashes(s: string)
    requires s != "" && NoSep(s, '-')
    ensures FormatDateTable(s) == "undefined/undefined/" + s
  {
    SplitWhole(s, '-');
  }

  // ---------------------------------------------------------------------
  // Chart down-sampling
  // ---------------------------------------------------------------------

  const MaxPointsForChart: nat := 500

  /** Math.ceil(n / 500). */
  function Step(n: nat): (step: nat)
    requires n >= 1
    ensures step >= 1
    ensures (step - 1) * MaxPointsForChart < n <= step * MaxPointsForChart
  {
    (n + MaxPointsForChart - 1) / MaxPointsForChart
  }

  predicate Kept(i: int, n: int, step: nat)
    requires step >= 1
  {
    i % step == 0 || i == n - 1
  }

  /** The points from index `i` on that the sampling filter keeps. */
  function SampleFrom<T>(data: seq<T>, step: nat, i: nat): seq<T>
    requires step >= 1 && i <= |data|
    decreases |data| - i
  {
    if i == |data| then []
    else (if Kept(i, |data|, step) then [data[i]] else []) + SampleFrom(data, step, i + 1)
  }

  /** displayData: at most 501 points, the first and the last always among them. */
  function DisplayData<T>(chartData: seq<T>): (r: seq<T>)
    ensures |chartData| <= MaxPointsForChart ==> r == chartData
    ensures |r| <= MaxPointsForChart + 1
    ensures |chartData| > 0 ==> |r| > 0 && r[0] == chartData[0] && r[|r| - 1] == chartData[|chartData| - 1]
  {
    if |chartData| == 0 then []
    else if |chartData| <= MaxPointsForChart then chartData
    else
      var step := Step(|chartData|);
      SampleWhole(chartData, step);
      FewStrides(|chartData|);
      SampleFrom(chartData, step, 0)
  }

  lemma MulMonotonic(a: int, b: int, c: int)
    requires a <= b && c >= 0
    ensures a * c <= b * c
  {
    assert b * c - a * c == (b - a) * c;
  }

  /** The position of `x` within its stride: the quotient and the remainder. */
  lemma DivModInStride(x: int, step: int, j: int)
    requires step > 0 && j * step <= x < j * step + step
    ensures x / step == j && x % step == x - j * step
  {
    var q := x / step;
    var r := x % step;
    assert x == q * step + r && 0 <= r < step;
    if q > j {
      MulMonotonic(j + 1, q, step);
    } else if q < j {
      MulMonotonic(q + 1, j, step);
    }
  }

  /** Indices with nothing to keep contribute nothing. */
  lemma {:induction false} SampleSkipsGap<T>(data: seq<T>, step: nat, i: nat, m: nat)
    requires step >= 1 && i <= m <= |data|
    requires forall t :: i <= t < m ==> !Kept(t, |data|, step)
    ensures SampleFrom(data, step, i) == SampleFrom(data, step, m)
    decreases m - i
  {
    if i < m {
      SampleSkipsGap(data, step, i + 1, m);
    }
  }

  /** The first index of stride k. */
  function StridePos(k: nat, step: nat): nat
  {
    if k == 0 then 0 else StridePos(k - 1, step) + step
  }

  lemma {:induction false} StridePosIsProduct(k: nat, step: nat)
    ensures StridePos(k, step) == k * step
  {
    if k > 0 {
      StridePosIsProduct(k - 1, step);
    }
  }

  /** Stride q is the one that holds the last index n - 1. */
  predicate IsLastStride(n: nat, step: nat, q: nat)
  {
    StridePos(q, step) <= n - 1 < StridePos(q, step) + step
  }

  lemma {:induction false} StridePosMonotonic(i: nat, j: nat, step: nat)
    requires i <= j
    ensures StridePos(i, step) <= StridePos(j, step)
    decreases j - i
  {
    if i < j {
      StridePosMonotonic(i, j - 1, step);
    }
  }

  /** The indices inside stride j that follow its first one are not multiples of step. */
  lemma StrideInterior(step: nat, j: nat, t: int)
    requires step >= 1 && StridePos(j, step) <= t < StridePos(j, step) + step
    ensures t % step == 0 <==> t == StridePos(j, step)
  {
    StridePosIsProduct(j, step);
    DivModInStride(t, step, j);
  }

  /** A stride before the last contributes its first point only. */
  lemma OneStride<T>(data: seq<T>, step: nat, q: nat, j: nat)
    requires step >= 1 && |data| >= 1 && IsLastStride(|data|, step, q) && j < q
    ensures StridePos(j + 1, step) == StridePos(j, step) + step <= |data| - 1
    ensures SampleFrom(data, step, StridePos(j, step))
         == [data[StridePos(j, step)]] + SampleFrom(data, step, StridePos(j + 1, step))
  {
    var n := |data|;
    var start := StridePos(j, step);
    StridePosMonotonic(j + 1, q, step);
    StrideInterior(step, j, start);
    forall t | start < t < start + step ensures !Kept(t, n, step) {
      StrideInterior(step, j, t);
    }
    SampleSkipsGap(data, step, start + 1, start + step);
  }

  /** A kept index contributes its point in front of the rest of the sample. */
  lemma SampleFromKept<T>(data: seq<T>, step: nat, i: nat)
    requires step >= 1 && i < |data| && Kept(i, |data|, step)
    ensures SampleFrom(data, step, i) == [data[i]] + SampleFrom(data, step, i + 1)
  {
  }

  /** No index after the first of the last stride is kept, except the last index. */
  lemma LastStrideGap(n: nat, step: nat, q: nat)
    requires step >= 1 && n >= 1 && IsLastStride(n, step, q)
    ensures forall t :: StridePos(q, step) < t < n - 1 ==> !Kept(t, n, step)
  {
    forall t | StridePos(q, step) < t < n - 1 ensures !Kept(t, n, step) {
      StrideInterior(step, q, t);
    }
  }

  /** The sample from the last index on is that point alone. */
  lemma SampleFromLast<T>(data: seq<T>, step: nat)
    requires step >= 1 && |data| >= 1
    ensures SampleFrom(data, step, |data| - 1) == [data[|data| - 1]]
  {
    assert SampleFrom(data, step, |data|) == [];
  }

  /** The last stride when it starts before the last index: its first point, then the last point. */
  lemma LastStrideTwoPoints<T>(data: seq<T>, step: nat, q: nat)
    requires step >= 1 && |data| >= 1 && IsLastStride(|data|, step, q)
    requires StridePos(q, step) < |data| - 1
    ensures SampleFrom(data, step, StridePos(q, step)) == [data[StridePos(q, step)], data[|data| - 1]]
  {
    var n := |data|;
    var start := StridePos(q, step);
    StrideInterior(step, q, start);
    SampleFromKept(data, step, start);
    LastStrideGap(n, step, q);
    SampleSkipsGap(data, step, start + 1, n - 1);
    SampleFromLast(data, step);
  }

  /** The last stride: from its first index on, the sample is that point
      followed by the last point unless it is that same point. */
  lemma LastStride<T>(data: seq<T>, step: nat, q: nat)
    requires step >= 1 && |data| >= 1 && IsLastStride(|data|, step, q)
    ensures SampleFrom(data, step, StridePos(q, step))
         == [data[StridePos(q, step)]] + (if StridePos(q, step) == |data| - 1 then [] else [data[|data| - 1]])
  {
    if StridePos(q, step) < |data| - 1 {
      LastStrideTwoPoints(data, step, q);
    } else {
      SampleFromLast(data, step);
    }
  }

  /** The sample from stride j on, for every j up to the last stride q. */
  ghost predicate SampleShape<T>(data: seq<T>, step: nat, q: nat, j: nat)
    requires step >= 1
  {
    && j <= q
    && StridePos(j, step) <= |data| - 1
    && |SampleFrom(data, step, StridePos(j, step))| == q - j + 1 + (if StridePos(q, step) == |data| - 1 then 0 else 1)
    && (forall k :: 0 <= k <= q - j ==> StrideMatches(data, step, j, k))
    && SampleFrom(data, step, StridePos(j, step))[|SampleFrom(data, step, StridePos(j, step))| - 1] == data[|data| - 1]
  }

  ghost predicate StrideMatches<T>(data: seq<T>, step: nat, j: nat, k: nat)
    requires step >= 1 && StridePos(j, step) <= |data|
  {
    var r := SampleFrom(data, step, StridePos(j, step));
    k < |r| && StridePos(j + k, step) < |data| && r[k] == data[StridePos(j + k, step)]
  }

  /** From the start of stride j on, the sample is the first point of each
      remaining stride up to the last stride q, then the last point if it is
      not one of those. */
  lemma {:induction false} SampleStrides<T>(data: seq<T>, step: nat, q: nat, j: nat)
    requires step >= 1 && |data| >= 1 && IsLastStride(|data|, step, q) && j <= q
    ensures SampleShape(data, step, q, j)
    decreases q - j, 1
  {
    if j == q {
      LastStride(data, step, q);
      var r := SampleFrom(data, step, StridePos(q, step));
      assert r[0] == data[StridePos(q + 0, step)];
      assert StrideMatches(data, step, q, 0);
    } else {
      SampleStridesStep(data, step, q, j);
    }
  }

  lemma SampleStridesStep<T>(data: seq<T>, step: nat, q: nat, j: nat)
    requires step >= 1 && |data| >= 1 && IsLastStride(|data|, step, q) && j < q
    ensures SampleShape(data, step, q, j)
    decreases q - j, 0
  {
    var n := |data|;
    OneStride(data, step, q, j);
    SampleStrides(data, step, q, j + 1);
    var rest := SampleFrom(data, step, StridePos(j + 1, step));
    var r := SampleFrom(data, step, StridePos(j, step));
    assert r == [data[StridePos(j, step)]] + rest;
    forall k | 0 <= k <= q - j
      ensures StrideMatches(data, step, j, k)
    {
      if k == 0 {
        assert j + k == j;
      } else {
        assert StrideMatches(data, step, j + 1, k - 1);
        assert r[k] == rest[k - 1];
        assert j + 1 + (k - 1) == j + k;
      }
    }
  }

  /** q = (n - 1) / step is the last stride, and it starts at n - 1 exactly when step divides n - 1. */
  lemma LastStrideByDivision(n: nat, step: nat)
    requires n >= 1 && step >= 1
    ensures IsLastStride(n, step, (n - 1) / step)
    ensures StridePos((n - 1) / step, step) == n - 1 <==> (n - 1) % step == 0
  {
    var q := (n - 1) / step;
    StridePosIsProduct(q, step);
    assert n - 1 == q * step + (n - 1) % step;
  }

  /** The whole sample when stride q is the last: the first point of every
      stride, then the last point unless stride q starts at it. */
  lemma SampleByStrides<T>(data: seq<T>, step: nat, q: nat)
    requires step >= 1 && |data| >= 1 && IsLastStride(|data|, step, q)
    ensures |SampleFrom(data, step, 0)| == q + 1 + (if StridePos(q, step) == |data| - 1 then 0 else 1)
    ensures forall k :: 0 <= k <= q ==>
              StridePos(k, step) < |data| && SampleFrom(data, step, 0)[k] == data[StridePos(k, step)]
    ensures SampleFrom(data, step, 0)[|SampleFrom(data, step, 0)| - 1] == data[|data| - 1]
  {
    SampleStrides(data, step, q, 0);
    assert SampleShape(data, step, q, 0);
    forall k | 0 <= k <= q
      ensures StridePos(k, step) < |data| && SampleFrom(data, step, 0)[k] == data[StridePos(k, step)]
    {
      assert StrideMatches(data, step, 0, k);
      assert 0 + k == k;
    }
  }

  /** The whole sample for a given step: the first point of every stride, then
      the last point unless step divides n - 1. */
  lemma SampleWhole<T>(data: seq<T>, step: nat)
    requires step >= 1 && |data| >= 1
    ensures |SampleFrom(data, step, 0)|
            == (|data| - 1) / step + 1 + (if (|data| - 1) % step == 0 then 0 else 1)
    ensures forall k :: 0 <= k <= (|data| - 1) / step ==>
              StridePos(k, step) < |data| && SampleFrom(data, step, 0)[k] == data[StridePos(k, step)]
    ensures SampleFrom(data, step, 0)[0] == data[0]
    ensures SampleFrom(data, step, 0)[|SampleFrom(data, step, 0)| - 1] == data[|data| - 1]
  {
    LastStrideByDivision(|data|, step);
    SampleByStrides(data, step, (|data| - 1) / step);
    assert StridePos(0, step) == 0;
  }

  /** With step = ceil(n / 500) there are at most 500 strides. */
  lemma FewStrides(n: nat)
    requires n > MaxPointsForChart
    ensures (n - 1) / Step(n) < MaxPointsForChart
  {
    var step := Step(n);
    var q := (n - 1) / step;
    LastStrideByDivision(n, step);
    StridePosIsProduct(q, step);
    if q >= MaxPointsForChart {
      MulMonotonic(MaxPointsForChart, q, step);
    }
  }

  /** Up to 500 points are charted as they are; beyond that the chart gets
      the first point of every stride of `step` points and then the last
      point, in their order: at most 501 points, the first and last included. */
  lemma DisplayDataShape<T>(chartData: seq<T>)
    ensures |chartData| == 0 ==> DisplayData(chartData) == []
    ensures |chartData| <= MaxPointsForChart ==> DisplayData(chartData) == chartData
    ensures |chartData| > MaxPointsForChart ==>
              var n := |chartData|;
              var step := Step(n);
              var q := (n - 1) / step;
              var r := DisplayData(chartData);
              && |r| == q + 1 + (if (n - 1) % step == 0 then 0 else 1)
              && (forall k {:trigger r[k]} :: 0 <= k <= q ==>
                    StridePos(k, step) < n && r[k] == chartData[StridePos(k, step)])
              && r[0] == chartData[0]
              && r[|r| - 1] == chartData[n - 1]
              && |r| <= MaxPointsForChart + 1
  {
    var n := |chartData|;
    if n > MaxPointsForChart {
      var step := Step(n);
      SampleWhole(chartData, step);
      FewStrides(n);
      var r := DisplayData(chartData);
      assert r == SampleFrom(chartData, step, 0);
      forall k | 0 <= k <= (n - 1) / step
        ensures StridePos(k, step) < n && r[k] == chartData[StridePos(k, step)]
      {
        assert r[k] == SampleFrom(chartData, step, 0)[k];
      }
    }
  }

  // ---------------------------------------------------------------------
  // Table and form
  // ---------------------------------------------------------------------

  /** The comparator `(a, b) => b.date.localeCompare(a.date)`: newest first. */
  predicate DateGeq(a: Entry, b: Entry)
  {
    StrLeq(b.date, a.date)
  }

  lemma DateGeqIsTotalPreorder()
    ensures Sorting.TotalPreorder(DateGeq)
  {
    forall a: Entry, b: Entry ensures DateGeq(a, b) || DateGeq(b, a) {
      StrLeqTotal(a.date, b.date);
    }
    forall a: Entry, b: Entry, c: Entry | DateGeq(a, b) && DateGeq(b, c) ensures DateGeq(a, c) {
      StrLeqTrans(c.date, b.date, a.date);
    }
  }

  /** tableRows: the records, newest first. */
  function TableRows(records: seq<Entry>): (r: seq<Entry>)
    ensures multiset(r) == multiset(records) && |r| == |records|
    ensures forall i, j :: 0 <= i < j < |r| ==> StrLeq(r[j].date, r[i].date)
  {
    DateGeqIsTotalPreorder();
    Sorting.SortSorts(records, DateGeq);
    Sorting.SortBy(records, DateGeq)
  }

  /** handleSubmit: what reaches addOrUpdate, if anything. `weight` and
      `deficit` are the results of parseFloat, None standing for NaN. */
  function HandleSubmit(date: string, weight: Option<real>, deficit: Option<real>): (r: Option<Entry>)
    ensures r.Some? <==> date != "" && weight.Some? && 30.0 <= weight.value <= 200.0
    ensures r.Some? ==> r.value.date == date && r.value.weight == weight.value
    ensures r.Some? && deficit.Some? ==> r.value.deficit == deficit.value
    ensures r.Some? && deficit.None? ==> r.value.deficit == 0.0
  {
    if date == "" || weight.None? || weight.value < 30.0 || weight.value > 200.0 then None
    else Some(Entry(date, weight.value, if deficit.None? then 0.0 else deficit.value))
  }

  /** A submitted entry passes addOrUpdate's own guard and is what the log then holds for that day. */
  lemma SubmittedEntryIsLogged(records: seq<Entry>, date: string, weight: Option<real>, deficit: Option<real>)
    requires HandleSubmit(date, weight, deficit).Some?
    ensures var e := HandleSubmit(date, weight, deficit).value;
            && e.date != ""
            && FindByDate(Upsert(records, e.date, e.weight, e.deficit), date) == Some(e)
  {
    var e := HandleSubmit(date, weight, deficit).value;
    FindAfterUpdates(records, e.date, e.weight, e.deficit);
  }
}
