/**
 * The weight and calorie-deficit log: a list of daily records keyed by an
 * ISO date string (YYYY-MM-DD). Adding a record replaces any record of the
 * same day and keeps the list in date order; removing drops the day.
 *
 * `localeCompare` on the date strings is modelled as code-point
 * lexicographic order, which is how same-length digit strings compare.
 */
module DeficitLog {
  import opened Wrappers
  import Sorting

  // ---------------------------------------------------------------------
  // Lexicographic order on strings
  // ---------------------------------------------------------------------

  /** `a.localeCompare(b) <= 0`: `a` is a prefix of `b` or smaller at the first difference. */
  predicate StrLeq(a: string, b: string)
  {
    if a == [] then true
    else if b == [] then false
    else if a[0] != b[0] then a[0] < b[0]
    else StrLeq(a[1..], b[1..])
  }

  lemma {:induction false} StrLeqTotal(a: string, b: string)
    ensures StrLeq(a, b) || StrLeq(b, a)
  {
    if a != [] && b != [] && a[0] == b[0] {
      StrLeqTotal(a[1..], b[1..]);
    }
  }

  lemma {:induction false} StrLeqTrans(a: string, b: string, c: string)
    requires StrLeq(a, b) && StrLeq(b, c)
    ensures StrLeq(a, c)
  {
    if a != [] && b != [] && c != [] && a[0] == b[0] && b[0] == c[0] {
      StrLeqTrans(a[1..], b[1..], c[1..]);
    }
  }

  /** Two strings that each compare at most the other are equal. */
  lemma {:induction false} StrLeqAntisymmetric(a: string, b: string)
    requires StrLeq(a, b) && StrLeq(b, a)
    ensures a == b
  {
    if a != [] && b != [] {
      StrLeqAntisymmetric(a[1..], b[1..]);
      assert a == [a[0]] + a[1..] && b == [b[0]] + b[1..];
    }
  }

  // ---------------------------------------------------------------------
  // Records
  // ---------------------------------------------------------------------

  /** One day's record: body weight in kg and calorie deficit in kcal. */
  datatype Entry = Entry(date: string, weight: real, deficit: real)

  /** The comparator `(a, b) => a.date.localeCompare(b.date)`: oldest first. */
  predicate DateLeq(a: Entry, b: Entry)
  {
    StrLeq(a.date, b.date)
  }

  lemma DateLeqIsTotalPreorder()
    ensures Sorting.TotalPreorder(DateLeq)
  {
    forall a: Entry, b: Entry ensures DateLeq(a, b) || DateLeq(b, a) {
      StrLeqTotal(a.date, b.date);
    }
    forall a: Entry, b: Entry, c: Entry | DateLeq(a, b) && DateLeq(b, c) ensures DateLeq(a, c) {
      StrLeqTrans(a.date, b.date, c.date);
    }
  }

  function DateIs(date: string): Entry -> bool
  {
    (r: Entry) => r.date == date
  }

  function DateIsNot(date: string): Entry -> bool
  {
    (r: Entry) => r.date != date
  }

  /** addOrUpdate's new list: the records of other days plus the new one, sorted by date. */
  function Upsert(records: seq<Entry>, date: string, weight: real, deficit: real): (r: seq<Entry>)
    ensures |r| == |Sorting.Filter(records, DateIsNot(date))| + 1 <= |records| + 1
  {
    Sorting.SortBy(Sorting.Filter(records, DateIsNot(date)) + [Entry(date, weight, deficit)], DateLeq)
  }

  /** The list of other days, sorted: the new record is inserted into it. */
  lemma UpsertIsInsert(records: seq<Entry>, date: string, weight: real, deficit: real)
    ensures var rest := Sorting.SortBy(Sorting.Filter(records, DateIsNot(date)), DateLeq);
            && Upsert(records, date, weight, deficit) == Sorting.Insert(Entry(date, weight, deficit), rest, DateLeq)
            && Sorting.Sorted(rest, DateLeq)
            && multiset(rest) == multiset(Sorting.Filter(records, DateIsNot(date)))
            && (forall i :: 0 <= i < |rest| ==> rest[i].date != date && rest[i] in records)
  {
    var f := Sorting.Filter(records, DateIsNot(date));
    var e := Entry(date, weight, deficit);
    assert (f + [e])[..|f + [e]| - 1] == f;
    var rest := Sorting.SortBy(f, DateLeq);
    DateLeqIsTotalPreorder();
    Sorting.SortSorts(f, DateLeq);
    forall i | 0 <= i < |rest| ensures rest[i].date != date && rest[i] in records {
      assert rest[i] in multiset(f);
      var k :| 0 <= k < |f| && f[k] == rest[i];
    }
  }

  /** After addOrUpdate(d, w, x) the list holds the new record and the records of other days, and nothing else. */
  lemma UpsertContents(records: seq<Entry>, date: string, weight: real, deficit: real)
    ensures multiset(Upsert(records, date, weight, deficit))
         == multiset(Sorting.Filter(records, DateIsNot(date))) + multiset{Entry(date, weight, deficit)}
  {
    var f := Sorting.Filter(records, DateIsNot(date));
    UpsertIsInsert(records, date, weight, deficit);
    Sorting.InsertPermutes(Entry(date, weight, deficit), Sorting.SortBy(f, DateLeq), DateLeq);
  }

  /** After addOrUpdate(d, w, x) the day d has exactly one record, holding (w, x). */
  lemma UpsertDayHoldsNew(records: seq<Entry>, date: string, weight: real, deficit: real)
    ensures Sorting.Filter(Upsert(records, date, weight, deficit), DateIs(date)) == [Entry(date, weight, deficit)]
  {
    var rest := Sorting.SortBy(Sorting.Filter(records, DateIsNot(date)), DateLeq);
    UpsertIsInsert(records, date, weight, deficit);
    Sorting.FilterInsertOnlyKept(Entry(date, weight, deficit), rest, DateLeq, DateIs(date));
  }

  /** Every record of another day is kept. */
  lemma UpsertKeepsOthers(records: seq<Entry>, date: string, weight: real, deficit: real)
    ensures forall i :: 0 <= i < |records| && records[i].date != date ==>
              records[i] in Upsert(records, date, weight, deficit)
  {
    var f := Sorting.Filter(records, DateIsNot(date));
    var r := Upsert(records, date, weight, deficit);
    UpsertContents(records, date, weight, deficit);
    forall i | 0 <= i < |records| && records[i].date != date ensures records[i] in r {
      assert records[i] in multiset(f);
      assert records[i] in multiset(r);
    }
  }

  /** Nothing but the new record and records of other days is in the list. */
  lemma UpsertAddsNothingElse(records: seq<Entry>, date: string, weight: real, deficit: real)
    ensures forall i :: 0 <= i < |Upsert(records, date, weight, deficit)| ==>
              || Upsert(records, date, weight, deficit)[i] == Entry(date, weight, deficit)
              || (Upsert(records, date, weight, deficit)[i] in records
                  && Upsert(records, date, weight, deficit)[i].date != date)
  {
    var f := Sorting.Filter(records, DateIsNot(date));
    var e := Entry(date, weight, deficit);
    var r := Upsert(records, date, weight, deficit);
    UpsertContents(records, date, weight, deficit);
    forall i | 0 <= i < |r| ensures r[i] == e || (r[i] in records && r[i].date != date) {
      assert r[i] in multiset(r);
      if r[i] != e {
        assert r[i] in multiset(f);
      }
    }
  }

  /** After addOrUpdate(d, w, x) the day d has exactly one record, holding (w, x);
      every record of another day is kept, nothing else is added, and the list is in date order. */
  lemma UpsertResult(records: seq<Entry>, date: string, weight: real, deficit: real)
    ensures var r := Upsert(records, date, weight, deficit);
            && Sorting.Filter(r, DateIs(date)) == [Entry(date, weight, deficit)]
            && (forall i :: 0 <= i < |records| && records[i].date != date ==> records[i] in r)
            && (forall i :: 0 <= i < |r| ==>
                  r[i] == Entry(date, weight, deficit) || (r[i] in records && r[i].date != date))
            && Sorting.Sorted(r, DateLeq)
  {
    UpsertDayHoldsNew(records, date, weight, deficit);
    UpsertKeepsOthers(records, date, weight, deficit);
    UpsertAddsNothingElse(records, date, weight, deficit);
    var rest := Sorting.SortBy(Sorting.Filter(records, DateIsNot(date)), DateLeq);
    UpsertIsInsert(records, date, weight, deficit);
    DateLeqIsTotalPreorder();
    Sorting.InsertKeepsSorted(Entry(date, weight, deficit), rest, DateLeq);
  }

  /** Applying addOrUpdate twice with the same arguments is the same as once. */
  lemma UpsertIdempotent(records: seq<Entry>, date: string, weight: real, deficit: real)
    ensures Upsert(Upsert(records, date, weight, deficit), date, weight, deficit)
         == Upsert(records, date, weight, deficit)
  {
    var e := Entry(date, weight, deficit);
    var rest := Sorting.SortBy(Sorting.Filter(records, DateIsNot(date)), DateLeq);
    UpsertIsInsert(records, date, weight, deficit);
    var r := Upsert(records, date, weight, deficit);
    Sorting.FilterInsertDropped(e, rest, DateLeq, DateIsNot(date));
    Sorting.FilterKeepsAll(rest, DateIsNot(date));
    assert Sorting.Filter(r, DateIsNot(date)) == rest;
    UpsertIsInsert(r, date, weight, deficit);
    Sorting.SortOfSortedIsIdentity(rest, DateLeq);
  }

  /** remove's new list: the records of other days, in their order. */
  function RemoveDate(records: seq<Entry>, date: string): (r: seq<Entry>)
    ensures forall i :: 0 <= i < |r| ==> r[i].date != date && r[i] in records
    ensures forall i :: 0 <= i < |records| && records[i].date != date ==> records[i] in r
  {
    Sorting.Filter(records, DateIsNot(date))
  }

  /** Removing a day keeps a date-ordered list in date order. */
  lemma RemoveKeepsSorted(records: seq<Entry>, date: string)
    requires Sorting.Sorted(records, DateLeq)
    ensures Sorting.Sorted(RemoveDate(records, date), DateLeq)
  {
    Sorting.FilterKeepsSorted(records, DateLeq, DateIsNot(date));
  }

  /** `records.find((r) => r.date === date) || null`. */
  function FindByDate(records: seq<Entry>, date: string): (r: Option<Entry>)
    ensures r.None? <==> forall i :: 0 <= i < |records| ==> records[i].date != date
    ensures r.Some? ==> exists i :: 0 <= i < |records| && records[i] == r.value && r.value.date == date
                                    && forall j :: 0 <= j < i ==> records[j].date != date
  {
    if records == [] then None
    else if records[0].date == date then Some(records[0])
    else
      var found := FindByDate(records[1..], date);
      assert forall i :: 0 < i < |records| ==> records[i] == records[1..][i - 1];
      found
  }

  /** The record found is the first of the records of that day. */
  lemma {:induction false} FindIsFirstOfDay(records: seq<Entry>, date: string)
    ensures var day := Sorting.Filter(records, DateIs(date));
            FindByDate(records, date) == if day == [] then None else Some(day[0])
  {
    if records != [] && records[0].date != date {
      FindIsFirstOfDay(records[1..], date);
    }
  }

  /** After addOrUpdate(d, w, x), looking d up gives (w, x); after remove(d) it gives nothing. */
  lemma FindAfterUpdates(records: seq<Entry>, date: string, weight: real, deficit: real)
    ensures FindByDate(Upsert(records, date, weight, deficit), date) == Some(Entry(date, weight, deficit))
    ensures FindByDate(RemoveDate(records, date), date) == None
  {
    UpsertResult(records, date, weight, deficit);
    FindIsFirstOfDay(Upsert(records, date, weight, deficit), date);
  }

  /** chartData: a sorted copy, oldest first. */
  function ChartDataOf(records: seq<Entry>): (r: seq<Entry>)
    ensures multiset(r) == multiset(records) && |r| == |records|
    ensures Sorting.Sorted(r, DateLeq)
  {
    DateLeqIsTotalPreorder();
    Sorting.SortSorts(records, DateLeq);
    Sorting.SortBy(records, DateLeq)
  }

  /** The log as the hook holds it. */
  class Log {
    var records: seq<Entry>

    /** The list restored from storage, or empty when there was none. */
    constructor (stored: Option<seq<Entry>>)
      ensures records == stored.GetOr([])
    {
      records := stored.GetOr([]);
    }

    /** addOrUpdate: `weight` and `deficit` are the results of `Number()`,
        None standing for NaN. An empty date or a NaN leaves the log alone. */
    method AddOrUpdate(date: string, weight: Option<real>, deficit: Option<real>)
      modifies this
      ensures date == "" || weight.None? || deficit.None? ==> records == old(records)
      ensures date != "" && weight.Some? && deficit.Some? ==>
                records == Upsert(old(records), date, weight.value, deficit.value)
    {
      if date == "" || weight.None? || deficit.None? {
        return;
      }
      var rest := Sorting.Filter(records, DateIsNot(date));
      records := Sorting.SortBy(rest + [Entry(date, weight.value, deficit.value)], DateLeq);
    }

    /** remove: every record of that day is dropped. */
    method Remove(date: string)
      modifies this
      ensures records == RemoveDate(old(records), date)
    {
      records := Sorting.Filter(records, DateIsNot(date));
    }

    /** getByDate. */
    function GetByDate(date: string): (r: Option<Entry>)
      reads this
      ensures r.None? <==> forall i :: 0 <= i < |records| ==> records[i].date != date
      ensures r.Some? ==> exists i :: 0 <= i < |records| && records[i] == r.value && r.value.date == date
                                      && forall j :: 0 <= j < i ==> records[j].date != date
    {
      FindByDate(records, date)
    }

    /** chartData: the records sorted oldest first, without touching `records`. */
    function ChartData(): (r: seq<Entry>)
      reads this
      ensures multiset(r) == multiset(records)
      ensures Sorting.Sorted(r, DateLeq)
    {
      ChartDataOf(records)
    }
  }
}
