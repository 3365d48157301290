/** The date-range filter of the working-day table (`filtrarJornadas`), on the days of the records. */
module JornadasTable {
  import opened Wrappers
  import opened Seqs
  import opened Jornadas

  function OnOrAfter(start: int): DayRecord -> bool
  {
    (j: DayRecord) => j.day >= start
  }

  function OnOrBefore(end: int): DayRecord -> bool
  {
    (j: DayRecord) => j.day <= end
  }

  /** Both bounds together; an absent bound (an empty date field) admits every day. */
  function WithinBounds(start: Option<int>, end: Option<int>): DayRecord -> bool
  {
    (j: DayRecord) => (start.None? || j.day >= start.value) && (end.None? || j.day <= end.value)
  }

  /** `filtrarJornadas`: a copy, filtered by the start date when it is given, then by the end date when it is given. */
  function FilterJornadas(js: seq<DayRecord>, start: Option<int>, end: Option<int>): seq<DayRecord>
  {
    var afterStart := if start.Some? then Filter(js, OnOrAfter(start.value)) else js;
    if end.Some? then Filter(afterStart, OnOrBefore(end.value)) else afterStart
  }

  /** Two successive filters keep what satisfies both predicates. */
  lemma {:induction false} FilterTwice<T>(xs: seq<T>, p: T -> bool, q: T -> bool, both: T -> bool)
    requires forall x :: both(x) == (p(x) && q(x))
    ensures Filter(Filter(xs, p), q) == Filter(xs, both)
    decreases |xs|
  {
    if |xs| > 0 {
      var ps, y := xs[..|xs| - 1], xs[|xs| - 1];
      FilterTwice(ps, p, q, both);
      if p(y) {
        var f := Filter(ps, p);
        assert Filter(xs, p) == f + [y];
        assert (f + [y])[..|f|] == f;
        assert Filter(f + [y], q) == Filter(f, q) + (if q(y) then [y] else []);
      } else {
        assert Filter(xs, p) == Filter(ps, p);
      }
      assert Filter(xs, both) == Filter(ps, both) + (if both(y) then [y] else []);
    }
  }

  /** The two filters in a row are the one filter on both bounds. */
  lemma FilterJornadasSingle(js: seq<DayRecord>, start: Option<int>, end: Option<int>)
    ensures FilterJornadas(js, start, end) == Filter(js, WithinBounds(start, end))
  {
    var keep := WithinBounds(start, end);
    if start.Some? && end.Some? {
      FilterTwice(js, OnOrAfter(start.value), OnOrBefore(end.value), keep);
    } else if start.Some? {
      FilterSame(js, OnOrAfter(start.value), keep);
    } else if end.Some? {
      FilterSame(js, OnOrBefore(end.value), keep);
    } else {
      FilterAll(js, keep);
    }
  }

  /** Filters with predicates that agree everywhere agree. */
  lemma {:induction false} FilterSame<T>(xs: seq<T>, p: T -> bool, q: T -> bool)
    requires forall x :: p(x) == q(x)
    ensures Filter(xs, p) == Filter(xs, q)
    decreases |xs|
  {
    if |xs| > 0 {
      FilterSame(xs[..|xs| - 1], p, q);
    }
  }

  /**
   * The result keeps the records in their order, with no record outside the inclusive bounds,
   * and misses none inside them.
   */
  lemma FilterJornadasSpec(js: seq<DayRecord>, start: Option<int>, end: Option<int>)
    ensures var r := FilterJornadas(js, start, end);
      && IsSubsequence(r, js)
      && (forall i :: 0 <= i < |r| ==> (start.Some? ==> r[i].day >= start.value) && (end.Some? ==> r[i].day <= end.value))
      && (forall j :: j in js && (start.None? || j.day >= start.value) && (end.None? || j.day <= end.value) ==> j in r)
      && (forall j :: j in r ==> j in js)
  {
    FilterJornadasSingle(js, start, end);
    FilterSpec(js, WithinBounds(start, end));
  }

  /** With both date fields empty, the table shows every record. */
  lemma FilterJornadasNoBounds(js: seq<DayRecord>)
    ensures FilterJornadas(js, None, None) == js
  {
  }

  /** Filtering the filtered records again with the same bounds changes nothing. */
  lemma FilterJornadasIdempotent(js: seq<DayRecord>, start: Option<int>, end: Option<int>)
    ensures FilterJornadas(FilterJornadas(js, start, end), start, end) == FilterJornadas(js, start, end)
  {
    var r := FilterJornadas(js, start, end);
    var keep := WithinBounds(start, end);
    FilterJornadasSingle(js, start, end);
    FilterJornadasSingle(r, start, end);
    FilterSpec(js, keep);
    FilterAll(r, keep);
  }
}
