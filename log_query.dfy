/**
 * The exercise-log query of `GET /api/users/:_id/logs`: a user's exercises are
 * filtered by an optional inclusive `from` bound, then by an optional inclusive
 * `to` bound, then cut to an optional `limit` with `slice(0, limit)`, and the
 * reply reports how many exercises it returns.
 */
module LogQuery {
  import opened Wrappers
  import opened Exercises
  import opened Subsequences

  /** The query string after parsing: None stands for a parameter that is absent or empty. */
  datatype Query = Query(from: Option<Date>, to: Option<Date>, limit: Option<ParsedInt>)

  /** Optional inclusive lower and upper date bounds. */
  datatype Range = Range(from: Option<Date>, to: Option<Date>)

  predicate InRange(d: Date, rg: Range) {
    && (rg.from.Some? ==> OnOrAfter(d, rg.from.value))
    && (rg.to.Some? ==> OnOrBefore(d, rg.to.value))
  }

  /** `Array.prototype.filter` with the predicate "the exercise's date is in `rg`". */
  function Filter(s: seq<Exercise>, rg: Range): (r: seq<Exercise>)
    ensures |r| <= |s|
  {
    if s == [] then []
    else if InRange(s[0].date, rg) then [s[0]] + Filter(s[1..], rg)
    else Filter(s[1..], rg)
  }

  /**
   * The end position `slice(0, end)` stops at on a list of length `len`:
   * NaN counts as 0, a negative end counts from the back, and the end is
   * clamped to the list.
   */
  function SliceEnd(len: nat, end: ParsedInt): (k: nat)
    ensures k <= len
  {
    match end
    case NaN => 0
    case Int(n) =>
      if n < 0 then (if len + n < 0 then 0 else len + n)
      else if n < len then n
      else len
  }

  /** `s.slice(0, end)`. */
  function Slice(s: seq<Exercise>, end: ParsedInt): seq<Exercise> {
    s[..SliceEnd(|s|, end)]
  }

  /** The two filter steps exactly as the handler applies them, each only when its bound is given. */
  function DateFiltered(exercises: seq<Exercise>, q: Query): seq<Exercise> {
    var afterFrom := if q.from.Some? then Filter(exercises, Range(q.from, None)) else exercises;
    if q.to.Some? then Filter(afterFrom, Range(None, q.to)) else afterFrom
  }

  /** The returned log: the date-filtered exercises, sliced when a limit is given. */
  function Log(exercises: seq<Exercise>, q: Query): seq<Exercise> {
    var filtered := DateFiltered(exercises, q);
    if q.limit.Some? then Slice(filtered, q.limit.value) else filtered
  }

  /** The body of a successful log reply, without the user's id. */
  datatype LogReport = LogReport(username: string, count: nat, log: seq<Exercise>)

  function Report(username: string, exercises: seq<Exercise>, q: Query): (r: LogReport)
    ensures r.username == username
    ensures r.log == Log(exercises, q)
    ensures r.count == |r.log| && r.count <= |exercises|
  {
    LogFiltersOnce(exercises, q);
    var logs := Log(exercises, q);
    LogReport(username, |logs|, logs)
  }

  // ---------------------------------------------------------------------------
  // Filter

  lemma FilterCons(x: Exercise, rest: seq<Exercise>, rg: Range)
    ensures Filter([x] + rest, rg) == if InRange(x.date, rg) then [x] + Filter(rest, rg) else Filter(rest, rg)
  {
    assert ([x] + rest)[0] == x;
    assert ([x] + rest)[1..] == rest;
  }

  /** With neither bound nothing is filtered out. */
  lemma {:induction false} FilterUnbounded(s: seq<Exercise>)
    ensures Filter(s, Range(None, None)) == s
  {
    if s != [] {
      FilterUnbounded(s[1..]);
      assert [s[0]] + s[1..] == s;
    }
  }

  /** Filtering by `from` and then by `to` is one filter by both bounds. */
  lemma {:induction false} FilterTwice(s: seq<Exercise>, from: Option<Date>, to: Option<Date>)
    ensures Filter(Filter(s, Range(from, None)), Range(None, to)) == Filter(s, Range(from, to))
  {
    if s != [] {
      FilterTwice(s[1..], from, to);
      if InRange(s[0].date, Range(from, None)) {
        FilterCons(s[0], Filter(s[1..], Range(from, None)), Range(None, to));
      }
    }
  }

  /** Every exercise the filter returns has its date in the range. */
  lemma {:induction false} FilterInRange(s: seq<Exercise>, rg: Range)
    ensures forall k :: 0 <= k < |Filter(s, rg)| ==> InRange(Filter(s, rg)[k].date, rg)
  {
    if s != [] {
      FilterInRange(s[1..], rg);
    }
  }

  /**
   * `r` is the subsequence of `s` at positions `idx`, and a position of `s` is
   * among them exactly when the exercise there has its date in `rg`.
   */
  ghost predicate KeepsExactly(r: seq<Exercise>, s: seq<Exercise>, rg: Range, idx: seq<nat>) {
    && Picks(r, s, idx)
    && forall i :: 0 <= i < |s| ==> (i in idx <==> InRange(s[i].date, rg))
  }

  /** Every position moved one place to the right. */
  function Shift(idx: seq<nat>): seq<nat>
  {
    seq(|idx|, k requires 0 <= k < |idx| => idx[k] + 1)
  }

  lemma ShiftPicks(x: Exercise, r: seq<Exercise>, s: seq<Exercise>, idx: seq<nat>)
    requires Picks(r, s, idx)
    ensures Picks(r, [x] + s, Shift(idx))
    ensures Picks([x] + r, [x] + s, [0] + Shift(idx))
  {
    var t := [x] + s;
    var sh := Shift(idx);
    assert forall k :: 0 <= k < |sh| ==> t[sh[k]] == s[idx[k]];
    var id0 := [0] + sh;
    assert forall k :: 1 <= k < |id0| ==> id0[k] == sh[k - 1];
  }

  lemma ShiftMembers(idx: seq<nat>, i: nat)
    ensures i in Shift(idx) <==> i > 0 && i - 1 in idx
  {
    if i > 0 && i - 1 in idx {
      var k :| 0 <= k < |idx| && idx[k] == i - 1;
      assert Shift(idx)[k] == i;
    }
  }

  /** The positions the filter keeps in `s`, given those it keeps in `s[1..]`. */
  function ConsPositions(s: seq<Exercise>, rg: Range, idx: seq<nat>): seq<nat>
    requires s != []
  {
    if InRange(s[0].date, rg) then [0] + Shift(idx) else Shift(idx)
  }

  lemma KeepsExactlyCons(s: seq<Exercise>, rg: Range, idx: seq<nat>)
    requires s != [] && KeepsExactly(Filter(s[1..], rg), s[1..], rg, idx)
    ensures KeepsExactly(Filter(s, rg), s, rg, ConsPositions(s, rg, idx))
  {
    var tail := Filter(s[1..], rg);
    assert [s[0]] + s[1..] == s;
    ShiftPicks(s[0], tail, s[1..], idx);
    forall i | 0 <= i < |s|
      ensures i in Shift(idx) <==> i > 0 && InRange(s[i].date, rg)
    {
      ShiftMembers(idx, i);
      if i > 0 {
        assert s[i] == s[1..][i - 1];
      }
    }
  }

  /** The filter keeps exactly the in-range exercises, in their original order. */
  lemma {:induction false} FilterKeepsExactly(s: seq<Exercise>, rg: Range)
    ensures exists idx :: KeepsExactly(Filter(s, rg), s, rg, idx)
  {
    if s == [] {
      assert KeepsExactly(Filter(s, rg), s, rg, []);
    } else {
      FilterKeepsExactly(s[1..], rg);
      var idx :| KeepsExactly(Filter(s[1..], rg), s[1..], rg, idx);
      KeepsExactlyCons(s, rg, idx);
    }
  }

  /** An invalid bound matches nothing, so the filter returns nothing. */
  lemma {:induction false} FilterInvalidBound(s: seq<Exercise>, rg: Range)
    requires rg.from == Some(InvalidDate) || rg.to == Some(InvalidDate)
    ensures Filter(s, rg) == []
  {
    if s != [] {
      FilterInvalidBound(s[1..], rg);
    }
  }

  // ---------------------------------------------------------------------------
  // Log

  /** The handler's two filter steps together are one filter by both bounds. */
  lemma {:induction false} LogFiltersOnce(exercises: seq<Exercise>, q: Query)
    ensures DateFiltered(exercises, q) == Filter(exercises, Range(q.from, q.to))
    ensures |Log(exercises, q)| <= |DateFiltered(exercises, q)| <= |exercises|
  {
    if q.from.Some? && q.to.Some? {
      FilterTwice(exercises, q.from, q.to);
    } else if q.from.None? && q.to.None? {
      FilterUnbounded(exercises);
    }
  }

  /** The log is a prefix of the exercises that fall within both bounds. */
  lemma {:induction false} LogIsFirstMatches(exercises: seq<Exercise>, q: Query)
    ensures var matches := Filter(exercises, Range(q.from, q.to));
      |Log(exercises, q)| <= |matches| && Log(exercises, q) == matches[..|Log(exercises, q)|]
  {
    LogFiltersOnce(exercises, q);
  }

  /** The returned log is a subsequence of the stored exercises: nothing is reordered or invented. */
  lemma LogIsSubsequence(exercises: seq<Exercise>, q: Query)
    ensures IsSubsequence(Log(exercises, q), exercises)
  {
    var rg := Range(q.from, q.to);
    var matches := Filter(exercises, rg);
    LogIsFirstMatches(exercises, q);
    FilterKeepsExactly(exercises, rg);
    var idx :| KeepsExactly(matches, exercises, rg, idx);
    var n := |Log(exercises, q)|;
    PicksPrefix(matches, exercises, idx, n);
    assert Picks(Log(exercises, q), exercises, idx[..n]);
  }

  /** Both bounds are inclusive and hold of every returned exercise; invalid dates never pass a given bound. */
  lemma LogWithinBounds(exercises: seq<Exercise>, q: Query)
    ensures forall k :: 0 <= k < |Log(exercises, q)| ==>
      && (q.from.Some? ==> OnOrAfter(Log(exercises, q)[k].date, q.from.value))
      && (q.to.Some? ==> OnOrBefore(Log(exercises, q)[k].date, q.to.value))
  {
    var rg := Range(q.from, q.to);
    LogIsFirstMatches(exercises, q);
    FilterInRange(exercises, rg);
    var logs := Log(exercises, q);
    forall k | 0 <= k < |logs|
      ensures InRange(logs[k].date, rg)
    {
      assert logs[k] == Filter(exercises, rg)[k];
    }
  }

  /** Every stored exercise within both bounds is returned unless the limit cuts it off. */
  lemma LogCompleteWithoutLimit(exercises: seq<Exercise>, q: Query)
    requires q.limit.None?
    ensures exists idx :: KeepsExactly(Log(exercises, q), exercises, Range(q.from, q.to), idx)
  {
    LogFiltersOnce(exercises, q);
    FilterKeepsExactly(exercises, Range(q.from, q.to));
  }

  /** Without from, to or limit the log is the user's whole exercise list. */
  lemma {:induction false} LogUnfiltered(exercises: seq<Exercise>)
    ensures Log(exercises, Query(None, None, None)) == exercises
  {
    FilterUnbounded(exercises);
  }

  /**
   * The limit takes the first matches: the first min(n, matches) for n >= 0,
   * all but the last -n for n < 0 (none if there are fewer), and none at all
   * for a limit that does not parse as a number.
   */
  lemma LogLimit(exercises: seq<Exercise>, q: Query)
    requires q.limit.Some?
    ensures var matches := Filter(exercises, Range(q.from, q.to));
      && (q.limit.value.Int? && q.limit.value.value >= 0 ==>
            Log(exercises, q) == matches[..if q.limit.value.value < |matches| then q.limit.value.value else |matches|])
      && (q.limit.value.Int? && q.limit.value.value < 0 ==>
            Log(exercises, q) == matches[..if |matches| + q.limit.value.value < 0 then 0 else |matches| + q.limit.value.value])
      && (q.limit.value.NaN? ==> Log(exercises, q) == [])
  {
    LogFiltersOnce(exercises, q);
  }

  /** An unparseable `from` or `to` date makes the log empty. */
  lemma LogInvalidBound(exercises: seq<Exercise>, q: Query)
    requires q.from == Some(InvalidDate) || q.to == Some(InvalidDate)
    ensures Log(exercises, q) == []
  {
    LogFiltersOnce(exercises, q);
    FilterInvalidBound(exercises, Range(q.from, q.to));
  }
}
