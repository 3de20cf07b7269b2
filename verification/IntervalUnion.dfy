/** Overlapping intervals counted once: the sweep over sorted intervals against the set of covered nanoseconds. */
module IntervalUnion {
  import opened Sorting
  import opened Samples

  datatype Span = Span(start: int, end: int)

  /** Tuple order: by start, then by end. */
  predicate Before(a: Span, b: Span) {
    a.start < b.start || (a.start == b.start && a.end <= b.end)
  }

  /** The integers from `lo` up to but not including `hi`. */
  function Range(lo: int, hi: int): (r: set<int>)
    ensures forall x :: x in r <==> lo <= x < hi
    decreases hi - lo
  {
    if lo >= hi then {} else Range(lo, hi - 1) + {hi - 1}
  }

  /** The nanoseconds that at least one interval covers. */
  function CoveredBy(spans: seq<Span>): set<int> {
    if spans == [] then {} else Range(spans[0].start, spans[0].end) + CoveredBy(spans[1..])
  }

  predicate WellFormed(spans: seq<Span>) {
    forall i :: 0 <= i < |spans| ==> spans[i].start <= spans[i].end
  }

  lemma {:induction false} RangeSize(lo: int, hi: int)
    requires lo <= hi
    ensures |Range(lo, hi)| == hi - lo
    decreases hi - lo
  {
    if lo < hi {
      RangeSize(lo, hi - 1);
    }
  }

  lemma {:induction false} CoveredMember(spans: seq<Span>, x: int)
    ensures x in CoveredBy(spans) <==> exists i :: 0 <= i < |spans| && spans[i].start <= x < spans[i].end
  {
    if spans != [] {
      CoveredMember(spans[1..], x);
      assert forall i :: 1 <= i < |spans| ==> spans[i] == spans[1..][i - 1];
      if i :| 0 <= i < |spans[1..]| && spans[1..][i].start <= x < spans[1..][i].end {
        assert spans[i + 1] == spans[1..][i];
      }
    }
  }

  lemma {:induction false} BeforeIsTotal()
    ensures TotalPreorder(Before)
  {
  }

  /** The part of the sweep still to come, given the run [start, end) that is open. */
  function Sweep(rest: seq<Span>, start: int, end: int): int {
    if rest == [] then end - start
    else if rest[0].start > end then end - start + Sweep(rest[1..], rest[0].start, rest[0].end)
    else Sweep(rest[1..], start, if end >= rest[0].end then end else rest[0].end)
  }

  lemma {:induction false} SortedTail(spans: seq<Span>)
    requires Sorted(spans, Before) && spans != []
    ensures Sorted(spans[1..], Before)
    ensures forall i :: 0 <= i < |spans| ==> spans[0].start <= spans[i].start
  {
    assert forall i :: 0 < i < |spans| ==> Before(spans[0], spans[i]);
  }

  /** An interval that starts after the open run ends opens a new run, disjoint from it. */
  lemma {:induction false} NewRun(start: int, end: int, s: Span, rest: seq<Span>)
    requires start <= end < s.start && forall i :: 0 <= i < |rest| ==> s.start <= rest[i].start
    ensures |Range(start, end) + (Range(s.start, s.end) + CoveredBy(rest))| == end - start + |Range(s.start, s.end) + CoveredBy(rest)|
  {
    var later := Range(s.start, s.end) + CoveredBy(rest);
    forall x | x in later ensures s.start <= x {
      CoveredMember(rest, x);
    }
    assert Range(start, end) !! later;
    RangeSize(start, end);
  }

  /** An interval that starts within the open run extends it. */
  lemma {:induction false} ExtendRun(start: int, end: int, s: Span)
    requires start <= s.start <= end && s.start <= s.end
    ensures Range(start, if end >= s.end then end else s.end) == Range(start, end) + Range(s.start, s.end)
  {
  }

  /** Everything the sweep adds is what the open run and the remaining intervals cover together. */
  lemma {:induction false} SweepCounts(rest: seq<Span>, start: int, end: int)
    requires start <= end && WellFormed(rest) && Sorted(rest, Before)
    requires forall i :: 0 <= i < |rest| ==> start <= rest[i].start
    ensures Sweep(rest, start, end) == |Range(start, end) + CoveredBy(rest)|
  {
    hide Range;
    if rest == [] {
      RangeSize(start, end);
      assert Range(start, end) + {} == Range(start, end);
    } else {
      var s := rest[0];
      SortedTail(rest);
      if s.start > end {
        SweepCounts(rest[1..], s.start, s.end);
        NewRun(start, end, s, rest[1..]);
      } else {
        SweepCounts(rest[1..], start, if end >= s.end then end else s.end);
        ExtendRun(start, end, s);
        assert Range(start, end) + CoveredBy(rest) == (Range(start, end) + Range(s.start, s.end)) + CoveredBy(rest[1..]);
      }
    }
  }

  lemma {:induction false} SortKeepsCover(spans: seq<Span>)
    ensures CoveredBy(Sort(spans, Before)) == CoveredBy(spans)
    ensures WellFormed(spans) ==> WellFormed(Sort(spans, Before))
  {
    var sorted := Sort(spans, Before);
    SameMembersSameCover(spans, sorted) by {
      forall s ensures s in sorted <==> s in spans { SortSameElements(spans, Before, s); }
    }
    forall i | 0 <= i < |sorted| ensures sorted[i] in spans {
      assert sorted[i] in sorted;
      SortSameElements(spans, Before, sorted[i]);
    }
  }

  lemma {:induction false} SameMembersSameCover(a: seq<Span>, b: seq<Span>)
    requires forall s :: s in a <==> s in b
    ensures CoveredBy(a) == CoveredBy(b)
  {
    forall x ensures x in CoveredBy(a) <==> x in CoveredBy(b) {
      CoveredMember(a, x);
      CoveredMember(b, x);
      if i :| 0 <= i < |a| && a[i].start <= x < a[i].end {
        assert a[i] in b;
      }
      if i :| 0 <= i < |b| && b[i].start <= x < b[i].end {
        assert b[i] in a;
      }
    }
  }

  /** The sweep: its result is the number of nanoseconds covered by at least one interval. */
  method UnionDuration(spans: seq<Span>) returns (total: int)
    requires WellFormed(spans)
    ensures total == |CoveredBy(spans)|
  {
    hide CoveredBy, Range, Sort, Sorted;
    var ordered := Sort(spans, Before);
    total := 0;
    var started := false;
    var currentStart, currentEnd := 0, 0;
    var i := 0;
    while i < |ordered|
      invariant 0 <= i <= |ordered| && started == (i > 0)
      invariant started ==> total + Sweep(ordered[i..], currentStart, currentEnd) == Sweep(ordered[1..], ordered[0].start, ordered[0].end)
      invariant !started ==> total == 0
    {
      var span := ordered[i];
      SweepUnfolds(ordered, i, currentStart, currentEnd);
      if !started {
        started := true;
        currentStart, currentEnd := span.start, span.end;
      } else if span.start > currentEnd {
        total := total + (currentEnd - currentStart);
        currentStart, currentEnd := span.start, span.end;
      } else {
        currentEnd := if currentEnd >= span.end then currentEnd else span.end;
      }
      i := i + 1;
    }
    if started {
      total := total + (currentEnd - currentStart);
    }
    SweepOfSorted(spans);
  }

  lemma {:induction false} SweepUnfolds(ordered: seq<Span>, i: nat, start: int, end: int)
    requires i < |ordered|
    ensures Sweep(ordered[i..], start, end) ==
            if ordered[i].start > end then end - start + Sweep(ordered[i + 1..], ordered[i].start, ordered[i].end)
            else Sweep(ordered[i + 1..], start, if end >= ordered[i].end then end else ordered[i].end)
  {
    assert ordered[i..][1..] == ordered[i + 1..];
  }

  lemma {:induction false} SweepOfSorted(spans: seq<Span>)
    requires WellFormed(spans)
    ensures var ordered := Sort(spans, Before);
            |CoveredBy(spans)| == if ordered == [] then 0 else Sweep(ordered[1..], ordered[0].start, ordered[0].end)
  {
    var ordered := Sort(spans, Before);
    BeforeIsTotal();
    SortSorts(spans, Before);
    SortKeepsCover(spans);
    if ordered != [] {
      SortedTail(ordered);
      SweepCounts(ordered[1..], ordered[0].start, ordered[0].end);
    }
  }

  // ---------------------------------------------------------------- coverage of several series

  function SpansOf(ds: seq<Increment>): (spans: seq<Span>)
    ensures |spans| == |ds| && forall i :: 0 <= i < |ds| ==> spans[i] == Span(ds[i].start, ds[i].end)
  {
    seq(|ds|, i requires 0 <= i < |ds| => Span(ds[i].start, ds[i].end))
  }

  lemma {:induction false} CoverConcat(a: seq<Span>, b: seq<Span>)
    ensures CoveredBy(a + b) == CoveredBy(a) + CoveredBy(b)
  {
    if a == [] {
      assert a + b == b;
    } else {
      CoverConcat(a[1..], b);
      assert (a + b)[1..] == a[1..] + b;
    }
  }

  /** One series covers as many nanoseconds as its own covered duration says, because its intervals do not overlap. */
  lemma {:induction false} OneSeriesCover(ds: seq<Increment>, lo: int, w: Window)
    requires InOrder(ds, lo, w)
    ensures |CoveredBy(SpansOf(ds))| == Covered(ds)
    ensures forall x :: x in CoveredBy(SpansOf(ds)) ==> lo <= x && w.start <= x < w.end
  {
    if ds != [] {
      OneSeriesCover(ds[1..], ds[0].end, w);
      assert SpansOf(ds)[1..] == SpansOf(ds[1..]);
      RangeSize(ds[0].start, ds[0].end);
      var rest := CoveredBy(SpansOf(ds[1..]));
      assert CoveredBy(SpansOf(ds)) == Range(ds[0].start, ds[0].end) + rest;
      assert Range(ds[0].start, ds[0].end) !! rest;
    }
  }

  function SumCovered(series: seq<seq<Increment>>): int {
    if series == [] then 0 else Covered(series[0]) + SumCovered(series[1..])
  }

  function AllSpans(series: seq<seq<Increment>>): seq<Span> {
    if series == [] then [] else SpansOf(series[0]) + AllSpans(series[1..])
  }

  predicate AllInOrder(series: seq<seq<Increment>>, lo: int, w: Window) {
    forall k :: 0 <= k < |series| ==> InOrder(series[k], lo, w)
  }

  lemma {:induction false} OrderedUnionBounds(series: seq<seq<Increment>>, lo: int, w: Window)
    requires AllInOrder(series, lo, w)
    ensures forall k :: 0 <= k < |series| ==> Covered(series[k]) <= |CoveredBy(AllSpans(series))|
    ensures |CoveredBy(AllSpans(series))| <= SumCovered(series)
    ensures CoveredBy(AllSpans(series)) <= Range(w.start, w.end)
  {
    if series != [] {
      var first, rest := CoveredBy(SpansOf(series[0])), CoveredBy(AllSpans(series[1..]));
      OrderedUnionBounds(series[1..], lo, w);
      CoverConcat(SpansOf(series[0]), AllSpans(series[1..]));
      OneSeriesCover(series[0], lo, w);
      assert CoveredBy(AllSpans(series)) == first + rest;
      SubsetSize(first, first + rest);
      SubsetSize(rest, first + rest);
      UnionSize(first, rest);
      assert forall k :: 1 <= k < |series| ==> series[k] == series[1..][k - 1];
    }
  }

  lemma {:induction false} SubsetSize(a: set<int>, b: set<int>)
    requires a <= b
    ensures |a| <= |b|
  {
    assert b == a + (b - a);
  }

  lemma {:induction false} UnionSize(a: set<int>, b: set<int>)
    ensures |a + b| <= |a| + |b|
  {
    assert a + b == a + (b - a);
    SubsetSize(b - a, b);
  }

  /** The increments of every series of a direction. */
  function SeriesIncrements(series: seq<seq<Sample>>, w: Window): (r: seq<seq<Increment>>)
    ensures |r| == |series| && forall k :: 0 <= k < |series| ==> r[k] == Increments(Groups(series[k]), w)
  {
    seq(|series|, k requires 0 <= k < |series| => Increments(Groups(series[k]), w))
  }

  lemma {:induction false} InOrderFromStart(ds: seq<Increment>, lo: int, w: Window)
    requires InOrder(ds, lo, w)
    ensures InOrder(ds, w.start, w)
  {
  }

  /** Whatever the records, the increments of each series lie in order in the window. */
  lemma {:induction false} SeriesInOrder(series: seq<seq<Sample>>, w: Window)
    ensures AllInOrder(SeriesIncrements(series, w), w.start, w)
  {
    hide Increments, Groups;
    forall k | 0 <= k < |series| ensures InOrder(Increments(Groups(series[k]), w), w.start, w) {
      var gs := Groups(series[k]);
      OrderedGroups(series[k]);
      if gs == [] {
        Unfolds(gs, w);
      } else {
        IncrementsInOrder(gs, w);
        InOrderFromStart(Increments(gs, w), gs[0].t, w);
      }
    }
  }

  /** For any records of any number of series, the union of their valid intervals covers at least what each series
      covers, at most what they cover together, and only the window. */
  lemma {:induction false} UnionBounds(series: seq<seq<Sample>>, w: Window)
    ensures var ds := SeriesIncrements(series, w);
            && (forall k :: 0 <= k < |series| ==> Covered(Increments(Groups(series[k]), w)) <= |CoveredBy(AllSpans(ds))|)
            && |CoveredBy(AllSpans(ds))| <= SumCovered(ds)
            && CoveredBy(AllSpans(ds)) <= Range(w.start, w.end)
  {
    hide Range, CoveredBy, AllSpans, AllInOrder, Increments, Groups, SumCovered, Covered;
    SeriesInOrder(series, w);
    OrderedUnionBounds(SeriesIncrements(series, w), w.start, w);
  }

  /** Hence the coverage fraction of a direction with several series lies in [0, 1]. */
  lemma {:induction false} UnionCoverage(series: seq<seq<Sample>>, w: Window)
    requires w.start < w.end
    ensures 0.0 <= |CoveredBy(AllSpans(SeriesIncrements(series, w)))| as real / (w.end - w.start) as real <= 1.0
  {
    hide *;
    UnionBounds(series, w);
    RangeSize(w.start, w.end);
    SubsetSize(CoveredBy(AllSpans(SeriesIncrements(series, w))), Range(w.start, w.end));
    RatioInUnit(|CoveredBy(AllSpans(SeriesIncrements(series, w)))|, w.end - w.start);
  }
}
