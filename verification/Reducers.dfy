/** The three independent reducers of cumulative counters, compared on arbitrary input. */
module Reducers {
  import opened Wrappers
  import opened Sorting
  import opened Samples
  import FlowControl
  import HostPressure
  import FrameCounters

  function FlowIncrements(records: seq<Sample>, w: Window): seq<Increment> {
    FlowControl.ValidIn(FlowControl.Intervals(Groups(records), None), w)
  }

  function HostIncrements(records: seq<Sample>, w: Window): seq<Increment> {
    HostPressure.ValidIn(HostPressure.Intervals(Groups(records), None, w))
  }

  function FrameIncrements(records: seq<Sample>, w: Window): seq<Increment> {
    FrameCounters.ValidIn(FrameCounters.Intervals(Ordered(records), w))
  }

  /** The group chain and the jumping index agree on every input, conflicts included. */
  lemma {:induction false} FlowAgreesWithHost(records: seq<Sample>, w: Window)
    ensures FlowIncrements(records, w) == HostIncrements(records, w) == Increments(Groups(records), w)
  {
    OrderedGroups(records);
    FlowControl.ReducesToReference(Groups(records), w);
    HostPressure.ReducesToReference(Groups(records), w);
  }

  /** The host-pressure form of a flow-control interval. */
  function ToHost(i: FlowControl.Interval, w: Window): HostPressure.Interval {
    HostPressure.Interval(i.start, i.end, i.startValue, i.endValue,
      if i.state == FlowControl.ConflictingTimestamp then None else Some(i.endValue - i.startValue),
      match i.state
      case Valid => HostPressure.Valid
      case DecreaseOrReset => HostPressure.DecreaseOrReset
      case ConflictingTimestamp => HostPressure.ConflictingTimestamp,
      FlowControl.Within(i, w))
  }

  function AllToHost(s: seq<FlowControl.Interval>, w: Window): seq<HostPressure.Interval> {
    if s == [] then [] else [ToHost(s[0], w)] + AllToHost(s[1..], w)
  }

  lemma {:induction false} ToHostConcat(a: seq<FlowControl.Interval>, b: seq<FlowControl.Interval>, w: Window)
    ensures AllToHost(a + b, w) == AllToHost(a, w) + AllToHost(b, w)
  {
    hide ToHost;
    if a == [] {
      assert a + b == b;
    } else {
      ToHostConcat(a[1..], b, w);
      assert (a + b)[1..] == a[1..] + b;
    }
  }

  lemma {:induction false} SameChain(gs: seq<Group>, previous: Option<Sample>, w: Window)
    requires NonEmpty(gs) && Increasing(gs) && (previous.Some? && gs != [] ==> previous.value.t < gs[0].t)
    ensures HostPressure.Intervals(gs, previous, w) == AllToHost(FlowControl.Intervals(gs, previous), w)
  {
    if gs != [] {
      var rest := gs[1..];
      assert rest != [] ==> gs[0].t < gs[1].t;
      var next := if Clean(gs[0]) then Some(Sample(gs[0].t, gs[0].vs[0])) else None;
      SameChain(rest, next, w);
      var first := if !Clean(gs[0]) then [FlowControl.Conflict(gs[0])]
                   else if previous.Some? then [FlowControl.Transition(previous.value, next.value)] else [];
      assert FlowControl.Intervals(gs, previous) == first + FlowControl.Intervals(rest, next);
      ToHostConcat(first, FlowControl.Intervals(rest, next), w);
    }
  }

  /** The first two reducers list the same intervals, one by one: invalid ones, states and window flags included. */
  lemma {:induction false} SameIntervals(records: seq<Sample>, w: Window)
    ensures HostPressure.Intervals(Groups(records), None, w) == AllToHost(FlowControl.Intervals(Groups(records), None), w)
  {
    OrderedGroups(records);
    SameChain(Groups(records), None, w);
  }

  lemma {:induction false} InvalidSplit(s: seq<FlowControl.Interval>, w: Window)
    ensures HostPressure.InvalidCount(AllToHost(s, w))
         == FlowControl.InvalidCount(FlowControl.Selected(s, w)) + HostPressure.InvalidOutside(AllToHost(s, w))
  {
    if s != [] {
      InvalidSplit(s[1..], w);
      if FlowControl.Within(s[0], w) {
        assert FlowControl.Selected(s, w)[1..] == FlowControl.Selected(s[1..], w);
      } else {
        assert FlowControl.Selected(s, w) == FlowControl.Selected(s[1..], w);
      }
    }
  }

  /** The host-pressure reducer also counts invalid intervals outside the window; the two counts of invalid
      intervals agree exactly when there is none. */
  lemma {:induction false} InvalidCountsDiffer(records: seq<Sample>, w: Window)
    ensures var flow := FlowControl.Intervals(Groups(records), None);
            var host := HostPressure.Intervals(Groups(records), None, w);
            && HostPressure.AnalyzeCounter(host).invalidCount
               == FlowControl.InvalidCount(FlowControl.Selected(flow, w)) + HostPressure.InvalidOutside(host)
            && (HostPressure.AnalyzeCounter(host).invalidCount == FlowControl.InvalidCount(FlowControl.Selected(flow, w))
                <==> HostPressure.InvalidOutside(host) == 0)
  {
    SameIntervals(records, w);
    InvalidSplit(FlowControl.Intervals(Groups(records), None), w);
  }

  /**
   The pair scan agrees with them exactly when no increment is counted into or out of a conflicting
   timestamp inside the window; otherwise it reports that many more.
   */
  lemma {:induction false} FrameAgreesExactly(records: seq<Sample>, w: Window)
    ensures FrameIncrements(records, w) == FlowIncrements(records, w)
            <==> FrameCounters.CountedAcrossConflicts(Groups(records), w) == 0
    ensures |FrameIncrements(records, w)| == |FlowIncrements(records, w)| + FrameCounters.CountedAcrossConflicts(Groups(records), w)
  {
    OrderedGroups(records);
    ByTimeIsTotal();
    SortSorts(records, ByTime);
    FlowAgreesWithHost(records, w);
    FrameCounters.ScanIsLoose(Ordered(records), w);
    FrameCounters.ExtraIncrements(Groups(records), w);
  }

  /** Without conflicting timestamps all three report the same increments. */
  lemma {:induction false} AllAgree(records: seq<Sample>, w: Window)
    requires NoConflicts(Groups(records))
    ensures FlowIncrements(records, w) == HostIncrements(records, w) == FrameIncrements(records, w)
  {
    FlowAgreesWithHost(records, w);
    FrameAgreesExactly(records, w);
    FrameCounters.NoConflictNothingExtra(Groups(records), w);
  }

  /** A conflicting timestamp out of which only the pair scan counts. */
  lemma {:induction false} FrameCountsAcrossConflict()
    ensures var records := [Sample(1, 1), Sample(1, 2), Sample(2, 5)];
            FlowIncrements(records, Window(0, 2)) == [] && FrameIncrements(records, Window(0, 2)) == [Increment(1, 2, 2, 5)]
  {
    var records := [Sample(1, 1), Sample(1, 2), Sample(2, 5)];
    var w := Window(0, 2);
    SortKeepsSorted(records, ByTime);
    ThreeRecords();
    var g, h := Group(1, [1, 2]), Group(2, [5]);
    assert !Clean(g) by { assert g.vs[1] != g.vs[0]; }
    FlowAgreesWithHost(records, w);
    FrameCounters.ScanIsLoose(records, w);
    assert [g, h][1..] == [h];
  }

  /** A reset before the window, which only the host-pressure reducer counts as invalid. */
  lemma {:induction false} ResetOutsideCounted()
    ensures var records, w := [Sample(1, 5), Sample(2, 3)], Window(5, 9);
            && HostPressure.AnalyzeCounter(HostPressure.Intervals(Groups(records), None, w)).invalidCount == 1
            && FlowControl.InvalidCount(FlowControl.Selected(FlowControl.Intervals(Groups(records), None), w)) == 0
  {
    var records, w := [Sample(1, 5), Sample(2, 3)], Window(5, 9);
    SortKeepsSorted(records, ByTime);
    assert records[1..] == [Sample(2, 3)] && records[1..][1..] == [];
    assert GroupByTime(records[1..]) == [Group(2, [3])];
    var g, h := Group(1, [5]), Group(2, [3]);
    assert Groups(records) == [g, h] && [g, h][1..] == [h] && [h][1..] == [];
    var i := FlowControl.Transition(Sample(1, 5), Sample(2, 3));
    assert FlowControl.Intervals([h], Some(Sample(1, 5))) == [i];
    assert FlowControl.Intervals([g, h], None) == [i];
    assert [i][1..] == [] && [ToHost(i, w)][1..] == [];
    assert AllToHost([i], w) == [ToHost(i, w)];
    assert HostPressure.InvalidCount([ToHost(i, w)]) == 1;
    assert FlowControl.Selected([i], w) == [];
    SameIntervals(records, w);
  }

  lemma {:induction false} ThreeRecords()
    ensures GroupByTime([Sample(1, 1), Sample(1, 2), Sample(2, 5)]) == [Group(1, [1, 2]), Group(2, [5])]
  {
    var s := [Sample(1, 1), Sample(1, 2), Sample(2, 5)];
    assert s[2..] == [Sample(2, 5)] && s[2..][1..] == [];
    assert GroupByTime(s[2..]) == [Group(2, [5])];
    assert s[1..][1..] == s[2..];
    assert GroupByTime(s[1..]) == [Group(1, [2]), Group(2, [5])];
    assert [2] + [] == [2] && [1] + [2] == [1, 2];
  }
}
