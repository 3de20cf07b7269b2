/**
 The flow-control reducer: a chain over timestamp groups that a conflicting timestamp breaks, the
 per-series summary over a requested window, and what does not depend on how the records arrive.
 */
module FlowControl {
  import opened Wrappers
  import opened Samples
  import opened OrderStatistics

  datatype State = Valid | DecreaseOrReset | ConflictingTimestamp

  datatype Interval = Interval(start: int, end: int, startValue: int, endValue: int, delta: Option<int>, state: State)

  datatype Status = Observed | ZeroObservations | PartialInvalid | Invalid | Insufficient

  datatype Summary = Summary(
    total: Option<int>,
    represented: Option<(int, int)>,
    firstNonzero: Option<(int, int, int)>,
    covered: int,
    coverage: Option<real>,
    sampleCount: nat,
    intervalCount: nat,
    validCount: nat,
    invalidCount: nat,
    boundaryExcluded: nat,
    status: Status)

  function Transition(a: Sample, b: Sample): Interval {
    if b.v - a.v < 0 then Interval(a.t, b.t, a.v, b.v, None, DecreaseOrReset)
    else Interval(a.t, b.t, a.v, b.v, Some(b.v - a.v), Valid)
  }

  function Conflict(g: Group): Interval
    requires g.vs != []
  {
    Interval(g.t, g.t, g.vs[0], if |g.vs| > 1 then g.vs[1] else g.vs[0], None, ConflictingTimestamp)
  }

  /** Disposition of every adjacent transition, given the sample before the first group. */
  function Intervals(gs: seq<Group>, previous: Option<Sample>): seq<Interval>
    requires NonEmpty(gs)
  {
    if gs == [] then []
    else if !Clean(gs[0]) then [Conflict(gs[0])] + Intervals(gs[1..], None)
    else
      var sample := Sample(gs[0].t, gs[0].vs[0]);
      (if previous.Some? then [Transition(previous.value, sample)] else []) + Intervals(gs[1..], Some(sample))
  }

  function CleanSamples(gs: seq<Group>): seq<Sample>
    requires NonEmpty(gs)
  {
    if gs == [] then [] else (if Clean(gs[0]) then [Sample(gs[0].t, gs[0].vs[0])] else []) + CleanSamples(gs[1..])
  }

  lemma {:induction false} IntervalsUnfold(seen: seq<Sample>, done: seq<Interval>, gs: seq<Group>, i: nat, previous: Option<Sample>)
    requires NonEmpty(gs) && i < |gs|
    ensures done + Intervals(gs[i..], previous) ==
            var sample := Sample(gs[i].t, gs[i].vs[0]);
            if !Clean(gs[i]) then (done + [Conflict(gs[i])]) + Intervals(gs[i + 1..], None)
            else if previous.Some? then (done + [Transition(previous.value, sample)]) + Intervals(gs[i + 1..], Some(sample))
            else done + Intervals(gs[i + 1..], Some(sample))
    ensures seen + CleanSamples(gs[i..]) ==
            (if Clean(gs[i]) then seen + [Sample(gs[i].t, gs[i].vs[0])] else seen) + CleanSamples(gs[i + 1..])
  {
    assert gs[i..][1..] == gs[i + 1..];
  }

  /** The loop over timestamp groups. */
  method OrderedSamples(records: seq<Sample>) returns (samples: seq<Sample>, intervals: seq<Interval>)
    ensures samples == CleanSamples(Groups(records))
    ensures intervals == Intervals(Groups(records), None)
  {
    hide Intervals, CleanSamples, Clean, Transition, Conflict, Groups;
    var groups := Groups(records);
    samples, intervals := [], [];
    var previous: Option<Sample> := None;
    var i := 0;
    assert groups[0..] == groups;
    while i < |groups|
      invariant 0 <= i <= |groups|
      invariant CleanSamples(groups) == samples + CleanSamples(groups[i..])
      invariant Intervals(groups, None) == intervals + Intervals(groups[i..], previous)
    {
      var g := groups[i];
      IntervalsUnfold(samples, intervals, groups, i, previous);
      if !Clean(g) {
        intervals := intervals + [Conflict(g)];
        previous := None;
      } else {
        var sample := Sample(g.t, g.vs[0]);
        samples := samples + [sample];
        if previous.Some? {
          intervals := intervals + [Transition(previous.value, sample)];
        }
        previous := Some(sample);
      }
      i := i + 1;
    }
    NothingLeft(groups[i..], previous);
  }

  lemma {:induction false} NothingLeft(gs: seq<Group>, previous: Option<Sample>)
    requires gs == []
    ensures Intervals(gs, previous) == [] && CleanSamples(gs) == []
  {
  }

  // ---------------------------------------------------------------- selection by window

  predicate Within(i: Interval, w: Window) {
    Inside(w, i.start, i.end)
  }

  predicate Overlaps(i: Interval, w: Window) {
    i.end > w.start && i.start < w.end
  }

  function Selected(s: seq<Interval>, w: Window): seq<Interval> {
    if s == [] then [] else (if Within(s[0], w) then [s[0]] else []) + Selected(s[1..], w)
  }

  function Excluded(s: seq<Interval>, w: Window): nat {
    if s == [] then 0 else (if !Within(s[0], w) && Overlaps(s[0], w) then 1 else 0) + Excluded(s[1..], w)
  }

  function ValidOnes(s: seq<Interval>): seq<Increment> {
    if s == [] then []
    else (if s[0].state == Valid then [Increment(s[0].start, s[0].end, s[0].startValue, s[0].endValue)] else []) + ValidOnes(s[1..])
  }

  function InvalidCount(s: seq<Interval>): nat {
    if s == [] then 0 else (if s[0].state == Valid then 0 else 1) + InvalidCount(s[1..])
  }

  function FirstNonzero(ds: seq<Increment>): Option<(int, int, int)> {
    if ds == [] then None
    else if ds[0].endValue > ds[0].startValue then Some((ds[0].end, ds[0].endValue - ds[0].startValue, ds[0].endValue))
    else FirstNonzero(ds[1..])
  }

  function MinStart(ds: seq<Increment>): int
    requires ds != []
  {
    if |ds| == 1 || ds[0].start <= MinStart(ds[1..]) then ds[0].start else MinStart(ds[1..])
  }

  function MaxEnd(ds: seq<Increment>): int
    requires ds != []
  {
    if |ds| == 1 || ds[0].end >= MaxEnd(ds[1..]) then ds[0].end else MaxEnd(ds[1..])
  }

  function StatusOf(validCount: nat, invalidCount: nat, total: int): Status {
    if validCount == 0 then if invalidCount > 0 then Invalid else Insufficient
    else if invalidCount > 0 then PartialInvalid
    else if total == 0 then ZeroObservations
    else Observed
  }

  /** The result for one series: everything reported about it over the requested window. */
  function Summarize(samples: seq<Sample>, intervals: seq<Interval>, w: Window): Summary {
    var selected := Selected(intervals, w);
    var valid := ValidOnes(selected);
    Summary(
      if valid == [] then None else Some(Total(valid)),
      if valid == [] then None else Some((MinStart(valid), MaxEnd(valid))),
      FirstNonzero(valid),
      Covered(valid),
      if w.end - w.start > 0 then Some(Covered(valid) as real / (w.end - w.start) as real) else None,
      |samples|,
      |intervals|,
      |valid|,
      InvalidCount(selected),
      Excluded(intervals, w),
      StatusOf(|valid|, InvalidCount(selected), Total(valid)))
  }

  lemma {:induction false} SelectionUnfolds(done: seq<Interval>, intervals: seq<Interval>, i: nat, w: Window)
    requires i < |intervals|
    ensures done + Selected(intervals[i..], w) ==
            (if Within(intervals[i], w) then done + [intervals[i]] else done) + Selected(intervals[i + 1..], w)
    ensures Excluded(intervals[i..], w) ==
            (if !Within(intervals[i], w) && Overlaps(intervals[i], w) then 1 else 0) + Excluded(intervals[i + 1..], w)
  {
    assert intervals[i..][1..] == intervals[i + 1..];
  }

  lemma {:induction false} NothingSelected(w: Window)
    ensures Selected([], w) == [] && Excluded([], w) == 0
  {
  }

  /** The selection loop: intervals inside the window, and how many only overlap it. */
  method SelectIntervals(intervals: seq<Interval>, w: Window) returns (selected: seq<Interval>, excluded: nat)
    ensures selected == Selected(intervals, w) && excluded == Excluded(intervals, w)
  {
    hide Selected, Excluded, Within, Overlaps;
    selected, excluded := [], 0;
    var i := 0;
    assert intervals[0..] == intervals;
    NothingSelected(w);
    while i < |intervals|
      invariant 0 <= i <= |intervals|
      invariant Selected(intervals, w) == selected + Selected(intervals[i..], w)
      invariant Excluded(intervals, w) == excluded + Excluded(intervals[i..], w)
    {
      var interval := intervals[i];
      SelectionUnfolds(selected, intervals, i, w);
      if Within(interval, w) {
        selected := selected + [interval];
      } else if Overlaps(interval, w) {
        excluded := excluded + 1;
      }
      i := i + 1;
    }
    assert intervals[i..] == [];
  }

  /** The selection and the reductions over the selected intervals. */
  method SeriesResult(records: seq<Sample>, w: Window) returns (summary: Summary, selected: seq<Interval>)
    ensures selected == Selected(Intervals(Groups(records), None), w)
    ensures summary == Summarize(CleanSamples(Groups(records)), Intervals(Groups(records), None), w)
  {
    hide Intervals, Groups, CleanSamples, Selected, Excluded, ValidOnes, InvalidCount, Total, Covered, MinStart, MaxEnd, FirstNonzero, StatusOf;
    var samples, intervals := OrderedSamples(records);
    var excluded;
    selected, excluded := SelectIntervals(intervals, w);
    var valid := ValidOnes(selected);
    var invalid := InvalidCount(selected);
    summary := Summary(
      if valid == [] then None else Some(Total(valid)),
      if valid == [] then None else Some((MinStart(valid), MaxEnd(valid))),
      FirstNonzero(valid),
      Covered(valid),
      if w.end - w.start > 0 then Some(Covered(valid) as real / (w.end - w.start) as real) else None,
      |samples|, |intervals|, |valid|, invalid, excluded,
      StatusOf(|valid|, invalid, Total(valid)));
  }

  // ---------------------------------------------------------------- the reducer computes the reference

  /** The valid in-window increments of a list of intervals. */
  function ValidIn(s: seq<Interval>, w: Window): seq<Increment> {
    ValidOnes(Selected(s, w))
  }

  lemma {:induction false} ValidInCons(i: Interval, s: seq<Interval>, w: Window)
    ensures ValidIn([i] + s, w) == (if Within(i, w) && i.state == Valid then [Increment(i.start, i.end, i.startValue, i.endValue)] else []) + ValidIn(s, w)
  {
    assert ([i] + s)[1..] == s;
    assert ([i] + Selected(s, w))[1..] == Selected(s, w);
    assert [] + Selected(s, w) == Selected(s, w);
  }

  /** On every input, conflicts included, the valid in-window intervals are the reference increments. */
  lemma {:induction false} ReducesToReference(gs: seq<Group>, w: Window)
    requires NonEmpty(gs)
    ensures ValidIn(Intervals(gs, None), w) == Increments(gs, w)
    ensures gs != [] && Clean(gs[0]) ==>
              ValidIn(Intervals(gs[1..], Some(Sample(gs[0].t, gs[0].vs[0]))), w) == Increments(gs, w)
    decreases |gs|
  {
    if gs != [] {
      ReducesToReference(gs[1..], w);
      var rest := gs[1..];
      if !Clean(gs[0]) {
        ValidInCons(Conflict(gs[0]), Intervals(rest, None), w);
        if |gs| >= 2 { assert Step(gs[0], gs[1], w) == []; }
      } else {
        var p := Sample(gs[0].t, gs[0].vs[0]);
        if rest != [] {
          var tail := rest[1..];
          if Clean(rest[0]) {
            var q := Sample(rest[0].t, rest[0].vs[0]);
            ValidInCons(Transition(p, q), Intervals(tail, Some(q)), w);
            assert Intervals(rest, Some(p)) == [Transition(p, q)] + Intervals(tail, Some(q));
          } else {
            assert Intervals(rest, Some(p)) == Intervals(rest, None);
            assert Step(gs[0], gs[1], w) == [];
          }
        }
        assert Intervals(gs, None) == Intervals(rest, Some(p));
      }
    }
  }

  // ---------------------------------------------------------------- order and duplicates do not matter

  /** An interval with the arbitrary choice of two conflicting values forgotten. */
  function Erase(i: Interval): Interval {
    if i.state == ConflictingTimestamp then i.(startValue := 0, endValue := 0) else i
  }

  function EraseAll(s: seq<Interval>): (r: seq<Interval>)
    ensures |r| == |s|
  {
    if s == [] then [] else [Erase(s[0])] + EraseAll(s[1..])
  }

  lemma {:induction false} EraseCons(i: Interval, s: seq<Interval>)
    ensures EraseAll([i] + s) == [Erase(i)] + EraseAll(s)
  {
    assert ([i] + s)[1..] == s;
  }

  lemma {:induction false} AlikeIntervals(a: seq<Group>, b: seq<Group>, previous: Option<Sample>)
    requires NonEmpty(a) && NonEmpty(b) && Alike(a, b)
    ensures EraseAll(Intervals(a, previous)) == EraseAll(Intervals(b, previous))
    ensures CleanSamples(a) == CleanSamples(b)
    decreases |a|
  {
    if a != [] {
      AlikeGroup(a[0], b[0]);
      var next := if Clean(a[0]) then Some(Sample(a[0].t, a[0].vs[0])) else None;
      AlikeIntervals(a[1..], b[1..], next);
      var rest, rest' := Intervals(a[1..], next), Intervals(b[1..], next);
      if !Clean(a[0]) {
        EraseCons(Conflict(a[0]), rest);
        EraseCons(Conflict(b[0]), rest');
      } else if previous.Some? {
        EraseCons(Transition(previous.value, next.value), rest);
        EraseCons(Transition(previous.value, next.value), rest');
      } else {
        assert [] + rest == rest && [] + rest' == rest';
      }
    }
  }

  lemma {:induction false} EraseKeepsSummary(s: seq<Interval>, w: Window)
    ensures ValidOnes(Selected(EraseAll(s), w)) == ValidOnes(Selected(s, w))
    ensures InvalidCount(Selected(EraseAll(s), w)) == InvalidCount(Selected(s, w))
    ensures Excluded(EraseAll(s), w) == Excluded(s, w)
  {
    if s != [] {
      EraseKeepsSummary(s[1..], w);
      var e := EraseAll(s);
      assert e[1..] == EraseAll(s[1..]) && e[0] == Erase(s[0]);
      if Within(s[0], w) {
        assert Selected(s, w)[1..] == Selected(s[1..], w);
        assert Selected(e, w)[1..] == Selected(e[1..], w);
      } else {
        assert Selected(s, w) == Selected(s[1..], w);
        assert Selected(e, w) == Selected(e[1..], w);
      }
    }
  }

  /**
   Permuting or repeating records changes no field of the summary, even when some timestamps carry
   conflicting values.
   */
  lemma {:induction false} SummaryIgnoresOrder(a: seq<Sample>, b: seq<Sample>, w: Window)
    requires forall x :: x in a <==> x in b
    ensures Summarize(CleanSamples(Groups(a)), Intervals(Groups(a), None), w)
         == Summarize(CleanSamples(Groups(b)), Intervals(Groups(b), None), w)
  {
    SameSamplesAlike(a, b);
    AlikeIntervals(Groups(a), Groups(b), None);
    EraseKeepsSummary(Intervals(Groups(a), None), w);
    EraseKeepsSummary(Intervals(Groups(b), None), w);
    assert |EraseAll(Intervals(Groups(a), None))| == |EraseAll(Intervals(Groups(b), None))|;
  }

  /** The reported total and covered duration are those of the reference increments. */
  lemma {:induction false} SummaryIsReference(records: seq<Sample>, w: Window)
    ensures var s := Summarize(CleanSamples(Groups(records)), Intervals(Groups(records), None), w);
            var ds := Increments(Groups(records), w);
            && s.validCount == |ds| && s.covered == Covered(ds)
            && s.total == (if ds == [] then None else Some(Total(ds)))
  {
    ReducesToReference(Groups(records), w);
  }

  // ---------------------------------------------------------------- what the fields say

  /** The earliest increment that is not zero: the increments before it are. */
  ghost predicate EarliestRise(ds: seq<Increment>, k: nat) {
    && k < |ds| && ds[k].startValue < ds[k].endValue
    && forall j :: 0 <= j < |ds| && ds[j].startValue < ds[j].endValue && j != k ==> ds[k].end <= ds[j].start
  }

  lemma {:induction false} FirstNonzeroFound(ds: seq<Increment>, lo: int, w: Window)
    requires InOrder(ds, lo, w)
    ensures match FirstNonzero(ds)
            case None => Total(ds) == 0 && forall k :: 0 <= k < |ds| ==> ds[k].startValue == ds[k].endValue
            case Some((end, delta, value)) =>
              Total(ds) > 0 && exists k: nat :: EarliestRise(ds, k) && end == ds[k].end && value == ds[k].endValue && delta == value - ds[k].startValue
  {
    if ds != [] {
      FirstNonzeroFound(ds[1..], ds[0].end, w);
      InOrderKeys(ds, lo, w);
      var rest := ds[1..];
      assert forall j :: 0 < j < |ds| ==> ds[j] == rest[j - 1];
      if ds[0].startValue < ds[0].endValue {
        assert EarliestRise(ds, 0);
      } else if FirstNonzero(rest).Some? {
        var k: nat :| EarliestRise(rest, k) && FirstNonzero(rest).value == (rest[k].end, rest[k].endValue - rest[k].startValue, rest[k].endValue);
        assert EarliestRise(ds, k + 1);
      }
    }
  }

  lemma {:induction false} Extent(ds: seq<Increment>, lo: int, w: Window)
    requires InOrder(ds, lo, w) && ds != []
    ensures MinStart(ds) == ds[0].start && MaxEnd(ds) == ds[|ds| - 1].end
    ensures ds[0].end <= MaxEnd(ds)
  {
    if |ds| > 1 { Extent(ds[1..], ds[0].end, w); }
  }

  /** Total, first non-zero observation, represented window, coverage and status, read off the reference increments
      and the number of invalid intervals. */
  lemma {:induction false} FieldsMean(records: seq<Sample>, w: Window)
    ensures var s := Summarize(CleanSamples(Groups(records)), Intervals(Groups(records), None), w);
            var ds := Increments(Groups(records), w);
            && (s.firstNonzero.None? <==> s.total in {None, Some(0)})
            && (s.firstNonzero.Some? ==> exists k: nat :: EarliestRise(ds, k) && s.firstNonzero.value == (ds[k].end, ds[k].endValue - ds[k].startValue, ds[k].endValue))
            && (s.coverage.Some? <==> w.start < w.end)
            && (s.coverage.Some? ==> s.coverage.value * (w.end - w.start) as real == Covered(ds) as real)
            && s.represented == (if ds == [] then None else Some((ds[0].start, ds[|ds| - 1].end)))
            && (s.status == Insufficient <==> ds == [] && s.invalidCount == 0)
            && (s.status == Invalid <==> ds == [] && s.invalidCount > 0)
            && (s.status == PartialInvalid <==> ds != [] && s.invalidCount > 0)
            && (s.status == ZeroObservations <==> s.total == Some(0) && s.invalidCount == 0)
            && (s.status == Observed <==> s.firstNonzero.Some? && s.invalidCount == 0)
  {
    hide Intervals, CleanSamples, Groups, Increments, InvalidCount, Excluded, MinStart, MaxEnd, Total, Covered, FirstNonzero, EarliestRise, InOrder;
    var gs := Groups(records);
    OrderedGroups(records);
    ReducesToReference(gs, w);
    var ds := Increments(gs, w);
    var lo := if gs == [] then 0 else gs[0].t;
    assert InOrder(ds, lo, w) by {
      if gs == [] { NoIncrements(gs, lo, w); } else { IncrementsInOrder(gs, w); }
    }
    FirstNonzeroFound(ds, lo, w);
    if ds != [] { Extent(ds, lo, w); }
    assert ds == [] ==> Total(ds) == 0 by { TotalOfNone(); }
  }

  lemma {:induction false} NoIncrements(gs: seq<Group>, lo: int, w: Window)
    requires gs == []
    ensures Increments(gs, w) == [] && InOrder(Increments(gs, w), lo, w)
  {
  }

  lemma {:induction false} TotalOfNone()
    ensures Total([]) == 0 && FirstNonzero([]) == None
  {
  }

  /** Intervals arise from conflicting timestamps and from neighbouring clean ones, and from nothing else. */
  lemma {:induction false} IntervalsTally(gs: seq<Group>, p: Interval -> bool, alone: Group -> bool, pair: (Group, Group) -> bool)
    requires NonEmpty(gs)
    requires forall g: Group :: g.vs != [] ==> alone(g) == p(Conflict(g))
    requires forall g: Group, h: Group :: g.vs != [] && h.vs != [] ==> pair(g, h) == p(Transition(Sample(g.t, g.vs[0]), Sample(h.t, h.vs[0])))
    ensures CountWhere(Intervals(gs, None), p) == Tally(gs, alone, pair)
    ensures gs != [] && Clean(gs[0]) ==> CountWhere(Intervals(gs[1..], Some(Sample(gs[0].t, gs[0].vs[0]))), p) == Tally(gs, alone, pair)
    decreases |gs|
  {
    if gs != [] {
      hide CountWhere, Clean, Transition, Conflict;
      var rest := gs[1..];
      IntervalsTally(rest, p, alone, pair);
      if !Clean(gs[0]) {
        CountCons(Conflict(gs[0]), Intervals(rest, None), p);
      } else {
        var a := Sample(gs[0].t, gs[0].vs[0]);
        assert Intervals(gs, None) == Intervals(rest, Some(a));
        if rest != [] && Clean(rest[0]) {
          var b := Sample(rest[0].t, rest[0].vs[0]);
          CountCons(Transition(a, b), Intervals(rest[1..], Some(b)), p);
        } else {
          assert Intervals(rest, Some(a)) == Intervals(rest, None);
        }
      }
    }
  }

  function InvalidInside(w: Window): Interval -> bool {
    (i: Interval) => i.state != Valid && Within(i, w)
  }

  function OnlyOverlaps(w: Window): Interval -> bool {
    (i: Interval) => !Within(i, w) && Overlaps(i, w)
  }

  lemma {:induction false} WindowCounts(s: seq<Interval>, w: Window)
    ensures InvalidCount(Selected(s, w)) == CountWhere(s, InvalidInside(w))
    ensures Excluded(s, w) == CountWhere(s, OnlyOverlaps(w))
  {
    if s != [] {
      WindowCounts(s[1..], w);
      assert Within(s[0], w) ==> Selected(s, w)[1..] == Selected(s[1..], w);
      assert !Within(s[0], w) ==> Selected(s, w) == Selected(s[1..], w);
    }
  }

  lemma {:induction false} CleanCount(gs: seq<Group>, none: (Group, Group) -> bool)
    requires NonEmpty(gs) && forall g, h :: !none(g, h)
    ensures |CleanSamples(gs)| + Tally(gs, Always(), none) == |gs|
  {
    if gs != [] { CleanCount(gs[1..], none); }
  }

  /** The counts of a summary in terms of timestamps: clean ones are samples; conflicting ones and neighbouring clean
      pairs are intervals; those inside the window that conflict or drop are invalid; pairs partly inside are excluded. */
  lemma {:induction false} CountsMean(records: seq<Sample>, w: Window)
    ensures var s := Summarize(CleanSamples(Groups(records)), Intervals(Groups(records), None), w);
            var gs := Groups(records);
            && s.sampleCount + Tally(gs, Always(), (g, h) => false) == |gs|
            && s.intervalCount == Tally(gs, Always(), AnyPair())
            && s.invalidCount == Tally(gs, At(w), DropInside(w))
            && s.boundaryExcluded == Tally(gs, Never(), Crossing(w))
  {
    hide Intervals, CleanSamples, Groups, Tally, CountWhere, Selected, Excluded, InvalidCount;
    var gs := Groups(records);
    var all := Intervals(gs, None);
    CleanCount(gs, (g, h) => false);
    WindowCounts(all, w);
    CountAll(all, (i: Interval) => true);
    IntervalsTally(gs, (i: Interval) => true, Always(), AnyPair());
    IntervalsTally(gs, InvalidInside(w), At(w), DropInside(w));
    IntervalsTally(gs, OnlyOverlaps(w), Never(), Crossing(w));
  }

  /** A valid interval carries the difference of its end values, which is not negative; a drop carries none; and a
      conflict is a single timestamp at which reports disagree. */
  predicate Shaped(i: Interval, gs: seq<Group>) {
    match i.state
    case Valid => i.start < i.end && i.startValue <= i.endValue && i.delta == Some(i.endValue - i.startValue)
    case DecreaseOrReset => i.start < i.end && i.endValue < i.startValue && i.delta == None
    case ConflictingTimestamp =>
      && i.start == i.end && i.delta == None
      && exists k :: 0 <= k < |gs| && !Clean(gs[k]) && gs[k].t == i.start && gs[k].vs[..2] == [i.startValue, i.endValue]
  }

  lemma {:induction false} IntervalsShaped(gs: seq<Group>, previous: Option<Sample>, k: nat)
    requires NonEmpty(gs) && Increasing(gs) && k < |Intervals(gs, previous)|
    requires previous.Some? && gs != [] ==> previous.value.t < gs[0].t
    ensures Shaped(Intervals(gs, previous)[k], gs)
    decreases |gs|
  {
    hide Shaped;
    var rest := gs[1..];
    var next := if Clean(gs[0]) then Some(Sample(gs[0].t, gs[0].vs[0])) else None;
    var head := if !Clean(gs[0]) then [Conflict(gs[0])] else if previous.Some? then [Transition(previous.value, next.value)] else [];
    assert Intervals(gs, previous) == head + Intervals(rest, next);
    if k < |head| {
      HeadShaped(gs, previous);
    } else {
      assert Intervals(gs, previous)[k] == Intervals(rest, next)[k - |head|];
      IntervalsShaped(rest, next, k - |head|);
      ShapedTail(Intervals(gs, previous)[k], gs);
    }
  }

  lemma {:induction false} HeadShaped(gs: seq<Group>, previous: Option<Sample>)
    requires gs != [] && gs[0].vs != []
    ensures !Clean(gs[0]) ==> Shaped(Conflict(gs[0]), gs)
    ensures previous.Some? && previous.value.t < gs[0].t ==> Shaped(Transition(previous.value, Sample(gs[0].t, gs[0].vs[0])), gs)
  {
  }

  lemma {:induction false} ShapedTail(i: Interval, gs: seq<Group>)
    requires gs != [] && Shaped(i, gs[1..])
    ensures Shaped(i, gs)
  {
  }

  lemma {:induction false} EveryIntervalShaped(records: seq<Sample>, k: nat)
    requires k < |Intervals(Groups(records), None)|
    ensures Shaped(Intervals(Groups(records), None)[k], Groups(records))
  {
    hide Shaped, Intervals;
    OrderedGroups(records);
    IntervalsShaped(Groups(records), None, k);
  }
}
