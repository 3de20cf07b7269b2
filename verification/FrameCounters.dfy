/**
 The frame-counter reducer: a scan over adjacent record pairs.  Unlike the other two reducers it does not
 break the chain at a conflicting timestamp, so it agrees with them under an exact condition.
 */
module FrameCounters {
  import opened Sorting
  import opened Samples

  datatype State = Valid | DecreaseOrReset | ConflictingTimestamp

  datatype Interval = Interval(start: int, end: int, startValue: int, endValue: int, delta: int, state: State, inside: bool)

  datatype Status = Insufficient | PartialInvalid | ObservedZero | ObservedNonzero

  datatype Counter = Counter(intervals: seq<Interval>, valid: seq<Increment>, invalidCount: nat, outsideCount: nat,
                             covered: int, total: int, status: Status)

  /** What one adjacent pair of sorted records contributes: nothing, if it is an exact duplicate. */
  function Pair(a: Sample, b: Sample, w: Window): (r: seq<Interval>)
    ensures |r| <= 1
  {
    if a.t == b.t then
      if a.v == b.v then [] else [Interval(a.t, b.t, a.v, b.v, 0, ConflictingTimestamp, w.start <= a.t <= w.end)]
    else
      [Interval(a.t, b.t, a.v, b.v, b.v - a.v, if b.v - a.v >= 0 then Valid else DecreaseOrReset, Inside(w, a.t, b.t))]
  }

  function Intervals(s: seq<Sample>, w: Window): seq<Interval> {
    if |s| < 2 then [] else Pair(s[0], s[1], w) + Intervals(s[1..], w)
  }

  function InsideOnes(s: seq<Interval>): seq<Interval> {
    if s == [] then [] else (if s[0].inside then [s[0]] else []) + InsideOnes(s[1..])
  }

  function One(i: Interval): seq<Increment> {
    if i.inside && i.state == Valid then [Increment(i.start, i.end, i.startValue, i.endValue)] else []
  }

  function ValidIn(s: seq<Interval>): seq<Increment> {
    if s == [] then [] else One(s[0]) + ValidIn(s[1..])
  }

  function InvalidIn(s: seq<Interval>): nat {
    if s == [] then 0 else (if s[0].inside && s[0].state != Valid then 1 else 0) + InvalidIn(s[1..])
  }

  function Outside(s: seq<Interval>): nat {
    if s == [] then 0 else (if s[0].inside then 0 else 1) + Outside(s[1..])
  }

  lemma {:induction false} ValidInConcat(a: seq<Interval>, b: seq<Interval>)
    ensures ValidIn(a + b) == ValidIn(a) + ValidIn(b)
  {
    hide One;
    if a == [] {
      assert a + b == b;
    } else {
      ValidInConcat(a[1..], b);
      assert (a + b)[1..] == a[1..] + b;
    }
  }

  lemma {:induction false} SnocCounts(s: seq<Interval>, i: Interval)
    ensures InvalidIn(s + [i]) == InvalidIn(s) + (if i.inside && i.state != Valid then 1 else 0)
    ensures Outside(s + [i]) == Outside(s) + (if i.inside then 0 else 1)
  {
    if s == [] {
      assert s + [i] == [i];
    } else {
      SnocCounts(s[1..], i);
      assert (s + [i])[1..] == s[1..] + [i];
    }
  }

  lemma {:induction false} Snoc(s: seq<Interval>, i: Interval)
    ensures ValidIn(s + [i]) == ValidIn(s) + One(i)
    ensures InvalidIn(s + [i]) == InvalidIn(s) + (if i.inside && i.state != Valid then 1 else 0)
    ensures Outside(s + [i]) == Outside(s) + (if i.inside then 0 else 1)
  {
    SnocCounts(s, i);
    ValidInConcat(s, [i]);
    assert ValidIn([i]) == One(i) + [];
  }

  lemma {:induction false} IntervalsUnfold(done: seq<Interval>, s: seq<Sample>, k: nat, w: Window)
    requires k + 1 < |s|
    ensures done + Intervals(s[k..], w) == (done + Pair(s[k], s[k + 1], w)) + Intervals(s[k + 1..], w)
  {
    assert s[k..][1..] == s[k + 1..];
  }

  lemma {:induction false} IntervalsEnd(s: seq<Sample>, k: nat, w: Window)
    requires k <= |s| <= k + 1
    ensures Intervals(s[k..], w) == []
  {
  }

  function StatusOf(valid: seq<Increment>, invalidCount: nat): Status {
    if valid == [] then Insufficient else if invalidCount > 0 then PartialInvalid else if Total(valid) == 0 then ObservedZero else ObservedNonzero
  }

  function Reduced(records: seq<Sample>, w: Window): Counter {
    var all := Intervals(Ordered(records), w);
    Counter(InsideOnes(all), ValidIn(all), InvalidIn(all), Outside(all),
            Covered(ValidIn(all)), Total(ValidIn(all)), StatusOf(ValidIn(all), InvalidIn(all)))
  }

  /** The scan over adjacent pairs. */
  method AnalyzeCounter(records: seq<Sample>, w: Window) returns (c: Counter)
    ensures c == Reduced(records, w)
  {
    hide Intervals, ValidIn, InvalidIn, Outside, InsideOnes, Ordered;
    var ordered := Ordered(records);
    var intervals: seq<Interval> := [];
    var valid: seq<Increment> := [];
    var invalidCount, outsideCount, index := 0, 0, 0;
    assert ordered[0..] == ordered;
    Nothing();
    while index < |ordered| - 1
      invariant 0 <= index <= |ordered| && (ordered != [] ==> index < |ordered|)
      invariant Intervals(ordered, w) == intervals + Intervals(ordered[index..], w)
      invariant valid == ValidIn(intervals) && invalidCount == InvalidIn(intervals) && outsideCount == Outside(intervals)
    {
      var a, b := ordered[index], ordered[index + 1];
      IntervalsUnfold(intervals, ordered, index, w);
      if a.t == b.t {
        if a.v != b.v {
          var interval := Interval(a.t, b.t, a.v, b.v, 0, ConflictingTimestamp, w.start <= a.t <= w.end);
          Snoc(intervals, interval);
          intervals := intervals + [interval];
          if interval.inside {
            invalidCount := invalidCount + 1;
          } else {
            outsideCount := outsideCount + 1;
          }
        }
      } else {
        var delta := b.v - a.v;
        var interval := Interval(a.t, b.t, a.v, b.v, delta, if delta >= 0 then Valid else DecreaseOrReset, Inside(w, a.t, b.t));
        Snoc(intervals, interval);
        intervals := intervals + [interval];
        if !interval.inside {
          outsideCount := outsideCount + 1;
        } else if delta >= 0 {
          valid := valid + [Increment(a.t, b.t, a.v, b.v)];
        } else {
          invalidCount := invalidCount + 1;
        }
      }
      index := index + 1;
    }
    IntervalsEnd(ordered, index, w);
    assert intervals + [] == intervals;
    c := Counter(InsideOnes(intervals), valid, invalidCount, outsideCount, Covered(valid), Total(valid), StatusOf(valid, invalidCount));
  }

  lemma {:induction false} Nothing()
    ensures ValidIn([]) == [] && InvalidIn([]) == 0 && Outside([]) == 0
  {
  }

  // ---------------------------------------------------------------- comparison with the reference

  /** The increment this reducer sees between two adjacent timestamps, conflicting or not. */
  function LooseStep(g: Group, h: Group, w: Window): (r: seq<Increment>)
    requires g.vs != [] && h.vs != []
    ensures |r| <= 1
  {
    var last := g.vs[|g.vs| - 1];
    if last <= h.vs[0] && Inside(w, g.t, h.t) then [Increment(g.t, h.t, last, h.vs[0])] else []
  }

  function LooseIncrements(gs: seq<Group>, w: Window): seq<Increment>
    requires NonEmpty(gs)
  {
    if |gs| < 2 then [] else LooseStep(gs[0], gs[1], w) + LooseIncrements(gs[1..], w)
  }

  lemma {:induction false} PrefixedGroup(g: Group, v: int, gs: seq<Group>, w: Window)
    requires NonEmpty(gs) && g.vs != []
    ensures LooseIncrements([Group(g.t, [v] + g.vs)] + gs, w) == LooseIncrements([g] + gs, w)
  {
  }

  lemma {:induction false} SinglePair(a: Sample, b: Sample, w: Window)
    requires a.t <= b.t
    ensures ValidIn(Pair(a, b, w)) ==
            if a.t < b.t && a.v <= b.v && Inside(w, a.t, b.t) then [Increment(a.t, b.t, a.v, b.v)] else []
  {
  }

  /** The pair scan sees one increment per pair of adjacent timestamps: from the last value of one to the first of the next. */
  lemma {:induction false} ScanIsLoose(s: seq<Sample>, w: Window)
    requires Sorted(s, ByTime)
    ensures ValidIn(Intervals(s, w)) == LooseIncrements(GroupByTime(s), w)
  {
    if |s| >= 2 {
      ScanIsLoose(s[1..], w);
      assert ByTime(s[0], s[1]);
      var rest := GroupByTime(s[1..]);
      ValidInConcat(Pair(s[0], s[1], w), Intervals(s[1..], w));
      SinglePair(s[0], s[1], w);
      if rest[0].t == s[0].t {
        assert rest == [rest[0]] + rest[1..];
        PrefixedGroup(rest[0], s[0].v, rest[1..], w);
      } else {
        assert ([Group(s[0].t, [s[0].v])] + rest)[1..] == rest;
      }
    }
  }

  /** Pairs of adjacent timestamps, at least one of them conflicting, across which the scan still counts an increment. */
  function CountedAcrossConflicts(gs: seq<Group>, w: Window): nat
    requires NonEmpty(gs)
  {
    if |gs| < 2 then 0
    else (if !(Clean(gs[0]) && Clean(gs[1])) then |LooseStep(gs[0], gs[1], w)| else 0) + CountedAcrossConflicts(gs[1..], w)
  }

  lemma {:induction false} CleanStep(g: Group, h: Group, w: Window)
    requires g.vs != [] && h.vs != []
    ensures Clean(g) && Clean(h) ==> LooseStep(g, h, w) == Step(g, h, w)
    ensures !(Clean(g) && Clean(h)) ==> Step(g, h, w) == []
  {
  }

  lemma {:induction false} ExtraIncrements(gs: seq<Group>, w: Window)
    requires NonEmpty(gs)
    ensures |LooseIncrements(gs, w)| == |Increments(gs, w)| + CountedAcrossConflicts(gs, w)
    ensures CountedAcrossConflicts(gs, w) == 0 ==> LooseIncrements(gs, w) == Increments(gs, w)
  {
    if |gs| >= 2 {
      CleanStep(gs[0], gs[1], w);
      ExtraIncrements(gs[1..], w);
    }
  }

  lemma {:induction false} NoConflictNothingExtra(gs: seq<Group>, w: Window)
    requires NonEmpty(gs) && NoConflicts(gs)
    ensures CountedAcrossConflicts(gs, w) == 0
  {
    if |gs| >= 2 { NoConflictNothingExtra(gs[1..], w); }
  }

  lemma {:induction false} LooseInOrder(gs: seq<Group>, w: Window)
    requires NonEmpty(gs) && Increasing(gs) && gs != []
    ensures InOrder(LooseIncrements(gs, w), gs[0].t, w)
  {
    if |gs| >= 2 {
      var first, rest := LooseStep(gs[0], gs[1], w), LooseIncrements(gs[1..], w);
      LooseInOrder(gs[1..], w);
      InOrderFrom(rest, gs[0].t, gs[1].t, w);
      if first != [] {
        assert (first + rest)[1..] == rest;
      } else {
        assert first + rest == rest;
      }
    }
  }

  /** Even across conflicts, the counted intervals are disjoint, in order, inside the window and do not decrease. */
  lemma {:induction false} ScanInOrder(records: seq<Sample>, w: Window)
    ensures exists lo :: InOrder(Reduced(records, w).valid, lo, w)
  {
    hide InOrder, Intervals, ValidIn, LooseIncrements, Ordered;
    OrderedGroups(records);
    OrderedIsSorted(records);
    ScanIsLoose(Ordered(records), w);
    var gs := Groups(records);
    if gs == [] {
      NoGroups(gs, w);
      assert InOrder(Reduced(records, w).valid, 0, w);
    } else {
      LooseInOrder(gs, w);
      assert InOrder(Reduced(records, w).valid, gs[0].t, w);
    }
  }

  lemma {:induction false} NoGroups(gs: seq<Group>, w: Window)
    requires gs == []
    ensures LooseIncrements(gs, w) == [] && InOrder([], 0, w)
  {
  }

  // ---------------------------------------------------------------- what the status says

  /** Some valid interval lies inside the window. */
  ghost predicate SomeValid(s: seq<Interval>) {
    exists k :: 0 <= k < |s| && s[k].inside && s[k].state == Valid
  }

  ghost predicate SomeInvalid(s: seq<Interval>) {
    exists k :: 0 <= k < |s| && s[k].inside && s[k].state != Valid
  }

  ghost predicate SomeIncrease(s: seq<Interval>) {
    exists k :: 0 <= k < |s| && s[k].inside && s[k].state == Valid && s[k].endValue > s[k].startValue
  }

  lemma {:induction false} CountsMean(s: seq<Interval>)
    ensures ValidIn(s) != [] <==> SomeValid(s)
    ensures InvalidIn(s) > 0 <==> SomeInvalid(s)
  {
    if s != [] {
      CountsMean(s[1..]);
      assert forall k :: 0 < k < |s| ==> s[k] == s[1..][k - 1];
      assert forall k :: 0 <= k < |s[1..]| ==> s[1..][k] == s[k + 1];
      Heads(s);
    }
  }

  lemma {:induction false} Heads(s: seq<Interval>)
    requires s != []
    ensures SomeValid(s) <==> (s[0].inside && s[0].state == Valid) || SomeValid(s[1..])
    ensures SomeInvalid(s) <==> (s[0].inside && s[0].state != Valid) || SomeInvalid(s[1..])
    ensures SomeIncrease(s) <==> (s[0].inside && s[0].state == Valid && s[0].endValue > s[0].startValue) || SomeIncrease(s[1..])
  {
    var rest := s[1..];
    assert forall k :: 0 <= k < |rest| ==> rest[k] == s[k + 1];
    assert forall k :: 0 < k < |s| ==> s[k] == rest[k - 1];
  }

  predicate NoValidDrop(s: seq<Interval>) {
    forall k :: 0 <= k < |s| && s[k].state == Valid ==> s[k].startValue <= s[k].endValue
  }

  lemma {:induction false} IntervalsDoNotDrop(s: seq<Sample>, w: Window)
    ensures NoValidDrop(Intervals(s, w))
  {
    if |s| >= 2 { IntervalsDoNotDrop(s[1..], w); }
  }

  lemma {:induction false} TotalMeans(s: seq<Interval>)
    requires NoValidDrop(s)
    ensures Total(ValidIn(s)) >= 0
    ensures Total(ValidIn(s)) > 0 <==> SomeIncrease(s)
  {
    if s != [] {
      hide SomeIncrease, SomeValid, SomeInvalid;
      assert forall k :: 0 <= k < |s[1..]| ==> s[1..][k] == s[k + 1];
      TotalMeans(s[1..]);
      Heads(s);
      TotalConcat(One(s[0]), ValidIn(s[1..]));
    }
  }

  /** The status, read off the intervals: observed means some valid and no invalid interval inside the window. */
  lemma {:induction false} StatusMeans(records: seq<Sample>, w: Window)
    ensures var c, s := Reduced(records, w), Intervals(Ordered(records), w);
            && (c.status == Insufficient <==> !SomeValid(s))
            && (c.status == PartialInvalid <==> SomeValid(s) && SomeInvalid(s))
            && (c.status == ObservedZero <==> SomeValid(s) && !SomeInvalid(s) && !SomeIncrease(s))
            && (c.status == ObservedNonzero <==> SomeValid(s) && !SomeInvalid(s) && SomeIncrease(s))
            && (c.total > 0 <==> SomeIncrease(s)) && c.total >= 0
  {
    hide SomeValid, SomeInvalid, SomeIncrease, Intervals, ValidIn, InvalidIn;
    var s := Intervals(Ordered(records), w);
    CountsMean(s);
    IntervalsDoNotDrop(Ordered(records), w);
    TotalMeans(s);
  }

  // ---------------------------------------------------------------- what the intervals and counts say

  /** The interval is that of two records next to each other in time order: a rise, a drop, or a disagreement at one
      timestamp, which has no difference. */
  predicate FromPair(i: Interval, a: Sample, b: Sample, w: Window) {
    && i.start == a.t && i.end == b.t && i.startValue == a.v && i.endValue == b.v
    && (i.inside <==> w.start <= i.start && i.end <= w.end)
    && match i.state
       case Valid => i.start < i.end && i.startValue <= i.endValue && i.delta == i.endValue - i.startValue
       case DecreaseOrReset => i.start < i.end && i.endValue < i.startValue && i.delta == i.endValue - i.startValue
       case ConflictingTimestamp => i.start == i.end && i.startValue != i.endValue && i.delta == 0
  }

  predicate FromRecords(i: Interval, s: seq<Sample>, w: Window) {
    exists j :: 0 <= j < |s| - 1 && FromPair(i, s[j], s[j + 1], w)
  }

  lemma {:induction false} IntervalsShaped(s: seq<Sample>, w: Window, k: nat)
    requires Sorted(s, ByTime) && k < |Intervals(s, w)|
    ensures FromRecords(Intervals(s, w)[k], s, w)
  {
    hide FromPair;
    var first, rest := Pair(s[0], s[1], w), Intervals(s[1..], w);
    assert ByTime(s[0], s[1]);
    if k < |first| {
      PairShaped(s[0], s[1], w);
      assert FromPair(first[k], s[0], s[1], w);
    } else {
      assert Intervals(s, w)[k] == rest[k - |first|];
      IntervalsShaped(s[1..], w, k - |first|);
      var j :| 0 <= j < |s[1..]| - 1 && FromPair(rest[k - |first|], s[1..][j], s[1..][j + 1], w);
      assert FromPair(Intervals(s, w)[k], s[j + 1], s[j + 1 + 1], w);
    }
  }

  lemma {:induction false} PairShaped(a: Sample, b: Sample, w: Window)
    requires a.t <= b.t
    ensures forall i :: i in Pair(a, b, w) ==> FromPair(i, a, b, w)
  {
  }

  lemma {:induction false} InsideMember(s: seq<Interval>, i: Interval)
    ensures i in InsideOnes(s) <==> i in s && i.inside
    ensures |InsideOnes(s)| + Outside(s) == |s|
  {
    if s != [] {
      InsideMember(s[1..], i);
      assert s == [s[0]] + s[1..];
    }
  }

  /** Neighbouring records that satisfy `p`. */
  function Neighbours(s: seq<Sample>, p: (Sample, Sample) -> bool): nat {
    if |s| < 2 then 0 else (if p(s[0], s[1]) then 1 else 0) + Neighbours(s[1..], p)
  }

  function Differ(): (Sample, Sample) -> bool {
    (a: Sample, b: Sample) => a != b
  }

  /** A disagreement or a drop, inside the window. */
  function FaultInside(w: Window): (Sample, Sample) -> bool {
    (a: Sample, b: Sample) => w.start <= a.t && b.t <= w.end && (if a.t == b.t then a.v != b.v else b.v < a.v)
  }

  function NotInside(w: Window): (Sample, Sample) -> bool {
    (a: Sample, b: Sample) => a != b && (a.t < w.start || w.end < b.t)
  }

  lemma {:induction false} CountsOverRecords(s: seq<Sample>, w: Window)
    requires Sorted(s, ByTime)
    ensures |Intervals(s, w)| == Neighbours(s, Differ())
    ensures InvalidIn(Intervals(s, w)) == Neighbours(s, FaultInside(w))
    ensures Outside(Intervals(s, w)) == Neighbours(s, NotInside(w))
  {
    if |s| >= 2 {
      hide Pair;
      assert ByTime(s[0], s[1]);
      CountsOverRecords(s[1..], w);
      PairCounts(s[0], s[1], w);
      var rest := Intervals(s[1..], w);
      assert Pair(s[0], s[1], w) + rest == if s[0] == s[1] then rest else [Pair(s[0], s[1], w)[0]] + rest;
      assert s[0] != s[1] ==> ([Pair(s[0], s[1], w)[0]] + rest)[1..] == rest;
    }
  }

  lemma {:induction false} PairCounts(a: Sample, b: Sample, w: Window)
    requires a.t <= b.t
    ensures Pair(a, b, w) == [] <==> a == b
    ensures a != b ==> ((Pair(a, b, w)[0].inside && Pair(a, b, w)[0].state != Valid) <==> FaultInside(w)(a, b))
    ensures a != b ==> (!Pair(a, b, w)[0].inside <==> NotInside(w)(a, b))
    ensures a == b ==> !FaultInside(w)(a, b)
  {
  }

  /** The reported intervals are those inside the window, each that of two neighbouring records; the counts count
      the faulty pairs inside the window and the pairs outside it. */
  lemma {:induction false} ReportMeans(records: seq<Sample>, w: Window)
    ensures var c, s := Reduced(records, w), Ordered(records);
            && (forall i :: i in c.intervals ==> i.inside && FromRecords(i, s, w))
            && |c.intervals| + c.outsideCount == Neighbours(s, Differ())
            && c.invalidCount == Neighbours(s, FaultInside(w))
            && c.outsideCount == Neighbours(s, NotInside(w))
  {
    hide Intervals, InsideOnes, InvalidIn, Outside, Neighbours, FromRecords, Ordered;
    OrderedIsSorted(records);
    var s := Ordered(records);
    var all := Intervals(s, w);
    CountsOverRecords(s, w);
    assert |InsideOnes(all)| + Outside(all) == |all| by { InsideMember(all, Interval(0, 0, 0, 0, 0, Valid, false)); }
    forall i | i in InsideOnes(all) ensures i.inside && FromRecords(i, s, w) {
      InsideMember(all, i);
      var k :| 0 <= k < |all| && all[k] == i;
      IntervalsShaped(s, w, k);
    }
  }
}
