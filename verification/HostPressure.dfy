/**
 The host-pressure reducer: an index that jumps over all records of one timestamp, and the ratio of two
 counters over the intervals they share.
 */
module HostPressure {
  import opened Wrappers
  import opened Sorting
  import opened Samples
  import opened OrderStatistics
  import IntervalUnion

  datatype State = Valid | DecreaseOrReset | ConflictingTimestamp

  datatype Interval = Interval(start: int, end: int, startValue: int, endValue: int, delta: Option<int>, state: State, inside: bool)

  function Transition(a: Sample, b: Sample, w: Window): Interval {
    Interval(a.t, b.t, a.v, b.v, Some(b.v - a.v), if b.t - a.t > 0 && b.v - a.v >= 0 then Valid else DecreaseOrReset,
             Inside(w, a.t, b.t) && b.t - a.t > 0)
  }

  function Conflict(t: int, vs: seq<int>, w: Window): Interval
    requires vs != []
  {
    Interval(t, t, vs[0], if |vs| > 1 then vs[1] else vs[0], None, ConflictingTimestamp, w.start <= t <= w.end)
  }

  function Intervals(gs: seq<Group>, previous: Option<Sample>, w: Window): seq<Interval>
    requires NonEmpty(gs)
  {
    if gs == [] then []
    else if !Clean(gs[0]) then [Conflict(gs[0].t, gs[0].vs, w)] + Intervals(gs[1..], None, w)
    else
      var sample := Sample(gs[0].t, gs[0].vs[0]);
      (if previous.Some? then [Transition(previous.value, sample, w)] else []) + Intervals(gs[1..], Some(sample), w)
  }

  // ---------------------------------------------------------------- the jumping index

  /** Values of all records, anywhere in `s`, that carry timestamp `t`. */
  function SameTime(s: seq<Sample>, t: int): seq<int> {
    if s == [] then [] else (if s[0].t == t then [s[0].v] else []) + SameTime(s[1..], t)
  }

  lemma {:induction false} NoneEarlier(s: seq<Sample>, t: int)
    requires forall i :: 0 <= i < |s| ==> t != s[i].t
    ensures SameTime(s, t) == []
  {
    if s != [] { NoneEarlier(s[1..], t); }
  }

  lemma {:induction false} HeadStandsAlone(s: seq<Sample>)
    requires Sorted(s, ByTime) && s != [] && (|s| == 1 || s[1].t != s[0].t)
    ensures SameTime(s[1..], s[0].t) == []
  {
    forall k | 0 <= k < |s[1..]| ensures s[0].t != s[1..][k].t {
      assert s[1..][k] == s[k + 1] && ByTime(s[0], s[1]);
      assert k > 0 ==> ByTime(s[1], s[k + 1]);
    }
    NoneEarlier(s[1..], s[0].t);
  }

  /** How the first record joins the groups of the others. */
  lemma {:induction false} FirstJoins(s: seq<Sample>)
    ensures s == [] ==> GroupByTime(s) == []
    ensures s != [] ==>
            var rest := GroupByTime(s[1..]);
            GroupByTime(s) == if |s| > 1 && s[1].t == s[0].t then [Group(s[0].t, [s[0].v] + rest[0].vs)] + rest[1..]
                              else [Group(s[0].t, [s[0].v])] + rest
  {
  }

  /** In sorted records the values at a timestamp are exactly those of its group, in order. */
  lemma {:induction false} GroupIsFilter(s: seq<Sample>, i: nat)
    requires Sorted(s, ByTime) && i < |GroupByTime(s)|
    ensures SameTime(s, GroupByTime(s)[i].t) == GroupByTime(s)[i].vs
  {
    hide GroupByTime;
    FirstJoins(s);
    GroupsIncrease(s);
    if |s| > 1 && s[1].t == s[0].t {
      GroupIsFilter(s[1..], i);
    } else if i > 0 {
      GroupIsFilter(s[1..], i - 1);
    } else {
      HeadStandsAlone(s);
    }
  }

  /** Skipping as many records as the first group holds leaves exactly the other groups. */
  lemma {:induction false} SkipGroup(s: seq<Sample>)
    requires s != []
    ensures var g := GroupByTime(s)[0];
            |g.vs| <= |s| && GroupByTime(s[|g.vs|..]) == GroupByTime(s)[1..]
  {
    if |s| > 1 && s[1].t == s[0].t {
      SkipGroup(s[1..]);
      var n := |GroupByTime(s[1..])[0].vs|;
      assert s[1..][n..] == s[n + 1..];
    }
  }

  lemma {:induction false} IntervalsUnfold(done: seq<Interval>, gs: seq<Group>, i: nat, previous: Option<Sample>, w: Window)
    requires NonEmpty(gs) && i < |gs|
    ensures done + Intervals(gs[i..], previous, w) ==
            var sample := Sample(gs[i].t, gs[i].vs[0]);
            if !Clean(gs[i]) then (done + [Conflict(gs[i].t, gs[i].vs, w)]) + Intervals(gs[i + 1..], None, w)
            else if previous.Some? then (done + [Transition(previous.value, sample, w)]) + Intervals(gs[i + 1..], Some(sample), w)
            else done + Intervals(gs[i + 1..], Some(sample), w)
  {
    assert gs[i..][1..] == gs[i + 1..];
  }

  lemma {:induction false} NothingLeft(gs: seq<Group>, previous: Option<Sample>, w: Window)
    requires gs == []
    ensures Intervals(gs, previous, w) == []
  {
  }

  predicate AllEqual(vs: seq<int>) {
    forall i :: 0 <= i < |vs| ==> vs[i] == vs[0]
  }

  /** What the index finds at the start of group `i`, and where it jumps to. */
  lemma {:induction false} AtGroup(ordered: seq<Sample>, gs: seq<Group>, i: nat, index: nat)
    requires Sorted(ordered, ByTime) && gs == GroupByTime(ordered)
    requires index < |ordered| && i <= |gs| && GroupByTime(ordered[index..]) == gs[i..]
    ensures i < |gs| && ordered[index].t == gs[i].t && SameTime(ordered, gs[i].t) == gs[i].vs
    ensures index + |gs[i].vs| <= |ordered| && GroupByTime(ordered[index + |gs[i].vs|..]) == gs[i + 1..]
    ensures gs[i].vs != [] && (Clean(gs[i]) <==> AllEqual(gs[i].vs))
  {
    SkipGroup(ordered[index..]);
    assert gs[i..][0] == gs[i];
    GroupIsFilter(ordered, i);
    assert ordered[index..][|gs[i].vs|..] == ordered[index + |gs[i].vs|..];
  }

  lemma {:induction false} NoGroups(s: seq<Sample>)
    ensures s == [] <==> GroupByTime(s) == []
  {
  }

  /** The loop whose index jumps by the number of records sharing a timestamp. */
  method SeriesIntervals(records: seq<Sample>, w: Window) returns (intervals: seq<Interval>)
    ensures intervals == Intervals(Groups(records), None, w)
  {
    hide Intervals, Clean, Transition, Conflict, SameTime, AllEqual, GroupByTime, Groups, Sorted, Ordered;
    var ordered := Ordered(records);
    OrderedIsSorted(records);
    ghost var gs := Groups(records);
    intervals := [];
    var previous: Option<Sample> := None;
    var index := 0;
    ghost var i := 0;
    assert gs[0..] == gs && ordered[0..] == ordered;
    while index < |ordered|
      invariant 0 <= i <= |gs| && 0 <= index <= |ordered| && GroupByTime(ordered[index..]) == gs[i..]
      invariant Intervals(gs, None, w) == intervals + Intervals(gs[i..], previous, w)
      decreases |gs| - i
    {
      AtGroup(ordered, gs, i, index);
      IntervalsUnfold(intervals, gs, i, previous, w);
      var timestamp := ordered[index].t;
      var values := SameTime(ordered, timestamp);
      if !AllEqual(values) {
        intervals := intervals + [Conflict(timestamp, values, w)];
        previous := None;
      } else {
        var sample := Sample(timestamp, values[0]);
        if previous.Some? {
          intervals := intervals + [Transition(previous.value, sample, w)];
        }
        previous := Some(sample);
      }
      index := index + |values|;
      i := i + 1;
    }
    NoGroups(ordered[index..]);
    NothingLeft(gs[i..], previous, w);
  }

  // ---------------------------------------------------------------- the reducer computes the reference

  function ValidIn(s: seq<Interval>): seq<Increment> {
    if s == [] then []
    else (if s[0].state == Valid && s[0].inside then [Increment(s[0].start, s[0].end, s[0].startValue, s[0].endValue)] else []) + ValidIn(s[1..])
  }

  lemma {:induction false} ValidInCons(i: Interval, s: seq<Interval>)
    ensures ValidIn([i] + s) == (if i.state == Valid && i.inside then [Increment(i.start, i.end, i.startValue, i.endValue)] else []) + ValidIn(s)
  {
    assert ([i] + s)[1..] == s;
  }

  /** On every input, conflicts included, the valid in-window intervals are the reference increments. */
  lemma {:induction false} ReducesToReference(gs: seq<Group>, w: Window)
    requires NonEmpty(gs) && Increasing(gs)
    ensures ValidIn(Intervals(gs, None, w)) == Increments(gs, w)
    ensures gs != [] && Clean(gs[0]) ==> ValidIn(Intervals(gs[1..], Some(Sample(gs[0].t, gs[0].vs[0])), w)) == Increments(gs, w)
    decreases |gs|
  {
    if gs != [] {
      var rest := gs[1..];
      ReducesToReference(rest, w);
      if !Clean(gs[0]) {
        ValidInCons(Conflict(gs[0].t, gs[0].vs, w), Intervals(rest, None, w));
        if |gs| >= 2 { assert Step(gs[0], gs[1], w) == []; }
      } else {
        var p := Sample(gs[0].t, gs[0].vs[0]);
        if rest != [] {
          var tail := rest[1..];
          if Clean(rest[0]) {
            var q := Sample(rest[0].t, rest[0].vs[0]);
            ValidInCons(Transition(p, q, w), Intervals(tail, Some(q), w));
            assert Intervals(rest, Some(p), w) == [Transition(p, q, w)] + Intervals(tail, Some(q), w);
          } else {
            assert Intervals(rest, Some(p), w) == Intervals(rest, None, w);
            assert Step(gs[0], gs[1], w) == [];
          }
        }
        assert Intervals(gs, None, w) == Intervals(rest, Some(p), w);
      }
    }
  }

  // ---------------------------------------------------------------- one counter

  datatype Status = Insufficient | InvalidData | PartialInvalid | ObservedZero | ObservedNonzero

  datatype Counter = Counter(total: int, covered: int, validCount: nat, invalidCount: nat, outsideCount: nat, status: Status, zeroObserved: bool)

  /** Invalid intervals, wherever they lie. */
  function InvalidCount(s: seq<Interval>): nat {
    if s == [] then 0 else (if s[0].state == Valid then 0 else 1) + InvalidCount(s[1..])
  }

  function OutsideCount(s: seq<Interval>): nat {
    if s == [] then 0 else (if s[0].inside then 0 else 1) + OutsideCount(s[1..])
  }

  function InvalidOutside(s: seq<Interval>): nat {
    if s == [] then 0 else (if s[0].state != Valid && !s[0].inside then 1 else 0) + InvalidOutside(s[1..])
  }

  function StatusOf(validCount: nat, invalidCount: nat, total: int): Status {
    if validCount == 0 then if invalidCount > 0 then InvalidData else Insufficient
    else if invalidCount > 0 then PartialInvalid
    else if total == 0 then ObservedZero
    else ObservedNonzero
  }

  function AnalyzeCounter(intervals: seq<Interval>): Counter {
    var valid := ValidIn(intervals);
    Counter(Total(valid), Covered(valid), |valid|, InvalidCount(intervals), OutsideCount(intervals),
            StatusOf(|valid|, InvalidCount(intervals), Total(valid)), Total(valid) == 0)
  }

  /** A zero total is reported as an observed zero: right exactly when the window holds some valid interval. */
  lemma {:induction false} ZeroWithoutEvidence(records: seq<Sample>, w: Window)
    ensures var c, ds := AnalyzeCounter(Intervals(Groups(records), None, w)), Increments(Groups(records), w);
            (c.zeroObserved <==> ds != [] && Total(ds) == 0) <==> ds != []
  {
    OrderedGroups(records);
    ReducesToReference(Groups(records), w);
  }

  /** A single sample is no interval, yet a zero is reported as observed. */
  lemma {:induction false} ZeroFromOneSample()
    ensures var records, w := [Sample(1, 5)], Window(0, 10);
            AnalyzeCounter(Intervals(Groups(records), None, w)).zeroObserved && Increments(Groups(records), w) == []
  {
    var records := [Sample(1, 5)];
    SortKeepsSorted(records, ByTime);
    assert Groups(records) == [Group(1, [5])];
    ReducesToReference(Groups(records), Window(0, 10));
  }

  // ---------------------------------------------------------------- what the fields of one counter say

  /** Intervals arise from conflicting timestamps and from neighbouring clean ones, and from nothing else. */
  lemma {:induction false} IntervalsTally(gs: seq<Group>, w: Window, p: Interval -> bool, alone: Group -> bool, pair: (Group, Group) -> bool)
    requires NonEmpty(gs)
    requires forall g: Group :: g.vs != [] ==> alone(g) == p(Conflict(g.t, g.vs, w))
    requires forall g: Group, h: Group :: g.vs != [] && h.vs != [] && g.t < h.t ==>
               pair(g, h) == p(Transition(Sample(g.t, g.vs[0]), Sample(h.t, h.vs[0]), w))
    requires Increasing(gs)
    ensures CountWhere(Intervals(gs, None, w), p) == Tally(gs, alone, pair)
    ensures gs != [] && Clean(gs[0]) ==> CountWhere(Intervals(gs[1..], Some(Sample(gs[0].t, gs[0].vs[0])), w), p) == Tally(gs, alone, pair)
    decreases |gs|
  {
    if gs != [] {
      hide CountWhere, Clean, Transition, Conflict;
      var rest := gs[1..];
      IntervalsTally(rest, w, p, alone, pair);
      if !Clean(gs[0]) {
        CountCons(Conflict(gs[0].t, gs[0].vs, w), Intervals(rest, None, w), p);
      } else {
        var a := Sample(gs[0].t, gs[0].vs[0]);
        assert Intervals(gs, None, w) == Intervals(rest, Some(a), w);
        if rest != [] && Clean(rest[0]) {
          var b := Sample(rest[0].t, rest[0].vs[0]);
          CountCons(Transition(a, b, w), Intervals(rest[1..], Some(b), w), p);
        } else {
          assert Intervals(rest, Some(a), w) == Intervals(rest, None, w);
        }
      }
    }
  }

  function IsInvalid(): Interval -> bool {
    (i: Interval) => i.state != Valid
  }

  function IsOutside(): Interval -> bool {
    (i: Interval) => !i.inside
  }

  lemma {:induction false} CountsAreCounts(s: seq<Interval>)
    ensures InvalidCount(s) == CountWhere(s, IsInvalid()) && OutsideCount(s) == CountWhere(s, IsOutside())
  {
    if s != [] { CountsAreCounts(s[1..]); }
  }

  /** The counts of a counter in terms of timestamps: every conflict and every drop is invalid, wherever it lies;
      outside are the conflicts outside the window and the pairs not wholly inside it.  The status follows from these
      counts and the reference increments. */
  lemma {:induction false} CounterMeans(records: seq<Sample>, w: Window)
    ensures var gs := Groups(records);
            var c, ds := AnalyzeCounter(Intervals(gs, None, w)), Increments(gs, w);
            && c.total == Total(ds) && c.covered == Covered(ds) && c.validCount == |ds|
            && c.invalidCount == Tally(gs, Always(), Decreasing())
            && c.outsideCount == Tally(gs, NotAt(w), NotWithin(w))
            && (c.status == Insufficient <==> ds == [] && c.invalidCount == 0)
            && (c.status == InvalidData <==> ds == [] && c.invalidCount > 0)
            && (c.status == PartialInvalid <==> ds != [] && c.invalidCount > 0)
            && (c.status == ObservedZero <==> ds != [] && c.invalidCount == 0 && Total(ds) == 0)
            && (c.status == ObservedNonzero <==> ds != [] && c.invalidCount == 0 && Total(ds) > 0)
  {
    hide Intervals, Groups, Increments, Tally, CountWhere, InvalidCount, OutsideCount, Total, Covered, InOrder;
    var gs := Groups(records);
    OrderedGroups(records);
    ReducesToReference(gs, w);
    var all := Intervals(gs, None, w);
    CountsAreCounts(all);
    IntervalsTally(gs, w, IsInvalid(), Always(), Decreasing());
    IntervalsTally(gs, w, IsOutside(), NotAt(w), NotWithin(w));
    var lo := FromStart(records, w);
    TotalNonnegative(Increments(gs, w), lo, w);
  }

  /** A transition carries the difference of its end values, valid when they do not decrease; a conflict is a single
      timestamp at which reports disagree; each knows whether it lies inside the window. */
  predicate Shaped(i: Interval, gs: seq<Group>, w: Window) {
    && (i.inside <==> w.start <= i.start && i.end <= w.end)
    && match i.state
       case Valid => i.start < i.end && i.startValue <= i.endValue && i.delta == Some(i.endValue - i.startValue)
       case DecreaseOrReset => i.start < i.end && i.endValue < i.startValue && i.delta == Some(i.endValue - i.startValue)
       case ConflictingTimestamp =>
         && i.start == i.end && i.delta == None
         && exists k :: 0 <= k < |gs| && !Clean(gs[k]) && gs[k].t == i.start && gs[k].vs[..2] == [i.startValue, i.endValue]
  }

  lemma {:induction false} IntervalsShaped(gs: seq<Group>, previous: Option<Sample>, w: Window, k: nat)
    requires NonEmpty(gs) && Increasing(gs) && k < |Intervals(gs, previous, w)|
    requires previous.Some? && gs != [] ==> previous.value.t < gs[0].t
    ensures Shaped(Intervals(gs, previous, w)[k], gs, w)
    decreases |gs|
  {
    hide Shaped;
    var rest := gs[1..];
    var next := if Clean(gs[0]) then Some(Sample(gs[0].t, gs[0].vs[0])) else None;
    var head := if !Clean(gs[0]) then [Conflict(gs[0].t, gs[0].vs, w)] else if previous.Some? then [Transition(previous.value, next.value, w)] else [];
    assert Intervals(gs, previous, w) == head + Intervals(rest, next, w);
    if k < |head| {
      HeadShaped(gs, previous, w);
    } else {
      assert Intervals(gs, previous, w)[k] == Intervals(rest, next, w)[k - |head|];
      IntervalsShaped(rest, next, w, k - |head|);
      ShapedTail(Intervals(gs, previous, w)[k], gs, w);
    }
  }

  lemma {:induction false} HeadShaped(gs: seq<Group>, previous: Option<Sample>, w: Window)
    requires gs != [] && gs[0].vs != []
    ensures !Clean(gs[0]) ==> Shaped(Conflict(gs[0].t, gs[0].vs, w), gs, w)
    ensures previous.Some? && previous.value.t < gs[0].t ==> Shaped(Transition(previous.value, Sample(gs[0].t, gs[0].vs[0]), w), gs, w)
  {
  }

  lemma {:induction false} ShapedTail(i: Interval, gs: seq<Group>, w: Window)
    requires gs != [] && Shaped(i, gs[1..], w)
    ensures Shaped(i, gs, w)
  {
  }

  lemma {:induction false} EveryIntervalShaped(records: seq<Sample>, w: Window, k: nat)
    requires k < |Intervals(Groups(records), None, w)|
    ensures Shaped(Intervals(Groups(records), None, w)[k], Groups(records), w)
  {
    hide Shaped, Intervals;
    OrderedGroups(records);
    IntervalsShaped(Groups(records), None, w, k);
  }

  // ---------------------------------------------------------------- ratios over common intervals

  function Keys(ds: seq<Increment>): set<(int, int)> {
    set d | d in ds :: (d.start, d.end)
  }

  /** The increments whose interval the other counter has as well. */
  function Common(ds: seq<Increment>, keys: set<(int, int)>): seq<Increment> {
    if ds == [] then [] else (if (ds[0].start, ds[0].end) in keys then [ds[0]] else []) + Common(ds[1..], keys)
  }

  datatype Path = Path(packetTotal: Option<int>, blockedTotal: Option<int>, covered: int, blockedPerPacket: Option<real>)

  /** Blocked events per packet, both summed over the common intervals only. */
  function AnalyzePath(packets: seq<Increment>, blocked: seq<Increment>): Path {
    var ps := Common(packets, Keys(blocked));
    var bs := Common(blocked, Keys(packets));
    if ps == [] then Path(None, None, 0, None)
    else Path(Some(Total(ps)), Some(Total(bs)), Covered(ps), if Total(ps) > 0 then Some(Total(bs) as real / Total(ps) as real) else None)
  }

  lemma {:induction false} CommonHolds(ds: seq<Increment>, keys: set<(int, int)>, d: Increment)
    ensures d in Common(ds, keys) <==> d in ds && (d.start, d.end) in keys
  {
    if ds != [] {
      CommonHolds(ds[1..], keys, d);
      assert ds == [ds[0]] + ds[1..];
    }
  }

  lemma {:induction false} CommonInOrder(ds: seq<Increment>, keys: set<(int, int)>, lo: int, w: Window)
    requires InOrder(ds, lo, w)
    ensures InOrder(Common(ds, keys), lo, w)
  {
    if ds != [] {
      CommonInOrder(ds[1..], keys, ds[0].end, w);
      var rest := Common(ds[1..], keys);
      InOrderFrom(rest, lo, ds[0].end, w);
      if (ds[0].start, ds[0].end) in keys {
        assert ([ds[0]] + rest)[1..] == rest;
      } else {
        assert [] + rest == rest;
      }
    }
  }

  lemma {:induction false} HeadKey(a: seq<Increment>, b: seq<Increment>, lo: int, w: Window)
    requires InOrder(a, lo, w) && InOrder(b, lo, w) && Keys(a) <= Keys(b) && a != []
    ensures b != [] && (b[0].start < a[0].start || (b[0].start == a[0].start && b[0].end == a[0].end))
  {
    assert (a[0].start, a[0].end) in Keys(b);
    var d :| d in b && (d.start, d.end) == (a[0].start, a[0].end);
    InOrderKeys(b, lo, w);
  }

  /** Two ordered lists over the same intervals have the same boundaries, one by one. */
  lemma {:induction false} SameKeysSameBounds(a: seq<Increment>, b: seq<Increment>, lo: int, w: Window)
    requires InOrder(a, lo, w) && InOrder(b, lo, w) && Keys(a) == Keys(b)
    ensures Bounds(a) == Bounds(b) && Covered(a) == Covered(b)
  {
    if a != [] {
      HeadKey(a, b, lo, w);
      HeadKey(b, a, lo, w);
      TailKeys(a, lo, w);
      TailKeys(b, lo, w);
      hide Keys;
      SameKeysSameBounds(a[1..], b[1..], a[0].end, w);
      assert Bounds(a) == [(a[0].start, a[0].end)] + Bounds(a[1..]);
      assert Bounds(b) == [(b[0].start, b[0].end)] + Bounds(b[1..]);
    } else if b != [] {
      HeadKey(b, a, lo, w);
    }
  }

  lemma {:induction false} KeysCons(d: Increment, ds: seq<Increment>)
    ensures Keys([d] + ds) == {(d.start, d.end)} + Keys(ds)
  {
  }

  lemma {:induction false} TailKeys(a: seq<Increment>, lo: int, w: Window)
    requires InOrder(a, lo, w) && a != []
    ensures Keys(a[1..]) == Keys(a) - {(a[0].start, a[0].end)}
  {
    assert a == [a[0]] + a[1..];
    KeysCons(a[0], a[1..]);
    InOrderKeys(a[1..], a[0].end, w);
    forall d | d in a[1..] ensures (d.start, d.end) != (a[0].start, a[0].end) {
    }
  }

  lemma {:induction false} CommonKeys(a: seq<Increment>, keys: set<(int, int)>)
    ensures Keys(Common(a, keys)) == Keys(a) * keys
  {
    forall k ensures k in Keys(Common(a, keys)) <==> k in Keys(a) && k in keys {
      if k in Keys(Common(a, keys)) {
        var d :| d in Common(a, keys) && (d.start, d.end) == k;
        CommonHolds(a, keys, d);
      }
      if k in Keys(a) && k in keys {
        var d :| d in a && (d.start, d.end) == k;
        CommonHolds(a, keys, d);
      }
    }
  }

  /** Numerator and denominator are summed over identical intervals, and those cover the same duration. */
  lemma {:induction false} CommonSupport(packets: seq<Sample>, blocked: seq<Sample>, w: Window)
    ensures var ps, bs := Increments(Groups(packets), w), Increments(Groups(blocked), w);
            && Bounds(Common(ps, Keys(bs))) == Bounds(Common(bs, Keys(ps)))
            && Covered(Common(ps, Keys(bs))) == Covered(Common(bs, Keys(ps)))
  {
    OrderedGroups(packets);
    OrderedGroups(blocked);
    var gp, gb := Groups(packets), Groups(blocked);
    var ps, bs := Increments(gp, w), Increments(gb, w);
    var lo := if gp == [] then (if gb == [] then 0 else gb[0].t) else if gb == [] || gp[0].t <= gb[0].t then gp[0].t else gb[0].t;
    if gp != [] { IncrementsInOrder(gp, w); InOrderFrom(ps, lo, gp[0].t, w); }
    if gb != [] { IncrementsInOrder(gb, w); InOrderFrom(bs, lo, gb[0].t, w); }
    CommonInOrder(ps, Keys(bs), lo, w);
    CommonInOrder(bs, Keys(ps), lo, w);
    CommonKeys(ps, Keys(bs));
    CommonKeys(bs, Keys(ps));
    SameKeysSameBounds(Common(ps, Keys(bs)), Common(bs, Keys(ps)), lo, w);
  }

  lemma {:induction false} DropsNonnegative(gs: seq<Group>, w: Window)
    requires NonEmpty(gs)
    ensures Drops(gs, w) >= 0
  {
    if |gs| >= 2 { DropsNonnegative(gs[1..], w); }
  }

  lemma {:induction false} BoundsConcat(a: seq<Increment>, b: seq<Increment>)
    ensures Bounds(a + b) == Bounds(a) + Bounds(b)
  {
  }

  lemma {:induction false} EveryIntervalShared(a: seq<Group>, b: seq<Group>, w: Window)
    requires NonEmpty(a) && NonEmpty(b) && Times(a) == Times(b) && NoConflicts(a) && NoConflicts(b)
    requires Drops(a, w) == 0 && Drops(b, w) == 0
    ensures Bounds(Increments(a, w)) == Bounds(Increments(b, w))
    decreases |a|
  {
    assert |a| == |Times(a)| == |Times(b)| == |b|;
    if |a| >= 2 {
      assert Times(a)[0] == a[0].t == b[0].t && Times(a)[1] == a[1].t == b[1].t;
      DropsNonnegative(a[1..], w);
      DropsNonnegative(b[1..], w);
      assert Times(a[1..]) == Times(a)[1..] && Times(b[1..]) == Times(b)[1..];
      assert Bounds(Step(a[0], a[1], w)) == Bounds(Step(b[0], b[1], w));
      hide Step;
      EveryIntervalShared(a[1..], b[1..], w);
      BoundsConcat(Step(a[0], a[1], w), Increments(a[1..], w));
      BoundsConcat(Step(b[0], b[1], w), Increments(b[1..], w));
    }
  }

  /** With equal timestamps, no conflict and no drop inside the window, both counters have every interval there. */
  lemma {:induction false} SameIntervals(a: seq<Group>, b: seq<Group>, w: Window)
    requires NonEmpty(a) && Increasing(a) && NonEmpty(b) && Increasing(b)
    requires Times(Restrict(a, w)) == Times(Restrict(b, w)) && NoConflicts(Restrict(a, w)) && NoConflicts(Restrict(b, w))
    requires Drops(a, w) == 0 && Drops(b, w) == 0
    ensures Bounds(Increments(a, w)) == Bounds(Increments(b, w))
  {
    hide *;
    RestrictKeeps(a, w);
    RestrictKeeps(b, w);
    EveryIntervalShared(Restrict(a, w), Restrict(b, w), w);
  }

  lemma {:induction false} CommonAll(ds: seq<Increment>, keys: set<(int, int)>)
    requires forall d :: d in ds ==> (d.start, d.end) in keys
    ensures Common(ds, keys) == ds
  {
    if ds != [] { CommonAll(ds[1..], keys); }
  }

  lemma {:induction false} BoundsInKeys(a: seq<Increment>, b: seq<Increment>)
    requires Bounds(a) == Bounds(b)
    ensures forall d :: d in a ==> (d.start, d.end) in Keys(b)
  {
  }

  /** What the path result is when every interval is common. */
  lemma {:induction false} AllCommon(ps: seq<Increment>, bs: seq<Increment>)
    requires Bounds(ps) == Bounds(bs)
    ensures Total(ps) > 0 ==> AnalyzePath(ps, bs).blockedPerPacket == Some(Total(bs) as real / Total(ps) as real)
  {
    BoundsInKeys(ps, bs);
    BoundsInKeys(bs, ps);
    CommonAll(ps, Keys(bs));
    CommonAll(bs, Keys(ps));
  }

  /**
   When both counters are sampled at the same timestamps inside the window and neither conflicts nor drops
   there, the reported ratio is the ratio of the raw endpoint differences.
   */
  lemma {:induction false} EndpointRatio(packets: seq<Sample>, blocked: seq<Sample>, w: Window)
    requires var gp, gb := Groups(packets), Groups(blocked);
             && Times(Restrict(gp, w)) == Times(Restrict(gb, w))
             && NoConflicts(Restrict(gp, w)) && NoConflicts(Restrict(gb, w))
             && Drops(gp, w) == 0 && Drops(gb, w) == 0
    ensures var gp, gb := Groups(packets), Groups(blocked);
            var p, b := Rise(Restrict(gp, w)), Rise(Restrict(gb, w));
            p > 0 ==> AnalyzePath(Increments(gp, w), Increments(gb, w)).blockedPerPacket == Some(b as real / p as real)
  {
    hide *;
    OrderedGroups(packets);
    OrderedGroups(blocked);
    var gp, gb := Groups(packets), Groups(blocked);
    SameIntervals(gp, gb, w);
    AllCommon(Increments(gp, w), Increments(gb, w));
    Telescopes(gp, w);
    Telescopes(gb, w);
  }

  // ---------------------------------------------------------------- the path result, by membership

  /** The counter has an increment over exactly this interval. */
  predicate Has(ds: seq<Increment>, d: Increment) {
    exists e :: e in ds && e.start == d.start && e.end == d.end
  }

  /** Sum of the increments that satisfy `p`. */
  function SumOf(ds: seq<Increment>, p: Increment -> bool): int {
    if ds == [] then 0 else (if p(ds[0]) then ds[0].endValue - ds[0].startValue else 0) + SumOf(ds[1..], p)
  }

  function SharedWith(other: seq<Increment>): Increment -> bool {
    d => Has(other, d)
  }

  /** The nanosecond lies in an interval that both counters have. */
  predicate SharedAt(ps: seq<Increment>, bs: seq<Increment>, x: int) {
    exists d :: d in ps && Has(bs, d) && d.start <= x < d.end
  }

  function SharedTime(ps: seq<Increment>, bs: seq<Increment>, w: Window): set<int> {
    set x | x in IntervalUnion.Range(w.start, w.end) && SharedAt(ps, bs, x)
  }

  lemma {:induction false} HasKey(ds: seq<Increment>, d: Increment)
    ensures Has(ds, d) <==> (d.start, d.end) in Keys(ds)
  {
  }

  lemma {:induction false} CommonSum(ds: seq<Increment>, other: seq<Increment>)
    ensures Total(Common(ds, Keys(other))) == SumOf(ds, SharedWith(other))
  {
    if ds != [] {
      hide Keys, Has;
      CommonSum(ds[1..], other);
      HasKey(other, ds[0]);
      TotalConcat(if Has(other, ds[0]) then [ds[0]] else [], Common(ds[1..], Keys(other)));
    }
  }

  lemma {:induction false} CommonNone(ds: seq<Increment>, other: seq<Increment>)
    ensures Common(ds, Keys(other)) == [] <==> forall d :: d in ds ==> !Has(other, d)
  {
    hide Keys, Has;
    var common := Common(ds, Keys(other));
    forall d ensures d in common <==> d in ds && Has(other, d) {
      CommonHolds(ds, Keys(other), d);
      HasKey(other, d);
    }
    assert common != [] ==> common[0] in common;
  }

  lemma {:induction false} CommonTime(ps: seq<Increment>, bs: seq<Increment>, lo: int, w: Window)
    requires InOrder(ps, lo, w)
    ensures Covered(Common(ps, Keys(bs))) == |SharedTime(ps, bs, w)|
  {
    hide Has, IntervalUnion.Range, IntervalUnion.CoveredBy, IntervalUnion.SpansOf, Keys, Common, Covered, InOrder;
    var common := Common(ps, Keys(bs));
    CommonInOrder(ps, Keys(bs), lo, w);
    IntervalUnion.OneSeriesCover(common, lo, w);
    var spans := IntervalUnion.SpansOf(common);
    forall x ensures x in IntervalUnion.CoveredBy(spans) <==> x in SharedTime(ps, bs, w) {
      IntervalUnion.CoveredMember(spans, x);
      CommonAt(ps, bs, x);
    }
    assert IntervalUnion.CoveredBy(spans) == SharedTime(ps, bs, w);
  }

  lemma {:induction false} CommonAt(ps: seq<Increment>, bs: seq<Increment>, x: int)
    ensures var common := Common(ps, Keys(bs));
            SharedAt(ps, bs, x) <==> exists i :: 0 <= i < |common| && IntervalUnion.SpansOf(common)[i].start <= x < IntervalUnion.SpansOf(common)[i].end
  {
    hide Has, Keys;
    var common := Common(ps, Keys(bs));
    var spans := IntervalUnion.SpansOf(common);
    if SharedAt(ps, bs, x) {
      var d :| d in ps && Has(bs, d) && d.start <= x < d.end;
      CommonHolds(ps, Keys(bs), d);
      HasKey(bs, d);
      var i :| 0 <= i < |common| && common[i] == d;
      assert spans[i].start <= x < spans[i].end;
    }
    if i :| 0 <= i < |common| && spans[i].start <= x < spans[i].end {
      CommonHolds(ps, Keys(bs), common[i]);
      HasKey(bs, common[i]);
    }
  }

  /** The path result of any two record lists: each total sums that counter's own increments over the intervals the
      other counter has as well, the covered time is the time of these intervals, all are absent exactly when no
      interval is shared, and the ratio is blocked over packets where the packet sum is positive. */
  lemma {:induction false} PathExactly(packets: seq<Sample>, blocked: seq<Sample>, w: Window)
    ensures var ps, bs := Increments(Groups(packets), w), Increments(Groups(blocked), w);
            var path := AnalyzePath(ps, bs);
            var p, b := SumOf(ps, SharedWith(bs)), SumOf(bs, SharedWith(ps));
            var shared := exists d :: d in ps && Has(bs, d);
            && path.packetTotal == (if shared then Some(p) else None)
            && path.blockedTotal == (if shared then Some(b) else None)
            && path.covered == |SharedTime(ps, bs, w)| && (path.covered > 0 <==> shared)
            && path.blockedPerPacket == (if shared && p > 0 then Some(b as real / p as real) else None)
  {
    hide Has, Increments, Groups, Keys, SharedTime, Common, SumOf, Covered, Total;
    var ps, bs := Increments(Groups(packets), w), Increments(Groups(blocked), w);
    var lo := FromStart(packets, w);
    CommonSum(ps, bs);
    CommonSum(bs, ps);
    CommonNone(ps, bs);
    CommonTime(ps, bs, lo, w);
    CommonInOrder(ps, Keys(bs), lo, w);
    CoveredPositive(Common(ps, Keys(bs)), lo, w);
  }

  lemma {:induction false} FromStart(records: seq<Sample>, w: Window) returns (lo: int)
    ensures InOrder(Increments(Groups(records), w), lo, w)
  {
    OrderedGroups(records);
    var gs := Groups(records);
    lo := if gs == [] then 0 else gs[0].t;
    if gs != [] { IncrementsInOrder(gs, w); }
  }

  lemma {:induction false} CoveredPositive(ds: seq<Increment>, lo: int, w: Window)
    requires InOrder(ds, lo, w)
    ensures Covered(ds) >= 0 && (Covered(ds) > 0 <==> ds != [])
  {
    if ds != [] { CoveredPositive(ds[1..], ds[0].end, w); }
  }

  /** An increment over an interval that the other counter does not have changes no field. */
  lemma {:induction false} UnsharedIgnored(before: seq<Increment>, d: Increment, after: seq<Increment>, others: seq<Increment>)
    requires !Has(others, d)
    ensures AnalyzePath(before + [d] + after, others) == AnalyzePath(before + after, others)
    ensures AnalyzePath(others, before + [d] + after) == AnalyzePath(others, before + after)
  {
    CommonWithout(before, d, after, Keys(others));
    var more, less := Keys(before + [d] + after), Keys(before + after);
    forall e | e in others ensures (e.start, e.end) in more <==> (e.start, e.end) in less {
      HasKey(before + [d] + after, e);
      HasKey(before + after, e);
    }
    CommonSameKeys(others, more, less);
  }

  lemma {:induction false} CommonWithout(before: seq<Increment>, d: Increment, after: seq<Increment>, keys: set<(int, int)>)
    requires (d.start, d.end) !in keys
    ensures Common(before + [d] + after, keys) == Common(before + after, keys)
  {
    if before == [] {
      assert before + [d] + after == [d] + after && before + after == after && ([d] + after)[1..] == after;
    } else {
      CommonWithout(before[1..], d, after, keys);
      assert (before + [d] + after)[1..] == before[1..] + [d] + after && (before + after)[1..] == before[1..] + after;
    }
  }

  lemma {:induction false} CommonSameKeys(ds: seq<Increment>, a: set<(int, int)>, b: set<(int, int)>)
    requires forall d :: d in ds ==> ((d.start, d.end) in a <==> (d.start, d.end) in b)
    ensures Common(ds, a) == Common(ds, b)
  {
    if ds != [] { CommonSameKeys(ds[1..], a, b); }
  }
}
