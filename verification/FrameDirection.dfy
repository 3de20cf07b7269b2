/**
 One direction of frame bins: common boundaries, bin shares and the per-interval totals.  Shares exist
 exactly when not every bin stayed at zero; the per-interval totals lose no frame.
 */
module FrameDirection {
  import opened Wrappers
  import opened Sorting
  import opened Samples
  import opened FrameHistogram
  import FrameCounters
  import R = RealSums

  /** A requested bin and the samples of its counter, if any were observed. */
  datatype BinSeries = BinSeries(id: string, edge: Option<Edge>, records: Option<seq<Sample>>)

  datatype Outcome = Outcome(id: string, edge: Option<Edge>, counter: Option<FrameCounters.Counter>)

  datatype Temporal = Temporal(start: int, end: int, binDeltas: seq<(string, int)>, totalFrames: int)

  datatype Direction = Direction(common: Option<seq<(int, int)>>, binTotal: Option<int>, shares: seq<real>, temporal: seq<Temporal>)

  datatype DirectionError = DivisionByZero

  function OutcomeOf(b: BinSeries, w: Window): Outcome {
    Outcome(b.id, b.edge, if b.records.Some? then Some(FrameCounters.Reduced(b.records.value, w)) else None)
  }

  function Outcomes(bins: seq<BinSeries>, w: Window): (r: seq<Outcome>)
    ensures |r| == |bins| && forall i :: 0 <= i < |bins| ==> r[i] == OutcomeOf(bins[i], w)
  {
    seq(|bins|, i requires 0 <= i < |bins| => OutcomeOf(bins[i], w))
  }

  function ValidOf(o: Outcome): seq<Increment> {
    if o.counter.Some? then o.counter.value.valid else []
  }

  function TotalOf(o: Outcome): int {
    if o.counter.Some? then o.counter.value.total else 0
  }

  predicate Supported(o: Outcome) {
    o.counter.Some? && o.counter.value.status in {FrameCounters.ObservedZero, FrameCounters.ObservedNonzero}
  }

  /** Every bin was observed without invalid intervals, all over the same intervals. */
  predicate Compatible(os: seq<Outcome>) {
    && os != []
    && forall i :: 0 <= i < |os| ==> Supported(os[i]) && Bounds(ValidOf(os[i])) == Bounds(ValidOf(os[0]))
  }

  function BinTotal(os: seq<Outcome>): int {
    if os == [] then 0 else TotalOf(os[0]) + BinTotal(os[1..])
  }

  function Shares(os: seq<Outcome>, total: int): seq<real>
    requires total != 0
  {
    if os == [] then [] else [TotalOf(os[0]) as real / total as real] + Shares(os[1..], total)
  }

  /** Deltas of the intervals with exactly these boundaries. */
  function DeltasAt(ds: seq<Increment>, b: (int, int)): seq<int> {
    if ds == [] then []
    else (if (ds[0].start, ds[0].end) == b then [ds[0].endValue - ds[0].startValue] else []) + DeltasAt(ds[1..], b)
  }

  function Named(id: string, deltas: seq<int>): seq<(string, int)> {
    seq(|deltas|, i requires 0 <= i < |deltas| => (id, deltas[i]))
  }

  function BinDeltasAt(os: seq<Outcome>, b: (int, int)): seq<(string, int)> {
    if os == [] then [] else Named(os[0].id, DeltasAt(ValidOf(os[0]), b)) + BinDeltasAt(os[1..], b)
  }

  function FramesAt(os: seq<Outcome>, b: (int, int)): int {
    if os == [] then 0 else Sum(DeltasAt(ValidOf(os[0]), b)) + FramesAt(os[1..], b)
  }

  function TemporalIntervals(os: seq<Outcome>, bounds: seq<(int, int)>): seq<Temporal> {
    if bounds == [] then []
    else [Temporal(bounds[0].0, bounds[0].1, BinDeltasAt(os, bounds[0]), FramesAt(os, bounds[0]))] + TemporalIntervals(os, bounds[1..])
  }

  function Analyze(os: seq<Outcome>): Result<Direction, DirectionError> {
    if !Compatible(os) then Ok(Direction(None, None, [], []))
    else
      var bounds := Bounds(ValidOf(os[0]));
      if BinTotal(os) == 0 then Err(DivisionByZero)
      else Ok(Direction(Some(bounds), Some(BinTotal(os)), Shares(os, BinTotal(os)), TemporalIntervals(os, bounds)))
  }

  // ---------------------------------------------------------------- when shares exist

  lemma {:induction false} TotalNotNegative(ds: seq<Increment>, lo: int, w: Window)
    requires InOrder(ds, lo, w)
    ensures Total(ds) >= 0
  {
    if ds != [] { TotalNotNegative(ds[1..], ds[0].end, w); }
  }

  lemma {:induction false} OutcomeTotal(b: BinSeries, w: Window)
    ensures TotalOf(OutcomeOf(b, w)) == Total(ValidOf(OutcomeOf(b, w))) >= 0
    ensures Supported(OutcomeOf(b, w)) && OutcomeOf(b, w).counter.value.status == FrameCounters.ObservedZero
            ==> TotalOf(OutcomeOf(b, w)) == 0
    ensures Supported(OutcomeOf(b, w)) && TotalOf(OutcomeOf(b, w)) == 0
            ==> OutcomeOf(b, w).counter.value.status == FrameCounters.ObservedZero
  {
    if b.records.Some? {
      FrameCounters.ScanInOrder(b.records.value, w);
      var lo :| InOrder(FrameCounters.Reduced(b.records.value, w).valid, lo, w);
      TotalNotNegative(ValidOf(OutcomeOf(b, w)), lo, w);
    }
  }

  lemma {:induction false} BinTotalZero(os: seq<Outcome>)
    requires forall i :: 0 <= i < |os| ==> TotalOf(os[i]) >= 0
    ensures BinTotal(os) >= 0
    ensures BinTotal(os) == 0 <==> forall i :: 0 <= i < |os| ==> TotalOf(os[i]) == 0
  {
    if os != [] {
      BinTotalZero(os[1..]);
      assert forall i :: 0 <= i < |os[1..]| ==> os[1..][i] == os[i + 1];
      assert forall i :: 0 < i < |os| ==> os[i] == os[1..][i - 1];
    }
  }

  /** Every requested bin was observed over the same intervals and every one of them stayed at zero. */
  predicate Idle(os: seq<Outcome>) {
    Compatible(os) && forall i :: 0 <= i < |os| ==> os[i].counter.value.status == FrameCounters.ObservedZero
  }

  /** The analysis fails exactly on an idle direction. */
  lemma {:induction false} FailsExactlyWhenIdle(bins: seq<BinSeries>, w: Window)
    ensures Analyze(Outcomes(bins, w)).Err? <==> Idle(Outcomes(bins, w))
  {
    hide Supported, TotalOf, OutcomeOf, BinTotal;
    var os := Outcomes(bins, w);
    forall i | 0 <= i < |os|
      ensures TotalOf(os[i]) >= 0
      ensures Supported(os[i]) ==> os[i].counter.Some?
      ensures Supported(os[i]) ==> (TotalOf(os[i]) == 0 <==> os[i].counter.value.status == FrameCounters.ObservedZero)
    {
      OutcomeTotal(bins[i], w);
      SupportedHasCounter(os[i]);
    }
    BinTotalZero(os);
  }

  /** One bin that stays at five: the division by the bin total fails. */
  lemma {:induction false} IdleBinFails()
    ensures var bins := [BinSeries("b", None, Some([Sample(0, 5), Sample(10, 5)]))];
            Analyze(Outcomes(bins, Window(0, 10))) == Err(DivisionByZero)
  {
    var records, w := [Sample(0, 5), Sample(10, 5)], Window(0, 10);
    SortKeepsSorted(records, ByTime);
    assert records[1..] == [Sample(10, 5)];
    var i := FrameCounters.Interval(0, 10, 5, 5, 0, FrameCounters.Valid, true);
    assert FrameCounters.Intervals(records, w) == [i];
    assert FrameCounters.ValidIn([i]) == [Increment(0, 10, 5, 5)];
    assert Total([Increment(0, 10, 5, 5)]) == 0;
    var os := Outcomes([BinSeries("b", None, Some(records))], w);
    assert os[1..] == [] && TotalOf(os[0]) == 0;
  }

  lemma {:induction false} SupportedHasCounter(o: Outcome)
    ensures Supported(o) ==> o.counter.Some?
  {
  }

  lemma {:induction false} SharesSum(os: seq<Outcome>, total: int)
    requires total != 0
    ensures R.Sum(Shares(os, total)) == BinTotal(os) as real / total as real
    ensures |Shares(os, total)| == |os|
  {
    if os != [] {
      hide TotalOf;
      SharesSum(os[1..], total);
      R.AddQuotients(TotalOf(os[0]) as real, BinTotal(os[1..]) as real, total as real);
    }
  }

  lemma {:induction false} Whole(t: real)
    requires t != 0.0
    ensures t / t == 1.0
  {
  }

  /** Whenever shares are reported they add up to one. */
  lemma {:induction false} SharesSumToOne(bins: seq<BinSeries>, w: Window)
    ensures var r := Analyze(Outcomes(bins, w));
            r.Ok? && r.value.common.Some? ==> |r.value.shares| == |bins| && R.Sum(r.value.shares) == 1.0
  {
    hide Shares, R.Sum, BinTotal, Compatible;
    var os := Outcomes(bins, w);
    if BinTotal(os) != 0 {
      SharesSum(os, BinTotal(os));
      Whole(BinTotal(os) as real);
    }
  }

  // ---------------------------------------------------------------- no frame is lost between intervals

  function FrameTotals(ts: seq<Temporal>): int {
    if ts == [] then 0 else ts[0].totalFrames + FrameTotals(ts[1..])
  }

  predicate Distinct(bounds: seq<(int, int)>) {
    forall i, j :: 0 <= i < j < |bounds| ==> bounds[i] != bounds[j]
  }

  /** One bin's frames, summed over a list of boundaries. */
  function SumOver(ds: seq<Increment>, bounds: seq<(int, int)>): int {
    if bounds == [] then 0 else Sum(DeltasAt(ds, bounds[0])) + SumOver(ds, bounds[1..])
  }

  lemma {:induction false} SumOverNothing(bounds: seq<(int, int)>)
    ensures SumOver([], bounds) == 0
  {
    if bounds != [] { SumOverNothing(bounds[1..]); }
  }

  /** An interval counts once towards a list of distinct boundaries that has its own, and not at all otherwise. */
  lemma {:induction false} SumOverStep(ds: seq<Increment>, bounds: seq<(int, int)>)
    requires ds != [] && Distinct(bounds)
    ensures SumOver(ds, bounds) == SumOver(ds[1..], bounds)
                                   + if (ds[0].start, ds[0].end) in bounds then ds[0].endValue - ds[0].startValue else 0
  {
    var own := (ds[0].start, ds[0].end);
    if bounds != [] {
      SumOverStep(ds, bounds[1..]);
      assert bounds == [bounds[0]] + bounds[1..];
      assert forall i :: 0 < i < |bounds| ==> bounds[i] != bounds[0];
      SumConcat([ds[0].endValue - ds[0].startValue], DeltasAt(ds[1..], bounds[0]));
      assert Sum([ds[0].endValue - ds[0].startValue]) == ds[0].endValue - ds[0].startValue;
      assert [] + DeltasAt(ds[1..], bounds[0]) == DeltasAt(ds[1..], bounds[0]);
    }
  }

  lemma {:induction false} SumOverTotal(ds: seq<Increment>, bounds: seq<(int, int)>)
    requires Distinct(bounds) && forall i :: 0 <= i < |ds| ==> (ds[i].start, ds[i].end) in bounds
    ensures SumOver(ds, bounds) == Total(ds)
  {
    if ds == [] {
      SumOverNothing(bounds);
    } else {
      SumOverStep(ds, bounds);
      SumOverTotal(ds[1..], bounds);
    }
  }

  function FramesOver(os: seq<Outcome>, bounds: seq<(int, int)>): int {
    if os == [] then 0 else SumOver(ValidOf(os[0]), bounds) + FramesOver(os[1..], bounds)
  }

  lemma {:induction false} NoFrames(bounds: seq<(int, int)>)
    ensures FrameTotals(TemporalIntervals([], bounds)) == 0
  {
    if bounds != [] { NoFrames(bounds[1..]); }
  }

  lemma {:induction false} OneMoreBin(os: seq<Outcome>, bounds: seq<(int, int)>)
    requires os != []
    ensures FrameTotals(TemporalIntervals(os, bounds))
         == SumOver(ValidOf(os[0]), bounds) + FrameTotals(TemporalIntervals(os[1..], bounds))
  {
    if bounds != [] {
      OneMoreBin(os, bounds[1..]);
    }
  }

  /** Swapping the order of summation: intervals first or bins first. */
  lemma {:induction false} SumsCommute(os: seq<Outcome>, bounds: seq<(int, int)>)
    ensures FrameTotals(TemporalIntervals(os, bounds)) == FramesOver(os, bounds)
  {
    if os == [] {
      NoFrames(bounds);
    } else {
      OneMoreBin(os, bounds);
      SumsCommute(os[1..], bounds);
    }
  }

  lemma {:induction false} FramesOverTotal(os: seq<Outcome>, bounds: seq<(int, int)>)
    requires Distinct(bounds)
    requires forall i :: 0 <= i < |os| ==> Bounds(ValidOf(os[i])) == bounds && TotalOf(os[i]) == Total(ValidOf(os[i]))
    ensures FramesOver(os, bounds) == BinTotal(os)
  {
    if os != [] {
      var ds := ValidOf(os[0]);
      assert forall i :: 0 <= i < |ds| ==> Bounds(ds)[i] == (ds[i].start, ds[i].end);
      SumOverTotal(ds, bounds);
      assert forall i :: 0 <= i < |os[1..]| ==> os[1..][i] == os[i + 1];
      FramesOverTotal(os[1..], bounds);
    }
  }

  lemma {:induction false} InOrderDistinct(ds: seq<Increment>, lo: int, w: Window)
    requires InOrder(ds, lo, w)
    ensures Distinct(Bounds(ds))
  {
    InOrderKeys(ds, lo, w);
  }

  /** The frames of the temporal intervals add up to the bin total. */
  lemma {:induction false} TemporalConserves(bins: seq<BinSeries>, w: Window)
    ensures var r := Analyze(Outcomes(bins, w));
            r.Ok? && r.value.common.Some? ==>
              && FrameTotals(r.value.temporal) == r.value.binTotal.value > 0
              && |r.value.temporal| == |r.value.common.value|
  {
    hide Supported, TotalOf, ValidOf, BinTotal, TemporalIntervals, FrameTotals, Bounds, Distinct, Shares;
    var os := Outcomes(bins, w);
    if Compatible(os) {
      forall i | 0 <= i < |os| ensures TotalOf(os[i]) == Total(ValidOf(os[i])) >= 0 { OutcomeTotal(bins[i], w); }
      BinTotalZero(os);
      var bounds := Bounds(ValidOf(os[0]));
      OutcomeInOrder(bins[0], w);
      SumsCommute(os, bounds);
      FramesOverTotal(os, bounds);
      TemporalLength(os, bounds);
    }
  }

  lemma {:induction false} TemporalLength(os: seq<Outcome>, bounds: seq<(int, int)>)
    ensures |TemporalIntervals(os, bounds)| == |bounds|
  {
    if bounds != [] { TemporalLength(os, bounds[1..]); }
  }

  lemma {:induction false} OutcomeInOrder(b: BinSeries, w: Window)
    ensures Distinct(Bounds(ValidOf(OutcomeOf(b, w))))
  {
    if b.records.Some? {
      FrameCounters.ScanInOrder(b.records.value, w);
      var lo :| InOrder(FrameCounters.Reduced(b.records.value, w).valid, lo, w);
      InOrderDistinct(ValidOf(OutcomeOf(b, w)), lo, w);
    }
  }

  // ---------------------------------------------------------------- the combined result

  /** Frames that bin `o` saw in its `k`-th valid interval. */
  function DeltaOf(o: Outcome, k: nat): int {
    if k < |ValidOf(o)| then ValidOf(o)[k].endValue - ValidOf(o)[k].startValue else 0
  }

  function DeltasOf(os: seq<Outcome>, k: nat): seq<(string, int)> {
    if os == [] then [] else [(os[0].id, DeltaOf(os[0], k))] + DeltasOf(os[1..], k)
  }

  function FramesOf(os: seq<Outcome>, k: nat): int {
    if os == [] then 0 else DeltaOf(os[0], k) + FramesOf(os[1..], k)
  }

  /** What the result of a direction with common intervals says about its bins. */
  ghost predicate DirectionFacts(os: seq<Outcome>, d: Direction) {
    && os != [] && d.common == Some(Bounds(ValidOf(os[0]))) && d.binTotal == Some(BinTotal(os)) && BinTotal(os) > 0
    && |d.shares| == |os| && R.Sum(d.shares) == 1.0
    && (forall i :: 0 <= i < |os| ==> d.shares[i] * BinTotal(os) as real == TotalOf(os[i]) as real)
    && |d.temporal| == |d.common.value| && FrameTotals(d.temporal) == BinTotal(os)
    && (forall k :: 0 <= k < |d.temporal| ==>
          d.temporal[k] == Temporal(d.common.value[k].0, d.common.value[k].1, DeltasOf(os, k), FramesOf(os, k)))
  }

  lemma {:induction false} NoDeltas(ds: seq<Increment>, b: (int, int))
    requires b !in Bounds(ds)
    ensures DeltasAt(ds, b) == []
  {
    if ds != [] {
      assert Bounds(ds)[0] != b;
      assert forall i :: 0 <= i < |ds[1..]| ==> Bounds(ds[1..])[i] == Bounds(ds)[i + 1];
      NoDeltas(ds[1..], b);
    }
  }

  /** With distinct boundaries, exactly one delta belongs to each. */
  lemma {:induction false} OneDelta(ds: seq<Increment>, k: nat)
    requires Distinct(Bounds(ds)) && k < |ds|
    ensures DeltasAt(ds, Bounds(ds)[k]) == [ds[k].endValue - ds[k].startValue]
  {
    var rest := ds[1..];
    assert Bounds(rest) == Bounds(ds)[1..];
    if k == 0 {
      assert forall i :: 0 <= i < |rest| ==> Bounds(rest)[i] == Bounds(ds)[i + 1] != Bounds(ds)[0];
      NoDeltas(rest, Bounds(ds)[0]);
    } else {
      assert Bounds(ds)[0] != Bounds(ds)[k] && Bounds(ds)[k] == Bounds(rest)[k - 1];
      OneDelta(rest, k - 1);
    }
  }

  lemma {:induction false} DeltasAtOne(os: seq<Outcome>, bounds: seq<(int, int)>, k: nat)
    requires Distinct(bounds) && k < |bounds| && forall i :: 0 <= i < |os| ==> Bounds(ValidOf(os[i])) == bounds
    ensures BinDeltasAt(os, bounds[k]) == DeltasOf(os, k) && FramesAt(os, bounds[k]) == FramesOf(os, k)
  {
    hide DeltasAt, Distinct, ValidOf;
    if os != [] {
      assert forall i :: 0 <= i < |os[1..]| ==> os[1..][i] == os[i + 1];
      DeltasAtOne(os[1..], bounds, k);
      OneDelta(ValidOf(os[0]), k);
      var delta := DeltaOf(os[0], k);
      assert Named(os[0].id, [delta]) == [(os[0].id, delta)];
      assert Sum([delta]) == delta + Sum([]);
    }
  }

  lemma {:induction false} TemporalAt(os: seq<Outcome>, bounds: seq<(int, int)>, k: nat)
    requires k < |bounds|
    ensures |TemporalIntervals(os, bounds)| == |bounds|
    ensures TemporalIntervals(os, bounds)[k] == Temporal(bounds[k].0, bounds[k].1, BinDeltasAt(os, bounds[k]), FramesAt(os, bounds[k]))
  {
    hide BinDeltasAt, FramesAt;
    TemporalLength(os, bounds);
    if k > 0 { TemporalAt(os, bounds[1..], k - 1); }
  }

  lemma {:induction false} ShareOf(os: seq<Outcome>, total: int, i: nat)
    requires total > 0 && i < |os|
    ensures |Shares(os, total)| == |os| && Shares(os, total)[i] * total as real == TotalOf(os[i]) as real
  {
    SharesSum(os, total);
    if i > 0 {
      ShareOf(os[1..], total, i - 1);
    } else {
      var x, t := TotalOf(os[0]) as real, total as real;
      assert x / t * t == x;
    }
  }

  lemma {:induction false} DirectionHolds(bins: seq<BinSeries>, w: Window)
    ensures var r := Analyze(Outcomes(bins, w));
            r.Ok? && r.value.common.Some? ==> DirectionFacts(Outcomes(bins, w), r.value)
  {
    hide Supported, TotalOf, ValidOf, BinTotal, TemporalIntervals, FrameTotals, Bounds, Distinct, Shares, R.Sum,
         DeltasOf, FramesOf, BinDeltasAt, FramesAt, OutcomeOf;
    var os := Outcomes(bins, w);
    SharesSumToOne(bins, w);
    TemporalConserves(bins, w);
    var r := Analyze(os);
    if r.Ok? && r.value.common.Some? {
      var bounds := Bounds(ValidOf(os[0]));
      OutcomeInOrder(bins[0], w);
      forall i | 0 <= i < |os| ensures r.value.shares[i] * BinTotal(os) as real == TotalOf(os[i]) as real {
        ShareOf(os, BinTotal(os), i);
      }
      forall k | 0 <= k < |bounds|
        ensures r.value.temporal[k] == Temporal(bounds[k].0, bounds[k].1, DeltasOf(os, k), FramesOf(os, k))
      {
        TemporalAt(os, bounds, k);
        DeltasAtOne(os, bounds, k);
      }
    }
  }

  // ---------------------------------------------------------------- when a direction is reported at all

  /** The bin was observed, with some valid and no invalid interval inside the window. */
  ghost predicate Clear(b: BinSeries, w: Window) {
    b.records.Some?
    && var s := FrameCounters.Intervals(Ordered(b.records.value), w);
       FrameCounters.SomeValid(s) && !FrameCounters.SomeInvalid(s)
  }

  /** Boundaries of the bin's valid intervals inside the window. */
  function ValidBounds(b: BinSeries, w: Window): seq<(int, int)> {
    if b.records.Some? then Bounds(FrameCounters.ValidIn(FrameCounters.Intervals(Ordered(b.records.value), w))) else []
  }

  ghost predicate Counted(b: BinSeries, w: Window) {
    b.records.Some? && FrameCounters.SomeIncrease(FrameCounters.Intervals(Ordered(b.records.value), w))
  }

  lemma {:induction false} ClearIsSupported(b: BinSeries, w: Window)
    ensures Supported(OutcomeOf(b, w)) <==> Clear(b, w)
    ensures Bounds(ValidOf(OutcomeOf(b, w))) == ValidBounds(b, w)
    ensures TotalOf(OutcomeOf(b, w)) > 0 <==> Counted(b, w)
    ensures TotalOf(OutcomeOf(b, w)) >= 0
  {
    if b.records.Some? {
      FrameCounters.StatusMeans(b.records.value, w);
    }
  }

  /** A direction is reported, or its shares divide by zero, exactly when there is a bin, every bin is clear, and all
      bins have the same valid boundaries; and it is reported as soon as some bin counted a frame. */
  lemma {:induction false} ReportedExactly(bins: seq<BinSeries>, w: Window)
    ensures var r := Analyze(Outcomes(bins, w));
            var clear := bins != [] && forall i :: 0 <= i < |bins| ==> Clear(bins[i], w) && ValidBounds(bins[i], w) == ValidBounds(bins[0], w);
            var counted := exists i :: 0 <= i < |bins| && Counted(bins[i], w);
            && (r.Err? || r.value.common.Some? <==> clear)
            && (r.Ok? && r.value.common.Some? <==> clear && counted)
            && (r.Err? <==> clear && !counted)
  {
    hide Supported, TotalOf, OutcomeOf, BinTotal, Clear, ValidBounds, Counted, Bounds, ValidOf;
    var os := Outcomes(bins, w);
    forall i | 0 <= i < |os|
      ensures Supported(os[i]) <==> Clear(bins[i], w)
      ensures Bounds(ValidOf(os[i])) == ValidBounds(bins[i], w)
      ensures TotalOf(os[i]) > 0 <==> Counted(bins[i], w)
      ensures TotalOf(os[i]) >= 0
    {
      ClearIsSupported(bins[i], w);
    }
    BinTotalZero(os);
  }

  /** Reduces every requested bin and combines the outcomes: the call fails exactly on an idle direction, shares are
      each bin's part of all frames, and a temporal interval holds the frames that every bin saw in it. */
  method AnalyzeDirection(bins: seq<BinSeries>, w: Window) returns (r: Result<Direction, DirectionError>)
    ensures r == Analyze(Outcomes(bins, w))
    ensures r.Err? <==> Idle(Outcomes(bins, w))
    ensures r.Err? || r.value.common.Some? <==>
              bins != [] && forall i :: 0 <= i < |bins| ==> Clear(bins[i], w) && ValidBounds(bins[i], w) == ValidBounds(bins[0], w)
    ensures r.Ok? && r.value.common.Some? ==> DirectionFacts(Outcomes(bins, w), r.value)
  {
    hide Analyze, Idle, DirectionFacts, Clear, ValidBounds;
    var outcomes: seq<Outcome> := [];
    for i := 0 to |bins|
      invariant outcomes == Outcomes(bins, w)[..i]
    {
      var counter: Option<FrameCounters.Counter> := None;
      if bins[i].records.Some? {
        var c := FrameCounters.AnalyzeCounter(bins[i].records.value, w);
        counter := Some(c);
      }
      outcomes := outcomes + [Outcome(bins[i].id, bins[i].edge, counter)];
    }
    assert Outcomes(bins, w)[..|bins|] == Outcomes(bins, w);
    r := Analyze(outcomes);
    FailsExactlyWhenIdle(bins, w);
    ReportedExactly(bins, w);
    DirectionHolds(bins, w);
  }
}
