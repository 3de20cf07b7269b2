/**
 What the histogram of a direction says about the frames behind its counts: the bin that the cumulative
 scan selects holds the true quantile, and the midpoint mean is off by at most the mean half bin width.
 */
module FrameQuantiles {
  import opened Wrappers
  import opened Sorting
  import opened OrderStatistics
  import opened FrameHistogram

  const QUANTILES: seq<real> := [0.5, 0.99]

  /** One requested bin: its edge, if the edge set has it, and its frame total, if it was observed. */
  datatype BinResult = BinResult(edge: Option<Edge>, total: Option<nat>)

  datatype Bin = Bin(edge: Edge, count: nat)

  datatype Quantile = Unsupported | OpenEnded(lower: nat) | Bounded(lower: nat, upper: nat)

  predicate ByEdge(a: Bin, b: Bin) {
    a.edge.lower <= b.edge.lower
  }

  predicate DifferentBins(a: Bin, b: Bin) {
    a.edge.id != b.edge.id
  }

  function OrZero(total: Option<nat>): nat {
    if total.Some? then total.value else 0
  }

  function Sourced(bins: seq<BinResult>): seq<Bin> {
    if bins == [] then []
    else (if bins[0].edge.Some? then [Bin(bins[0].edge.value, OrZero(bins[0].total))] else []) + Sourced(bins[1..])
  }

  /** Frames in the first `k` bins. */
  function Before(bins: seq<Bin>, k: nat): nat
    requires k <= |bins|
  {
    if k == 0 then 0 else Before(bins, k - 1) + bins[k - 1].count
  }

  function Frames(bins: seq<Bin>): nat {
    Before(bins, |bins|)
  }

  /** The first bin at which the cumulative count reaches the quantile's share of all frames. */
  predicate Selected(bins: seq<Bin>, q: real, k: nat) {
    k < |bins| && Before(bins, k) as real < Share(q, Frames(bins)) <= Before(bins, k + 1) as real
  }

  function Report(e: Edge): Quantile {
    match e.upper
    case None => OpenEnded(e.lower)
    case Some(upper) => Bounded(e.lower, upper)
  }

  ghost predicate Answers(bins: seq<Bin>, q: real, answer: Quantile) {
    exists k: nat :: Selected(bins, q, k) && answer == Report(bins[k].edge)
  }

  /** The cumulative scan; the last bin is the fallback when no bin reaches the threshold. */
  method Select(bins: seq<Bin>, q: real) returns (selected: nat)
    requires Frames(bins) > 0 && 0.0 < q <= 1.0
    ensures Selected(bins, q, selected)
  {
    hide Before, Share;
    ShareInRange(q, Frames(bins));
    assert bins != [] by { FramesNeedBins(bins); }
    var total := Total(bins);
    var threshold := Share(q, total);
    var cumulative: nat := 0;
    assert Before(bins, 0) == 0 by { BeforeStep(bins, 0); }
    selected := |bins| - 1;
    var i := 0;
    while i < |bins|
      invariant 0 <= i <= |bins| && selected == |bins| - 1
      invariant cumulative == Before(bins, i) && cumulative as real < threshold
    {
      BeforeStep(bins, i);
      cumulative := cumulative + bins[i].count;
      if cumulative as real >= threshold {
        return i;
      }
      i := i + 1;
    }
  }

  method Total(bins: seq<Bin>) returns (total: nat)
    ensures total == Frames(bins)
  {
    total := 0;
    for i := 0 to |bins|
      invariant total == Before(bins, i)
    {
      total := total + bins[i].count;
    }
  }

  lemma {:induction false} BeforeStep(bins: seq<Bin>, i: nat)
    requires i <= |bins|
    ensures Before(bins, 0) == 0
    ensures i < |bins| ==> Before(bins, i + 1) == Before(bins, i) + bins[i].count
  {
  }

  lemma {:induction false} FramesNeedBins(bins: seq<Bin>)
    requires Frames(bins) > 0
    ensures bins != []
  {
  }

  /** Quantile bounds for a direction: only with complete edges, a common support and some frames. */
  method QuantileResults(bins: seq<BinResult>, edgesComplete: bool, distributionSupported: bool) returns (r: seq<Quantile>)
    ensures |r| == 2
    ensures var ordered := Sort(Sourced(bins), ByEdge);
            if !edgesComplete || !distributionSupported || Frames(ordered) == 0 then
              r[0] == Unsupported && r[1] == Unsupported
            else
              Answers(ordered, 0.5, r[0]) && Answers(ordered, 0.99, r[1])
  {
    hide Before, Frames, Sort, Selected;
    if !edgesComplete || !distributionSupported {
      return seq(|QUANTILES|, _ => Unsupported);
    }
    var ordered := Sort(Sourced(bins), ByEdge);
    var total := Total(ordered);
    if total <= 0 {
      return seq(|QUANTILES|, _ => Unsupported);
    }
    r := [];
    for n := 0 to |QUANTILES|
      invariant |r| == n
      invariant forall i :: 0 <= i < n ==> Answers(ordered, QUANTILES[i], r[i])
    {
      var k := Select(ordered, QUANTILES[n]);
      InBounds(ordered, QUANTILES[n], k);
      r := r + [Report(ordered[k].edge)];
    }
  }

  lemma {:induction false} InBounds(bins: seq<Bin>, q: real, k: nat)
    requires Selected(bins, q, k)
    ensures k < |bins|
  {
  }

  // ---------------------------------------------------------------- the frames behind the counts

  predicate Leq(a: nat, b: nat) {
    a <= b
  }

  predicate Disjoint(a: Edge, b: Edge) {
    || (a.upper.Some? && a.upper.value <= b.lower)
    || (b.upper.Some? && b.upper.value <= a.lower)
  }

  predicate DisjointBins(a: Bin, b: Bin) {
    Disjoint(a.edge, b.edge)
  }

  /** Held by one of the first `k` bins. */
  predicate Under(bins: seq<Bin>, k: nat, n: nat)
    requires k <= |bins|
  {
    exists j :: 0 <= j < k && Holds(bins[j].edge, n)
  }

  function In(e: Edge): nat -> bool {
    (n: nat) => Holds(e, n)
  }

  function InFirst(bins: seq<Bin>, k: nat): nat -> bool
    requires k <= |bins|
  {
    (n: nat) => Under(bins, k, n)
  }

  /** A population of frame sizes that the bins count: every frame is in a bin, and every bin counts its frames. */
  ghost predicate Counts(bins: seq<Bin>, sizes: seq<nat>) {
    && (forall i :: 0 <= i < |sizes| ==> Under(bins, |bins|, sizes[i]))
    && (forall j :: 0 <= j < |bins| ==> bins[j].count == CountWhere(sizes, In(bins[j].edge)))
  }

  lemma {:induction false} UnderSplits(bins: seq<Bin>, k: nat, n: nat)
    requires k < |bins| && Pairwise(bins, DisjointBins)
    ensures Under(bins, k + 1, n) <==> Under(bins, k, n) || Holds(bins[k].edge, n)
    ensures !(Under(bins, k, n) && Holds(bins[k].edge, n))
  {
    assert forall j :: 0 <= j < k ==> DisjointBins(bins[j], bins[k]);
  }

  /** Cumulative bin counts count the frames in the bins so far. */
  lemma {:induction false} BeforeCounts(bins: seq<Bin>, sizes: seq<nat>, k: nat)
    requires k <= |bins| && Pairwise(bins, DisjointBins) && Counts(bins, sizes)
    ensures Before(bins, k) == CountWhere(sizes, InFirst(bins, k))
  {
    hide CountWhere, Under;
    if k == 0 {
      assert forall n: nat :: !Under(bins, 0, n) by { NothingUnder(bins); }
      CountNone(sizes, InFirst(bins, 0));
    } else {
      BeforeCounts(bins, sizes, k - 1);
      forall i | 0 <= i < |sizes|
        ensures InFirst(bins, k)(sizes[i]) <==> InFirst(bins, k - 1)(sizes[i]) || In(bins[k - 1].edge)(sizes[i])
        ensures !(InFirst(bins, k - 1)(sizes[i]) && In(bins[k - 1].edge)(sizes[i]))
      {
        UnderSplits(bins, k - 1, sizes[i]);
      }
      CountSplits(sizes, InFirst(bins, k - 1), In(bins[k - 1].edge), InFirst(bins, k));
    }
  }

  lemma {:induction false} NothingUnder(bins: seq<Bin>)
    ensures forall n: nat :: !Under(bins, 0, n)
  {
  }

  lemma {:induction false} AllFramesCounted(bins: seq<Bin>, sizes: seq<nat>)
    requires Pairwise(bins, DisjointBins) && Counts(bins, sizes)
    ensures Frames(bins) == |sizes|
  {
    BeforeCounts(bins, sizes, |bins|);
    CountAll(sizes, InFirst(bins, |bins|));
  }

  /** Bins in size order that do not overlap: a smaller frame is never in a later bin. */
  lemma {:induction false} UnderIsPrefix(bins: seq<Bin>, k: nat, x: nat, y: nat)
    requires k <= |bins| && Pairwise(bins, DisjointBins) && Sorted(bins, ByEdge)
    requires forall i :: 0 <= i < |bins| ==> EdgeOk(bins[i].edge)
    requires x <= y && Under(bins, k, y) && Under(bins, |bins|, x)
    ensures Under(bins, k, x)
  {
  }

  /** The nearest-rank quantile of the real frame sizes lies in the selected bin, which is not empty. */
  lemma {:induction false} QuantileInSelectedBin(bins: seq<Bin>, sizes: seq<nat>, q: real, k: nat)
    requires 0.0 < q <= 1.0 && Selected(bins, q, k)
    requires Pairwise(bins, DisjointBins) && Sorted(bins, ByEdge) && Counts(bins, sizes)
    requires forall i :: 0 <= i < |bins| ==> EdgeOk(bins[i].edge)
    ensures bins[k].count > 0 && |sizes| == Frames(bins)
    ensures 0 <= RankIndex(q, |sizes|) < |sizes|
    ensures Holds(bins[k].edge, Sort(sizes, Leq)[RankIndex(q, |sizes|)])
  {
    hide Counts, Under, CountWhere, Sort, Pairwise, RankIndex, Share;
    AllFramesCounted(bins, sizes);
    BeforeMonotone(bins, k + 1, |bins|);
    assert Before(bins, k + 1) == Before(bins, k) + bins[k].count;
    RankInRange(q, |sizes|);
    var i := RankIndex(q, |sizes|);
    var s := Sort(sizes, Leq);
    RankIsUnder(bins, sizes, k, i);
    RankIsUnder(bins, sizes, k + 1, i);
    UnderSplits(bins, k, s[i]);
  }

  lemma {:induction false} RankIsUnder(bins: seq<Bin>, sizes: seq<nat>, k: nat, i: nat)
    requires k <= |bins| && i < |sizes|
    requires Pairwise(bins, DisjointBins) && Sorted(bins, ByEdge) && Counts(bins, sizes)
    requires forall i :: 0 <= i < |bins| ==> EdgeOk(bins[i].edge)
    ensures Under(bins, k, Sort(sizes, Leq)[i]) <==> i < Before(bins, k)
  {
    hide CountWhere, Sort, Under, Pairwise, Before;
    var s := Sort(sizes, Leq);
    BeforeCounts(bins, sizes, k);
    SortKeepsCount(sizes, Leq, InFirst(bins, k));
    SortSorts(sizes, Leq);
    forall j | 0 <= j < |s| ensures Under(bins, |bins|, s[j]) {
      SortSameElements(sizes, Leq, s[j]);
      assert s[j] in sizes;
    }
    forall a, b | 0 <= a < b < |s| && InFirst(bins, k)(s[b]) ensures InFirst(bins, k)(s[a]) {
      assert Leq(s[a], s[b]);
      UnderIsPrefix(bins, k, s[a], s[b]);
    }
    CountIsPrefix(s, InFirst(bins, k), i);
  }

  /** A larger quantile never selects an earlier bin. */
  lemma {:induction false} QuantilesInOrder(bins: seq<Bin>, p: real, q: real, i: nat, j: nat)
    requires p <= q && Selected(bins, p, i) && Selected(bins, q, j)
    ensures i <= j
  {
    hide Share;
    ShareMonotone(p, q, Frames(bins));
    if j < i {
      BeforeMonotone(bins, j + 1, i);
    }
  }

  lemma {:induction false} BeforeMonotone(bins: seq<Bin>, i: nat, j: nat)
    requires i <= j <= |bins|
    ensures Before(bins, i) <= Before(bins, j)
    decreases j
  {
    if i < j { BeforeMonotone(bins, i, j - 1); }
  }

  // ---------------------------------------------------------------- from an accepted edge set

  /** Two bins of an accepted edge set with different names do not overlap. */
  lemma {:induction false} AcceptedBinsDisjoint(edges: seq<Edge>, a: Edge, b: Edge)
    requires AllOk(edges) && Partitions(edges) && a in edges && b in edges && a.id != b.id
    ensures Disjoint(a, b)
  {
    var i :| 0 <= i < |edges| && edges[i] == a;
    var j :| 0 <= j < |edges| && edges[j] == b;
    assert EdgeOk(edges[i]) && EdgeOk(edges[j]);
    assert Holds(edges[i], a.lower) && Holds(edges[j], b.lower);
    assert i < j ==> !Holds(edges[j], a.lower) && !Holds(edges[i], b.lower);
    assert j < i ==> !Holds(edges[j], a.lower) && !Holds(edges[i], b.lower);
  }

  lemma {:induction false} ByEdgeIsTotal()
    ensures TotalPreorder(ByEdge) && Symmetric(DisjointBins)
  {
  }

  ghost predicate FromEdges(bins: seq<Bin>, edges: seq<Edge>) {
    && Pairwise(bins, DifferentBins)
    && forall i :: 0 <= i < |bins| ==> bins[i].edge in edges
  }

  lemma {:induction false} FromEdgesDisjoint(bins: seq<Bin>, edges: seq<Edge>)
    requires AllOk(edges) && Partitions(edges) && FromEdges(bins, edges)
    ensures Pairwise(bins, DisjointBins) && forall i :: 0 <= i < |bins| ==> EdgeOk(bins[i].edge)
  {
    hide Partitions, Disjoint, EdgeOk;
    forall i, j | 0 <= i < j < |bins| ensures DisjointBins(bins[i], bins[j]) {
      assert DifferentBins(bins[i], bins[j]);
      AcceptedBinsDisjoint(edges, bins[i].edge, bins[j].edge);
    }
  }

  /** Counting does not depend on the order of the bins. */
  lemma {:induction false} CountsSameBins(a: seq<Bin>, b: seq<Bin>, sizes: seq<nat>)
    requires Counts(a, sizes) && forall x :: x in a <==> x in b
    ensures Counts(b, sizes)
  {
    forall i | 0 <= i < |sizes| ensures Under(b, |b|, sizes[i]) {
      assert Under(a, |a|, sizes[i]);
      var j :| 0 <= j < |a| && Holds(a[j].edge, sizes[i]);
      assert a[j] in b;
      var k :| 0 <= k < |b| && b[k] == a[j];
    }
    forall j | 0 <= j < |b| ensures b[j].count == CountWhere(sizes, In(b[j].edge)) {
      assert b[j] in a;
      var k :| 0 <= k < |a| && a[k] == b[j];
    }
  }

  /** What a reported answer promises about a frame size. */
  predicate Bounds(answer: Quantile, n: nat) {
    match answer
    case Unsupported => false
    case OpenEnded(lower) => lower <= n
    case Bounded(lower, upper) => lower <= n < upper
  }

  /** With bins of an accepted edge set, an answer of the scan bounds the true nearest-rank quantile of every
      population of frames that the bins count. */
  lemma {:induction false} CountedBinsBound(edges: seq<Edge>, bins: seq<Bin>, sizes: seq<nat>, q: real, answer: Quantile)
    requires 0.0 < q <= 1.0 && AllOk(edges) && edges != [] && UniqueIds(edges)
    requires Sort(edges, ByLower)[0].lower == 0 && Chained(Sort(edges, ByLower))
    requires FromEdges(bins, edges) && Counts(bins, sizes)
    requires Answers(Sort(bins, ByEdge), q, answer)
    ensures 0 <= RankIndex(q, |sizes|) < |sizes|
    ensures Bounds(answer, Sort(sizes, Leq)[RankIndex(q, |sizes|)])
  {
    hide Counts, Sort, Partitions, RankIndex, Pairwise, Before, Share;
    var ordered := Sort(bins, ByEdge);
    OrderedBins(edges, bins, sizes);
    var k: nat :| Selected(ordered, q, k) && answer == Report(ordered[k].edge);
    QuantileInSelectedBin(ordered, sizes, q, k);
  }

  lemma {:induction false} OrderedBins(edges: seq<Edge>, bins: seq<Bin>, sizes: seq<nat>)
    requires AllOk(edges) && edges != [] && UniqueIds(edges)
    requires Sort(edges, ByLower)[0].lower == 0 && Chained(Sort(edges, ByLower))
    requires FromEdges(bins, edges) && Counts(bins, sizes)
    ensures var ordered := Sort(bins, ByEdge);
            && Pairwise(ordered, DisjointBins) && Sorted(ordered, ByEdge) && Counts(ordered, sizes)
            && forall i :: 0 <= i < |ordered| ==> EdgeOk(ordered[i].edge)
  {
    hide Counts, Sort, Partitions, Chained, Pairwise, EdgeOk;
    AcceptedIffPartition(edges);
    FromEdgesDisjoint(bins, edges);
    ByEdgeIsTotal();
    SortSorts(bins, ByEdge);
    SortKeepsPairwise(bins, ByEdge, DisjointBins);
    var ordered := Sort(bins, ByEdge);
    forall x ensures x in bins <==> x in ordered { SortSameElements(bins, ByEdge, x); }
    CountsSameBins(bins, ordered, sizes);
    forall i | 0 <= i < |ordered| ensures EdgeOk(ordered[i].edge) { assert ordered[i] in bins; }
  }

  /** Every requested bin has its edge, and these are different bins of the edge set. */
  ghost predicate Complete(bins: seq<BinResult>, edges: seq<Edge>) {
    && (forall i :: 0 <= i < |bins| ==> bins[i].edge.Some? && bins[i].edge.value in edges)
    && (forall i, j :: 0 <= i < j < |bins| && bins[i].edge.Some? && bins[j].edge.Some? ==> bins[i].edge.value.id != bins[j].edge.value.id)
  }

  /** The observed total of a bin is the number of frames in it; without a total there are none. */
  predicate CountsOwn(b: BinResult, sizes: seq<nat>) {
    b.edge.Some? ==> CountWhere(sizes, In(b.edge.value)) == match b.total case None => 0 case Some(n) => n
  }

  predicate InRequested(bins: seq<BinResult>, n: nat) {
    exists j :: 0 <= j < |bins| && bins[j].edge.Some? && Holds(bins[j].edge.value, n)
  }

  /** A population of frame sizes behind the requested bins. */
  ghost predicate Observes(bins: seq<BinResult>, sizes: seq<nat>) {
    && (forall i :: 0 <= i < |sizes| ==> InRequested(bins, sizes[i]))
    && (forall j :: 0 <= j < |bins| ==> CountsOwn(bins[j], sizes))
  }

  /** With complete edges every requested bin is counted, in its place and with its own total. */
  lemma {:induction false} SourcedKeepsAll(bins: seq<BinResult>)
    requires forall i :: 0 <= i < |bins| ==> bins[i].edge.Some?
    ensures |Sourced(bins)| == |bins|
    ensures forall i :: 0 <= i < |bins| ==> Sourced(bins)[i].edge == bins[i].edge.value
    ensures forall i :: 0 <= i < |bins| ==> Sourced(bins)[i].count == match bins[i].total case None => 0 case Some(n) => n
  {
    if bins != [] {
      SourcedKeepsAll(bins[1..]);
    }
  }

  lemma {:induction false} SourcedCounts(bins: seq<BinResult>, edges: seq<Edge>, sizes: seq<nat>)
    requires Complete(bins, edges) && Observes(bins, sizes)
    ensures FromEdges(Sourced(bins), edges) && Counts(Sourced(bins), sizes)
  {
    hide Sourced, CountWhere, In, Holds;
    SourcedKeepsAll(bins);
    var counted := Sourced(bins);
    forall i | 0 <= i < |sizes| ensures Under(counted, |counted|, sizes[i]) {
      assert InRequested(bins, sizes[i]);
      var j :| 0 <= j < |bins| && bins[j].edge.Some? && Holds(bins[j].edge.value, sizes[i]);
      assert Holds(counted[j].edge, sizes[i]);
    }
    forall j | 0 <= j < |counted| ensures counted[j].count == CountWhere(sizes, In(counted[j].edge)) {
      assert CountsOwn(bins[j], sizes);
    }
  }

  /** With the edges of every requested bin known, the scan sees all frames, and each of its answers bounds the
      true nearest-rank quantile of every population of frames behind the requested bins. */
  lemma {:induction false} AnswersBoundTheTruth(edges: seq<Edge>, bins: seq<BinResult>, sizes: seq<nat>, q: real, answer: Quantile)
    requires 0.0 < q <= 1.0 && AllOk(edges) && edges != [] && UniqueIds(edges)
    requires Sort(edges, ByLower)[0].lower == 0 && Chained(Sort(edges, ByLower))
    requires Complete(bins, edges) && Observes(bins, sizes)
    ensures Frames(Sort(Sourced(bins), ByEdge)) == |sizes|
    ensures Answers(Sort(Sourced(bins), ByEdge), q, answer)
            ==> 0 <= RankIndex(q, |sizes|) < |sizes| && Bounds(answer, Sort(sizes, Leq)[RankIndex(q, |sizes|)])
  {
    hide *;
    SourcedCounts(bins, edges, sizes);
    OrderedBins(edges, Sourced(bins), sizes);
    AllFramesCounted(Sort(Sourced(bins), ByEdge), sizes);
    if Answers(Sort(Sourced(bins), ByEdge), q, answer) {
      CountedBinsBound(edges, Sourced(bins), sizes, q, answer);
    }
  }

  // ---------------------------------------------------------------- the midpoint mean

  function Midpoint(e: Edge): real {
    (e.lower + if e.upper.Some? then e.upper.value else e.lower) as real / 2.0
  }

  function MidpointSum(bins: seq<Bin>, k: nat): real
    requires k <= |bins|
  {
    if k == 0 then 0.0 else MidpointSum(bins, k - 1) + bins[k - 1].count as real * Midpoint(bins[k - 1].edge)
  }

  /** The mean that uses every bin's midpoint for its frames. */
  function MidpointMean(bins: seq<Bin>): real
    requires Frames(bins) > 0
  {
    MidpointSum(bins, |bins|) / Frames(bins) as real
  }

  function HalfWidth(e: Edge): real {
    if e.upper.Some? then (e.upper.value - e.lower) as real / 2.0 else 0.0
  }

  /** Half bin widths, weighted by count. */
  function Slack(bins: seq<Bin>, k: nat): real
    requires k <= |bins|
  {
    if k == 0 then 0.0 else Slack(bins, k - 1) + bins[k - 1].count as real * HalfWidth(bins[k - 1].edge)
  }

  function Bytes(sizes: seq<nat>, p: nat -> bool): nat {
    if sizes == [] then 0 else (if p(sizes[0]) then sizes[0] else 0) + Bytes(sizes[1..], p)
  }

  lemma {:induction false} BytesNone(sizes: seq<nat>, p: nat -> bool)
    requires forall i :: 0 <= i < |sizes| ==> !p(sizes[i])
    ensures Bytes(sizes, p) == 0
  {
    if sizes != [] { BytesNone(sizes[1..], p); }
  }

  lemma {:induction false} BytesSplit(s: seq<nat>, p: nat -> bool, q: nat -> bool, r: nat -> bool)
    requires forall i :: 0 <= i < |s| ==> (r(s[i]) <==> p(s[i]) || q(s[i])) && !(p(s[i]) && q(s[i]))
    ensures Bytes(s, r) == Bytes(s, p) + Bytes(s, q)
  {
    if s != [] {
      assert forall i :: 0 <= i < |s[1..]| ==> s[1..][i] == s[i + 1];
      BytesSplit(s[1..], p, q, r);
    }
  }

  /** `n` frames of one closed bin, together `b` bytes, differ from `n` midpoints by at most `n` half widths. */
  predicate NearMidpoints(e: Edge, n: nat, b: nat) {
    n as real * Midpoint(e) - n as real * HalfWidth(e) <= b as real <= n as real * Midpoint(e) + n as real * HalfWidth(e)
  }

  lemma {:induction false} OneMore(e: Edge, n: nat, b: nat, x: nat)
    requires e.upper.Some? && Holds(e, x) && NearMidpoints(e, n, b)
    ensures NearMidpoints(e, n + 1, b + x)
  {
  }

  lemma {:induction false} BinMidpointError(sizes: seq<nat>, e: Edge)
    requires e.upper.Some?
    ensures NearMidpoints(e, CountWhere(sizes, In(e)), Bytes(sizes, In(e)))
  {
    if sizes != [] {
      hide NearMidpoints, Holds;
      BinMidpointError(sizes[1..], e);
      if Holds(e, sizes[0]) {
        OneMore(e, CountWhere(sizes[1..], In(e)), Bytes(sizes[1..], In(e)), sizes[0]);
      }
    }
  }

  lemma {:induction false} MidpointSumError(bins: seq<Bin>, sizes: seq<nat>, k: nat)
    requires k <= |bins| && Pairwise(bins, DisjointBins) && Counts(bins, sizes)
    requires forall i :: 0 <= i < |bins| ==> EdgeOk(bins[i].edge) && bins[i].edge.upper.Some?
    ensures var b := Bytes(sizes, InFirst(bins, k)) as real;
            MidpointSum(bins, k) - Slack(bins, k) <= b <= MidpointSum(bins, k) + Slack(bins, k)
  {
    hide Bytes, CountWhere, Under, Midpoint, HalfWidth;
    if k == 0 {
      NothingUnder(bins);
      BytesNone(sizes, InFirst(bins, 0));
    } else {
      MidpointSumError(bins, sizes, k - 1);
      BinMidpointError(sizes, bins[k - 1].edge);
      forall i | 0 <= i < |sizes|
        ensures InFirst(bins, k)(sizes[i]) <==> InFirst(bins, k - 1)(sizes[i]) || In(bins[k - 1].edge)(sizes[i])
        ensures !(InFirst(bins, k - 1)(sizes[i]) && In(bins[k - 1].edge)(sizes[i]))
      {
        UnderSplits(bins, k - 1, sizes[i]);
      }
      BytesSplit(sizes, InFirst(bins, k - 1), In(bins[k - 1].edge), InFirst(bins, k));
    }
  }

  function AllBytes(sizes: seq<nat>): nat {
    Bytes(sizes, n => true)
  }

  lemma {:induction false} BytesSame(s: seq<nat>, p: nat -> bool, q: nat -> bool)
    requires forall i :: 0 <= i < |s| ==> p(s[i]) && q(s[i])
    ensures Bytes(s, p) == Bytes(s, q)
  {
    if s != [] { BytesSame(s[1..], p, q); }
  }

  /** The midpoint mean is within the count-weighted mean half bin width of the true mean frame size. */
  lemma {:induction false} MidpointMeanError(bins: seq<Bin>, sizes: seq<nat>)
    requires Pairwise(bins, DisjointBins) && Counts(bins, sizes) && Frames(bins) > 0
    requires forall i :: 0 <= i < |bins| ==> EdgeOk(bins[i].edge) && bins[i].edge.upper.Some?
    ensures |sizes| == Frames(bins)
    ensures var n := Frames(bins) as real;
            var mean := AllBytes(sizes) as real / n;
            MidpointMean(bins) - Slack(bins, |bins|) / n <= mean <= MidpointMean(bins) + Slack(bins, |bins|) / n
  {
    hide Bytes, Under, CountWhere, MidpointSum, Slack, Frames;
    AllFramesCounted(bins, sizes);
    MidpointSumError(bins, sizes, |bins|);
    BytesSame(sizes, InFirst(bins, |bins|), n => true);
    var n := Frames(bins) as real;
    Divide(MidpointSum(bins, |bins|), Slack(bins, |bins|), AllBytes(sizes) as real, n);
  }

  lemma {:induction false} Divide(m: real, d: real, b: real, n: real)
    requires m - d <= b <= m + d && n > 0.0
    ensures m / n - d / n <= b / n <= m / n + d / n
  {
  }
}
