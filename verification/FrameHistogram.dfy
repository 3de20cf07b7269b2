/**
 Frame-size histograms: which edge sets are accepted, what the cumulative scan says about the true
 quantiles of the frames behind the counts, and how far the midpoint mean can be off.
 */
module FrameHistogram {
  import opened Wrappers
  import opened Sorting

  /** A bin holds sizes from `lower` up to but not including `upper`; without an upper edge it is open-ended. */
  datatype Edge = Edge(id: string, lower: nat, upper: Option<nat>)

  predicate EdgeOk(e: Edge) {
    e.upper.Some? ==> e.lower < e.upper.value
  }

  predicate Holds(e: Edge, n: nat) {
    e.lower <= n && (e.upper.Some? ==> n < e.upper.value)
  }

  predicate ByLower(a: Edge, b: Edge) {
    a.lower <= b.lower
  }

  predicate DifferentIds(a: Edge, b: Edge) {
    a.id != b.id
  }

  predicate UniqueIds(edges: seq<Edge>) {
    Pairwise(edges, DifferentIds)
  }

  datatype EdgeError = EmptySource | NoEdges | RepeatedId | FirstNotZero | OpenEndedNotLast | Overlap | Gap

  /** Adjacent bins share an edge; only the last may be open-ended. */
  predicate Chained(edges: seq<Edge>) {
    forall k :: 0 <= k < |edges| - 1 ==> edges[k].upper == Some(edges[k + 1].lower)
  }

  /** What a reported error says about two bins that are neighbours in size order. */
  predicate Faulty(a: Edge, b: Edge, e: EdgeError) {
    match e
    case OpenEndedNotLast => a.upper.None?
    case Overlap => a.upper.Some? && b.lower < a.upper.value
    case Gap => a.upper.Some? && a.upper.value < b.lower
    case _ => false
  }

  ghost predicate FirstFault(ordered: seq<Edge>, e: EdgeError) {
    exists k :: 0 <= k < |ordered| - 1 && Chained(ordered[..k + 1]) && Faulty(ordered[k], ordered[k + 1], e)
  }

  /** The checks on an edge set, in order: it passes exactly when the bins form a chain from zero, and an
      error names the first check that fails. */
  method ValidateEdges(source: string, edges: seq<Edge>) returns (r: Result<(), EdgeError>)
    requires forall i :: 0 <= i < |edges| ==> EdgeOk(edges[i])
    ensures r.Ok? <==> source != "" && edges != [] && UniqueIds(edges)
                       && Sort(edges, ByLower)[0].lower == 0 && Chained(Sort(edges, ByLower))
    ensures r == Err(EmptySource) <==> source == ""
    ensures r == Err(NoEdges) <==> source != "" && edges == []
    ensures r == Err(RepeatedId) <==> source != "" && edges != [] && !UniqueIds(edges)
    ensures r == Err(FirstNotZero) <==> source != "" && edges != [] && UniqueIds(edges) && Sort(edges, ByLower)[0].lower != 0
    ensures r.Err? && r.error in {OpenEndedNotLast, Overlap, Gap} ==> FirstFault(Sort(edges, ByLower), r.error)
  {
    hide Sort, UniqueIds;
    if source == "" { return Err(EmptySource); }
    if edges == [] { return Err(NoEdges); }
    if !UniqueIds(edges) { return Err(RepeatedId); }
    var ordered := Sort(edges, ByLower);
    if ordered[0].lower != 0 { return Err(FirstNotZero); }
    var previousUpper: Option<nat> := None;
    var openEndedSeen := false;
    var i := 0;
    while i < |ordered|
      invariant 0 <= i <= |ordered|
      invariant i > 0 ==> previousUpper == ordered[i - 1].upper && openEndedSeen == ordered[i - 1].upper.None?
      invariant i == 0 ==> previousUpper == None && !openEndedSeen
      invariant forall k :: 0 <= k < i - 1 ==> ordered[k].upper == Some(ordered[k + 1].lower)
    {
      var edge := ordered[i];
      assert Chained(ordered[..i]);
      if openEndedSeen { return Err(OpenEndedNotLast); }
      if previousUpper.Some? {
        if edge.lower < previousUpper.value { return Err(Overlap); }
        if edge.lower > previousUpper.value { return Err(Gap); }
      }
      if edge.upper.None? { openEndedSeen := true; }
      previousUpper := edge.upper;
      i := i + 1;
    }
    r := Ok(());
  }

  // ---------------------------------------------------------------- accepted means partitioning

  ghost predicate Covers(edges: seq<Edge>, n: nat) {
    exists k :: 0 <= k < |edges| && Holds(edges[k], n)
  }

  /** The bins are disjoint and together hold exactly the sizes below some bound, or all sizes. */
  ghost predicate Partitions(edges: seq<Edge>) {
    && (forall i, j, n: nat :: 0 <= i < j < |edges| && Holds(edges[i], n) ==> !Holds(edges[j], n))
    && (forall m: nat, n: nat :: m <= n && Covers(edges, n) ==> Covers(edges, m))
  }

  predicate AllOk(edges: seq<Edge>) {
    forall i :: 0 <= i < |edges| ==> EdgeOk(edges[i])
  }

  lemma {:induction false} ByLowerIsTotal()
    ensures TotalPreorder(ByLower)
  {
  }

  /** In a chain, later bins start where or after earlier ones end. */
  lemma {:induction false} ChainSeparates(edges: seq<Edge>, i: nat, j: nat)
    requires AllOk(edges) && Chained(edges) && i < j < |edges|
    ensures edges[i].upper.Some? && edges[i].upper.value <= edges[j].lower
    decreases j
  {
    if i + 1 < j {
      ChainSeparates(edges, i, j - 1);
      assert edges[j - 1].upper == Some(edges[j - 1 + 1].lower);
      assert EdgeOk(edges[j - 1]);
    } else {
      assert edges[i].upper == Some(edges[i + 1].lower);
    }
  }

  lemma {:induction false} ChainCoversDown(edges: seq<Edge>, k: nat, n: nat, m: nat)
    requires AllOk(edges) && Chained(edges) && k < |edges| && Holds(edges[k], n) && m <= n
    requires edges[0].lower == 0
    ensures Covers(edges, m)
    decreases k
  {
    if !Holds(edges[k], m) {
      assert k > 0;
      assert edges[k - 1].upper == Some(edges[k - 1 + 1].lower) && EdgeOk(edges[k - 1]);
      ChainCoversDown(edges, k - 1, edges[k].lower - 1, m);
    }
  }

  lemma {:induction false} ChainPartitions(edges: seq<Edge>)
    requires AllOk(edges) && Chained(edges) && edges != [] && edges[0].lower == 0
    ensures Partitions(edges)
  {
    forall i, j, n: nat | 0 <= i < j < |edges| && Holds(edges[i], n) ensures !Holds(edges[j], n) {
      ChainSeparates(edges, i, j);
    }
    forall m: nat, n: nat | m <= n && Covers(edges, n) ensures Covers(edges, m) {
      var k :| 0 <= k < |edges| && Holds(edges[k], n);
      ChainCoversDown(edges, k, n, m);
    }
  }

  lemma {:induction false} PartitionChains(edges: seq<Edge>)
    requires AllOk(edges) && Sorted(edges, ByLower) && edges != [] && Partitions(edges)
    ensures edges[0].lower == 0 && Chained(edges)
  {
    var first := edges[0].lower;
    assert EdgeOk(edges[0]) && Holds(edges[0], first);
    assert Covers(edges, first);
    assert Covers(edges, 0);
    assert forall i :: 0 < i < |edges| ==> ByLower(edges[0], edges[i]);
    var z :| 0 <= z < |edges| && Holds(edges[z], 0);
    forall k | 0 <= k < |edges| - 1 ensures edges[k].upper == Some(edges[k + 1].lower) {
      PartitionAdjoins(edges, k);
    }
  }

  lemma {:induction false} PartitionAdjoins(edges: seq<Edge>, k: nat)
    requires AllOk(edges) && Sorted(edges, ByLower) && k + 1 < |edges| && Partitions(edges)
    ensures edges[k].upper == Some(edges[k + 1].lower)
  {
    var here, next := edges[k], edges[k + 1];
    assert EdgeOk(here) && EdgeOk(next) && ByLower(here, next);
    assert Holds(next, next.lower) && !Holds(here, next.lower);
    assert here.upper.Some? && here.upper.value <= next.lower;
    assert Covers(edges, next.lower) && Covers(edges, here.upper.value);
    if here.upper.value < next.lower {
      forall j | 0 <= j < |edges| ensures !Holds(edges[j], here.upper.value) { NoneInHole(edges, k, j); }
    }
  }

  /** No bin of a disjoint set holds a size in the hole between two neighbours. */
  lemma {:induction false} NoneInHole(edges: seq<Edge>, k: nat, j: nat)
    requires AllOk(edges) && Sorted(edges, ByLower) && k + 1 < |edges| && j < |edges|
    requires forall x, y, n: nat :: 0 <= x < y < |edges| && Holds(edges[x], n) ==> !Holds(edges[y], n)
    requires edges[k].upper.Some? && edges[k].upper.value < edges[k + 1].lower
    ensures !Holds(edges[j], edges[k].upper.value)
  {
    var here, hole := edges[k], edges[k].upper.value;
    assert EdgeOk(here) && Holds(here, hole - 1);
    if j < k {
      assert ByLower(edges[j], here);
      assert !Holds(edges[j], hole - 1);
    } else if j > k {
      assert j > k + 1 ==> ByLower(edges[k + 1], edges[j]);
    }
  }

  /** Partitioning depends only on which bins there are. */
  lemma {:induction false} PartitionsSameBins(a: seq<Edge>, b: seq<Edge>)
    requires UniqueIds(a) && UniqueIds(b) && (forall e :: e in a <==> e in b) && Partitions(a)
    ensures Partitions(b)
  {
    forall n: nat ensures Covers(a, n) <==> Covers(b, n) {
      if k :| 0 <= k < |a| && Holds(a[k], n) { assert a[k] in b; }
      if k :| 0 <= k < |b| && Holds(b[k], n) { assert b[k] in a; }
    }
    forall i, j, n: nat | 0 <= i < j < |b| && Holds(b[i], n) ensures !Holds(b[j], n) {
      assert b[i] in a && b[j] in a && DifferentIds(b[i], b[j]);
      var x :| 0 <= x < |a| && a[x] == b[i];
      var y :| 0 <= y < |a| && a[y] == b[j];
      assert x != y;
    }
  }

  /** An edge set passes the checks exactly when its bins partition an initial range of sizes. */
  lemma {:induction false} AcceptedIffPartition(edges: seq<Edge>)
    requires AllOk(edges) && edges != [] && UniqueIds(edges)
    ensures Sort(edges, ByLower)[0].lower == 0 && Chained(Sort(edges, ByLower)) <==> Partitions(edges)
  {
    var ordered := Sort(edges, ByLower);
    ByLowerIsTotal();
    SortSorts(edges, ByLower);
    SortKeepsPairwise(edges, ByLower, DifferentIds);
    forall e ensures e in ordered <==> e in edges { SortSameElements(edges, ByLower, e); }
    assert AllOk(ordered) by {
      forall i | 0 <= i < |ordered| ensures EdgeOk(ordered[i]) { assert ordered[i] in edges; }
    }
    if ordered[0].lower == 0 && Chained(ordered) {
      ChainPartitions(ordered);
      PartitionsSameBins(ordered, edges);
    }
    if Partitions(edges) {
      PartitionsSameBins(edges, ordered);
      PartitionChains(ordered);
    }
  }
}
