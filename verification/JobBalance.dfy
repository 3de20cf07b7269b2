/** Balance of a job over its nodes: conservation over topology groups, shares, concentration and order statistics. */
module JobBalance {
  import opened Wrappers
  import opened Sorting
  import opened OrderStatistics
  import opened JobTopology
  import R = RealSums

  const HOTSPOT_TOP_FRACTION := 0.01

  datatype NodeStatus = NodeOk | NodeZero | NodePartial | NodeMissing | NodeUnsupported

  /** What all node results of a job must share: identity, windows and valid interval boundaries. */
  datatype Support = Support(run: string, direction: string, counter: string, window: (int, int),
                             represented: (int, int), boundaries: seq<int>)

  datatype NodeResult = NodeResult(id: string, status: NodeStatus, total: Option<real>, support: Support)

  datatype GroupBalance = GroupBalance(id: string, nodes: seq<string>, missing: seq<string>, total: Option<real>,
                                       share: Option<real>, nodeCount: nat, validCount: nat)

  datatype JobBalance = JobBalance(total: Option<real>, shares: seq<real>, effectiveNodes: Option<real>,
                                   p50: Option<real>, p99: Option<real>, hotspotCount: Option<nat>, hotspot: Option<real>)

  /** Results are keyed by node, and byte totals are not negative. */
  ghost predicate WellFormed(results: seq<NodeResult>) {
    && (forall i, j :: 0 <= i < j < |results| ==> results[i].id != results[j].id)
    && (forall i :: 0 <= i < |results| ==> results[i].total.Some? ==> results[i].total.value >= 0.0)
  }

  predicate Agree(results: seq<NodeResult>) {
    forall i, j :: 0 <= i < |results| && 0 <= j < |results| && results[i].status != NodeMissing && results[j].status != NodeMissing
                   ==> results[i].support == results[j].support
  }

  /** All results that are not missing are compared with the first of them. */
  method CompatibleResults(results: seq<NodeResult>) returns (compatible: bool)
    ensures compatible <==> Agree(results)
  {
    var reference: Option<Support> := None;
    for i := 0 to |results|
      invariant reference.None? ==> forall k :: 0 <= k < i ==> results[k].status == NodeMissing
      invariant reference.Some? ==>
                  && (exists k :: 0 <= k < i && results[k].status != NodeMissing && results[k].support == reference.value)
                  && (forall k :: 0 <= k < i ==> results[k].status == NodeMissing || results[k].support == reference.value)
    {
      if results[i].status != NodeMissing {
        if reference.None? {
          reference := Some(results[i].support);
        } else if results[i].support != reference.value {
          return false;
        }
      }
    }
    return true;
  }

  predicate Usable(r: NodeResult) {
    r.total.Some? && r.status != NodeUnsupported
  }

  function UsableTotals(results: seq<NodeResult>): seq<real> {
    if results == [] then [] else (if Usable(results[0]) then [results[0].total.value] else []) + UsableTotals(results[1..])
  }

  function SumBytes(values: seq<real>): Option<real> {
    if values == [] then None else Some(R.Sum(values))
  }

  // ---------------------------------------------------------------- topology groups

  function Find(results: seq<NodeResult>, id: string): Option<NodeResult> {
    if results == [] then None else if results[0].id == id then Some(results[0]) else Find(results[1..], id)
  }

  predicate Absent(results: seq<NodeResult>, id: string) {
    match Find(results, id)
    case None => true
    case Some(r) => r.status == NodeMissing
  }

  predicate Contributes(results: seq<NodeResult>, id: string) {
    match Find(results, id)
    case None => false
    case Some(r) => Usable(r)
  }

  function OrZero(x: Option<real>): real {
    if x.Some? then x.value else 0.0
  }

  function Weight(r: NodeResult): real {
    if Usable(r) then r.total.value else 0.0
  }

  /** Usable totals of nodes outside every group. */
  function UnassignedTotal(results: seq<NodeResult>, names: seq<string>): real {
    if results == [] then 0.0
    else (if results[0].id in names then 0.0 else Weight(results[0])) + UnassignedTotal(results[1..], names)
  }

  function WeightOf(results: seq<NodeResult>, id: string): real {
    match Find(results, id) case Some(r) => Weight(r) case None => 0.0
  }

  function NamesWeight(names: seq<string>, results: seq<NodeResult>): real {
    if names == [] then 0.0 else WeightOf(results, names[0]) + NamesWeight(names[1..], results)
  }

  function JobWeight(results: seq<NodeResult>): real {
    if results == [] then 0.0 else Weight(results[0]) + JobWeight(results[1..])
  }

  lemma {:induction false} UsableSum(results: seq<NodeResult>)
    ensures R.Sum(UsableTotals(results)) == JobWeight(results) == OrZero(SumBytes(UsableTotals(results)))
  {
    if results != [] {
      UsableSum(results[1..]);
      assert [] + UsableTotals(results[1..]) == UsableTotals(results[1..]);
      if Usable(results[0]) { assert UsableTotals(results)[1..] == UsableTotals(results[1..]); }
    }
  }

  lemma {:induction false} NamesConcat(a: seq<string>, b: seq<string>, results: seq<NodeResult>)
    ensures NamesWeight(a + b, results) == NamesWeight(a, results) + NamesWeight(b, results)
  {
    if a == [] {
      assert a + b == b;
    } else {
      NamesConcat(a[1..], b, results);
      assert (a + b)[1..] == a[1..] + b;
    }
  }

  /** What the balance of a group says about its nodes, one by one. */
  ghost predicate GroupFacts(b: GroupBalance, g: Group, results: seq<NodeResult>, jobTotal: Option<real>, compatible: bool) {
    && b.id == g.id && b.nodes == g.nodes && b.nodeCount == |g.nodes|
    && b.validCount == CountWhere(g.nodes, id => Contributes(results, id))
    && b.missing == Filter(g.nodes, id => Absent(results, id))
    && b.total == (if compatible && b.validCount > 0 then Some(NamesWeight(g.nodes, results)) else None)
    && (b.share.Some? <==> b.total.Some? && jobTotal.Some? && jobTotal.value > 0.0)
    && (b.share.Some? ==> b.share.value * jobTotal.value == b.total.value)
  }

  lemma {:induction false} CountSnoc(names: seq<string>, n: string, p: string -> bool)
    ensures CountWhere(names + [n], p) == CountWhere(names, p) + if p(n) then 1 else 0
  {
    if names == [] {
      assert names + [n] == [n];
    } else {
      CountSnoc(names[1..], n, p);
      assert (names + [n])[1..] == names[1..] + [n];
    }
  }

  lemma {:induction false} FilterOne(n: string, p: string -> bool)
    ensures Filter([], p) == [] && Filter([n], p) == if p(n) then [n] else []
  {
  }

  lemma {:induction false} FilterSnoc(names: seq<string>, n: string, p: string -> bool)
    ensures Filter(names + [n], p) == Filter(names, p) + if p(n) then [n] else []
  {
    hide Filter;
    FilterOne(n, p);
    if names == [] {
      assert names + [n] == [n];
    } else {
      FilterSnoc(names[1..], n, p);
      FilterCons(names[0], names[1..] + [n], p);
      FilterCons(names[0], names[1..], p);
      assert names == [names[0]] + names[1..] && names + [n] == [names[0]] + (names[1..] + [n]);
    }
  }

  lemma {:induction false} NamesSnoc(names: seq<string>, n: string, results: seq<NodeResult>)
    ensures NamesWeight(names + [n], results) == NamesWeight(names, results) + WeightOf(results, n)
  {
    NamesConcat(names, [n], results);
    assert NamesWeight([n], results) == WeightOf(results, n) + NamesWeight([], results);
  }

  lemma {:induction false} NothingContributes(names: seq<string>, results: seq<NodeResult>)
    requires CountWhere(names, id => Contributes(results, id)) == 0
    ensures NamesWeight(names, results) == 0.0
  {
    if names != [] { NothingContributes(names[1..], results); }
  }

  /** The nodes of a group are looked up one by one; their usable totals are added, and missing nodes listed. */
  method GroupResult(g: Group, results: seq<NodeResult>, jobTotal: Option<real>, compatible: bool) returns (b: GroupBalance)
    ensures GroupFacts(b, g, results, jobTotal, compatible)
  {
    hide CountWhere, Filter, NamesWeight, R.Sum;
    var totals: seq<real> := [];
    var missing: seq<string> := [];
    NoNodes(results);
    var i := 0;
    while i < |g.nodes|
      invariant 0 <= i <= |g.nodes|
      invariant |totals| == CountWhere(g.nodes[..i], id => Contributes(results, id))
      invariant missing == Filter(g.nodes[..i], id => Absent(results, id))
      invariant R.Sum(totals) == NamesWeight(g.nodes[..i], results)
    {
      var node := g.nodes[i];
      assert g.nodes[..i + 1] == g.nodes[..i] + [node];
      CountSnoc(g.nodes[..i], node, id => Contributes(results, id));
      FilterSnoc(g.nodes[..i], node, id => Absent(results, id));
      NamesSnoc(g.nodes[..i], node, results);
      var result := Find(results, node);
      if result.Some? && result.value.total.Some? && result.value.status != NodeUnsupported {
        SumSnoc(totals, result.value.total.value);
        totals := totals + [result.value.total.value];
      }
      if result.None? || result.value.status == NodeMissing {
        missing := missing + [node];
      }
      i := i + 1;
    }
    assert g.nodes[..i] == g.nodes;
    var total := if totals != [] && compatible then Some(R.Sum(totals)) else None;
    var share := if total.Some? && jobTotal.Some? && jobTotal.value > 0.0 then Some(total.value / jobTotal.value) else None;
    b := GroupBalance(g.id, g.nodes, missing, total, share, |g.nodes|, |totals|);
  }

  lemma {:induction false} NoNodes(results: seq<NodeResult>)
    ensures CountWhere([], id => Contributes(results, id)) == 0 && Filter([], id => Absent(results, id)) == []
    ensures R.Sum([]) == NamesWeight([], results) == 0.0
  {
  }

  lemma {:induction false} SumSnoc(values: seq<real>, x: real)
    ensures R.Sum(values + [x]) == R.Sum(values) + x
  {
    R.Concat(values, [x]);
    assert R.Sum([x]) == x + R.Sum([]);
  }

  /** Balances of all groups: valid and missing nodes, the total of the usable ones, and its share of the job. */
  method TopologyGroupResults(groups: seq<Group>, results: seq<NodeResult>, jobTotal: Option<real>, compatible: bool)
    returns (balances: seq<GroupBalance>)
    ensures |balances| == |groups|
    ensures forall i :: 0 <= i < |groups| ==> GroupFacts(balances[i], groups[i], results, jobTotal, compatible)
  {
    hide GroupFacts;
    balances := [];
    for i := 0 to |groups|
      invariant |balances| == i
      invariant forall k :: 0 <= k < i ==> GroupFacts(balances[k], groups[k], results, jobTotal, compatible)
    {
      var b := GroupResult(groups[i], results, jobTotal, compatible);
      balances := balances + [b];
    }
  }

  lemma {:induction false} NamesWithoutFirst(names: seq<string>, results: seq<NodeResult>)
    requires results != [] && Find(results[1..], results[0].id) == None
    requires multiset(names)[results[0].id] <= 1
    ensures NamesWeight(names, results)
         == NamesWeight(names, results[1..]) + if results[0].id in names then Weight(results[0]) else 0.0
  {
    if names != [] {
      assert names == [names[0]] + names[1..];
      assert results[0].id in names[1..] <==> multiset(names[1..])[results[0].id] > 0;
      NamesWithoutFirst(names[1..], results);
    }
  }

  lemma {:induction false} FindAbsent(results: seq<NodeResult>, id: string)
    requires forall i :: 0 <= i < |results| ==> results[i].id != id
    ensures Find(results, id) == None
  {
    if results != [] { FindAbsent(results[1..], id); }
  }

  lemma {:induction false} NamesOfNothing(names: seq<string>)
    ensures NamesWeight(names, []) == 0.0
  {
    if names != [] { NamesOfNothing(names[1..]); }
  }

  lemma {:induction false} NamesConserve(results: seq<NodeResult>, names: seq<string>)
    requires forall i, j :: 0 <= i < j < |results| ==> results[i].id != results[j].id
    requires forall n :: multiset(names)[n] <= 1
    ensures NamesWeight(names, results) + UnassignedTotal(results, names) == JobWeight(results)
  {
    if results == [] {
      NamesOfNothing(names);
    } else {
      assert forall i :: 0 <= i < |results[1..]| ==> results[1..][i] == results[i + 1];
      NamesConserve(results[1..], names);
      FindAbsent(results[1..], results[0].id);
      NamesWithoutFirst(names, results);
    }
  }

  function BalancesTotal(balances: seq<GroupBalance>): real {
    if balances == [] then 0.0 else OrZero(balances[0].total) + BalancesTotal(balances[1..])
  }

  lemma {:induction false} BalancesAreNames(balances: seq<GroupBalance>, groups: seq<Group>, results: seq<NodeResult>, jobTotal: Option<real>)
    requires |balances| == |groups|
    requires forall i :: 0 <= i < |groups| ==> GroupFacts(balances[i], groups[i], results, jobTotal, true)
    ensures BalancesTotal(balances) == NamesWeight(Flat(groups), results)
  {
    if groups != [] {
      hide CountWhere, Filter;
      BalancesAreNames(balances[1..], groups[1..], results, jobTotal);
      NamesConcat(groups[0].nodes, Flat(groups[1..]), results);
      assert GroupFacts(balances[0], groups[0], results, jobTotal, true);
      if balances[0].validCount == 0 { NothingContributes(groups[0].nodes, results); }
    }
  }

  lemma {:induction false} UnassignedSame(results: seq<NodeResult>, a: seq<string>, b: seq<string>)
    requires multiset(a) == multiset(b)
    ensures UnassignedTotal(results, a) == UnassignedTotal(results, b)
  {
    if results != [] {
      UnassignedSame(results[1..], a, b);
      assert results[0].id in a <==> results[0].id in multiset(a);
      assert results[0].id in b <==> results[0].id in multiset(b);
    }
  }

  /** For an accepted topology, whose groups are reported in order of their names, and compatible results, the group
      totals and the totals of unassigned nodes add up to the job total. */
  lemma {:induction false} GroupsConserveTraffic(topology: seq<Group>, results: seq<NodeResult>, balances: seq<GroupBalance>)
    requires WellFormed(results) && forall n :: multiset(Flat(topology))[n] <= 1
    requires |balances| == |topology|
    requires forall i :: 0 <= i < |topology| ==>
               GroupFacts(balances[i], Sort(topology, ById)[i], results, Analyze(results, true).total, true)
    ensures BalancesTotal(balances) + UnassignedTotal(results, Flat(topology)) == OrZero(Analyze(results, true).total)
  {
    hide GroupFacts, NearestRank, TopSum, Effective, UnassignedTotal, WeightOf, NamesWeight, Flat, Sort;
    var groups := Sort(topology, ById);
    BalancesAreNames(balances, groups, results, Analyze(results, true).total);
    SortKeepsNodes(topology);
    NamesConserve(results, Flat(groups));
    UnassignedSame(results, Flat(groups), Flat(topology));
    UsableSum(results);
  }

  // ---------------------------------------------------------------- order statistics

  function NearestRank(values: seq<real>, p: real): Option<real>
    requires 0.0 < p <= 1.0
  {
    if values == [] then None
    else
      RankInRange(p, |values|);
      Some(Sort(values, R.Leq)[RankIndex(p, |values|)])
  }

  function AtMost(v: real): real -> bool {
    x => x <= v
  }

  function Below(v: real): real -> bool {
    x => x < v
  }

  /** The defining counts of a nearest-rank quantile. */
  predicate IsQuantile(values: seq<real>, p: real, v: real) {
    && v in values
    && CountWhere(values, Below(v)) as real < Share(p, |values|) <= CountWhere(values, AtMost(v)) as real
  }

  lemma {:induction false} NearestRankIsQuantile(values: seq<real>, p: real)
    requires 0.0 < p <= 1.0 && values != []
    ensures IsQuantile(values, p, NearestRank(values, p).value)
  {
    hide Sort, CountWhere, Share, RankIndex;
    RankInRange(p, |values|);
    var s, i := Sort(values, R.Leq), RankIndex(p, |values|);
    var v := s[i];
    R.OrdersAreTotal();
    SortSorts(values, R.Leq);
    SortSameElements(values, R.Leq, v);
    SortKeepsCount(values, R.Leq, Below(v));
    SortKeepsCount(values, R.Leq, AtMost(v));
    forall j, k | 0 <= j < k < |s| ensures s[j] <= s[k] { assert R.Leq(s[j], s[k]); }
    CountIsPrefix(s, Below(v), i);
    CountIsPrefix(s, AtMost(v), i);
  }

  lemma {:induction false} CountMonotone(values: seq<real>, p: real -> bool, q: real -> bool)
    requires forall x :: p(x) ==> q(x)
    ensures CountWhere(values, p) <= CountWhere(values, q)
  {
    if values != [] { CountMonotone(values[1..], p, q); }
  }

  lemma {:induction false} QuantilesCompare(values: seq<real>, p: real, q: real, u: real, v: real)
    requires IsQuantile(values, p, u) && IsQuantile(values, q, v) && p <= q
    ensures u <= v
  {
    hide CountWhere, Share;
    ShareMonotone(p, q, |values|);
    if v < u {
      CountMonotone(values, AtMost(v), Below(u));
    }
  }

  /** The nearest-rank quantile is the one element with these counts. */
  lemma {:induction false} QuantileIsUnique(values: seq<real>, p: real, v: real)
    requires 0.0 < p <= 1.0 && values != []
    ensures IsQuantile(values, p, v) <==> NearestRank(values, p) == Some(v)
  {
    hide IsQuantile, NearestRank;
    RankIsSome(values, p);
    NearestRankIsQuantile(values, p);
    var u := NearestRank(values, p).value;
    if IsQuantile(values, p, v) {
      QuantilesCompare(values, p, p, u, v);
      QuantilesCompare(values, p, p, v, u);
    }
  }

  lemma {:induction false} RankIsSome(values: seq<real>, p: real)
    requires 0.0 < p <= 1.0 && values != []
    ensures NearestRank(values, p).Some?
  {
  }

  // ---------------------------------------------------------------- shares and concentration

  function ObservedTotals(results: seq<NodeResult>): seq<real> {
    if results == [] then [] else (if results[0].total.Some? then [results[0].total.value] else []) + ObservedTotals(results[1..])
  }

  function Scaled(values: seq<real>, total: real): seq<real>
    requires total > 0.0
  {
    if values == [] then [] else [values[0] / total] + Scaled(values[1..], total)
  }

  function HotspotCount(n: nat): nat {
    var k := Ceil(HOTSPOT_TOP_FRACTION * n as real);
    if k < 1 then 1 else k
  }

  /** Sum of the `k` largest values. */
  function TopSum(values: seq<real>, k: nat): real {
    var descending := Sort(values, R.Geq);
    R.Sum(if k <= |descending| then descending[..k] else descending)
  }

  function Effective(shares: seq<real>): Option<real> {
    if R.SumSquares(shares) == 0.0 then None else Some(1.0 / R.SumSquares(shares))
  }

  function Analyze(results: seq<NodeResult>, compatible: bool): JobBalance {
    var totals := if compatible then UsableTotals(results) else [];
    var total := SumBytes(totals);
    var shares := if compatible && total.Some? && total.value > 0.0 then Scaled(ObservedTotals(results), total.value) else [];
    JobBalance(total, shares,
               if total.Some? && total.value > 0.0 then Effective(shares) else None,
               NearestRank(totals, 0.5), NearestRank(totals, 0.99),
               if shares == [] then None else Some(HotspotCount(|shares|)),
               if shares == [] then None else Some(TopSum(shares, HotspotCount(|shares|))))
  }

  /** The reported quantiles are those of the usable totals, the median and the 99th percentile in this order. */
  lemma {:induction false} ReportedQuantiles(results: seq<NodeResult>)
    ensures var j, totals := Analyze(results, true), UsableTotals(results);
            && (j.p50.Some? <==> exists i :: 0 <= i < |results| && results[i].total.Some? && results[i].status != NodeUnsupported)
            && (j.p99.Some? <==> j.p50.Some?)
            && (j.p50.Some? ==> IsQuantile(totals, 0.5, j.p50.value) && IsQuantile(totals, 0.99, j.p99.value) && j.p50.value <= j.p99.value)
    ensures Analyze(results, false).p50 == None && Analyze(results, false).p99 == None
  {
    hide IsQuantile, Scaled, TopSum, Effective, ObservedTotals;
    var totals := UsableTotals(results);
    SomeUsable(results);
    if totals != [] {
      NearestRankIsQuantile(totals, 0.5);
      NearestRankIsQuantile(totals, 0.99);
      QuantilesCompare(totals, 0.5, 0.99, NearestRank(totals, 0.5).value, NearestRank(totals, 0.99).value);
    }
  }

  lemma {:induction false} SomeUsable(results: seq<NodeResult>)
    ensures UsableTotals(results) != [] <==> exists i :: 0 <= i < |results| && results[i].total.Some? && results[i].status != NodeUnsupported
  {
    if results != [] {
      SomeUsable(results[1..]);
      assert forall i :: 0 <= i < |results[1..]| ==> results[1..][i] == results[i + 1];
      assert forall i :: 0 < i < |results| ==> results[i] == results[1..][i - 1];
    }
  }

  function UnsupportedTotal(results: seq<NodeResult>): real {
    if results == [] then 0.0
    else (if results[0].total.Some? && results[0].status == NodeUnsupported then results[0].total.value else 0.0)
         + UnsupportedTotal(results[1..])
  }

  lemma {:induction false} ObservedSum(results: seq<NodeResult>)
    requires WellFormed(results)
    ensures R.Sum(ObservedTotals(results)) == JobWeight(results) + UnsupportedTotal(results)
    ensures UnsupportedTotal(results) >= 0.0 && R.Nonnegative(ObservedTotals(results))
  {
    if results != [] {
      assert forall i :: 0 <= i < |results[1..]| ==> results[1..][i] == results[i + 1];
      ObservedSum(results[1..]);
      var rest := ObservedTotals(results[1..]);
      if results[0].total.Some? {
        assert ([results[0].total.value] + rest)[1..] == rest;
      } else {
        assert [] + rest == rest;
      }
    }
  }

  lemma {:induction false} ScaledSum(values: seq<real>, total: real)
    requires total > 0.0
    ensures |Scaled(values, total)| == |values|
    ensures R.Sum(Scaled(values, total)) == R.Sum(values) / total
    ensures R.Nonnegative(values) ==> R.Nonnegative(Scaled(values, total))
    ensures R.Nonnegative(values) ==> R.Positives(Scaled(values, total)) == R.Positives(values)
  {
    if values != [] {
      ScaledSum(values[1..], total);
      R.AddQuotients(values[0], R.Sum(values[1..]), total);
      QuotientSign(values[0], total);
    }
  }

  lemma {:induction false} QuotientSign(a: real, t: real)
    requires t > 0.0
    ensures a >= 0.0 ==> a / t >= 0.0
    ensures a > 0.0 <==> a / t > 0.0
  {
  }

  /** Reported shares sum to one plus what nodes without support contribute to them; so they sum to one exactly
      when no such node has traffic. */
  lemma {:induction false} SharesSum(results: seq<NodeResult>)
    requires WellFormed(results)
    ensures var j := Analyze(results, true);
            j.total.Some? && j.total.value > 0.0 ==>
              && R.Sum(j.shares) == 1.0 + UnsupportedTotal(results) / j.total.value
              && (R.Sum(j.shares) == 1.0 <==> UnsupportedTotal(results) == 0.0)
              && R.Nonnegative(j.shares) && R.Sum(j.shares) >= 1.0
  {
    hide R.Sum, ObservedTotals, UsableTotals, UnsupportedTotal, Scaled, R.Nonnegative, NearestRank, TopSum, Effective;
    UsableSum(results);
    ObservedSum(results);
    var total := SumBytes(UsableTotals(results));
    if total.Some? && total.value > 0.0 {
      ScaledSum(ObservedTotals(results), total.value);
      Excess(total.value, UnsupportedTotal(results));
    }
  }

  lemma {:induction false} Excess(t: real, u: real)
    requires t > 0.0 && u >= 0.0
    ensures (t + u) / t == 1.0 + u / t >= 1.0
    ensures u / t == 0.0 <==> u == 0.0
  {
    R.AddQuotients(t, u, t);
    QuotientSign(u, t);
  }

  /** With an unsupported node's traffic among the shares, the effective node count can drop below one. */
  lemma {:induction false} UnsupportedBreaksEffectiveCount()
    ensures var s := Support("r", "tx", "c", (0, 1), (0, 1), []);
            var results := [NodeResult("a", NodeOk, Some(1.0), s), NodeResult("b", NodeUnsupported, Some(1.0), s)];
            var j := Analyze(results, true);
            && WellFormed(results) && Agree(results)
            && R.Sum(j.shares) == 2.0 && j.effectiveNodes == Some(0.5)
  {
    hide NearestRank, TopSum;
    var s := Support("r", "tx", "c", (0, 1), (0, 1), []);
    var a, b := NodeResult("a", NodeOk, Some(1.0), s), NodeResult("b", NodeUnsupported, Some(1.0), s);
    var results := [a, b];
    assert results[1..] == [b] && results[1..][1..] == [];
    assert UsableTotals([]) == [] && UsableTotals([b]) == [];
    assert UsableTotals(results) == [1.0];
    assert R.Sum([1.0]) == 1.0;
    assert ObservedTotals([b]) == [1.0];
    assert ObservedTotals(results) == [1.0, 1.0];
    assert [1.0, 1.0][1..] == [1.0];
    assert Scaled([1.0], 1.0) == [1.0];
    assert Scaled([1.0, 1.0], 1.0) == [1.0, 1.0];
    assert R.SumSquares([1.0]) == 1.0;
    assert R.SumSquares([1.0, 1.0]) == 2.0;
  }

  lemma {:induction false} ScaledSquares(values: seq<real>, total: real)
    requires total > 0.0
    ensures R.SumSquares(Scaled(values, total)) * R.Square(total) == R.SumSquares(values)
  {
    if values != [] {
      hide R.Square;
      ScaledSquares(values[1..], total);
      QuotientSquare(values[0], total);
      var q, rest := R.Square(values[0] / total), R.SumSquares(Scaled(values[1..], total));
      assert (q + rest) * R.Square(total) == q * R.Square(total) + rest * R.Square(total);
    }
  }

  lemma {:induction false} QuotientSquare(v: real, t: real)
    requires t > 0.0
    ensures R.Square(v / t) * R.Square(t) == R.Square(v)
  {
    var q := v / t;
    assert q * t == v;
    assert (q * q) * (t * t) == (q * t) * (q * t);
  }

  /** The effective node count never exceeds the number of nodes with traffic, and is at least one exactly when
      the squares of the observed totals sum to no more than the square of the job total; in particular when no
      unsupported node has traffic. */
  lemma {:induction false} EffectiveCountBounds(results: seq<NodeResult>)
    requires WellFormed(results)
    ensures var j := Analyze(results, true);
            j.total.Some? && j.total.value > 0.0 ==>
              && j.effectiveNodes.Some? && j.effectiveNodes.value <= R.Positives(ObservedTotals(results)) as real
              && (1.0 <= j.effectiveNodes.value <==> R.SumSquares(ObservedTotals(results)) <= R.Square(j.total.value))
              && (UnsupportedTotal(results) == 0.0 ==> 1.0 <= j.effectiveNodes.value)
  {
    hide *;
    SharesSum(results);
    var j := Analyze(results, true);
    if j.total.Some? && j.total.value > 0.0 {
      var observed := ObservedTotals(results);
      ObservedSum(results);
      SharesAreScaled(results);
      ScaledSum(observed, j.total.value);
      ScaledSquares(observed, j.total.value);
      R.SquaresBelow(j.shares);
      R.CauchySchwarz(j.shares);
      SquareOfAtLeastOne(R.Sum(j.shares));
      SquareIsPositive(j.total.value);
      InverseBounds(R.SumSquares(j.shares), R.Positives(j.shares) as real, R.SumSquares(observed), R.Square(j.total.value));
    }
  }

  lemma {:induction false} SharesAreScaled(results: seq<NodeResult>)
    ensures var j := Analyze(results, true);
            j.total.Some? && j.total.value > 0.0 ==>
              && j.shares == Scaled(ObservedTotals(results), j.total.value)
              && (R.SumSquares(j.shares) > 0.0 ==> j.effectiveNodes == Some(1.0 / R.SumSquares(j.shares)))
  {
    hide R.SumSquares, ObservedTotals, UsableTotals, Scaled, NearestRank, TopSum, SumBytes;
  }

  lemma {:induction false} InverseBounds(q: real, n: real, squares: real, s: real)
    requires 1.0 <= n * q && n >= 0.0 && s > 0.0 && q * s == squares
    ensures q > 0.0 && 1.0 / q <= n
    ensures 1.0 <= 1.0 / q <==> q <= 1.0
    ensures q <= 1.0 <==> squares <= s
  {
    Inverse(q, n);
    AtMostOne(q, s);
  }

  lemma {:induction false} SquareOfAtLeastOne(s: real)
    ensures s >= 1.0 ==> R.Square(s) >= 1.0
    ensures s == 1.0 ==> R.Square(s) == 1.0
  {
    if s >= 1.0 { R.MulMonotone(1.0, s, s); }
  }

  lemma {:induction false} SquareIsPositive(t: real)
    requires t > 0.0
    ensures R.Square(t) > 0.0
  {
    assert R.Square(t) / t == t;
  }

  lemma {:induction false} AtMostOne(q: real, s: real)
    requires s > 0.0
    ensures q <= 1.0 <==> q * s <= s
  {
    if q <= 1.0 {
      R.MulMonotone(q, 1.0, s);
    } else {
      Exceeds(q, s);
    }
  }

  lemma {:induction false} Exceeds(q: real, s: real)
    requires q > 1.0 && s > 0.0
    ensures q * s > s
  {
    assert q * s - s == (q - 1.0) * s;
  }

  lemma {:induction false} Inverse(q: real, n: real)
    requires 1.0 <= n * q && n >= 0.0
    ensures q > 0.0 && 1.0 / q <= n
    ensures 1.0 <= 1.0 / q <==> q <= 1.0
  {
    Factor(n, q);
    var r := 1.0 / q;
    assert r * q == 1.0;
    if n < r { Shrinks(n, r, q); }
    AtMostOne(q, r);
  }

  lemma {:induction false} Factor(n: real, q: real)
    requires n >= 0.0
    ensures q <= 0.0 ==> n * q <= 0.0
  {
  }

  lemma {:induction false} Shrinks(a: real, b: real, q: real)
    requires a < b && q > 0.0
    ensures a * q < b * q
  {
    assert b * q - a * q == (b - a) * q;
  }

  lemma {:induction false} HotspotCountInRange(n: nat)
    requires n > 0
    ensures 1 <= HotspotCount(n) <= n
  {
  }

  /** No selection of as many nodes carries a larger share than the hotspot concentration, which is at least the
      proportional part of all shares. */
  lemma {:induction false} HotspotIsLargest(results: seq<NodeResult>, selection: seq<real>)
    requires var j := Analyze(results, true);
             j.hotspot.Some? && R.Within(selection, j.shares) && Some(|selection|) == j.hotspotCount
    ensures var j := Analyze(results, true);
            && R.Sum(selection) <= j.hotspot.value
            && j.hotspot.value * |j.shares| as real >= j.hotspotCount.value as real * R.Sum(j.shares)
  {
    hide R.Sum, Effective, NearestRank, UsableTotals, ObservedTotals, Scaled, Sort, HotspotCount;
    var shares := Analyze(results, true).shares;
    TopSumIsLargest(shares, selection);
  }

  lemma {:induction false} TopSumIsLargest(shares: seq<real>, selection: seq<real>)
    requires shares != [] && R.Within(selection, shares) && |selection| == HotspotCount(|shares|)
    ensures R.Sum(selection) <= TopSum(shares, |selection|)
    ensures TopSum(shares, |selection|) * |shares| as real >= |selection| as real * R.Sum(shares)
  {
    hide R.Sum, Sort, HotspotCount;
    HotspotCountInRange(|shares|);
    R.OrdersAreTotal();
    SortSorts(shares, R.Geq);
    SortPermutes(shares, R.Geq);
    R.SortSum(shares, R.Geq);
    R.PrefixIsLargest(Sort(shares, R.Geq), selection);
    R.PrefixAboveAverage(Sort(shares, R.Geq), |selection|);
  }

  /** The hotspot takes the least number of nodes, at least one, that makes up one percent of them; its share is that
      of some selection of as many nodes. */
  lemma {:induction false} HotspotMeans(results: seq<NodeResult>)
    ensures var j := Analyze(results, true);
            && (j.hotspot.Some? <==> j.shares != []) && (j.hotspotCount.Some? <==> j.shares != [])
            && (j.shares != [] ==>
                  var n, k := |j.shares| as real, j.hotspotCount.value;
                  && 1 <= k <= |j.shares| && 0.01 * n <= k as real && (k == 1 || (k - 1) as real < 0.01 * n)
                  && exists selection :: R.Within(selection, j.shares) && |selection| == k && R.Sum(selection) == j.hotspot.value)
  {
    hide R.Sum, Effective, NearestRank, UsableTotals, ObservedTotals, Scaled, Sort, SumBytes;
    var shares := Analyze(results, true).shares;
    if shares != [] {
      HotspotCountInRange(|shares|);
      SortPermutes(shares, R.Geq);
      var ordered := Sort(shares, R.Geq);
      var k := HotspotCount(|shares|);
      PrefixWithin(ordered, shares, k);
      assert R.Sum(ordered[..k]) == Analyze(results, true).hotspot.value;
    }
  }

  lemma {:induction false} PrefixWithin(ordered: seq<real>, values: seq<real>, k: nat)
    requires multiset(ordered) == multiset(values) && k <= |ordered|
    ensures R.Within(ordered[..k], values)
  {
    assert ordered == ordered[..k] + ordered[k..];
  }

  lemma {:induction false} ScaledAt(values: seq<real>, total: real)
    requires total > 0.0
    ensures |Scaled(values, total)| == |values|
    ensures forall i :: 0 <= i < |values| ==> Scaled(values, total)[i] * total == values[i]
  {
    if values != [] { ScaledAt(values[1..], total); }
  }

  /** Shares are reported exactly when the job has traffic, one per node with a total, and are its parts of the job
      total; nothing is reported for results that do not agree. */
  lemma {:induction false} SharesMean(results: seq<NodeResult>)
    ensures var j, observed := Analyze(results, true), ObservedTotals(results);
            && (j.total.Some? <==> j.p50.Some?)
            && (j.total.Some? && j.total.value > 0.0 ==>
                  |j.shares| == |observed| > 0 && forall i :: 0 <= i < |observed| ==> j.shares[i] * j.total.value == observed[i])
            && (j.total.None? || j.total.value <= 0.0 ==> j.shares == [] && j.effectiveNodes == None)
    ensures Analyze(results, false) == JobBalance(None, [], None, None, None, None, None)
  {
    hide Scaled, TopSum, Effective, R.Sum, Sort, RankIndex;
    SomeObserved(results);
    var total := SumBytes(UsableTotals(results));
    if total.Some? && total.value > 0.0 { ScaledAt(ObservedTotals(results), total.value); }
  }

  lemma {:induction false} SomeObserved(results: seq<NodeResult>)
    ensures UsableTotals(results) != [] ==> ObservedTotals(results) != []
  {
    if results != [] { SomeObserved(results[1..]); }
  }

  /** Looking up a node among results keyed by node: it is absent when there is no result, or one that is marked
      missing, and contributes when its result has a total and is supported. */
  lemma {:induction false} LookupMeans(results: seq<NodeResult>, id: string)
    requires WellFormed(results)
    ensures Absent(results, id) <==> forall i :: 0 <= i < |results| && results[i].id == id ==> results[i].status == NodeMissing
    ensures Contributes(results, id) <==>
              exists i :: 0 <= i < |results| && results[i].id == id && results[i].total.Some? && results[i].status != NodeUnsupported
    ensures forall i :: 0 <= i < |results| && results[i].id == id && Contributes(results, id) ==> WeightOf(results, id) == results[i].total.value
    ensures !Contributes(results, id) ==> WeightOf(results, id) == 0.0
  {
    if results != [] {
      var rest := results[1..];
      assert forall i :: 0 <= i < |rest| ==> rest[i] == results[i + 1];
      assert forall i :: 0 < i < |results| ==> results[i] == rest[i - 1];
      if results[0].id != id { LookupMeans(rest, id); }
    }
  }

  // ---------------------------------------------------------------- unknown nodes

  /** The known population, as computed: supplied and mapped nodes, and every observed one. */
  function Known(observed: set<string>, supplied: set<string>, mapped: set<string>): set<string> {
    supplied + mapped + observed
  }

  function UnknownObserved(observed: set<string>, supplied: set<string>, mapped: set<string>): set<string> {
    observed - Known(observed, supplied, mapped)
  }

  /** The documentation says that observed nodes outside the known population are reported as unknown.  None ever
      is, so the report is right exactly when there is nothing to report. */
  lemma {:induction false} UnknownNeverReported(observed: set<string>, supplied: set<string>, mapped: set<string>)
    ensures UnknownObserved(observed, supplied, mapped) == {}
    ensures UnknownObserved(observed, supplied, mapped) == observed - (supplied + mapped) <==> observed <= supplied + mapped
  {
  }

  /** One node observed besides the one that was supplied. */
  lemma {:induction false} UnknownNodeNotReported()
    ensures UnknownObserved({"a", "b"}, {"a"}, {}) == {} && "b" in {"a", "b"} - ({"a"} + {})
  {
  }
}
