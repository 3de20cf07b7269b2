/** Topology groups of a job: which mappings are accepted, and that group totals lose no traffic. */
module JobTopology {
  import opened Wrappers
  import opened Sorting
  import StringOrder

  datatype Group = Group(id: string, nodes: seq<string>)

  /** `BadValue` stands for the exception, `EmptyGroup` and `Overlap` for the two invalid states. */
  datatype Verdict = Absent | BadValue | EmptyGroup | Overlap(duplicates: seq<string>) | Accepted(groups: seq<Group>)

  predicate ById(a: Group, b: Group) {
    StringOrder.Leq(a.id, b.id)
  }

  function Flat(groups: seq<Group>): seq<string> {
    if groups == [] then [] else groups[0].nodes + Flat(groups[1..])
  }

  function FaultOf(g: Group): Option<Verdict> {
    if g.id == "" then Some(BadValue)
    else if g.nodes == [] then Some(EmptyGroup)
    else if "" in g.nodes then Some(BadValue)
    else None
  }

  function FirstFault(groups: seq<Group>): Option<Verdict> {
    if groups == [] then None
    else if FaultOf(groups[0]).Some? then FaultOf(groups[0])
    else FirstFault(groups[1..])
  }

  /** The names assigned more than once, each listed once and in order. */
  ghost predicate Duplicates(groups: seq<Group>, ds: seq<string>) {
    && Sorted(ds, StringOrder.Leq) && Pairwise(ds, Different)
    && forall n :: n in ds <==> multiset(Flat(groups))[n] > 1
  }

  /** The assignment table after a list of names: every name so far, in first-seen order, with one entry per occurrence. */
  ghost predicate Tally(assignments: map<string, seq<string>>, order: seq<string>, names: seq<string>) {
    && Pairwise(order, Different)
    && (forall n :: n in order <==> n in assignments)
    && (forall n :: n in assignments <==> n in names)
    && (forall n :: n in assignments ==> |assignments[n]| == multiset(names)[n])
  }

  /** Adds one group to the assignment of a name. */
  method Assign(assignments: map<string, seq<string>>, order: seq<string>, name: string, group: string, ghost names: seq<string>)
    returns (a: map<string, seq<string>>, o: seq<string>)
    requires Tally(assignments, order, names)
    ensures Tally(a, o, names + [name])
  {
    ghost var after := names + [name];
    assert forall n :: multiset(after)[n] == multiset(names)[n] + if n == name then 1 else 0;
    assert forall n :: n in after <==> n in names || n == name;
    if name in assignments {
      a, o := assignments[name := assignments[name] + [group]], order;
    } else {
      assert multiset(names)[name] == 0;
      a, o := assignments[name := [group]], order + [name];
    }
  }

  /** Assigns all nodes of a group, unless one of them has no name. */
  method AssignAll(assignments: map<string, seq<string>>, order: seq<string>, g: Group, ghost names: seq<string>)
    returns (ok: bool, a: map<string, seq<string>>, o: seq<string>)
    requires Tally(assignments, order, names)
    ensures ok <==> "" !in g.nodes
    ensures ok ==> Tally(a, o, names + g.nodes)
  {
    hide Tally;
    a, o := assignments, order;
    assert names + g.nodes[..0] == names;
    for j := 0 to |g.nodes|
      invariant "" !in g.nodes[..j] && Tally(a, o, names + g.nodes[..j])
    {
      if g.nodes[j] == "" { return false, a, o; }
      assert names + g.nodes[..j + 1] == names + g.nodes[..j] + [g.nodes[j]];
      a, o := Assign(a, o, g.nodes[j], g.id, names + g.nodes[..j]);
    }
    assert g.nodes[..|g.nodes|] == g.nodes;
    return true, a, o;
  }

  lemma {:induction false} FaultOfPrefix(groups: seq<Group>, i: nat)
    requires i < |groups| && FirstFault(groups[..i]) == None
    ensures FirstFault(groups[..i + 1]) == FaultOf(groups[i])
    ensures FaultOf(groups[i]).Some? ==> FirstFault(groups) == FaultOf(groups[i])
    decreases i
  {
    if i > 0 {
      assert groups[..i][1..] == groups[1..][..i - 1] && groups[..i + 1][1..] == groups[1..][..i];
      FaultOfPrefix(groups[1..], i - 1);
    }
  }

  lemma {:induction false} FlatSnoc(groups: seq<Group>, i: nat)
    requires i < |groups|
    ensures Flat(groups[..i + 1]) == Flat(groups[..i]) + groups[i].nodes
    decreases i
  {
    if i > 0 {
      assert groups[..i][1..] == groups[1..][..i - 1] && groups[..i + 1][1..] == groups[1..][..i];
      FlatSnoc(groups[1..], i - 1);
    } else {
      assert groups[..1][1..] == [];
    }
  }

  /** A mapping is accepted exactly when every group is well formed and no node is assigned twice; otherwise the
      first malformed group decides, and an overlap lists exactly the nodes assigned more than once. */
  method ValidateTopology(topology: Option<seq<Group>>) returns (v: Verdict)
    ensures topology.None? ==> v == Absent
    ensures topology.Some? && FirstFault(topology.value).Some? ==> v == FirstFault(topology.value).value
    ensures topology.Some? && FirstFault(topology.value).None? ==>
              if exists n :: multiset(Flat(topology.value))[n] > 1
              then v.Overlap? && Duplicates(topology.value, v.duplicates)
              else v == Accepted(Sort(topology.value, ById))
  {
    hide Tally, Duplicates, Flat, Sort, FirstFault;
    if topology.None? { return Absent; }
    var groups := topology.value;
    var normalized: seq<Group> := [];
    var assignments: map<string, seq<string>> := map[];
    var order: seq<string> := [];
    Start(groups);
    var i := 0;
    while i < |groups|
      invariant 0 <= i <= |groups| && normalized == groups[..i]
      invariant FirstFault(groups[..i]) == None
      invariant Tally(assignments, order, Flat(groups[..i]))
    {
      var g := groups[i];
      FaultOfPrefix(groups, i);
      FlatSnoc(groups, i);
      if g.id == "" { return BadValue; }
      if g.nodes == [] { return EmptyGroup; }
      var ok;
      ok, assignments, order := AssignAll(assignments, order, g, Flat(groups[..i]));
      if !ok { return BadValue; }
      normalized := normalized + [g];
      i := i + 1;
    }
    assert groups[..i] == groups;
    var repeated := Filter(order, n => n in assignments && |assignments[n]| > 1);
    var duplicates := Sort(repeated, StringOrder.Leq);
    TallyDuplicates(assignments, order, groups, repeated);
    if duplicates != [] {
      return Overlap(duplicates);
    }
    return Accepted(Sort(normalized, ById));
  }

  lemma {:induction false} Start(groups: seq<Group>)
    ensures FirstFault(groups[..0]) == None && Tally(map[], [], Flat(groups[..0]))
  {
  }

  lemma {:induction false} TallyDuplicates(assignments: map<string, seq<string>>, order: seq<string>, groups: seq<Group>, repeated: seq<string>)
    requires Tally(assignments, order, Flat(groups))
    requires repeated == Filter(order, n => n in assignments && |assignments[n]| > 1)
    ensures Duplicates(groups, Sort(repeated, StringOrder.Leq))
    ensures Sort(repeated, StringOrder.Leq) != [] <==> exists n :: multiset(Flat(groups))[n] > 1
  {
    hide Filter, Sort, StringOrder.Leq, Flat;
    var ds := Sort(repeated, StringOrder.Leq);
    StringOrder.IsTotal();
    SortSorts(repeated, StringOrder.Leq);
    FilterKeepsPairwise(order, n => n in assignments && |assignments[n]| > 1, Different);
    SortKeepsPairwise(repeated, StringOrder.Leq, Different);
    forall n ensures n in ds <==> multiset(Flat(groups))[n] > 1 {
      SortSameElements(repeated, StringOrder.Leq, n);
      FilterMember(order, n => n in assignments && |assignments[n]| > 1, n);
      assert multiset(Flat(groups))[n] > 1 ==> n in Flat(groups);
    }
    if ds != [] { assert ds[0] in ds; }
  }

  // ---------------------------------------------------------------- what acceptance means

  predicate Repeats(names: seq<string>) {
    exists i, j :: 0 <= i < j < |names| && names[i] == names[j]
  }

  /** Groups share no node, and no group lists a node twice. */
  ghost predicate NoOverlap(groups: seq<Group>) {
    && (forall i :: 0 <= i < |groups| ==> !Repeats(groups[i].nodes))
    && (forall i, j, n :: 0 <= i < j < |groups| && n in groups[i].nodes ==> n !in groups[j].nodes)
  }

  predicate InSome(groups: seq<Group>, n: string) {
    exists i :: 0 <= i < |groups| && n in groups[i].nodes
  }

  lemma {:induction false} FlatMembers(groups: seq<Group>, n: string)
    ensures n in Flat(groups) <==> InSome(groups, n)
  {
    if groups != [] {
      FlatMembers(groups[1..], n);
      assert forall i :: 0 <= i < |groups[1..]| ==> groups[1..][i] == groups[i + 1];
      assert InSome(groups[1..], n) ==> InSome(groups, n);
      assert InSome(groups, n) ==> n in groups[0].nodes || InSome(groups[1..], n) by {
        if i :| 0 <= i < |groups| && n in groups[i].nodes {
          assert i > 0 ==> groups[1..][i - 1] == groups[i];
        }
      }
    }
  }

  lemma {:induction false} AtMostOnce(names: seq<string>)
    ensures !Repeats(names) <==> forall n :: multiset(names)[n] <= 1
  {
    if names != [] {
      var rest := names[1..];
      assert names == [names[0]] + rest;
      AtMostOnce(rest);
      assert multiset(names) == multiset{names[0]} + multiset(rest);
      assert forall i :: 0 <= i < |rest| ==> rest[i] == names[i + 1];
      if Repeats(rest) {
        var i, j :| 0 <= i < j < |rest| && rest[i] == rest[j];
        assert names[i + 1] == names[j + 1];
        var n :| multiset(rest)[n] > 1;
        assert multiset(names)[n] > 1;
      } else if names[0] in rest {
        var j :| 0 <= j < |rest| && rest[j] == names[0];
        assert names[0] == names[j + 1];
        assert multiset(names)[names[0]] > 1;
      } else {
        FirstIsNew(names);
        forall n ensures multiset(names)[n] <= 1 {
          assert multiset(rest)[names[0]] == 0;
        }
      }
    }
  }

  lemma {:induction false} FirstIsNew(names: seq<string>)
    requires names != [] && names[0] !in names[1..] && !Repeats(names[1..])
    ensures !Repeats(names)
  {
    assert forall i :: 0 < i < |names| ==> names[i] == names[1..][i - 1];
  }

  lemma {:induction false} NoOverlapCons(groups: seq<Group>)
    requires groups != []
    ensures NoOverlap(groups) <==>
              !Repeats(groups[0].nodes) && NoOverlap(groups[1..]) && (forall n :: n in groups[0].nodes ==> !InSome(groups[1..], n))
  {
  }

  /** No node is assigned twice exactly when the groups are disjoint and repeat no node themselves. */
  lemma {:induction false} AcceptedIffNoOverlap(groups: seq<Group>)
    ensures NoOverlap(groups) <==> forall n :: multiset(Flat(groups))[n] <= 1
  {
    hide Repeats, NoOverlap, InSome;
    if groups == [] {
      NothingOverlaps(groups);
    } else {
      var first, rest := groups[0].nodes, groups[1..];
      NoOverlapCons(groups);
      AcceptedIffNoOverlap(rest);
      AtMostOnce(first);
      forall n ensures n in Flat(rest) <==> InSome(rest, n) { FlatMembers(rest, n); }
      assert multiset(Flat(groups)) == multiset(first) + multiset(Flat(rest));
      SumAtMostOnce(multiset(first), multiset(Flat(rest)));
      assert forall n :: n in first <==> n in multiset(first);
      assert forall n :: n in Flat(rest) <==> n in multiset(Flat(rest));
    }
  }

  lemma {:induction false} SumAtMostOnce(a: multiset<string>, b: multiset<string>)
    ensures (forall n :: (a + b)[n] <= 1) <==>
              ((forall n :: a[n] <= 1) && (forall n :: b[n] <= 1) && (forall n :: n in a ==> n !in b))
  {
    forall n ensures (a + b)[n] <= 1 <==> (a[n] <= 1 && b[n] <= 1 && (n in a ==> n !in b)) {}
  }

  lemma {:induction false} NothingOverlaps(groups: seq<Group>)
    requires groups == []
    ensures NoOverlap(groups)
  {
  }

  lemma {:induction false} InsertKeepsNodes(g: Group, groups: seq<Group>)
    ensures multiset(Flat(Insert(g, groups, ById))) == multiset(g.nodes) + multiset(Flat(groups))
  {
    if groups == [] || ById(g, groups[0]) {
      assert ([g] + groups)[1..] == groups;
    } else {
      InsertKeepsNodes(g, groups[1..]);
      assert ([groups[0]] + Insert(g, groups[1..], ById))[1..] == Insert(g, groups[1..], ById);
    }
  }

  /** Groups are reported in order of their names. */
  lemma {:induction false} GroupsAscend(groups: seq<Group>)
    ensures forall i, j :: 0 <= i < j < |groups| ==> StringOrder.Leq(Sort(groups, ById)[i].id, Sort(groups, ById)[j].id)
    ensures multiset(Sort(groups, ById)) == multiset(groups)
  {
    hide Sort;
    StringOrder.IsTotal();
    assert TotalPreorder(ById);
    SortSorts(groups, ById);
    SortPermutes(groups, ById);
    forall i, j | 0 <= i < j < |groups| ensures StringOrder.Leq(Sort(groups, ById)[i].id, Sort(groups, ById)[j].id) {
      assert ById(Sort(groups, ById)[i], Sort(groups, ById)[j]);
    }
  }

  /** Reporting the groups in order of their names keeps every assignment. */
  lemma {:induction false} SortKeepsNodes(groups: seq<Group>)
    ensures multiset(Flat(Sort(groups, ById))) == multiset(Flat(groups))
  {
    hide Insert, ById;
    if groups != [] {
      SortKeepsNodes(groups[1..]);
      InsertKeepsNodes(groups[0], Sort(groups[1..], ById));
    }
  }

  // ---------------------------------------------------------------- what an accepted mapping looks like

  /** The group has a name, at least one node, and no node without a name. */
  predicate WellFormed(g: Group) {
    g.id != "" && g.nodes != [] && forall j :: 0 <= j < |g.nodes| ==> g.nodes[j] != ""
  }

  /** The first group that is not well formed decides: one with a name but without nodes is an empty group, and any
      other is a bad value. */
  lemma {:induction false} FaultMeans(groups: seq<Group>)
    ensures FirstFault(groups) == None <==> forall i :: 0 <= i < |groups| ==> WellFormed(groups[i])
    ensures FirstFault(groups).Some? ==>
              exists i :: 0 <= i < |groups| && !WellFormed(groups[i]) && (forall j :: 0 <= j < i ==> WellFormed(groups[j]))
                && FirstFault(groups).value == if groups[i].id != "" && groups[i].nodes == [] then EmptyGroup else BadValue
  {
    if groups != [] {
      var rest := groups[1..];
      FaultMeans(rest);
      assert forall j :: 0 < j < |groups| ==> groups[j] == rest[j - 1];
      assert FaultOf(groups[0]) == None <==> WellFormed(groups[0]);
      if FaultOf(groups[0]) == None && FirstFault(rest).Some? {
        var i :| 0 <= i < |rest| && !WellFormed(rest[i]) && (forall j :: 0 <= j < i ==> WellFormed(rest[j]))
                 && FirstFault(rest).value == if rest[i].id != "" && rest[i].nodes == [] then EmptyGroup else BadValue;
        assert groups[i + 1] == rest[i];
      }
    }
  }
}
