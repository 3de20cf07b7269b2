/**
 Cumulative-counter samples, independent of any reducer: records grouped by timestamp, and the
 reference list of valid in-window increments that every reducer is meant to produce.
 */
module Samples {
  import opened Sorting

  datatype Sample = Sample(t: int, v: int)

  /** All values reported for one timestamp, in arrival order. */
  datatype Group = Group(t: int, vs: seq<int>)

  datatype Window = Window(start: int, end: int)

  /** A counter increment between two adjacent clean timestamps. */
  datatype Increment = Increment(start: int, end: int, startValue: int, endValue: int)

  predicate ByTime(a: Sample, b: Sample) {
    a.t <= b.t
  }

  function Ordered(records: seq<Sample>): seq<Sample> {
    Sort(records, ByTime)
  }

  /** Consecutive records with equal timestamps form one group. */
  function GroupByTime(s: seq<Sample>): (gs: seq<Group>)
    ensures forall i :: 0 <= i < |gs| ==> gs[i].vs != []
    ensures s != [] ==> gs != [] && gs[0].t == s[0].t && gs[0].vs[0] == s[0].v
  {
    if s == [] then []
    else
      var gs := GroupByTime(s[1..]);
      if gs != [] && gs[0].t == s[0].t then [Group(s[0].t, [s[0].v] + gs[0].vs)] + gs[1..]
      else [Group(s[0].t, [s[0].v])] + gs
  }

  function Groups(records: seq<Sample>): (gs: seq<Group>)
    ensures forall i :: 0 <= i < |gs| ==> gs[i].vs != []
  {
    GroupByTime(Ordered(records))
  }

  /** A timestamp is clean when all its reports agree. */
  predicate Clean(g: Group) {
    forall i :: 0 <= i < |g.vs| ==> g.vs[i] == g.vs[0]
  }

  predicate NoConflicts(gs: seq<Group>) {
    forall i :: 0 <= i < |gs| ==> Clean(gs[i])
  }

  predicate NonEmpty(gs: seq<Group>) {
    forall i :: 0 <= i < |gs| ==> gs[i].vs != []
  }

  predicate Increasing(gs: seq<Group>) {
    forall i, j :: 0 <= i < j < |gs| ==> gs[i].t < gs[j].t
  }

  predicate Inside(w: Window, start: int, end: int) {
    w.start <= start && end <= w.end
  }

  function Step(g: Group, h: Group, w: Window): (r: seq<Increment>)
    requires g.vs != [] && h.vs != []
    ensures |r| <= 1
  {
    if Clean(g) && Clean(h) && g.vs[0] <= h.vs[0] && Inside(w, g.t, h.t)
    then [Increment(g.t, h.t, g.vs[0], h.vs[0])] else []
  }

  /** The reference: increments between adjacent clean timestamps inside the window that do not decrease. */
  function Increments(gs: seq<Group>, w: Window): seq<Increment>
    requires NonEmpty(gs)
  {
    if |gs| < 2 then [] else Step(gs[0], gs[1], w) + Increments(gs[1..], w)
  }

  function Total(ds: seq<Increment>): int {
    if ds == [] then 0 else (ds[0].endValue - ds[0].startValue) + Total(ds[1..])
  }

  function Covered(ds: seq<Increment>): int {
    if ds == [] then 0 else (ds[0].end - ds[0].start) + Covered(ds[1..])
  }

  /** Interval boundaries of a list of increments. */
  function Bounds(ds: seq<Increment>): (ks: seq<(int, int)>)
    ensures |ks| == |ds| && forall i :: 0 <= i < |ds| ==> ks[i] == (ds[i].start, ds[i].end)
  {
    seq(|ds|, i requires 0 <= i < |ds| => (ds[i].start, ds[i].end))
  }

  // ---------------------------------------------------------------- groups of sorted records

  lemma {:induction false} ByTimeIsTotal()
    ensures TotalPreorder(ByTime)
  {
  }

  lemma {:induction false} GroupsIncrease(s: seq<Sample>)
    requires Sorted(s, ByTime)
    ensures Increasing(GroupByTime(s))
    ensures forall i :: 0 <= i < |GroupByTime(s)| ==> s != [] && s[0].t <= GroupByTime(s)[i].t
  {
    if |s| > 1 {
      GroupsIncrease(s[1..]);
      assert s[1..][0] == s[1];
      assert ByTime(s[0], s[1]);
    }
  }

  predicate Reported(gs: seq<Group>, x: Sample) {
    exists i :: 0 <= i < |gs| && gs[i].t == x.t && x.v in gs[i].vs
  }

  lemma {:induction false} ReportedCons(g: Group, gs: seq<Group>, x: Sample)
    ensures Reported([g] + gs, x) <==> (g.t == x.t && x.v in g.vs) || Reported(gs, x)
  {
    var all := [g] + gs;
    assert all[0] == g && forall i :: 0 <= i < |gs| ==> all[i + 1] == gs[i];
  }

  /** Grouping loses nothing: a value is in a timestamp's group exactly when it was reported there. */
  lemma {:induction false} GroupsHold(s: seq<Sample>, x: Sample)
    ensures x in s <==> Reported(GroupByTime(s), x)
  {
    if s != [] {
      GroupsHold(s[1..], x);
      var rest := GroupByTime(s[1..]);
      assert s == [s[0]] + s[1..];
      if rest != [] && rest[0].t == s[0].t {
        assert rest == [rest[0]] + rest[1..];
        ReportedCons(rest[0], rest[1..], x);
        ReportedCons(Group(s[0].t, [s[0].v] + rest[0].vs), rest[1..], x);
      } else {
        ReportedCons(Group(s[0].t, [s[0].v]), rest, x);
      }
    }
  }

  lemma {:induction false} OrderedIsSorted(records: seq<Sample>)
    ensures Sorted(Ordered(records), ByTime) && Groups(records) == GroupByTime(Ordered(records)) && NonEmpty(Groups(records))
  {
    ByTimeIsTotal();
    SortSorts(records, ByTime);
  }

  lemma {:induction false} OrderedGroups(records: seq<Sample>)
    ensures Increasing(Groups(records)) && NonEmpty(Groups(records))
    ensures forall x :: x in records <==> Reported(Groups(records), x)
  {
    ByTimeIsTotal();
    SortSorts(records, ByTime);
    GroupsIncrease(Ordered(records));
    forall x ensures x in records <==> Reported(Groups(records), x) {
      SortSameElements(records, ByTime, x);
      GroupsHold(Ordered(records), x);
    }
  }

  // ---------------------------------------------------------------- order and duplicates do not matter

  /** Two group lists that agree on timestamps and on the set of values reported at each. */
  ghost predicate Alike(a: seq<Group>, b: seq<Group>) {
    && |a| == |b|
    && forall i :: 0 <= i < |a| ==> a[i].t == b[i].t && (forall v :: v in a[i].vs <==> v in b[i].vs)
  }

  function Times(gs: seq<Group>): (ts: seq<int>)
    ensures |ts| == |gs| && forall i :: 0 <= i < |gs| ==> ts[i] == gs[i].t
  {
    seq(|gs|, i requires 0 <= i < |gs| => gs[i].t)
  }

  lemma {:induction false} TimesAreObserved(records: seq<Sample>, t: int)
    ensures t in Times(Groups(records)) <==> exists x :: x in records && x.t == t
  {
    OrderedGroups(records);
    var gs := Groups(records);
    if t in Times(gs) {
      var i :| 0 <= i < |gs| && gs[i].t == t;
      assert gs[i].vs[0] in gs[i].vs;
      assert Sample(t, gs[i].vs[0]) in records;
    }
    if x :| x in records && x.t == t {
      var i :| 0 <= i < |gs| && gs[i].t == x.t && x.v in gs[i].vs;
      assert Times(gs)[i] == t;
    }
  }

  /** Records with the same set of samples have alike groups, whatever their order and multiplicity. */
  lemma {:induction false} SameSamplesAlike(a: seq<Sample>, b: seq<Sample>)
    requires forall x :: x in a <==> x in b
    ensures Alike(Groups(a), Groups(b))
  {
    OrderedGroups(a);
    OrderedGroups(b);
    var ga, gb := Groups(a), Groups(b);
    forall t ensures t in Times(ga) <==> t in Times(gb) {
      TimesAreObserved(a, t);
      TimesAreObserved(b, t);
    }
    IncreasingUnique(Times(ga), Times(gb));
    forall i | 0 <= i < |ga| ensures ga[i].t == gb[i].t && (forall v :: v in ga[i].vs <==> v in gb[i].vs) {
      assert Times(ga)[i] == Times(gb)[i];
      forall v ensures v in ga[i].vs <==> v in gb[i].vs {
        GroupMembers(a, i, v);
        GroupMembers(b, i, v);
      }
    }
  }

  lemma {:induction false} GroupMembers(records: seq<Sample>, i: nat, v: int)
    requires i < |Groups(records)|
    ensures v in Groups(records)[i].vs <==> Sample(Groups(records)[i].t, v) in records
  {
    OrderedGroups(records);
    var gs := Groups(records);
    if Sample(gs[i].t, v) in records {
      var j :| 0 <= j < |gs| && gs[j].t == gs[i].t && v in gs[j].vs;
      assert j == i;
    }
  }

  lemma {:induction false} AlikeGroup(g: Group, h: Group)
    requires g.vs != [] && h.vs != [] && forall v :: v in g.vs <==> v in h.vs
    ensures Clean(g) <==> Clean(h)
    ensures Clean(g) ==> g.vs[0] == h.vs[0]
  {
    if Clean(g) { CleanAlike(g, h); }
    if Clean(h) { CleanAlike(h, g); }
  }

  lemma {:induction false} CleanAlike(g: Group, h: Group)
    requires g.vs != [] && h.vs != [] && Clean(g) && forall v :: v in h.vs ==> v in g.vs
    ensures Clean(h) && h.vs[0] == g.vs[0]
  {
    assert forall i :: 0 <= i < |h.vs| ==> h.vs[i] in h.vs;
  }

  // ---------------------------------------------------------------- conservation

  /** Increments lie inside the window, never decrease, and follow each other from `lo` on. */
  predicate InOrder(ds: seq<Increment>, lo: int, w: Window) {
    ds == [] || (lo <= ds[0].start < ds[0].end && Inside(w, ds[0].start, ds[0].end) && ds[0].startValue <= ds[0].endValue
                 && InOrder(ds[1..], ds[0].end, w))
  }

  lemma {:induction false} InOrderFrom(ds: seq<Increment>, lo: int, lo': int, w: Window)
    requires InOrder(ds, lo', w) && lo <= lo'
    ensures InOrder(ds, lo, w)
  {
  }

  lemma {:induction false} IncrementsInOrder(gs: seq<Group>, w: Window)
    requires NonEmpty(gs) && Increasing(gs) && gs != []
    ensures InOrder(Increments(gs, w), gs[0].t, w)
  {
    if |gs| >= 2 {
      var first, rest := Step(gs[0], gs[1], w), Increments(gs[1..], w);
      IncrementsInOrder(gs[1..], w);
      InOrderFrom(rest, gs[0].t, gs[1].t, w);
      if first != [] {
        assert (first + rest)[1..] == rest;
      } else {
        assert first + rest == rest;
      }
    }
  }

  lemma {:induction false} InOrderKeys(ds: seq<Increment>, lo: int, w: Window)
    requires InOrder(ds, lo, w)
    ensures forall k :: 0 <= k < |ds| ==> lo <= ds[k].start < ds[k].end && Inside(w, ds[k].start, ds[k].end)
    ensures forall j, k :: 0 <= j < k < |ds| ==> ds[j].end <= ds[k].start
  {
    if ds != [] {
      InOrderKeys(ds[1..], ds[0].end, w);
      assert forall k :: 1 <= k < |ds| ==> ds[k] == ds[1..][k - 1];
    }
  }

  lemma {:induction false} TotalNonnegative(ds: seq<Increment>, lo: int, w: Window)
    requires InOrder(ds, lo, w)
    ensures Total(ds) >= 0 && (ds == [] ==> Total(ds) == 0)
  {
    if ds != [] { TotalNonnegative(ds[1..], ds[0].end, w); }
  }

  lemma {:induction false} TotalConcat(a: seq<Increment>, b: seq<Increment>)
    ensures Total(a + b) == Total(a) + Total(b) && Covered(a + b) == Covered(a) + Covered(b)
  {
    if a == [] {
      assert a + b == b;
    } else {
      TotalConcat(a[1..], b);
      assert (a + b)[1..] == a[1..] + b;
    }
  }

  /** Ordered disjoint increments cover no more than the span they lie in. */
  lemma {:induction false} CoveredBound(ds: seq<Increment>, lo: int, w: Window)
    requires InOrder(ds, lo, w) && lo <= w.end
    ensures 0 <= Covered(ds) <= w.end - lo
    ensures ds != [] ==> Covered(ds) <= w.end - ds[0].start
  {
    if ds != [] {
      CoveredBound(ds[1..], ds[0].end, w);
    }
  }

  /** The covered duration is between zero and the window length, so coverage lies in [0, 1]. */
  lemma {:induction false} CoverageInUnit(records: seq<Sample>, w: Window)
    requires w.start < w.end
    ensures var covered := Covered(Increments(Groups(records), w));
            0 <= covered <= w.end - w.start && 0.0 <= covered as real / (w.end - w.start) as real <= 1.0
  {
    OrderedGroups(records);
    var ds := Increments(Groups(records), w);
    if Groups(records) != [] {
      IncrementsInOrder(Groups(records), w);
      if ds != [] {
        InOrderFrom(ds[1..], ds[0].end, ds[0].end, w);
        CoveredBound(ds, ds[0].start, w);
      }
    }
    RatioInUnit(Covered(ds), w.end - w.start);
  }

  lemma {:induction false} RatioInUnit(a: int, b: int)
    requires 0 <= a <= b && 0 < b
    ensures 0.0 <= a as real / b as real <= 1.0
  {
  }

  function Drop(g: Group, h: Group, w: Window): int
    requires g.vs != [] && h.vs != []
  {
    if g.vs[0] > h.vs[0] && Inside(w, g.t, h.t) then g.vs[0] - h.vs[0] else 0
  }

  /** Drops between adjacent timestamps inside the window: the amounts by which the counter went back. */
  function Drops(gs: seq<Group>, w: Window): int
    requires NonEmpty(gs)
  {
    if |gs| < 2 then 0 else Drop(gs[0], gs[1], w) + Drops(gs[1..], w)
  }

  lemma {:induction false} StepBalances(g: Group, h: Group, w: Window)
    requires g.vs != [] && h.vs != [] && g.t < h.t
    ensures w.start <= g.t && h.t <= w.end && Clean(g) && Clean(h) ==> Total(Step(g, h, w)) - Drop(g, h, w) == h.vs[0] - g.vs[0]
    ensures !(w.start <= g.t && h.t <= w.end) ==> Step(g, h, w) == [] && Drop(g, h, w) == 0
  {
  }

  function Restrict(gs: seq<Group>, w: Window): (r: seq<Group>)
    requires NonEmpty(gs)
    ensures NonEmpty(r)
    ensures forall g :: g in r ==> g in gs
  {
    if gs == [] then []
    else (if w.start <= gs[0].t <= w.end then [gs[0]] else []) + Restrict(gs[1..], w)
  }

  lemma {:induction false} BeyondWindow(gs: seq<Group>, w: Window)
    requires NonEmpty(gs) && Increasing(gs) && gs != [] && w.end < gs[0].t
    ensures Restrict(gs, w) == [] && Increments(gs, w) == [] && Drops(gs, w) == 0
  {
    if |gs| >= 2 { BeyondWindow(gs[1..], w); }
  }

  lemma {:induction false} Unfolds(gs: seq<Group>, w: Window)
    requires NonEmpty(gs)
    ensures |gs| >= 2 ==> Increments(gs, w) == Step(gs[0], gs[1], w) + Increments(gs[1..], w)
    ensures |gs| >= 2 ==> Drops(gs, w) == Drop(gs[0], gs[1], w) + Drops(gs[1..], w)
    ensures |gs| < 2 ==> Increments(gs, w) == [] && Drops(gs, w) == 0
    ensures gs != [] ==> Restrict(gs, w) == (if w.start <= gs[0].t <= w.end then [gs[0]] else []) + Restrict(gs[1..], w)
    ensures gs == [] ==> Restrict(gs, w) == []
  {
  }

  /** Only observations inside the window matter. */
  lemma {:induction false} RestrictKeeps(gs: seq<Group>, w: Window)
    requires NonEmpty(gs) && Increasing(gs)
    ensures Increments(Restrict(gs, w), w) == Increments(gs, w) && Drops(Restrict(gs, w), w) == Drops(gs, w)
  {
    hide Step, Drop, Increments, Drops, Restrict;
    Unfolds(gs, w);
    Unfolds(Restrict(gs, w), w);
    if gs != [] {
      var rest := Restrict(gs[1..], w);
      Unfolds(gs[1..], w);
      RestrictKeeps(gs[1..], w);
      if w.start <= gs[0].t <= w.end {
        assert Restrict(gs, w)[1..] == rest;
        if |gs| >= 2 {
          StepBalances(gs[0], gs[1], w);
          if gs[1].t > w.end { BeyondWindow(gs[1..], w); }
        }
      } else {
        assert Restrict(gs, w) == rest;
        if |gs| >= 2 { StepBalances(gs[0], gs[1], w); }
      }
    }
  }

  lemma {:induction false} RiseCons(g: Group, seen: seq<Group>)
    requires g.vs != [] && NonEmpty(seen)
    ensures NonEmpty([g] + seen)
    ensures Rise([g] + seen) == if seen == [] then 0 else Rise(seen) + seen[0].vs[0] - g.vs[0]
  {
  }

  lemma {:induction false} NoRise()
    ensures Rise([]) == 0 && Total([]) == 0
  {
  }

  lemma {:induction false} NoConflictsTail(g: Group, seen: seq<Group>)
    requires NoConflicts([g] + seen)
    ensures Clean(g) && NoConflicts(seen)
  {
    assert ([g] + seen)[0] == g && forall i :: 0 <= i < |seen| ==> seen[i] == ([g] + seen)[i + 1];
  }

  /**
   Conservation: over the observations inside a window that are free of conflicts, the valid increments
   minus the drops telescope to the last value minus the first.
   */
  lemma {:induction false} Telescopes(gs: seq<Group>, w: Window)
    requires NonEmpty(gs) && Increasing(gs) && NoConflicts(Restrict(gs, w))
    ensures Total(Increments(gs, w)) - Drops(gs, w) == Rise(Restrict(gs, w))
  {
    hide Step, Drop, Clean, NoConflicts, Increments, Drops, Restrict, Rise, Total, Covered;
    NoRise();
    Unfolds(gs, w);
    if gs != [] {
      var g, rest := gs[0], Restrict(gs[1..], w);
      RiseCons(g, rest);
      if w.start <= g.t <= w.end {
        NoConflictsTail(g, rest);
      } else {
        assert Restrict(gs, w) == rest;
      }
      Unfolds(gs[1..], w);
      if |gs| >= 2 {
        Telescopes(gs[1..], w);
        TotalConcat(Step(g, gs[1], w), Increments(gs[1..], w));
        StepBalances(g, gs[1], w);
        if w.start <= gs[1].t <= w.end {
          NoConflictsTail(gs[1], Restrict(gs[1..][1..], w));
        } else if gs[1].t > w.end {
          BeyondWindow(gs[1..], w);
        }
      }
    }
  }

  /** Last value minus first value. */
  function Rise(seen: seq<Group>): int
    requires NonEmpty(seen)
  {
    if seen == [] then 0 else seen[|seen| - 1].vs[0] - seen[0].vs[0]
  }

  /** The increment that runs across `b` from inside [a, b] to inside [b, c], if there is one. */
  function Straddling(gs: seq<Group>, a: int, b: int, c: int): seq<Increment>
    requires NonEmpty(gs)
  {
    if |gs| < 2 then []
    else (if gs[0].t < b < gs[1].t then Step(gs[0], gs[1], Window(a, c)) else []) + Straddling(gs[1..], a, b, c)
  }

  lemma {:induction false} NothingBefore(gs: seq<Group>, a: int, b: int, c: int)
    requires NonEmpty(gs) && Increasing(gs) && a <= b <= c && gs != [] && b <= gs[0].t
    ensures Increments(gs, Window(a, b)) == [] && Straddling(gs, a, b, c) == []
    ensures Increments(gs, Window(a, c)) == Increments(gs, Window(b, c))
  {
    if |gs| >= 2 { NothingBefore(gs[1..], a, b, c); }
  }

  lemma {:induction false} StepBefore(g: Group, h: Group, a: int, b: int, c: int)
    requires g.vs != [] && h.vs != [] && g.t < h.t <= b <= c
    ensures Step(g, h, Window(a, b)) == Step(g, h, Window(a, c)) && Step(g, h, Window(b, c)) == []
  {
  }

  lemma {:induction false} StepAcross(g: Group, h: Group, a: int, b: int, c: int)
    requires g.vs != [] && h.vs != [] && g.t < b < h.t
    ensures Step(g, h, Window(a, b)) == [] && Step(g, h, Window(b, c)) == []
  {
  }

  /** Splitting a window at `b` loses exactly the increment that runs across `b`. */
  lemma {:induction false} WindowSplits(gs: seq<Group>, a: int, b: int, c: int)
    requires NonEmpty(gs) && Increasing(gs) && a <= b <= c
    ensures Increments(gs, Window(a, c)) == Increments(gs, Window(a, b)) + Straddling(gs, a, b, c) + Increments(gs, Window(b, c))
    ensures |Straddling(gs, a, b, c)| <= 1
  {
    hide Step, Straddling, Increments, Drops, Restrict;
    StraddlingUnfolds(gs, a, b, c);
    Unfolds(gs, Window(a, c));
    Unfolds(gs, Window(a, b));
    Unfolds(gs, Window(b, c));
    if |gs| >= 2 {
      var rest := gs[1..];
      if b <= gs[0].t {
        NothingBefore(gs, a, b, c);
      } else if b < gs[1].t {
        NothingBefore(rest, a, b, c);
        StepAcross(gs[0], gs[1], a, b, c);
      } else {
        WindowSplits(rest, a, b, c);
        StepBefore(gs[0], gs[1], a, b, c);
        Regroup(Step(gs[0], gs[1], Window(a, c)), Increments(rest, Window(a, b)), Straddling(rest, a, b, c), Increments(rest, Window(b, c)));
      }
    }
  }

  lemma {:induction false} StraddlingUnfolds(gs: seq<Group>, a: int, b: int, c: int)
    requires NonEmpty(gs)
    ensures Straddling(gs, a, b, c) ==
            if |gs| < 2 then [] else (if gs[0].t < b < gs[1].t then Step(gs[0], gs[1], Window(a, c)) else []) + Straddling(gs[1..], a, b, c)
  {
  }

  lemma {:induction false} Regroup(s: seq<Increment>, x: seq<Increment>, y: seq<Increment>, z: seq<Increment>)
    ensures s + (x + y + z) == (s + x) + ([] + y) + ([] + z)
  {
  }

  lemma {:induction false} NoStraddling(gs: seq<Group>, a: int, b: int, c: int)
    requires NonEmpty(gs) && Increasing(gs) && b in Times(gs)
    ensures Straddling(gs, a, b, c) == []
  {
    hide Step;
    if |gs| >= 2 {
      var k :| 0 <= k < |gs| && Times(gs)[k] == b;
      if k == 0 {
        NothingAcross(gs, a, b, c);
      } else {
        assert Times(gs[1..])[k - 1] == b;
        NoStraddling(gs[1..], a, b, c);
      }
    }
  }

  lemma {:induction false} NothingAcross(gs: seq<Group>, a: int, b: int, c: int)
    requires NonEmpty(gs) && Increasing(gs) && gs != [] && b <= gs[0].t
    ensures Straddling(gs, a, b, c) == []
  {
    if |gs| >= 2 { NothingAcross(gs[1..], a, b, c); }
  }

  /** Totals and covered durations add up when a window is split at an observed timestamp. */
  lemma {:induction false} SplitAtObserved(records: seq<Sample>, a: int, b: int, c: int)
    requires a <= b <= c && exists x :: x in records && x.t == b
    ensures var gs := Groups(records);
            && Total(Increments(gs, Window(a, c))) == Total(Increments(gs, Window(a, b))) + Total(Increments(gs, Window(b, c)))
            && Covered(Increments(gs, Window(a, c))) == Covered(Increments(gs, Window(a, b))) + Covered(Increments(gs, Window(b, c)))
  {
    OrderedGroups(records);
    TimesAreObserved(records, b);
    var gs := Groups(records);
    WindowSplits(gs, a, b, c);
    NoStraddling(gs, a, b, c);
    TotalConcat(Increments(gs, Window(a, b)), Increments(gs, Window(b, c)));
    assert Increments(gs, Window(a, b)) + [] == Increments(gs, Window(a, b));
  }

  // ---------------------------------------------------------------- counting timestamps

  /** Conflicting timestamps that satisfy `alone`, and neighbouring clean timestamps that satisfy `pair`. */
  function Tally(gs: seq<Group>, alone: Group -> bool, pair: (Group, Group) -> bool): nat
    requires NonEmpty(gs)
  {
    if gs == [] then 0
    else (if !Clean(gs[0]) && alone(gs[0]) then 1 else 0)
         + (if |gs| > 1 && Clean(gs[0]) && Clean(gs[1]) && pair(gs[0], gs[1]) then 1 else 0)
         + Tally(gs[1..], alone, pair)
  }

  function Always(): Group -> bool {
    g => true
  }

  function Never(): Group -> bool {
    g => false
  }

  function At(w: Window): Group -> bool {
    (g: Group) => w.start <= g.t <= w.end
  }

  function NotAt(w: Window): Group -> bool {
    (g: Group) => g.t < w.start || w.end < g.t
  }

  function AnyPair(): (Group, Group) -> bool {
    (g, h) => true
  }

  function Decreasing(): (Group, Group) -> bool {
    (g: Group, h: Group) => g.vs != [] && h.vs != [] && h.vs[0] < g.vs[0]
  }

  function NotWithin(w: Window): (Group, Group) -> bool {
    (g: Group, h: Group) => g.t < w.start || w.end < h.t
  }

  function DropInside(w: Window): (Group, Group) -> bool {
    (g: Group, h: Group) => g.vs != [] && h.vs != [] && h.vs[0] < g.vs[0] && w.start <= g.t && h.t <= w.end
  }

  /** The pair lies only partly in the window. */
  function Crossing(w: Window): (Group, Group) -> bool {
    (g: Group, h: Group) => g.t < w.end && w.start < h.t && (g.t < w.start || w.end < h.t)
  }
}
