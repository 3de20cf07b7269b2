/**
 The manual phase store: every accepted phase leaves one gapless chain, and a phase is accepted exactly when
 it extends the chain at one of its ends.
 */
module PhaseStore {
  import opened Wrappers
  import opened Sorting
  import opened Comparing
  import opened PhaseWindows

  datatype AddError = InvalidName | InvalidStart | InvalidEnd | NotInteger | NotPositive | OutsideWindow | NameUsed | LimitReached
                    | Malformed(error: PhaseError) | Overlap(previous: Phase, next: Phase) | Gap(previous: Phase, next: Phase)

  /** The dictionaries the store keeps. */
  function AsDicts(store: seq<Phase>): (items: seq<Item>)
    ensures |items| == |store| && forall i :: 0 <= i < |items| ==> items[i] == Dict(Some(store[i].name), Some(store[i].start), Some(store[i].end))
  {
    seq(|store|, i requires 0 <= i < |store| => Dict(Some(store[i].name), Some(store[i].start), Some(store[i].end)))
  }

  predicate NameTaken(store: seq<Phase>, name: string) {
    exists i :: 0 <= i < |store| && store[i].name == name
  }

  /** The first pair of neighbours that overlap or leave a gap. */
  function FirstBreak(ordered: seq<Phase>): Option<AddError> {
    if |ordered| < 2 then None
    else if ordered[1].start < ordered[0].end then Some(Overlap(ordered[0], ordered[1]))
    else if ordered[1].start > ordered[0].end then Some(Gap(ordered[0], ordered[1]))
    else FirstBreak(ordered[1..])
  }

  /** What the form fields must be before the store is looked at. */
  function InputFault(name: Option<string>, start: Option<real>, end: Option<real>, windowStart: int, windowEnd: int): Option<AddError> {
    if name.None? || Strip(name.value) == "" then Some(InvalidName)
    else if start.None? then Some(InvalidStart)
    else if end.None? then Some(InvalidEnd)
    else if start.value.Floor as real != start.value || end.value.Floor as real != end.value then Some(NotInteger)
    else if start.value.Floor >= end.value.Floor then Some(NotPositive)
    else if start.value.Floor < windowStart || end.value.Floor > windowEnd then Some(OutsideWindow)
    else None
  }

  /** The outcome of adding a phase to a store. */
  function Added(store: seq<Phase>, phase: Phase): Result<seq<Phase>, AddError> {
    if NameTaken(store, phase.name) then Err(NameUsed)
    else if |store| >= MAX_PHASE_WINDOWS then Err(LimitReached)
    else match Normalized(Items(AsDicts(store + [phase])))
         case Err(e) => Err(Malformed(e))
         case Ok(ordered) => if FirstBreak(ordered).Some? then Err(FirstBreak(ordered).value) else Ok(ordered)
  }

  method FindBreak(ordered: seq<Phase>) returns (r: Option<AddError>)
    ensures r == FirstBreak(ordered)
  {
    var i := 0;
    while i + 1 < |ordered|
      invariant 0 <= i && (i < |ordered| || i == 0)
      invariant FirstBreak(ordered) == FirstBreak(ordered[i..])
    {
      var previous, next := ordered[i], ordered[i + 1];
      if next.start < previous.end { return Some(Overlap(previous, next)); }
      var gap := next.start - previous.end;
      if gap > 0 { return Some(Gap(previous, next)); }
      assert ordered[i..][1..] == ordered[i + 1..];
      i := i + 1;
    }
    r := None;
  }

  /** The add button: checks the input, then the store. */
  method AddPhase(store: seq<Phase>, name: Option<string>, start: Option<real>, end: Option<real>, windowStart: int, windowEnd: int)
    returns (r: Result<seq<Phase>, AddError>)
    ensures InputFault(name, start, end, windowStart, windowEnd).Some? ==> r == Err(InputFault(name, start, end, windowStart, windowEnd).value)
    ensures InputFault(name, start, end, windowStart, windowEnd).None? ==>
              r == Added(store, Phase(Strip(name.value), start.value.Floor, end.value.Floor))
    ensures r.Ok? ==> exists phase :: Supplies(Action(name, start, end, windowStart, windowEnd), phase) && r == Added(store, phase)
  {
    hide Normalized, FirstBreak;
    InputAccepted(Action(name, start, end, windowStart, windowEnd));
    var stripped := if name.Some? then Strip(name.value) else "";
    if stripped == "" { return Err(InvalidName); }
    if start.None? { return Err(InvalidStart); }
    if end.None? { return Err(InvalidEnd); }
    var startNs, endNs := start.value.Floor, end.value.Floor;
    if startNs as real != start.value || endNs as real != end.value { return Err(NotInteger); }
    if startNs >= endNs { return Err(NotPositive); }
    if startNs < windowStart || endNs > windowEnd { return Err(OutsideWindow); }
    if NameTaken(store, stripped) { return Err(NameUsed); }
    if |store| >= MAX_PHASE_WINDOWS { return Err(LimitReached); }
    var candidate := store + [Phase(stripped, startNs, endNs)];
    var ordered := NormalizePhaseWindows(Items(AsDicts(candidate)));
    if ordered.Err? { return Err(Malformed(ordered.error)); }
    var broken := FindBreak(ordered.value);
    if broken.Some? { return Err(broken.value); }
    r := Ok(ordered.value);
  }

  // ---------------------------------------------------------------- the chain

  predicate Gapless(store: seq<Phase>) {
    forall i :: 0 <= i < |store| - 1 ==> store[i].end == store[i + 1].start
  }

  predicate DifferentNames(a: Phase, b: Phase) {
    a.name != b.name
  }

  /** What every store reached by adding phases looks like. */
  ghost predicate Chain(store: seq<Phase>) {
    && |store| <= MAX_PHASE_WINDOWS
    && Gapless(store) && Pairwise(store, DifferentNames) && Sorted(store, PhaseOrder())
    && forall i :: 0 <= i < |store| ==> store[i].start < store[i].end && Clean(store[i].name)
  }

  lemma {:induction false} GaplessTail(s: seq<Phase>)
    requires |s| >= 2
    ensures Gapless(s) <==> s[0].end == s[1].start && Gapless(s[1..])
  {
  }

  lemma {:induction false} FirstBreakIffGap(ordered: seq<Phase>)
    ensures FirstBreak(ordered) == None <==> Gapless(ordered)
  {
    if |ordered| >= 2 {
      FirstBreakIffGap(ordered[1..]);
      GaplessTail(ordered);
    }
  }

  lemma {:induction false} CleanPhases(store: seq<Phase>)
    requires forall i :: 0 <= i < |store| ==> Clean(store[i].name)
    ensures Phases(AsDicts(store)) == Ok(store)
  {
    if store != [] {
      assert AsDicts(store)[1..] == AsDicts(store[1..]);
      CleanPhases(store[1..]);
      assert store == [store[0]] + store[1..];
    }
  }

  lemma {:induction false} OrderIsTotal()
    ensures TotalPreorder(PhaseOrder())
    ensures forall a, b :: PhaseOrder()(a, b) && PhaseOrder()(b, a) ==> a == b
  {
    hide Pairs, Lawful, Strings, Ints;
    PhaseOrderIsTotal();
    IntsLawful();
    StringsLawful();
    PairsLawful(Ints, Strings);
    PairsLawful(Ints, Pairs(Ints, Strings));
    assert Lawful(By(StartEndName, Pairs(Ints, Pairs(Ints, Strings)))) by {
      ByLawful(StartEndName, Pairs(Ints, Pairs(Ints, Strings)));
    }
    Antisymmetric(By(StartEndName, Pairs(Ints, Pairs(Ints, Strings))));
  }

  lemma {:induction false} Antisymmetric(c: (Phase, Phase) -> Cmp)
    requires Lawful(c)
    ensures forall a, b :: AtMost(c)(a, b) && AtMost(c)(b, a) ==> a == b
  {
  }

  lemma {:induction false} SortIsInsert(store: seq<Phase>, phase: Phase)
    requires Sorted(store, PhaseOrder())
    ensures Sort(store + [phase], PhaseOrder()) == Insert(phase, store, PhaseOrder())
  {
    hide PhaseOrder, Sort, Insert;
    var candidate := store + [phase];
    OrderIsTotal();
    SortSorts(candidate, PhaseOrder());
    SortPermutes(candidate, PhaseOrder());
    InsertSorts(phase, store, PhaseOrder());
    InsertPermutes(phase, store, PhaseOrder());
    assert multiset(candidate) == multiset(store) + multiset{phase};
    SortedUnique(Sort(candidate, PhaseOrder()), Insert(phase, store, PhaseOrder()), PhaseOrder());
  }

  /** On a store of clean names, adding inserts the phase at its place and checks for breaks. */
  lemma {:induction false} AddedInserts(store: seq<Phase>, phase: Phase)
    requires Chain(store) && Clean(phase.name) && !NameTaken(store, phase.name) && |store| < MAX_PHASE_WINDOWS
    ensures var ordered := Insert(phase, store, PhaseOrder());
            if Gapless(ordered) then Added(store, phase) == Ok(ordered)
            else Added(store, phase).Err? && exists k: nat :: BreakAt(ordered, k, Added(store, phase).error)
  {
    hide PhaseOrder, Clean, Gapless, Sort, Insert, Pairwise, Phases, FirstBreak;
    CleanPhases(store + [phase]);
    SortIsInsert(store, phase);
    FirstBreakIffGap(Insert(phase, store, PhaseOrder()));
    FirstBreakMeans(Insert(phase, store, PhaseOrder()));
  }

  /** A reported break is the first one: two neighbours that overlap or leave a gap, after a gapless beginning. */
  predicate BreakAt(ordered: seq<Phase>, k: nat, e: AddError) {
    && k + 1 < |ordered| && Gapless(ordered[..k + 1])
    && ((e == Overlap(ordered[k], ordered[k + 1]) && ordered[k + 1].start < ordered[k].end)
        || (e == Gap(ordered[k], ordered[k + 1]) && ordered[k].end < ordered[k + 1].start))
  }

  lemma {:induction false} FirstBreakMeans(ordered: seq<Phase>)
    ensures FirstBreak(ordered).Some? ==> exists k: nat :: BreakAt(ordered, k, FirstBreak(ordered).value)
  {
    if |ordered| >= 2 && FirstBreak(ordered).Some? {
      var e, rest := FirstBreak(ordered).value, ordered[1..];
      if ordered[1].start != ordered[0].end {
        assert BreakAt(ordered, 0, e);
      } else {
        FirstBreakMeans(rest);
        var k: nat :| BreakAt(rest, k, e);
        var begin := ordered[..k + 2];
        assert begin[1..] == rest[..k + 1];
        GaplessTail(begin);
        assert BreakAt(ordered, k + 1, e);
      }
    }
  }

  lemma {:induction false} Spliced(x: Phase, s: seq<Phase>, q: nat)
    requires q < |s|
    ensures [s[0]] + (s[1..][..q] + [x] + s[1..][q..]) == s[..q + 1] + [x] + s[q + 1..]
  {
  }

  /** Insertion splits the list at one place. */
  lemma {:induction false} InsertSplits(x: Phase, s: seq<Phase>, le: (Phase, Phase) -> bool) returns (p: nat)
    ensures p <= |s| && Insert(x, s, le) == s[..p] + [x] + s[p..]
    ensures forall i :: 0 <= i < p ==> !le(x, s[i])
    ensures p < |s| ==> le(x, s[p])
  {
    p := 0;
    if s == [] || le(x, s[0]) {
      assert s[..0] + [x] + s[0..] == [x] + s;
    } else {
      var q := InsertSplits(x, s[1..], le);
      hide Insert;
      p := q + 1;
      Spliced(x, s, q);
      forall i | 0 <= i < p ensures !le(x, s[i]) { assert i > 0 ==> s[i] == s[1..][i - 1]; }
    }
  }

  lemma {:induction false} OrderByStart(a: Phase, b: Phase)
    ensures a.start < b.start ==> PhaseOrder()(a, b) && !PhaseOrder()(b, a)
  {
    if a.start < b.start {
      var inner := Pairs(Ints, Strings);
      assert StartEndName(a).0 == a.start && StartEndName(b).0 == b.start;
      assert Ints(a.start, b.start) == Less && Ints(b.start, a.start) == Greater;
      assert Pairs(Ints, inner)(StartEndName(a), StartEndName(b)) == Less;
      assert Pairs(Ints, inner)(StartEndName(b), StartEndName(a)) == Greater;
    }
  }

  /** In a chain, starts increase and stay below the last end. */
  lemma {:induction false} ChainStarts(store: seq<Phase>, i: nat)
    requires Gapless(store) && i < |store| && forall k :: 0 <= k < |store| ==> store[k].start < store[k].end
    ensures store[i].start < store[|store| - 1].end
    ensures i > 0 ==> store[0].start < store[i].start
    decreases |store| - i
  {
    if i + 1 < |store| { ChainStarts(store, i + 1); }
    if i > 0 { StartsBelow(store, i); }
  }

  lemma {:induction false} StartsBelow(store: seq<Phase>, i: nat)
    requires Gapless(store) && 0 < i < |store| && forall k :: 0 <= k < |store| ==> store[k].start < store[k].end
    ensures store[0].start < store[i].start
  {
    assert store[i - 1].end == store[i - 1 + 1].start;
    if i > 1 { StartsBelow(store, i - 1); }
  }

  /** An inserted phase keeps the chain gapless exactly when it abuts the front or the back. */
  lemma {:induction false} GaplessIffAbuts(store: seq<Phase>, phase: Phase)
    requires Chain(store) && store != [] && phase.start < phase.end
    ensures Gapless(Insert(phase, store, PhaseOrder())) <==> phase.end == store[0].start || phase.start == store[|store| - 1].end
  {
    hide PhaseOrder, Clean, Pairwise, Insert, Gapless;
    var p := InsertSplits(phase, store, PhaseOrder());
    var n := |store|;
    forall i | 0 <= i < n
      ensures store[i].start < store[n - 1].end && (i > 0 ==> store[0].start < store[i].start)
      ensures phase.start < store[i].start ==> p <= i
      ensures store[i].start < phase.start ==> i < p
    {
      ChainStarts(store, i);
      OrderByStart(phase, store[i]);
      OrderByStart(store[i], phase);
      InsertPlace(store, phase, p, i);
    }
    SplicedGapless(store, phase, p);
    assert phase.end == store[0].start ==> p == 0;
    assert phase.start == store[n - 1].end ==> p == n;
  }

  /** Putting a phase of positive duration between two abutting ones cannot leave the chain gapless. */
  lemma {:induction false} SplicedGapless(store: seq<Phase>, phase: Phase, p: nat)
    requires Gapless(store) && store != [] && p <= |store| && phase.start < phase.end
    ensures Gapless(store[..p] + [phase] + store[p..]) <==>
              (p == 0 && phase.end == store[0].start) || (p == |store| && store[|store| - 1].end == phase.start)
  {
    var ordered, n := store[..p] + [phase] + store[p..], |store|;
    assert forall i :: 0 <= i < p ==> ordered[i] == store[i];
    assert forall i :: p < i <= n ==> ordered[i] == store[i - 1];
    assert 0 < p < n ==> store[p - 1].end == store[p - 1 + 1].start;
    if Gapless(ordered) {
      assert p > 0 ==> ordered[p - 1].end == ordered[p - 1 + 1].start;
      assert p < n ==> ordered[p].end == ordered[p + 1].start;
    }
    if (p == 0 && phase.end == store[0].start) || (p == n && store[n - 1].end == phase.start) {
      forall i | 0 <= i < |ordered| - 1 ensures ordered[i].end == ordered[i + 1].start {
        if i > p {
          assert store[i - 1].end == store[i - 1 + 1].start;
        } else if i + 1 < p {
          assert store[i].end == store[i + 1].start;
        }
      }
    }
  }

  lemma {:induction false} InsertPlace(store: seq<Phase>, phase: Phase, p: nat, i: nat)
    requires Sorted(store, PhaseOrder()) && p <= |store| && i < |store|
    requires forall k :: 0 <= k < p ==> !PhaseOrder()(phase, store[k])
    requires p < |store| ==> PhaseOrder()(phase, store[p])
    ensures PhaseOrder()(phase, store[i]) ==> p <= i
    ensures !PhaseOrder()(phase, store[i]) ==> i < p
  {
    hide PhaseOrder;
    OrderIsTotal();
    if p < i {
      assert PhaseOrder()(store[p], store[i]);
      assert PhaseOrder()(phase, store[p]);
    }
  }

  /** A unique, positive phase inside the window, below the limit, is accepted into a non-empty store exactly when
      it abuts the front or the back of the chain. */
  lemma {:induction false} AcceptedIffAbuts(store: seq<Phase>, phase: Phase)
    requires Chain(store) && store != [] && Clean(phase.name) && phase.start < phase.end
    requires !NameTaken(store, phase.name) && |store| < MAX_PHASE_WINDOWS
    ensures Added(store, phase).Ok? <==> phase.end == store[0].start || phase.start == store[|store| - 1].end
  {
    hide Chain, Insert, Gapless, PhaseOrder, Added;
    AddedInserts(store, phase);
    GaplessIffAbuts(store, phase);
  }

  /** Inserting a positive phase with a clean new name keeps everything but, perhaps, the absence of gaps. */
  lemma {:induction false} InsertKeepsRest(store: seq<Phase>, phase: Phase)
    requires Chain(store) && Clean(phase.name) && phase.start < phase.end && !NameTaken(store, phase.name)
    ensures var ordered := Insert(phase, store, PhaseOrder());
            && Sorted(ordered, PhaseOrder()) && Pairwise(ordered, DifferentNames)
            && multiset(ordered) == multiset(store) + multiset{phase}
            && forall i :: 0 <= i < |ordered| ==> ordered[i].start < ordered[i].end && Clean(ordered[i].name)
  {
    hide Insert, Gapless, PhaseOrder, Clean;
    var ordered := Insert(phase, store, PhaseOrder());
    OrderIsTotal();
    InsertSorts(phase, store, PhaseOrder());
    InsertPermutes(phase, store, PhaseOrder());
    InsertKeepsPairwise(phase, store, PhaseOrder(), DifferentNames);
    forall i | 0 <= i < |ordered| ensures ordered[i].start < ordered[i].end && Clean(ordered[i].name) {
      assert ordered[i] in multiset(ordered);
      assert ordered[i] == phase || ordered[i] in store;
    }
  }

  /** Adding a phase keeps the store a chain. */
  lemma {:induction false} AddKeepsChain(store: seq<Phase>, phase: Phase)
    requires Chain(store) && Clean(phase.name) && phase.start < phase.end
    ensures Added(store, phase).Ok? ==> Chain(Added(store, phase).value)
    ensures Added(store, phase).Ok? ==> multiset(Added(store, phase).value) == multiset(store) + multiset{phase}
  {
    hide Insert, Gapless, PhaseOrder, Clean, Normalized, FirstBreak, NameTaken, Pairwise, Sorted;
    if !NameTaken(store, phase.name) && |store| < MAX_PHASE_WINDOWS {
      AddedInserts(store, phase);
      InsertKeepsRest(store, phase);
    }
  }

  // ---------------------------------------------------------------- over any sequence of actions

  datatype Action = Action(name: Option<string>, start: Option<real>, end: Option<real>, windowStart: int, windowEnd: int)

  /** A refused phase leaves the store as it was. */
  function After(store: seq<Phase>, a: Action): seq<Phase> {
    if InputFault(a.name, a.start, a.end, a.windowStart, a.windowEnd).Some? then store
    else match Added(store, Phase(Strip(a.name.value), a.start.value.Floor, a.end.value.Floor))
         case Ok(s) => s
         case Err(_) => store
  }

  function StoreAfter(actions: seq<Action>): seq<Phase> {
    if actions == [] then [] else After(StoreAfter(actions[..|actions| - 1]), actions[|actions| - 1])
  }

  function Durations(store: seq<Phase>): int {
    if store == [] then 0 else store[0].end - store[0].start + Durations(store[1..])
  }

  lemma {:induction false} DurationsTelescope(store: seq<Phase>)
    requires Gapless(store) && store != []
    ensures Durations(store) == store[|store| - 1].end - store[0].start
  {
    if |store| > 1 {
      GaplessTail(store);
      DurationsTelescope(store[1..]);
    }
  }

  /** Whatever is added in whatever order, the store stays sorted, uniquely named, within the limit and gapless,
      so its durations add up to its whole span. */
  lemma {:induction false} StoreIsAlwaysAChain(actions: seq<Action>)
    ensures Chain(StoreAfter(actions))
    ensures var s := StoreAfter(actions); s != [] ==> Durations(s) == s[|s| - 1].end - s[0].start
  {
    hide Added, Clean, Gapless, Durations;
    if actions == [] {
      NothingStored();
    } else {
      var n := |actions| - 1;
      StoreIsAlwaysAChain(actions[..n]);
      var store, a := StoreAfter(actions[..n]), actions[n];
      if InputFault(a.name, a.start, a.end, a.windowStart, a.windowEnd).None? {
        StripOnce(a.name.value);
        AddKeepsChain(store, Phase(Strip(a.name.value), a.start.value.Floor, a.end.value.Floor));
      }
    }
    if StoreAfter(actions) != [] { DurationsTelescope(StoreAfter(actions)); }
  }

  lemma {:induction false} NothingStored()
    ensures Chain([])
  {
  }

  /** The action gives exactly this phase: its stripped name and its two whole numbers, in order and inside the window. */
  predicate Supplies(a: Action, p: Phase) {
    && a.name.Some? && p.name != "" && p.name == Strip(a.name.value)
    && a.start == Some(p.start as real) && a.end == Some(p.end as real)
    && a.windowStart <= p.start < p.end <= a.windowEnd
  }

  /** The form fields pass exactly when they give some phase, and then only the one that is added. */
  lemma {:induction false} InputAccepted(a: Action)
    ensures InputFault(a.name, a.start, a.end, a.windowStart, a.windowEnd).None? <==> exists p :: Supplies(a, p)
    ensures forall p :: Supplies(a, p) ==> p == Phase(Strip(a.name.value), a.start.value.Floor, a.end.value.Floor)
  {
    hide Strip;
    if InputFault(a.name, a.start, a.end, a.windowStart, a.windowEnd).None? {
      assert Supplies(a, Phase(Strip(a.name.value), a.start.value.Floor, a.end.value.Floor));
    }
  }

  /** Every stored phase was given by one of the actions and lies in the window of that action. */
  lemma {:induction false} StoredWereSupplied(actions: seq<Action>, p: Phase)
    requires p in StoreAfter(actions)
    ensures exists i :: 0 <= i < |actions| && Supplies(actions[i], p)
  {
    hide Added, Supplies, Strip;
    var n := |actions| - 1;
    var store, a := StoreAfter(actions[..n]), actions[n];
    if p in store {
      StoredWereSupplied(actions[..n], p);
      var i :| 0 <= i < n && Supplies(actions[..n][i], p);
      assert Supplies(actions[i], p);
    } else {
      NewlyStored(actions[..n], a, p);
      assert Supplies(actions[n], p);
    }
  }

  lemma {:induction false} NewlyStored(actions: seq<Action>, a: Action, p: Phase)
    requires p !in StoreAfter(actions) && p in After(StoreAfter(actions), a)
    ensures Supplies(a, p)
  {
    hide Added, Chain, StoreAfter, Strip, Supplies;
    var store := StoreAfter(actions);
    StoreIsAlwaysAChain(actions);
    InputAccepted(a);
    var phase :| Supplies(a, phase);
    StripOnce(a.name.value);
    GivenPhase(a, phase);
    AddKeepsChain(store, phase);
    assert p in multiset(After(store, a)) && p !in multiset(store);
  }

  lemma {:induction false} GivenPhase(a: Action, p: Phase)
    requires Supplies(a, p)
    ensures a.name.Some? && p.name == Strip(a.name.value) != "" && p.start < p.end
  {
  }

  /** Which phases a store takes: those with a new name, below the limit, that abut an end of a store that is not empty. */
  predicate Fits(store: seq<Phase>, p: Phase) {
    && (forall i :: 0 <= i < |store| ==> store[i].name != p.name) && |store| < 100
    && (store == [] || p.end == store[0].start || p.start == store[|store| - 1].end)
  }

  lemma {:induction false} FirstPhase(p: Phase)
    requires Clean(p.name)
    ensures Added([], p) == Ok([p])
  {
    hide PhaseOrder, Clean;
    CleanPhases([p]);
    assert [] + [p] == [p];
    assert Sort([p], PhaseOrder()) == [p] by { SingleIsSorted(p); }
  }

  lemma {:induction false} SingleIsSorted(p: Phase)
    ensures Sort([p], PhaseOrder()) == [p]
  {
    hide PhaseOrder;
    assert [p][1..] == [];
  }

  /** At every point of every sequence of actions: one that gives a fitting phase adds exactly this phase, at the
      front or at the back, and every other one leaves the store as it is. */
  lemma {:induction false} EachActionAdds(actions: seq<Action>, a: Action, p: Phase)
    ensures var store, after := StoreAfter(actions), StoreAfter(actions + [a]);
            && (Supplies(a, p) && Fits(store, p) ==> after == [p] + store || after == store + [p])
            && (Supplies(a, p) && !Fits(store, p) ==> after == store)
            && (!(exists x :: Supplies(a, x)) ==> after == store)
  {
    hide Added, Supplies, Strip, Chain, Fits, StoreAfter;
    var store := StoreAfter(actions);
    StoreAfterOne(actions, a);
    InputAccepted(a);
    if Supplies(a, p) {
      GivenPhase(a, p);
      StripOnce(a.name.value);
      StoreIsAlwaysAChain(actions);
      AddedExactly(store, p);
    }
  }

  lemma {:induction false} StoreAfterOne(actions: seq<Action>, a: Action)
    ensures StoreAfter(actions + [a]) == After(StoreAfter(actions), a)
  {
    assert (actions + [a])[..|actions|] == actions;
  }

  /** A chain takes exactly the fitting phases, at one of its ends. */
  lemma {:induction false} AddedExactly(store: seq<Phase>, p: Phase)
    requires Chain(store) && Clean(p.name) && p.start < p.end
    ensures Added(store, p).Ok? <==> Fits(store, p)
    ensures Fits(store, p) ==> Added(store, p) == Ok([p] + store) || Added(store, p) == Ok(store + [p])
  {
    hide PhaseOrder, Clean, Normalized, FirstBreak, Insert, Gapless, Pairwise, Sorted;
    if store == [] {
      FirstPhase(p);
      assert [p] + [] == [p];
    } else if !NameTaken(store, p.name) && |store| < MAX_PHASE_WINDOWS {
      AcceptedIffAbuts(store, p);
      AddedInserts(store, p);
      if Fits(store, p) { InsertedAtEnd(store, p); }
    }
  }

  lemma {:induction false} InsertedAtEnd(store: seq<Phase>, p: Phase)
    requires Chain(store) && store != [] && p.start < p.end && Gapless(Insert(p, store, PhaseOrder()))
    ensures Insert(p, store, PhaseOrder()) == [p] + store || Insert(p, store, PhaseOrder()) == store + [p]
  {
    hide PhaseOrder, Clean, Pairwise, Insert, Gapless, Sorted;
    var k := InsertSplits(p, store, PhaseOrder());
    SplicedGapless(store, p, k);
    assert store[..0] + [p] + store[0..] == [p] + store;
    assert store[..|store|] + [p] + store[|store|..] == store + [p];
  }

  predicate IsValue(n: int, x: real) {
    x == n as real
  }

  ghost predicate Whole(x: Option<real>) {
    x.Some? && exists n :: IsValue(n, x.value)
  }

  lemma {:induction false} WholeIsFloor(x: real)
    ensures Whole(Some(x)) <==> x.Floor as real == x
  {
    assert IsValue(x.Floor, x) <==> x.Floor as real == x;
  }

  /** Which form fields are refused, and that the first check that fails decides the error. */
  lemma {:induction false} FaultMeans(a: Action)
    ensures var fault := InputFault(a.name, a.start, a.end, a.windowStart, a.windowEnd);
            var named := a.name.Some? && !Blank(a.name.value);
            && (fault == Some(InvalidName) <==> !named)
            && (fault == Some(InvalidStart) <==> named && a.start.None?)
            && (fault == Some(InvalidEnd) <==> named && a.start.Some? && a.end.None?)
            && (fault == Some(NotInteger) <==> named && a.start.Some? && a.end.Some? && !(Whole(a.start) && Whole(a.end)))
            && (fault == Some(NotPositive) <==> named && Whole(a.start) && Whole(a.end) && a.start.value >= a.end.value)
            && (fault == Some(OutsideWindow) <==> named && Whole(a.start) && Whole(a.end) && a.start.value < a.end.value
                                                  && (a.start.value < a.windowStart as real || a.end.value > a.windowEnd as real))
  {
    hide Strip, Blank;
    if a.name.Some? { var i, j := StripCuts(a.name.value); }
    if a.start.Some? { WholeIsFloor(a.start.value); }
    if a.end.Some? { WholeIsFloor(a.end.value); }
  }

  /** Which clean, positive phases a chain refuses, and why. */
  lemma {:induction false} RefusalMeans(store: seq<Phase>, p: Phase)
    requires Chain(store) && Clean(p.name) && p.start < p.end && Added(store, p).Err?
    ensures Added(store, p).error == NameUsed <==> exists i :: 0 <= i < |store| && store[i].name == p.name
    ensures Added(store, p).error == LimitReached <==> |store| >= 100 && forall i :: 0 <= i < |store| ==> store[i].name != p.name
    ensures Added(store, p).error in {NameUsed, LimitReached} || exists k: nat :: BreakAt(Insert(p, store, PhaseOrder()), k, Added(store, p).error)
  {
    hide PhaseOrder, Clean, Normalized, FirstBreak, Insert, Gapless, Pairwise, Sorted, BreakAt;
    if !NameTaken(store, p.name) && |store| < MAX_PHASE_WINDOWS {
      AddedInserts(store, p);
      var k: nat :| BreakAt(Insert(p, store, PhaseOrder()), k, Added(store, p).error);
      BreakIsBreak(Insert(p, store, PhaseOrder()), k, Added(store, p).error);
    }
  }

  lemma {:induction false} BreakIsBreak(ordered: seq<Phase>, k: nat, e: AddError)
    requires BreakAt(ordered, k, e)
    ensures e.Overlap? || e.Gap?
  {
  }
}
