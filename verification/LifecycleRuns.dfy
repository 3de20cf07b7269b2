/**
 Safety and progress of the dataset lifecycle manager over whole runs: every statement quantifies over
 every initial descriptor list, every sequence of events and every position in it.
 */
module LifecycleRuns {
  import opened Wrappers
  import opened LifecycleProtocol
  import opened LifecycleInvariant

  // ---------------------------------------------------------------- what one step does to one request

  /** A terminal record never changes; cancellation and supersession marks are never withdrawn. */
  lemma {:induction false} StepTouches(m: Manager, e: Event, r: nat)
    requires Core(m) && r < |m.requests|
    ensures var m' := Apply(m, e);
            && r < |m'.requests|
            && (Terminal(m.requests[r].state) ==> m'.requests[r] == m.requests[r])
            && (m.requests[r].cancelled ==> m'.requests[r].cancelled)
            && (m.requests[r].superseded ==> m'.requests[r].superseded)
  {
    match e {
      case Submit(d, ok) => SubmitTouches(m, d, ok, r);
      case Close => CloseTouches(m, r);
      case Register(d, ok) =>
      case _ =>
    }
  }

  /** `StepTouches` at position `i` of a run. */
  lemma {:induction false} NextTouches(ds: seq<Descriptor>, es: seq<Event>, i: nat, q: Request, r: nat)
    requires UniqueIds(ds) && i < |es| && r < |At(ds, es, i).requests| && At(ds, es, i).requests[r] == q
    ensures r < |At(ds, es, i + 1).requests|
    ensures Terminal(q.state) ==> At(ds, es, i + 1).requests[r] == q
    ensures q.cancelled ==> At(ds, es, i + 1).requests[r].cancelled
    ensures q.superseded ==> At(ds, es, i + 1).requests[r].superseded
  {
    Reachable(ds, es, i);
    StepTouches(At(ds, es, i), es[i], r);
  }

  // ---------------------------------------------------------------- terminal states and cancellation

  /** Terminal states are absorbing: the whole request record is frozen from then on. */
  lemma {:induction false} TerminalIsAbsorbing(ds: seq<Descriptor>, es: seq<Event>, i: nat, j: nat, r: nat)
    requires UniqueIds(ds) && i <= j <= |es|
    requires r < |At(ds, es, i).requests| && Terminal(At(ds, es, i).requests[r].state)
    ensures r < |At(ds, es, j).requests| && At(ds, es, j).requests[r] == At(ds, es, i).requests[r]
    decreases j
  {
    hide Apply;
    if i < j {
      TerminalIsAbsorbing(ds, es, i, j - 1, r);
      NextTouches(ds, es, j - 1, At(ds, es, i).requests[r], r);
    }
  }

  predicate Abandoned(m: Manager, r: nat) {
    r < |m.requests| && (m.requests[r].cancelled || m.requests[r].superseded)
  }

  lemma {:induction false} NextAbandoned(ds: seq<Descriptor>, es: seq<Event>, i: nat, r: nat)
    requires UniqueIds(ds) && i < |es| && Abandoned(At(ds, es, i), r)
    ensures Abandoned(At(ds, es, i + 1), r)
  {
    NextTouches(ds, es, i, At(ds, es, i).requests[r], r);
  }

  lemma {:induction false} MarksPersist(ds: seq<Descriptor>, es: seq<Event>, i: nat, j: nat, r: nat)
    requires UniqueIds(ds) && i <= j <= |es| && Abandoned(At(ds, es, i), r)
    ensures Abandoned(At(ds, es, j), r)
    decreases j
  {
    hide Apply;
    if i < j {
      MarksPersist(ds, es, i, j - 1, r);
      NextAbandoned(ds, es, j - 1, r);
    }
  }

  /** A request once cancelled or superseded never becomes ready, and its loader has been told to stop. */
  lemma {:induction false} AbandonedNeverReady(ds: seq<Descriptor>, es: seq<Event>, i: nat, j: nat, r: nat)
    requires UniqueIds(ds) && i <= j <= |es|
    requires Abandoned(At(ds, es, i), r)
    ensures r < |At(ds, es, j).requests|
    ensures At(ds, es, j).requests[r].state != Ready && At(ds, es, j).requests[r].signalled
  {
    MarksPersist(ds, es, i, j, r);
    Reachable(ds, es, j);
  }

  // ---------------------------------------------------------------- handles

  lemma {:induction false} StepHandles(m: Manager, e: Event)
    requires Core(m)
    ensures var m' := Apply(m, e);
            && (m'.current != m.current ==> e.FinishLoaded? && Publishes(m))
            && (e.FinishLoaded? && Publishes(m) ==>
                  && m'.current == Some(Handle(m.worker.request, m.requests[m.worker.request].dataset, e.store))
                  && m.worker.request < |m'.requests| && m'.requests[m.worker.request].state == Ready
                  && (m.current.Some? ==> m.current.value.request < m.worker.request))
  {
  }

  /** A step changes the handles exactly when it publishes, and then to the request being loaded. */
  lemma {:induction false} HandlesChangeOnlyByPublishing(ds: seq<Descriptor>, es: seq<Event>, i: nat)
    requires UniqueIds(ds) && i < |es|
    ensures At(ds, es, i + 1).current == At(ds, es, i + 1).lastGood
    ensures At(ds, es, i + 1).current != At(ds, es, i).current ==> es[i].FinishLoaded? && Publishes(At(ds, es, i))
    ensures es[i].FinishLoaded? && Publishes(At(ds, es, i)) ==>
              var m, m' := At(ds, es, i), At(ds, es, i + 1);
              && m'.current == Some(Handle(m.worker.request, m.requests[m.worker.request].dataset, es[i].store))
              && m.worker.request < |m'.requests| && m'.requests[m.worker.request].state == Ready
              && (m.current.Some? ==> m.current.value.request < m.worker.request)
  {
    Reachable(ds, es, i);
    StepHandles(At(ds, es, i), es[i]);
    StepKeeps(At(ds, es, i), es[i]);
  }

  lemma {:induction false} NextHandle(ds: seq<Descriptor>, es: seq<Event>, i: nat, h: Option<Handle>, h': Option<Handle>)
    requires UniqueIds(ds) && i < |es| && h == At(ds, es, i).current && h' == At(ds, es, i + 1).current
    ensures h.Some? ==> h'.Some? && (h' == h || h.value.request < h'.value.request)
  {
    Reachable(ds, es, i);
    StepHandles(At(ds, es, i), es[i]);
  }

  /** Published generations strictly increase along a run, and the handle never goes away. */
  lemma {:induction false} PublishedGenerationsIncrease(ds: seq<Descriptor>, es: seq<Event>, i: nat, j: nat)
    requires UniqueIds(ds) && i <= j <= |es|
    ensures var h, h' := At(ds, es, i).current, At(ds, es, j).current;
            h.Some? ==> h'.Some? && (h' == h || h.value.request < h'.value.request)
    decreases j
  {
    hide Apply;
    if i < j {
      PublishedGenerationsIncrease(ds, es, i, j - 1);
      NextHandle(ds, es, j - 1, At(ds, es, j - 1).current, At(ds, es, j).current);
    }
  }

  /** Both handles are the store of the highest-generation request that was ever ready. */
  lemma {:induction false} HandleIsNewestReady(ds: seq<Descriptor>, es: seq<Event>, i: nat, r: nat)
    requires UniqueIds(ds) && i <= |es|
    requires r < |At(ds, es, i).requests| && At(ds, es, i).requests[r].state == Ready
    ensures var m := At(ds, es, i);
            && m.current.Some? && m.lastGood == m.current
            && r <= m.current.value.request < |m.requests| && m.requests[m.current.value.request].state == Ready
  {
    Reachable(ds, es, i);
  }

  // ---------------------------------------------------------------- newest wins, exactly

  /** Position of the last begin before `p` that took effect. */
  ghost function LastBegin(ds: seq<Descriptor>, es: seq<Event>, p: nat): (b: nat)
    requires p <= |es|
    ensures b <= p
  {
    if p == 0 then 0
    else if es[p - 1].Begin? && At(ds, es, p - 1).worker.Dequeued? then p - 1
    else LastBegin(ds, es, p - 1)
  }

  /** Position of the last dequeue before `p` that handed a request to the worker. */
  ghost function LastDequeue(ds: seq<Descriptor>, es: seq<Event>, p: nat): (d: nat)
    requires p <= |es|
    ensures d <= p
  {
    if p == 0 then 0
    else if es[p - 1].Dequeue? && At(ds, es, p).worker != At(ds, es, p - 1).worker then p - 1
    else LastDequeue(ds, es, p - 1)
  }

  /** While a request loads, exactly a new submission or the first close supersedes it. */
  lemma {:induction false} StepLoading(m: Manager, e: Event)
    requires Core(m) && Apply(m, e).worker.Running?
    ensures var m' := Apply(m, e);
            var r := m'.worker.request;
            && r < |m.requests| <= |m'.requests| && (m.closed ==> m'.closed)
            && (m.worker == m'.worker || (e.Begin? && m.worker == Dequeued(r)))
            && (m.worker == m'.worker ==>
                  && !(e.Begin? && m.worker.Dequeued?)
                  && (m'.requests[r].superseded <==> m.requests[r].superseded || |m'.requests| != |m.requests| || m'.closed != m.closed))
            && (m.worker != m'.worker ==> !m'.requests[r].superseded && |m'.requests| == |m.requests| && m'.closed == m.closed)
  {
    var r := Apply(m, e).worker.request;
    match e {
      case Submit(d, ok) => SubmitTouches(m, d, ok, r);
      case Close => CloseTouches(m, r);
      case Register(d, ok) =>
      case _ =>
    }
  }

  /** Nothing supersedes a dequeued request before it begins. */
  lemma {:induction false} StepDequeued(m: Manager, e: Event)
    requires Core(m) && Apply(m, e).worker.Dequeued?
    ensures var m' := Apply(m, e);
            var r := m'.worker.request;
            && r < |m.requests| <= |m'.requests|
            && (m.worker != m'.worker ==>
                  e.Dequeue? && !m.closed && m.pending == Some(r) && |m.requests| == r + 1 && |m'.requests| == |m.requests|)
  {
  }

  /** What has held since the begin that started the load seen in `m'`. */
  predicate SinceBegin(m: Manager, m': Manager) {
    && m'.worker.Running? && m.worker == Dequeued(m'.worker.request)
    && m'.worker.request < |m.requests| <= |m'.requests| && (m.closed ==> m'.closed)
    && (m'.requests[m'.worker.request].superseded <==> |m'.requests| != |m.requests| || m'.closed != m.closed)
  }

  lemma {:induction false} SinceBeginStep(m0: Manager, m: Manager, e: Event)
    requires Core(m) && Apply(m, e).worker.Running?
    requires m.worker.Running? ==> SinceBegin(m0, m)
    requires !m.worker.Running? ==> m0 == m
    ensures SinceBegin(m0, Apply(m, e))
    ensures m.worker.Running? <==> !(e.Begin? && m.worker.Dequeued?)
  {
    StepLoading(m, e);
  }

  lemma {:induction false} LoadingSince(ds: seq<Descriptor>, es: seq<Event>, p: nat)
    requires UniqueIds(ds) && p <= |es| && At(ds, es, p).worker.Running?
    ensures LastBegin(ds, es, p) < p && es[LastBegin(ds, es, p)].Begin?
    ensures SinceBegin(At(ds, es, LastBegin(ds, es, p)), At(ds, es, p))
  {
    hide SinceBegin, ApplyRegister, ApplySubmit, ApplyCancel, ApplyClose, ApplyDequeue, ApplyBegin, ApplyFinish, ApplyFinishLoaded, ApplyStop;
    Reachable(ds, es, p - 1);
    if At(ds, es, p - 1).worker.Running? {
      LoadingSince(ds, es, p - 1);
      SinceBeginStep(At(ds, es, LastBegin(ds, es, p - 1)), At(ds, es, p - 1), es[p - 1]);
    } else {
      SinceBeginStep(At(ds, es, p - 1), At(ds, es, p - 1), es[p - 1]);
    }
  }

  /** What has held since the dequeue that handed over the request seen in `m'`. */
  predicate SinceDequeue(m: Manager, m': Manager) {
    && m'.worker.Dequeued? && !m.closed && m.pending == Some(m'.worker.request)
    && |m.requests| == m'.worker.request + 1 <= |m'.requests|
  }

  lemma {:induction false} SinceDequeueStep(m0: Manager, m: Manager, e: Event)
    requires Core(m) && Apply(m, e).worker.Dequeued?
    requires m.worker.Dequeued? ==> SinceDequeue(m0, m)
    requires !m.worker.Dequeued? ==> m0 == m
    ensures SinceDequeue(m0, Apply(m, e))
    ensures m.worker.Dequeued? ==> m.worker == Apply(m, e).worker
    ensures !m.worker.Dequeued? ==> e.Dequeue?
  {
    StepDequeued(m, e);
  }

  /** The dequeue that put the worker where it is, is the previous step or happened before it. */
  lemma {:induction false} DequeuedBefore(ds: seq<Descriptor>, es: seq<Event>, p: nat)
    requires UniqueIds(ds) && p <= |es| && At(ds, es, p).worker.Dequeued?
    ensures p > 0
    ensures if At(ds, es, p - 1).worker.Dequeued?
            then At(ds, es, p - 1).worker == At(ds, es, p).worker && LastDequeue(ds, es, p) == LastDequeue(ds, es, p - 1)
            else es[p - 1].Dequeue? && LastDequeue(ds, es, p) == p - 1
  {
    Reachable(ds, es, p - 1);
    StepDequeued(At(ds, es, p - 1), es[p - 1]);
  }

  lemma {:induction false} DequeuedSince(ds: seq<Descriptor>, es: seq<Event>, p: nat)
    requires UniqueIds(ds) && p <= |es| && At(ds, es, p).worker.Dequeued?
    ensures LastDequeue(ds, es, p) < p && es[LastDequeue(ds, es, p)].Dequeue?
    ensures SinceDequeue(At(ds, es, LastDequeue(ds, es, p)), At(ds, es, p))
  {
    hide SinceDequeue, ApplyRegister, ApplySubmit, ApplyCancel, ApplyClose, ApplyDequeue, ApplyBegin, ApplyFinish, ApplyFinishLoaded, ApplyStop;
    DequeuedBefore(ds, es, p);
    Reachable(ds, es, p - 1);
    if At(ds, es, p - 1).worker.Dequeued? {
      DequeuedSince(ds, es, p - 1);
      SinceDequeueStep(At(ds, es, LastDequeue(ds, es, p - 1)), At(ds, es, p - 1), es[p - 1]);
    } else {
      SinceDequeueStep(At(ds, es, p - 1), At(ds, es, p - 1), es[p - 1]);
    }
  }

  /**
   Newest wins, exactly.  A finished load is published if and only if the request was not cancelled and
   neither a submission was accepted nor the manager closed since its begin; at its dequeue it was the
   newest request and the manager was open.  So every newer request of a published one, and a close that
   it outlives, fall in the gap between dequeue and begin.
   */
  lemma {:induction false} PublishedExactly(ds: seq<Descriptor>, es: seq<Event>, p: nat)
    requires UniqueIds(ds) && p <= |es| && At(ds, es, p).worker.Running?
    ensures var b := LastBegin(ds, es, p);
            var d := LastDequeue(ds, es, b);
            var atDequeue, atBegin, atFinish := At(ds, es, d), At(ds, es, b), At(ds, es, p);
            var r := atFinish.worker.request;
            && d < b < p && es[d].Dequeue? && es[b].Begin? && r < |atFinish.requests|
            && atDequeue.pending == Some(r) && |atDequeue.requests| == r + 1 && !atDequeue.closed
            && (Publishes(atFinish) <==> !atFinish.requests[r].cancelled
                                         && |atFinish.requests| == |atBegin.requests| && atFinish.closed == atBegin.closed)
  {
    LoadingSince(ds, es, p);
    DequeuedSince(ds, es, LastBegin(ds, es, p));
  }

  /** The documented claim, exactly: a publishing request is the newest of an open manager if and only if nothing was
      submitted and no close happened between its dequeue and its begin. */
  lemma {:induction false} NewestWinsIffQuietGap(ds: seq<Descriptor>, es: seq<Event>, p: nat)
    requires UniqueIds(ds) && p <= |es| && Publishes(At(ds, es, p))
    ensures var atFinish, atBegin := At(ds, es, p), At(ds, es, LastBegin(ds, es, p));
            var atDequeue := At(ds, es, LastDequeue(ds, es, LastBegin(ds, es, p)));
            atFinish.latest == Some(atFinish.worker.request) && !atFinish.closed
            <==> |atBegin.requests| == |atDequeue.requests| && atBegin.closed == atDequeue.closed
  {
    hide At, LastBegin, LastDequeue;
    PublishedExactly(ds, es, p);
    Reachable(ds, es, p);
  }

  lemma {:induction false} DequeuedThroughout(ds: seq<Descriptor>, es: seq<Event>, p: nat, k: nat)
    requires UniqueIds(ds) && p <= |es| && At(ds, es, p).worker.Dequeued? && LastDequeue(ds, es, p) < k <= p
    ensures At(ds, es, k).worker == At(ds, es, p).worker
  {
    hide Apply;
    DequeuedBefore(ds, es, p);
    if k < p {
      DequeuedThroughout(ds, es, p - 1, k);
    }
  }

  predicate Fused(es: seq<Event>) {
    forall i :: 0 <= i < |es| && es[i].Dequeue? ==> i + 1 < |es| && es[i + 1].Begin?
  }

  /** If dequeue and begin were one critical section, only the newest request of an open manager publishes. */
  lemma {:induction false} FusedNewestWins(ds: seq<Descriptor>, es: seq<Event>, p: nat)
    requires UniqueIds(ds) && p < |es| && Fused(es) && es[p].FinishLoaded? && Publishes(At(ds, es, p))
    ensures At(ds, es, p).latest == Some(At(ds, es, p).worker.request) && !At(ds, es, p).closed
  {
    hide Apply;
    PublishedExactly(ds, es, p);
    Reachable(ds, es, p);
    var b := LastBegin(ds, es, p);
    var d := LastDequeue(ds, es, b);
    LoadingSince(ds, es, p);
    DequeuedSince(ds, es, b);
    if d + 1 < b {
      DequeuedThroughout(ds, es, b, d + 2);
      BeginLeaves(ds, es, d + 1);
    }
    DequeueAlone(ds, es, d);
  }

  lemma {:induction false} BeginLeaves(ds: seq<Descriptor>, es: seq<Event>, i: nat)
    requires UniqueIds(ds) && i < |es| && es[i].Begin?
    ensures !At(ds, es, i + 1).worker.Dequeued?
  {
    Reachable(ds, es, i);
  }

  lemma {:induction false} DequeueAlone(ds: seq<Descriptor>, es: seq<Event>, i: nat)
    requires i < |es| && es[i].Dequeue?
    ensures At(ds, es, i + 1).requests == At(ds, es, i).requests && At(ds, es, i + 1).closed == At(ds, es, i).closed
  {
  }

  /**
   The claim that only the newest request can become the current dataset is false of the code: a
   submission that falls between dequeue and begin does not stop the older load from publishing.
   */
  lemma {:induction false} OlderRequestPublishes()
    ensures var ds := [Descriptor("a", "/a"), Descriptor("b", "/b")];
            var es := [Submit("a", true), Dequeue, Submit("b", true), Begin, FinishLoaded(7)];
            && At(ds, es, 5).current == Some(Handle(0, "a", 7))
            && At(ds, es, 5).latest == Some(1) && At(ds, es, 5).pending == Some(1)
  {
  }

  /** Closing in the same gap does not stop the load from publishing either. */
  lemma {:induction false} ClosedManagerPublishes()
    ensures var ds := [Descriptor("a", "/a")];
            var es := [Submit("a", true), Dequeue, Close, Begin, FinishLoaded(7)];
            At(ds, es, 5).closed && At(ds, es, 5).current == Some(Handle(0, "a", 7))
  {
  }

  // ---------------------------------------------------------------- capacity

  /** At most two requests are live, each waiting or in the worker's hands. */
  lemma {:induction false} AtMostTwoLive(ds: seq<Descriptor>, es: seq<Event>, i: nat, x: nat, y: nat, z: nat)
    requires UniqueIds(ds) && i <= |es| && x < y < z < |At(ds, es, i).requests|
    ensures var rs := At(ds, es, i).requests;
            Terminal(rs[x].state) || Terminal(rs[y].state) || Terminal(rs[z].state)
  {
    Reachable(ds, es, i);
    var m := At(ds, es, i);
    assert !Held(m, x) || !Held(m, y) || !Held(m, z);
  }

  /** The metadata table never exceeds 65 entries, and live requests and the latest one stay in it. */
  lemma {:induction false} TableIsBounded(ds: seq<Descriptor>, es: seq<Event>, i: nat, r: nat)
    requires UniqueIds(ds) && i <= |es| && r < |At(ds, es, i).requests|
    requires !Terminal(At(ds, es, i).requests[r].state) || At(ds, es, i).latest == Some(r)
    ensures |At(ds, es, i).table| <= 65 && CancelResult(At(ds, es, i), r) == Ok(())
  {
    Reachable(ds, es, i);
  }

  /** Trimming happens exactly at 65 entries and leaves 48 old ones, all others being terminal. */
  lemma {:induction false} SubmitTrims(ds: seq<Descriptor>, es: seq<Event>, i: nat, dataset: string)
    requires UniqueIds(ds) && i <= |es| && SubmitResult(At(ds, es, i), dataset, true).Ok?
    ensures var m := At(ds, es, i);
            var m' := Apply(m, Submit(dataset, true));
            && |m'.table| == (if |m.table| > 64 then 49 else |m.table| + 1)
            && (forall r :: r in m.table && r !in m'.table ==> r < |m.requests| && Terminal(m.requests[r].state))
  {
    Reachable(ds, es, i);
    TrimmedTable(At(ds, es, i));
  }

  /** Pigeonhole: distinct IDs drawn from a set are no more than its size. */
  lemma {:induction false} DistinctBound(ds: seq<Descriptor>, ids: set<string>)
    requires UniqueIds(ds) && forall k :: 0 <= k < |ds| ==> ds[k].id in ids
    ensures |ds| <= |ids|
  {
    if ds != [] {
      DistinctBound(ds[1..], ids - {ds[0].id});
    }
  }

  /** The "too many active datasets" rejection is unreachable. */
  lemma {:induction false} NeverTooManyActive(ds: seq<Descriptor>, es: seq<Event>, i: nat, d: Descriptor, admissible: bool)
    requires UniqueIds(ds) && i <= |es|
    ensures RegisterResult(At(ds, es, i), d, admissible) != Err(TooManyActive)
  {
    Reachable(ds, es, i);
    SomeDescriptorIsFree(At(ds, es, i), d, admissible);
  }

  /** The datasets that registration must keep, at most three. */
  ghost function InUse(m: Manager): (ids: set<string>)
    ensures |ids| <= 3
  {
    (if m.current.Some? then {m.current.value.dataset} else {})
    + (if m.pending.Some? && m.pending.value < |m.requests| then {m.requests[m.pending.value].dataset} else {})
    + (if (m.worker.Dequeued? || m.worker.Running?) && m.worker.request < |m.requests| then {m.requests[m.worker.request].dataset} else {})
  }

  lemma {:induction false} ProtectedIsInUse(m: Manager, id: string)
    requires Core(m) && ProtectedDataset(m, id)
    ensures id in InUse(m)
  {
  }

  lemma {:induction false} SomeDescriptorIsFree(m: Manager, d: Descriptor, admissible: bool)
    requires Inv(m)
    ensures RegisterResult(m, d, admissible) != Err(TooManyActive)
  {
    hide ProtectedDataset, InUse;
    if RegisterResult(m, d, admissible) == Err(TooManyActive) {
      forall k | 0 <= k < |m.descriptors| ensures m.descriptors[k].id in InUse(m) {
        ProtectedIsInUse(m, m.descriptors[k].id);
      }
      DistinctBound(m.descriptors, InUse(m));
    }
  }

  /** Registering never makes a live request or the current dataset unknown. */
  lemma {:induction false} InUseStaysApproved(ds: seq<Descriptor>, es: seq<Event>, i: nat, r: nat)
    requires UniqueIds(ds) && i <= |es| && r < |At(ds, es, i).requests|
    ensures var m := At(ds, es, i);
            && (!Terminal(m.requests[r].state) ==> Approved(m.descriptors, m.requests[r].dataset))
            && (m.current.Some? ==> Approved(m.descriptors, m.current.value.dataset))
  {
    Reachable(ds, es, i);
  }

  // ---------------------------------------------------------------- progress

  /** Worker steps left before every request is terminal, if nothing more is submitted. */
  function Work(m: Manager): nat {
    (if m.pending.Some? && !m.closed then 3 else 0)
    + (match m.worker case Dequeued(_) => 2 case Running(_) => 1 case _ => 0)
  }

  predicate AllTerminal(m: Manager) {
    forall r :: 0 <= r < |m.requests| ==> Terminal(m.requests[r].state)
  }

  predicate Effective(m: Manager, e: Event) {
    match e
    case Dequeue => m.worker.Idle? && m.pending.Some? && !m.closed
    case Begin => m.worker.Dequeued?
    case FinishLoaded(_) => m.worker.Running?
    case FinishFailed => m.worker.Running?
    case _ => false
  }

  /** Without a new submission no step adds work, and an enabled worker step removes some. */
  lemma {:induction false} StepWork(m: Manager, e: Event)
    requires Inv(m) && !e.Submit?
    ensures Work(Apply(m, e)) <= Work(m)
    ensures Effective(m, e) ==> Work(Apply(m, e)) < Work(m)
  {
  }

  /** Deadlock freedom: while some request is live, some worker step is enabled. */
  lemma {:induction false} LiveImpliesEnabled(ds: seq<Descriptor>, es: seq<Event>, i: nat)
    requires UniqueIds(ds) && i <= |es|
    ensures !AllTerminal(At(ds, es, i)) ==>
              Effective(At(ds, es, i), Dequeue) || Effective(At(ds, es, i), Begin) || Effective(At(ds, es, i), FinishFailed)
    ensures Work(At(ds, es, i)) == 0 ==> AllTerminal(At(ds, es, i))
  {
    Reachable(ds, es, i);
    var m := At(ds, es, i);
    if r :| 0 <= r < |m.requests| && !Terminal(m.requests[r].state) {
      assert Held(m, r);
    }
  }

  /** Number of enabled worker steps in the run between `i` and `j`. */
  function Steps(ds: seq<Descriptor>, es: seq<Event>, i: nat, j: nat): nat
    requires i <= j <= |es|
    decreases j
  {
    if i == j then 0
    else Steps(ds, es, i, j - 1) + (if Effective(At(ds, es, j - 1), es[j - 1]) then 1 else 0)
  }

  /** Progress: without new submissions at most five worker steps are possible, and once taken every request is terminal. */
  lemma {:induction false} Quiesces(ds: seq<Descriptor>, es: seq<Event>, i: nat, j: nat)
    requires UniqueIds(ds) && i <= j <= |es|
    requires forall k :: i <= k < j ==> !es[k].Submit?
    ensures Steps(ds, es, i, j) + Work(At(ds, es, j)) <= Work(At(ds, es, i)) <= 5
    ensures Steps(ds, es, i, j) == Work(At(ds, es, i)) ==> AllTerminal(At(ds, es, j))
    decreases j
  {
    hide Apply, Inv, Work, AllTerminal;
    LiveImpliesEnabled(ds, es, j);
    if i < j {
      Quiesces(ds, es, i, j - 1);
      Reachable(ds, es, j - 1);
      StepWork(At(ds, es, j - 1), es[j - 1]);
    } else {
      WorkIsBounded(At(ds, es, j));
    }
  }

  lemma {:induction false} WorkIsBounded(m: Manager)
    ensures Work(m) <= 5
  {
  }
}
