/**
 What each critical section does to the requests, the slots and the handles, at every position of every run.
 A request is live until it is ready, failed, cancelled or superseded.
 */
module LifecycleEffects {
  import opened Wrappers
  import opened LifecycleProtocol
  import opened LifecycleInvariant
  import opened LifecycleRuns

  predicate Live(m: Manager, r: nat) {
    r < |m.requests| && !Terminal(m.requests[r].state)
  }

  /** Nothing but request records may differ, and of these only those of the given requests. */
  ghost predicate OnlyRecords(m: Manager, m': Manager, rs: set<nat>) {
    && m'.closed == m.closed && m'.table == m.table && m'.pending == m.pending && m'.active == m.active && m'.latest == m.latest
    && m'.worker == m.worker && m'.current == m.current && m'.lastGood == m.lastGood && m'.descriptors == m.descriptors
    && |m'.requests| == |m.requests|
    && forall r: nat :: r < |m.requests| && r !in rs ==> m'.requests[r] == m.requests[r]
  }

  /** The record of a request that was told to stop and may not be published any more. */
  predicate EndedBy(q: Request, q': Request) {
    && q'.dataset == q.dataset && q'.cancelled == q.cancelled
    && q'.superseded && q'.signalled && q'.state == Superseded
  }

  // ---------------------------------------------------------------- cancellation

  /** Cancelling a live request marks it, signals its loader and changes nothing else. */
  lemma {:induction false} CancelMarks(ds: seq<Descriptor>, es: seq<Event>, i: nat, r: nat)
    requires UniqueIds(ds) && i < |es| && es[i] == Cancel(r) && Live(At(ds, es, i), r)
    ensures var m, m' := At(ds, es, i), At(ds, es, i + 1);
            && OnlyRecords(m, m', {r}) && CancelResult(m, r) == Ok(())
            && m'.requests[r].cancelled && m'.requests[r].signalled && m'.requests[r].state == Cancelling
            && m'.requests[r].dataset == m.requests[r].dataset && m'.requests[r].superseded == m.requests[r].superseded
  {
    Reachable(ds, es, i);
  }

  /** Cancelling a terminal or unknown request changes nothing. */
  lemma {:induction false} CancelIgnored(ds: seq<Descriptor>, es: seq<Event>, i: nat, r: nat)
    requires UniqueIds(ds) && i < |es| && es[i] == Cancel(r) && !Live(At(ds, es, i), r)
    ensures At(ds, es, i + 1) == At(ds, es, i)
    ensures CancelResult(At(ds, es, i), r) == if r in At(ds, es, i).table then Ok(()) else Err(UnknownToken)
  {
  }

  /** The current handle belongs to a request that is ready. */
  lemma {:induction false} HandleIsReady(ds: seq<Descriptor>, es: seq<Event>, j: nat)
    requires UniqueIds(ds) && j <= |es|
    ensures var m := At(ds, es, j);
            m.current.Some? ==> m.current.value.request < |m.requests| && m.requests[m.current.value.request].state == Ready
  {
    Reachable(ds, es, j);
  }

  /** A live request that is cancelled is never ready again, and never becomes the current dataset. */
  lemma {:induction false} CancelledNeverPublished(ds: seq<Descriptor>, es: seq<Event>, i: nat, r: nat, j: nat)
    requires UniqueIds(ds) && i < j <= |es| && es[i] == Cancel(r) && Live(At(ds, es, i), r)
    ensures var m := At(ds, es, j);
            && r < |m.requests| && m.requests[r].state != Ready
            && (m.current.Some? ==> m.current.value.request != r) && (m.lastGood.Some? ==> m.lastGood.value.request != r)
  {
    hide At;
    CancelMarks(ds, es, i, r);
    AbandonedNeverReady(ds, es, i + 1, j, r);
    HandleIsReady(ds, es, j);
    Reachable(ds, es, j);
  }

  // ---------------------------------------------------------------- submission and closing

  /** An accepted submission adds one queued request, the newest and the one waiting, and supersedes every live
      request except one that is dequeued but has not begun. */
  lemma {:induction false} SubmitSupersedes(ds: seq<Descriptor>, es: seq<Event>, i: nat, dataset: string)
    requires UniqueIds(ds) && i < |es| && es[i] == Submit(dataset, true)
    requires !At(ds, es, i).closed && exists k :: 0 <= k < |At(ds, es, i).descriptors| && At(ds, es, i).descriptors[k].id == dataset
    ensures var m, m', n := At(ds, es, i), At(ds, es, i + 1), |At(ds, es, i).requests|;
            && |m'.requests| == n + 1 && m'.requests[n] == Request(dataset, Queued, false, false, false)
            && m'.latest == m'.pending == Some(n) && n in m'.table && SubmitResult(m, dataset, true) == Ok(n)
            && m'.closed == m.closed && m'.active == m.active && m'.worker == m.worker
            && m'.current == m.current && m'.lastGood == m.lastGood && m'.descriptors == m.descriptors
            && (forall r: nat :: Live(m, r) && m.worker != Dequeued(r) ==> EndedBy(m.requests[r], m'.requests[r]))
            && (forall r: nat :: r < n && !(Live(m, r) && m.worker != Dequeued(r)) ==> m'.requests[r] == m.requests[r])
  {
    var m := At(ds, es, i);
    Reachable(ds, es, i);
    assert Approved(m.descriptors, dataset);
    forall r: nat | r < |m.requests|
      ensures Live(m, r) && m.worker != Dequeued(r) ==> EndedBy(m.requests[r], At(ds, es, i + 1).requests[r])
      ensures !(Live(m, r) && m.worker != Dequeued(r)) ==> At(ds, es, i + 1).requests[r] == m.requests[r]
    {
      SubmitTouches(m, dataset, true, r);
      assert Live(m, r) ==> Held(m, r);
    }
  }

  /** A refused submission changes nothing, and the reason is the first that applies. */
  lemma {:induction false} SubmitRefused(ds: seq<Descriptor>, es: seq<Event>, i: nat, dataset: string, admissible: bool)
    requires i < |es| && es[i] == Submit(dataset, admissible)
    ensures var m := At(ds, es, i);
            var known := exists k :: 0 <= k < |m.descriptors| && m.descriptors[k].id == dataset;
            && (SubmitResult(m, dataset, admissible).Err? <==> m.closed || !known || !admissible)
            && (SubmitResult(m, dataset, admissible).Err? ==> At(ds, es, i + 1) == m)
            && (SubmitResult(m, dataset, admissible) == Err(ClosedManager) <==> m.closed)
            && (SubmitResult(m, dataset, admissible) == Err(UnknownDataset) <==> !m.closed && !known)
            && (SubmitResult(m, dataset, admissible) == Err(InadmissiblePath) <==> !m.closed && known && !admissible)
  {
  }

  /** Closing supersedes every live request except one that is dequeued but has not begun; closing again does nothing. */
  lemma {:induction false} CloseSupersedes(ds: seq<Descriptor>, es: seq<Event>, i: nat)
    requires UniqueIds(ds) && i < |es| && es[i] == Close
    ensures At(ds, es, i).closed ==> At(ds, es, i + 1) == At(ds, es, i)
    ensures var m, m' := At(ds, es, i), At(ds, es, i + 1);
            && m'.closed && |m'.requests| == |m.requests| && m'.table == m.table && m'.pending == m.pending && m'.active == m.active
            && m'.latest == m.latest && m'.worker == m.worker && m'.current == m.current && m'.lastGood == m.lastGood
            && m'.descriptors == m.descriptors
            && (!m.closed ==> forall r: nat :: Live(m, r) && m.worker != Dequeued(r) ==> EndedBy(m.requests[r], m'.requests[r]))
            && (forall r: nat :: r < |m.requests| && !(Live(m, r) && m.worker != Dequeued(r)) ==> m'.requests[r] == m.requests[r])
  {
    var m := At(ds, es, i);
    Reachable(ds, es, i);
    forall r: nat | r < |m.requests|
      ensures !m.closed && Live(m, r) && m.worker != Dequeued(r) ==> EndedBy(m.requests[r], At(ds, es, i + 1).requests[r])
      ensures !(Live(m, r) && m.worker != Dequeued(r)) ==> At(ds, es, i + 1).requests[r] == m.requests[r]
    {
      CloseTouches(m, r);
      assert Live(m, r) ==> Held(m, r);
    }
  }

  // ---------------------------------------------------------------- the worker

  /** The idle worker of an open manager takes the waiting request, which stays as it is. */
  lemma {:induction false} DequeueTakes(ds: seq<Descriptor>, es: seq<Event>, i: nat)
    requires UniqueIds(ds) && i < |es| && es[i] == Dequeue
    ensures var m, m' := At(ds, es, i), At(ds, es, i + 1);
            && (m.worker == Idle && m.pending.Some? && !m.closed ==> m' == m.(pending := None, worker := Dequeued(m.pending.value)))
            && (!(m.worker == Idle && m.pending.Some? && !m.closed) ==> m' == m)
  {
    Reachable(ds, es, i);
  }

  /** The taken request becomes the active one and is loading, with its marks kept. */
  lemma {:induction false} BeginActivates(ds: seq<Descriptor>, es: seq<Event>, i: nat)
    requires UniqueIds(ds) && i < |es| && es[i] == Begin && At(ds, es, i).worker.Dequeued?
    ensures var m, m' := At(ds, es, i), At(ds, es, i + 1);
            var r := m.worker.request;
            && r < |m.requests| && m'.active == Some(r) && m'.worker == Running(r)
            && OnlyRecords(m.(active := m'.active, worker := m'.worker), m', {r})
            && m'.requests[r] == m.requests[r].(state := Loading)
  {
    Reachable(ds, es, i);
  }

  /** The outcome of a finished load: a superseded request ends superseded, a cancelled one cancelled, and any other
      ready, with both handles on it, or failed, with both handles kept. */
  lemma {:induction false} FinishEnds(ds: seq<Descriptor>, es: seq<Event>, i: nat)
    requires UniqueIds(ds) && i < |es| && At(ds, es, i).worker.Running? && (es[i].FinishLoaded? || es[i].FinishFailed?)
    ensures var m, m' := At(ds, es, i), At(ds, es, i + 1);
            var r := m.worker.request;
            && r < |m.requests| && m'.worker == Idle && m'.active == None
            && OnlyRecords(m.(active := None, worker := Idle, current := m'.current, lastGood := m'.lastGood), m', {r})
            && var q, q' := m.requests[r], m'.requests[r];
            && q' == q.(state := q'.state)
            && (q.superseded ==> q'.state == Superseded)
            && (q.cancelled && !q.superseded ==> q'.state == Cancelled)
            && (!q.cancelled && !q.superseded ==> q'.state == if es[i].FinishLoaded? then Ready else Failed)
            && (q'.state == Ready ==> m'.current == m'.lastGood == Some(Handle(r, q.dataset, es[i].store)))
            && (q'.state != Ready ==> m'.current == m.current && m'.lastGood == m.lastGood)
  {
    Reachable(ds, es, i);
  }

  /** The worker stops exactly when it is idle on a closed manager, and stopping changes nothing else. */
  lemma {:induction false} StopStops(ds: seq<Descriptor>, es: seq<Event>, i: nat)
    requires i < |es| && es[i] == Stop
    ensures var m, m' := At(ds, es, i), At(ds, es, i + 1);
            m' == if m.worker == Idle && m.closed then m.(worker := Stopped) else m
  {
  }

  // ---------------------------------------------------------------- registration

  /** A registration that succeeds leaves the dataset approved under its path; it fails for a known identifier with
      another path, an unnamed or inadmissible descriptor, and for nothing else. */
  lemma {:induction false} RegisterApproves(ds: seq<Descriptor>, es: seq<Event>, i: nat, d: Descriptor, admissible: bool)
    requires UniqueIds(ds) && i < |es| && es[i] == Register(d, admissible)
    ensures var m, m' := At(ds, es, i), At(ds, es, i + 1);
            var known := exists k :: 0 <= k < |m.descriptors| && m.descriptors[k].id == d.id;
            && (RegisterResult(m, d, admissible).Ok? <==> (known && exists x :: x in m.descriptors && x.id == d.id && x.path == d.path)
                                                          || (!known && d.id != "" && admissible))
            && (RegisterResult(m, d, admissible) == Err(IdCollision) <==> exists x :: x in m.descriptors && x.id == d.id && x.path != d.path)
            && (RegisterResult(m, d, admissible) == Err(BadDescriptor) <==> !known && (d.id == "" || !admissible))
            && (known ==> m' == m)
            && (RegisterResult(m, d, admissible).Ok? ==>
                  RegisterResult(m, d, admissible).value == d.id && exists x :: x in m'.descriptors && x.id == d.id && x.path == d.path)
  {
    var m := At(ds, es, i);
    Reachable(ds, es, i);
    SomeDescriptorIsFree(m, d, admissible);
    var k := Find(m.descriptors, d.id);
    if k < |m.descriptors| {
      assert m.descriptors[k] in m.descriptors;
      forall x | x in m.descriptors && x.id == d.id ensures x == m.descriptors[k] {
        var j :| 0 <= j < |m.descriptors| && m.descriptors[j] == x;
      }
    } else if RegisterResult(m, d, admissible).Ok? {
      var after := At(ds, es, i + 1).descriptors;
      assert after[|after| - 1] == d;
    }
  }

  /** Registration forgets at most one descriptor, only from a full registry, and never one that is in use. */
  lemma {:induction false} RegisterForgetsOne(ds: seq<Descriptor>, es: seq<Event>, i: nat, d: Descriptor, admissible: bool, x: Descriptor, y: Descriptor)
    requires UniqueIds(ds) && i < |es| && es[i] == Register(d, admissible)
    requires x in At(ds, es, i).descriptors && x !in At(ds, es, i + 1).descriptors
    requires y in At(ds, es, i).descriptors && y !in At(ds, es, i + 1).descriptors
    ensures var m := At(ds, es, i);
            && x == y && |m.descriptors| >= 64 && (m.current.Some? ==> m.current.value.dataset != x.id)
            && forall r: nat :: Live(m, r) ==> m.requests[r].dataset != x.id
  {
    var m := At(ds, es, i);
    Reachable(ds, es, i);
    Forgotten(m, d, admissible, x);
    Forgotten(m, d, admissible, y);
    hide ApplyRegister, Approved, At;
    forall r: nat | Live(m, r) ensures ProtectedDataset(m, m.requests[r].dataset) {
      var j :| 0 <= j < |m.table| && m.table[j] == r;
    }
  }

  /** What is forgotten is the first descriptor that is not in use, and only when the registry is full. */
  lemma {:induction false} Forgotten(m: Manager, d: Descriptor, admissible: bool, x: Descriptor)
    requires x in m.descriptors && x !in ApplyRegister(m, d, admissible).descriptors
    ensures |m.descriptors| >= 64
    ensures FirstUnprotected(m, m.descriptors) < |m.descriptors| && x == m.descriptors[FirstUnprotected(m, m.descriptors)]
    ensures !ProtectedDataset(m, x.id)
  {
    hide ProtectedDataset;
    var k := FirstUnprotected(m, m.descriptors);
    if k < |m.descriptors| {
      assert m.descriptors == m.descriptors[..k] + [m.descriptors[k]] + m.descriptors[k + 1..];
    }
  }
}
