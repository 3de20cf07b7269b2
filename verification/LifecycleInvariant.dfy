/** What every critical section of the dataset lifecycle manager keeps. */
module LifecycleInvariant {
  import opened Wrappers
  import opened LifecycleProtocol
  import S = Sorting

  /** Consistency of one request record. */
  predicate RequestOk(q: Request) {
    && q.signalled == (q.cancelled || q.superseded)
    && (q.superseded <==> q.state == Superseded)
    && (q.state == Queued || q.state == Ready || q.state == Failed ==> !q.cancelled)
    && (q.state == Cancelled || q.state == Cancelling ==> q.cancelled)
  }

  /** Request `r` is held by the manager: waiting, in the worker's hands, or loading. */
  predicate Held(m: Manager, r: nat) {
    m.pending == Some(r) || m.worker == Dequeued(r) || m.worker == Running(r)
  }

  predicate RequestsOk(m: Manager) {
    && (forall i :: 0 <= i < |m.requests| ==> RequestOk(m.requests[i]))
    && (forall i :: 0 <= i < |m.requests| && !Held(m, i) ==> Terminal(m.requests[i].state))
  }

  predicate PendingOk(m: Manager) {
    && m.latest == (if |m.requests| == 0 then None else Some(|m.requests| - 1))
    && (m.pending.Some? ==>
          && m.pending == m.latest
          && m.worker != Dequeued(m.pending.value) && m.worker != Running(m.pending.value)
          && (m.closed ==> m.requests[m.pending.value].state == Superseded)
          && (!m.closed ==> m.requests[m.pending.value].state in {Queued, Cancelling}))
  }

  predicate WorkerOk(m: Manager) {
    && m.active == (if m.worker.Running? then Some(m.worker.request) else None)
    && (m.worker.Dequeued? ==> m.worker.request < |m.requests|
                               && m.requests[m.worker.request].state in {Queued, Cancelling})
    && (m.worker.Running? ==> m.worker.request < |m.requests|
                              && m.requests[m.worker.request].state in {Loading, Cancelling, Superseded})
    && (m.worker.Stopped? ==> m.closed)
  }

  /** Both handles coincide and belong to the highest-generation request that ever became ready. */
  predicate HandlesOk(m: Manager) {
    && m.current == m.lastGood
    && (m.current.None? ==> forall i :: 0 <= i < |m.requests| ==> m.requests[i].state != Ready)
    && (m.current.Some? ==>
          && m.current.value.request < |m.requests|
          && m.requests[m.current.value.request].state == Ready
          && m.requests[m.current.value.request].dataset == m.current.value.dataset
          && (forall i :: m.current.value.request < i < |m.requests| ==> m.requests[i].state != Ready)
          && (m.worker.Dequeued? || m.worker.Running? ==> m.current.value.request < m.worker.request))
  }

  predicate TableOk(m: Manager) {
    && S.StrictlyIncreasing(m.table)
    && (forall k :: 0 <= k < |m.table| ==> m.table[k] < |m.requests|)
    && (m.latest.Some? ==> m.latest.value in m.table)
    && (forall i :: 0 <= i < |m.requests| && !Terminal(m.requests[i].state) ==> i in m.table)
    && |m.table| <= TABLE_LIMIT + 1
  }

  /** Descriptors of the current dataset and of every live request stay approved. */
  predicate DescriptorsOk(m: Manager) {
    && UniqueIds(m.descriptors)
    && (m.current.Some? ==> Approved(m.descriptors, m.current.value.dataset))
    && (forall i :: 0 <= i < |m.requests| && !Terminal(m.requests[i].state) ==> Approved(m.descriptors, m.requests[i].dataset))
  }

  predicate Core(m: Manager) {
    RequestsOk(m) && PendingOk(m) && WorkerOk(m) && HandlesOk(m)
  }

  predicate Inv(m: Manager) {
    Core(m) && TableOk(m) && DescriptorsOk(m)
  }

  // ---------------------------------------------------------------- descriptors

  /** Removing one descriptor forgets exactly its ID. */
  lemma {:induction false} RemovalForgets(ds: seq<Descriptor>, k: nat, id: string)
    requires UniqueIds(ds) && k < |ds|
    ensures UniqueIds(ds[..k] + ds[k + 1..])
    ensures Approved(ds[..k] + ds[k + 1..], id) <==> Approved(ds, id) && id != ds[k].id
  {
    var kept := ds[..k] + ds[k + 1..];
    if Approved(ds, id) && id != ds[k].id {
      var j := Find(ds, id);
      assert kept[if j < k then j else j - 1].id == id;
    }
    if Approved(kept, id) {
      var j := Find(kept, id);
      assert kept[j] == ds[if j < k then j else j + 1];
    }
  }

  lemma {:induction false} AppendRemembers(ds: seq<Descriptor>, d: Descriptor, id: string)
    requires UniqueIds(ds) && !Approved(ds, d.id)
    ensures UniqueIds(ds + [d])
    ensures Approved(ds + [d], id) <==> Approved(ds, id) || id == d.id
  {
    if Approved(ds, id) {
      assert (ds + [d])[Find(ds, id)].id == id;
    }
    if id == d.id {
      assert (ds + [d])[|ds|].id == id;
    }
    if Approved(ds + [d], id) {
      var j := Find(ds + [d], id);
      assert j < |ds| ==> ds[j].id == id;
    }
  }

  /** Registration never forgets a dataset that is in use. */
  lemma {:induction false} RegisterKeepsApproved(m: Manager, d: Descriptor, admissible: bool, id: string)
    requires UniqueIds(m.descriptors)
    ensures UniqueIds(ApplyRegister(m, d, admissible).descriptors)
    ensures Approved(m.descriptors, id) && ProtectedDataset(m, id) ==> Approved(ApplyRegister(m, d, admissible).descriptors, id)
  {
    hide Find, ProtectedDataset, FirstUnprotected, UniqueIds, Approved;
    if !Approved(m.descriptors, d.id) {
      var k := FirstUnprotected(m, m.descriptors);
      if |m.descriptors| >= MAX_DESCRIPTORS {
        if k < |m.descriptors| {
          RemovalForgets(m.descriptors, k, id);
          RemovalForgets(m.descriptors, k, d.id);
          AppendRemembers(m.descriptors[..k] + m.descriptors[k + 1..], d, id);
        }
      } else {
        AppendRemembers(m.descriptors, d, id);
      }
    }
  }

  lemma {:induction false} RegisterKeeps(m: Manager, d: Descriptor, admissible: bool)
    requires Inv(m)
    ensures Inv(ApplyRegister(m, d, admissible))
  {
    hide ApplyRegister, ProtectedDataset, Approved;
    var m' := ApplyRegister(m, d, admissible);
    RegisterTouches(m, d, admissible);
    RegisterKeepsApproved(m, d, admissible, d.id);
    if m.current.Some? {
      LiveIsProtected(m, 0);
      RegisterKeepsApproved(m, d, admissible, m.current.value.dataset);
    }
    forall i | 0 <= i < |m.requests| && !Terminal(m.requests[i].state)
      ensures Approved(m'.descriptors, m.requests[i].dataset)
    {
      LiveIsProtected(m, i);
      RegisterKeepsApproved(m, d, admissible, m.requests[i].dataset);
    }
  }

  lemma {:induction false} RegisterTouches(m: Manager, d: Descriptor, admissible: bool)
    ensures ApplyRegister(m, d, admissible) == m.(descriptors := ApplyRegister(m, d, admissible).descriptors)
  {
  }

  lemma {:induction false} LiveIsProtected(m: Manager, i: nat)
    requires TableOk(m)
    ensures m.current.Some? ==> ProtectedDataset(m, m.current.value.dataset)
    ensures i < |m.requests| && !Terminal(m.requests[i].state) ==> ProtectedDataset(m, m.requests[i].dataset)
  {
  }

  // ---------------------------------------------------------------- the metadata table

  /** The scan only removes evictable keys and keeps the order of the others. */
  lemma {:induction false} EvictKeeps(m: Manager, keys: seq<nat>, count: int)
    requires S.StrictlyIncreasing(keys)
    ensures S.StrictlyIncreasing(Evict(m, keys, count))
    ensures forall r :: r in Evict(m, keys, count) ==> r in keys
    ensures forall r :: r in keys && !Evictable(m, r) ==> r in Evict(m, keys, count)
  {
    if keys != [] {
      var rest := keys[1..];
      if Evictable(m, keys[0]) {
        if count - 1 > TABLE_TARGET { EvictKeeps(m, rest, count - 1); }
      } else {
        EvictKeeps(m, rest, count);
        var kept := Evict(m, rest, count);
        forall r | r in kept ensures keys[0] < r {
          assert r in rest;
        }
        forall j | 0 <= j < |kept| ensures keys[0] < kept[j] {
          assert kept[j] in kept;
        }
      }
    }
  }

  /** If at most |spared| keys cannot be evicted, the scan reaches its target exactly. */
  lemma {:induction false} EvictReachesTarget(m: Manager, keys: seq<nat>, count: int, spared: set<nat>)
    requires S.StrictlyIncreasing(keys) && count > TABLE_TARGET
    requires forall r :: r in keys && !Evictable(m, r) ==> r in spared
    requires |keys| - |spared| >= count - TABLE_TARGET
    ensures |Evict(m, keys, count)| == |keys| - (count - TABLE_TARGET)
  {
    var rest := keys[1..];
    if Evictable(m, keys[0]) {
      if count - 1 > TABLE_TARGET { EvictReachesTarget(m, rest, count - 1, spared); }
    } else {
      assert keys[0] in keys;
      EvictReachesTarget(m, rest, count, spared - {keys[0]});
    }
  }

  /** After a submission that had to trim, exactly the target plus the new request remain. */
  lemma {:induction false} TrimmedTable(m: Manager)
    requires Inv(m)
    ensures S.StrictlyIncreasing(Trimmed(m))
    ensures forall r :: r in Trimmed(m) ==> r in m.table
    ensures forall r :: r in m.table && !Evictable(m, r) ==> r in Trimmed(m)
    ensures |m.table| > TABLE_LIMIT ==> |Trimmed(m)| == TABLE_TARGET
    ensures |Trimmed(m)| <= TABLE_LIMIT
  {
    if |m.table| > TABLE_LIMIT {
      EvictKeeps(m, m.table, |m.table|);
      var holder: set<nat> := if m.worker.Dequeued? || m.worker.Running? then {m.worker.request} else {};
      var spared: set<nat> := {|m.requests| - 1} + holder;
      assert |spared| <= 2 by {
        assert |{|m.requests| - 1}| == 1;
      }
      EvictReachesTarget(m, m.table, |m.table|, spared);
    }
  }

  // ---------------------------------------------------------------- client steps

  function Ended(q: Request): Request {
    q.(superseded := true, state := Superseded, signalled := true)
  }

  /** A submission or a close ends exactly the waiting request and the live loading one. */
  lemma {:induction false} SubmitTouches(m: Manager, dataset: string, admissible: bool, r: nat)
    requires PendingOk(m) && r < |m.requests|
    ensures var m' := ApplySubmit(m, dataset, admissible);
            && r < |m'.requests|
            && m'.requests[r] == (if SubmitResult(m, dataset, admissible).Ok? && (m.pending == Some(r) || (m.active == Some(r) && !Terminal(m.requests[r].state)))
                                  then Ended(m.requests[r]) else m.requests[r])
  {
  }

  lemma {:induction false} CloseTouches(m: Manager, r: nat)
    requires PendingOk(m) && r < |m.requests|
    ensures var m' := ApplyClose(m);
            && |m'.requests| == |m.requests|
            && m'.requests[r] == (if !m.closed && (m.pending == Some(r) || (m.active == Some(r) && !Terminal(m.requests[r].state)))
                                  then Ended(m.requests[r]) else m.requests[r])
  {
  }

  /** The handles stay right as long as no request becomes ready or stops being ready. */
  lemma {:induction false} HandlesKept(m: Manager, m': Manager)
    requires HandlesOk(m) && m'.current == m.current && m'.lastGood == m.lastGood && |m.requests| <= |m'.requests|
    requires forall i :: 0 <= i < |m.requests| ==>
                           m'.requests[i].dataset == m.requests[i].dataset && (m'.requests[i].state == Ready <==> m.requests[i].state == Ready)
    requires forall i :: |m.requests| <= i < |m'.requests| ==> m'.requests[i].state != Ready
    requires m.current.Some? && (m'.worker.Dequeued? || m'.worker.Running?) ==> m.current.value.request < m'.worker.request
    ensures HandlesOk(m')
  {
  }

  lemma {:induction false} SubmitKeepsRequests(m: Manager, dataset: string, admissible: bool)
    requires Core(m)
    ensures RequestsOk(ApplySubmit(m, dataset, admissible)) && HandlesOk(ApplySubmit(m, dataset, admissible))
  {
    hide ApplySubmit, HandlesOk;
    var m' := ApplySubmit(m, dataset, admissible);
    SubmitAdds(m, dataset, admissible);
    forall i | 0 <= i < |m.requests|
      ensures m'.requests[i] == m.requests[i] || (m'.requests[i] == Ended(m.requests[i]) && m.requests[i].state != Ready)
      ensures !Held(m, i) ==> m'.requests[i] == m.requests[i]
      ensures SubmitResult(m, dataset, admissible).Ok? && (m.pending == Some(i) || m.worker == Running(i)) ==> Terminal(m'.requests[i].state)
    {
      SubmitTouches(m, dataset, admissible, i);
    }
    HandlesKept(m, m');
  }

  lemma {:induction false} SubmitAdds(m: Manager, dataset: string, admissible: bool)
    requires Core(m)
    ensures var m' := ApplySubmit(m, dataset, admissible);
            var n := |m.requests|;
            && m'.worker == m.worker && m'.active == m.active && m'.current == m.current && m'.lastGood == m.lastGood
            && m'.closed == m.closed && m'.descriptors == m.descriptors
            && (if SubmitResult(m, dataset, admissible).Ok?
                then |m'.requests| == n + 1 && m'.requests[n] == Request(dataset, Queued, false, false, false)
                     && m'.pending == Some(n) && m'.latest == Some(n) && m'.table == Trimmed(m) + [n]
                else m' == m)
    ensures HandlesOk(m) && m.current.Some? && (m.worker.Dequeued? || m.worker.Running?) ==> m.current.value.request < m.worker.request
  {
  }

  lemma {:induction false} SubmitKeepsCore(m: Manager, dataset: string, admissible: bool)
    requires Core(m)
    ensures Core(ApplySubmit(m, dataset, admissible))
  {
    hide ApplySubmit, HandlesOk, RequestsOk;
    SubmitKeepsRequests(m, dataset, admissible);
    SubmitAdds(m, dataset, admissible);
    if m.worker.Dequeued? || m.worker.Running? {
      SubmitTouches(m, dataset, admissible, m.worker.request);
    }
  }

  lemma {:induction false} SubmitKeepsTable(m: Manager, dataset: string, admissible: bool)
    requires Inv(m)
    ensures TableOk(ApplySubmit(m, dataset, admissible))
  {
    if SubmitResult(m, dataset, admissible).Ok? {
      var m' := ApplySubmit(m, dataset, admissible);
      TrimmedTable(m);
      var kept := Trimmed(m);
      forall k | 0 <= k < |kept| ensures kept[k] < |m.requests| {
        assert kept[k] in kept;
        assert kept[k] in m.table;
      }
      forall i | 0 <= i < |m'.requests| && !Terminal(m'.requests[i].state)
        ensures i in m'.table
      {
        if i < |m.requests| {
          assert !Terminal(m.requests[i].state);
        }
      }
      assert m'.table[|m'.table| - 1] == |m.requests|;
    }
  }

  lemma {:induction false} SubmitKeeps(m: Manager, dataset: string, admissible: bool)
    requires Inv(m)
    ensures Inv(ApplySubmit(m, dataset, admissible))
  {
    SubmitKeepsCore(m, dataset, admissible);
    SubmitKeepsTable(m, dataset, admissible);
    var m' := ApplySubmit(m, dataset, admissible);
    forall i | 0 <= i < |m'.requests| && !Terminal(m'.requests[i].state)
      ensures Approved(m'.descriptors, m'.requests[i].dataset)
    {
      if i < |m.requests| {
        assert !Terminal(m.requests[i].state) && m'.requests[i].dataset == m.requests[i].dataset;
      }
    }
  }

  /** A step that accepts nothing new and only ends requests keeps the tables. */
  lemma {:induction false} NarrowingKeeps(m: Manager, m': Manager)
    requires Inv(m) && Core(m')
    requires m'.table == m.table && m'.descriptors == m.descriptors && |m'.requests| == |m.requests|
    requires forall i :: 0 <= i < |m.requests| ==> m'.requests[i].dataset == m.requests[i].dataset
    requires forall i :: 0 <= i < |m.requests| && Terminal(m.requests[i].state) ==> Terminal(m'.requests[i].state)
    requires m'.current == m.current || (m'.current.Some? && exists i :: 0 <= i < |m.requests| && !Terminal(m.requests[i].state) && m.requests[i].dataset == m'.current.value.dataset)
    ensures Inv(m')
  {
  }

  lemma {:induction false} CancelKeepsCore(m: Manager, r: nat)
    requires Core(m)
    ensures Core(ApplyCancel(m, r))
  {
    HandlesKept(m, ApplyCancel(m, r));
  }

  lemma {:induction false} CancelKeeps(m: Manager, r: nat)
    requires Inv(m)
    ensures Inv(ApplyCancel(m, r))
  {
    hide Core, TableOk, DescriptorsOk;
    CancelKeepsCore(m, r);
    NarrowingKeeps(m, ApplyCancel(m, r));
  }

  lemma {:induction false} CloseKeepsCore(m: Manager)
    requires Core(m)
    ensures Core(ApplyClose(m))
  {
  }

  lemma {:induction false} CloseKeeps(m: Manager)
    requires Inv(m)
    ensures Inv(ApplyClose(m))
  {
    CloseKeepsCore(m);
    NarrowingKeeps(m, ApplyClose(m));
  }

  // ---------------------------------------------------------------- worker steps

  lemma {:induction false} DequeueKeeps(m: Manager)
    requires Inv(m)
    ensures Inv(ApplyDequeue(m))
  {
  }

  lemma {:induction false} BeginKeeps(m: Manager)
    requires Inv(m)
    ensures Inv(ApplyBegin(m))
  {
    if m.worker.Dequeued? {
      var m' := ApplyBegin(m);
      assert forall i {:trigger Held(m, i)} :: Held(m', i) <==> Held(m, i);
      assert Core(m');
      NarrowingKeeps(m, m');
    }
  }

  lemma {:induction false} FinishKeepsRequests(m: Manager, outcome: RequestState)
    requires Core(m) && m.worker.Running? && (outcome == Ready || outcome == Failed)
    ensures RequestsOk(ApplyFinish(m, outcome)) && PendingOk(ApplyFinish(m, outcome)) && WorkerOk(ApplyFinish(m, outcome))
  {
  }

  lemma {:induction false} FinishKeepsCore(m: Manager, e: Event)
    requires Core(m) && (e.FinishLoaded? || e.FinishFailed?)
    ensures Core(Apply(m, e))
  {
    hide RequestsOk, PendingOk;
    if m.worker.Running? {
      FinishKeepsRequests(m, if e.FinishLoaded? then Ready else Failed);
      SameBookkeeping(ApplyFinish(m, if e.FinishLoaded? then Ready else Failed), Apply(m, e));
    }
  }

  /** Installing a handle touches no request bookkeeping. */
  lemma {:induction false} SameBookkeeping(m: Manager, m': Manager)
    requires m' == m.(current := m'.current, lastGood := m'.lastGood)
    ensures RequestsOk(m) ==> RequestsOk(m')
    ensures PendingOk(m) ==> PendingOk(m')
  {
  }

  lemma {:induction false} FinishKeeps(m: Manager, e: Event)
    requires Inv(m) && (e.FinishLoaded? || e.FinishFailed?)
    ensures Inv(Apply(m, e))
  {
    hide TableOk, DescriptorsOk, PendingOk, HandlesOk;
    FinishKeepsCore(m, e);
    if Publishes(m) {
      assert !Terminal(m.requests[m.worker.request].state);
    }
    NarrowingKeeps(m, Apply(m, e));
  }

  lemma {:induction false} StopKeeps(m: Manager)
    requires Inv(m)
    ensures Inv(ApplyStop(m))
  {
  }

  lemma {:induction false} StepKeeps(m: Manager, e: Event)
    requires Inv(m)
    ensures Inv(Apply(m, e))
  {
    hide Inv, ApplyRegister, ApplySubmit, ApplyCancel, ApplyClose, ApplyDequeue, ApplyBegin, ApplyFinish, ApplyFinishLoaded;
    match e {
      case Register(d, ok) => RegisterKeeps(m, d, ok);
      case Submit(d, ok) => SubmitKeeps(m, d, ok);
      case Cancel(r) => CancelKeeps(m, r);
      case Close => CloseKeeps(m);
      case Dequeue => DequeueKeeps(m);
      case Begin => BeginKeeps(m);
      case FinishLoaded(s) => FinishKeeps(m, e);
      case FinishFailed => FinishKeeps(m, e);
      case Stop => StopKeeps(m);
    }
  }

  /** Every reachable state of every run satisfies the invariant. */
  lemma {:induction false} Reachable(ds: seq<Descriptor>, es: seq<Event>, i: nat)
    requires UniqueIds(ds) && i <= |es|
    ensures Inv(At(ds, es, i))
  {
    if i > 0 {
      Reachable(ds, es, i - 1);
      StepKeeps(At(ds, es, i - 1), es[i - 1]);
    }
  }
}
