/**
 The lifecycle manager as an object graph: request records are shared, mutable objects referenced from
 the pending, active and latest slots, from the metadata table and from the worker's local variable.
 Each method is one critical section and is proved to perform exactly one step of the protocol.
 */
module DatasetLifecycle {
  import opened Wrappers
  import P = LifecycleProtocol
  import I = LifecycleInvariant

  class LifecycleRequest {
    const generation: nat
    const dataset: string
    var state: P.RequestState
    var cancelled: bool
    var superseded: bool
    var signalled: bool

    constructor (generation: nat, dataset: string)
      requires generation > 0
      ensures this.generation == generation && this.dataset == dataset
      ensures state == P.Queued && !cancelled && !superseded && !signalled
    {
      this.generation, this.dataset := generation, dataset;
      state, cancelled, superseded, signalled := P.Queued, false, false, false;
    }

    ghost function Record(): P.Request
      reads this
    {
      P.Request(dataset, state, cancelled, superseded, signalled)
    }
  }

  ghost function Records(rs: seq<LifecycleRequest>): (r: seq<P.Request>)
    reads rs
    ensures |r| == |rs| && forall i :: 0 <= i < |rs| ==> r[i] == rs[i].Record()
  {
    if rs == [] then [] else Records(rs[..|rs| - 1]) + [rs[|rs| - 1].Record()]
  }

  /** The request number of the protocol: requests are numbered from 0, generations from 1. */
  function Number(r: LifecycleRequest): nat {
    if r.generation == 0 then 0 else r.generation - 1
  }

  function Numbers(rs: seq<LifecycleRequest>): (ks: seq<nat>)
    ensures |ks| == |rs| && forall i :: 0 <= i < |rs| ==> ks[i] == Number(rs[i])
  {
    seq(|rs|, i requires 0 <= i < |rs| => Number(rs[i]))
  }

  lemma {:induction false} EvictOne(m: P.Manager, kept: seq<LifecycleRequest>, rest: seq<LifecycleRequest>, count: int, gone: bool)
    requires rest != [] && (P.Evictable(m, Number(rest[0])) <==> gone)
    ensures Numbers(kept) + P.Evict(m, Numbers(rest), count) ==
            if !gone then Numbers(kept + [rest[0]]) + P.Evict(m, Numbers(rest[1..]), count)
            else if count - 1 <= P.TABLE_TARGET then Numbers(kept + rest[1..])
            else Numbers(kept) + P.Evict(m, Numbers(rest[1..]), count - 1)
    ensures kept + rest == (kept + [rest[0]]) + rest[1..]
  {
    assert Numbers(rest)[1..] == Numbers(rest[1..]);
    assert Numbers(kept + [rest[0]]) == Numbers(kept) + [Number(rest[0])];
    assert Numbers(kept + rest[1..]) == Numbers(kept) + Numbers(rest[1..]);
  }

  lemma {:induction false} EvictNone(m: P.Manager, kept: seq<LifecycleRequest>, rest: seq<LifecycleRequest>, count: int)
    requires rest == []
    ensures Numbers(kept) + P.Evict(m, Numbers(rest), count) == Numbers(kept + rest)
  {
    assert kept + rest == kept;
  }

  lemma {:induction false} FirstFree(m: P.Manager, ds: seq<P.Descriptor>, i: nat)
    requires i <= |ds| && (i < |ds| ==> !P.ProtectedDataset(m, ds[i].id))
    requires forall j :: 0 <= j < i ==> P.ProtectedDataset(m, ds[j].id)
    ensures P.FirstUnprotected(m, ds) == i
  {
    var k := P.FirstUnprotected(m, ds);
    assert k < |ds| ==> !P.ProtectedDataset(m, ds[k].id);
  }

  /** Ending the load does not touch the handles, so they may be installed before or after. */
  lemma {:induction false} PublishingCommutes(m: P.Manager, h: Option<P.Handle>)
    ensures P.ApplyFinish(m.(current := h, lastGood := h), P.Ready) == P.ApplyFinish(m, P.Ready).(current := h, lastGood := h)
  {
  }

  datatype Phase = Idle | Dequeued | Running | Stopped

  function Ref(r: LifecycleRequest?): Option<nat> {
    if r == null then None else Some(Number(r))
  }

  function WorkerAt(phase: Phase, job: LifecycleRequest?): P.Worker {
    if job == null then if phase == Stopped then P.Worker.Stopped else P.Worker.Idle
    else match phase
         case Idle => P.Worker.Idle
         case Dequeued => P.Worker.Dequeued(Number(job))
         case Running => P.Worker.Running(Number(job))
         case Stopped => P.Worker.Stopped
  }

  class Manager {
    var closed: bool
    var generation: nat
    var pending: LifecycleRequest?
    var active: LifecycleRequest?
    var latest: LifecycleRequest?
    /** The request dictionary: its values in insertion order. */
    var requests: seq<LifecycleRequest>
    var current: Option<P.Handle>
    var lastGood: Option<P.Handle>
    var descriptors: seq<P.Descriptor>
    /** The worker thread: where it is and the request in its local variable. */
    var phase: Phase
    var job: LifecycleRequest?
    /** Every request ever accepted, in order of generation. */
    ghost var history: seq<LifecycleRequest>

    ghost predicate Known(r: LifecycleRequest?)
      reads this
    {
      r != null ==> r in history
    }

    /** The object graph is well shaped; the protocol invariant is separate, in `Valid`. */
    ghost predicate Shaped()
      reads this
    {
      && generation == |history|
      && (forall i :: 0 <= i < |history| ==> history[i].generation == i + 1)
      && Known(pending) && Known(active) && Known(latest) && Known(job)
      && (forall i :: 0 <= i < |requests| ==> requests[i] in history)
      && ((phase == Dequeued || phase == Running) ==> job != null)
    }

    /** The protocol state this object graph represents. */
    ghost function View(): P.Manager
      requires Shaped()
      reads this, history
    {
      P.Manager(closed, Records(history), Numbers(requests), Ref(pending), Ref(active), Ref(latest), WorkerAt(phase, job), current, lastGood, descriptors)
    }

    ghost predicate Valid()
      reads this, history
    {
      Shaped() && I.Inv(View())
    }

    constructor (descriptors: seq<P.Descriptor>)
      requires P.UniqueIds(descriptors)
      ensures Valid() && View() == P.Initial(descriptors)
    {
      closed, generation, requests, phase := false, 0, [], Idle;
      pending, active, latest, job := null, null, null, null;
      current, lastGood := None, None;
      this.descriptors := descriptors;
      history := [];
      new;
      assert View() == P.Initial(descriptors);
    }

    lemma {:induction false} ForgettableIsEvictable(x: LifecycleRequest)
      requires Shaped() && x in history
      ensures P.Evictable(View(), Number(x)) <==> x != latest && x != active && x != pending && P.Terminal(x.state)
    {
      assert history[Number(x)] == x;
      assert Records(history)[Number(x)] == x.Record();
    }

    /** The scan over the dictionary: forget what may be forgotten until the table is small enough. */
    method ForgetOld(ghost m: P.Manager)
      requires forall x :: x in requests ==> (P.Evictable(m, Number(x)) <==> x != latest && x != active && x != pending && P.Terminal(x.state))
      modifies `requests
      ensures Numbers(requests) == P.Evict(m, Numbers(old(requests)), |old(requests)|)
      ensures forall x :: x in requests ==> x in old(requests)
    {
      var snapshot := requests;
      var kept: seq<LifecycleRequest> := [];
      var i := 0;
      hide P.Evict, P.Evictable, Numbers;
      assert snapshot[0..] == snapshot;
      while i < |snapshot|
        invariant 0 <= i <= |snapshot| && snapshot == old(requests)
        invariant forall x :: x in kept ==> x in snapshot
        invariant requests == kept + snapshot[i..]
        invariant P.Evict(m, Numbers(snapshot), |snapshot|) == Numbers(kept) + P.Evict(m, Numbers(snapshot[i..]), |requests|)
      {
        var request := snapshot[i];
        var forgettable := request != latest && request != active && request != pending && P.Terminal(request.state);
        EvictOne(m, kept, snapshot[i..], |requests|, forgettable);
        assert snapshot[i..][1..] == snapshot[i + 1..] && snapshot[i..][0] == request;
        i := i + 1;
        if forgettable {
          requests := kept + snapshot[i..];
          assert |requests| == |kept + [request] + snapshot[i..]| - 1;
          if |requests| <= P.TABLE_TARGET { return; }
        } else {
          kept := kept + [request];
        }
      }
      EvictNone(m, kept, snapshot[i..], |requests|);
    }

    /** Removes old terminal entries from the metadata table, oldest first. */
    method TrimTable()
      requires Shaped()
      modifies `requests
      ensures Shaped() && View() == old(View()).(table := P.Trimmed(old(View())))
    {
      hide P.Evict, P.Evictable, Numbers, Records;
      ghost var m := View();
      if |requests| > P.TABLE_LIMIT {
        forall x | x in requests
          ensures P.Evictable(m, Number(x)) <==> x != latest && x != active && x != pending && P.Terminal(x.state)
        {
          ForgettableIsEvictable(x);
        }
        ForgetOld(m);
        assert Shaped() by {
          forall i | 0 <= i < |requests| ensures requests[i] in history {
            assert requests[i] in requests;
          }
        }
      }
    }

    /** A known request sits in the history at its own number and nowhere else. */
    lemma {:induction false} Locate(x: LifecycleRequest)
      requires Shaped() && x in history
      ensures Number(x) < |history| && history[Number(x)] == x
      ensures forall i :: 0 <= i < |history| && i != Number(x) ==> history[i] != x
    {
    }

    /** What the protocol knows about an object reached through a slot. */
    lemma {:induction false} Represented(x: LifecycleRequest)
      requires Shaped() && x in history
      ensures Number(x) < |View().requests| && View().requests[Number(x)] == x.Record()
    {
      Locate(x);
    }

    /** Fields of the object graph that a step looks at directly. */
    lemma {:induction false} Fields()
      requires Shaped()
      ensures View().closed == closed && View().descriptors == descriptors && |View().requests| == |history| == generation
      ensures phase == Dequeued ==> job != null && job in history && View().worker == P.Worker.Dequeued(Number(job))
      ensures phase == Running ==> job != null && job in history && View().worker == P.Worker.Running(Number(job))
    {
    }

    method SetClosed()
      requires Shaped()
      modifies `closed
      ensures closed && Shaped() && View() == old(View()).(closed := true)
    {
      closed := true;
    }

    method SupersedeRequest(request: LifecycleRequest)
      requires Shaped() && request in history
      modifies request
      ensures Shaped()
      ensures View() == old(View()).(requests := P.Supersede(old(View()).requests, Number(request)))
    {
      hide Records, Numbers;
      Locate(request);
      request.superseded := true;
      request.state := P.Superseded;
      request.signalled := true;
      assert Records(history) == old(Records(history))[Number(request) := request.Record()];
    }

    method SupersedeActive()
      requires Shaped()
      modifies history
      ensures Shaped()
      ensures View() == old(View()).(requests := P.SupersedeLive(old(View()).requests, old(View()).active))
    {
      hide Records, Numbers, P.Supersede;
      if active != null {
        Represented(active);
        if !P.Terminal(active.state) {
          SupersedeRequest(active);
        }
      }
    }

    method SupersedePending()
      requires Shaped()
      modifies history
      ensures Shaped()
      ensures View() == old(View()).(requests := P.SupersedeOpt(old(View()).requests, old(View()).pending))
    {
      hide Records, Numbers, P.Supersede;
      if pending != null {
        SupersedeRequest(pending);
      }
    }

    method MarkCancelled(request: LifecycleRequest)
      requires Shaped() && request in history
      modifies request
      ensures Number(request) < |history|
      ensures View() == old(View()).(requests := old(View()).requests[Number(request) := old(View()).requests[Number(request)].(cancelled := true, state := P.Cancelling, signalled := true)])
    {
      hide Records, Numbers;
      Locate(request);
      request.cancelled := true;
      request.state := P.Cancelling;
      request.signalled := true;
      assert Records(history) == old(Records(history))[Number(request) := request.Record()];
    }

    method SetState(request: LifecycleRequest, state: P.RequestState)
      requires Shaped() && request in history
      modifies request
      ensures Shaped() && Number(request) < |history|
      ensures View() == old(View()).(requests := old(View()).requests[Number(request) := old(View()).requests[Number(request)].(state := state)])
    {
      hide Records, Numbers;
      Locate(request);
      request.state := state;
      assert Records(history) == old(Records(history))[Number(request) := request.Record()];
    }

    /** Creates the request of the next generation. */
    method Enroll(dataset: string) returns (request: LifecycleRequest)
      requires Shaped()
      modifies `generation, `history
      ensures Shaped() && fresh(request) && history == old(history) + [request] && request.generation == |history|
      ensures View() == old(View()).(requests := old(View()).requests + [P.Request(dataset, P.Queued, false, false, false)])
    {
      hide Records, Numbers;
      generation := generation + 1;
      request := new LifecycleRequest(generation, dataset);
      history := history + [request];
      assert Records(history) == old(Records(history)) + [request.Record()];
    }

    /** Enters a request in the dictionary, as the latest one. */
    method Enlist(request: LifecycleRequest)
      requires Shaped() && request in history
      modifies `requests, `latest
      ensures Shaped()
      ensures View() == old(View()).(table := old(View()).table + [Number(request)], latest := Some(Number(request)))
    {
      hide Records, Numbers;
      requests := requests + [request];
      latest := request;
      assert Numbers(requests) == Numbers(old(requests)) + [Number(request)];
    }

    /** Adds a fresh queued request to the dictionary and makes it the latest. */
    method AddRequest(dataset: string) returns (request: LifecycleRequest)
      requires Shaped()
      modifies `generation, `requests, `latest, `history
      ensures Shaped() && fresh(request) && history == old(history) + [request] && request.generation == |history|
      ensures var n: nat := |old(history)|;
              View() == old(View()).(requests := old(View()).requests + [P.Request(dataset, P.Queued, false, false, false)],
                                     table := old(View()).table + [n],
                                     latest := Some(n))
    {
      hide View, Shaped, Known;
      request := Enroll(dataset);
      assert history[|history| - 1] == request;
      Enlist(request);
    }

    method SetPending(request: LifecycleRequest)
      requires Shaped() && request in history
      modifies `pending
      ensures Shaped() && View() == old(View()).(pending := Some(Number(request)))
    {
      hide Records, Numbers;
      pending := request;
    }

    /** Accepts a request: it supersedes the loading and the waiting one and waits in their place. */
    method Accept(dataset: string)
      requires Shaped()
      modifies `generation, `requests, `latest, `pending, `history, history
      ensures Shaped() && generation > 0
      ensures forall x :: x in history ==> x in old(history) || fresh(x)
      ensures var m := old(View());
              var n: nat := |m.requests|;
              var rs := m.requests + [P.Request(dataset, P.Queued, false, false, false)];
              && generation == n + 1
              && View() == m.(requests := P.SupersedeOpt(P.SupersedeLive(rs, m.active), m.pending),
                              table := P.Trimmed(m) + [n], latest := Some(n), pending := Some(n))
    {
      hide View, Shaped, Known, Number, P.Trimmed, P.SupersedeLive, P.SupersedeOpt;
      Fields();
      TrimTable();
      var request := AddRequest(dataset);
      SupersedeActive();
      SupersedePending();
      SetPending(request);
      Locate(request);
      Fields();
    }

    /** Open and switch. */
    method SubmitRequest(dataset: string, admissible: bool) returns (r: Result<nat, P.Error>)
      requires Valid()
      modifies this, history
      ensures Valid() && View() == P.ApplySubmit(old(View()), dataset, admissible)
      ensures r == P.SubmitResult(old(View()), dataset, admissible)
      ensures forall x :: x in history ==> x in old(history) || fresh(x)
    {
      hide I.Inv, Records, Numbers, P.Trimmed, P.SupersedeLive, P.SupersedeOpt, P.Find;
      I.SubmitKeeps(View(), dataset, admissible);
      if closed { return Err(P.ClosedManager); }
      if !P.Approved(descriptors, dataset) { return Err(P.UnknownDataset); }
      if !admissible { return Err(P.InadmissiblePath); }
      Accept(dataset);
      r := Ok(generation - 1);
    }

    method Cancel(token: nat) returns (r: Result<(), P.Error>)
      requires Valid()
      modifies history
      ensures Valid() && View() == P.ApplyCancel(old(View()), token)
      ensures r == P.CancelResult(old(View()), token)
    {
      hide I.Inv, Records, Numbers;
      I.CancelKeeps(View(), token);
      var i := 0;
      while i < |requests| && Number(requests[i]) != token
        invariant 0 <= i <= |requests| && forall k :: 0 <= k < i ==> Number(requests[k]) != token
      {
        i := i + 1;
      }
      if i == |requests| { return Err(P.UnknownToken); }
      var request := requests[i];
      assert Numbers(requests)[i] == token;
      Represented(request);
      if !P.Terminal(request.state) {
        MarkCancelled(request);
      }
      r := Ok(());
    }

    method Close()
      requires Valid()
      modifies this, history
      ensures Valid() && View() == P.ApplyClose(old(View()))
    {
      hide I.Inv, View, Shaped, Known, P.SupersedeLive, P.SupersedeOpt;
      I.CloseKeeps(View());
      Fields();
      if closed { return; }
      SetClosed();
      SupersedePending();
      SupersedeActive();
    }

    method TakePending()
      requires Shaped() && pending != null && phase == Idle
      modifies `pending, `job, `phase
      ensures Shaped()
      ensures View() == old(View()).(pending := None, worker := if old(pending.superseded) then P.Worker.Idle else P.Worker.Dequeued(Number(old(pending))))
    {
      hide Records, Numbers;
      var request := pending;
      pending := null;
      if !request.superseded {
        job := request;
        phase := Dequeued;
      }
    }

    /** The worker takes the waiting request; the lock is released before it begins. */
    method Dequeue()
      requires Valid() && phase == Idle && pending != null && !closed
      modifies this
      ensures Valid() && View() == P.ApplyDequeue(old(View()))
    {
      hide I.Inv, Records, Numbers;
      I.DequeueKeeps(View());
      Represented(pending);
      TakePending();
    }

    method Activate()
      requires Shaped() && phase == Dequeued
      modifies `active, `phase
      ensures Shaped() && phase == Running
      ensures View() == old(View()).(active := Some(Number(job)), worker := P.Worker.Running(Number(job)))
    {
      hide Records, Numbers;
      active := job;
      phase := Running;
    }

    /** The taken request becomes the active one. */
    method Begin()
      requires Valid() && phase == Dequeued
      modifies this, history
      ensures Valid() && View() == P.ApplyBegin(old(View()))
    {
      hide I.Inv, View, Shaped, Known, Number;
      I.BeginKeeps(View());
      Fields();
      Locate(job);
      Activate();
      SetState(job, P.Loading);
    }

    method LeaveWorker(request: LifecycleRequest)
      requires Shaped() && phase == Running && request == job
      modifies `active, `phase
      ensures Shaped()
      ensures View() == old(View()).(active := if old(View()).active == Some(Number(request)) then None else old(View()).active,
                                     worker := P.Worker.Idle)
    {
      hide Records, Numbers;
      Locate(request);
      if active == request {
        active := null;
      }
      phase := Idle;
    }

    /** Ends the load and frees the worker. */
    method Finish(outcome: P.RequestState)
      requires Shaped() && phase == Running
      modifies `active, `phase, history
      ensures Shaped() && View() == P.ApplyFinish(old(View()), outcome)
    {
      hide View, Shaped, Known, Number;
      Fields();
      Represented(job);
      SetState(job, if job.superseded then P.Superseded else if job.cancelled then P.Cancelled else outcome);
      LeaveWorker(job);
    }

    /** Installs the loaded store, unless the request was cancelled or superseded meanwhile. */
    method Publish(store: int)
      requires Shaped() && phase == Running
      modifies `current, `lastGood
      ensures Shaped()
      ensures View() == if !P.Publishes(old(View())) then old(View())
                        else var h := P.Handle(Number(job), job.dataset, store); old(View()).(current := Some(h), lastGood := Some(h))
      ensures P.Publishes(old(View())) ==> old(View()).requests[Number(job)].dataset == job.dataset
    {
      hide Records, Numbers;
      Represented(job);
      if !job.superseded && !job.cancelled {
        var handle := P.Handle(Number(job), job.dataset, store);
        current := Some(handle);
        lastGood := Some(handle);
      }
    }

    method PublishAndFinish(store: int)
      requires Shaped() && phase == Running
      modifies `current, `lastGood, `active, `phase, history
      ensures Shaped() && View() == P.ApplyFinishLoaded(old(View()), store)
    {
      hide Records, Numbers, P.Publishes, P.ApplyFinish;
      PublishingCommutes(View(), Some(P.Handle(Number(job), job.dataset, store)));
      Publish(store);
      Finish(P.Ready);
    }

    /** The loader returned `store`. */
    method FinishLoaded(store: int)
      requires Valid() && phase == Running
      modifies this, history
      ensures Valid() && View() == P.ApplyFinishLoaded(old(View()), store)
    {
      hide I.Inv, Records, Numbers, View, P.ApplyFinishLoaded;
      I.FinishKeeps(View(), P.FinishLoaded(store));
      PublishAndFinish(store);
    }

    /** The loader raised. */
    method FinishFailed()
      requires Valid() && phase == Running
      modifies this, history
      ensures Valid() && View() == P.ApplyFinish(old(View()), P.Failed)
    {
      hide I.Inv, Records, Numbers;
      I.FinishKeeps(View(), P.FinishFailed);
      Finish(P.Failed);
    }

    method Stop()
      requires Valid() && phase == Idle && closed
      modifies this
      ensures Valid() && View() == P.ApplyStop(old(View()))
    {
      hide I.Inv, Records, Numbers;
      I.StopKeeps(View());
      phase := Stopped;
    }

    /** Dataset IDs that must stay approved: those of both handles and of the live requests in the table. */
    method InUseIds() returns (held: set<string>)
      requires Shaped()
      ensures forall id :: id in held <==> P.ProtectedDataset(View(), id)
    {
      held := (if current.Some? then {current.value.dataset} else {}) + (if lastGood.Some? then {lastGood.value.dataset} else {});
      var i := 0;
      while i < |requests|
        invariant 0 <= i <= |requests|
        invariant forall id :: id in held <==>
                    || (current.Some? && current.value.dataset == id)
                    || (lastGood.Some? && lastGood.value.dataset == id)
                    || exists k :: 0 <= k < i && !P.Terminal(requests[k].state) && requests[k].dataset == id
      {
        if !P.Terminal(requests[i].state) {
          held := held + {requests[i].dataset};
        }
        i := i + 1;
      }
      TableShowsRequests();
    }

    lemma {:induction false} TableShowsRequests()
      requires Shaped()
      ensures forall k :: 0 <= k < |requests| ==>
                var n := View().table[k];
                n < |View().requests| && View().requests[n] == requests[k].Record()
    {
      forall k | 0 <= k < |requests|
        ensures View().table[k] < |View().requests| && View().requests[View().table[k]] == requests[k].Record()
      {
        assert history[Number(requests[k])] == requests[k];
      }
    }

    /** Position of the oldest descriptor that nothing uses. */
    method FindUnused() returns (i: nat)
      requires Shaped()
      ensures i == P.FirstUnprotected(View(), descriptors)
    {
      hide Records, Numbers, P.ProtectedDataset, P.FirstUnprotected, View;
      var held := InUseIds();
      i := 0;
      while i < |descriptors| && descriptors[i].id in held
        invariant 0 <= i <= |descriptors| && forall j :: 0 <= j < i ==> descriptors[j].id in held
      {
        i := i + 1;
      }
      FirstFree(View(), descriptors, i);
    }

    method SetDescriptors(ds: seq<P.Descriptor>)
      requires Shaped()
      modifies `descriptors
      ensures Shaped() && View() == old(View()).(descriptors := ds) && descriptors == ds
    {
      hide Records, Numbers;
      descriptors := ds;
    }

    /** Approves a dataset, evicting the oldest one that nothing uses when the registry is full. */
    method Register(d: P.Descriptor, admissible: bool) returns (r: Result<string, P.Error>)
      requires Valid()
      modifies `descriptors
      ensures Valid() && View() == P.ApplyRegister(old(View()), d, admissible)
      ensures r == P.RegisterResult(old(View()), d, admissible)
    {
      hide I.Inv, View, Shaped, Known, P.Find, P.FirstUnprotected;
      I.RegisterKeeps(View(), d, admissible);
      Fields();
      var k := P.Find(descriptors, d.id);
      if k < |descriptors| {
        return if descriptors[k].path == d.path then Ok(d.id) else Err(P.IdCollision);
      }
      var kept := descriptors;
      if |descriptors| >= P.MAX_DESCRIPTORS {
        var i := FindUnused();
        if i == |descriptors| { return Err(P.TooManyActive); }
        kept := descriptors[..i] + descriptors[i + 1..];
        SetDescriptors(kept);
      }
      if d.id == "" || !admissible { return Err(P.BadDescriptor); }
      SetDescriptors(kept + [d]);
      r := Ok(d.id);
    }
  }
}
