/**
 The dataset lifecycle manager as a transition system.  Each event is one critical section of the
 manager (one `with self._condition` block); a run is any sequence of events, so every theorem below
 quantifies over every interleaving of client threads with the worker thread.

 Requests are numbered by arrival: request `r` carries generation `r + 1`, and `requests` keeps the
 record of every request ever accepted, while `table` is the bounded metadata table clients can query.
 */
module LifecycleProtocol {
  import opened Wrappers

  const MAX_DESCRIPTORS: nat := 64
  const TABLE_LIMIT: nat := 64
  const TABLE_TARGET: nat := 48

  datatype RequestState = Queued | Loading | Cancelling | Ready | Failed | Cancelled | Superseded

  predicate Terminal(s: RequestState) {
    s == Ready || s == Failed || s == Cancelled || s == Superseded
  }

  /** `signalled` is the cooperative cancellation event that the loader polls. */
  datatype Request = Request(dataset: string, state: RequestState, cancelled: bool, superseded: bool, signalled: bool)

  /** The worker thread: its program counter and the request held in its local variable. */
  datatype Worker = Idle | Dequeued(request: nat) | Running(request: nat) | Stopped

  datatype Handle = Handle(request: nat, dataset: string, store: int)

  datatype Descriptor = Descriptor(id: string, path: string)

  datatype Manager = Manager(
    closed: bool,
    requests: seq<Request>,
    table: seq<nat>,
    pending: Option<nat>,
    active: Option<nat>,
    latest: Option<nat>,
    worker: Worker,
    current: Option<Handle>,
    lastGood: Option<Handle>,
    descriptors: seq<Descriptor>)

  /** `admissible` stands for the file-system and loader-argument checks. */
  datatype Event =
    | Register(descriptor: Descriptor, admissible: bool)
    | Submit(dataset: string, admissible: bool)
    | Cancel(request: nat)
    | Close
    | Dequeue
    | Begin
    | FinishLoaded(store: int)
    | FinishFailed
    | Stop

  datatype Error = ClosedManager | UnknownDataset | InadmissiblePath | UnknownToken | IdCollision | TooManyActive | BadDescriptor

  // ---------------------------------------------------------------- descriptors

  function Find(ds: seq<Descriptor>, id: string): (k: nat)
    ensures k <= |ds|
    ensures k < |ds| ==> ds[k].id == id
    ensures forall j :: 0 <= j < k ==> ds[j].id != id
  {
    if ds == [] || ds[0].id == id then 0 else 1 + Find(ds[1..], id)
  }

  predicate Approved(ds: seq<Descriptor>, id: string) {
    Find(ds, id) < |ds|
  }

  /** Dataset IDs that registration must not evict: those of both handles and of live tabled requests. */
  predicate ProtectedDataset(m: Manager, id: string) {
    || (m.current.Some? && m.current.value.dataset == id)
    || (m.lastGood.Some? && m.lastGood.value.dataset == id)
    || exists k :: 0 <= k < |m.table| && m.table[k] < |m.requests|
                   && !Terminal(m.requests[m.table[k]].state) && m.requests[m.table[k]].dataset == id
  }

  /** Position of the first descriptor that may be evicted, or |ds|. */
  function FirstUnprotected(m: Manager, ds: seq<Descriptor>): (k: nat)
    ensures k <= |ds|
    ensures k < |ds| ==> !ProtectedDataset(m, ds[k].id)
    ensures forall j :: 0 <= j < k ==> ProtectedDataset(m, ds[j].id)
  {
    if ds == [] || !ProtectedDataset(m, ds[0].id) then 0 else 1 + FirstUnprotected(m, ds[1..])
  }

  function RegisterResult(m: Manager, d: Descriptor, admissible: bool): Result<string, Error> {
    var k := Find(m.descriptors, d.id);
    if k < |m.descriptors| then
      if m.descriptors[k].path == d.path then Ok(d.id) else Err(IdCollision)
    else if |m.descriptors| >= MAX_DESCRIPTORS && FirstUnprotected(m, m.descriptors) == |m.descriptors| then
      Err(TooManyActive)
    else if d.id == "" || !admissible then Err(BadDescriptor)
    else Ok(d.id)
  }

  /** Eviction happens before the new descriptor is checked, so it persists when the check fails. */
  function ApplyRegister(m: Manager, d: Descriptor, admissible: bool): Manager {
    if Approved(m.descriptors, d.id) then m
    else
      var k := FirstUnprotected(m, m.descriptors);
      if |m.descriptors| >= MAX_DESCRIPTORS && k == |m.descriptors| then m
      else
        var kept := if |m.descriptors| >= MAX_DESCRIPTORS then m.descriptors[..k] + m.descriptors[k + 1..] else m.descriptors;
        if d.id == "" || !admissible then m.(descriptors := kept) else m.(descriptors := kept + [d])
  }

  // ---------------------------------------------------------------- submission

  predicate Evictable(m: Manager, r: nat) {
    && r < |m.requests|
    && Some(r) != m.latest && Some(r) != m.active && Some(r) != m.pending
    && Terminal(m.requests[r].state)
  }

  /** The scan over the table in insertion order; `count` is the current table size. */
  function Evict(m: Manager, keys: seq<nat>, count: int): seq<nat> {
    if keys == [] then []
    else if Evictable(m, keys[0]) then
      if count - 1 <= TABLE_TARGET then keys[1..] else Evict(m, keys[1..], count - 1)
    else [keys[0]] + Evict(m, keys[1..], count)
  }

  function Trimmed(m: Manager): seq<nat> {
    if |m.table| > TABLE_LIMIT then Evict(m, m.table, |m.table|) else m.table
  }

  function Supersede(rs: seq<Request>, r: nat): (rs': seq<Request>)
    ensures |rs'| == |rs|
  {
    if r < |rs| then rs[r := rs[r].(superseded := true, state := Superseded, signalled := true)] else rs
  }

  function SupersedeLive(rs: seq<Request>, r: Option<nat>): (rs': seq<Request>)
    ensures |rs'| == |rs|
  {
    if r.Some? && r.value < |rs| && !Terminal(rs[r.value].state) then Supersede(rs, r.value) else rs
  }

  function SupersedeOpt(rs: seq<Request>, r: Option<nat>): (rs': seq<Request>)
    ensures |rs'| == |rs|
  {
    if r.Some? then Supersede(rs, r.value) else rs
  }

  function SubmitResult(m: Manager, dataset: string, admissible: bool): Result<nat, Error> {
    if m.closed then Err(ClosedManager)
    else if !Approved(m.descriptors, dataset) then Err(UnknownDataset)
    else if !admissible then Err(InadmissiblePath)
    else Ok(|m.requests|)
  }

  function ApplySubmit(m: Manager, dataset: string, admissible: bool): Manager {
    if SubmitResult(m, dataset, admissible).Err? then m
    else
      var newest := |m.requests|;
      var rs := m.requests + [Request(dataset, Queued, false, false, false)];
      m.(requests := SupersedeOpt(SupersedeLive(rs, m.active), m.pending),
         table := Trimmed(m) + [newest],
         latest := Some(newest),
         pending := Some(newest))
  }

  // ---------------------------------------------------------------- cancellation and closing

  function CancelResult(m: Manager, r: nat): Result<(), Error> {
    if r in m.table then Ok(()) else Err(UnknownToken)
  }

  function ApplyCancel(m: Manager, r: nat): Manager {
    if r in m.table && r < |m.requests| && !Terminal(m.requests[r].state) then
      m.(requests := m.requests[r := m.requests[r].(cancelled := true, state := Cancelling, signalled := true)])
    else m
  }

  function ApplyClose(m: Manager): Manager {
    if m.closed then m
    else m.(closed := true, requests := SupersedeLive(SupersedeOpt(m.requests, m.pending), m.active))
  }

  // ---------------------------------------------------------------- worker

  function ApplyDequeue(m: Manager): Manager {
    if m.worker == Idle && m.pending.Some? && !m.closed then
      var r := m.pending.value;
      if r < |m.requests| && m.requests[r].superseded then m.(pending := None)
      else m.(pending := None, worker := Dequeued(r))
    else m
  }

  function ApplyBegin(m: Manager): Manager {
    if m.worker.Dequeued? && m.worker.request < |m.requests| then
      var r := m.worker.request;
      m.(active := Some(r), worker := Running(r), requests := m.requests[r := m.requests[r].(state := Loading)])
    else m
  }

  /** Whether finishing a load now installs its store as the current and last-good dataset. */
  predicate Publishes(m: Manager) {
    && m.worker.Running? && m.worker.request < |m.requests|
    && !m.requests[m.worker.request].superseded && !m.requests[m.worker.request].cancelled
  }

  function FinalState(q: Request, otherwise: RequestState): RequestState {
    if q.superseded then Superseded else if q.cancelled then Cancelled else otherwise
  }

  function ApplyFinish(m: Manager, outcome: RequestState): Manager {
    if m.worker.Running? && m.worker.request < |m.requests| then
      var r := m.worker.request;
      m.(active := if m.active == Some(r) then None else m.active,
         worker := Idle,
         requests := m.requests[r := m.requests[r].(state := FinalState(m.requests[r], outcome))])
    else m
  }

  function ApplyFinishLoaded(m: Manager, store: int): Manager {
    var m' := ApplyFinish(m, Ready);
    if Publishes(m) then
      var h := Handle(m.worker.request, m.requests[m.worker.request].dataset, store);
      m'.(current := Some(h), lastGood := Some(h))
    else m'
  }

  function ApplyStop(m: Manager): Manager {
    if m.worker == Idle && m.closed then m.(worker := Stopped) else m
  }

  /** One atomic step.  A worker event that is not enabled leaves the manager unchanged. */
  function Apply(m: Manager, e: Event): Manager {
    match e
    case Register(d, ok) => ApplyRegister(m, d, ok)
    case Submit(d, ok) => ApplySubmit(m, d, ok)
    case Cancel(r) => ApplyCancel(m, r)
    case Close => ApplyClose(m)
    case Dequeue => ApplyDequeue(m)
    case Begin => ApplyBegin(m)
    case FinishLoaded(s) => ApplyFinishLoaded(m, s)
    case FinishFailed => ApplyFinish(m, Failed)
    case Stop => ApplyStop(m)
  }

  predicate UniqueIds(ds: seq<Descriptor>) {
    forall i, j :: 0 <= i < j < |ds| ==> ds[i].id != ds[j].id
  }

  function Initial(ds: seq<Descriptor>): Manager {
    Manager(false, [], [], None, None, None, Idle, None, None, ds)
  }

  /** The state after the first `i` events of a run. */
  function At(ds: seq<Descriptor>, es: seq<Event>, i: nat): Manager
    requires i <= |es|
  {
    if i == 0 then Initial(ds) else Apply(At(ds, es, i - 1), es[i - 1])
  }
}
