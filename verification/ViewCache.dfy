/**
 The view-model cache: a bounded dictionary in least-recently-used order whose entries hold a weak reference
 to the store they were computed for.  Lookup and insertion are separate steps, because the lock is released
 while a view is computed.
 */
module ViewCache {
  import opened Wrappers
  import opened PhaseWindows

  const MAX_VIEW_MODEL_CACHE_ENTRIES := 32

  datatype Filters = Filters(node: Option<string>, nic: Option<string>, direction: Option<string>, start: int, end: int)

  /** A store object: `serial` tells all objects apart for ever, `address` may be reused after an object dies. */
  datatype Store = Store(serial: nat, address: nat, identity: string)

  datatype CacheKey = CacheKey(address: nat, identity: string, filters: Filters, phases: seq<Phase>)

  /** A view and the weakly referenced store it belongs to. */
  datatype Cached<V> = Cached(owner: nat, view: V)

  /** An ordered dictionary: least recently used key first. */
  datatype Cache<V> = Cache(order: seq<CacheKey>, entries: map<CacheKey, Cached<V>>)

  type Normal = Result<seq<Phase>, PhaseError>

  /** What an uncached computation returns, by store object, filters and normalized phases. */
  type Compute<!V> = (nat, Filters, Normal) -> V

  function KeyFor(store: Store, filters: Filters, phases: seq<Phase>): CacheKey {
    CacheKey(store.address, store.identity, filters, phases)
  }

  function RequestKey(store: Store, filters: Filters, request: Request): Option<CacheKey> {
    match Key(request)
    case None => None
    case Some(phases) => Some(KeyFor(store, filters, phases))
  }

  function Without(order: seq<CacheKey>, k: CacheKey): (r: seq<CacheKey>)
    ensures |r| <= |order|
  {
    if order == [] then [] else (if order[0] == k then [] else [order[0]]) + Without(order[1..], k)
  }

  function Hit<V>(c: Cache<V>, store: Store, filters: Filters, request: Request): Option<V> {
    match RequestKey(store, filters, request)
    case None => None
    case Some(k) => if k in c.entries && c.entries[k].owner == store.serial then Some(c.entries[k].view) else None
  }

  /** A hit becomes the most recently used; an entry of a dead store at the same address is dropped. */
  function AfterLookup<V>(c: Cache<V>, store: Store, filters: Filters, request: Request): Cache<V> {
    match RequestKey(store, filters, request)
    case None => c
    case Some(k) =>
      if k !in c.entries then c
      else if c.entries[k].owner == store.serial then Cache(Without(c.order, k) + [k], c.entries)
      else Cache(Without(c.order, k), c.entries - {k})
  }

  /** The cache with `k` filed as the most recently used. */
  function Moved<V>(c: Cache<V>, k: CacheKey, e: Cached<V>): Cache<V> {
    Cache(Without(c.order, k) + [k], c.entries[k := e])
  }

  /** The cache without its least recently used key. */
  function Evicted<V>(c: Cache<V>): Cache<V>
    requires c.order != []
  {
    Cache(c.order[1..], c.entries - {c.order[0]})
  }

  function Trim<V>(c: Cache<V>): Cache<V>
    decreases |c.order|
  {
    if |c.order| <= MAX_VIEW_MODEL_CACHE_ENTRIES then c else Trim(Evicted(c))
  }

  function Bounded<V>(c: Cache<V>): Cache<V> {
    if |c.order| <= MAX_VIEW_MODEL_CACHE_ENTRIES then c else Evicted(c)
  }

  function AfterInsert<V>(c: Cache<V>, store: Store, filters: Filters, request: Request, view: V): Cache<V> {
    match RequestKey(store, filters, request)
    case None => c
    case Some(k) => Trim(Moved(c, k, Cached(store.serial, view)))
  }

  predicate NoRepeats(order: seq<CacheKey>) {
    forall i, j :: 0 <= i < j < |order| ==> order[i] != order[j]
  }

  /** The order lists exactly the keys of the dictionary, each once. */
  ghost predicate Ordered<V>(c: Cache<V>) {
    NoRepeats(c.order) && forall k :: k in c.order <==> k in c.entries
  }

  // ---------------------------------------------------------------- the mutable cache

  class ViewModelCache<V> {
    var order: seq<CacheKey>
    var entries: map<CacheKey, Cached<V>>

    constructor ()
      ensures View() == Cache([], map[])
    {
      order, entries := [], map[];
    }

    function View(): Cache<V>
      reads this
    {
      Cache(order, entries)
    }

    /** The first locked section: returns a cached view, if there is one for this very store. */
    method Lookup(store: Store, filters: Filters, request: Request) returns (found: Option<V>)
      modifies this
      ensures found == Hit(old(View()), store, filters, request)
      ensures View() == AfterLookup(old(View()), store, filters, request)
    {
      var phases := PhaseWindowsCacheKey(request);
      if phases.None? { return None; }
      var k := KeyFor(store, filters, phases.value);
      if k !in entries { return None; }
      var cached := entries[k];
      if cached.owner == store.serial {
        order := Without(order, k) + [k];
        return Some(cached.view);
      }
      order, entries := Without(order, k), entries - {k};
      return None;
    }

    /** The second locked section: files a computed view and evicts from the front while there are too many. */
    method Insert(store: Store, filters: Filters, request: Request, view: V)
      modifies this
      ensures View() == AfterInsert(old(View()), store, filters, request, view)
    {
      var phases := PhaseWindowsCacheKey(request);
      if phases.None? { return; }
      var k := KeyFor(store, filters, phases.value);
      order, entries := Without(order, k) + [k], entries[k := Cached(store.serial, view)];
      while |order| > MAX_VIEW_MODEL_CACHE_ENTRIES
        invariant Trim(View()) == AfterInsert(old(View()), store, filters, request, view)
        decreases |order|
      {
        order, entries := order[1..], entries - {order[0]};
      }
    }

    method Clear()
      modifies this
      ensures View() == Cache([], map[])
    {
      order, entries := [], map[];
    }

    /** One request, without other requests in between: a cached view or a fresh one. */
    method BuildViewModel(store: Store, filters: Filters, request: Request, compute: Compute<V>) returns (view: V)
      requires Sound(View(), compute)
      modifies this
      ensures Sound(View(), compute)
      ensures Key(request).None? || Plain(Key(request).value) ==> view == compute(store.serial, filters, Normalized(request))
    {
      hide Sound, AfterLookup, AfterInsert, Hit, Plain, Normalized;
      var found := Lookup(store, filters, request);
      LookupKeeps(old(View()), store, filters, request, compute);
      if found.Some? {
        HitIsRight(old(View()), store, filters, request, compute);
        return found.value;
      }
      var phases := NormalizePhaseWindows(request);
      view := compute(store.serial, filters, phases);
      InsertKeeps(View(), store, filters, request, compute);
      Insert(store, filters, request, view);
    }
  }

  // ---------------------------------------------------------------- what every step keeps

  /** The entry was computed for its owner, by some request filed under its key. */
  ghost predicate Genuine<V>(k: CacheKey, e: Cached<V>, compute: Compute<V>) {
    exists r :: Key(r) == Some(k.phases) && e.view == compute(e.owner, k.filters, Normalized(r))
  }

  ghost predicate Sound<V>(c: Cache<V>, compute: Compute<V>) {
    && Ordered(c) && |c.order| <= MAX_VIEW_MODEL_CACHE_ENTRIES && AllGenuine(c, compute)
  }

  ghost predicate AllGenuine<V>(c: Cache<V>, compute: Compute<V>) {
    forall k :: k in c.entries ==> Genuine(k, c.entries[k], compute)
  }

  lemma {:induction false} WithoutHolds(order: seq<CacheKey>, k: CacheKey)
    requires NoRepeats(order)
    ensures NoRepeats(Without(order, k)) && forall x :: x in Without(order, k) <==> x in order && x != k
    ensures |Without(order, k)| == if k in order then |order| - 1 else |order|
  {
    if order != [] {
      var rest := order[1..];
      assert forall i :: 0 <= i < |rest| ==> rest[i] == order[i + 1];
      WithoutHolds(rest, k);
      assert order == [order[0]] + rest;
      assert order[0] !in rest;
    }
  }

  /** Moving a key to the end keeps an ordered dictionary ordered. */
  lemma {:induction false} MovedHolds(order: seq<CacheKey>, k: CacheKey)
    requires NoRepeats(order)
    ensures NoRepeats(Without(order, k) + [k]) && forall x :: x in Without(order, k) + [k] <==> x in order || x == k
    ensures |Without(order, k) + [k]| == if k in order then |order| else |order| + 1
  {
    WithoutHolds(order, k);
    var moved := Without(order, k) + [k];
    forall i, j | 0 <= i < j < |moved| ensures moved[i] != moved[j] {
      assert i < |Without(order, k)| ==> moved[i] in Without(order, k);
    }
  }

  lemma {:induction false} LookupKeeps<V>(c: Cache<V>, store: Store, filters: Filters, request: Request, compute: Compute<V>)
    requires Sound(c, compute)
    ensures Sound(AfterLookup(c, store, filters, request), compute)
  {
    hide Genuine, Without, NoRepeats;
    match RequestKey(store, filters, request)
    case None =>
    case Some(k) =>
      WithoutHolds(c.order, k);
      MovedHolds(c.order, k);
  }

  /** One insertion into a bounded cache evicts at most one key: the first in the order. */
  lemma {:induction false} InsertShape<V>(c: Cache<V>, store: Store, filters: Filters, request: Request, view: V, k: CacheKey)
    requires Ordered(c) && |c.order| <= MAX_VIEW_MODEL_CACHE_ENTRIES && RequestKey(store, filters, request) == Some(k)
    ensures AfterInsert(c, store, filters, request, view) == Bounded(Moved(c, k, Cached(store.serial, view)))
    ensures |Moved(c, k, Cached(store.serial, view)).order| <= MAX_VIEW_MODEL_CACHE_ENTRIES + 1
  {
    hide Without;
    MovedHolds(c.order, k);
    var moved := Moved(c, k, Cached(store.serial, view));
    if |moved.order| > MAX_VIEW_MODEL_CACHE_ENTRIES {
      assert |Evicted(moved).order| <= MAX_VIEW_MODEL_CACHE_ENTRIES;
      assert Trim(Evicted(moved)) == Evicted(moved);
    }
  }

  lemma {:induction false} MovedKeeps<V>(c: Cache<V>, k: CacheKey, e: Cached<V>, compute: Compute<V>)
    requires Ordered(c) && AllGenuine(c, compute) && Genuine(k, e, compute)
    ensures Ordered(Moved(c, k, e)) && AllGenuine(Moved(c, k, e), compute) && Moved(c, k, e).order != []
  {
    hide Genuine, Without, NoRepeats;
    MovedHolds(c.order, k);
  }

  lemma {:induction false} EvictedKeeps<V>(c: Cache<V>, compute: Compute<V>)
    requires Ordered(c) && AllGenuine(c, compute) && c.order != []
    ensures Ordered(Evicted(c)) && AllGenuine(Evicted(c), compute)
  {
  }

  lemma {:induction false} InsertKeeps<V>(c: Cache<V>, store: Store, filters: Filters, request: Request, compute: Compute<V>)
    requires Sound(c, compute)
    ensures Sound(AfterInsert(c, store, filters, request, compute(store.serial, filters, Normalized(request))), compute)
  {
    hide Genuine, Without, AfterInsert, Normalized, Key, Ordered, AllGenuine, Moved;
    var view := compute(store.serial, filters, Normalized(request));
    match RequestKey(store, filters, request)
    case None => NoKeyNoInsert(c, store, filters, request, view);
    case Some(k) =>
      InsertShape(c, store, filters, request, view, k);
      FreshIsGenuine(store, filters, request, compute);
      MovedKeeps(c, k, Cached(store.serial, view), compute);
      EvictedKeeps(Moved(c, k, Cached(store.serial, view)), compute);
  }

  lemma {:induction false} NoKeyNoInsert<V>(c: Cache<V>, store: Store, filters: Filters, request: Request, view: V)
    requires RequestKey(store, filters, request).None?
    ensures AfterInsert(c, store, filters, request, view) == c
  {
  }

  lemma {:induction false} FreshIsGenuine<V>(store: Store, filters: Filters, request: Request, compute: Compute<V>)
    requires RequestKey(store, filters, request).Some?
    ensures Genuine(RequestKey(store, filters, request).value, Cached(store.serial, compute(store.serial, filters, Normalized(request))), compute)
  {
  }

  /** A hit under an unambiguous key is what an uncached computation returns. */
  lemma {:induction false} HitIsRight<V>(c: Cache<V>, store: Store, filters: Filters, request: Request, compute: Compute<V>)
    requires Sound(c, compute) && Hit(c, store, filters, request).Some?
    ensures Key(request).Some?
    ensures Plain(Key(request).value) ==> Hit(c, store, filters, request).value == compute(store.serial, filters, Normalized(request))
  {
    hide Plain, Normalized, Key, Ordered;
    var key := Key(request).value;
    var k := KeyFor(store, filters, key);
    assert Genuine(k, c.entries[k], compute);
    UnambiguousIffPlain(key);
  }

  // ---------------------------------------------------------------- runs

  /** Steps of any number of threads; an insertion files the view that its thread computed. */
  datatype Event = Looked(store: Store, filters: Filters, request: Request) | Filed(store: Store, filters: Filters, request: Request) | Cleared

  function Step<V>(c: Cache<V>, e: Event, compute: Compute<V>): Cache<V> {
    match e
    case Looked(store, filters, request) => AfterLookup(c, store, filters, request)
    case Filed(store, filters, request) =>
      AfterInsert(c, store, filters, request, compute(store.serial, filters, Normalized(request)))
    case Cleared => Cache([], map[])
  }

  function After<V>(events: seq<Event>, compute: Compute<V>): Cache<V> {
    if events == [] then Cache([], map[]) else Step(After(events[..|events| - 1], compute), events[|events| - 1], compute)
  }

  /** In every run the cache is consistent, has at most 32 entries, and holds only genuine views. */
  lemma {:induction false} RunsAreSound<V>(events: seq<Event>, compute: Compute<V>)
    ensures Sound(After(events, compute), compute)
  {
    if events == [] {
      EmptyIsSound(compute);
    } else {
      hide Sound, AfterLookup, AfterInsert;
      EmptyIsSound(compute);
      var n := |events| - 1;
      RunsAreSound(events[..n], compute);
      match events[n]
      case Looked(store, filters, request) => LookupKeeps(After(events[..n], compute), store, filters, request, compute);
      case Filed(store, filters, request) => InsertKeeps(After(events[..n], compute), store, filters, request, compute);
      case Cleared =>
    }
  }

  lemma {:induction false} EmptyIsSound<V>(compute: Compute<V>)
    ensures Sound(Cache([], map[]), compute)
  {
  }

  /** After any run, a request whose key is plain is answered as if there were no cache. */
  lemma {:induction false} PlainRequestsSeeNoCache<V>(events: seq<Event>, store: Store, filters: Filters, request: Request, compute: Compute<V>)
    requires Key(request).Some? && Plain(Key(request).value)
    ensures Right(Hit(After(events, compute), store, filters, request), compute(store.serial, filters, Normalized(request)))
  {
    hide Hit, Sound, Plain, Normalized, Key;
    RunsAreSound(events, compute);
    if Hit(After(events, compute), store, filters, request).Some? {
      HitIsRight(After(events, compute), store, filters, request, compute);
    }
  }

  ghost predicate Right<V>(answer: Option<V>, view: V) {
    answer.None? || answer.value == view
  }

  /** After every run, the cache answers the request as an uncached computation would, or not at all. */
  ghost predicate AlwaysRight<V(!new)>(store: Store, filters: Filters, request: Request, compute: Compute<V>) {
    forall events :: Right(Hit(After(events, compute), store, filters, request), compute(store.serial, filters, Normalized(request)))
  }

  /** All requests filed under the key of this one have the same view. */
  ghost predicate OneView<V>(store: Store, filters: Filters, request: Request, compute: Compute<V>) {
    forall other :: Key(other) == Key(request) ==>
      compute(store.serial, filters, Normalized(other)) == compute(store.serial, filters, Normalized(request))
  }

  /** Whatever the views look like: a request is always answered right exactly when every request filed under its
      key has the same view. */
  lemma {:induction false} AnsweredRightExactly<V(!new)>(store: Store, filters: Filters, request: Request, compute: Compute<V>)
    requires Key(request).Some?
    ensures AlwaysRight(store, filters, request, compute) <==> OneView(store, filters, request, compute)
  {
    hide Normalized, Key, Hit, After, Right;
    if AlwaysRight(store, filters, request, compute) {
      forall other | Key(other) == Key(request)
        ensures compute(store.serial, filters, Normalized(other)) == compute(store.serial, filters, Normalized(request))
      {
        assert Right(Hit(After([Filed(store, filters, other)], compute), store, filters, request),
                     compute(store.serial, filters, Normalized(request)));
        FiledIsHit(store, filters, other, request, compute);
      }
    }
    if OneView(store, filters, request, compute) {
      forall events ensures Right(Hit(After(events, compute), store, filters, request), compute(store.serial, filters, Normalized(request))) {
        HitIsSomeones(events, store, filters, request, compute);
      }
    }
  }

  /** A view filed by one request is what another request with its key gets. */
  lemma {:induction false} FiledIsHit<V>(store: Store, filters: Filters, other: Request, request: Request, compute: Compute<V>)
    requires Key(other).Some? && Key(other) == Key(request)
    ensures Right(Hit(After([Filed(store, filters, other)], compute), store, filters, request), compute(store.serial, filters, Normalized(request)))
            <==> compute(store.serial, filters, Normalized(other)) == compute(store.serial, filters, Normalized(request))
  {
    hide Normalized, Key, After;
    OneFiled(store, filters, other, compute);
  }

  /** Every hit is the view of some request with the same key. */
  lemma {:induction false} HitIsSomeones<V>(events: seq<Event>, store: Store, filters: Filters, request: Request, compute: Compute<V>)
    requires Key(request).Some? && OneView(store, filters, request, compute)
    ensures Right(Hit(After(events, compute), store, filters, request), compute(store.serial, filters, Normalized(request)))
  {
    hide Normalized, Key, After, Ordered;
    RunsAreSound(events, compute);
    var c, k := After(events, compute), KeyFor(store, filters, Key(request).value);
    if Hit(c, store, filters, request).Some? {
      assert Genuine(k, c.entries[k], compute);
    }
  }

  /** Requests with this key that normalize differently have different views. */
  ghost predicate Distinguishes<V(!new)>(compute: Compute<V>, store: Store, filters: Filters, key: seq<Phase>) {
    forall a, b :: Key(a) == Some(key) && Key(b) == Some(key) && Normalized(a) != Normalized(b) ==>
                     compute(store.serial, filters, Normalized(a)) != compute(store.serial, filters, Normalized(b))
  }

  /** Where the view shows the phases it was computed for, a request is always answered right exactly when its key
      is plain: a name with outer white space is shared by a window object and a dictionary. */
  lemma {:induction false} AnsweredRightIffPlain<V(!new)>(store: Store, filters: Filters, request: Request, compute: Compute<V>)
    requires Key(request).Some? && Distinguishes(compute, store, filters, Key(request).value)
    ensures AlwaysRight(store, filters, request, compute) <==> Plain(Key(request).value)
  {
    hide Plain, Normalized, Key, AlwaysRight;
    var key := Key(request).value;
    AnsweredRightExactly(store, filters, request, compute);
    UnambiguousIffPlain(key);
    if !Plain(key) {
      var a, b := NotPlainAmbiguous(key);
      assert Normalized(a) != Normalized(request) || Normalized(b) != Normalized(request);
    }
  }

  /** `None` and the empty list are one entry, so neither is always answered right when their views differ: the
      first is an input error, the second shows no phases. */
  lemma {:induction false} EmptyKeyAnsweredWrong<V(!new)>(store: Store, filters: Filters, request: Request, compute: Compute<V>)
    requires request in {NoPhases, Items([])}
    requires compute(store.serial, filters, Err(NotListOfObjects)) != compute(store.serial, filters, Ok([]))
    ensures !AlwaysRight(store, filters, request, compute)
  {
    hide AlwaysRight;
    AnsweredRightExactly(store, filters, request, compute);
    assert Key(NoPhases) == Key(Items([])) == Some([]);
    assert Normalized(NoPhases) == Err(NotListOfObjects) && Normalized(Items([])) == Ok([]);
  }

  /** All non-empty phase lists have one view. */
  ghost predicate Merges<V(!new)>(compute: Compute<V>, store: Store, filters: Filters) {
    forall a: seq<Phase>, b: seq<Phase> :: a != [] && b != [] ==>
      compute(store.serial, filters, Ok(a)) == compute(store.serial, filters, Ok(b))
  }

  /** Where all non-empty phase lists have one view, as when no single direction is selected, white space that does
      not leave a name blank does no harm. */
  lemma {:induction false} MergedViewsAnsweredRight<V(!new)>(store: Store, filters: Filters, request: Request, compute: Compute<V>)
    requires Key(request).Some? && Key(request).value != [] && Merges(compute, store, filters)
    requires forall i :: 0 <= i < |Key(request).value| ==> Strip(Key(request).value[i].name) != ""
    ensures AlwaysRight(store, filters, request, compute)
  {
    hide Normalized, Key, Strip, AlwaysRight;
    AnsweredRightExactly(store, filters, request, compute);
    var key := Key(request).value;
    forall other | Key(other) == Key(request)
      ensures compute(store.serial, filters, Normalized(other)) == compute(store.serial, filters, Normalized(request))
    {
      NoBlankNames(other, key);
      NoBlankNames(request, key);
    }
  }

  lemma {:induction false} OneFiled<V>(store: Store, filters: Filters, request: Request, compute: Compute<V>)
    requires Key(request).Some?
    ensures var k := KeyFor(store, filters, Key(request).value);
            After([Filed(store, filters, request)], compute) ==
              Cache([k], map[k := Cached(store.serial, compute(store.serial, filters, Normalized(request)))])
  {
  }

  // ---------------------------------------------------------------- dictionary-form requests

  predicate FilesDicts(e: Event) {
    e.Filed? ==> DictForm(e.request)
  }

  /** Every entry was filed by a list of dictionaries. */
  ghost predicate FromDicts<V>(c: Cache<V>, compute: Compute<V>) {
    forall k :: k in c.entries ==> exists r :: DictForm(r) && Key(r) == Some(k.phases)
                                               && c.entries[k].view == compute(c.entries[k].owner, k.filters, Normalized(r))
  }

  lemma {:induction false} TrimKeepsSome<V>(c: Cache<V>)
    ensures forall k :: k in Trim(c).entries ==> k in c.entries && Trim(c).entries[k] == c.entries[k]
    decreases |c.order|
  {
    if |c.order| > MAX_VIEW_MODEL_CACHE_ENTRIES { TrimKeepsSome(Evicted(c)); }
  }

  lemma {:induction false} DictRuns<V>(events: seq<Event>, compute: Compute<V>)
    requires forall i :: 0 <= i < |events| ==> FilesDicts(events[i])
    ensures FromDicts(After(events, compute), compute)
  {
    hide Trim, Normalized, Key, DictForm, Without;
    if events != [] {
      var n := |events| - 1;
      var c, e := After(events[..n], compute), events[n];
      DictRuns(events[..n], compute);
      assert FilesDicts(events[n]);
      if e.Filed? && RequestKey(e.store, e.filters, e.request).Some? {
        var k := RequestKey(e.store, e.filters, e.request).value;
        var view := compute(e.store.serial, e.filters, Normalized(e.request));
        TrimKeepsSome(Moved(c, k, Cached(e.store.serial, view)));
      }
    }
  }

  /** If every request that is filed is a list of dictionaries, then every such request is answered, after every
      run and whatever stores died and whichever addresses were reused, as if there were no cache. */
  lemma {:induction false} DictRequestsSeeNoCache<V>(events: seq<Event>, store: Store, filters: Filters, request: Request, compute: Compute<V>)
    requires (forall i :: 0 <= i < |events| ==> FilesDicts(events[i])) && DictForm(request)
    ensures Right(Hit(After(events, compute), store, filters, request), compute(store.serial, filters, Normalized(request)))
  {
    hide Normalized, Key, DictForm, After;
    DictRuns(events, compute);
    var c := After(events, compute);
    if Hit(c, store, filters, request).Some? {
      var k := KeyFor(store, filters, Key(request).value);
      var r :| DictForm(r) && Key(r) == Some(k.phases) && c.entries[k].view == compute(c.entries[k].owner, k.filters, Normalized(r));
      DictFormKeys(r, request);
    }
  }

  // ---------------------------------------------------------------- least recently used

  /** The key that a step uses: a hit, or an insertion. */
  function Uses<V>(c: Cache<V>, e: Event): Option<CacheKey> {
    match e
    case Looked(store, filters, request) =>
      if Hit(c, store, filters, request).Some? then RequestKey(store, filters, request) else None
    case Filed(store, filters, request) => RequestKey(store, filters, request)
    case Cleared => None
  }

  /** The number of steps up to and including the last use of `k`. */
  function LastUse<V>(events: seq<Event>, k: CacheKey, compute: Compute<V>): (n: nat)
    ensures n <= |events|
  {
    if events == [] then 0
    else
      var n := |events| - 1;
      if Uses(After(events[..n], compute), events[n]) == Some(k) then |events| else LastUse(events[..n], k, compute)
  }

  function UseRank<V>(events: seq<Event>, compute: Compute<V>): CacheKey -> nat {
    k => LastUse(events, k, compute)
  }

  predicate Rising(order: seq<CacheKey>, rank: CacheKey -> nat) {
    forall i, j :: 0 <= i < j < |order| ==> rank(order[i]) < rank(order[j])
  }

  ghost predicate ByUse<V>(order: seq<CacheKey>, events: seq<Event>, compute: Compute<V>) {
    Rising(order, UseRank(events, compute))
  }

  lemma {:induction false} WithoutRises(order: seq<CacheKey>, k: CacheKey, rank: CacheKey -> nat)
    requires Rising(order, rank)
    ensures Rising(Without(order, k), rank)
    ensures forall x :: x in Without(order, k) ==> x in order && x != k
  {
    if order != [] {
      var rest := order[1..];
      assert forall i :: 0 <= i < |rest| ==> rest[i] == order[i + 1];
      WithoutRises(rest, k, rank);
      var v := Without(rest, k);
      forall i | 0 <= i < |v| ensures rank(order[0]) < rank(v[i]) {
        assert v[i] in rest;
        var j :| 0 <= j < |rest| && rest[j] == v[i];
        assert rank(order[0]) < rank(order[j + 1]);
      }
    }
  }

  lemma {:induction false} SameRanks(order: seq<CacheKey>, a: CacheKey -> nat, b: CacheKey -> nat)
    requires Rising(order, a) && forall x :: x in order ==> a(x) == b(x)
    ensures Rising(order, b)
  {
  }

  /** A step that uses `k` puts it behind all keys that keep their place. */
  lemma {:induction false} MovedByUse<V>(events: seq<Event>, order: seq<CacheKey>, k: CacheKey, compute: Compute<V>)
    requires events != [] && ByUse(order, events[..|events| - 1], compute)
    requires Uses(After(events[..|events| - 1], compute), events[|events| - 1]) == Some(k)
    ensures ByUse(Without(order, k) + [k], events, compute)
  {
    hide Uses, After, Without;
    var n := |events| - 1;
    var before, now := UseRank(events[..n], compute), UseRank(events, compute);
    WithoutRises(order, k, before);
    var w := Without(order, k);
    assert forall x :: x in w ==> before(x) == now(x) <= n;
    SameRanks(w, before, now);
    assert now(k) == n + 1;
    assert forall i :: 0 <= i < |w| ==> w[i] in w;
  }

  lemma {:induction false} KeptByUse<V>(events: seq<Event>, order: seq<CacheKey>, kept: seq<CacheKey>, k: CacheKey, compute: Compute<V>)
    requires events != [] && ByUse(order, events[..|events| - 1], compute)
    requires kept == order || kept == Without(order, k)
    requires Uses(After(events[..|events| - 1], compute), events[|events| - 1]) == None
    ensures ByUse(kept, events, compute)
  {
    hide Uses, After, Without;
    var before, now := UseRank(events[..|events| - 1], compute), UseRank(events, compute);
    WithoutRises(order, k, before);
    assert forall x :: before(x) == now(x);
    SameRanks(kept, before, now);
  }

  /** In every run the order of the dictionary is the order of last use. */
  lemma {:induction false} OrderIsByUse<V>(events: seq<Event>, compute: Compute<V>)
    ensures ByUse(After(events, compute).order, events, compute)
  {
    if events != [] {
      hide ByUse, Trim, Without, LastUse, Key, Normalized, Sound;
      var n := |events| - 1;
      var c, e := After(events[..n], compute), events[n];
      OrderIsByUse(events[..n], compute);
      RunsAreSound(events[..n], compute);
      match e
      case Looked(store, filters, request) =>
        var k := RequestKey(store, filters, request);
        if Uses(c, e).Some? {
          MovedByUse(events, c.order, k.value, compute);
        } else {
          var missed := MissOrder(c, store, filters, request);
          KeptByUse(events, c.order, After(events, compute).order, missed, compute);
        }
      case Filed(store, filters, request) =>
        var k := RequestKey(store, filters, request);
        if k.Some? {
          MovedByUse(events, c.order, k.value, compute);
          InsertOrder(c, store, filters, request, compute, k.value);
          TailByUse(Without(c.order, k.value) + [k.value], events, compute);
        } else {
          KeptByUse(events, c.order, c.order, KeyFor(store, filters, []), compute);
        }
      case Cleared => NothingByUse(events, compute);
    }
  }

  lemma {:induction false} MissOrder<V>(c: Cache<V>, store: Store, filters: Filters, request: Request) returns (k: CacheKey)
    requires Hit(c, store, filters, request).None?
    ensures AfterLookup(c, store, filters, request).order in {c.order, Without(c.order, k)}
  {
    k := KeyFor(store, filters, if Key(request).Some? then Key(request).value else []);
  }

  lemma {:induction false} NothingByUse<V>(events: seq<Event>, compute: Compute<V>)
    ensures ByUse([], events, compute)
  {
  }

  lemma {:induction false} TailByUse<V>(order: seq<CacheKey>, events: seq<Event>, compute: Compute<V>)
    requires order != [] && ByUse(order, events, compute)
    ensures ByUse(order[1..], events, compute)
  {
  }

  lemma {:induction false} InsertOrder<V>(c: Cache<V>, store: Store, filters: Filters, request: Request, compute: Compute<V>, k: CacheKey)
    requires Sound(c, compute) && RequestKey(store, filters, request) == Some(k)
    ensures var after := AfterInsert(c, store, filters, request, compute(store.serial, filters, Normalized(request)));
            after.order == Without(c.order, k) + [k] || after.order == (Without(c.order, k) + [k])[1..]
  {
    hide Without, Normalized, Key, AfterInsert;
    InsertShape(c, store, filters, request, compute(store.serial, filters, Normalized(request)), k);
  }

  /** Filing a key drops at most the first of the others, and only from a full cache. */
  lemma {:induction false} OnlyFirstGoes<V>(c: Cache<V>, k: CacheKey, e: Cached<V>, gone: CacheKey)
    requires Ordered(c) && |c.order| <= MAX_VIEW_MODEL_CACHE_ENTRIES
    requires gone in c.entries && gone !in Bounded(Moved(c, k, e)).entries
    ensures |c.order| == MAX_VIEW_MODEL_CACHE_ENTRIES == |Bounded(Moved(c, k, e)).order|
    ensures Moved(c, k, e).order != [] && gone == Moved(c, k, e).order[0]
    ensures forall x :: x in Bounded(Moved(c, k, e)).entries ==> x != gone && x in Moved(c, k, e).order
    ensures forall x :: x in c.entries && x != gone ==> x in Bounded(Moved(c, k, e)).entries
  {
    hide Without;
    MovedHolds(c.order, k);
  }

  /** The first of the keys in order of use was used before all others. */
  lemma {:induction false} FirstIsOldest<V>(order: seq<CacheKey>, events: seq<Event>, compute: Compute<V>, x: CacheKey)
    requires ByUse(order, events, compute) && order != [] && x in order && x != order[0]
    ensures LastUse(events, order[0], compute) < LastUse(events, x, compute)
  {
    hide LastUse;
    var j :| 0 <= j < |order| && order[j] == x;
    assert UseRank(events, compute)(order[0]) < UseRank(events, compute)(order[j]);
  }

  lemma {:induction false} AfterFiled<V>(events: seq<Event>, store: Store, filters: Filters, request: Request, compute: Compute<V>)
    ensures var all := events + [Filed(store, filters, request)];
            && all[..|all| - 1] == events && all[|all| - 1] == Filed(store, filters, request)
            && After(all, compute) == AfterInsert(After(events, compute), store, filters, request,
                                                  compute(store.serial, filters, Normalized(request)))
            && Uses(After(events, compute), all[|all| - 1]) == RequestKey(store, filters, request)
  {
    assert (events + [Filed(store, filters, request)])[..|events|] == events;
  }

  /** An insertion evicts only when the cache is full, and then exactly the key whose last use is the oldest. */
  lemma {:induction false} EvictsLeastRecentlyUsed<V>(events: seq<Event>, store: Store, filters: Filters, request: Request, compute: Compute<V>, gone: CacheKey)
    requires gone in After(events, compute).entries
    requires gone !in After(events + [Filed(store, filters, request)], compute).entries
    ensures var after := After(events + [Filed(store, filters, request)], compute);
            && |After(events, compute).order| == |after.order| == MAX_VIEW_MODEL_CACHE_ENTRIES
            && (forall k :: k in after.entries ==>
                  LastUse(events + [Filed(store, filters, request)], gone, compute) < LastUse(events + [Filed(store, filters, request)], k, compute))
            && (forall k :: k in After(events, compute).entries && k != gone ==> k in after.entries)
  {
    hide After, Uses, ByUse, LastUse, Normalized, RequestKey, AfterInsert, Ordered, Bounded, AllGenuine;
    var all := events + [Filed(store, filters, request)];
    var c, view := After(events, compute), compute(store.serial, filters, Normalized(request));
    AfterFiled(events, store, filters, request, compute);
    RunsAreSound(events, compute);
    if RequestKey(store, filters, request).None? {
      NoKeyNoInsert(c, store, filters, request, view);
    } else {
      var k, e := RequestKey(store, filters, request).value, Cached(store.serial, view);
      InsertShape(c, store, filters, request, view, k);
      OnlyFirstGoes(c, k, e, gone);
      OrderIsByUse(events, compute);
      MovedByUse(all, c.order, k, compute);
      forall x | x in After(all, compute).entries ensures LastUse(all, gone, compute) < LastUse(all, x, compute) {
        FirstIsOldest(Moved(c, k, e).order, all, compute, x);
      }
    }
  }
}
