/**
 Phase windows as callers pass them: how they are normalized for the analysis, and the key under which the
 view cache files them.
 */
module PhaseWindows {
  import opened Wrappers
  import opened Sorting
  import opened Comparing
  import StringOrder

  const MAX_PHASE_WINDOWS := 100

  datatype Phase = Phase(name: string, start: int, end: int)

  /** A window object, a dictionary whose entries may have other types, or something else. */
  datatype Item = Window(phase: Phase) | Dict(name: Option<string>, start: Option<int>, end: Option<int>) | Other

  /** `None`, something that is not a list, or a list or tuple. */
  datatype Request = NoPhases | NotAList | Items(items: seq<Item>)

  datatype PhaseError = NotListOfObjects | TooMany | NotAnObject | BlankName | BadStart | BadEnd

  // ---------------------------------------------------------------- names

  /** The characters Python's `strip` removes. */
  predicate Space(c: char) {
    || c in {' ', '\t', '\n', '\r', '\U{0B}', '\U{0C}', '\U{1C}', '\U{1D}', '\U{1E}', '\U{1F}', '\U{85}', '\U{A0}', '\U{1680}',
             '\U{2028}', '\U{2029}', '\U{202F}', '\U{205F}', '\U{3000}'}
    || '\U{2000}' <= c <= '\U{200A}'
  }

  function StripLeft(s: string): (r: string)
    ensures |r| <= |s|
    ensures r == s || |r| < |s|
  {
    if s != "" && Space(s[0]) then StripLeft(s[1..]) else s
  }

  function StripRight(s: string): (r: string)
    ensures |r| <= |s|
    ensures r == s || |r| < |s|
  {
    if s != "" && Space(s[|s| - 1]) then StripRight(s[..|s| - 1]) else s
  }

  function Strip(s: string): string {
    StripRight(StripLeft(s))
  }

  /** Not blank, and without white space at its ends. */
  predicate Clean(name: string) {
    name != "" && Strip(name) == name
  }

  lemma {:induction false} StripLeftDone(s: string)
    ensures var r := StripLeft(s); r == "" || !Space(r[0])
  {
    if s != "" && Space(s[0]) { StripLeftDone(s[1..]); }
  }

  lemma {:induction false} StripRightDone(s: string)
    ensures var r := StripRight(s); r == "" || !Space(r[|r| - 1])
    ensures StripRight(s) != "" ==> s != "" && StripRight(s)[0] == s[0]
  {
    if s != "" && Space(s[|s| - 1]) { StripRightDone(s[..|s| - 1]); }
  }

  /** Stripping once is enough: a stripped name is blank or clean. */
  lemma {:induction false} StripOnce(s: string)
    ensures Strip(s) == "" || Clean(Strip(s))
  {
    hide Space;
    StripLeftDone(s);
    StripRightDone(StripLeft(s));
    var r := Strip(s);
    if r != "" {
      assert StripLeft(r) == r && StripRight(r) == r;
    }
  }

  predicate Blank(s: string) {
    forall i :: 0 <= i < |s| ==> Space(s[i])
  }

  lemma {:induction false} StripLeftCuts(s: string) returns (i: nat)
    ensures i <= |s| && StripLeft(s) == s[i..] && Blank(s[..i])
  {
    i := 0;
    if s != "" && Space(s[0]) {
      var j := StripLeftCuts(s[1..]);
      i := j + 1;
      assert s[i..] == s[1..][j..] && s[..i] == [s[0]] + s[1..][..j];
    }
  }

  lemma {:induction false} StripRightCuts(s: string) returns (j: nat)
    ensures j <= |s| && StripRight(s) == s[..j] && Blank(s[j..])
  {
    j := |s|;
    if s != "" && Space(s[|s| - 1]) {
      var n := |s| - 1;
      j := StripRightCuts(s[..n]);
      assert s[..j] == s[..n][..j] && s[j..] == s[..n][j..] + [s[n]];
    }
  }

  /** Stripping removes white space at both ends and nothing else; what is left does not begin or end with any. */
  lemma {:induction false} StripCuts(s: string) returns (i: nat, j: nat)
    ensures i <= j <= |s| && Strip(s) == s[i..j] && Blank(s[..i]) && Blank(s[j..])
    ensures i < j ==> !Space(s[i]) && !Space(s[j - 1])
    ensures Strip(s) == "" <==> Blank(s)
  {
    hide Space;
    i := StripLeftCuts(s);
    var k := StripRightCuts(s[i..]);
    j := i + k;
    assert s[i..][..k] == s[i..j] && s[i..][k..] == s[j..];
    StripLeftDone(s);
    StripRightDone(StripLeft(s));
    if i == j { assert s == s[..i] + s[j..]; }
  }

  // ---------------------------------------------------------------- normal form

  function StartEndName(p: Phase): (int, (int, string)) {
    (p.start, (p.end, p.name))
  }

  function PhaseOrder(): (Phase, Phase) -> bool {
    AtMost(By(StartEndName, Pairs(Ints, Pairs(Ints, Strings))))
  }

  function ItemPhase(item: Item): Result<Phase, PhaseError> {
    match item
    case Window(phase) => Ok(phase)
    case Other => Err(NotAnObject)
    case Dict(name, start, end) =>
      if name.None? || Strip(name.value) == "" then Err(BlankName)
      else if start.None? then Err(BadStart)
      else if end.None? then Err(BadEnd)
      else Ok(Phase(Strip(name.value), start.value, end.value))
  }

  /** The phases of a list of items, or the error of the first item that is not one. */
  function Phases(items: seq<Item>): Result<seq<Phase>, PhaseError> {
    if items == [] then Ok([])
    else match ItemPhase(items[0])
         case Err(e) => Err(e)
         case Ok(p) => match Phases(items[1..])
                       case Err(e) => Err(e)
                       case Ok(ps) => Ok([p] + ps)
  }

  function Normalized(request: Request): Result<seq<Phase>, PhaseError> {
    match request
    case NoPhases => Err(NotListOfObjects)
    case NotAList => Err(NotListOfObjects)
    case Items(items) =>
      if items == [] then Ok([])
      else if |items| > MAX_PHASE_WINDOWS then Err(TooMany)
      else match Phases(items)
           case Err(e) => Err(e)
           case Ok(ps) => Ok(Sort(ps, PhaseOrder()))
  }

  /** By start, then end, then name. */
  lemma {:induction false} PhaseOrderMeans(a: Phase, b: Phase)
    ensures PhaseOrder()(a, b) <==>
              a.start < b.start || (a.start == b.start && (a.end < b.end || (a.end == b.end && StringOrder.Leq(a.name, b.name))))
  {
    var inner := Pairs(Ints, Strings);
    var x, y := StartEndName(a), StartEndName(b);
    StringOrder.Total(a.name, b.name);
    assert x == (a.start, (a.end, a.name)) && y == (b.start, (b.end, b.name));
    assert Ints(x.1.0, y.1.0) == Equal <==> a.end == b.end;
    assert inner(x.1, y.1) == if a.end == b.end then Strings(a.name, b.name) else Ints(a.end, b.end);
    assert Pairs(Ints, inner)(x, y) == if a.start == b.start then inner(x.1, y.1) else Ints(a.start, b.start);
  }

  /** The item stands for the phase: a window object as it is, a dictionary with its name stripped. */
  predicate Gives(item: Item, p: Phase) {
    || item == Window(p)
    || (item.Dict? && item.name.Some? && !Blank(item.name.value) && p.name == Strip(item.name.value)
        && item.start == Some(p.start) && item.end == Some(p.end))
  }

  /** The first thing that is wrong with the item. */
  predicate Rejects(item: Item, e: PhaseError) {
    match e
    case NotAnObject => item.Other?
    case BlankName => item.Dict? && (item.name.None? || Blank(item.name.value))
    case BadStart => item.Dict? && item.name.Some? && !Blank(item.name.value) && item.start.None?
    case BadEnd => item.Dict? && item.name.Some? && !Blank(item.name.value) && item.start.Some? && item.end.None?
    case _ => false
  }

  lemma {:induction false} ItemMeans(item: Item)
    ensures ItemPhase(item).Ok? ==> Gives(item, ItemPhase(item).value)
    ensures ItemPhase(item).Err? ==> Rejects(item, ItemPhase(item).error)
  {
    hide Strip, Blank;
    if item.Dict? && item.name.Some? { var i, j := StripCuts(item.name.value); }
  }

  ghost predicate Stands(item: Item) {
    exists p :: Gives(item, p)
  }

  /** All items before the `k`-th stand for phases, and that one is rejected. */
  ghost predicate FirstRejected(items: seq<Item>, k: nat, e: PhaseError) {
    k < |items| && Rejects(items[k], e) && forall i :: 0 <= i < k ==> Stands(items[i])
  }

  lemma {:induction false} PhasesMean(items: seq<Item>)
    ensures Phases(items).Ok? ==> |Phases(items).value| == |items| && forall i :: 0 <= i < |items| ==> Gives(items[i], Phases(items).value[i])
    ensures Phases(items).Err? ==> exists k: nat :: FirstRejected(items, k, Phases(items).error)
  {
    if items != [] {
      hide Gives, Rejects, ItemPhase;
      var rest := items[1..];
      PhasesMean(rest);
      ItemMeans(items[0]);
      if ItemPhase(items[0]).Err? {
        assert FirstRejected(items, 0, ItemPhase(items[0]).error);
      } else if Phases(rest).Err? {
        var k: nat :| FirstRejected(rest, k, Phases(rest).error);
        forall i | 0 <= i <= k ensures Stands(items[i]) {
          assert if i == 0 then Gives(items[0], ItemPhase(items[0]).value) else items[i] == rest[i - 1];
        }
        assert items[k + 1] == rest[k] && Phases(items).error == Phases(rest).error;
        assert FirstRejected(items, k + 1, Phases(rest).error);
      }
    }
  }

  /** Normalization keeps every phase and sorts them; otherwise the request is no list, is too long, or its first item
      that stands for no phase decides the error. */
  lemma {:induction false} NormalizedMeans(request: Request)
    ensures Normalized(request) == Err(NotListOfObjects) <==> !request.Items?
    ensures Normalized(request) == Err(TooMany) <==> request.Items? && |request.items| > 100
    ensures Normalized(request).Err? && request.Items? && |request.items| <= 100 ==>
              exists k: nat :: FirstRejected(request.items, k, Normalized(request).error)
    ensures Normalized(request).Ok? ==>
              && request.Items? && |request.items| <= 100 && Sorted(Normalized(request).value, PhaseOrder())
              && exists given: seq<Phase> ::
                   |given| == |request.items| && multiset(Normalized(request).value) == multiset(given)
                   && forall i :: 0 <= i < |given| ==> Gives(request.items[i], given[i])
  {
    if request.Items? && |request.items| <= 100 {
      hide Phases, Gives, FirstRejected, PhaseOrder;
      PhasesMean(request.items);
      NoneRejected(request.items);
      if Phases(request.items).Ok? {
        PhaseOrderIsTotal();
        SortSorts(Phases(request.items).value, PhaseOrder());
        SortPermutes(Phases(request.items).value, PhaseOrder());
      }
    }
  }

  lemma {:induction false} NoneRejected(items: seq<Item>)
    ensures items == [] ==> Phases(items) == Ok([])
    ensures forall k: nat :: !FirstRejected(items, k, NotListOfObjects) && !FirstRejected(items, k, TooMany)
  {
  }

  lemma {:induction false} PhaseOrderIsTotal()
    ensures TotalPreorder(PhaseOrder())
  {
    hide Pairs, Lawful, Strings, Ints;
    IntsLawful();
    StringsLawful();
    PairsLawful(Ints, Strings);
    PairsLawful(Ints, Pairs(Ints, Strings));
    ByTotal(StartEndName, Pairs(Ints, Pairs(Ints, Strings)));
  }

  lemma {:induction false} PhasesSnoc(items: seq<Item>, n: nat, done: seq<Phase>)
    requires n < |items| && Phases(items[..n]) == Ok(done)
    ensures ItemPhase(items[n]).Ok? ==> Phases(items[..n + 1]) == Ok(done + [ItemPhase(items[n]).value])
    ensures ItemPhase(items[n]).Err? ==> Phases(items) == Err(ItemPhase(items[n]).error)
    decreases n
  {
    if n == 0 {
      assert items[..1][1..] == [] && done == [];
      assert ItemPhase(items[0]).Ok? ==> [ItemPhase(items[0]).value] + [] == done + [ItemPhase(items[0]).value];
    } else {
      assert items[..n][1..] == items[1..][..n - 1] && items[..n + 1][1..] == items[1..][..n];
      assert items[1..][n - 1] == items[n];
      PhasesSnoc(items[1..], n - 1, done[1..]);
      if ItemPhase(items[n]).Ok? {
        var p := ItemPhase(items[n]).value;
        assert Phases(items[..n + 1]) == Ok([done[0]] + (done[1..] + [p]));
        assert [done[0]] + (done[1..] + [p]) == done + [p];
      }
    }
  }

  method NormalizePhaseWindows(request: Request) returns (r: Result<seq<Phase>, PhaseError>)
    ensures r == Normalized(request)
  {
    hide Sort, ItemPhase;
    if !request.Items? { return Err(NotListOfObjects); }
    if request.items == [] { return Ok([]); }
    if |request.items| > MAX_PHASE_WINDOWS { return Err(TooMany); }
    var normalized: seq<Phase> := [];
    var n := 0;
    while n < |request.items|
      invariant 0 <= n <= |request.items| && Phases(request.items[..n]) == Ok(normalized)
    {
      PhasesSnoc(request.items, n, normalized);
      var phase := ItemPhase(request.items[n]);
      if phase.Err? { return Err(phase.error); }
      normalized := normalized + [phase.value];
      n := n + 1;
    }
    assert request.items[..n] == request.items;
    r := Ok(Sort(normalized, PhaseOrder()));
  }

  // ---------------------------------------------------------------- cache key

  function ItemKey(item: Item): Option<Phase> {
    match item
    case Window(phase) => Some(phase)
    case Other => None
    case Dict(name, start, end) =>
      if name.None? || start.None? || end.None? then None else Some(Phase(name.value, start.value, end.value))
  }

  function ItemKeys(items: seq<Item>): Option<seq<Phase>> {
    if items == [] then Some([])
    else if ItemKey(items[0]).None? || ItemKeys(items[1..]).None? then None
    else Some([ItemKey(items[0]).value] + ItemKeys(items[1..]).value)
  }

  /** The key of a request; requests without one are never cached. */
  function Key(request: Request): Option<seq<Phase>> {
    match request
    case NoPhases => Some([])
    case NotAList => None
    case Items(items) => ItemKeys(items)
  }

  lemma {:induction false} ItemKeysSnoc(items: seq<Item>, n: nat, done: seq<Phase>)
    requires n < |items| && ItemKeys(items[..n]) == Some(done)
    ensures ItemKey(items[n]).Some? ==> ItemKeys(items[..n + 1]) == Some(done + [ItemKey(items[n]).value])
    ensures ItemKey(items[n]).None? ==> ItemKeys(items) == None
    decreases n
  {
    if n == 0 {
      assert items[..1][1..] == [] && done == [];
      assert ItemKey(items[0]).Some? ==> [ItemKey(items[0]).value] + [] == done + [ItemKey(items[0]).value];
    } else {
      assert items[..n][1..] == items[1..][..n - 1] && items[..n + 1][1..] == items[1..][..n];
      assert items[1..][n - 1] == items[n];
      ItemKeysSnoc(items[1..], n - 1, done[1..]);
      if ItemKey(items[n]).Some? {
        var p := ItemKey(items[n]).value;
        assert ItemKeys(items[..n + 1]) == Some([done[0]] + (done[1..] + [p]));
        assert [done[0]] + (done[1..] + [p]) == done + [p];
      }
    }
  }

  method PhaseWindowsCacheKey(request: Request) returns (key: Option<seq<Phase>>)
    ensures key == Key(request)
  {
    hide ItemKey;
    if request.NoPhases? { return Some([]); }
    if request.NotAList? { return None; }
    var done: seq<Phase> := [];
    var n := 0;
    while n < |request.items|
      invariant 0 <= n <= |request.items| && ItemKeys(request.items[..n]) == Some(done)
    {
      ItemKeysSnoc(request.items, n, done);
      var k := ItemKey(request.items[n]);
      if k.None? { return None; }
      done := done + [k.value];
      n := n + 1;
    }
    assert request.items[..n] == request.items;
    key := Some(done);
  }

  // ---------------------------------------------------------------- when a key determines the normal form

  /** All requests filed under this key normalize alike. */
  ghost predicate Unambiguous(key: seq<Phase>) {
    forall a, b :: Key(a) == Some(key) && Key(b) == Some(key) ==> Normalized(a) == Normalized(b)
  }

  /** What can be read off the key itself. */
  predicate Plain(key: seq<Phase>) {
    key != [] && (|key| > MAX_PHASE_WINDOWS || forall i :: 0 <= i < |key| ==> Clean(key[i].name))
  }

  lemma {:induction false} KeyLength(items: seq<Item>)
    ensures ItemKeys(items).Some? ==> |ItemKeys(items).value| == |items|
  {
    if items != [] { KeyLength(items[1..]); }
  }

  lemma {:induction false} CleanItems(items: seq<Item>, key: seq<Phase>)
    requires ItemKeys(items) == Some(key) && forall i :: 0 <= i < |key| ==> Clean(key[i].name)
    ensures Phases(items) == Ok(key)
  {
    if items != [] {
      var rest := ItemKeys(items[1..]).value;
      assert key == [key[0]] + rest;
      assert forall i :: 0 <= i < |rest| ==> rest[i] == key[i + 1];
      CleanItems(items[1..], rest);
    }
  }

  lemma {:induction false} NoBlankItems(items: seq<Item>, key: seq<Phase>)
    requires ItemKeys(items) == Some(key) && forall i :: 0 <= i < |key| ==> Strip(key[i].name) != ""
    ensures Phases(items).Ok? && |Phases(items).value| == |items|
  {
    hide Strip;
    if items != [] {
      var rest := ItemKeys(items[1..]).value;
      assert key == [key[0]] + rest;
      assert forall i :: 0 <= i < |rest| ==> rest[i] == key[i + 1];
      NoBlankItems(items[1..], rest);
    }
  }

  /** A non-empty request whose key has no blank name has too many phases or is a non-empty list. */
  lemma {:induction false} NoBlankNames(r: Request, key: seq<Phase>)
    requires Key(r) == Some(key) && key != [] && forall i :: 0 <= i < |key| ==> Strip(key[i].name) != ""
    ensures if |key| > MAX_PHASE_WINDOWS then Normalized(r) == Err(TooMany)
            else Normalized(r).Ok? && Normalized(r).value != []
  {
    hide Strip, ItemKeys, Phases, Sort;
    KeyLength(r.items);
    NoBlankItems(r.items, key);
  }

  lemma {:induction false} PlainDetermines(key: seq<Phase>, r: Request)
    requires Plain(key) && Key(r) == Some(key)
    ensures Normalized(r) == if |key| > MAX_PHASE_WINDOWS then Err(TooMany) else Ok(Sort(key, PhaseOrder()))
  {
    hide Clean, Sort, ItemKey, ItemPhase;
    KeyLength(r.items);
    if |key| <= MAX_PHASE_WINDOWS { CleanItems(r.items, key); }
  }

  /** The key as window objects, except that item `d` is a dictionary. */
  function AsItems(key: seq<Phase>, d: int): (items: seq<Item>)
    ensures |items| == |key|
  {
    seq(|key|, i requires 0 <= i < |key| =>
      if i == d then Dict(Some(key[i].name), Some(key[i].start), Some(key[i].end)) else Window(key[i]))
  }

  lemma {:induction false} AsItemsKey(key: seq<Phase>, d: int)
    ensures ItemKeys(AsItems(key, d)) == Some(key)
  {
    if key != [] {
      assert AsItems(key, d)[1..] == AsItems(key[1..], d - 1);
      AsItemsKey(key[1..], d - 1);
      assert key == [key[0]] + key[1..];
    }
  }

  lemma {:induction false} AsItemsPhases(key: seq<Phase>, d: int)
    ensures !(0 <= d < |key|) ==> Phases(AsItems(key, d)) == Ok(key)
    ensures 0 <= d < |key| && Strip(key[d].name) != "" ==> Phases(AsItems(key, d)) == Ok(key[d := key[d].(name := Strip(key[d].name))])
    ensures 0 <= d < |key| && Strip(key[d].name) == "" ==> Phases(AsItems(key, d)).Err?
  {
    hide Strip;
    if key != [] {
      assert AsItems(key, d)[1..] == AsItems(key[1..], d - 1);
      AsItemsPhases(key[1..], d - 1);
      assert key == [key[0]] + key[1..];
      if 1 <= d < |key| {
        assert key[1..][d - 1] == key[d];
        var p := key[d].(name := Strip(key[d].name));
        assert key[d := p] == [key[0]] + key[1..][d - 1 := p];
      } else if d == 0 {
        var p := key[0].(name := Strip(key[0].name));
        assert key[0 := p] == [p] + key[1..];
      }
    }
  }

  lemma {:induction false} OneChanged(key: seq<Phase>, d: nat, p: Phase)
    requires d < |key| && p != key[d]
    ensures Sort(key, PhaseOrder()) != Sort(key[d := p], PhaseOrder())
  {
    hide Sort, PhaseOrder;
    SortPermutes(key, PhaseOrder());
    SortPermutes(key[d := p], PhaseOrder());
    assert multiset(key[d := p])[p] == multiset(key)[p] + 1;
  }

  lemma {:induction false} NotPlainAmbiguous(key: seq<Phase>) returns (a: Request, b: Request)
    requires !Plain(key)
    ensures Key(a) == Some(key) && Key(b) == Some(key) && Normalized(a) != Normalized(b)
  {
    hide Clean, Sort, ItemKey, ItemPhase, PhaseOrder, AsItems;
    if key == [] {
      a, b := NoPhases, Items([]);
    } else {
      var d :| 0 <= d < |key| && !Clean(key[d].name);
      a, b := Items(AsItems(key, -1)), Items(AsItems(key, d));
      AsItemsKey(key, -1);
      AsItemsKey(key, d);
      AsItemsPhases(key, -1);
      AsItemsPhases(key, d);
      if Strip(key[d].name) != "" {
        NotClean(key[d].name);
        OneChanged(key, d, key[d].(name := Strip(key[d].name)));
      }
    }
  }

  lemma {:induction false} NotClean(name: string)
    requires !Clean(name) && Strip(name) != ""
    ensures Strip(name) != name
  {
  }

  /** A key stands for one normal form exactly when it is not empty and either too long or made of clean names. */
  lemma {:induction false} UnambiguousIffPlain(key: seq<Phase>)
    ensures Unambiguous(key) <==> Plain(key)
  {
    hide Plain, Normalized, Key;
    if Plain(key) {
      forall a, b | Key(a) == Some(key) && Key(b) == Some(key) ensures Normalized(a) == Normalized(b) {
        PlainDetermines(key, a);
        PlainDetermines(key, b);
      }
    } else {
      var a, b := NotPlainAmbiguous(key);
    }
  }

  /** Lists of dictionaries only, as the application stores them. */
  predicate DictForm(r: Request) {
    r.Items? && forall i :: 0 <= i < |r.items| ==> r.items[i].Dict?
  }

  lemma {:induction false} DictItemsSame(a: seq<Item>, b: seq<Item>)
    requires ItemKeys(a).Some? && ItemKeys(a) == ItemKeys(b)
    requires (forall i :: 0 <= i < |a| ==> a[i].Dict?) && (forall i :: 0 <= i < |b| ==> b[i].Dict?)
    ensures a == b
  {
    KeyLength(a);
    KeyLength(b);
    if a != [] {
      var ka, kb := ItemKeys(a).value, ItemKeys(b).value;
      assert ka[1..] == ItemKeys(a[1..]).value && kb[1..] == ItemKeys(b[1..]).value;
      assert ka[0] == ItemKey(a[0]).value && kb[0] == ItemKey(b[0]).value;
      DictItemsSame(a[1..], b[1..]);
      assert a == [a[0]] + a[1..] && b == [b[0]] + b[1..];
    }
  }

  /** Among lists of dictionaries the key determines the request. */
  lemma {:induction false} DictFormKeys(a: Request, b: Request)
    requires DictForm(a) && DictForm(b) && Key(a).Some? && Key(a) == Key(b)
    ensures a == b
  {
    DictItemsSame(a.items, b.items);
  }
}
